/** The three chart tables `g1`, `g2`, `g3`: the view grouped by a column
    with `dropna=False` (so rows with a missing key form a group of their
    own), one metric per group (`size()` or `[valor].sum()`), and the groups
    sorted by that metric, descending (`sort_values(..., ascending=False)`). */
module Aggregation {
  import opened Records

  /** One line of a summary table: a group key (`None` is the null bucket)
      and its metric. */
  datatype Entry = Entry(key: Option<string>, metric: int)

  function KeySet(es: seq<Entry>): set<Option<string>>
  {
    set e | e in es :: e.key
  }

  predicate KeysDistinct(es: seq<Entry>)
  {
    forall i, j :: 0 <= i < j < |es| ==> es[i].key != es[j].key
  }

  predicate NonIncreasing(es: seq<Entry>)
  {
    forall i, j :: 0 <= i < j < |es| ==> es[i].metric >= es[j].metric
  }

  function SumMetrics(es: seq<Entry>): int
  {
    if es == [] then 0 else es[0].metric + SumMetrics(es[1..])
  }

  /** The metric of the first entry for `key`; 0 when there is none. */
  function Lookup(es: seq<Entry>, key: Option<string>): int
  {
    if es == [] then 0
    else if es[0].key == key then es[0].metric
    else Lookup(es[1..], key)
  }

  lemma KeySetCons(e: Entry, t: seq<Entry>)
    ensures KeySet([e] + t) == {e.key} + KeySet(t)
  {
    var s := [e] + t;
    forall k | k in KeySet(s) ensures k in {e.key} + KeySet(t) {
      var x :| x in s && x.key == k;
      if x != e {
        assert x in t;
      }
    }
    forall k | k in KeySet(t) ensures k in KeySet(s) {
      var x :| x in t && x.key == k;
      assert x in s;
    }
  }

  lemma KeysDistinctCons(e: Entry, t: seq<Entry>)
    ensures KeySet([e] + t) == {e.key} + KeySet(t)
    ensures KeysDistinct([e] + t) <==> e.key !in KeySet(t) && KeysDistinct(t)
  {
    KeySetCons(e, t);
    var s := [e] + t;
    if KeysDistinct(s) {
      forall i, j | 0 <= i < j < |t| ensures t[i].key != t[j].key {
        assert t[i] == s[i + 1] && t[j] == s[j + 1];
      }
      forall x | x in t ensures x.key != e.key {
        var j :| 0 <= j < |t| && t[j] == x;
        assert s[0] == e && s[j + 1] == x;
      }
    }
    if e.key !in KeySet(t) && KeysDistinct(t) {
      forall i, j | 0 <= i < j < |s| ensures s[i].key != s[j].key {
        assert s[j] == t[j - 1];
        if i == 0 {
          assert s[j].key in KeySet(t);
        } else {
          assert s[i] == t[i - 1];
        }
      }
    }
  }

  lemma SumMetricsCons(e: Entry, t: seq<Entry>)
    ensures SumMetrics([e] + t) == e.metric + SumMetrics(t)
  {
    assert ([e] + t)[1..] == t;
  }

  lemma NonIncreasingCons(e: Entry, t: seq<Entry>)
    ensures NonIncreasing([e] + t) <==> NonIncreasing(t) && forall x :: x in t ==> e.metric >= x.metric
  {
    var s := [e] + t;
    if NonIncreasing(s) {
      forall i, j | 0 <= i < j < |t| ensures t[i].metric >= t[j].metric {
        assert t[i] == s[i + 1] && t[j] == s[j + 1];
      }
      forall x | x in t ensures e.metric >= x.metric {
        var j :| 0 <= j < |t| && t[j] == x;
        assert s[0] == e && s[j + 1] == x;
      }
    }
    if NonIncreasing(t) && forall x :: x in t ==> e.metric >= x.metric {
      forall i, j | 0 <= i < j < |s| ensures s[i].metric >= s[j].metric {
        assert s[j] == t[j - 1];
        if i > 0 {
          assert s[i] == t[i - 1];
        }
      }
    }
  }

  /** With distinct keys, an entry's metric is what looking up its key gives. */
  lemma {:induction false} LookupMember(es: seq<Entry>, e: Entry)
    requires KeysDistinct(es) && e in es
    ensures Lookup(es, e.key) == e.metric
  {
    KeysDistinctCons(es[0], es[1..]);
    assert es == [es[0]] + es[1..];
    if es[0] != e {
      assert e in es[1..];
      LookupMember(es[1..], e);
    }
  }

  /** With distinct keys there are as many entries as keys. */
  lemma {:induction false} KeysDistinctCard(es: seq<Entry>)
    requires KeysDistinct(es)
    ensures |KeySet(es)| == |es|
  {
    if es != [] {
      KeysDistinctCons(es[0], es[1..]);
      assert es == [es[0]] + es[1..];
      KeysDistinctCard(es[1..]);
    }
  }

  /** Adds `c` to the metric of the entry for `key`, or appends a new entry
      when the key has not been met yet. */
  function Bump(es: seq<Entry>, key: Option<string>, c: int): (r: seq<Entry>)
    requires KeysDistinct(es)
    ensures KeysDistinct(r)
    ensures KeySet(r) == KeySet(es) + {key}
    ensures forall k :: Lookup(r, k) == Lookup(es, k) + (if k == key then c else 0)
    ensures SumMetrics(r) == SumMetrics(es) + c
  {
    if es == [] then
      assert KeySet([Entry(key, c)]) == {key};
      [Entry(key, c)]
    else
      KeysDistinctCons(es[0], es[1..]);
      assert es == [es[0]] + es[1..];
      if es[0].key == key then
        var r := [Entry(key, es[0].metric + c)] + es[1..];
        KeysDistinctCons(Entry(key, es[0].metric + c), es[1..]);
        r
      else
        var rest := Bump(es[1..], key, c);
        KeysDistinctCons(es[0], rest);
        [es[0]] + rest
  }

  /** `groupby(col, dropna=False)` with the metric `m`: one entry per key met
      in the rows, the null key included, whose metric is the key's total. */
  function Group(rows: seq<Record>, col: Column, m: Measure): (es: seq<Entry>)
    ensures KeysDistinct(es)
    ensures KeySet(es) == KeysOf(rows, col)
    ensures forall k :: Lookup(es, k) == Total(rows, col, m, k)
    ensures SumMetrics(es) == Sum(rows, m)
  {
    if rows == [] then []
    else
      var init, last := rows[..|rows| - 1], rows[|rows| - 1];
      KeysOfSnoc(init, last, col);
      assert rows == init + [last];
      Bump(Group(init, col, m), Field(last, col), Contribution(last, m))
  }

  /** Inserts `x` before the first entry whose metric it is not below. */
  function InsertByMetric(x: Entry, s: seq<Entry>): (r: seq<Entry>)
    ensures multiset(r) == multiset(s) + multiset{x}
  {
    if s == [] || x.metric >= s[0].metric then [x] + s
    else
      assert s == [s[0]] + s[1..];
      [s[0]] + InsertByMetric(x, s[1..])
  }

  /** Inserting into a non-increasing list keeps it non-increasing. */
  lemma {:induction false} InsertKeepsOrder(x: Entry, s: seq<Entry>)
    requires NonIncreasing(s)
    ensures NonIncreasing(InsertByMetric(x, s))
  {
    NonIncreasingCons(x, s);
    if s != [] {
      var t := s[1..];
      assert s == [s[0]] + t;
      NonIncreasingCons(s[0], t);
      if x.metric < s[0].metric {
        InsertKeepsOrder(x, t);
        var rest := InsertByMetric(x, t);
        forall e | e in rest ensures s[0].metric >= e.metric {
          assert e in multiset(rest);
        }
        NonIncreasingCons(s[0], rest);
      }
    }
  }

  /** Inserting an entry adds its key. */
  lemma {:induction false} InsertAddsKey(x: Entry, s: seq<Entry>)
    ensures KeySet(InsertByMetric(x, s)) == KeySet(s) + {x.key}
  {
    if s == [] || x.metric >= s[0].metric {
      KeySetCons(x, s);
    } else {
      var t := s[1..];
      assert s == [s[0]] + t;
      KeySetCons(s[0], t);
      InsertAddsKey(x, t);
      KeySetCons(s[0], InsertByMetric(x, t));
    }
  }

  /** Inserting an entry adds its metric to the total. */
  lemma {:induction false} InsertAddsMetric(x: Entry, s: seq<Entry>)
    ensures SumMetrics(InsertByMetric(x, s)) == SumMetrics(s) + x.metric
  {
    if s == [] || x.metric >= s[0].metric {
      SumMetricsCons(x, s);
    } else {
      var t := s[1..];
      assert s == [s[0]] + t;
      SumMetricsCons(s[0], t);
      InsertAddsMetric(x, t);
      SumMetricsCons(s[0], InsertByMetric(x, t));
    }
  }

  /** Inserting an entry whose key is new keeps the keys distinct. */
  lemma {:induction false} InsertKeepsKeysDistinct(x: Entry, s: seq<Entry>)
    requires KeysDistinct(s) && x.key !in KeySet(s)
    ensures KeysDistinct(InsertByMetric(x, s))
  {
    KeysDistinctCons(x, s);
    if s != [] && x.metric < s[0].metric {
      var t := s[1..];
      assert s == [s[0]] + t;
      KeysDistinctCons(s[0], t);
      InsertKeepsKeysDistinct(x, t);
      InsertAddsKey(x, t);
      KeysDistinctCons(s[0], InsertByMetric(x, t));
    }
  }

  /** `sort_values(metric, ascending=False)`: the same entries, the largest
      metric first. */
  function SortByMetric(es: seq<Entry>): (r: seq<Entry>)
    ensures NonIncreasing(r)
    ensures multiset(r) == multiset(es)
  {
    if es == [] then []
    else
      assert es == [es[0]] + es[1..];
      var sorted := SortByMetric(es[1..]);
      InsertKeepsOrder(es[0], sorted);
      InsertByMetric(es[0], sorted)
  }

  /** Sorting keeps the set of keys and the metric total. */
  lemma {:induction false} SortKeepsKeysAndTotal(es: seq<Entry>)
    ensures KeySet(SortByMetric(es)) == KeySet(es)
    ensures SumMetrics(SortByMetric(es)) == SumMetrics(es)
  {
    if es != [] {
      var t := es[1..];
      assert es == [es[0]] + t;
      KeySetCons(es[0], t);
      SumMetricsCons(es[0], t);
      SortKeepsKeysAndTotal(t);
      InsertAddsKey(es[0], SortByMetric(t));
      InsertAddsMetric(es[0], SortByMetric(t));
    }
  }

  /** Sorting keeps distinct keys distinct. */
  lemma {:induction false} SortKeepsKeysDistinct(es: seq<Entry>)
    requires KeysDistinct(es)
    ensures KeysDistinct(SortByMetric(es))
  {
    if es != [] {
      var t := es[1..];
      assert es == [es[0]] + t;
      KeysDistinctCons(es[0], t);
      SortKeepsKeysDistinct(t);
      SortKeepsKeysAndTotal(t);
      InsertKeepsKeysDistinct(es[0], SortByMetric(t));
    }
  }

  /** A chart table: the groups of `rows` by `col` under the metric `m`,
      sorted by metric, descending. */
  function Summary(rows: seq<Record>, col: Column, m: Measure): (s: seq<Entry>)
    ensures multiset(s) == multiset(Group(rows, col, m))
    ensures NonIncreasing(s)
    ensures KeysDistinct(s) && KeySet(s) == KeysOf(rows, col)
    ensures |s| == |KeysOf(rows, col)|
    ensures forall e :: e in s ==> e.metric == Total(rows, col, m, e.key)
    ensures SumMetrics(s) == Sum(rows, m)
    ensures s == [] <==> rows == []
  {
    var groups := Group(rows, col, m);
    var s := SortByMetric(groups);
    SortKeepsKeysAndTotal(groups);
    SortKeepsKeysDistinct(groups);
    forall e | e in s ensures e.metric == Total(rows, col, m, e.key) {
      assert e in multiset(groups);
      LookupMember(groups, e);
    }
    KeysDistinctCard(s);
    assert rows != [] ==> rows[0] in rows;
    s
  }

  /** A count table has no empty group, and its counts add up to the rows. */
  lemma CountSummary(rows: seq<Record>, col: Column)
    ensures forall e :: e in Summary(rows, col, Size) ==> e.metric >= 1
    ensures SumMetrics(Summary(rows, col, Size)) == |rows|
  {
    var s := Summary(rows, col, Size);
    forall e | e in s ensures e.metric >= 1 {
      assert e.key in KeySet(s);
      SizeOfPresentKey(rows, col, e.key);
    }
    SumOfSizes(rows);
  }

  /** `g1`: appointments per unit, the null unit included. */
  function CountByUnit(view: seq<Record>): (g1: seq<Entry>)
    ensures NonIncreasing(g1)
    ensures KeysDistinct(g1) && KeySet(g1) == KeysOf(view, Unit) && |g1| == |KeysOf(view, Unit)|
    ensures forall e :: e in g1 ==> 1 <= e.metric == Total(view, Unit, Size, e.key)
    ensures SumMetrics(g1) == |view|
    ensures g1 == [] <==> view == []
  {
    CountSummary(view, Unit);
    Summary(view, Unit, Size)
  }

  /** `g2`: appointments per specialty, the null specialty included. */
  function CountBySpecialty(view: seq<Record>): (g2: seq<Entry>)
    ensures NonIncreasing(g2)
    ensures KeysDistinct(g2) && KeySet(g2) == KeysOf(view, Specialty) && |g2| == |KeysOf(view, Specialty)|
    ensures forall e :: e in g2 ==> 1 <= e.metric == Total(view, Specialty, Size, e.key)
    ensures SumMetrics(g2) == |view|
    ensures g2 == [] <==> view == []
  {
    CountSummary(view, Specialty);
    Summary(view, Specialty, Size)
  }

  /** `g3`: revenue per unit, the null unit included; missing values add 0. */
  function RevenueByUnit(view: seq<Record>): (g3: seq<Entry>)
    ensures NonIncreasing(g3)
    ensures KeysDistinct(g3) && KeySet(g3) == KeysOf(view, Unit) && |g3| == |KeysOf(view, Unit)|
    ensures forall e :: e in g3 ==> e.metric == Total(view, Unit, ValueSum, e.key)
    ensures SumMetrics(g3) == Sum(view, ValueSum)
    ensures g3 == [] <==> view == []
  {
    Summary(view, Unit, ValueSum)
  }
}
