/** The filtered view `df_filtrado`: a copy of the table, narrowed by the
    selected day when one is selected and then by the selected unit when one
    is selected. Each narrowing is a boolean-mask `.loc[...]`, which keeps the
    matching rows in table order. */
module Filters {
  import opened Records
  import opened OptionLists

  /** One selectbox's choice: the column it filters and the chosen option. */
  datatype Criterion = Criterion(col: Column, choice: string)

  /** A row passes a criterion when "Todas" is chosen or when the row's
      value equals the choice; a missing value equals no choice. */
  predicate Accepts(c: Criterion, r: Record)
  {
    c.choice == All || Field(r, c.col) == Some(c.choice)
  }

  predicate AcceptsAll(cs: seq<Criterion>, r: Record)
  {
    forall i :: 0 <= i < |cs| ==> Accepts(cs[i], r)
  }

  /** `rows` without the rows that fail some criterion of `cs`, in order. */
  function Keep(rows: seq<Record>, cs: seq<Criterion>): (view: seq<Record>)
    ensures |view| <= |rows|
    ensures forall r :: r in view <==> r in rows && AcceptsAll(cs, r)
  {
    if rows == [] then []
    else
      assert forall r :: r in rows <==> r == rows[0] || r in rows[1..];
      (if AcceptsAll(cs, rows[0]) then [rows[0]] else []) + Keep(rows[1..], cs)
  }

  /** One conditional narrowing: `if choice != "Todas": df = df.loc[df[col] == choice]`. */
  function Narrow(rows: seq<Record>, c: Criterion): (view: seq<Record>)
    ensures c.choice == All ==> view == rows
    ensures view == Keep(rows, [c])
  {
    if c.choice == All then
      KeepAccepted(rows, [c]);
      rows
    else
      Keep(rows, [c])
  }

  /** The two narrowings in the order the dashboards apply them. */
  function Filtered(rows: seq<Record>, day: string, unit: string): (view: seq<Record>)
    ensures day == All && unit == All ==> view == rows
    ensures view == Keep(rows, Selection(day, unit))
  {
    var byDay := Narrow(rows, Criterion(Date, day));
    KeepKeep(rows, [Criterion(Date, day)], [Criterion(Unit, unit)]);
    assert [Criterion(Date, day)] + [Criterion(Unit, unit)] == Selection(day, unit);
    Narrow(byDay, Criterion(Unit, unit))
  }

  function Selection(day: string, unit: string): seq<Criterion>
  {
    [Criterion(Date, day), Criterion(Unit, unit)]
  }

  /** `a` is `b` with some rows left out and the rest in the same order. */
  predicate IsSubsequence(a: seq<Record>, b: seq<Record>)
  {
    if a == [] then true
    else if b == [] then false
    else if a[0] == b[0] then IsSubsequence(a[1..], b[1..])
    else IsSubsequence(a, b[1..])
  }

  /** A mask keeps every copy of a passing row and no copy of a failing one. */
  lemma {:induction false} KeepCounts(rows: seq<Record>, cs: seq<Criterion>)
    ensures forall r :: multiset(Keep(rows, cs))[r] == if AcceptsAll(cs, r) then multiset(rows)[r] else 0
  {
    if rows != [] {
      KeepCounts(rows[1..], cs);
      assert rows == [rows[0]] + rows[1..];
    }
  }

  /** When every row passes, nothing is dropped. */
  lemma {:induction false} KeepAccepted(rows: seq<Record>, cs: seq<Criterion>)
    requires forall r :: r in rows ==> AcceptsAll(cs, r)
    ensures Keep(rows, cs) == rows
  {
    if rows != [] {
      KeepAccepted(rows[1..], cs);
    }
  }

  /** When no row passes, the view is empty. */
  lemma {:induction false} KeepRejected(rows: seq<Record>, cs: seq<Criterion>)
    requires forall r :: r in rows ==> !AcceptsAll(cs, r)
    ensures Keep(rows, cs) == []
  {
    if rows != [] {
      KeepRejected(rows[1..], cs);
    }
  }

  /** Keeping is order-preserving: the view is a subsequence of the table. */
  lemma {:induction false} KeepIsSubsequence(rows: seq<Record>, cs: seq<Criterion>)
    ensures IsSubsequence(Keep(rows, cs), rows)
  {
    if rows != [] {
      KeepIsSubsequence(rows[1..], cs);
      var rest := Keep(rows[1..], cs);
      if AcceptsAll(cs, rows[0]) {
        assert Keep(rows, cs) == [rows[0]] + rest;
        assert ([rows[0]] + rest)[1..] == rest;
      } else {
        assert Keep(rows, cs) == rest;
        SubsequenceSkip(rest, rows);
      }
    }
  }

  lemma {:induction false} SubsequenceSkip(a: seq<Record>, b: seq<Record>)
    requires b != [] && IsSubsequence(a, b[1..])
    ensures IsSubsequence(a, b)
  {
    if a != [] && a[0] == b[0] {
      SubsequenceDropHead(a, b[1..]);
    }
  }

  lemma {:induction false} SubsequenceDropHead(a: seq<Record>, b: seq<Record>)
    requires a != [] && IsSubsequence(a, b)
    ensures IsSubsequence(a[1..], b)
  {
    if b != [] {
      if a[0] == b[0] {
        SubsequenceSkip(a[1..], b);
      } else {
        SubsequenceDropHead(a, b[1..]);
        SubsequenceSkip(a[1..], b);
      }
    }
  }

  /** Narrowing twice is narrowing once by both criteria. */
  lemma {:induction false} KeepKeep(rows: seq<Record>, cs: seq<Criterion>, ds: seq<Criterion>)
    ensures Keep(Keep(rows, cs), ds) == Keep(rows, cs + ds)
  {
    if rows != [] {
      KeepKeep(rows[1..], cs, ds);
      var r := rows[0];
      AcceptsAllConcat(cs, ds, r);
      if AcceptsAll(cs, r) {
        assert Keep(rows, cs) == [r] + Keep(rows[1..], cs);
        assert ([r] + Keep(rows[1..], cs))[1..] == Keep(rows[1..], cs);
      } else {
        assert Keep(rows, cs) == Keep(rows[1..], cs);
      }
    }
  }

  lemma AcceptsAllConcat(cs: seq<Criterion>, ds: seq<Criterion>, r: Record)
    ensures AcceptsAll(cs + ds, r) <==> AcceptsAll(cs, r) && AcceptsAll(ds, r)
  {
    if AcceptsAll(cs, r) && AcceptsAll(ds, r) {
      forall i | 0 <= i < |cs + ds| ensures Accepts((cs + ds)[i], r) {
        if i < |cs| {
          assert (cs + ds)[i] == cs[i];
        } else {
          assert (cs + ds)[i] == ds[i - |cs|];
        }
      }
    }
    if AcceptsAll(cs + ds, r) {
      forall i | 0 <= i < |cs| ensures Accepts(cs[i], r) {
        assert (cs + ds)[i] == cs[i];
      }
      forall i | 0 <= i < |ds| ensures Accepts(ds[i], r) {
        assert (cs + ds)[|cs| + i] == ds[i];
      }
    }
  }

  /** Keep depends on the criteria only through which rows they accept. */
  lemma {:induction false} KeepSameAcceptance(rows: seq<Record>, cs: seq<Criterion>, ds: seq<Criterion>)
    requires forall r :: r in rows ==> (AcceptsAll(cs, r) <==> AcceptsAll(ds, r))
    ensures Keep(rows, cs) == Keep(rows, ds)
  {
    if rows != [] {
      KeepSameAcceptance(rows[1..], cs, ds);
    }
  }

  /** The view keeps exactly the rows on the selected day (if any) at the
      selected unit (if any), each as often as the table holds it, in table
      order. */
  lemma {:induction false} FilteredIsOrderedSelection(rows: seq<Record>, day: string, unit: string)
    ensures IsSubsequence(Filtered(rows, day, unit), rows)
    ensures forall r :: r in Filtered(rows, day, unit) <==>
      r in rows && (day == All || r.date == Some(day)) && (unit == All || r.unit == Some(unit))
    ensures forall r ::
              multiset(Filtered(rows, day, unit))[r] ==
              (if (day == All || r.date == Some(day)) && (unit == All || r.unit == Some(unit)) then multiset(rows)[r] else 0)
  {
    KeepIsSubsequence(rows, Selection(day, unit));
    KeepCounts(rows, Selection(day, unit));
    forall r ensures AcceptsAll(Selection(day, unit), r) <==>
      (day == All || r.date == Some(day)) && (unit == All || r.unit == Some(unit))
    {
      var cs := Selection(day, unit);
      assert Accepts(cs[0], r) && Accepts(cs[1], r) ==> AcceptsAll(cs, r);
    }
  }

  /** A row whose date could not be parsed never matches a chosen day, and
      is kept when "Todas" is chosen for the day. */
  lemma NullDateRow(rows: seq<Record>, r: Record, day: string, unit: string)
    requires r in rows && r.date == None
    ensures day != All ==> r !in Filtered(rows, day, unit)
    ensures r in Filtered(rows, All, unit) <==> (unit == All || r.unit == Some(unit))
  {
    FilteredIsOrderedSelection(rows, day, unit);
    FilteredIsOrderedSelection(rows, All, unit);
  }

  /** Filtering an already filtered view with the same selection changes nothing. */
  lemma {:induction false} FilteredIdempotent(rows: seq<Record>, day: string, unit: string)
    ensures Filtered(Filtered(rows, day, unit), day, unit) == Filtered(rows, day, unit)
  {
    var cs := Selection(day, unit);
    var view := Keep(rows, cs);
    forall r | r in view ensures AcceptsAll(cs, r) {}
    KeepAccepted(view, cs);
  }

  /** Narrowing by unit first and by day second gives the same view. */
  lemma {:induction false} NarrowingsCommute(rows: seq<Record>, day: string, unit: string)
    ensures Narrow(Narrow(rows, Criterion(Unit, unit)), Criterion(Date, day)) == Filtered(rows, day, unit)
  {
    var cd, cu := Criterion(Date, day), Criterion(Unit, unit);
    KeepKeep(rows, [cu], [cd]);
    forall r | r in rows ensures AcceptsAll([cu] + [cd], r) <==> AcceptsAll(Selection(day, unit), r) {
      assert AcceptsAll([cu] + [cd], r) <==> Accepts(cu, r) && Accepts(cd, r) by {
        assert ([cu] + [cd])[0] == cu && ([cu] + [cd])[1] == cd;
      }
      assert AcceptsAll(Selection(day, unit), r) <==> Accepts(cd, r) && Accepts(cu, r) by {
        assert Selection(day, unit)[0] == cd && Selection(day, unit)[1] == cu;
      }
    }
    KeepSameAcceptance(rows, [cu] + [cd], Selection(day, unit));
  }
}
