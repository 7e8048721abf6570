/** The sidebar's two selectbox option lists: the distinct non-null values
    of a column, sorted ascending as strings, behind the "Todas" (all)
    sentinel. Dates are compared as their `dd-mm-YYYY` text, so the order is
    lexicographic, not chronological. */
module OptionLists {
  import opened Records
  import opened Lexicographic

  /** The sentinel that stands for "no filter on this column". */
  const All: string := "Todas"

  /** Inserts `x` into a strictly ascending list, unless it is already there. */
  function InsertUnique(x: string, s: seq<string>): (r: seq<string>)
    requires StrictlySorted(s)
    ensures StrictlySorted(r)
    ensures forall y :: y in r <==> y in s || y == x
  {
    if s == [] then [x]
    else if x == s[0] then s
    else if Less(x, s[0]) then
      assert forall j :: 0 < j < |s| ==> Less(x, s[j]) by {
        forall j | 0 < j < |s| ensures Less(x, s[j]) {
          LessTransitive(x, s[0], s[j]);
        }
      }
      [x] + s
    else
      LessTotal(x, s[0]);
      var rest := InsertUnique(x, s[1..]);
      assert forall y :: y in rest ==> Less(s[0], y);
      [s[0]] + rest
  }

  /** The non-null values of a column, in table order (`dropna()`). */
  function DropNa(rows: seq<Record>, col: Column): (vs: seq<string>)
    ensures forall v :: v in vs <==> v in Values(rows, col)
  {
    if rows == [] then []
    else
      var rest := DropNa(rows[1..], col);
      assert forall r :: r in rows <==> r == rows[0] || r in rows[1..];
      match Field(rows[0], col)
      case None => rest
      case Some(v) => [v] + rest
  }

  /** `sorted(set(vs))`: each distinct value once, ascending. */
  function SortedDistinct(vs: seq<string>): (r: seq<string>)
    ensures StrictlySorted(r)
    ensures forall y :: y in r <==> y in vs
  {
    if vs == [] then [] else InsertUnique(vs[0], SortedDistinct(vs[1..]))
  }

  /** `["Todas"] + sorted(df[col].dropna().unique().tolist())`. */
  function OptionList(rows: seq<Record>, col: Column): (opts: seq<string>)
    ensures |opts| == 1 + |Values(rows, col)|
    ensures opts[0] == All
    ensures StrictlySorted(opts[1..])
    ensures forall v :: v in opts[1..] <==> v in Values(rows, col)
  {
    var distinct := SortedDistinct(DropNa(rows, col));
    StrictlySortedCard(distinct);
    assert (set x | x in distinct) == Values(rows, col);
    [All] + distinct
  }

  /** The day selectbox: the distinct formatted dates; a row whose date could
      not be parsed contributes nothing. */
  function DateOptions(rows: seq<Record>): (opts: seq<string>)
    ensures |opts| >= 1 && opts[0] == All && StrictlySorted(opts[1..])
    ensures forall d :: d in opts[1..] <==> exists r :: r in rows && r.date == Some(d)
  {
    var opts := OptionList(rows, Date);
    assert forall d :: d in Values(rows, Date) <==> exists r :: r in rows && r.date == Some(d);
    opts
  }

  /** The unit selectbox: the distinct non-null units. */
  function UnitOptions(rows: seq<Record>): (opts: seq<string>)
    ensures |opts| >= 1 && opts[0] == All && StrictlySorted(opts[1..])
    ensures forall u :: u in opts[1..] <==> exists r :: r in rows && r.unit == Some(u)
  {
    var opts := OptionList(rows, Unit);
    assert forall u :: u in Values(rows, Unit) <==> exists r :: r in rows && r.unit == Some(u);
    opts
  }

  /** The number of distinct non-null values of a column (`nunique()`). */
  function DistinctCount(rows: seq<Record>, col: Column): (n: nat)
    ensures n == |Values(rows, col)|
  {
    |OptionList(rows, col)| - 1
  }
}
