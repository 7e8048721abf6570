/** The appointment table as loaded: one Record per CSV row, with the date
    column already coerced and formatted as `dd-mm-YYYY`. A missing cell
    (pandas NaN/NaT) is `None`. */
module Records {

  datatype Option<+T> = None | Some(value: T)

  /** One appointment (`dataconsulta`, `unidade`, `tipoconsulta`, `valor`).
      `value` is a monetary amount in integral cents. */
  datatype Record = Record(
    date: Option<string>,
    unit: Option<string>,
    specialty: Option<string>,
    value: Option<int>)

  /** The categorical columns the dashboards filter or group by. */
  datatype Column = Date | Unit | Specialty

  function Field(r: Record, col: Column): Option<string>
  {
    match col
    case Date => r.date
    case Unit => r.unit
    case Specialty => r.specialty
  }

  /** The non-null values of a column (what `dropna().unique()` yields, as a set). */
  function Values(rows: seq<Record>, col: Column): set<string>
  {
    set r | r in rows && Field(r, col).Some? :: Field(r, col).value
  }

  /** The group keys of a column with `dropna=False`: the null key included. */
  function KeysOf(rows: seq<Record>, col: Column): set<Option<string>>
  {
    set r | r in rows :: Field(r, col)
  }

  /** What an aggregation adds up per row: `size()` counts rows,
      `[valor].sum()` adds values and skips missing ones. */
  datatype Measure = Size | ValueSum

  function Contribution(r: Record, m: Measure): int
  {
    match m
    case Size => 1
    case ValueSum => if r.value.Some? then r.value.value else 0
  }

  /** Sum of the contributions of every row. */
  function Sum(rows: seq<Record>, m: Measure): int
  {
    if rows == [] then 0 else Sum(rows[..|rows| - 1], m) + Contribution(rows[|rows| - 1], m)
  }

  /** Sum of the contributions of the rows whose `col` equals `key`
      (the null key selects the rows where `col` is missing). */
  function Total(rows: seq<Record>, col: Column, m: Measure, key: Option<string>): int
  {
    if rows == [] then 0
    else
      var last := rows[|rows| - 1];
      Total(rows[..|rows| - 1], col, m, key) + (if Field(last, col) == key then Contribution(last, m) else 0)
  }

  /** Counting rows adds one per row. */
  lemma {:induction false} SumOfSizes(rows: seq<Record>)
    ensures Sum(rows, Size) == |rows|
  {
    if rows != [] {
      SumOfSizes(rows[..|rows| - 1]);
    }
  }

  /** A key that some row carries is counted at least once. */
  lemma {:induction false} SizeOfPresentKey(rows: seq<Record>, col: Column, key: Option<string>)
    requires key in KeysOf(rows, col)
    ensures Total(rows, col, Size, key) >= 1
  {
    var init := rows[..|rows| - 1];
    var last := rows[|rows| - 1];
    if Field(last, col) != key {
      var r :| r in rows && Field(r, col) == key;
      assert r in init by { assert rows == init + [last]; }
      SizeOfPresentKey(init, col, key);
    } else {
      SizeNonNegative(init, col, key);
    }
  }

  lemma {:induction false} SizeNonNegative(rows: seq<Record>, col: Column, key: Option<string>)
    ensures Total(rows, col, Size, key) >= 0
  {
    if rows != [] {
      SizeNonNegative(rows[..|rows| - 1], col, key);
    }
  }

  /** The key set of a table grows by the key of each appended row. */
  lemma KeysOfSnoc(init: seq<Record>, last: Record, col: Column)
    ensures KeysOf(init + [last], col) == KeysOf(init, col) + {Field(last, col)}
  {
    var rows := init + [last];
    forall k | k in KeysOf(rows, col) ensures k in KeysOf(init, col) + {Field(last, col)} {
      var r :| r in rows && Field(r, col) == k;
      if r != last {
        assert r in init;
      }
    }
  }
}
