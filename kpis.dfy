/** The styled dashboard's three headline figures over the filtered view:
    `total_consultas`, `unidades_ativas` and `faturamento_total`. */
module Kpis {
  import opened Records
  import opened OptionLists
  import opened Aggregation

  datatype Kpis = Kpis(consultations: nat, activeUnits: nat, revenue: int)

  /** `len(view)`, `view[unit].nunique()` (missing units not counted) and
      `view[valor].sum()` (missing values skipped). Each figure agrees with
      the chart that shows the same quantity. */
  function ComputeKpis(view: seq<Record>): (k: Kpis)
    ensures k.consultations == SumMetrics(CountByUnit(view)) == SumMetrics(CountBySpecialty(view))
    ensures k.activeUnits == |Values(view, Unit)|
    ensures k.revenue == SumMetrics(RevenueByUnit(view))
  {
    Kpis(|view|, DistinctCount(view, Unit), Sum(view, ValueSum))
  }

  /** The unit chart has one bar per active unit, plus one for the rows
      without a unit when there are any. */
  lemma ActiveUnitsAndUnitBars(view: seq<Record>)
    ensures |CountByUnit(view)| == ComputeKpis(view).activeUnits + (if None in KeysOf(view, Unit) then 1 else 0)
  {
    var present := Values(view, Unit);
    var wrapped := set v | v in present :: Some(v);
    KeysAreValuesAndNull(view, Unit);
    WrappedCard(present);
    if None in KeysOf(view, Unit) {
      assert None !in wrapped;
      assert |wrapped + {None}| == |wrapped| + 1;
    }
  }

  /** The group keys of a column are its non-null values, plus the null key
      when some row lacks the column. */
  lemma KeysAreValuesAndNull(rows: seq<Record>, col: Column)
    ensures KeysOf(rows, col) ==
      (set v | v in Values(rows, col) :: Some(v)) + (if None in KeysOf(rows, col) then {None} else {})
  {
    var wrapped := set v | v in Values(rows, col) :: Some(v);
    forall k | k in KeysOf(rows, col) && k.Some? ensures k in wrapped {
      var r :| r in rows && Field(r, col) == k;
      assert k.value in Values(rows, col);
    }
    forall k | k in wrapped ensures k in KeysOf(rows, col) {
      var v :| v in Values(rows, col) && k == Some(v);
      var r :| r in rows && Field(r, col).Some? && Field(r, col).value == v;
      assert Field(r, col) == k;
    }
  }

  lemma {:induction false} WrappedCard(present: set<string>)
    ensures |set u | u in present :: Some(u)| == |present|
  {
    if present != {} {
      var x :| x in present;
      var rest := present - {x};
      WrappedCard(rest);
      assert (set u | u in present :: Some(u)) == (set u | u in rest :: Some(u)) + {Some(x)};
    }
  }
}
