/** One rendering of either dashboard: the sidebar's option lists, the
    filtered view for the current selection, and the three chart tables;
    the styled variant adds the headline figures. The CSV load, the widgets
    and the charts themselves are outside this model. */
module Dashboard {
  import opened Records
  import opened OptionLists
  import opened Filters
  import opened Aggregation
  import opened Kpis

  datatype Page = Page(
    dateOptions: seq<string>,
    unitOptions: seq<string>,
    view: seq<Record>,
    byUnit: seq<Entry>,
    bySpecialty: seq<Entry>,
    revenueByUnit: seq<Entry>)

  /** The shared filter-and-aggregate pipeline for the selected day and unit. */
  function Render(data: seq<Record>, day: string, unit: string): (p: Page)
    ensures p.dateOptions == DateOptions(data) && p.unitOptions == UnitOptions(data)
    ensures p.view == Filtered(data, day, unit)
    ensures p.byUnit == CountByUnit(p.view) && p.bySpecialty == CountBySpecialty(p.view)
    ensures p.revenueByUnit == RevenueByUnit(p.view)
    ensures SumMetrics(p.byUnit) == |p.view| && SumMetrics(p.bySpecialty) == |p.view|
    ensures SumMetrics(p.revenueByUnit) == Sum(p.view, ValueSum)
    ensures NonIncreasing(p.byUnit) && NonIncreasing(p.bySpecialty) && NonIncreasing(p.revenueByUnit)
    ensures p.view == [] <==> p.byUnit == [] && p.bySpecialty == [] && p.revenueByUnit == []
  {
    var view := Filtered(data, day, unit);
    var g1, g2, g3 := CountByUnit(view), CountBySpecialty(view), RevenueByUnit(view);
    Page(DateOptions(data), UnitOptions(data), view, g1, g2, g3)
  }

  /** The styled dashboard: the same page and its three headline figures. */
  function RenderStyled(data: seq<Record>, day: string, unit: string): (result: (Page, Kpis))
    ensures result.0 == Render(data, day, unit)
    ensures result.1.consultations == |result.0.view| == SumMetrics(result.0.byUnit)
    ensures result.1.activeUnits == |Values(result.0.view, Unit)|
    ensures result.1.revenue == SumMetrics(result.0.revenueByUnit)
  {
    var p := Render(data, day, unit);
    (p, ComputeKpis(p.view))
  }

  /** A unit that no row carries empties the view and every chart. */
  lemma UnknownUnitEmptiesPage(data: seq<Record>, day: string, unit: string)
    requires unit != All && Some(unit) !in KeysOf(data, Unit)
    ensures Render(data, day, unit).view == []
    ensures Render(data, day, unit).byUnit == []
    ensures Render(data, day, unit).bySpecialty == []
    ensures Render(data, day, unit).revenueByUnit == []
  {
    var cs := Selection(day, unit);
    forall r | r in data ensures !AcceptsAll(cs, r) {
      assert Field(r, Unit) in KeysOf(data, Unit);
      assert !Accepts(cs[1], r);
    }
    KeepRejected(data, cs);
  }

  function Row(date: string, unit: string, specialty: string, value: int): Record
  {
    Record(Some(date), Some(unit), Some(specialty), Some(value))
  }

  function Example(): seq<Record>
  {
    [Row("01-03-2024", "A", "Cardio", 100), Row("01-03-2024", "B", "Cardio", 50),
     Row("02-03-2024", "A", "Derm", 30)]
  }

  /** Filtering the three-row example by the first of March keeps the two
      rows of that day. */
  lemma ExampleDayView()
    ensures Filtered(Example(), "01-03-2024", All) == Example()[..2]
  {
    var data := Example();
    var day := Criterion(Date, "01-03-2024");
    assert AcceptsAll([day], data[0]) && AcceptsAll([day], data[1]);
    assert !AcceptsAll([day], data[2]) by {
      assert [day][0] == day;
      assert "02-03-2024"[1] != "01-03-2024"[1];
    }
    assert Keep(data[2..], [day]) == [] by {
      assert data[2..] == [data[2]] && data[2..][1..] == [];
    }
    assert Keep(data[1..], [day]) == [data[1]] by {
      assert data[1..][1..] == data[2..];
    }
  }

  /** On that day's view, revenue is 100 for unit A and 50 for unit B. */
  lemma ExampleDayRevenue()
    ensures RevenueByUnit(Example()[..2]) == [Entry(Some("A"), 100), Entry(Some("B"), 50)]
  {
    var view := Example()[..2];
    var r0, r1 := view[0], view[1];
    assert view[..1] == [r0] && view[..1][..0] == [];
    var a := Entry(Some("A"), 100);
    var b := Entry(Some("B"), 50);
    assert Group([r0], Unit, ValueSum) == [a];
    assert Bump([a], Some("B"), 50) == [a, b] by {
      assert [a][1..] == [];
      assert "A"[0] != "B"[0];
    }
    assert Group(view, Unit, ValueSum) == [a, b];
    assert SortByMetric([b]) == [b];
    assert SortByMetric([a, b]) == [a, b] by {
      assert [a, b][1..] == [b];
    }
  }

  /** Both appointments of that day are in cardiology. */
  lemma ExampleDaySpecialties()
    ensures CountBySpecialty(Example()[..2]) == [Entry(Some("Cardio"), 2)]
  {
  }

  /** Unfiltered, unit A has two appointments and unit B one. */
  lemma ExampleAllDays()
    ensures CountByUnit(Example()) == [Entry(Some("A"), 2), Entry(Some("B"), 1)]
  {
    var a2 := Entry(Some("A"), 2);
    var b := Entry(Some("B"), 1);
    ExampleUnitGroups();
    assert SortByMetric([b]) == [b];
    assert SortByMetric([a2, b]) == [a2, b] by {
      assert [a2, b][1..] == [b];
    }
  }

  lemma ExampleUnitGroups()
    ensures Group(Example(), Unit, Size) == [Entry(Some("A"), 2), Entry(Some("B"), 1)]
  {
    var data := Example();
    var r0, r1 := data[0], data[1];
    assert data[..2] == [r0, r1] && data[..2][..1] == [r0] && data[..2][..1][..0] == [];
    var a1 := Entry(Some("A"), 1);
    var b := Entry(Some("B"), 1);
    assert Group([r0], Unit, Size) == [a1];
    assert Bump([a1], Some("B"), 1) == [a1, b] by {
      assert [a1][1..] == [];
      assert "A"[0] != "B"[0];
    }
    assert Group([r0, r1], Unit, Size) == [a1, b] by {
      assert [r0, r1][..1] == [r0];
    }
    assert Bump([a1, b], Some("A"), 1) == [Entry(Some("A"), 2), b] by {
      assert [a1, b][1..] == [b];
    }
  }

  /** Day options are ordered as text: the first of February comes before
      the second of January. */
  lemma ExampleDayOrderIsTextual()
    ensures DateOptions([Row("02-01-2024", "A", "Cardio", 1), Row("01-02-2024", "A", "Cardio", 1)])
            == [All, "01-02-2024", "02-01-2024"]
  {
  }
}
