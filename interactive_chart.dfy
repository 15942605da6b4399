/** The interactive dashboard (ind_ener_dem_v2.py): the shared reshaping, the removal
    of all-zero fuels and one bar trace per remaining fuel. */
module InteractiveChart {
  import opened Wrappers
  import opened Frames
  import opened Records

  /** The fixed fuel-to-colour lookup of this script. */
  const COLORS: map<string, string> := map[
    "Solid fossil fuels" := "brown",
    "Peat and peat products" := "navy",
    "Natural gas" := "red",
    "Manufactured gases" := "orange",
    "Electricity" := "#13EAC9",
    "Oil" := "gray",
    "Oil and petroleum products (excluding biofuel portion)" := "#580F41",
    "Nuclear heat" := "blue",
    "Heat" := "lime",
    "Renewables and biofuels" := "green",
    "Oil shale and oil sands" := "#A52A2A"
  ]

  /** A bar trace: the years, the fuel's series, its name and its colour (`None` leaves
      the choice to the chart library). */
  datatype Trace = Trace(x: seq<string>, y: seq<Cell>, name: string, color: Option<string>)

  /** The mapped colours, and an unmapped fuel falling back to `None`. */
  lemma ColorExamples()
    ensures Get(COLORS, "Natural gas") == Some("red")
    ensures Get(COLORS, "Electricity") == Some("#13EAC9")
    ensures Get(COLORS, "Coal") == None && Get(COLORS, "Hydrogen") == None
  {
  }

  /** The trace loop: one trace per column of `t`, in column order, each drawn over the
      table's years with the column's values, named after the fuel and coloured
      `COLORS[fuel]` when the fuel is mapped and `None` otherwise. */
  method BuildTraces(t: Table) returns (traces: seq<Trace>)
    requires WellFormed(t)
    ensures |traces| == |t.columns|
    ensures forall k :: 0 <= k < |traces| ==>
      traces[k].x == t.index && traces[k].y == t.data[k] && traces[k].name == t.columns[k] &&
      (t.columns[k] in COLORS ==> traces[k].color == Some(COLORS[t.columns[k]])) &&
      (t.columns[k] !in COLORS ==> traces[k].color == None)
  {
    traces := [];
    for k := 0 to |t.columns|
      invariant |traces| == k
      invariant forall m :: 0 <= m < k ==> traces[m] == Trace(t.index, t.data[m], t.columns[m], Get(COLORS, t.columns[m]))
    {
      var fuel := t.columns[k];
      traces := traces + [Trace(t.index, t.data[k], fuel, Get(COLORS, fuel))];
    }
  }

  /** The traces of a cleaned table, one per column in column order. */
  function TracesOf(t: Table): (r: seq<Trace>)
    requires WellFormed(t)
    ensures |r| == |t.columns|
  {
    seq(|t.columns|, k requires 0 <= k < |t.columns| => Trace(t.index, t.data[k], t.columns[k], Get(COLORS, t.columns[k])))
  }

  /** What the script shows for one selection, given its list of plotted `years`
      (`Records.YEARS`): a `KeyError` when the file lacks one of them, otherwise the
      traces of the cleaned table's nonzero fuels. It fails exactly when a plotted year
      is absent, and the error names the absent years in list order. */
  function Chart(years: seq<string>, src: EnergyTable, sector: string, unit: string, country: string): (r: Result<seq<Trace>>)
    requires Rectangular(src)
    ensures r.Failure? <==> MissingYears(years, src.columns) != []
    ensures r.Failure? ==> r.error == KeyError(MissingYears(years, src.columns))
  {
    var m := MissingYears(years, src.columns);
    assert m != [] ==> m[0] in m;
    match YearByFuel(src, years, sector, unit, country)
    case Failure(e) => Failure(e)
    case Success(yb) => Success(TracesOf(NonzeroColumns(Clean(yb))))
  }

  /** When the chart is drawn, no trace is the `Total` column, every trace has a value
      for every kept year and at least one nonzero value, and every trace is drawn
      over the same years, each a year of the plotted range. */
  lemma ChartTraces(years: seq<string>, src: EnergyTable, sector: string, unit: string, country: string)
    requires Rectangular(src)
    requires Chart(years, src, sector, unit, country).Success?
    ensures var traces := Chart(years, src, sector, unit, country).value;
      forall k :: 0 <= k < |traces| ==>
        traces[k].name != TOTAL &&
        |traces[k].y| == |traces[k].x| &&
        (forall i :: 0 <= i < |traces[k].y| ==> traces[k].y[i].Some?) &&
        (exists i :: 0 <= i < |traces[k].y| && traces[k].y[i] != Some(0.0)) &&
        traces[k].x == traces[0].x &&
        forall i :: 0 <= i < |traces[k].x| ==> traces[k].x[i] in years
  {
    var yb := YearByFuel(src, years, sector, unit, country).value;
    var c := Clean(yb);
    CleanShape(yb);
    TracedColumns(c);
    assert NonzeroColumns(c).index == c.index;
  }

  /** The columns of a cleaned table that survive the zero filter are complete, are
      not `Total` and each hold a nonzero value. */
  lemma TracedColumns(c: Table)
    requires WellFormed(c) && Complete(c) && TOTAL !in c.columns
    ensures var t := NonzeroColumns(c);
      forall k :: 0 <= k < |t.columns| ==>
        t.columns[k] != TOTAL &&
        (forall i :: 0 <= i < |t.data[k]| ==> t.data[k][i].Some?) &&
        (exists i :: 0 <= i < |t.data[k]| && t.data[k][i] != Some(0.0))
  {
    var t := NonzeroColumns(c);
    var keep := NonzeroPositions(c);
    forall k | 0 <= k < |t.columns|
      ensures t.columns[k] != TOTAL
      ensures forall i :: 0 <= i < |t.data[k]| ==> t.data[k][i].Some?
      ensures exists i :: 0 <= i < |t.data[k]| && t.data[k][i] != Some(0.0)
    {
      assert c.columns[keep[k]] in c.columns;
      assert t.data[k] == c.data[keep[k]];
      assert HasNonzero(t, k);
    }
  }

  /** The script run for one selection, with the cleanup done in place on a frame. */
  method Render(years: seq<string>, src: EnergyTable, sector: string, unit: string, country: string)
    returns (r: Result<seq<Trace>>)
    requires Rectangular(src)
    ensures r == Chart(years, src, sector, unit, country)
  {
    var yb := YearByFuel(src, years, sector, unit, country);
    if yb.Failure? {
      return Failure(yb.error);
    }
    var frame := new Frame(yb.value);
    frame.Drop(TOTAL);
    frame.DropNaAll();
    frame.FillNa(0.0);
    var nonzero := NonzeroColumns(frame.Value());
    var traces := BuildTraces(nonzero);
    assert traces == TracesOf(nonzero);
    return Success(traces);
  }
}
