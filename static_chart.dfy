/** The static dashboard (ind_ener_dem.py): the shared reshaping, keeping every fuel,
    and bars stacked on a running per-year baseline. */
module StaticChart {
  import opened Wrappers
  import opened Frames
  import opened Records

  /** The fixed fuel-to-colour lookup of this script. */
  const COLORS: map<string, string> := map[
    "Natural gas" := "red",
    "Manufactured gases" := "orange",
    "Electricity" := "blue",
    "Oil" := "gray",
    "Coal" := "black",
    "Heat" := "purple",
    "Renewables and biofuels" := "green",
    "Other" := "brown"
  ]

  /** One stacked bar series: the years, the fuel's heights, the baseline it is drawn
      on, its label and its colour (`None` leaves the choice to the chart library). */
  datatype Bar = Bar(x: seq<string>, height: seq<real>, bottom: seq<real>, name: string, color: Option<string>)

  /** The mapped colours, and an unmapped fuel falling back to `None`. */
  lemma ColorExamples()
    ensures Get(COLORS, "Coal") == Some("black")
    ensures Get(COLORS, "Electricity") == Some("blue")
    ensures Get(COLORS, "Hydrogen") == None
  {
  }

  function Sum(s: seq<real>): real
  {
    if s == [] then 0.0 else s[0] + Sum(s[1..])
  }

  /** Adding one more value at the end adds it to the sum. */
  lemma {:induction false} SumSnoc(s: seq<real>, x: real)
    ensures Sum(s + [x]) == Sum(s) + x
  {
    if s != [] {
      assert (s + [x])[1..] == s[1..] + [x];
      SumSnoc(s[1..], x);
    }
  }

  /** The values of a column without missing cells. */
  function Values(column: seq<Cell>): (r: seq<real>)
    requires forall i :: 0 <= i < |column| ==> column[i].Some?
    ensures |r| == |column|
    ensures forall i :: 0 <= i < |r| ==> column[i] == Some(r[i])
  {
    seq(|column|, i requires 0 <= i < |column| => column[i].value)
  }

  /** The values of year row `i` across all fuels, in column order. */
  function RowValues(t: Table, i: nat): (r: seq<real>)
    requires WellFormed(t) && Complete(t) && i < |t.index|
    ensures |r| == |t.columns|
    ensures forall c :: 0 <= c < |r| ==> t.data[c][i] == Some(r[c])
  {
    seq(|t.columns|, c requires 0 <= c < |t.columns| => t.data[c][i].value)
  }

  /** Where fuel `k`'s segment starts in year `i`: the sum of fuels 0 .. k-1 there. */
  function Baseline(t: Table, k: nat, i: nat): real
    requires WellFormed(t) && Complete(t) && k <= |t.columns| && i < |t.index|
  {
    Sum(RowValues(t, i)[..k])
  }

  /** The baselines of fuel `k` over all years. */
  function Baselines(t: Table, k: nat): (r: seq<real>)
    requires WellFormed(t) && Complete(t) && k <= |t.columns|
    ensures |r| == |t.index|
  {
    seq(|t.index|, i requires 0 <= i < |t.index| => Baseline(t, k, i))
  }

  /** Drawing fuel `k` raises year `i`'s baseline by exactly fuel `k`'s value there. */
  lemma BaselineStep(t: Table, k: nat, i: nat)
    requires WellFormed(t) && Complete(t) && k < |t.columns| && i < |t.index|
    ensures Baseline(t, k + 1, i) == Baseline(t, k, i) + t.data[k][i].value
  {
    var row := RowValues(t, i);
    assert row[..k + 1] == row[..k] + [row[k]];
    SumSnoc(row[..k], row[k]);
  }

  /** The bar drawn for fuel `k`. */
  function BarOf(t: Table, k: nat): Bar
    requires WellFormed(t) && Complete(t) && k < |t.columns|
  {
    Bar(t.index, Values(t.data[k]), Baselines(t, k), t.columns[k], Get(COLORS, t.columns[k]))
  }

  /** `bottom += df[fuel].values` for fuel `k`: every year's baseline moves from fuel
      `k`'s to fuel `k + 1`'s. */
  method AddFuel(t: Table, k: nat, base: array<real>)
    requires WellFormed(t) && Complete(t) && k < |t.columns| && base.Length == |t.index|
    requires forall i :: 0 <= i < base.Length ==> base[i] == Baseline(t, k, i)
    modifies base
    ensures forall i :: 0 <= i < base.Length ==> base[i] == Baseline(t, k + 1, i)
  {
    for i := 0 to base.Length
      invariant forall j :: 0 <= j < i ==> base[j] == Baseline(t, k + 1, j)
      invariant forall j :: i <= j < base.Length ==> base[j] == Baseline(t, k, j)
    {
      BaselineStep(t, k, i);
      base[i] := base[i] + t.data[k][i].value;
    }
  }

  /** The plotting loop over a numpy `bottom` array: `bottom` starts as zeros, one per
      year row, and after each fuel grows by that fuel's values. Each bar is drawn on
      the sum of the fuels before it, so every segment starts where the previous one
      ended; the first sits on zero, and the final `bottom` holds each year's total
      over all fuels. */
  method StackBars(t: Table) returns (bars: seq<Bar>, bottom: seq<real>)
    requires WellFormed(t) && Complete(t)
    ensures |bars| == |t.columns|
    ensures forall k :: 0 <= k < |bars| ==>
      bars[k].x == t.index && bars[k].height == Values(t.data[k]) && bars[k].name == t.columns[k] &&
      (t.columns[k] in COLORS ==> bars[k].color == Some(COLORS[t.columns[k]])) &&
      (t.columns[k] !in COLORS ==> bars[k].color == None)
    ensures forall k :: 0 <= k < |bars| ==> bars[k].bottom == Baselines(t, k)
    ensures |bars| > 0 ==> forall i :: 0 <= i < |bars[0].bottom| ==> bars[0].bottom[i] == 0.0
    ensures |bottom| == |t.index|
    ensures forall i :: 0 <= i < |t.index| ==> bottom[i] == Sum(RowValues(t, i))
  {
    var base := new real[|t.index|](_ => 0.0);
    bars := [];
    for k := 0 to |t.columns|
      invariant |bars| == k
      invariant forall i :: 0 <= i < base.Length ==> base[i] == Baseline(t, k, i)
      invariant forall m :: 0 <= m < k ==> bars[m] == BarOf(t, m)
    {
      assert base[..] == Baselines(t, k);
      // `ax.bar` copies the current baselines into the bar's rectangles, so the bar
      // keeps a snapshot of `bottom`, not an alias that the next line would change.
      bars := bars + [Bar(t.index, Values(t.data[k]), base[..], t.columns[k], Get(COLORS, t.columns[k]))];
      AddFuel(t, k, base);
    }
    forall i | 0 <= i < |t.index| ensures base[i] == Sum(RowValues(t, i)) {
      assert RowValues(t, i)[..|t.columns|] == RowValues(t, i);
    }
    bottom := base[..];
  }

  /** The bars of a cleaned table, one per column in column order. */
  function BarsOf(t: Table): (r: seq<Bar>)
    requires WellFormed(t) && Complete(t)
    ensures |r| == |t.columns|
  {
    seq(|t.columns|, k requires 0 <= k < |t.columns| => BarOf(t, k))
  }

  /** What the script draws for one selection, given its list of plotted `years`
      (`Records.YEARS`): a `KeyError` when the file lacks one of them, otherwise the
      stacked bars of the cleaned table, every fuel column kept. It fails exactly when a
      plotted year is absent, and the error names the absent years in list order. */
  function Chart(years: seq<string>, src: EnergyTable, sector: string, unit: string, country: string): (r: Result<seq<Bar>>)
    requires Rectangular(src)
    ensures r.Failure? <==> MissingYears(years, src.columns) != []
    ensures r.Failure? ==> r.error == KeyError(MissingYears(years, src.columns))
  {
    var m := MissingYears(years, src.columns);
    assert m != [] ==> m[0] in m;
    match YearByFuel(src, years, sector, unit, country)
    case Failure(e) => Failure(e)
    case Success(yb) =>
      CleanShape(yb);
      Success(BarsOf(Clean(yb)))
  }

  /** When the chart is drawn, there is one bar per column of the cleaned table, in
      column order, all-zero fuels included and `Total` excluded, and each bar's x,
      heights and baselines have one entry per kept year. */
  lemma ChartBars(years: seq<string>, src: EnergyTable, sector: string, unit: string, country: string)
    requires Rectangular(src)
    requires Chart(years, src, sector, unit, country).Success?
    ensures var yb := YearByFuel(src, years, sector, unit, country).value;
      var bars := Chart(years, src, sector, unit, country).value;
      |bars| == |Clean(yb).columns| &&
      forall k :: 0 <= k < |bars| ==>
        bars[k].name == Clean(yb).columns[k] && bars[k].name != TOTAL &&
        |bars[k].bottom| == |bars[k].height| == |bars[k].x| == |Clean(yb).index|
  {
    var yb := YearByFuel(src, years, sector, unit, country).value;
    var c := Clean(yb);
    CleanShape(yb);
    assert forall k :: 0 <= k < |c.columns| ==> c.columns[k] in c.columns;
  }

  /** `above` starts, in every year, exactly where `below` ends. */
  predicate OnTopOf(below: Bar, above: Bar)
  {
    |below.bottom| == |below.height| == |above.bottom| &&
    forall i :: 0 <= i < |above.bottom| ==> above.bottom[i] == below.bottom[i] + below.height[i]
  }

  /** Fuel `k + 1`'s bar sits on top of fuel `k`'s. */
  lemma BarOnTop(t: Table, k: nat)
    requires WellFormed(t) && Complete(t) && k + 1 < |t.columns|
    ensures OnTopOf(BarOf(t, k), BarOf(t, k + 1))
  {
    forall i | 0 <= i < |t.index|
      ensures Baseline(t, k + 1, i) == Baseline(t, k, i) + Values(t.data[k])[i]
    {
      BaselineStep(t, k, i);
    }
  }

  /** The bars stack: the first sits on zero, and each next bar starts in every year
      exactly where the previous one ends. */
  lemma BarsStacked(t: Table)
    requires WellFormed(t) && Complete(t)
    ensures var bars := BarsOf(t);
      (|bars| > 0 ==> forall i :: 0 <= i < |bars[0].bottom| ==> bars[0].bottom[i] == 0.0) &&
      forall k :: 0 <= k < |bars| - 1 ==> OnTopOf(bars[k], bars[k + 1])
  {
    var bars := BarsOf(t);
    forall k | 0 <= k < |bars| - 1 ensures OnTopOf(bars[k], bars[k + 1]) {
      BarOnTop(t, k);
    }
    forall i | 0 <= i < |t.index| && |bars| > 0 ensures bars[0].bottom[i] == 0.0 {
      assert RowValues(t, i)[..0] == [];
    }
  }

  /** The script run for one selection, with the cleanup done in place on a frame. */
  method Render(years: seq<string>, src: EnergyTable, sector: string, unit: string, country: string)
    returns (r: Result<seq<Bar>>)
    requires Rectangular(src)
    ensures r == Chart(years, src, sector, unit, country)
  {
    var yb := YearByFuel(src, years, sector, unit, country);
    if yb.Failure? {
      return Failure(yb.error);
    }
    var frame := new Frame(yb.value);
    frame.Drop(TOTAL);
    frame.DropNaAll();
    frame.FillNa(0.0);
    var t := frame.Value();
    assert t == Clean(yb.value);
    CleanShape(yb.value);
    var bars, _ := StackBars(t);
    assert bars == BarsOf(t) by {
      forall k | 0 <= k < |bars| ensures bars[k] == BarsOf(t)[k] {
        assert bars[k] == BarOf(t, k);
      }
    }
    return Success(bars);
  }
}
