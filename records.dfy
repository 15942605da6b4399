/** The loaded energy-balance table, the selection filter and the projection onto the
    fixed year columns. */
module Records {
  import opened Wrappers
  import opened Seqs
  import opened Frames

  /** The year columns both scripts plot, in this order. */
  const YEARS: seq<string> := ["2005", "2006", "2007", "2008", "2009",
                               "2010", "2011", "2012", "2013", "2014", "2015", "2016", "2017", "2018",
                               "2019", "2020", "2021", "2022", "2023"]

  /** One row of the energy-balance file: the sector (`nrg_bal`), the unit, the country
      (`geo`), the fuel (`siec`) and one cell per further column, by column label. */
  datatype Record = Record(nrgBal: string, unit: string, geo: string, siec: string, obs: map<string, Cell>)

  /** The loaded file: the labels of its value columns and its rows. */
  datatype EnergyTable = EnergyTable(columns: set<string>, rows: seq<Record>)

  /** Every row has a cell in each value column and in no other. */
  predicate Rectangular(t: EnergyTable)
  {
    forall j :: 0 <= j < |t.rows| ==> t.rows[j].obs.Keys == t.columns
  }

  /** The row belongs to the selected sector, unit and country (exact, case-sensitive). */
  predicate Matches(r: Record, sector: string, unit: string, country: string)
  {
    r.nrgBal == sector && r.unit == unit && r.geo == country
  }

  /** The boolean-mask selection: the rows matching the selected triple, in their
      original order (see `Seqs.KeepAppend`); the columns are untouched, and no match
      gives an empty table rather than an error. */
  function Filter(t: EnergyTable, sector: string, unit: string, country: string): (r: EnergyTable)
    ensures r.columns == t.columns
    ensures forall x :: x in r.rows <==> x in t.rows && Matches(x, sector, unit, country)
    ensures Rectangular(t) ==> Rectangular(r)
  {
    var rows := Keep(t.rows, (x: Record) => Matches(x, sector, unit, country));
    assert forall j :: 0 <= j < |rows| ==> rows[j] in t.rows;
    EnergyTable(t.columns, rows)
  }

  /** Filtering the rows of two stacked tables is filtering each: the rows that
      survive keep their relative order. */
  lemma FilterConcat(columns: set<string>, a: seq<Record>, b: seq<Record>,
                     sector: string, unit: string, country: string)
    ensures Filter(EnergyTable(columns, a + b), sector, unit, country).rows ==
            Filter(EnergyTable(columns, a), sector, unit, country).rows +
            Filter(EnergyTable(columns, b), sector, unit, country).rows
  {
    KeepAppend(a, b, (x: Record) => Matches(x, sector, unit, country));
  }

  /** A single row is kept exactly when it matches. With `FilterConcat` this fixes the
      filtered rows completely, duplicates included. */
  lemma FilterSingle(columns: set<string>, x: Record, sector: string, unit: string, country: string)
    ensures Filter(EnergyTable(columns, [x]), sector, unit, country).rows ==
            if Matches(x, sector, unit, country) then [x] else []
  {
    assert [x][1..] == [];
  }

  /** The labels of `years` absent from `columns`, in list order. */
  function MissingYears(years: seq<string>, columns: set<string>): (m: seq<string>)
    ensures forall y :: y in m <==> y in years && y !in columns
  {
    Keep(years, (y: string) => y !in columns)
  }

  /** `selected[['siec'] + years]` followed by `set_index('siec')`: a fuel-by-year table
      whose row labels are the rows' fuels in row order and whose columns are `years` in
      list order; a year the file lacks is a `KeyError` naming every missing year. */
  function Project(t: EnergyTable, years: seq<string>): (r: Result<Table>)
    requires Rectangular(t)
    ensures r.Failure? <==> exists y :: y in years && y !in t.columns
    ensures r.Failure? ==> r.error == KeyError(MissingYears(years, t.columns))
    ensures r.Success? ==>
      WellFormed(r.value) && r.value.columns == years && |r.value.index| == |t.rows| &&
      (forall j :: 0 <= j < |t.rows| ==> r.value.index[j] == t.rows[j].siec) &&
      forall c, j :: 0 <= c < |years| && 0 <= j < |t.rows| ==> r.value.data[c][j] == t.rows[j].obs[years[c]]
  {
    var missing := MissingYears(years, t.columns);
    if missing != [] then
      assert missing[0] in missing;
      Failure(KeyError(missing))
    else
      assert forall c :: 0 <= c < |years| ==> years[c] in years;
      Success(Table(seq(|t.rows|, j requires 0 <= j < |t.rows| => t.rows[j].siec),
                    years,
                    seq(|years|, c requires 0 <= c < |years| =>
                      seq(|t.rows|, j requires 0 <= j < |t.rows| => t.rows[j].obs[years[c]]))))
  }

  /** Filter, project and transpose: the year-by-fuel table both scripts clean. Its rows
      are `years` in list order, its columns the fuels of the matching rows in row
      order, and the cell at (year i, fuel j) is the j-th matching row's value in
      column `years[i]`. */
  function YearByFuel(t: EnergyTable, years: seq<string>, sector: string, unit: string, country: string): (r: Result<Table>)
    requires Rectangular(t)
    ensures r.Success? <==> forall y :: y in years ==> y in t.columns
    ensures r.Failure? ==> r.error == KeyError(MissingYears(years, t.columns))
    ensures r.Success? ==>
      var rows := Filter(t, sector, unit, country).rows;
      WellFormed(r.value) && r.value.index == years && |r.value.columns| == |rows| &&
      (forall j :: 0 <= j < |rows| ==> r.value.columns[j] == rows[j].siec) &&
      forall i, j :: 0 <= i < |years| && 0 <= j < |rows| ==> r.value.data[j][i] == rows[j].obs[years[i]]
  {
    match Project(Filter(t, sector, unit, country), years)
    case Failure(e) => Failure(e)
    case Success(f) => Success(Transpose(f))
  }

  /** With the scripts' year list, the year-by-fuel table's rows are the 19 years
      2005 to 2023, in order. */
  lemma PlottedYears(src: EnergyTable, sector: string, unit: string, country: string)
    requires Rectangular(src)
    requires YearByFuel(src, YEARS, sector, unit, country).Success?
    ensures var index := YearByFuel(src, YEARS, sector, unit, country).value.index;
      |index| == 19 && index[0] == "2005" && index[18] == "2023"
  {
  }

  /** Transposing the year-by-fuel table back gives the projected fuel-by-year table of
      the matching rows: the reshaping loses no value. */
  lemma YearByFuelRoundTrip(t: EnergyTable, years: seq<string>, sector: string, unit: string, country: string)
    requires Rectangular(t)
    requires YearByFuel(t, years, sector, unit, country).Success?
    ensures Project(Filter(t, sector, unit, country), years).Success?
    ensures Transpose(YearByFuel(t, years, sector, unit, country).value) ==
            Project(Filter(t, sector, unit, country), years).value
  {
    TransposeTwice(Project(Filter(t, sector, unit, country), years).value);
  }

  /** The selection keeps the two Belgian rows. */
  lemma ExampleFilter(coal: Record, oil: Record, other: Record)
    requires Matches(coal, "Industry", "TJ", "BE") && Matches(oil, "Industry", "TJ", "BE")
    requires !Matches(other, "Industry", "TJ", "BE")
    ensures Filter(EnergyTable({"2020", "2021"}, [coal, oil, other]), "Industry", "TJ", "BE").rows == [coal, oil]
  {
    var p := (x: Record) => Matches(x, "Industry", "TJ", "BE");
    assert Keep([other], p) == [];
    assert Keep([oil, other], p) == [oil];
    assert [coal, oil, other][1..] == [oil, other];
    assert Keep([coal, oil, other], p) == [coal, oil];
  }

  /** The projection then the transpose lay the two fuels out side by side per year. */
  lemma ExampleYearByFuel(src: EnergyTable)
    requires src == EnergyTable({"2020", "2021"}, [
               Record("Industry", "TJ", "BE", "Coal", map["2020" := Some(150.0), "2021" := None]),
               Record("Industry", "TJ", "BE", "Oil", map["2020" := Some(200.0), "2021" := None]),
               Record("Industry", "TJ", "FR", "Oil", map["2020" := Some(900.0), "2021" := Some(1.0)])])
    ensures Rectangular(src)
    ensures YearByFuel(src, ["2020", "2021"], "Industry", "TJ", "BE") ==
            Success(Table(["2020", "2021"], ["Coal", "Oil"], [[Some(150.0), None], [Some(200.0), None]]))
  {
    var coal := src.rows[0];
    var oil := src.rows[1];
    var years := ["2020", "2021"];
    var selected := EnergyTable({"2020", "2021"}, [coal, oil]);
    var f := Table(["Coal", "Oil"], years, [[Some(150.0), Some(200.0)], [None, None]]);
    assert Rectangular(src) by {
      assert src.rows[2].obs.Keys == src.columns;
    }
    assert Filter(src, "Industry", "TJ", "BE") == selected by {
      ExampleFilter(coal, oil, src.rows[2]);
      assert src.rows == [coal, oil, src.rows[2]];
    }
    ExampleProject(selected, years);
    ExampleTranspose(f);
  }

  /** The projection of the two selected rows onto the two years. */
  lemma ExampleProject(selected: EnergyTable, years: seq<string>)
    requires years == ["2020", "2021"]
    requires selected == EnergyTable({"2020", "2021"}, [
               Record("Industry", "TJ", "BE", "Coal", map["2020" := Some(150.0), "2021" := None]),
               Record("Industry", "TJ", "BE", "Oil", map["2020" := Some(200.0), "2021" := None])])
    ensures Rectangular(selected)
    ensures Project(selected, years) == Success(Table(["Coal", "Oil"], years, [[Some(150.0), Some(200.0)], [None, None]]))
  {
    assert forall y :: y in years ==> y in selected.columns;
    var f := Project(selected, years).value;
    assert f.index == ["Coal", "Oil"];
    assert f.data[0][0] == Some(150.0) && f.data[0][1] == Some(200.0);
    assert f.data[1][0] == None && f.data[1][1] == None;
    assert f.data[0] == [Some(150.0), Some(200.0)];
    assert f.data[1] == [None, None];
    assert f.data == [[Some(150.0), Some(200.0)], [None, None]];
  }

  /** The transpose of that fuel-by-year table. */
  lemma ExampleTranspose(f: Table)
    requires f == Table(["Coal", "Oil"], ["2020", "2021"], [[Some(150.0), Some(200.0)], [None, None]])
    ensures Transpose(f) == Table(["2020", "2021"], ["Coal", "Oil"], [[Some(150.0), None], [Some(200.0), None]])
  {
    var yb := Transpose(f);
    assert yb.data[0] == [Some(150.0), None] && yb.data[1] == [Some(200.0), None];
  }

  /** The whole reshaping on that example: the 2021 row, missing for both fuels, is
      gone, and 2020 keeps Coal = 150 and Oil = 200. */
  lemma ExampleCleaned(src: EnergyTable)
    requires src == EnergyTable({"2020", "2021"}, [
               Record("Industry", "TJ", "BE", "Coal", map["2020" := Some(150.0), "2021" := None]),
               Record("Industry", "TJ", "BE", "Oil", map["2020" := Some(200.0), "2021" := None]),
               Record("Industry", "TJ", "FR", "Oil", map["2020" := Some(900.0), "2021" := Some(1.0)])])
    ensures Rectangular(src)
    ensures YearByFuel(src, ["2020", "2021"], "Industry", "TJ", "BE").Success?
    ensures Clean(YearByFuel(src, ["2020", "2021"], "Industry", "TJ", "BE").value) ==
            Table(["2020"], ["Coal", "Oil"], [[Some(150.0)], [Some(200.0)]])
  {
    ExampleYearByFuel(src);
    CleanExample(Table(["2020", "2021"], ["Coal", "Oil"], [[Some(150.0), None], [Some(200.0), None]]));
  }
}
