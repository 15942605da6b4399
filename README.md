# Industrial energy demand dashboards — a verified model of the reshaping pipeline

Two dashboard scripts load the Eurostat energy balances for industry. One row holds
a sector (`nrg_bal`), a unit, a country (`geo`), a fuel (`siec`) and one value per
year. The user picks a sector, a unit and a country. Both scripts then run the same
pipeline and draw a stacked bar chart of consumption by fuel over 2005–2023:

1. build the three selector option lists, each the sorted distinct values of its column;
2. keep the rows matching the selection;
3. project them onto `siec` and the year columns, index them by fuel and transpose,
   which gives a year-by-fuel table;
4. clean it up in place: drop the `Total` column, drop years whose cells are all
   missing, fill the remaining missing cells with 0.

`ind_ener_dem_v2.py` also drops fuels whose values are all zero, then builds one
plotly trace per fuel. `ind_ener_dem.py` keeps every fuel and stacks matplotlib bars
on a `bottom` array that it updates in place.

Layout:

- `wrappers.dfy` (`Wrappers`): `Option`, `Result`, the `KeyError` error and `dict.get`.
- `seqs.dfy` (`Seqs`): `Keep`, the order-preserving selection behind every boolean mask, and `Positions`, the index form of a mask.
- `frames.dfy` (`Frames`): the labelled table `Table`, stored column by column.
  - Pure operations: transpose, column drop, all-missing row drop, fill, nonzero-column selection.
  - The class `Frame`, whose methods make the `inplace=True` calls.
- `records.dfy` (`Records`): the loaded rows, the plotted `YEARS`, the filter, the projection with its `KeyError`, and the filter–project–transpose composition.
- `selectors.dfy` (`Selectors`): Python's string order and the sorted distinct option lists.
- `interactive_chart.dfy` (`InteractiveChart`): `ind_ener_dem_v2.py`'s colour table, its trace loop and the whole script for one selection.
- `static_chart.dfy` (`StaticChart`): `ind_ener_dem.py`'s colour table, its stacking loop over a `bottom` array, and the whole script for one selection.

A missing (NaN) cell is `None`. Values are mathematical reals.

Two behaviours worth stating outright:

- Both scripts call `colors.get(fuel, None)` (ind_ener_dem.py:55, ind_ener_dem_v2.py:67). So an unmapped fuel gets `None`, and the chart library picks its colour. Only the two colour tables differ.
- Neither script validates cells (see "Left out").

## Model

| member | source | states |
|---|---|---|
| `Selectors.Less` | ind_ener_dem.py:11-13 | Python's `<` on strings, which `sorted` uses: lexicographic by code point. A proper prefix sorts before the longer string. |
| `Selectors.Options` | ind_ener_dem_v2.py:11-13 | The options for `nrg_bal`, `unit` or `geo` are ascending in Python's string order and hold no duplicates. A value is an option exactly when some row has it in that column. |
| `Selectors.SortedDistinct` | ind_ener_dem.py:11-13 | `sorted(set(values))`: the result is strictly ascending and holds exactly the given values. |
| `Selectors.SortedUnique` | ind_ener_dem.py:11-13 | Two strictly ascending lists with the same elements are equal. So the option list is the only sorted, duplicate-free arrangement of the column's values. |
| `Records.Filter` | ind_ener_dem_v2.py:21-25 | A row is kept exactly when its sector, unit and country all equal the selection. The column set is unchanged, and the rectangular shape of the table is kept. When no row matches, the result is empty, not an error. |
| `Records.FilterSingle` | ind_ener_dem.py:21-25 | A one-row table keeps its row exactly when the row matches the selection, and is empty otherwise. |
| `Records.FilterConcat` | ind_ener_dem.py:21-25 | Filtering two stacked tables gives the filtered first part followed by the filtered second part. So the kept rows stay in their original order. |
| `Records.MissingYears` | ind_ener_dem.py:27 | The labels `selected[['siec'] + years]` reports in its `KeyError`: a label is listed exactly when it is a plotted year that is not a column of the file. |
| `Records.Project` | ind_ener_dem_v2.py:27-28 | Projection plus `set_index('siec')`. It fails with a `KeyError` listing the missing years exactly when a plotted year is not a column. Otherwise the rows are the filtered rows' fuels in order, the columns are the years in list order, and cell (fuel j, year c) is row j's value in column c. |
| `Records.YearByFuel` | ind_ener_dem_v2.py:21-31 | Filter, project and transpose. The rows are the years in list order, the columns are the matching rows' fuels in row order, and cell (year i, fuel j) is the j-th matching row's value for year i. It fails exactly when a year column is absent. |
| `Records.YearByFuelRoundTrip` | ind_ener_dem.py:27-31 | Transposing the year-by-fuel table back gives the projected fuel-by-year table, so no value is lost. |
| `Records.PlottedYears` | ind_ener_dem.py:16-31 | With the scripts' year list, the year-by-fuel table has 19 rows, from 2005 to 2023. |
| `Records.ExampleYearByFuel` | ind_ener_dem.py:21-31 | Two Belgian rows (Coal 150/missing, Oil 200/missing) and one French row: the year-by-fuel table has years 2020 and 2021 and columns Coal and Oil, in that order. |
| `Records.ExampleCleaned` | ind_ener_dem.py:21-34 | The same example after cleanup: 2021, missing for both fuels, is dropped, and 2020 keeps Coal = 150 and Oil = 200. |
| `Frames.Transpose` | ind_ener_dem_v2.py:31 | `.T` swaps the row and column labels. Cell (i, c) afterwards is cell (c, i) before, and the result is rectangular. |
| `Frames.TransposeTwice` | ind_ener_dem.py:31 | Transposing twice gives back the table, including the labels of an empty axis. |
| `Frames.DropColumn` | ind_ener_dem_v2.py:32 | `drop(columns=['Total'], errors='ignore')`. No column is labelled `Total` afterwards. Every other column is kept, unchanged and in order, and the rows are untouched. |
| `Frames.DropAbsentColumn` | ind_ener_dem.py:32 | Dropping a label the table does not have returns the table unchanged, not an error. |
| `Frames.DropMissingRows` | ind_ener_dem_v2.py:33 | `dropna(axis=0, how='all')`: a row is kept exactly when it has a present cell, even a 0. Kept rows stay unchanged and in order, the columns are untouched, and every remaining row has a present cell. |
| `Frames.FillMissing` | ind_ener_dem_v2.py:34 | `fillna(v)`: no cell is missing afterwards. Present cells keep their value, missing ones become `v`, and the labels are unchanged. |
| `Frames.FillComplete` | ind_ener_dem.py:34 | Filling a table with no missing cell changes nothing. |
| `Frames.NonzeroColumns` | ind_ener_dem_v2.py:36 | `loc[:, (df != 0).any(axis=0)]`: a column is kept exactly when it has a nonzero cell. Kept columns stay unchanged and in order, and the row labels are untouched. |
| `Frames.Clean` | ind_ener_dem.py:32-34 | The three cleanup steps, in their order. The fuel labels left are exactly those of the table other than `Total`, and every year left is one of the table's years. |
| `Frames.DropColumnMembers` | ind_ener_dem.py:32 | After the drop, a label is a column exactly when it was one before and is not the dropped label. |
| `Frames.DropMissingRowsIndex` | ind_ener_dem.py:33 | `dropna` only removes rows: every row label left was a row label before. |
| `Frames.CleanShape` | ind_ener_dem.py:32-34 | After the three cleanup steps, in their order, the table is rectangular, has no missing cell and has no `Total` column. If no column is left, no row is left either. |
| `Frames.CleanIdempotent` | ind_ener_dem_v2.py:32-34 | Running the cleanup twice gives the same table as running it once. |
| `Frames.CleanExample` | ind_ener_dem_v2.py:33-34 | Cleaning 2020 (Coal 150, Oil 200) and 2021 (both missing) leaves only 2020, with both values. |
| `Frames.Frame.constructor` | ind_ener_dem_v2.py:31 | The frame made from the transposed table holds exactly that table. |
| `Frames.Frame.Drop` | ind_ener_dem.py:32 | The in-place drop: the frame's new table is `DropColumn` of its old one. |
| `Frames.Frame.DropNaAll` | ind_ener_dem.py:33 | The in-place `dropna`: the frame's new table is `DropMissingRows` of its old one. |
| `Frames.Frame.FillNa` | ind_ener_dem.py:34 | The in-place `fillna`: the frame's new table is `FillMissing` of its old one. |
| `Wrappers.Get` | ind_ener_dem_v2.py:67 | `dict.get(key, None)`: the mapped value when the key is present, `None` (not an error) when it is absent. |
| `InteractiveChart.ColorExamples` | ind_ener_dem_v2.py:47-59 | `Natural gas` maps to `red` and `Electricity` to `#13EAC9`. The unmapped `Coal` and `Hydrogen` get `None`. |
| `InteractiveChart.BuildTraces` | ind_ener_dem_v2.py:61-69 | The trace loop makes one trace per column, in column order. Each trace has the table's years as x, the column's values as y and the fuel as its name. Its colour is `colors[fuel]` when the fuel is mapped and `None` otherwise. |
| `InteractiveChart.Chart` | ind_ener_dem_v2.py:21-69 | The whole script for one selection. It fails exactly when a plotted year is not a column of the file, and the error names exactly the missing years, in list order. `Render` computes it with the in-place frame. |
| `InteractiveChart.ChartTraces` | ind_ener_dem_v2.py:21-69 | When the chart is drawn, no trace is `Total`. Every trace has exactly one y value per x value, none of them missing, and at least one nonzero. All traces share the same x values, each one a plotted year. |
| `InteractiveChart.TracedColumns` | ind_ener_dem_v2.py:36 | Every fuel kept by the zero filter of a cleaned table is not `Total`, has no missing value and holds a nonzero value. |
| `InteractiveChart.Render` | ind_ener_dem_v2.py:21-69 | The script run with its in-place frame. The result is the traces of the nonzero columns of the cleaned year-by-fuel table, or the `KeyError`. |
| `StaticChart.ColorExamples` | ind_ener_dem.py:43-52 | `Coal` maps to `black` and `Electricity` to `blue`. The unmapped `Hydrogen` gets `None`. |
| `StaticChart.StackBars` | ind_ener_dem.py:41-56 | `bottom` starts as zeros, one per kept year, and keeps that length. There is one bar per fuel, in column order, with the fuel's values, its name and `colors.get(fuel, None)`. Bar k sits on the sum of fuels 0..k-1 in each year, so the first bar sits on 0. At the end, `bottom` holds each year's total over all fuels. |
| `StaticChart.AddFuel` | ind_ener_dem.py:56 | `bottom += df[fuel].values` in place: each year's entry moves from the sum of the fuels before k to the sum of the fuels up to and including k. |
| `StaticChart.BaselineStep` | ind_ener_dem.py:55-56 | Drawing fuel k raises each year's baseline by exactly that fuel's value. So every segment starts where the previous one ended. |
| `StaticChart.Chart` | ind_ener_dem.py:21-56 | The whole script for one selection. It fails exactly when a plotted year is not a column of the file, and the error names exactly the missing years, in list order. `Render` computes it with the in-place frame. |
| `StaticChart.ChartBars` | ind_ener_dem.py:21-56 | When the chart is drawn, there is one bar per column of the cleaned table, in column order, all-zero fuels included and `Total` excluded. Each bar's x, heights and baselines have one entry per kept year. |
| `StaticChart.BarOnTop` | ind_ener_dem.py:54-56 | The bar of fuel k+1 starts, in every year, exactly where the bar of fuel k ends. |
| `StaticChart.BarsStacked` | ind_ener_dem.py:41-56 | The drawn bars stack: the first sits on zero, and each next bar starts where the previous one ends. |
| `StaticChart.Render` | ind_ener_dem.py:21-56 | The script run with its in-place frame. The result is the stacked bars of the cleaned year-by-fuel table, or the `KeyError`. |

## Left out

- Loading the CSV (`pd.read_csv`) is file I/O. The loaded table is an input.
- The `nrg_bal`, `unit`, `geo` and `siec` columns are always present. So the `KeyError` pandas raises when one is absent is not modelled. The first accesses are the selectors at ind_ener_dem.py:11-13 (`nrg_bal`, `unit`, `geo`) and the projection at line 27 (`siec`). An absent year column is modelled: the projection's `KeyError`.
- The `nrg_bal`, `unit`, `geo` and `siec` cells are non-missing strings. Two cases are not modelled: a NaN label, which makes `sorted(...unique())` raise `TypeError` at ind_ener_dem.py:11-13 before any selection exists, and a label column that `read_csv` parses as numbers, which `sorted` would then order numerically rather than by `Selectors.Less`.
- A cell that is neither a number nor missing cannot occur here: cells are `Option<real>`. pandas dtype inference is not modelled.
- Streamlit widgets and display (`st.sidebar.*`, `st.plotly_chart`, `st.pyplot`) are UI.
- Figure construction and layout (`go.Figure`, `update_layout`, `barmode='stack'`, `ax.bar` drawing, titles, tick angles, legends, sizes) are calls into the chart libraries. The model stops at the traces and bars handed to them.
- The unused `bottom` array of `ind_ener_dem_v2.py` (line 45) is dead code.
- Floating-point rounding in the baseline sums is not modelled: values are reals.
- `StaticChart.StackBars` stores a copy of `bottom` in each bar rather than the live array. This follows matplotlib, where `ax.bar` (ind_ener_dem.py:55) copies the baselines into the bar's rectangles before line 56 updates `bottom` in place. The aliasing itself is not modelled.
- IEEE NaN arithmetic is not modelled. `StaticChart.StackBars` requires a table without missing cells, which the script only reaches after `fillna`.
- `set_index('siec', inplace=True)` is folded into `Records.Project`, which builds the fuel-indexed table as a value instead of mutating the projected frame.
- `InteractiveChart.Render` and `StaticChart.Render` take the plotted year list as a parameter. The scripts pass their fixed list, `Records.YEARS`.
- Duplicate fuel labels: traces and bars take each column by its position. For a label occurring twice, pandas' `df[fuel]` would return every column with that label. The data have one row per fuel for a selection.
