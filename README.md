# Row selection of the gapminder dashboard

This project models the logic the dashboard implements itself: the row-selection step inside
each page's Dash callback. A callback receives the values of its controls: a multi-select
dropdown of identifiers, a two-handled range slider and, on some pages, a variable dropdown.
It then does four things:

1. It checks a guard on those values and may return `dash.no_update`.
2. It keeps the rows whose numeric column lies in the slider's closed interval (a boolean mask).
3. It loops over the selected identifiers in the order given and appends, for each one, the
   kept rows with that identifier.
4. It joins the slices with `np.concatenate` into a table with the source's column list.

The generic step lives in module `Selection`. It is generic over the row type, the identifier
column and the mask. `KeepRows` is the mask and `Slice` is one identifier's rows. `CollectSlices`
is the append loop, a method with loop invariants. `Concatenate` is `np.concatenate`, which
raises on an empty list. `Grouped` is what the loop and the concatenation yield together. The
lemmas next to it state membership (both directions), order and multiplicity.

The pages instantiate this step:

- `Europe` (apps/Europe.py): European countries by population over the plotly sample table.
  This module also has the bar chart's y-axis rule and the choropleth's colour range.
- `Task123` (apps/task123.py): continents by population. `update_graph` reads the `gapminder`
  package's table and `update_map` reads the plotly sample table. The two callbacks have
  different guards and column lists.
- `Dashboard` (apps/dashboard.py): counties by a two-column predicate over a shot table. As
  written, this callback raises on every non-empty selection (see Findings). `UpdateGraph`
  models it as written and `UpdateGraphFixed` models the evident intent.

Module `Gapminder` holds the row type, the two column lists, the numeric columns, min/max and
the colour range. Module `Callback` holds the shared values: Python's `None` as `Option`, the
slider interval, Python truthiness, the exceptions a callback can raise, and a callback's
three possible outcomes (`NoUpdate`, `Raised`, `Updated`).

Each callback body is a method of its arguments. The datasets are parameters. Python
exceptions become `Raised(error)`:

- `None[0]` becomes `NotSubscriptable`.
- `for j in None` becomes `NotIterable`.
- `np.concatenate([])` becomes `EmptyConcatenation`.
- `df[name]` for a name that is not a numeric column becomes `ColumnNotFound`.
- Reading an unassigned local becomes `UnboundLocal`.

Two behaviours of the code are easy to miss:

- The selection is a list, not a set. A repeated entry duplicates its rows.
  `Europe.update_graphs` and `Task123.update_map` short-circuit only when all three inputs are
  falsy, so an empty selection with a slider value reaches `np.concatenate([])` and raises.
  `Task123.update_graph` and the dashboard callback short-circuit on an empty selection.
- The dashboard's slider is labelled "Select Build Up Pass Range" (apps/dashboard.py:50), but
  line 78 filters two different columns. The model keeps that mask as written
  (`Dashboard.AsWrittenMask`) and uses the labelled mask only in `Dashboard.UpdateGraphFixed`.

## Model

| member | source | states |
|---|---|---|
| `Selection.KeepRows` | apps/Europe.py:123 | the mask keeps exactly the rows that satisfy it (x is kept iff x is in the table and satisfies the predicate), never more rows than the table |
| `Selection.Slice` | apps/Europe.py:126 | `d[d[key] == j]` holds exactly the rows of `d` whose identifier is `j` |
| `Selection.Grouped` | apps/Europe.py:124-127 | a row is in the joined slices iff it is in the masked table and its identifier is one of the selected |
| `Selection.Flatten` | apps/Europe.py:127 | a row is in the joined list iff it is in one of the slices |
| `Selection.Concatenate` | apps/Europe.py:127 | `np.concatenate` raises exactly when the list of slices is empty; otherwise it holds exactly the rows of the slices |
| `Selection.CollectSlices` | apps/Europe.py:124-126 | the loop appends one slice per selected identifier, in selection order: entry i is the slice of the i-th selection, and joining them gives `Grouped` |
| `Selection.KeepRowsCount` | apps/Europe.py:123 | the mask keeps each row that satisfies it as many times as it occurs in the table, and no other row |
| `Selection.KeepRowsInOrder` | apps/Europe.py:123 | the mask keeps the table's row order (its result is a subsequence of the table) |
| `Selection.KeepRowsTwice` | apps/Europe.py:123 | masking `eur_data` by population is the same as masking the whole table once by both conditions |
| `Selection.SliceInOrder` | apps/Europe.py:126 | a slice is a subsequence of the masked table, and all its rows have the slice's identifier |
| `Selection.SliceLength` | apps/Europe.py:126 | a slice has as many rows as the masked table has rows with that identifier |
| `Selection.SliceCount` | apps/Europe.py:126 | a slice holds every row with its identifier as often as the table does, and no other row |
| `Selection.GroupedSnoc` | apps/Europe.py:125-126 | one more loop iteration appends the new identifier's slice after the rows collected so far |
| `Selection.GroupedAppend` | apps/Europe.py:124-127 | selecting `s1 + s2` yields the rows for `s1` followed by the rows for `s2` |
| `Selection.GroupedBlock` | apps/Europe.py:124-127 | the i-th selected identifier's slice comes after the slices of earlier selections and before the slices of later ones |
| `Selection.GroupedCount` | apps/Europe.py:125-126 | multiplicity: a row occurs (times its identifier is selected) x (times it occurs in the masked table) times; a repeated name duplicates its rows, and an unknown name adds none |
| `Selection.GroupedLength` | apps/Europe.py:125-126 | the result's length is the sum, over the selection's entries with repeats counted, of the number of rows with that identifier |
| `Callback.IsTruthy` | apps/Europe.py:121 | Python truthiness of a dropdown value: false exactly for None and the empty list or string |
| `Gapminder.InPopRange` | apps/Europe.py:123 | the population mask keeps a row iff low <= pop <= high (both ends inclusive); a slider interval with low > high keeps nothing (the same mask is at apps/task123.py:114 and 149) |
| `Gapminder.Metric` | apps/Europe.py:153 | a row has a value for a variable name exactly when the name is a numeric column |
| `Gapminder.Column` | apps/Europe.py:153 | `df[yvar]` raises for a cleared dropdown or a non-numeric name; otherwise it is the column, row by row |
| `Gapminder.MinOf` | apps/Europe.py:155 | the minimum is a value of the column and no value is below it |
| `Gapminder.MaxOf` | apps/Europe.py:155 | the maximum is a value of the column and no value is above it |
| `Gapminder.ColourRange` | apps/Europe.py:155 | the colour range is defined exactly when the column is non-empty; then it runs from a column value to a column value, low <= high, and contains every value |
| `Europe.EurData` | apps/Europe.py:18 | `eur_data` holds exactly the table's European rows, in table order |
| `Europe.IsEuropean` | apps/Europe.py:18 | the mask `continent == "Europe"` holds exactly for European rows |
| `Europe.Fires` | apps/Europe.py:121 | the guard stops the callback exactly when all three inputs are falsy: the country list is None or empty, the range is None, and the variable is None or empty |
| `Europe.Selected` | apps/Europe.py:123-127 | the rows the figures are drawn from: a row is present iff it is in the table, is European, its country is selected and low <= pop <= high |
| `Europe.YAxisRange` | apps/Europe.py:146-151 | the y-axis starts at 0; it ends at 85 for life expectancy, at the slider's upper bound for population, and at 50000 for any other variable |
| `Europe.UpdateGraphs` | apps/Europe.py:120-155 | no_update iff selection, range and variable are all falsy; `NotSubscriptable` for a missing range; `NotIterable` for a None selection; `EmptyConcatenation` for an empty selection; `ColumnNotFound` for a variable that is not a numeric column. Otherwise it returns the figures: columns `loc_cols`; rows = `Grouped` of the in-range European rows, where a row is present iff it is European, its country is selected and low <= pop <= high (both ends inclusive); the y-axis range, which for `pop` lies over every bar; and the colour range of the variable, defined iff the result is non-empty |
| `Europe.SelectedCount` | apps/Europe.py:123-126 | a row occurs (times its country is selected) x (times it occurs) times if it is European and in range, and never otherwise |
| `Europe.SelectedOrder` | apps/Europe.py:123-127 | the i-th selected country's rows come after those of earlier selections and before those of later ones, keep the table's order, and all have that country |
| `Task123.UpdateGraph` | apps/task123.py:110-118 | no_update iff the continent selection is empty or None; `NotSubscriptable` for a missing range; otherwise it never raises `EmptyConcatenation` and returns columns `cols` and exactly the rows whose continent is selected and whose pop is in the closed range, grouped in selection order |
| `Task123.ByContinent` | apps/task123.py:114-117 | the rows both callbacks select: a row is present iff it is in the table, its continent is selected and low <= pop <= high |
| `Task123.MapFires` | apps/task123.py:147 | the map guard stops the callback exactly when all three inputs are falsy: the continent list is None or empty, the range is None, and the variable is None or empty |
| `Task123.UpdateMap` | apps/task123.py:146-157 | no_update iff continents, range and variable are all falsy; the same error cases as the Europe page, including `EmptyConcatenation` for an empty selection with a range; otherwise columns `loc_cols`, exactly the selected in-range rows, and a colour range defined iff the result is non-empty |
| `Task123.DefaultsKeepEveryRow` | apps/task123.py:58-67 | with the initial control values (five continents, [60011, 1318683096]), a row is dropped only if its continent is not one of the five or its pop is outside the interval; every other row is kept exactly as often as it occurs |
| `Task123.ByContinentOrder` | apps/task123.py:114-117 | the i-th selected continent's rows come after those of earlier selections and before those of later ones, keep the table's order, and all have that continent |
| `Dashboard.UpdateGraph` | apps/dashboard.py:74-82 | as written: no_update iff the county selection is empty or None; otherwise UnboundLocalError on `df` |
| `Dashboard.AsWrittenMask` | apps/dashboard.py:78 | the mask as written keeps a shot iff build_up_passes >= the slider's lower bound and distance_from_goal <= its upper bound; the upper bound never limits build-up passes, so raising a kept shot's pass count keeps it kept |
| `Dashboard.UpdateGraphNeverUpdates` | apps/dashboard.py:78-82 | as written, no input produces figure data |
| `Dashboard.AsWrittenMaskDisagrees` | apps/dashboard.py:78 | the two-column mask keeps a shot with more build-up passes than the slider allows, and drops one whose build-up passes are in range |
| `Dashboard.UpdateGraphFixed` | apps/dashboard.py:74-83 | as intended: no_update iff the selection is empty or None; `NotSubscriptable` for a missing range; otherwise the table's columns and exactly the shots of selected counties whose build-up passes lie in the closed range, grouped in selection order |
| `Dashboard.FixedSelectionOrder` | apps/dashboard.py:79-80 | the i-th selected county's block is exactly its in-range shots, placed after the blocks of earlier selections and before those of later ones; the block keeps the shot table's order and all its shots have that county |

## Left out

- Page layouts (`layout = html.Div(...)`) and the whole of apps/home.py: static declarations with no behaviour.
- Callback wiring (`@app.callback`, `Input`/`Output`) and the shared `app` object: framework plumbing. Each callback body is a method of its arguments.
- Figure construction and styling (`px.bar`, `px.choropleth`, `px.line`, `px.scatter`, `update_layout`, `update_traces`, `update_yaxes`, animation frames, colour maps): these call into plotly, whose internals are not part of this model. The model returns the data the figures are built from: the selected table, the y-axis range and the colour range. Some exceptions can only come from plotly. One is the indexing of `updatemenus[0]` and `sliders[0]` at apps/Europe.py:144-145, which depends on how many animation frames plotly builds. Another is `size="county"` at apps/dashboard.py:84. Neither is modelled.
- Data loading (`px.data.gapminder()`, the `gapminder` package, `pd.read_csv` at apps/dashboard.py:14): I/O. Each dataset is a parameter. The shot table keeps only the four columns the page reads, and its column list is a parameter.
- The `gapminder` package's table (apps/task123.py:17) has no ISO columns, but its rows use the same `Row` type as the plotly table. Its `isoAlpha` and `isoNum` fields are unused: `Task123.UpdateGraph` labels its result with `Cols`, and nothing reads those fields.
- Floating point: life expectancy and GDP per capita are integers here. The model uses only their order. `infer_objects()` and numpy/pandas dtype handling are not modelled.
- Slider values: a range slider's value is an `Interval` or None. A list with other than two elements cannot come from the slider and is not modelled.
- Gapminder.Column: a variable naming a text column (`country`, `continent`, `iso_alpha`) counts as not found. pandas would take the minimum of the strings. The variable dropdowns offer only numeric columns.
- Gapminder.ColourRange: pandas gives NaN for the minimum and maximum of an empty column. The model represents that undefined range as `None`, and does not model what plotly then does with it.
- Europe.UpdateGraphs: for a variable that is not a numeric column, the model says that the call raises, not which of the figure calls raises first.
- Dashboard.UpdateGraph: the range value is never read, because the exception happens before it.

## Findings

| source | as written | input that shows it | evidently intended | confidence | as-written member | corrected member |
|---|---|---|---|---|---|---|
| apps/dashboard.py:78 | line 82 assigns `df`, which makes `df` local to the whole function, so the read of `df` in the mask raises UnboundLocalError; even if it did not, the collected `data` is never used and the scatter plot is drawn from the whole table (lines 82-83) | any non-empty county selection, e.g. `['Cavan']` with range `[0, 29]` | read the module's table, filter it, and draw the figure from the concatenated selection, as the other pages do | high; not executed | `Dashboard.UpdateGraphNeverUpdates` | `Dashboard.UpdateGraphFixed` |
| apps/dashboard.py:78 | the slider's lower bound is compared with `build_up_passes` and its upper bound with `distance_from_goal` | range `[0, 29]`: a shot with 40 build-up passes at distance 10 is kept, and one with 5 build-up passes at distance 35 is dropped | both bounds apply to `build_up_passes`, as the slider's label "Select Build Up Pass Range" (line 50) says | medium; not executed | `Dashboard.AsWrittenMaskDisagrees` | `Dashboard.UpdateGraphFixed` |
