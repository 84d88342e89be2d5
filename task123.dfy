/** The global page (apps/task123.py): a continent dropdown and a population
    range slider drive a scatter plot over the `gapminder` package's table
    (`update_graph`) and, with a variable dropdown, a choropleth and a line
    chart over the plotly sample table (`update_map`). */
module Task123 {
  import opened Callback
  import opened Selection
  import opened Gapminder

  /** What the choropleth and the line chart are drawn from. */
  datatype MapFigures = MapFigures(table: Table<Row>, colour: Option<Interval>)

  /** The dropdown's initial value: all five continents. */
  const DefaultContinents: seq<string> := ["Asia", "Europe", "Africa", "Americas", "Oceania"]

  /** The slider's initial value: the whole population range. */
  const DefaultPopRange: Interval := Interval(60011, 1318683096)

  /** The selection both callbacks make: the in-range rows of each selected
      continent, continent after continent in the order selected. */
  function ByContinent(data: seq<Row>, range: Interval, continents: seq<string>): (rows: seq<Row>)
    ensures forall r :: r in rows <==>
              r in data && r.continent in continents && range.low <= r.pop <= range.high
  {
    Grouped(KeepRows(data, InPopRange(range)), ContinentOf, continents)
  }

  /** `update_graph(selected_cont, rangevalue)` up to the scatter plot's data. */
  method UpdateGraph(gapminderData: seq<Row>, selectedCont: Option<seq<string>>, rangevalue: Option<Interval>)
    returns (out: Outcome<Table<Row>>)
    ensures out == NoUpdate <==> !IsTruthy(selectedCont)
    ensures IsTruthy(selectedCont) && rangevalue.None? ==> out == Raised(NotSubscriptable)
    ensures out.Updated? <==> IsTruthy(selectedCont) && rangevalue.Some?
    ensures out.Updated? ==> out.value.columns == Cols
    ensures out.Updated? ==> out.value.rows == ByContinent(gapminderData, rangevalue.value, selectedCont.value)
    ensures out.Updated? ==> forall r :: r in out.value.rows <==>
              r in gapminderData && r.continent in selectedCont.value
              && rangevalue.value.low <= r.pop <= rangevalue.value.high
  {
    if !IsTruthy(selectedCont) {
      return NoUpdate;
    }
    if rangevalue.None? {
      return Raised(NotSubscriptable);
    }
    var d := KeepRows(gapminderData, InPopRange(rangevalue.value));
    var data := CollectSlices(d, ContinentOf, selectedCont.value);
    var joined := Concatenate(data);
    assert joined.Ok?;  // the guard leaves at least one slice to join
    return Updated(Table(Cols, joined.value));
  }

  /** The map callback goes past its guard unless all three inputs are falsy. */
  predicate MapFires(selectedCont: Option<seq<string>>, rangevalue: Option<Interval>, yvar: Option<string>): (fires: bool)
    ensures !fires <==> (selectedCont == None || selectedCont == Some([]))
                        && rangevalue == None
                        && (yvar == None || yvar == Some(""))
  {
    IsTruthy(selectedCont) || rangevalue.Some? || IsTruthy(yvar)
  }

  /** `update_map(selected_cont, rangevalue, yvar)` up to the figures' data. */
  method UpdateMap(locData: seq<Row>, selectedCont: Option<seq<string>>,
                   rangevalue: Option<Interval>, yvar: Option<string>)
    returns (out: Outcome<MapFigures>)
    ensures out == NoUpdate <==> !MapFires(selectedCont, rangevalue, yvar)
    ensures MapFires(selectedCont, rangevalue, yvar) && rangevalue.None? ==> out == Raised(NotSubscriptable)
    ensures rangevalue.Some? && selectedCont.None? ==> out == Raised(NotIterable)
    ensures rangevalue.Some? && selectedCont == Some([]) ==> out == Raised(EmptyConcatenation)
    ensures rangevalue.Some? && IsTruthy(selectedCont) && !(yvar.Some? && IsMetric(yvar.value))
            ==> out == Raised(ColumnNotFound)
    ensures out.Updated? <==>
            rangevalue.Some? && IsTruthy(selectedCont) && yvar.Some? && IsMetric(yvar.value)
    ensures out.Updated? ==> out.value.table.columns == LocCols
    ensures out.Updated? ==>
            out.value.table.rows == ByContinent(locData, rangevalue.value, selectedCont.value)
    ensures out.Updated? ==> forall r :: r in out.value.table.rows <==>
              r in locData && r.continent in selectedCont.value
              && rangevalue.value.low <= r.pop <= rangevalue.value.high
    ensures out.Updated? ==> out.value.colour == ColourRange(Column(out.value.table.rows, yvar).value)
    ensures out.Updated? ==> (out.value.colour.Some? <==> out.value.table.rows != [])
  {
    if !MapFires(selectedCont, rangevalue, yvar) {
      return NoUpdate;
    }
    if rangevalue.None? {
      return Raised(NotSubscriptable);
    }
    var d := KeepRows(locData, InPopRange(rangevalue.value));
    if selectedCont.None? {
      return Raised(NotIterable);
    }
    var data := CollectSlices(d, ContinentOf, selectedCont.value);
    var joined := Concatenate(data);
    if joined.Err? {
      return Raised(joined.error);
    }
    var df := Table(LocCols, joined.value);
    var column := Column(df.rows, yvar);
    if column.Err? {
      return Raised(column.error);
    }
    return Updated(MapFigures(df, ColourRange(column.value)));
  }

  /** With the controls at their initial values, a row is dropped only if its
      continent is not one of the five or its population is outside
      [60011, 1318683096]; every other row is kept exactly as often as it occurs. */
  lemma DefaultsKeepEveryRow(data: seq<Row>, r: Row)
    ensures multiset(ByContinent(data, DefaultPopRange, DefaultContinents))[r]
         == if r.continent in DefaultContinents && 60011 <= r.pop <= 1318683096
            then multiset(data)[r]
            else 0
  {
    var d := KeepRows(data, InPopRange(DefaultPopRange));
    GroupedCount(d, ContinentOf, DefaultContinents, r);
    KeepRowsCount(data, InPopRange(DefaultPopRange), r);
    assert multiset(DefaultContinents)[r.continent] == if r.continent in DefaultContinents then 1 else 0;
  }

  /** The rows of the slice of one selected continent. */
  function InContinentSlice(range: Interval, continent: string): Row -> bool {
    (r: Row) => InPopRange(range)(r) && r.continent == continent
  }

  /** Ordering: the rows of the i-th selected continent come after those of
      the continents selected before it and before those selected after it,
      and among themselves they keep the order of the table. */
  lemma ByContinentOrder(data: seq<Row>, range: Interval, continents: seq<string>, i: nat)
    requires i < |continents|
    ensures var block := KeepRows(data, InContinentSlice(range, continents[i]));
            ByContinent(data, range, continents)
              == ByContinent(data, range, continents[..i]) + block + ByContinent(data, range, continents[i + 1..])
            && IsSubsequence(block, data)
            && forall r :: r in block ==> r.continent == continents[i]
  {
    var d := KeepRows(data, InPopRange(range));
    GroupedBlock(d, ContinentOf, continents, i);
    KeepRowsTwice(data, InPopRange(range), HasKey(ContinentOf, continents[i]), InContinentSlice(range, continents[i]));
    KeepRowsInOrder(data, InContinentSlice(range, continents[i]));
  }
}
