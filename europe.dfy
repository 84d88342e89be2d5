/** The European page (apps/Europe.py): a country dropdown, a population
    range slider and a variable dropdown drive a bar chart, a choropleth and
    a line chart over the European rows of the gapminder table. */
module Europe {
  import opened Callback
  import opened Selection
  import opened Gapminder

  /** What the three figures are drawn from: the selected rows, the bar
      chart's y-axis range and the choropleth's colour range. */
  datatype Figures = Figures(table: Table<Row>, yAxis: Interval, colour: Option<Interval>)

  /** The mask `loc_data['continent'] == "Europe"`. */
  function IsEuropean(r: Row): (european: bool)
    ensures european <==> r.continent == "Europe"
  {
    r.continent == "Europe"
  }

  /** `eur_data`: the European rows of the table, in table order. */
  function EurData(locData: seq<Row>): (eur: seq<Row>)
    ensures forall r :: r in eur <==> r in locData && r.continent == "Europe"
    ensures IsSubsequence(eur, locData)
  {
    KeepRowsInOrder(locData, IsEuropean);
    KeepRows(locData, IsEuropean)
  }

  /** The callback goes past its guard unless all three inputs are falsy. */
  predicate Fires(selectedCount: Option<seq<string>>, erangevalue: Option<Interval>, eyvar: Option<string>): (fires: bool)
    ensures !fires <==> (selectedCount == None || selectedCount == Some([]))
                        && erangevalue == None
                        && (eyvar == None || eyvar == Some(""))
  {
    IsTruthy(selectedCount) || erangevalue.Some? || IsTruthy(eyvar)
  }

  /** The rows the figures are drawn from: the in-range European rows of each
      selected country, country after country in the order selected. */
  function Selected(locData: seq<Row>, erange: Interval, countries: seq<string>): (rows: seq<Row>)
    ensures forall r :: r in rows <==>
              r in locData && r.continent == "Europe" && r.country in countries
              && erange.low <= r.pop <= erange.high
  {
    Grouped(KeepRows(EurData(locData), InPopRange(erange)), CountryOf, countries)
  }

  /** The bar chart's y-axis: from 0 to 85 years for life expectancy, to the
      slider's upper bound for population, to 50000 for anything else. */
  function YAxisRange(eyvar: Option<string>, erangevalue: Interval): (axis: Interval)
    ensures axis.low == 0
    ensures eyvar == Some("pop") ==> axis.high == erangevalue.high
    ensures eyvar == Some("lifeExp") ==> axis.high == 85
    ensures eyvar != Some("lifeExp") && eyvar != Some("pop") ==> axis.high == 50000
  {
    if eyvar == Some("lifeExp") then Interval(0, 85)
    else if eyvar == Some("pop") then Interval(0, erangevalue.high)
    else Interval(0, 50000)
  }

  /** `update_graphs(selected_count, erangevalue, eyvar)` up to the figures. */
  method UpdateGraphs(locData: seq<Row>, selectedCount: Option<seq<string>>,
                      erangevalue: Option<Interval>, eyvar: Option<string>)
    returns (out: Outcome<Figures>)
    ensures out == NoUpdate <==> !Fires(selectedCount, erangevalue, eyvar)
    ensures Fires(selectedCount, erangevalue, eyvar) && erangevalue.None? ==> out == Raised(NotSubscriptable)
    ensures erangevalue.Some? && selectedCount.None? ==> out == Raised(NotIterable)
    ensures erangevalue.Some? && selectedCount == Some([]) ==> out == Raised(EmptyConcatenation)
    ensures erangevalue.Some? && IsTruthy(selectedCount) && !(eyvar.Some? && IsMetric(eyvar.value))
            ==> out == Raised(ColumnNotFound)
    ensures out.Updated? <==>
            erangevalue.Some? && IsTruthy(selectedCount) && eyvar.Some? && IsMetric(eyvar.value)
    ensures out.Updated? ==> out.value.table.columns == LocCols
    ensures out.Updated? ==>
            out.value.table.rows == Selected(locData, erangevalue.value, selectedCount.value)
    ensures out.Updated? ==> forall r :: r in out.value.table.rows <==>
              r in locData && r.continent == "Europe" && r.country in selectedCount.value
              && erangevalue.value.low <= r.pop <= erangevalue.value.high
    ensures out.Updated? ==> out.value.yAxis == YAxisRange(eyvar, erangevalue.value)
    ensures out.Updated? && eyvar == Some("pop") ==>
            forall r :: r in out.value.table.rows ==> r.pop <= out.value.yAxis.high
    ensures out.Updated? ==> out.value.colour == ColourRange(Column(out.value.table.rows, eyvar).value)
    ensures out.Updated? ==> (out.value.colour.Some? <==> out.value.table.rows != [])
  {
    if !Fires(selectedCount, erangevalue, eyvar) {
      return NoUpdate;
    }
    if erangevalue.None? {
      return Raised(NotSubscriptable);
    }
    var range := erangevalue.value;
    var d := KeepRows(EurData(locData), InPopRange(range));
    if selectedCount.None? {
      return Raised(NotIterable);
    }
    var data := CollectSlices(d, CountryOf, selectedCount.value);
    var joined := Concatenate(data);
    if joined.Err? {
      return Raised(joined.error);
    }
    var df := Table(LocCols, joined.value);
    var yAxis := YAxisRange(eyvar, range);
    var column := Column(df.rows, eyvar);
    if column.Err? {
      return Raised(column.error);
    }
    return Updated(Figures(df, yAxis, ColourRange(column.value)));
  }

  /** Multiplicity: a row is in the result once per time its country is
      selected (a country listed twice doubles its rows, one not in the data
      adds none), provided it is European and its population is in range. */
  lemma SelectedCount(locData: seq<Row>, erange: Interval, countries: seq<string>, r: Row)
    ensures multiset(Selected(locData, erange, countries))[r]
         == if r.continent == "Europe" && erange.low <= r.pop <= erange.high
            then multiset(countries)[r.country] * multiset(locData)[r]
            else 0
  {
    var d := KeepRows(EurData(locData), InPopRange(erange));
    GroupedCount(d, CountryOf, countries, r);
    KeepRowsCount(EurData(locData), InPopRange(erange), r);
    KeepRowsCount(locData, IsEuropean, r);
  }

  /** The rows of `eur_data` the population mask keeps. */
  function InEuropeanRange(erange: Interval): Row -> bool {
    (r: Row) => IsEuropean(r) && InPopRange(erange)(r)
  }

  /** The rows of the slice of one selected country. */
  function InSlice(erange: Interval, country: string): Row -> bool {
    (r: Row) => IsEuropean(r) && InPopRange(erange)(r) && r.country == country
  }

  /** Ordering: the rows of the i-th selected country come after those of the
      countries selected before it and before those selected after it, and
      among themselves they keep the order of the table. */
  lemma SelectedOrder(locData: seq<Row>, erange: Interval, countries: seq<string>, i: nat)
    requires i < |countries|
    ensures var block := KeepRows(locData, InSlice(erange, countries[i]));
            Selected(locData, erange, countries)
              == Selected(locData, erange, countries[..i]) + block + Selected(locData, erange, countries[i + 1..])
            && IsSubsequence(block, locData)
            && forall r :: r in block ==> r.country == countries[i]
  {
    var d := KeepRows(EurData(locData), InPopRange(erange));
    GroupedBlock(d, CountryOf, countries, i);
    KeepRowsTwice(locData, IsEuropean, InPopRange(erange), InEuropeanRange(erange));
    KeepRowsTwice(locData, InEuropeanRange(erange), HasKey(CountryOf, countries[i]), InSlice(erange, countries[i]));
    KeepRowsInOrder(locData, InSlice(erange, countries[i]));
  }
}
