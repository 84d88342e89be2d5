/** The gapminder table the Europe and global pages read: one row per
    (country, year), its two column lists, the numeric columns a page can
    plot, and the colour range a choropleth takes from the plotted column. */
module Gapminder {
  import opened Callback

  /** One observation. Life expectancy and GDP per capita are floating point
      in the data; here they are integers (see README). */
  datatype Row = Row(
    country: string,
    continent: string,
    year: int,
    lifeExp: int,
    pop: int,
    gdpPercap: int,
    isoAlpha: string,
    isoNum: int)

  /** `list(px.data.gapminder().columns)`: the table with ISO codes. */
  const LocCols: seq<string> :=
    ["country", "continent", "year", "lifeExp", "pop", "gdpPercap", "iso_alpha", "iso_num"]

  /** `list(gapminder.columns)` of the `gapminder` package: no ISO codes. */
  const Cols: seq<string> := ["country", "continent", "year", "lifeExp", "pop", "gdpPercap"]

  function CountryOf(r: Row): string { r.country }

  function ContinentOf(r: Row): string { r.continent }

  /** The population mask `(t['pop'] >= range[0]) & (t['pop'] <= range[1])`. */
  function InPopRange(range: Interval): (keep: Row -> bool)
    ensures forall r :: keep(r) <==> range.Contains(r.pop)
    ensures range.low > range.high ==> forall r :: !keep(r)
  {
    (r: Row) => range.low <= r.pop && r.pop <= range.high
  }

  /** The names of the numeric columns of `LocCols`. */
  predicate IsMetric(name: string) {
    name in ["year", "lifeExp", "pop", "gdpPercap", "iso_num"]
  }

  /** `row[name]` for a numeric column name. */
  function Metric(r: Row, name: string): (v: Option<int>)
    ensures v.Some? <==> IsMetric(name)
  {
    match name
    case "year" => Some(r.year)
    case "lifeExp" => Some(r.lifeExp)
    case "pop" => Some(r.pop)
    case "gdpPercap" => Some(r.gdpPercap)
    case "iso_num" => Some(r.isoNum)
    case _ => None
  }

  /** `df[yvar]`: the column named by the variable dropdown, row by row;
      a cleared dropdown (None) or a name that is not a numeric column raises. */
  function Column(rows: seq<Row>, yvar: Option<string>): (r: Result<seq<int>>)
    ensures r.Ok? <==> yvar.Some? && IsMetric(yvar.value)
    ensures r.Err? ==> r.error == ColumnNotFound
    ensures r.Ok? ==> |r.value| == |rows|
    ensures r.Ok? ==> forall i :: 0 <= i < |rows| ==> Metric(rows[i], yvar.value) == Some(r.value[i])
  {
    if yvar.Some? && IsMetric(yvar.value) then
      Ok(seq(|rows|, i requires 0 <= i < |rows| => Metric(rows[i], yvar.value).value))
    else Err(ColumnNotFound)
  }

  /** `series.min()` of a non-empty column. */
  function MinOf(values: seq<int>): (m: int)
    requires values != []
    ensures m in values
    ensures forall v :: v in values ==> m <= v
  {
    if |values| == 1 then values[0]
    else
      var rest := MinOf(values[1..]);
      assert forall v :: v in values ==> v == values[0] || v in values[1..];
      if values[0] <= rest then values[0] else rest
  }

  /** `series.max()` of a non-empty column. */
  function MaxOf(values: seq<int>): (m: int)
    requires values != []
    ensures m in values
    ensures forall v :: v in values ==> v <= m
  {
    if |values| == 1 then values[0]
    else
      var rest := MaxOf(values[1..]);
      assert forall v :: v in values ==> v == values[0] || v in values[1..];
      if values[0] >= rest then values[0] else rest
  }

  /** `range_color=[df[yvar].min(), df[yvar].max()]`. pandas gives NaN for
      both ends of an empty column; that undefined range is None here. */
  function ColourRange(values: seq<int>): (range: Option<Interval>)
    ensures range.Some? <==> values != []
    ensures range.Some? ==> range.value.low in values && range.value.high in values
    ensures range.Some? ==> range.value.low <= range.value.high
    ensures range.Some? ==> forall v :: v in values ==> range.value.Contains(v)
  {
    if values == [] then None else Some(Interval(MinOf(values), MaxOf(values)))
  }
}
