/** The match-analysis page (apps/dashboard.py): a county dropdown and a
    "build up pass" range slider drive a scatter plot of shots read from a
    CSV file. As written, its callback cannot complete for any selection
    (see README, "Findings"); `UpdateGraph` models it as written and
    `UpdateGraphFixed` as evidently intended. */
module Dashboard {
  import opened Callback
  import opened Selection

  /** One shot, with the columns the page reads. */
  datatype Shot = Shot(county: string, buildUpPasses: int, distanceFromGoal: int, angle: int)

  function CountyOf(s: Shot): string { s.county }

  /** The mask as written:
      `(df['build_up_passes'] >= range[0]) & (df['distance_from_goal'] <= range[1])`,
      two different columns against the two ends of one slider. */
  function AsWrittenMask(range: Interval): (keep: Shot -> bool)
    ensures forall s :: keep(s) <==> s.buildUpPasses >= range.low && s.distanceFromGoal <= range.high
    ensures forall s, passes :: keep(s) && passes >= s.buildUpPasses ==> keep(s.(buildUpPasses := passes))
  {
    (s: Shot) => s.buildUpPasses >= range.low && s.distanceFromGoal <= range.high
  }

  /** The mask the slider's label describes: build-up passes within the range. */
  function PassRangeMask(range: Interval): (keep: Shot -> bool)
    ensures forall s :: keep(s) <==> range.Contains(s.buildUpPasses)
  {
    (s: Shot) => range.low <= s.buildUpPasses <= range.high
  }

  /** The shots of the slice of one selected county under the intended mask. */
  function InCountySlice(range: Interval, county: string): Shot -> bool {
    (s: Shot) => PassRangeMask(range)(s) && s.county == county
  }

  /** `update_graph(selected_cont, rangevalue)` as written. Because the body
      assigns `df` (line 82), Python treats `df` as local to the whole
      function, so reading it in the mask (line 78) raises UnboundLocalError
      before anything else is evaluated. */
  function UpdateGraph(selectedCont: Option<seq<string>>, rangevalue: Option<Interval>): (out: Outcome<Table<Shot>>)
    ensures out == NoUpdate <==> !IsTruthy(selectedCont)
    ensures !out.NoUpdate? ==> out == Raised(UnboundLocal("df"))
  {
    if !IsTruthy(selectedCont) then NoUpdate
    else Raised(UnboundLocal("df"))
  }

  /** As written, no input produces a figure. */
  lemma UpdateGraphNeverUpdates(selectedCont: Option<seq<string>>, rangevalue: Option<Interval>)
    ensures !UpdateGraph(selectedCont, rangevalue).Updated?
  {
  }

  /** The as-written mask keeps a shot with more build-up passes than the
      slider allows and drops one whose build-up passes are in range. */
  lemma AsWrittenMaskDisagrees()
    ensures var range := Interval(0, 29);
            var tooMany := Shot("Cavan", 40, 10, 0);
            var inRange := Shot("Kerry", 5, 35, 0);
            AsWrittenMask(range)(tooMany) && !PassRangeMask(range)(tooMany)
            && !AsWrittenMask(range)(inRange) && PassRangeMask(range)(inRange)
  {
  }

  /** The callback as evidently intended: read the module's table `df`,
      keep the shots whose build-up passes are in the slider's range, collect
      the selected counties' shots in selection order, and draw from that
      selection rather than from the whole table. */
  method UpdateGraphFixed(df: Table<Shot>, selectedCont: Option<seq<string>>, rangevalue: Option<Interval>)
    returns (out: Outcome<Table<Shot>>)
    ensures out == NoUpdate <==> !IsTruthy(selectedCont)
    ensures IsTruthy(selectedCont) && rangevalue.None? ==> out == Raised(NotSubscriptable)
    ensures out.Updated? <==> IsTruthy(selectedCont) && rangevalue.Some?
    ensures out.Updated? ==> out.value.columns == df.columns
    ensures out.Updated? ==>
            out.value.rows == Grouped(KeepRows(df.rows, PassRangeMask(rangevalue.value)), CountyOf, selectedCont.value)
    ensures out.Updated? ==> forall s :: s in out.value.rows <==>
              s in df.rows && s.county in selectedCont.value
              && rangevalue.value.low <= s.buildUpPasses <= rangevalue.value.high
  {
    if !IsTruthy(selectedCont) {
      return NoUpdate;
    }
    if rangevalue.None? {
      return Raised(NotSubscriptable);
    }
    var d := KeepRows(df.rows, PassRangeMask(rangevalue.value));
    var data := CollectSlices(d, CountyOf, selectedCont.value);
    var joined := Concatenate(data);
    assert joined.Ok?;  // the guard leaves at least one slice to join
    return Updated(Table(df.columns, joined.value));
  }

  /** Ordering: the shots of the i-th selected county come after those of
      the counties selected before it and before those selected after it,
      and among themselves they keep the order of the shot table. */
  lemma FixedSelectionOrder(shots: seq<Shot>, range: Interval, counties: seq<string>, i: nat)
    requires i < |counties|
    ensures var d := KeepRows(shots, PassRangeMask(range));
            var block := KeepRows(shots, InCountySlice(range, counties[i]));
            Grouped(d, CountyOf, counties)
              == Grouped(d, CountyOf, counties[..i]) + block + Grouped(d, CountyOf, counties[i + 1..])
            && IsSubsequence(block, shots)
            && forall s :: s in block ==> s.county == counties[i]
  {
    var d := KeepRows(shots, PassRangeMask(range));
    GroupedBlock(d, CountyOf, counties, i);
    KeepRowsTwice(shots, PassRangeMask(range), HasKey(CountyOf, counties[i]), InCountySlice(range, counties[i]));
    KeepRowsInOrder(shots, InCountySlice(range, counties[i]));
  }
}
