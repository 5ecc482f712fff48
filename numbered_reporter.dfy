/**
 * consoleReporter of src/utils/consoleReporter.ts: logs the reporter
 * summary with a closing period and fills a table with one record per
 * violation, keyed by the test file and the violation's 1-based number.
 */
module NumberedReporter {
  import opened Wrappers
  import opened Decimal
  import opened Messages
  import opened Reporting

  /** `${count} accessibility violation${s} ${was|were} detected.` */
  function Summary(count: nat): string {
    ReporterSummary(count) + "."
  }

  /** The count reads back, the wording is plural exactly above one, and the message ends with a period. */
  lemma SummaryShape(count: nat)
    ensures LeadingNumber(Summary(count)) == count
    ensures EndsWith(Summary(count), " violations were detected.") <==> count > 1
    ensures EndsWith(Summary(count), " violation was detected.") <==> count <= 1
  {
    var r := ReporterSummary(count);
    ReporterSummaryShape(count);
    EndsWithAppendBoth(r, " violations were detected", ".");
    EndsWithAppendBoth(r, " violation was detected", ".");
    assert " violations were detected" + "." == " violations were detected.";
    assert " violation was detected" + "." == " violation was detected.";
    var t := if count > 1 then " accessibility violations were detected" else " accessibility violation was detected";
    assert Summary(count) == NatToString(count) + (t + ".");
    LeadingNumberOfNumeral(count, t + ".");
  }

  /**
   * Lines 3-27: the summary message, and the table with exactly one record
   * per violation under its own key, copying impact and description,
   * counting the nodes, and carrying the label only when it is truthy.
   * The key `${filename} #${idx+1}` is `PositionKey(filename + " #", 1, idx)`.
   */
  method ConsoleReporter(run: RunResults) returns (message: string, data: map<string, Entry>)
    ensures message == Summary(|run.results|)
    ensures data.Keys == set i | 0 <= i < |run.results| :: PositionKey(run.filename + " #", 1, i)
    ensures |data| == |run.results|
    ensures forall i :: 0 <= i < |run.results| ==>
      var e := data[PositionKey(run.filename + " #", 1, i)];
      && e.impact == run.results[i].impact
      && e.description == run.results[i].description
      && e.count == |run.results[i].nodes|
      && (e.shownLabel.Some? <==> LabelShown(run.labelValue))
      && (e.shownLabel.Some? ==> e.shownLabel == run.labelValue)
  {
    message := Summary(|run.results|);
    data := map[];
    var idx := 0;
    while idx < |run.results|
      invariant 0 <= idx <= |run.results|
      invariant data.Keys == set i | 0 <= i < idx :: PositionKey(run.filename + " #", 1, i)
      invariant forall i :: 0 <= i < idx ==> data[PositionKey(run.filename + " #", 1, i)] == EntryOf(run.labelValue, run.results[i])
    {
      forall i | 0 <= i < idx
        ensures PositionKey(run.filename + " #", 1, i) != PositionKey(run.filename + " #", 1, idx)
      {
        PositionKeyInjective(run.filename + " #", 1, i, idx);
      }
      data := data[PositionKey(run.filename + " #", 1, idx) := EntryOf(run.labelValue, run.results[idx])];
      idx := idx + 1;
    }
    PositionKeyCount(run.filename + " #", 1, |run.results|);
  }
}
