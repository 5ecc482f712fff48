/**
 * consoleReporter of src/utils/console-reporter.ts: logs the reporter
 * summary and fills a table with one record per violation, keyed by the
 * test file and the violation's 0-based position.
 */
module DashKeyedReporter {
  import opened Wrappers
  import opened Messages
  import opened Reporting

  /**
   * Lines 9-32: the summary message, and the table with exactly one record
   * per violation under its own key, copying impact and description,
   * counting the nodes, and carrying the label only when it is truthy.
   * The key `${filename}-${idx}` is `PositionKey(filename + "-", 0, idx)`.
   */
  method ConsoleReporter(run: RunResults) returns (message: string, data: map<string, Entry>)
    ensures message == ReporterSummary(|run.results|)
    ensures data.Keys == set i | 0 <= i < |run.results| :: PositionKey(run.filename + "-", 0, i)
    ensures |data| == |run.results|
    ensures forall i :: 0 <= i < |run.results| ==>
      var e := data[PositionKey(run.filename + "-", 0, i)];
      && e.impact == run.results[i].impact
      && e.description == run.results[i].description
      && e.count == |run.results[i].nodes|
      && (e.shownLabel.Some? <==> LabelShown(run.labelValue))
      && (e.shownLabel.Some? ==> e.shownLabel == run.labelValue)
  {
    message := ReporterSummary(|run.results|);
    data := map[];
    var idx := 0;
    while idx < |run.results|
      invariant 0 <= idx <= |run.results|
      invariant data.Keys == set i | 0 <= i < idx :: PositionKey(run.filename + "-", 0, i)
      invariant forall i :: 0 <= i < idx ==> data[PositionKey(run.filename + "-", 0, i)] == EntryOf(run.labelValue, run.results[i])
    {
      forall i | 0 <= i < idx
        ensures PositionKey(run.filename + "-", 0, i) != PositionKey(run.filename + "-", 0, idx)
      {
        PositionKeyInjective(run.filename + "-", 0, i, idx);
      }
      data := data[PositionKey(run.filename + "-", 0, idx) := EntryOf(run.labelValue, run.results[idx])];
      idx := idx + 1;
    }
    PositionKeyCount(run.filename + "-", 0, |run.results|);
  }
}
