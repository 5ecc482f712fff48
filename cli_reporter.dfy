/**
 * cliReporter of src/cli-reporter.ts: logs the reporter summary and maps
 * the violations, in order, to rows that also carry the test file.
 */
module CliReporter {
  import opened Wrappers
  import opened Axe
  import opened Decimal
  import opened Messages
  import opened Reporting

  /** `{ ...label && { label }, filename, impact, description, count: nodes.length }`. */
  datatype Row = Row(shownLabel: Option<string>, filename: string, impact: Option<string>, description: string, count: nat)

  /** What one call hands to its sinks: the summary message and the rows. */
  datatype Report = Report(message: string, rows: seq<Row>)

  function RowOf(filename: string, labelValue: Option<string>, v: Finding): Row {
    Row(LabelField(labelValue), filename, v.impact, v.description, |v.nodes|)
  }

  /** `results.map(...)`: one row per violation, in the same order. */
  function Rows(filename: string, labelValue: Option<string>, results: seq<Finding>): (rows: seq<Row>)
    ensures |rows| == |results|
    ensures forall i :: 0 <= i < |results| ==> rows[i] == RowOf(filename, labelValue, results[i])
    decreases |results|
  {
    if results == [] then []
    else [RowOf(filename, labelValue, results[0])] + Rows(filename, labelValue, results[1..])
  }

  /** Lines 9-34 without the sinks. */
  function CliReport(run: RunResults): Report {
    Report(ReporterSummary(|run.results|), Rows(run.filename, run.labelValue, run.results))
  }

  /**
   * The message is the reporter summary of the violation count; there is a
   * row per violation, in order, each carrying the test file, the
   * violation's impact and description and its node count, and the label
   * exactly when it is truthy.
   */
  lemma CliReportShape(run: RunResults)
    ensures var r := CliReport(run);
      && LeadingNumber(r.message) == |run.results|
      && (EndsWith(r.message, " violations were detected") <==> |run.results| > 1)
      && |r.rows| == |run.results|
      && forall i :: 0 <= i < |run.results| ==>
           && r.rows[i].filename == run.filename
           && r.rows[i].impact == run.results[i].impact
           && r.rows[i].description == run.results[i].description
           && r.rows[i].count == |run.results[i].nodes|
           && (r.rows[i].shownLabel.Some? <==> LabelShown(run.labelValue))
           && (r.rows[i].shownLabel.Some? ==> r.rows[i].shownLabel == run.labelValue)
  {
    ReporterSummaryShape(|run.results|);
  }

  /** Rows of two runs of violations from one file are the rows of each, in order. */
  lemma RowsAppend(filename: string, labelValue: Option<string>, a: seq<Finding>, b: seq<Finding>)
    ensures Rows(filename, labelValue, a + b) == Rows(filename, labelValue, a) + Rows(filename, labelValue, b)
  {
    var whole := Rows(filename, labelValue, a + b);
    var parts := Rows(filename, labelValue, a) + Rows(filename, labelValue, b);
    assert |whole| == |parts|;
    forall i | 0 <= i < |whole|
      ensures whole[i] == parts[i]
    {
      if i < |a| {
        assert (a + b)[i] == a[i];
      } else {
        assert (a + b)[i] == b[i - |a|];
      }
    }
  }
}
