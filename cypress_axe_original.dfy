/**
 * checkA11y of the original revision index.js: no arguments, one scan of
 * the whole document with no options, one error log per violation (not
 * highlighted), then the assertion that there are none.
 */
module CypressAxeOriginal {
  import opened Wrappers
  import opened Js
  import opened Axe
  import opened Decimal
  import opened Messages
  import opened Events
  import opened Pipeline
  import opened Assertions
  import CypressAxeJs

  /** The events of one call (lines 8-36), given the scanner's result. */
  function CheckA11yTrace(results: ScanResult): seq<Event> {
    [Scan(WholeDocument, Undefined)]
    + (ErrorLogs(results.violations, false) + [Assertion(AssertViolations(results.violations))])
  }

  /** Lines 8-36: the scan, the `.each` over the violations, then `assert.equal`. */
  method CheckA11y(results: ScanResult) returns (events: seq<Event>)
    ensures events == CheckA11yTrace(results)
  {
    var logs := LogEach(results.violations, false);
    events := [Scan(WholeDocument, Undefined)] + (logs + [Assertion(AssertViolations(results.violations))]);
  }

  /**
   * A whole-document scan without options, one error log per violation in
   * order, the assertion last; the only scan is the first event.
   */
  lemma Shape(results: ScanResult)
    ensures var es := CheckA11yTrace(results);
      var v := results.violations;
      && |es| == |v| + 2
      && es[0] == Scan(WholeDocument, Undefined)
      && (forall i :: 0 <= i < |v| ==> es[1 + i] == Log(ErrorLog(v[i], false)))
      && es[|v| + 1] == Assertion(AssertViolations(v))
      && ScanCount(es) == 1
  {
    var v := results.violations;
    var first := [Scan(WholeDocument, Undefined)];
    var logs := ErrorLogs(v, false);
    var gate := [Assertion(AssertViolations(v))];
    var es := CheckA11yTrace(results);
    assert forall i :: 0 <= i < |v| ==> es[1 + i] == logs[i];
    assert ScanCount(first) == 1 by {
      assert first[1..] == [];
    }
    assert ScanCount(logs + gate) == 0 by {
      assert forall i :: 0 <= i < |logs + gate| ==> !(logs + gate)[i].Scan?;
      ScanCountNone(logs + gate);
    }
    ScanCountAppend(first, logs + gate);
  }

  /** Each log names the rule and its node count and carries the violation, with no highlight. */
  lemma LogsNameNodes(results: ScanResult, i: nat)
    requires i < |results.violations|
    ensures var e := CheckA11yTrace(results)[1 + i].entry;
      var v := results.violations[i];
      && e.name == "a11y error!" && e.highlight == None && e.details == Some(v)
      && e.message == NodeCountMessage(v.id, |v.nodes|)
  {
    Shape(results);
  }

  /**
   * The assertion fails exactly when there are violations, with the
   * singular message for one and the plural message for more.
   */
  lemma FailsIffViolations(results: ScanResult)
    ensures var es := CheckA11yTrace(results);
      var n := |results.violations|;
      && (HasFailure(es) <==> n > 0)
      && (n == 1 ==> es[|es| - 1] == Assertion(Fail("1 accessibility violation was detected")))
      && (n > 1 ==> es[|es| - 1] == Assertion(Fail(NatToString(n) + " accessibility violations were detected")))
  {
    var v := results.violations;
    var es := CheckA11yTrace(results);
    var init := [Scan(WholeDocument, Undefined)] + ErrorLogs(v, false);
    var gate := [Assertion(AssertViolations(v))];
    Shape(results);
    assert !HasFailure(init) by {
      assert forall i :: 0 <= i < |init| ==> !init[i].Assertion?;
    }
    assert es == init + gate;
    assert HasFailure(gate) <==> |v| > 0 by {
      assert gate[0].verdict == AssertViolations(v);
    }
    HasFailureAppend(init, gate);
    if |v| == 1 {
      AssertViolationsSingular(v);
    } else {
      AssertViolationsPlural(v);
    }
  }

  /** The trace with every log entry's highlight dropped. */
  function WithoutHighlight(es: seq<Event>): (r: seq<Event>)
    ensures |r| == |es|
    decreases |es|
  {
    if es == [] then []
    else [if es[0].Log? then Log(es[0].entry.(highlight := None)) else es[0]] + WithoutHighlight(es[1..])
  }

  lemma {:induction false} WithoutHighlightAppend(a: seq<Event>, b: seq<Event>)
    ensures WithoutHighlight(a + b) == WithoutHighlight(a) + WithoutHighlight(b)
    decreases |a|
  {
    if a == [] {
      assert a + b == b;
    } else {
      assert (a + b)[0] == a[0] && (a + b)[1..] == a[1..] + b;
      WithoutHighlightAppend(a[1..], b);
    }
  }

  /** Dropping the highlight of the highlighted error logs gives the plain ones. */
  lemma {:induction false} WithoutHighlightErrorLogs(violations: seq<Finding>)
    ensures WithoutHighlight(ErrorLogs(violations, true)) == ErrorLogs(violations, false)
    decreases |violations|
  {
    if violations != [] {
      var head := [Log(ErrorLog(violations[0], true))];
      var tail := ErrorLogs(violations[1..], true);
      assert ErrorLogs(violations, true) == head + tail;
      WithoutHighlightAppend(head, tail);
      assert WithoutHighlight(head) == [Log(ErrorLog(violations[0], false))] by {
        assert head[1..] == [];
      }
      WithoutHighlightErrorLogs(violations[1..]);
    }
  }

  /**
   * src/index.js called with empty or absent arguments and outside
   * report-only mode behaves as this revision, except that it highlights
   * the offending elements.
   */
  lemma RevisionsAgree(context: JsValue, options: JsValue, violationCallback: JsValue, skipFailures: JsValue,
                       results: ScanResult)
    requires IsEmptyObjectOrNull(context) && IsEmptyObjectOrNull(options) && IsEmptyObjectOrNull(violationCallback)
    requires !Truthy(skipFailures)
    ensures WithoutHighlight(CypressAxeJs.CheckA11yTrace(context, options, violationCallback, skipFailures, results))
            == CheckA11yTrace(results)
  {
    var v := results.violations;
    var first := [Scan(WholeDocument, Undefined)];
    var logs := ErrorLogs(v, true);
    var gate := [Assertion(AssertViolations(v))];
    assert CypressAxeJs.CheckA11yTrace(context, options, violationCallback, skipFailures, results)
      == first + (logs + gate) by {
      assert ReportViolations(Undefined, v, skipFailures) == logs + gate by {
        assert Called(Undefined, v) == [];
        assert [] + logs == logs;
      }
    }
    assert WithoutHighlight(first) == first by {
      assert first[1..] == [];
    }
    assert WithoutHighlight(gate) == gate by {
      assert gate[1..] == [];
    }
    WithoutHighlightAppend(logs, gate);
    WithoutHighlightErrorLogs(v);
    WithoutHighlightAppend(first, logs + gate);
  }
}
