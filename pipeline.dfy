/**
 * The stages every revision of checkA11y shares: treating empty arguments
 * as absent, choosing the scan target, one "a11y error!" log per violation,
 * the callbacks, and the assertion gate with its report-only switch.
 */
module Pipeline {
  import opened Wrappers
  import opened Js
  import opened Axe
  import opened Messages
  import opened Events
  import opened Assertions

  /**
   * `isEmptyObjectorNull`: null, undefined, or an object with no own
   * enumerable entries whose constructor is `Object`.
   */
  function IsEmptyObjectOrNull(value: JsValue): (r: bool)
    ensures r <==> value == Undefined || value == Null || value == Obj(map[], true)
  {
    match value
    case Undefined => true
    case Null => true
    case Obj(fields, plain) => |fields| == 0 && plain
    case _ => false
  }

  /** `if (isEmptyObjectorNull(x)) x = undefined`. */
  function NormaliseEmpty(value: JsValue): (r: JsValue)
    ensures IsEmptyObjectOrNull(value) ==> r == Undefined
    ensures !IsEmptyObjectOrNull(value) ==> r == value
  {
    if IsEmptyObjectOrNull(value) then Undefined else value
  }

  /** The statement `if (isEmptyObjectorNull(x)) x = undefined` on entry. */
  method ClearIfEmpty(value: JsValue) returns (r: JsValue)
    ensures r == NormaliseEmpty(value)
  {
    r := value;
    if IsEmptyObjectOrNull(r) {
      r := Undefined;
    }
  }

  /** `context || win.document`. */
  function ScanTarget(context: JsValue): (t: Target)
    ensures t.WholeDocument? <==> !Truthy(context)
    ensures t.Context? ==> t.context == context
  {
    if Truthy(context) then Context(context) else WholeDocument
  }

  /** An empty or absent context scans the whole document. */
  lemma EmptyContextScansDocument(context: JsValue)
    ensures IsEmptyObjectOrNull(context) ==> ScanTarget(NormaliseEmpty(context)) == WholeDocument
    ensures Truthy(context) && !IsEmptyObjectOrNull(context) ==> ScanTarget(NormaliseEmpty(context)) == Context(context)
  {
  }

  /** The `Cypress.log` entry for one violation; `highlight` adds `$el` (the selector string). */
  function ErrorLog(v: Finding, highlight: bool): LogEntry {
    LogEntry("a11y error!", NodeCountMessage(v.id, |v.nodes|), if highlight then Some(Selectors(v.nodes)) else None, Some(v))
  }

  /** The entry names the rule and its node count, carries the violation, and highlights every target. */
  lemma ErrorLogShape(v: Finding, highlight: bool)
    ensures var e := ErrorLog(v, highlight);
      && e.name == "a11y error!" && e.details == Some(v)
      && e.message == NodeCountMessage(v.id, |v.nodes|)
      && e.highlight == if highlight then Some(Join(Flatten(v.nodes), ", ")) else None
  {
    SelectorsFlatten(v.nodes);
  }

  /** One error log per violation, in order. */
  function ErrorLogs(violations: seq<Finding>, highlight: bool): (es: seq<Event>)
    ensures |es| == |violations|
    ensures forall i :: 0 <= i < |violations| ==> es[i] == Log(ErrorLog(violations[i], highlight))
    decreases |violations|
  {
    if violations == [] then []
    else [Log(ErrorLog(violations[0], highlight))] + ErrorLogs(violations[1..], highlight)
  }

  /** `violations.forEach(v => Cypress.log(...))`. */
  method LogEach(violations: seq<Finding>, highlight: bool) returns (events: seq<Event>)
    ensures events == ErrorLogs(violations, highlight)
  {
    events := [];
    var i := 0;
    while i < |violations|
      invariant 0 <= i <= |violations|
      invariant |events| == i
      invariant forall j :: 0 <= j < i ==> events[j] == Log(ErrorLog(violations[j], highlight))
    {
      events := events + [Log(ErrorLog(violations[i], highlight))];
      i := i + 1;
    }
  }

  /**
   * The gate: unless report-only (`skipFailures` truthy), assert that the
   * set is empty; in report-only mode log the summary when it is not.
   */
  function GateEvents(violations: seq<Finding>, skipFailures: JsValue): seq<Event>
  {
    if !Truthy(skipFailures) then [Assertion(AssertViolations(violations))]
    else if |violations| > 0 then [Log(LogViolations(violations))]
    else []
  }

  /**
   * Outside report-only mode the gate is one assertion, passing exactly
   * when the set is empty and failing with the summary otherwise; in
   * report-only mode it never fails and logs the summary exactly when
   * the set is non-empty.
   */
  lemma GateEventsShape(violations: seq<Finding>, skipFailures: JsValue)
    ensures var es := GateEvents(violations, skipFailures);
      && (!Truthy(skipFailures) ==>
            |es| == 1 && es[0].Assertion? && (es[0].verdict.Pass? <==> |violations| == 0)
            && (|violations| > 0 ==> es[0].verdict == Fail(ViolationSummary(|violations|))))
      && (Truthy(skipFailures) ==> !HasFailure(es) && (es == [] <==> |violations| == 0))
      && (Truthy(skipFailures) && |violations| > 0 ==>
            es == [Log(LogEntry("a11y violation summary", ViolationSummary(|violations|), None, None))])
  {
  }

  /**
   * The violation stage: when the filtered set is non-empty, the violation
   * callback with that set, then one error log per violation; then the
   * gate. Calling a truthy value that is not a function throws, which ends
   * the call.
   */
  function ReportViolations(violationCallback: JsValue, violations: seq<Finding>, skipFailures: JsValue): seq<Event>
  {
    if |violations| > 0 && Truthy(violationCallback) && !violationCallback.Func? then [NotAFunction("violationCallback")]
    else Called(violationCallback, violations) + ErrorLogs(violations, true) + GateEvents(violations, skipFailures)
  }

  /** `violationCallback?.(violations)` inside `if (violations.length)`. */
  function Called(violationCallback: JsValue, violations: seq<Finding>): seq<Event> {
    if |violations| > 0 && Truthy(violationCallback) then [ViolationCallback(violations)] else []
  }

  /** What follows the final scan: the results callback with the raw result, then the violation stage. */
  function AfterScan(resultsCallback: JsValue, violationCallback: JsValue, results: ScanResult,
                     violations: seq<Finding>, skipFailures: JsValue): seq<Event>
  {
    if Truthy(resultsCallback) && !resultsCallback.Func? then [NotAFunction("resultsCallback")]
    else
      (if Truthy(resultsCallback) then [ResultsCallback(results)] else [])
      + ReportViolations(violationCallback, violations, skipFailures)
  }

  /** `if (violations.length) { violationCallback?.(...); violations.forEach(...) }` and the gate. */
  method RunReport(violationCallback: JsValue, violations: seq<Finding>, skipFailures: JsValue)
    returns (events: seq<Event>)
    ensures events == ReportViolations(violationCallback, violations, skipFailures)
  {
    events := [];
    if |violations| > 0 {
      if Truthy(violationCallback) {
        if !violationCallback.Func? {
          events := [NotAFunction("violationCallback")];
          return;
        }
        events := [ViolationCallback(violations)];
      }
    }
    var logs := LogEach(violations, true);
    events := events + logs;
    events := events + GateEvents(violations, skipFailures);
  }

  /** The `.then` body after the last scan: the results callback, then the violation stage. */
  method RunCallbacks(resultsCallback: JsValue, violationCallback: JsValue, results: ScanResult,
                      violations: seq<Finding>, skipFailures: JsValue) returns (events: seq<Event>)
    ensures events == AfterScan(resultsCallback, violationCallback, results, violations, skipFailures)
  {
    events := [];
    if Truthy(resultsCallback) {
      if !resultsCallback.Func? {
        events := [NotAFunction("resultsCallback")];
        return;
      }
      events := [ResultsCallback(results)];
    }
    var rest := RunReport(violationCallback, violations, skipFailures);
    events := events + rest;
  }

  /** The violation stage never invokes the scanner. */
  lemma ReportHasNoScans(violationCallback: JsValue, violations: seq<Finding>, skipFailures: JsValue)
    ensures ScanCount(ReportViolations(violationCallback, violations, skipFailures)) == 0
  {
    var called := if |violations| > 0 && Truthy(violationCallback) then [ViolationCallback(violations)] else [];
    var logs := ErrorLogs(violations, true);
    var gate := GateEvents(violations, skipFailures);
    if |violations| > 0 && Truthy(violationCallback) && !violationCallback.Func? {
      ScanCountNone([NotAFunction("violationCallback")]);
    } else {
      assert ReportViolations(violationCallback, violations, skipFailures) == (called + logs) + gate;
      ScanCountNone(called);
      assert forall i :: 0 <= i < |logs| ==> logs[i].Log?;
      ScanCountNone(logs);
      GateEventsShape(violations, skipFailures);
      ScanCountNone(gate);
      ScanCountAppend(called, logs);
      ScanCountAppend(called + logs, gate);
    }
  }

  /** Nothing after the final scan invokes the scanner again. */
  lemma AfterScanHasNoScans(resultsCallback: JsValue, violationCallback: JsValue, results: ScanResult,
                            violations: seq<Finding>, skipFailures: JsValue)
    ensures ScanCount(AfterScan(resultsCallback, violationCallback, results, violations, skipFailures)) == 0
  {
    if Truthy(resultsCallback) && !resultsCallback.Func? {
      ScanCountNone([NotAFunction("resultsCallback")]);
    } else {
      var before := if Truthy(resultsCallback) then [ResultsCallback(results)] else [];
      ScanCountNone(before);
      ReportHasNoScans(violationCallback, violations, skipFailures);
      ScanCountAppend(before, ReportViolations(violationCallback, violations, skipFailures));
    }
  }

  /** An error log is never an assertion. */
  lemma ErrorLogsNeverFail(violations: seq<Finding>, highlight: bool)
    ensures !HasFailure(ErrorLogs(violations, highlight))
  {
    var logs := ErrorLogs(violations, highlight);
    assert forall i :: 0 <= i < |logs| ==> logs[i].Log?;
  }

  /**
   * From position k on, `es` holds the violation stage: the violation
   * callback when `called`, one error log per violation in order, then the
   * gate events `gate`, and nothing else.
   */
  predicate ReportStages(es: seq<Event>, k: nat, called: bool, violations: seq<Finding>, gate: seq<Event>) {
    var c := if called then 1 else 0;
    && |es| == k + c + |violations| + |gate|
    && (called ==> es[k] == ViolationCallback(violations))
    && (forall i :: 0 <= i < |violations| ==> es[k + c + i] == Log(ErrorLog(violations[i], true)))
    && es[k + c + |violations|..] == gate
  }

  /** The stages keep their shape behind a prefix. */
  lemma ReportStagesShift(before: seq<Event>, rest: seq<Event>, called: bool, violations: seq<Finding>, gate: seq<Event>)
    requires ReportStages(rest, 0, called, violations, gate)
    ensures ReportStages(before + rest, |before|, called, violations, gate)
  {
    var es := before + rest;
    var c := if called then 1 else 0;
    assert forall k :: 0 <= k < |rest| ==> es[|before| + k] == rest[k];
    assert es[|before| + c + |violations|..] == rest[c + |violations|..];
  }

  /** When the violation callback is a function or absent, the violation stage runs to the gate. */
  lemma ReportRunsToGate(violationCallback: JsValue, violations: seq<Finding>, skipFailures: JsValue)
    requires !Truthy(violationCallback) || violationCallback.Func?
    ensures ReportStages(ReportViolations(violationCallback, violations, skipFailures), 0,
                         |violations| > 0 && Truthy(violationCallback), violations, GateEvents(violations, skipFailures))
  {
    var logs := ErrorLogs(violations, true);
    var gate := GateEvents(violations, skipFailures);
    var tail := logs + gate;
    assert ReportStages(tail, 0, false, violations, gate) by {
      assert forall k :: 0 <= k < |logs| ==> tail[k] == logs[k];
      assert tail[|logs|..] == gate;
    }
    var es := ReportViolations(violationCallback, violations, skipFailures);
    if |violations| > 0 && Truthy(violationCallback) {
      assert es == [ViolationCallback(violations)] + tail;
      ReportStagesShift([ViolationCallback(violations)], tail, false, violations, gate);
    } else {
      assert es == [] + tail;
    }
  }

  /** When both callbacks are functions or absent, the stages run in order. */
  lemma AfterScanRunsToGate(resultsCallback: JsValue, violationCallback: JsValue, results: ScanResult,
                            violations: seq<Finding>, skipFailures: JsValue)
    requires !Truthy(resultsCallback) || resultsCallback.Func?
    requires !Truthy(violationCallback) || violationCallback.Func?
    ensures var es := AfterScan(resultsCallback, violationCallback, results, violations, skipFailures);
            && (Truthy(resultsCallback) ==> es[0] == ResultsCallback(results))
            && ReportStages(es, if Truthy(resultsCallback) then 1 else 0,
                            |violations| > 0 && Truthy(violationCallback), violations, GateEvents(violations, skipFailures))
  {
    var before := if Truthy(resultsCallback) then [ResultsCallback(results)] else [];
    var rest := ReportViolations(violationCallback, violations, skipFailures);
    assert AfterScan(resultsCallback, violationCallback, results, violations, skipFailures) == before + rest;
    ReportRunsToGate(violationCallback, violations, skipFailures);
    ReportStagesShift(before, rest, |violations| > 0 && Truthy(violationCallback), violations,
                      GateEvents(violations, skipFailures));
  }

  /**
   * The violation stage throws exactly when the set is non-empty and the
   * violation callback is truthy but not a function.
   */
  lemma ReportThrows(violationCallback: JsValue, violations: seq<Finding>, skipFailures: JsValue)
    ensures Throws(ReportViolations(violationCallback, violations, skipFailures))
            <==> |violations| > 0 && Truthy(violationCallback) && !violationCallback.Func?
  {
    if |violations| > 0 && Truthy(violationCallback) && !violationCallback.Func? {
      assert ReportViolations(violationCallback, violations, skipFailures)[0].NotAFunction?;
    } else {
      var called := Called(violationCallback, violations);
      var logs := ErrorLogs(violations, true);
      var gate := GateEvents(violations, skipFailures);
      assert ReportViolations(violationCallback, violations, skipFailures) == called + logs + gate;
      assert !Throws(logs) by { assert forall i :: 0 <= i < |logs| ==> logs[i].Log?; }
      assert !Throws(gate) by { assert forall i :: 0 <= i < |gate| ==> !gate[i].NotAFunction?; }
      assert !Throws(called) by { assert forall i :: 0 <= i < |called| ==> called[i].ViolationCallback?; }
      ThrowsAppend(called, logs);
      ThrowsAppend(called + logs, gate);
    }
  }

  /**
   * The stages after the final scan throw exactly when the results callback
   * is truthy but not a function, or when the violation stage throws.
   */
  lemma AfterScanThrows(resultsCallback: JsValue, violationCallback: JsValue, results: ScanResult,
                        violations: seq<Finding>, skipFailures: JsValue)
    ensures Throws(AfterScan(resultsCallback, violationCallback, results, violations, skipFailures))
            <==> (Truthy(resultsCallback) && !resultsCallback.Func?)
                 || (|violations| > 0 && Truthy(violationCallback) && !violationCallback.Func?)
  {
    if Truthy(resultsCallback) && !resultsCallback.Func? {
      assert AfterScan(resultsCallback, violationCallback, results, violations, skipFailures)[0].NotAFunction?;
    } else {
      var before := if Truthy(resultsCallback) then [ResultsCallback(results)] else [];
      var rest := ReportViolations(violationCallback, violations, skipFailures);
      assert AfterScan(resultsCallback, violationCallback, results, violations, skipFailures) == before + rest;
      assert !Throws(before) by { assert forall i :: 0 <= i < |before| ==> before[i].ResultsCallback?; }
      ReportThrows(violationCallback, violations, skipFailures);
      ThrowsAppend(before, rest);
    }
  }

  /**
   * In report-only mode no assertion of the violation stage fails; the
   * stage still ends in a TypeError exactly when the set is non-empty and
   * the violation callback is truthy but not a function.
   */
  lemma ReportOnlyReportNeverFails(violationCallback: JsValue, violations: seq<Finding>, skipFailures: JsValue)
    requires Truthy(skipFailures)
    ensures !HasFailure(ReportViolations(violationCallback, violations, skipFailures))
    ensures Throws(ReportViolations(violationCallback, violations, skipFailures))
            <==> |violations| > 0 && Truthy(violationCallback) && !violationCallback.Func?
  {
    ReportThrows(violationCallback, violations, skipFailures);
    if |violations| > 0 && Truthy(violationCallback) && !violationCallback.Func? {
      assert ReportViolations(violationCallback, violations, skipFailures) == [NotAFunction("violationCallback")];
    } else {
      var called := Called(violationCallback, violations);
      var logs := ErrorLogs(violations, true);
      var gate := GateEvents(violations, skipFailures);
      assert ReportViolations(violationCallback, violations, skipFailures) == called + logs + gate;
      assert !HasFailure(gate) by { GateEventsShape(violations, skipFailures); }
      assert !HasFailure(logs) by { ErrorLogsNeverFail(violations, true); }
      assert !HasFailure(called) by { assert forall i :: 0 <= i < |called| ==> !called[i].Assertion?; }
      assert !HasFailure(called + logs) by { HasFailureAppend(called, logs); }
      HasFailureAppend(called + logs, gate);
    }
  }

  /**
   * In report-only mode no assertion fails after the final scan, whatever
   * was found; the call still ends in a TypeError exactly when a callback
   * that is reached is truthy but not a function.
   */
  lemma ReportOnlyNeverFails(resultsCallback: JsValue, violationCallback: JsValue, results: ScanResult,
                             violations: seq<Finding>, skipFailures: JsValue)
    requires Truthy(skipFailures)
    ensures !HasFailure(AfterScan(resultsCallback, violationCallback, results, violations, skipFailures))
    ensures Throws(AfterScan(resultsCallback, violationCallback, results, violations, skipFailures))
            <==> (Truthy(resultsCallback) && !resultsCallback.Func?)
                 || (|violations| > 0 && Truthy(violationCallback) && !violationCallback.Func?)
  {
    AfterScanThrows(resultsCallback, violationCallback, results, violations, skipFailures);
    if Truthy(resultsCallback) && !resultsCallback.Func? {
      assert AfterScan(resultsCallback, violationCallback, results, violations, skipFailures) == [NotAFunction("resultsCallback")];
    } else {
      var before := if Truthy(resultsCallback) then [ResultsCallback(results)] else [];
      var rest := ReportViolations(violationCallback, violations, skipFailures);
      assert AfterScan(resultsCallback, violationCallback, results, violations, skipFailures) == before + rest;
      assert !HasFailure(rest) by { ReportOnlyReportNeverFails(violationCallback, violations, skipFailures); }
      assert !HasFailure(before) by { assert forall i :: 0 <= i < |before| ==> !before[i].Assertion?; }
      assert !HasFailure(before + rest) by { HasFailureAppend(before, rest); }
    }
  }

  /** Outside report-only mode, the violation stage fails exactly when the set is non-empty. */
  lemma ReportFailsIffViolations(violationCallback: JsValue, violations: seq<Finding>, skipFailures: JsValue)
    requires !Truthy(violationCallback) || violationCallback.Func?
    requires !Truthy(skipFailures)
    ensures HasFailure(ReportViolations(violationCallback, violations, skipFailures)) <==> |violations| > 0
  {
    var called := Called(violationCallback, violations);
    var logs := ErrorLogs(violations, true);
    var gate := GateEvents(violations, skipFailures);
    assert ReportViolations(violationCallback, violations, skipFailures) == called + logs + gate;
    assert HasFailure(gate) <==> |violations| > 0 by {
      GateEventsShape(violations, skipFailures);
      assert gate[0] == Assertion(AssertViolations(violations));
    }
    assert !HasFailure(logs) by { ErrorLogsNeverFail(violations, true); }
    assert !HasFailure(called) by { assert forall i :: 0 <= i < |called| ==> !called[i].Assertion?; }
    assert !HasFailure(called + logs) by { HasFailureAppend(called, logs); }
    HasFailureAppend(called + logs, gate);
  }

  /** Outside report-only mode, the call fails exactly when the filtered set is non-empty. */
  lemma GateFailsIffViolations(resultsCallback: JsValue, violationCallback: JsValue, results: ScanResult,
                               violations: seq<Finding>, skipFailures: JsValue)
    requires !Truthy(resultsCallback) || resultsCallback.Func?
    requires !Truthy(violationCallback) || violationCallback.Func?
    requires !Truthy(skipFailures)
    ensures HasFailure(AfterScan(resultsCallback, violationCallback, results, violations, skipFailures))
            <==> |violations| > 0
  {
    var before := if Truthy(resultsCallback) then [ResultsCallback(results)] else [];
    var rest := ReportViolations(violationCallback, violations, skipFailures);
    assert AfterScan(resultsCallback, violationCallback, results, violations, skipFailures) == before + rest;
    assert HasFailure(rest) <==> |violations| > 0 by {
      ReportFailsIffViolations(violationCallback, violations, skipFailures);
    }
    assert !HasFailure(before) by { assert forall i :: 0 <= i < |before| ==> !before[i].Assertion?; }
    assert HasFailure(before + rest) <==> HasFailure(rest) by { HasFailureAppend(before, rest); }
  }

  /** The callback step hands the set to the violation callback when it is a function and called. */
  lemma CalledCalls(violationCallback: JsValue, violations: seq<Finding>)
    requires !(|violations| > 0 && Truthy(violationCallback) && !violationCallback.Func?)
    ensures ViolationCallbackCalls(Called(violationCallback, violations))
            == (if |violations| > 0 && violationCallback.Func? then [violations] else [])
    ensures ResultsCallbackCalls(Called(violationCallback, violations)) == []
  {
    if |violations| > 0 && Truthy(violationCallback) {
      assert Called(violationCallback, violations)[1..] == [];
    }
  }

  /**
   * The violation stage calls the violation callback once, with the
   * filtered set, exactly when that set is non-empty and the callback is a
   * function; it never calls the results callback.
   */
  lemma ReportCalls(violationCallback: JsValue, violations: seq<Finding>, skipFailures: JsValue)
    ensures var es := ReportViolations(violationCallback, violations, skipFailures);
      && ViolationCallbackCalls(es) == (if |violations| > 0 && violationCallback.Func? then [violations] else [])
      && ResultsCallbackCalls(es) == []
  {
    if |violations| > 0 && Truthy(violationCallback) && !violationCallback.Func? {
      CallsNone([NotAFunction("violationCallback")]);
    } else {
      var called := Called(violationCallback, violations);
      var logs := ErrorLogs(violations, true);
      var gate := GateEvents(violations, skipFailures);
      assert ReportViolations(violationCallback, violations, skipFailures) == called + logs + gate;
      assert forall i :: 0 <= i < |logs| ==> logs[i].Log?;
      CallsNone(logs);
      GateEventsShape(violations, skipFailures);
      CallsNone(gate);
      CalledCalls(violationCallback, violations);
      CallsAppend(called, logs);
      CallsAppend(called + logs, gate);
    }
  }

  /**
   * After the final scan the results callback, when a function, receives the
   * raw result once; the violation callback is called as in the violation
   * stage, unless a results callback that is not a function threw first.
   */
  lemma AfterScanCalls(resultsCallback: JsValue, violationCallback: JsValue, results: ScanResult,
                       violations: seq<Finding>, skipFailures: JsValue)
    ensures var es := AfterScan(resultsCallback, violationCallback, results, violations, skipFailures);
      && ResultsCallbackCalls(es) == (if resultsCallback.Func? then [results] else [])
      && ViolationCallbackCalls(es)
         == (if (!Truthy(resultsCallback) || resultsCallback.Func?) && |violations| > 0 && violationCallback.Func?
             then [violations] else [])
  {
    if Truthy(resultsCallback) && !resultsCallback.Func? {
      CallsNone([NotAFunction("resultsCallback")]);
    } else {
      var before := if Truthy(resultsCallback) then [ResultsCallback(results)] else [];
      var rest := ReportViolations(violationCallback, violations, skipFailures);
      assert AfterScan(resultsCallback, violationCallback, results, violations, skipFailures) == before + rest;
      ReportCalls(violationCallback, violations, skipFailures);
      assert ViolationCallbackCalls(before) == [];
      CallsAppend(before, rest);
    }
  }
}
