/**
 * checkA11y of the earlier revision src/index.js: empty arguments are
 * cleared, one scan of the context (or the whole document) with the
 * options as given, then the violation stage on the raw violations, with
 * no impact filter, no retries and no results callback.
 */
module CypressAxeJs {
  import opened Js
  import opened Axe
  import opened Events
  import opened Pipeline
  import CypressAxe

  /** The events of one call (lines 23-69), given the scanner's result. */
  function CheckA11yTrace(context: JsValue, options: JsValue, violationCallback: JsValue, skipFailures: JsValue,
                          results: ScanResult): seq<Event>
  {
    [Scan(ScanTarget(NormaliseEmpty(context)), NormaliseEmpty(options))]
    + ReportViolations(NormaliseEmpty(violationCallback), results.violations, skipFailures)
  }

  /** Lines 23-69: the three clearing statements, the scan, then the violation stage. */
  method CheckA11y(context: JsValue, options: JsValue, violationCallback: JsValue, skipFailures: JsValue,
                   results: ScanResult) returns (events: seq<Event>)
    ensures events == CheckA11yTrace(context, options, violationCallback, skipFailures, results)
  {
    var ctx := ClearIfEmpty(context);
    var opts := ClearIfEmpty(options);
    var vcb := ClearIfEmpty(violationCallback);
    events := [Scan(ScanTarget(ctx), opts)];
    var rest := RunReport(vcb, results.violations, skipFailures);
    events := events + rest;
  }

  /**
   * One scan, first: of the context unless it is empty or falsy, then of
   * the whole document; with the options exactly as given, unless they are
   * empty, then none.
   */
  lemma ScansOnce(context: JsValue, options: JsValue, violationCallback: JsValue, skipFailures: JsValue,
                  results: ScanResult)
    ensures var es := CheckA11yTrace(context, options, violationCallback, skipFailures, results);
      && ScanCount(es) == 1
      && es[0].Scan?
      && es[0].target == (if Truthy(context) && !IsEmptyObjectOrNull(context) then Context(context) else WholeDocument)
      && es[0].options == (if IsEmptyObjectOrNull(options) then Undefined else options)
  {
    var scan := [Scan(ScanTarget(NormaliseEmpty(context)), NormaliseEmpty(options))];
    var rest := ReportViolations(NormaliseEmpty(violationCallback), results.violations, skipFailures);
    assert ScanCount(scan) == 1 by {
      assert scan[1..] == [];
    }
    assert ScanCount(rest) == 0 by {
      ReportHasNoScans(NormaliseEmpty(violationCallback), results.violations, skipFailures);
    }
    ScanCountAppend(scan, rest);
  }

  /**
   * The violation callback receives the full raw violation list, once,
   * exactly when that list is non-empty and the callback is a function.
   */
  lemma ViolationCallbackOnce(context: JsValue, options: JsValue, violationCallback: JsValue, skipFailures: JsValue,
                              results: ScanResult)
    ensures var es := CheckA11yTrace(context, options, violationCallback, skipFailures, results);
      ViolationCallbackCalls(es)
      == if |results.violations| > 0 && violationCallback.Func? then [results.violations] else []
  {
    var vcb := NormaliseEmpty(violationCallback);
    var scan := [Scan(ScanTarget(NormaliseEmpty(context)), NormaliseEmpty(options))];
    var rest := ReportViolations(vcb, results.violations, skipFailures);
    assert ViolationCallbackCalls(rest)
      == if |results.violations| > 0 && vcb.Func? then [results.violations] else [] by {
      ReportCalls(vcb, results.violations, skipFailures);
    }
    assert ViolationCallbackCalls(scan) == [] by {
      assert scan[1..] == [];
    }
    ViolationCallbackCallsAppend(scan, rest);
  }

  /**
   * With a violation callback that is a function or absent, the scan is
   * followed by the callback (when called), one highlighted error log per
   * violation in order, and the gate.
   */
  lemma RunsToGate(context: JsValue, options: JsValue, violationCallback: JsValue, skipFailures: JsValue,
                   results: ScanResult)
    requires !Truthy(NormaliseEmpty(violationCallback)) || violationCallback.Func?
    ensures ReportStages(CheckA11yTrace(context, options, violationCallback, skipFailures, results), 1,
                         |results.violations| > 0 && violationCallback.Func?, results.violations,
                         GateEvents(results.violations, skipFailures))
  {
    var vcb := NormaliseEmpty(violationCallback);
    var scan := [Scan(ScanTarget(NormaliseEmpty(context)), NormaliseEmpty(options))];
    var rest := ReportViolations(vcb, results.violations, skipFailures);
    var called := |results.violations| > 0 && violationCallback.Func?;
    assert CheckA11yTrace(context, options, violationCallback, skipFailures, results) == scan + rest;
    assert ReportStages(rest, 0, called, results.violations, GateEvents(results.violations, skipFailures)) by {
      assert Truthy(vcb) <==> violationCallback.Func?;
      ReportRunsToGate(vcb, results.violations, skipFailures);
    }
    ReportStagesShift(scan, rest, called, results.violations, GateEvents(results.violations, skipFailures));
  }

  /**
   * Outside report-only mode, with a usable violation callback, the call
   * fails exactly when the scanner reported a violation; in report-only
   * mode it never fails.
   */
  lemma FailsIffViolations(context: JsValue, options: JsValue, violationCallback: JsValue, skipFailures: JsValue,
                           results: ScanResult)
    requires !Truthy(NormaliseEmpty(violationCallback)) || violationCallback.Func?
    ensures var es := CheckA11yTrace(context, options, violationCallback, skipFailures, results);
      && (!Truthy(skipFailures) ==> (HasFailure(es) <==> |results.violations| > 0))
      && (Truthy(skipFailures) ==> !HasFailure(es))
  {
    var vcb := NormaliseEmpty(violationCallback);
    var scan := [Scan(ScanTarget(NormaliseEmpty(context)), NormaliseEmpty(options))];
    var rest := ReportViolations(vcb, results.violations, skipFailures);
    assert !HasFailure(scan);
    assert HasFailure(scan + rest) <==> HasFailure(rest) by {
      HasFailureAppend(scan, rest);
    }
    if Truthy(skipFailures) {
      ReportOnlyReportNeverFails(vcb, results.violations, skipFailures);
    } else {
      ReportFailsIffViolations(vcb, results.violations, skipFailures);
    }
  }

  /**
   * The current revision on a function results callback and plain,
   * non-empty options without the pipeline's keys: one scan with those
   * options, the results callback, then the violation stage on the raw
   * violations.
   */
  lemma CurrentOnPlainOptions(context: JsValue, fields: map<string, JsValue>, violationCallback: JsValue,
                              skipFailures: JsValue, scan: nat -> ScanResult)
    requires |fields| > 0 && fields.Keys !! CypressAxe.PipelineKeys
    ensures CypressAxe.CheckA11yTrace(context, Obj(fields, true), Func, violationCallback, skipFailures, scan)
      == [Scan(ScanTarget(NormaliseEmpty(context)), Obj(fields, true))]
         + ([ResultsCallback(scan(0))] + ReportViolations(NormaliseEmpty(violationCallback), scan(0).violations, skipFailures))
  {
    var options := Obj(fields, true);
    var split := CypressAxe.Split(NormaliseEmpty(options));
    var vcb := NormaliseEmpty(violationCallback);
    assert split.includedImpacts == Undefined && split.retries == Undefined && split.axeOptions == fields by {
      assert NormaliseEmpty(options) == options;
      assert fields - CypressAxe.PipelineKeys == fields by {
        assert forall k :: k in fields ==> k !in CypressAxe.PipelineKeys;
      }
    }
    assert CypressAxe.Attempts(scan, split.includedImpacts, CypressAxe.RetryBudget(split.retries)) == 1 by {
      assert CypressAxe.RetryBudget(split.retries) == 0;
    }
    assert CypressAxe.SummarizeResults(split.includedImpacts, scan(0).violations) == scan(0).violations;
    assert CypressAxe.EffectiveViolationCallback(Func, violationCallback) == vcb;
    CypressAxe.CheckA11ySingleScan(context, options, Func, violationCallback, skipFailures, scan);
  }

  /**
   * The current revision, given a results callback that is a function and
   * plain, non-empty options without the pipeline's keys, behaves as this
   * one on the first scan's result, except that it also calls the results
   * callback right after the scan.
   */
  lemma RevisionsAgree(context: JsValue, fields: map<string, JsValue>, violationCallback: JsValue,
                       skipFailures: JsValue, scan: nat -> ScanResult)
    requires |fields| > 0 && fields.Keys !! CypressAxe.PipelineKeys
    ensures var earlier := CheckA11yTrace(context, Obj(fields, true), violationCallback, skipFailures, scan(0));
      CypressAxe.CheckA11yTrace(context, Obj(fields, true), Func, violationCallback, skipFailures, scan)
      == earlier[..1] + ([ResultsCallback(scan(0))] + earlier[1..])
  {
    var first := [Scan(ScanTarget(NormaliseEmpty(context)), Obj(fields, true))];
    var call := [ResultsCallback(scan(0))];
    var rest := ReportViolations(NormaliseEmpty(violationCallback), scan(0).violations, skipFailures);
    var earlier := CheckA11yTrace(context, Obj(fields, true), violationCallback, skipFailures, scan(0));
    assert earlier[..1] == first && earlier[1..] == rest by {
      assert NormaliseEmpty(Obj(fields, true)) == Obj(fields, true);
      assert earlier == first + rest;
    }
    assert CypressAxe.CheckA11yTrace(context, Obj(fields, true), Func, violationCallback, skipFailures, scan)
      == first + (call + rest) by {
      CurrentOnPlainOptions(context, fields, violationCallback, skipFailures, scan);
    }
  }
}
