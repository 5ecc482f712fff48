/**
 * Whole calls of checkA11y (src/index.ts) on concrete findings: a scan
 * with one serious and one minor violation filtered down to the serious
 * one, and a clean scan.
 */
module Scenarios {
  import opened Wrappers
  import opened Js
  import opened Axe
  import opened Events
  import opened Pipeline
  import opened Assertions
  import opened CypressAxe

  const Serious: Finding := Finding("color-contrast", Some("serious"), "Elements must have sufficient color contrast", [Node(["#logo"])])
  const Minor: Finding := Finding("region", Some("minor"), "All page content should be contained by landmarks", [Node(["#footer"])])

  /** `{ includedImpacts: ['serious'] }`. */
  const SeriousOnly: JsValue := Obj(map["includedImpacts" := Arr([Str("serious")])], true)

  /** The serious finding passes the filter and the minor one does not. */
  lemma SeriousFilter()
    ensures SummarizeResults(Split(NormaliseEmpty(SeriousOnly)).includedImpacts, [Serious, Minor]) == [Serious]
  {
    var items := [Str("serious")];
    assert Split(NormaliseEmpty(SeriousOnly)).includedImpacts == Arr(items);
    assert Listed(items, Serious);
    assert !Listed(items, Minor) by {
      assert Str("minor") != Str("serious");
    }
    assert KeepListed(items, [Serious, Minor]) == [Serious] + KeepListed(items, [Minor]);
    assert [Serious, Minor][1..] == [Minor];
    assert KeepListed(items, [Minor]) == KeepListed(items, []);
  }

  /** The options hold only the impact filter: nothing is forwarded to the scanner and there is no retry. */
  lemma SeriousOnlySplit()
    ensures var split := Split(NormaliseEmpty(SeriousOnly));
      && split.retries == Undefined
      && split.axeOptions == map[]
      && split.includedImpacts == Arr([Str("serious")])
  {
    var split := Split(NormaliseEmpty(SeriousOnly));
    assert NormaliseEmpty(SeriousOnly) == SeriousOnly;
    assert split.axeOptions.Keys == {};
  }

  /** With no callbacks, the serious finding is logged and the assertion fails naming one violation. */
  lemma SeriousAfterScan(result: ScanResult)
    ensures AfterScan(Undefined, Undefined, result, [Serious], Undefined)
      == [Log(ErrorLog(Serious, true)), Assertion(Fail("1 accessibility violation was detected"))]
  {
    var gate := [Assertion(Fail("1 accessibility violation was detected"))];
    assert GateEvents([Serious], Undefined) == gate by {
      AssertViolationsSingular([Serious]);
    }
    assert ErrorLogs([Serious], true) == [Log(ErrorLog(Serious, true))];
    assert ReportViolations(Undefined, [Serious], Undefined) == [] + [Log(ErrorLog(Serious, true))] + gate;
  }

  /**
   * The scanner reports a serious and a minor violation, only serious ones
   * are asked for, and no callback is given: one scan of the whole
   * document with nothing forwarded, no retry, one error log for the
   * serious violation, and a failed assertion naming one violation.
   */
  lemma SeriousScenario(scan: nat -> ScanResult)
    requires scan(0).violations == [Serious, Minor]
    ensures CheckA11yTrace(Undefined, SeriousOnly, Undefined, Undefined, Undefined, scan)
      == [Scan(WholeDocument, Obj(map[], true)),
          Log(ErrorLog(Serious, true)),
          Assertion(Fail("1 accessibility violation was detected"))]
  {
    var split := Split(NormaliseEmpty(SeriousOnly));
    SeriousOnlySplit();
    assert RetryBudget(split.retries) == 0;
    assert Attempts(scan, split.includedImpacts, 0) == 1;
    SeriousFilter();
    SeriousAfterScan(scan(0));
    CheckA11ySingleScan(Undefined, SeriousOnly, Undefined, Undefined, Undefined, scan);
  }

  /** With nothing found and a usable results callback, the results callback runs and the assertion passes. */
  lemma CleanAfterScan(resultsCallback: JsValue, violationCallback: JsValue, result: ScanResult, skipFailures: JsValue)
    requires !Truthy(resultsCallback) || resultsCallback.Func?
    requires !Truthy(skipFailures)
    ensures AfterScan(resultsCallback, violationCallback, result, [], skipFailures)
      == (if Truthy(resultsCallback) then [ResultsCallback(result)] else []) + [Assertion(Pass)]
  {
    assert Called(violationCallback, []) == [] && ErrorLogs([], true) == [];
    assert GateEvents([], skipFailures) == [Assertion(Pass)];
    assert ReportViolations(violationCallback, [], skipFailures) == [] + [] + [Assertion(Pass)];
  }

  /** Nothing found means nothing left after the filter, and a single attempt. */
  lemma CleanAttempts(options: JsValue, scan: nat -> ScanResult)
    requires scan(0).violations == []
    ensures var split := Split(NormaliseEmpty(options));
      && SummarizeResults(split.includedImpacts, []) == []
      && Attempts(scan, split.includedImpacts, RetryBudget(split.retries)) == 1
  {
    var split := Split(NormaliseEmpty(options));
    if FilterActive(split.includedImpacts) {
      assert KeepListed(split.includedImpacts.items, []) == [];
    }
    assert !Dirty(scan, split.includedImpacts, 0);
  }

  /**
   * A clean first scan, outside report-only mode, with callbacks that are
   * functions or absent: a single scan, the results callback with that
   * result when it is a function, no violation callback, no error log, and
   * a passing assertion.
   */
  lemma CleanScenario(context: JsValue, options: JsValue, resultsCallback: JsValue, violationCallback: JsValue,
                      skipFailures: JsValue, scan: nat -> ScanResult)
    requires scan(0).violations == []
    requires !Truthy(resultsCallback) || resultsCallback.Func?
    requires !Truthy(skipFailures)
    ensures var split := Split(NormaliseEmpty(options));
      CheckA11yTrace(context, options, resultsCallback, violationCallback, skipFailures, scan)
      == [Scan(ScanTarget(NormaliseEmpty(context)), Obj(split.axeOptions, true))]
         + (if Truthy(resultsCallback) then [ResultsCallback(scan(0))] else [])
         + [Assertion(Pass)]
  {
    var split := Split(NormaliseEmpty(options));
    var head := [Scan(ScanTarget(NormaliseEmpty(context)), Obj(split.axeOptions, true))];
    var before := if Truthy(resultsCallback) then [ResultsCallback(scan(0))] else [];
    CleanAttempts(options, scan);
    CleanAfterScan(resultsCallback, EffectiveViolationCallback(resultsCallback, violationCallback), scan(0), skipFailures);
    CheckA11ySingleScan(context, options, resultsCallback, violationCallback, skipFailures, scan);
    assert head + (before + [Assertion(Pass)]) == head + before + [Assertion(Pass)];
  }
}
