/**
 * checkA11y of the current revision (src/index.ts): normalise the
 * arguments, split the pipeline's own options from the scanner's, scan and
 * re-scan while the impact-filtered violations are non-empty and retries
 * remain, then report and assert.
 */
module CypressAxe {
  import opened Wrappers
  import opened Js
  import opened Axe
  import opened Events
  import opened Pipeline

  // ---------------------------------------------------------------------
  // Impact filter (summarizeResults)

  /** `includedImpacts && Array.isArray(includedImpacts) && Boolean(includedImpacts.length)`. */
  predicate FilterActive(includedImpacts: JsValue) {
    includedImpacts.Arr? && |includedImpacts.items| > 0
  }

  /** `v.impact && includedImpacts.includes(v.impact)`: an absent or empty label never matches. */
  predicate Listed(items: seq<JsValue>, v: Finding) {
    v.impact.Some? && v.impact.value != "" && Str(v.impact.value) in items
  }

  /** `b` contains `a` in order, possibly with other elements between. */
  predicate IsSubsequence(a: seq<Finding>, b: seq<Finding>)
    decreases |b|
  {
    if a == [] then true
    else if b == [] then false
    else (a[0] == b[0] && IsSubsequence(a[1..], b[1..])) || IsSubsequence(a, b[1..])
  }

  lemma {:induction false} SubsequenceReflexive(a: seq<Finding>)
    ensures IsSubsequence(a, a)
    decreases |a|
  {
    if a != [] {
      SubsequenceReflexive(a[1..]);
    }
  }

  /** `violations.filter(v => v.impact && includedImpacts.includes(v.impact))`. */
  function KeepListed(items: seq<JsValue>, violations: seq<Finding>): seq<Finding>
    decreases |violations|
  {
    if violations == [] then []
    else if Listed(items, violations[0]) then [violations[0]] + KeepListed(items, violations[1..])
    else KeepListed(items, violations[1..])
  }

  /**
   * The filter keeps, in order, exactly the listed findings: each as often
   * as the scanner reported it, and nothing else.
   */
  lemma {:induction false} KeepListedSelects(items: seq<JsValue>, violations: seq<Finding>)
    ensures var r := KeepListed(items, violations);
      && IsSubsequence(r, violations)
      && (forall v :: v in r ==> Listed(items, v))
      && (forall v :: multiset(r)[v] == if Listed(items, v) then multiset(violations)[v] else 0)
    decreases |violations|
  {
    if violations != [] {
      KeepListedSelects(items, violations[1..]);
      var rest := KeepListed(items, violations[1..]);
      assert violations == [violations[0]] + violations[1..];
      if Listed(items, violations[0]) {
        var r := [violations[0]] + rest;
        assert r[0] == violations[0] && r[1..] == rest;
      }
    }
  }

  /**
   * `summarizeResults`: the identity unless a non-empty impact list is given;
   * then exactly the listed violations, in their original order.
   */
  function SummarizeResults(includedImpacts: JsValue, violations: seq<Finding>): seq<Finding> {
    if FilterActive(includedImpacts) then KeepListed(includedImpacts.items, violations) else violations
  }

  lemma SummarizeResultsSelects(includedImpacts: JsValue, violations: seq<Finding>)
    ensures var r := SummarizeResults(includedImpacts, violations);
      && (!FilterActive(includedImpacts) ==> r == violations)
      && IsSubsequence(r, violations)
      && (FilterActive(includedImpacts) ==>
            forall v :: multiset(r)[v] == if Listed(includedImpacts.items, v) then multiset(violations)[v] else 0)
  {
    SubsequenceReflexive(violations);
    if FilterActive(includedImpacts) {
      KeepListedSelects(includedImpacts.items, violations);
    }
  }

  lemma {:induction false} KeepListedIdempotent(items: seq<JsValue>, violations: seq<Finding>)
    ensures KeepListed(items, KeepListed(items, violations)) == KeepListed(items, violations)
    decreases |violations|
  {
    if violations != [] {
      KeepListedIdempotent(items, violations[1..]);
      var rest := KeepListed(items, violations[1..]);
      if Listed(items, violations[0]) {
        var r := [violations[0]] + rest;
        assert r[0] == violations[0] && r[1..] == rest;
      }
    }
  }

  /** Filtering twice is filtering once. */
  lemma SummarizeResultsIdempotent(includedImpacts: JsValue, violations: seq<Finding>)
    ensures SummarizeResults(includedImpacts, SummarizeResults(includedImpacts, violations))
            == SummarizeResults(includedImpacts, violations)
  {
    if FilterActive(includedImpacts) {
      KeepListedIdempotent(includedImpacts.items, violations);
    }
  }

  lemma {:induction false} SubsequenceNotLonger(a: seq<Finding>, b: seq<Finding>)
    requires IsSubsequence(a, b)
    ensures |a| <= |b|
    ensures forall v :: v in a ==> v in b
    decreases |b|
  {
    if a != [] {
      if a[0] == b[0] && IsSubsequence(a[1..], b[1..]) {
        SubsequenceNotLonger(a[1..], b[1..]);
        assert forall v :: v in a ==> v == a[0] || v in a[1..];
      } else {
        SubsequenceNotLonger(a, b[1..]);
      }
    }
  }

  /** The filter only narrows: it never adds a finding the scanner did not report. */
  lemma SummarizeResultsNarrows(includedImpacts: JsValue, violations: seq<Finding>)
    ensures |SummarizeResults(includedImpacts, violations)| <= |violations|
    ensures forall v :: v in SummarizeResults(includedImpacts, violations) ==> v in violations
  {
    SummarizeResultsSelects(includedImpacts, violations);
    SubsequenceNotLonger(SummarizeResults(includedImpacts, violations), violations);
  }

  lemma {:induction false} KeepListedAppend(items: seq<JsValue>, a: seq<Finding>, b: seq<Finding>)
    ensures KeepListed(items, a + b) == KeepListed(items, a) + KeepListed(items, b)
    decreases |a|
  {
    if a == [] {
      assert a + b == b;
    } else {
      assert (a + b)[0] == a[0] && (a + b)[1..] == a[1..] + b;
      KeepListedAppend(items, a[1..], b);
    }
  }

  /** Filtering a concatenation filters each part. */
  lemma SummarizeResultsAppend(includedImpacts: JsValue, a: seq<Finding>, b: seq<Finding>)
    ensures SummarizeResults(includedImpacts, a + b)
            == SummarizeResults(includedImpacts, a) + SummarizeResults(includedImpacts, b)
  {
    if FilterActive(includedImpacts) {
      KeepListedAppend(includedImpacts.items, a, b);
    }
  }

  // ---------------------------------------------------------------------
  // Option splitting

  /** The option keys the pipeline consumes itself. */
  const PipelineKeys: set<string> := {"includedImpacts", "interval", "retries"}

  datatype SplitOptions = SplitOptions(
    includedImpacts: JsValue,
    interval: JsValue,
    retries: JsValue,
    axeOptions: map<string, JsValue>)

  /** `const { includedImpacts, interval, retries, ...axeOptions } = options || {}`. */
  function Split(options: JsValue): SplitOptions {
    SplitProps(OwnProps(Or(options, Obj(map[], true))))
  }

  /** The destructuring pattern applied to the properties it reads. */
  function SplitProps(props: map<string, JsValue>): SplitOptions {
    SplitOptions(Get(props, "includedImpacts"), Get(props, "interval"), Get(props, "retries"),
                 props - PipelineKeys)
  }

  /**
   * The three pipeline controls are read from the options (absent keys read
   * `undefined`), and everything else, and only that, is forwarded.
   */
  lemma SplitFields(options: JsValue)
    ensures var props := OwnProps(Or(options, Obj(map[], true)));
      var s := Split(options);
      && s.includedImpacts == Get(props, "includedImpacts")
      && s.interval == Get(props, "interval")
      && s.retries == Get(props, "retries")
      && (forall k :: k in PipelineKeys ==> k !in s.axeOptions)
      && (forall k :: k in props && k !in PipelineKeys ==> k in s.axeOptions && s.axeOptions[k] == props[k])
      && s.axeOptions.Keys <= props.Keys
  {
  }

  /**
   * What reaches the scanner, for any options argument: its own entries
   * without the pipeline's keys, so empty or absent options forward `{}`.
   */
  lemma ForwardedOptions(options: JsValue)
    ensures Split(NormaliseEmpty(options)).axeOptions == OwnProps(options) - PipelineKeys
    ensures IsEmptyObjectOrNull(options) ==> Split(NormaliseEmpty(options)).axeOptions == map[]
  {
  }

  // ---------------------------------------------------------------------
  // Retry loop (runAxeCheck)

  /** `retries || 0`, as it behaves under `> 0` and `--`. */
  function RetryBudget(retries: JsValue): int {
    match Or(retries, Num(0))
    case Num(n) => n
    case Bool(b) => if b then 1 else 0
    case _ => 0
  }

  /** `interval || 1000`: the delay handed to setTimeout before every re-scan. */
  function RetryDelay(interval: JsValue): (d: JsValue)
    ensures Truthy(interval) ==> d == interval
    ensures !Truthy(interval) ==> d == Num(1000)
  {
    Or(interval, Num(1000))
  }

  /**
   * `retries: 0`, `undefined` and `null` all allow no re-scan, `true` allows
   * one, and a number allows that many re-scans when positive, none otherwise.
   */
  lemma RetryBudgetValues(n: int)
    ensures RetryBudget(Num(0)) == 0 && RetryBudget(Undefined) == 0 && RetryBudget(Null) == 0
    ensures RetryBudget(Bool(true)) == 1 && RetryBudget(Bool(false)) == 0
    ensures Retries(RetryBudget(Num(n))) == if n > 0 then n else 0
  {
  }

  /** A zero interval does not mean "no wait": it waits the default 1000 ms. */
  lemma ZeroIntervalWaitsDefault()
    ensures RetryDelay(Num(0)) == Num(1000) && RetryDelay(Undefined) == Num(1000)
  {
  }

  /** Attempt i of the scanner leaves violations after filtering. */
  predicate Dirty(scan: nat -> ScanResult, includedImpacts: JsValue, i: nat) {
    |SummarizeResults(includedImpacts, scan(i).violations)| > 0
  }

  /** The number of scans made from attempt i on, with `remaining` retries left. */
  function AttemptsFrom(scan: nat -> ScanResult, includedImpacts: JsValue, i: nat, remaining: nat): (n: nat)
    ensures i < n <= i + remaining + 1
    decreases remaining
  {
    if Dirty(scan, includedImpacts, i) && remaining > 0 then AttemptsFrom(scan, includedImpacts, i + 1, remaining - 1)
    else i + 1
  }

  /** The retries actually available: a budget below zero allows none. */
  function Retries(budget: int): nat {
    if budget > 0 then budget else 0
  }

  /** The number of scans one check call makes. */
  function Attempts(scan: nat -> ScanResult, includedImpacts: JsValue, budget: int): (n: nat)
    ensures 1 <= n <= Retries(budget) + 1
  {
    AttemptsFrom(scan, includedImpacts, 0, Retries(budget))
  }

  lemma {:induction false} AttemptsFromStops(scan: nat -> ScanResult, includedImpacts: JsValue, i: nat, remaining: nat)
    ensures var n := AttemptsFrom(scan, includedImpacts, i, remaining);
      && (forall j :: i <= j < n - 1 ==> Dirty(scan, includedImpacts, j))
      && (!Dirty(scan, includedImpacts, n - 1) || n == i + remaining + 1)
    decreases remaining
  {
    if Dirty(scan, includedImpacts, i) && remaining > 0 {
      AttemptsFromStops(scan, includedImpacts, i + 1, remaining - 1);
    }
  }

  /**
   * The loop stops at the first scan whose filtered set is empty, or after
   * the last retry: every earlier scan was dirty, and these facts single out
   * the number of scans.
   */
  lemma AttemptsCharacterised(scan: nat -> ScanResult, includedImpacts: JsValue, budget: int, n: nat)
    ensures n == Attempts(scan, includedImpacts, budget) <==>
      && 1 <= n <= Retries(budget) + 1
      && (forall j :: 0 <= j < n - 1 ==> Dirty(scan, includedImpacts, j))
      && (!Dirty(scan, includedImpacts, n - 1) || n == Retries(budget) + 1)
  {
    AttemptsFromStops(scan, includedImpacts, 0, Retries(budget));
  }

  /**
   * A scanner whose first k results are dirty and all later ones clean:
   * k + 1 scans when k is within the retry budget r, else r + 1 scans, and
   * the final filtered set is empty exactly when k <= r.
   */
  lemma StubAttempts(scan: nat -> ScanResult, includedImpacts: JsValue, budget: int, k: nat)
    requires forall j :: 0 <= j < k ==> Dirty(scan, includedImpacts, j)
    requires forall j :: k <= j ==> !Dirty(scan, includedImpacts, j)
    ensures Attempts(scan, includedImpacts, budget) == if k <= Retries(budget) then k + 1 else Retries(budget) + 1
    ensures !Dirty(scan, includedImpacts, Attempts(scan, includedImpacts, budget) - 1) <==> k <= Retries(budget)
  {
    var n := if k <= Retries(budget) then k + 1 else Retries(budget) + 1;
    AttemptsCharacterised(scan, includedImpacts, budget, n);
  }

  /**
   * The scanner invocations and waits of n attempts: scans at even
   * positions, a wait of `delay` at every odd one, a scan last.
   */
  function RetryTrace(target: Target, options: JsValue, delay: JsValue, n: nat): (es: seq<Event>)
    requires n >= 1
    ensures |es| == 2 * n - 1
    decreases n
  {
    if n == 1 then [Scan(target, options)]
    else RetryTrace(target, options, delay, n - 1) + [Wait(delay), Scan(target, options)]
  }

  /** n attempts invoke the scanner n times. */
  lemma {:induction false} RetryTraceScans(target: Target, options: JsValue, delay: JsValue, n: nat)
    requires n >= 1
    ensures ScanCount(RetryTrace(target, options, delay, n)) == n
    decreases n
  {
    if n > 1 {
      var prev := RetryTrace(target, options, delay, n - 1);
      var step := [Wait(delay), Scan(target, options)];
      RetryTraceScans(target, options, delay, n - 1);
      assert step[1..][1..] == [];
      assert ScanCount(step[1..]) == 1;
      assert ScanCount(step) == 1;
      ScanCountAppend(prev, step);
    }
  }

  /** Every wait comes between two scans and waits `delay`; the trace ends with a scan. */
  lemma {:induction false} RetryTraceShape(target: Target, options: JsValue, delay: JsValue, n: nat, i: nat)
    requires n >= 1 && i < 2 * n - 1
    ensures RetryTrace(target, options, delay, n)[i] == if i % 2 == 0 then Scan(target, options) else Wait(delay)
    decreases n
  {
    if n > 1 && i < 2 * n - 3 {
      RetryTraceShape(target, options, delay, n - 1, i);
    }
  }

  /** A dirty scan with retries left is followed by the next attempt. */
  lemma AttemptsFromStep(scan: nat -> ScanResult, includedImpacts: JsValue, i: nat, remaining: nat)
    requires Dirty(scan, includedImpacts, i) && remaining > 0
    ensures AttemptsFrom(scan, includedImpacts, i + 1, remaining - 1) == AttemptsFrom(scan, includedImpacts, i, remaining)
  {
  }

  /** A clean scan, or one with no retries left, is the last. */
  lemma AttemptsFromDone(scan: nat -> ScanResult, includedImpacts: JsValue, i: nat, remaining: nat)
    requires !Dirty(scan, includedImpacts, i) || remaining == 0
    ensures AttemptsFrom(scan, includedImpacts, i, remaining) == i + 1
  {
  }

  /** Records a retry: the wait before the next attempt, then its scan. */
  method LogRetry(trace: seq<Event>, target: Target, options: JsValue, delay: JsValue, n: nat)
    returns (next: seq<Event>)
    requires n >= 1 && trace == RetryTrace(target, options, delay, n)
    ensures next == RetryTrace(target, options, delay, n + 1)
  {
    next := trace + [Wait(delay), Scan(target, options)];
  }
  /** `runAxeCheck`: scan, and re-scan after a wait while dirty and retries remain. */
  method RunAxeCheck(target: Target, axeOptions: map<string, JsValue>, includedImpacts: JsValue,
                     interval: JsValue, retries: JsValue, scan: nat -> ScanResult)
    returns (results: ScanResult, violationResults: seq<Finding>, trace: seq<Event>)
    ensures var n := Attempts(scan, includedImpacts, RetryBudget(retries));
      && results == scan(n - 1)
      && violationResults == SummarizeResults(includedImpacts, results.violations)
      && trace == RetryTrace(target, Obj(axeOptions, true), RetryDelay(interval), n)
  {
    var options := Obj(axeOptions, true);
    var delay := RetryDelay(interval);
    // A budget below zero runs the loop as a budget of zero does.
    var remainingRetries: nat := Retries(RetryBudget(retries));
    var attempt: nat := 0;
    results := scan(attempt);
    violationResults := SummarizeResults(includedImpacts, results.violations);
    trace := [Scan(target, options)];
    while |violationResults| > 0 && remainingRetries > 0
      invariant AttemptsFrom(scan, includedImpacts, attempt, remainingRetries)
                == Attempts(scan, includedImpacts, RetryBudget(retries))
      invariant results == scan(attempt)
      invariant violationResults == SummarizeResults(includedImpacts, results.violations)
      invariant trace == RetryTrace(target, options, delay, attempt + 1)
      decreases remainingRetries
    {
      AttemptsFromStep(scan, includedImpacts, attempt, remainingRetries);
      remainingRetries := remainingRetries - 1;
      attempt := attempt + 1;
      results := scan(attempt);
      trace := LogRetry(trace, target, options, delay, attempt);
      violationResults := SummarizeResults(includedImpacts, results.violations);
    }
    AttemptsFromDone(scan, includedImpacts, attempt, remainingRetries);
  }

  // ---------------------------------------------------------------------
  // The command

  /**
   * Lines 82-87: an empty or absent results callback also clears the
   * violation callback, and so does an empty violation callback.
   */
  function EffectiveViolationCallback(resultsCallback: JsValue, violationCallback: JsValue): (cb: JsValue)
    ensures IsEmptyObjectOrNull(resultsCallback) || IsEmptyObjectOrNull(violationCallback) ==> cb == Undefined
    ensures !IsEmptyObjectOrNull(resultsCallback) && !IsEmptyObjectOrNull(violationCallback) ==> cb == violationCallback
  {
    var cb := if IsEmptyObjectOrNull(resultsCallback) then Undefined else violationCallback;
    NormaliseEmpty(cb)
  }

  /** Lines 82-87 as statements. */
  method ClearViolationCallback(resultsCallback: JsValue, violationCallback: JsValue) returns (cb: JsValue)
    ensures cb == EffectiveViolationCallback(resultsCallback, violationCallback)
  {
    cb := violationCallback;
    if IsEmptyObjectOrNull(resultsCallback) {
      cb := Undefined;
    }
    cb := ClearIfEmpty(cb);
  }

  /**
   * The call once its arguments are normalised: scan the target with the
   * forwarded options until the retry loop stops, then run the stages after
   * the final scan on its raw result and its filtered violations.
   */
  function Checked(target: Target, split: SplitOptions, resultsCallback: JsValue, violationCallback: JsValue,
                   skipFailures: JsValue, scan: nat -> ScanResult): seq<Event>
  {
    Run(target, split, resultsCallback, violationCallback, skipFailures, scan,
        Attempts(scan, split.includedImpacts, RetryBudget(split.retries)))
  }

  /** n attempts, then the stages after the final scan, attempt n - 1. */
  function Run(target: Target, split: SplitOptions, resultsCallback: JsValue, violationCallback: JsValue,
               skipFailures: JsValue, scan: nat -> ScanResult, n: nat): seq<Event>
    requires n >= 1
  {
    RetryTrace(target, Obj(split.axeOptions, true), RetryDelay(split.interval), n)
    + AfterScan(resultsCallback, violationCallback, scan(n - 1),
                SummarizeResults(split.includedImpacts, scan(n - 1).violations), skipFailures)
  }

  /** Everything one `checkA11y(context, options, resultsCallback, violationCallback, skipFailures)` does. */
  function CheckA11yTrace(context: JsValue, options: JsValue, resultsCallback: JsValue, violationCallback: JsValue,
                          skipFailures: JsValue, scan: nat -> ScanResult): seq<Event>
  {
    Checked(ScanTarget(NormaliseEmpty(context)), Split(NormaliseEmpty(options)), resultsCallback,
            EffectiveViolationCallback(resultsCallback, violationCallback), skipFailures, scan)
  }

  /** The call once its arguments are normalised: the retry loop, then the callbacks and the gate. */
  method Check(target: Target, split: SplitOptions, resultsCallback: JsValue, violationCallback: JsValue,
               skipFailures: JsValue, scan: nat -> ScanResult)
    returns (events: seq<Event>)
    ensures events == Checked(target, split, resultsCallback, violationCallback, skipFailures, scan)
  {
    var results, violationResults, trace :=
      RunAxeCheck(target, split.axeOptions, split.includedImpacts, split.interval, split.retries, scan);
    var tail := RunCallbacks(resultsCallback, violationCallback, results, violationResults, skipFailures);
    events := trace + tail;
  }

  method CheckA11y(context: JsValue, options: JsValue, resultsCallback: JsValue, violationCallback: JsValue,
                   skipFailures: JsValue, scan: nat -> ScanResult)
    returns (events: seq<Event>)
    ensures events == CheckA11yTrace(context, options, resultsCallback, violationCallback, skipFailures, scan)
  {
    var ctx := ClearIfEmpty(context);
    var opts := ClearIfEmpty(options);
    var vcb := ClearViolationCallback(resultsCallback, violationCallback);
    events := Check(ScanTarget(ctx), Split(opts), resultsCallback, vcb, skipFailures, scan);
  }

  // ---------------------------------------------------------------------
  // Properties of the whole call

  /** The retry phase holds only scanner invocations and waits. */
  lemma RetryTraceOnlyScansAndWaits(target: Target, options: JsValue, delay: JsValue, n: nat)
    requires n >= 1
    ensures forall i :: 0 <= i < 2 * n - 1 ==>
      RetryTrace(target, options, delay, n)[i].Scan? || RetryTrace(target, options, delay, n)[i].Wait?
  {
    var es := RetryTrace(target, options, delay, n);
    forall i | 0 <= i < |es|
      ensures es[i].Scan? || es[i].Wait?
    {
      RetryTraceShape(target, options, delay, n, i);
    }
  }

  /** The retry phase invokes the scanner n times and nothing comes after it that does. */
  lemma PhasesScans(target: Target, options: JsValue, delay: JsValue, n: nat, after: seq<Event>)
    requires n >= 1
    requires ScanCount(after) == 0
    ensures ScanCount(RetryTrace(target, options, delay, n) + after) == n
  {
    RetryTraceScans(target, options, delay, n);
    ScanCountAppend(RetryTrace(target, options, delay, n), after);
  }

  /** A failure can only come after the final scan. */
  lemma PhasesFailure(target: Target, options: JsValue, delay: JsValue, n: nat, after: seq<Event>)
    requires n >= 1
    ensures HasFailure(RetryTrace(target, options, delay, n) + after) <==> HasFailure(after)
  {
    var retry := RetryTrace(target, options, delay, n);
    RetryTraceOnlyScansAndWaits(target, options, delay, n);
    HasFailureAppend(retry, after);
    assert forall i :: 0 <= i < |retry| ==> !retry[i].Assertion?;
  }

  /** A TypeError can only come after the final scan. */
  lemma PhasesThrows(target: Target, options: JsValue, delay: JsValue, n: nat, after: seq<Event>)
    requires n >= 1
    ensures Throws(RetryTrace(target, options, delay, n) + after) <==> Throws(after)
  {
    var retry := RetryTrace(target, options, delay, n);
    RetryTraceOnlyScansAndWaits(target, options, delay, n);
    ThrowsAppend(retry, after);
    assert forall i :: 0 <= i < |retry| ==> !retry[i].NotAFunction?;
  }

  /** The callbacks can only be called after the final scan. */
  lemma PhasesCallbacks(target: Target, options: JsValue, delay: JsValue, n: nat, after: seq<Event>)
    requires n >= 1
    ensures var es := RetryTrace(target, options, delay, n) + after;
      && ViolationCallbackCalls(es) == ViolationCallbackCalls(after)
      && ResultsCallbackCalls(es) == ResultsCallbackCalls(after)
  {
    var retry := RetryTrace(target, options, delay, n);
    RetryTraceOnlyScansAndWaits(target, options, delay, n);
    CallsNone(retry);
    CallsAppend(retry, after);
  }

  /** The call is its retry phase followed by the stages after the final scan. */
  lemma CheckedSplits(target: Target, split: SplitOptions, resultsCallback: JsValue, violationCallback: JsValue,
                      skipFailures: JsValue, scan: nat -> ScanResult, n: nat)
    requires n == Attempts(scan, split.includedImpacts, RetryBudget(split.retries))
    ensures Checked(target, split, resultsCallback, violationCallback, skipFailures, scan)
      == RetryTrace(target, Obj(split.axeOptions, true), RetryDelay(split.interval), n)
         + AfterScan(resultsCallback, violationCallback, scan(n - 1),
                     SummarizeResults(split.includedImpacts, scan(n - 1).violations), skipFailures)
  {
    assert Checked(target, split, resultsCallback, violationCallback, skipFailures, scan)
      == Run(target, split, resultsCallback, violationCallback, skipFailures, scan, n);
  }

  lemma CheckedScans(target: Target, split: SplitOptions, resultsCallback: JsValue, violationCallback: JsValue,
                       skipFailures: JsValue, scan: nat -> ScanResult)
    ensures ScanCount(Checked(target, split, resultsCallback, violationCallback, skipFailures, scan))
            == Attempts(scan, split.includedImpacts, RetryBudget(split.retries))
  {
    var n := Attempts(scan, split.includedImpacts, RetryBudget(split.retries));
    var violations := SummarizeResults(split.includedImpacts, scan(n - 1).violations);
    var after := AfterScan(resultsCallback, violationCallback, scan(n - 1), violations, skipFailures);
    var retry := RetryTrace(target, Obj(split.axeOptions, true), RetryDelay(split.interval), n);
    assert Checked(target, split, resultsCallback, violationCallback, skipFailures, scan) == retry + after by {
      CheckedSplits(target, split, resultsCallback, violationCallback, skipFailures, scan, n);
    }
    assert ScanCount(after) == 0 by {
      AfterScanHasNoScans(resultsCallback, violationCallback, scan(n - 1), violations, skipFailures);
    }
    assert ScanCount(retry + after) == n by {
      PhasesScans(target, Obj(split.axeOptions, true), RetryDelay(split.interval), n, after);
    }
  }

  lemma CheckedFails(target: Target, split: SplitOptions, resultsCallback: JsValue, violationCallback: JsValue,
                       skipFailures: JsValue, scan: nat -> ScanResult)
    requires !Truthy(resultsCallback) || resultsCallback.Func?
    requires !Truthy(violationCallback) || violationCallback.Func?
    requires !Truthy(skipFailures)
    ensures HasFailure(Checked(target, split, resultsCallback, violationCallback, skipFailures, scan))
            <==> Dirty(scan, split.includedImpacts, Attempts(scan, split.includedImpacts, RetryBudget(split.retries)) - 1)
  {
    var n := Attempts(scan, split.includedImpacts, RetryBudget(split.retries));
    var violations := SummarizeResults(split.includedImpacts, scan(n - 1).violations);
    var after := AfterScan(resultsCallback, violationCallback, scan(n - 1), violations, skipFailures);
    var retry := RetryTrace(target, Obj(split.axeOptions, true), RetryDelay(split.interval), n);
    assert Checked(target, split, resultsCallback, violationCallback, skipFailures, scan) == retry + after by {
      CheckedSplits(target, split, resultsCallback, violationCallback, skipFailures, scan, n);
    }
    assert HasFailure(after) <==> |violations| > 0 by {
      GateFailsIffViolations(resultsCallback, violationCallback, scan(n - 1), violations, skipFailures);
    }
    assert HasFailure(retry + after) <==> HasFailure(after) by {
      PhasesFailure(target, Obj(split.axeOptions, true), RetryDelay(split.interval), n, after);
    }
  }

  /**
   * In report-only mode no assertion of the normalised call fails; it ends
   * in a TypeError exactly when a callback that is reached is truthy but
   * not a function.
   */
  lemma CheckedReportOnly(target: Target, split: SplitOptions, resultsCallback: JsValue, violationCallback: JsValue,
                       skipFailures: JsValue, scan: nat -> ScanResult)
    requires Truthy(skipFailures)
    ensures var es := Checked(target, split, resultsCallback, violationCallback, skipFailures, scan);
      var n := Attempts(scan, split.includedImpacts, RetryBudget(split.retries));
      && !HasFailure(es)
      && (Throws(es) <==> (Truthy(resultsCallback) && !resultsCallback.Func?)
                          || (Dirty(scan, split.includedImpacts, n - 1)
                              && Truthy(violationCallback) && !violationCallback.Func?))
  {
    var n := Attempts(scan, split.includedImpacts, RetryBudget(split.retries));
    var violations := SummarizeResults(split.includedImpacts, scan(n - 1).violations);
    var after := AfterScan(resultsCallback, violationCallback, scan(n - 1), violations, skipFailures);
    var retry := RetryTrace(target, Obj(split.axeOptions, true), RetryDelay(split.interval), n);
    assert Checked(target, split, resultsCallback, violationCallback, skipFailures, scan) == retry + after by {
      CheckedSplits(target, split, resultsCallback, violationCallback, skipFailures, scan, n);
    }
    ReportOnlyNeverFails(resultsCallback, violationCallback, scan(n - 1), violations, skipFailures);
    PhasesFailure(target, Obj(split.axeOptions, true), RetryDelay(split.interval), n, after);
    PhasesThrows(target, Obj(split.axeOptions, true), RetryDelay(split.interval), n, after);
  }

  /** The results callback, when it is a function, receives the final scan's results once. */
  lemma CheckedResultsCalls(target: Target, split: SplitOptions, resultsCallback: JsValue, violationCallback: JsValue,
                            skipFailures: JsValue, scan: nat -> ScanResult)
    ensures var results := scan(Attempts(scan, split.includedImpacts, RetryBudget(split.retries)) - 1);
      ResultsCallbackCalls(Checked(target, split, resultsCallback, violationCallback, skipFailures, scan))
      == (if resultsCallback.Func? then [results] else [])
  {
    var n := Attempts(scan, split.includedImpacts, RetryBudget(split.retries));
    var violations := SummarizeResults(split.includedImpacts, scan(n - 1).violations);
    var after := AfterScan(resultsCallback, violationCallback, scan(n - 1), violations, skipFailures);
    var retry := RetryTrace(target, Obj(split.axeOptions, true), RetryDelay(split.interval), n);
    assert Checked(target, split, resultsCallback, violationCallback, skipFailures, scan) == retry + after by {
      CheckedSplits(target, split, resultsCallback, violationCallback, skipFailures, scan, n);
    }
    assert ResultsCallbackCalls(after) == (if resultsCallback.Func? then [scan(n - 1)] else []) by {
      AfterScanCalls(resultsCallback, violationCallback, scan(n - 1), violations, skipFailures);
    }
    assert ResultsCallbackCalls(retry + after) == ResultsCallbackCalls(after) by {
      PhasesCallbacks(target, Obj(split.axeOptions, true), RetryDelay(split.interval), n, after);
    }
  }

  /**
   * The violation callback, when it is a function, receives the filtered
   * violations of the final scan once, provided there are any and the
   * results callback did not throw first.
   */
  lemma CheckedViolationCalls(target: Target, split: SplitOptions, resultsCallback: JsValue, violationCallback: JsValue,
                              skipFailures: JsValue, scan: nat -> ScanResult)
    ensures var results := scan(Attempts(scan, split.includedImpacts, RetryBudget(split.retries)) - 1);
      var violations := SummarizeResults(split.includedImpacts, results.violations);
      ViolationCallbackCalls(Checked(target, split, resultsCallback, violationCallback, skipFailures, scan))
      == (if (!Truthy(resultsCallback) || resultsCallback.Func?) && |violations| > 0 && violationCallback.Func?
          then [violations] else [])
  {
    var n := Attempts(scan, split.includedImpacts, RetryBudget(split.retries));
    var violations := SummarizeResults(split.includedImpacts, scan(n - 1).violations);
    var after := AfterScan(resultsCallback, violationCallback, scan(n - 1), violations, skipFailures);
    var retry := RetryTrace(target, Obj(split.axeOptions, true), RetryDelay(split.interval), n);
    assert Checked(target, split, resultsCallback, violationCallback, skipFailures, scan) == retry + after by {
      CheckedSplits(target, split, resultsCallback, violationCallback, skipFailures, scan, n);
    }
    assert ViolationCallbackCalls(after)
      == (if (!Truthy(resultsCallback) || resultsCallback.Func?) && |violations| > 0 && violationCallback.Func?
          then [violations] else []) by {
      AfterScanCalls(resultsCallback, violationCallback, scan(n - 1), violations, skipFailures);
    }
    assert ViolationCallbackCalls(retry + after) == ViolationCallbackCalls(after) by {
      PhasesCallbacks(target, Obj(split.axeOptions, true), RetryDelay(split.interval), n, after);
    }
  }

  /**
   * A call that stops after its first scan: that scan, with the forwarded
   * options, then the stages after it, fed the first result.
   */
  lemma CheckA11ySingleScan(context: JsValue, options: JsValue, resultsCallback: JsValue, violationCallback: JsValue,
                            skipFailures: JsValue, scan: nat -> ScanResult)
    requires Attempts(scan, Split(NormaliseEmpty(options)).includedImpacts, RetryBudget(Split(NormaliseEmpty(options)).retries)) == 1
    ensures var split := Split(NormaliseEmpty(options));
      CheckA11yTrace(context, options, resultsCallback, violationCallback, skipFailures, scan)
      == [Scan(ScanTarget(NormaliseEmpty(context)), Obj(split.axeOptions, true))]
         + AfterScan(resultsCallback, EffectiveViolationCallback(resultsCallback, violationCallback), scan(0),
                     SummarizeResults(split.includedImpacts, scan(0).violations), skipFailures)
  {
    var split := Split(NormaliseEmpty(options));
    var target := ScanTarget(NormaliseEmpty(context));
    var opts := Obj(split.axeOptions, true);
    assert RetryTrace(target, opts, RetryDelay(split.interval), 1) == [Scan(target, opts)];
    CheckedSplits(target, split, resultsCallback, EffectiveViolationCallback(resultsCallback, violationCallback),
                  skipFailures, scan, 1);
  }

  /** One call invokes the scanner once per attempt: at least once and at most retries + 1 times. */
  lemma CheckA11yScans(context: JsValue, options: JsValue, resultsCallback: JsValue, violationCallback: JsValue,
                       skipFailures: JsValue, scan: nat -> ScanResult)
    ensures var split := Split(NormaliseEmpty(options));
      ScanCount(CheckA11yTrace(context, options, resultsCallback, violationCallback, skipFailures, scan))
      == Attempts(scan, split.includedImpacts, RetryBudget(split.retries))
  {
    CheckedScans(ScanTarget(NormaliseEmpty(context)), Split(NormaliseEmpty(options)), resultsCallback,
      EffectiveViolationCallback(resultsCallback, violationCallback), skipFailures, scan);
  }

  /**
   * A scanner whose first k filtered results are non-empty and all later
   * ones empty, outside report-only mode and with usable callbacks: k + 1
   * scans and success when k is within the retry budget r, r + 1 scans and
   * failure otherwise.
   */
  lemma CheckA11yStub(context: JsValue, options: JsValue, resultsCallback: JsValue, violationCallback: JsValue,
                       skipFailures: JsValue, scan: nat -> ScanResult, k: nat)
    requires forall j :: 0 <= j < k ==> Dirty(scan, Split(NormaliseEmpty(options)).includedImpacts, j)
    requires forall j :: k <= j ==> !Dirty(scan, Split(NormaliseEmpty(options)).includedImpacts, j)
    requires !Truthy(resultsCallback) || resultsCallback.Func?
    requires var cb := EffectiveViolationCallback(resultsCallback, violationCallback); !Truthy(cb) || cb.Func?
    requires !Truthy(skipFailures)
    ensures var r := Retries(RetryBudget(Split(NormaliseEmpty(options)).retries));
      var es := CheckA11yTrace(context, options, resultsCallback, violationCallback, skipFailures, scan);
      && ScanCount(es) == (if k <= r then k + 1 else r + 1)
      && (HasFailure(es) <==> k > r)
  {
    var split := Split(NormaliseEmpty(options));
    StubAttempts(scan, split.includedImpacts, RetryBudget(split.retries), k);
    CheckedScans(ScanTarget(NormaliseEmpty(context)), Split(NormaliseEmpty(options)), resultsCallback,
      EffectiveViolationCallback(resultsCallback, violationCallback), skipFailures, scan);
    CheckedFails(ScanTarget(NormaliseEmpty(context)), Split(NormaliseEmpty(options)), resultsCallback,
      EffectiveViolationCallback(resultsCallback, violationCallback), skipFailures, scan);
  }

  /**
   * In report-only mode no assertion of the command fails, whatever the
   * scanner finds. The command still ends in a TypeError when the results
   * callback is truthy but not a function, or when the last filtered set is
   * non-empty and the violation callback, not cleared as empty, is truthy but
   * not a function.
   */
  lemma CheckA11yReportOnly(context: JsValue, options: JsValue, resultsCallback: JsValue, violationCallback: JsValue,
                       skipFailures: JsValue, scan: nat -> ScanResult)
    requires Truthy(skipFailures)
    ensures var es := CheckA11yTrace(context, options, resultsCallback, violationCallback, skipFailures, scan);
      var split := Split(NormaliseEmpty(options));
      var n := Attempts(scan, split.includedImpacts, RetryBudget(split.retries));
      && !HasFailure(es)
      && (Throws(es) <==> (Truthy(resultsCallback) && !resultsCallback.Func?)
                          || (Dirty(scan, split.includedImpacts, n - 1)
                              && !IsEmptyObjectOrNull(resultsCallback) && !IsEmptyObjectOrNull(violationCallback)
                              && Truthy(violationCallback) && !violationCallback.Func?))
  {
    CheckedReportOnly(ScanTarget(NormaliseEmpty(context)), Split(NormaliseEmpty(options)), resultsCallback,
      EffectiveViolationCallback(resultsCallback, violationCallback), skipFailures, scan);
  }

  /**
   * The callbacks of one call. A results callback that is a function receives
   * the raw result of the final scan, once. The violation callback is called
   * once, with the final filtered set, exactly when that set is non-empty,
   * the violation callback is a function, and the results callback is
   * neither empty (which clears the violation callback) nor a value that is
   * not a function (whose call throws first).
   */
  lemma CheckA11yResultsCallback(context: JsValue, options: JsValue, resultsCallback: JsValue, violationCallback: JsValue,
                                 skipFailures: JsValue, scan: nat -> ScanResult)
    ensures var split := Split(NormaliseEmpty(options));
      var results := scan(Attempts(scan, split.includedImpacts, RetryBudget(split.retries)) - 1);
      ResultsCallbackCalls(CheckA11yTrace(context, options, resultsCallback, violationCallback, skipFailures, scan))
      == (if resultsCallback.Func? then [results] else [])
  {
    CheckedResultsCalls(ScanTarget(NormaliseEmpty(context)), Split(NormaliseEmpty(options)), resultsCallback,
      EffectiveViolationCallback(resultsCallback, violationCallback), skipFailures, scan);
  }

  lemma CheckA11yViolationCallback(context: JsValue, options: JsValue, resultsCallback: JsValue, violationCallback: JsValue,
                                   skipFailures: JsValue, scan: nat -> ScanResult)
    ensures var split := Split(NormaliseEmpty(options));
      var results := scan(Attempts(scan, split.includedImpacts, RetryBudget(split.retries)) - 1);
      var violations := SummarizeResults(split.includedImpacts, results.violations);
      ViolationCallbackCalls(CheckA11yTrace(context, options, resultsCallback, violationCallback, skipFailures, scan))
      == (if !IsEmptyObjectOrNull(resultsCallback) && (!Truthy(resultsCallback) || resultsCallback.Func?)
             && violationCallback.Func? && |violations| > 0
          then [violations] else [])
  {
    CheckedViolationCalls(ScanTarget(NormaliseEmpty(context)), Split(NormaliseEmpty(options)), resultsCallback,
      EffectiveViolationCallback(resultsCallback, violationCallback), skipFailures, scan);
  }

  /**
   * As written, an empty or absent results callback also silences the
   * violation callback: it is never called, whatever the scanner finds.
   */
  lemma CheckA11yEmptyResultsCallbackSilences(context: JsValue, options: JsValue, resultsCallback: JsValue, violationCallback: JsValue,
                       skipFailures: JsValue, scan: nat -> ScanResult)
    requires IsEmptyObjectOrNull(resultsCallback)
    ensures ViolationCallbackCalls(CheckA11yTrace(context, options, resultsCallback, violationCallback, skipFailures, scan)) == []
  {
    CheckA11yViolationCallback(context, options, resultsCallback, violationCallback, skipFailures, scan);
  }
}
