/**
 * What a check call does that an observer can see, as a trace of events:
 * scanner invocations, the delays between them, callback invocations, log
 * entries, the assertion, and a TypeError from calling a value that is not
 * a function.
 */
module Events {
  import opened Wrappers
  import opened Js
  import opened Axe

  /** The outcome of `assert.equal(count, 0, message)`. */
  datatype Verdict = Pass | Fail(message: string)

  /** The arguments of one `Cypress.log` call. `highlight` is the selector given to `$el`. */
  datatype LogEntry = LogEntry(name: string, message: string, highlight: Option<string>, details: Option<Finding>)

  datatype Event =
    | Scan(target: Target, options: JsValue)
    | Wait(delay: JsValue)
    | ResultsCallback(results: ScanResult)
    | ViolationCallback(violations: seq<Finding>)
    | Log(entry: LogEntry)
    | Assertion(verdict: Verdict)
    | NotAFunction(callee: string)

  /** How many scanner invocations a trace holds. */
  function ScanCount(es: seq<Event>): nat
    decreases |es|
  {
    if es == [] then 0 else (if es[0].Scan? then 1 else 0) + ScanCount(es[1..])
  }

  lemma {:induction false} ScanCountAppend(a: seq<Event>, b: seq<Event>)
    ensures ScanCount(a + b) == ScanCount(a) + ScanCount(b)
    decreases |a|
  {
    if a == [] {
      assert a + b == b;
    } else {
      assert (a + b)[0] == a[0] && (a + b)[1..] == a[1..] + b;
      ScanCountAppend(a[1..], b);
    }
  }

  lemma {:induction false} ScanCountNone(es: seq<Event>)
    requires forall i :: 0 <= i < |es| ==> !es[i].Scan?
    ensures ScanCount(es) == 0
    decreases |es|
  {
    if es != [] {
      ScanCountNone(es[1..]);
    }
  }

  /** Whether the trace holds a failed assertion. */
  predicate HasFailure(es: seq<Event>) {
    exists i :: 0 <= i < |es| && es[i].Assertion? && es[i].verdict.Fail?
  }

  lemma HasFailureAppend(a: seq<Event>, b: seq<Event>)
    ensures HasFailure(a + b) <==> HasFailure(a) || HasFailure(b)
  {
    if HasFailure(a + b) {
      var i :| 0 <= i < |a + b| && (a + b)[i].Assertion? && (a + b)[i].verdict.Fail?;
      if i >= |a| {
        assert b[i - |a|] == (a + b)[i];
      }
    }
    if HasFailure(b) {
      var i :| 0 <= i < |b| && b[i].Assertion? && b[i].verdict.Fail?;
      assert (a + b)[|a| + i] == b[i];
    }
    if HasFailure(a) {
      var i :| 0 <= i < |a| && a[i].Assertion? && a[i].verdict.Fail?;
      assert (a + b)[i] == a[i];
    }
  }

  /**
   * Whether the trace ends in a TypeError from calling a value that is not
   * a function: an outcome that fails the test apart from any assertion.
   */
  predicate Throws(es: seq<Event>) {
    exists i :: 0 <= i < |es| && es[i].NotAFunction?
  }

  lemma ThrowsAppend(a: seq<Event>, b: seq<Event>)
    ensures Throws(a + b) <==> Throws(a) || Throws(b)
  {
    if Throws(a + b) {
      var i :| 0 <= i < |a + b| && (a + b)[i].NotAFunction?;
      if i >= |a| {
        assert b[i - |a|] == (a + b)[i];
      }
    }
    if Throws(b) {
      var i :| 0 <= i < |b| && b[i].NotAFunction?;
      assert (a + b)[|a| + i] == b[i];
    }
    if Throws(a) {
      var i :| 0 <= i < |a| && a[i].NotAFunction?;
      assert (a + b)[i] == a[i];
    }
  }

  /** The arguments the violation callback received, call by call. */
  function ViolationCallbackCalls(es: seq<Event>): seq<seq<Finding>>
    decreases |es|
  {
    if es == [] then []
    else (if es[0].ViolationCallback? then [es[0].violations] else []) + ViolationCallbackCalls(es[1..])
  }

  /** The arguments the results callback received, call by call. */
  function ResultsCallbackCalls(es: seq<Event>): seq<ScanResult>
    decreases |es|
  {
    if es == [] then []
    else (if es[0].ResultsCallback? then [es[0].results] else []) + ResultsCallbackCalls(es[1..])
  }

  lemma {:induction false} ViolationCallbackCallsAppend(a: seq<Event>, b: seq<Event>)
    ensures ViolationCallbackCalls(a + b) == ViolationCallbackCalls(a) + ViolationCallbackCalls(b)
    decreases |a|
  {
    if a == [] {
      assert a + b == b;
    } else {
      assert (a + b)[0] == a[0] && (a + b)[1..] == a[1..] + b;
      ViolationCallbackCallsAppend(a[1..], b);
    }
  }

  lemma {:induction false} ResultsCallbackCallsAppend(a: seq<Event>, b: seq<Event>)
    ensures ResultsCallbackCalls(a + b) == ResultsCallbackCalls(a) + ResultsCallbackCalls(b)
    decreases |a|
  {
    if a == [] {
      assert a + b == b;
    } else {
      assert (a + b)[0] == a[0] && (a + b)[1..] == a[1..] + b;
      ResultsCallbackCallsAppend(a[1..], b);
    }
  }

  lemma CallsAppend(a: seq<Event>, b: seq<Event>)
    ensures ViolationCallbackCalls(a + b) == ViolationCallbackCalls(a) + ViolationCallbackCalls(b)
    ensures ResultsCallbackCalls(a + b) == ResultsCallbackCalls(a) + ResultsCallbackCalls(b)
  {
    ViolationCallbackCallsAppend(a, b);
    ResultsCallbackCallsAppend(a, b);
  }

  lemma {:induction false} CallsNone(es: seq<Event>)
    requires forall i :: 0 <= i < |es| ==> !es[i].ViolationCallback? && !es[i].ResultsCallback?
    ensures ViolationCallbackCalls(es) == [] && ResultsCallbackCalls(es) == []
    decreases |es|
  {
    if es != [] {
      CallsNone(es[1..]);
    }
  }
}
