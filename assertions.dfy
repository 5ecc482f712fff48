/**
 * The stand-alone assertion and summary-log helpers: assertViolations
 * fails unless the list is empty; logViolations only logs the summary.
 */
module Assertions {
  import opened Wrappers
  import opened Decimal
  import opened Axe
  import opened Messages
  import opened Events

  /** `assert.equal(violations.length, 0, summary)`. */
  function AssertViolations(violations: seq<Finding>): (v: Verdict)
    ensures v.Pass? <==> |violations| == 0
  {
    if |violations| == 0 then Pass else Fail(ViolationSummary(|violations|))
  }

  /** A failed assertion's message reads back as the number of violations. */
  lemma AssertViolationsCount(violations: seq<Finding>)
    ensures AssertViolations(violations).Fail? ==> LeadingNumber(AssertViolations(violations).message) == |violations|
  {
    ViolationSummaryShape(|violations|);
  }

  /** The outcome depends on the number of violations only. */
  lemma AssertViolationsLengthOnly(a: seq<Finding>, b: seq<Finding>)
    requires |a| == |b|
    ensures AssertViolations(a) == AssertViolations(b)
  {
  }

  lemma AssertViolationsSingular(violations: seq<Finding>)
    requires |violations| == 1
    ensures AssertViolations(violations) == Fail("1 accessibility violation was detected")
  {
    SingularSummaryExample();
  }

  lemma AssertViolationsPlural(violations: seq<Finding>)
    requires |violations| != 1
    ensures AssertViolations(violations).Fail? ==>
      AssertViolations(violations).message == NatToString(|violations|) + " accessibility violations were detected"
  {
  }

  /** The one `Cypress.log` entry that logViolations writes; it never asserts. */
  function LogViolations(violations: seq<Finding>): LogEntry {
    LogEntry("a11y violation summary", ViolationSummary(|violations|), None, None)
  }

  lemma LogViolationsShape(violations: seq<Finding>)
    ensures var e := LogViolations(violations);
      && e.name == "a11y violation summary" && e.highlight == None && e.details == None
      && LeadingNumber(e.message) == |violations|
      && (EndsWith(e.message, " violation was detected") <==> |violations| == 1)
  {
    ViolationSummaryShape(|violations|);
  }

  /** The summary log carries the same text as the failed assertion would. */
  lemma LogViolationsMatchesAssertion(violations: seq<Finding>)
    requires |violations| > 0
    ensures AssertViolations(violations) == Fail(LogViolations(violations).message)
  {
  }
}
