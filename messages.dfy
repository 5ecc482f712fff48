/**
 * The text the pipeline writes: violation summaries, the per-violation
 * node-count message and the selector string that highlights the offending
 * elements.
 */
module Messages {
  import opened Decimal
  import opened Axe

  predicate EndsWith(s: string, suffix: string) {
    |suffix| <= |s| && s[|s| - |suffix|..] == suffix
  }

  /** Appending the same text to a string and to a suffix keeps whether one ends with the other. */
  lemma EndsWithAppendBoth(s: string, suffix: string, tail: string)
    ensures EndsWith(s + tail, suffix + tail) <==> EndsWith(s, suffix)
  {
    if |suffix| <= |s| {
      var a := s[|s| - |suffix|..];
      assert (s + tail)[|s + tail| - |suffix + tail|..] == a + tail;
      if a + tail == suffix + tail {
        assert (a + tail)[..|a|] == a && (suffix + tail)[..|a|] == suffix;
      }
    }
  }

  /**
   * The summary template shared by every revision:
   * `${n} accessibility violation${s} ${was|were} detected`, singular or plural.
   */
  function SummaryText(n: nat, singular: bool): string {
    NatToString(n)
    + if singular then " accessibility violation was detected" else " accessibility violations were detected"
  }

  lemma SingularWordingSplit()
    ensures " accessibility violation was detected" == " accessibility" + " violation was detected"
  {
  }

  lemma PluralWordingSplit()
    ensures " accessibility violations were detected" == " accessibility" + " violations were detected"
  {
  }

  /** A string that differs from a suffix at one of the suffix's positions does not end with it. */
  lemma EndsWithDiffersAt(s: string, suffix: string, k: nat)
    requires k < |suffix| <= |s| && s[|s| - |suffix| + k] != suffix[k]
    ensures !EndsWith(s, suffix)
  {
    assert s[|s| - |suffix|..][k] != suffix[k];
  }

  /** The summary reads its count back from the front. */
  lemma SummaryTextCount(n: nat, singular: bool)
    ensures LeadingNumber(SummaryText(n, singular)) == n
  {
    var t := if singular then " accessibility violation was detected" else " accessibility violations were detected";
    LeadingNumberOfNumeral(n, t);
  }

  /** The singular summary ends in the singular wording and not the plural one ("was" against "were"). */
  lemma SingularTextShape(n: nat)
    ensures EndsWith(SummaryText(n, true), " violation was detected")
    ensures !EndsWith(SummaryText(n, true), " violations were detected")
  {
    var head := NatToString(n) + " accessibility";
    var w := " violation was detected";
    var m := head + w;
    SingularWordingSplit();
    assert SummaryText(n, true) == m;
    EndsWithAppend(head, w);
    assert m[|m| - 25 + 15] == w[13];
    EndsWithDiffersAt(m, " violations were detected", 15);
  }

  /** The plural summary ends in the plural wording and not the singular one ("were" against "was"). */
  lemma PluralTextShape(n: nat)
    ensures EndsWith(SummaryText(n, false), " violations were detected")
    ensures !EndsWith(SummaryText(n, false), " violation was detected")
  {
    var head := NatToString(n) + " accessibility";
    var w := " violations were detected";
    var m := head + w;
    PluralWordingSplit();
    assert SummaryText(n, false) == m;
    EndsWithAppend(head, w);
    assert m[|m| - 23 + 13] == w[15];
    EndsWithDiffersAt(m, " violation was detected", 13);
  }

  lemma SummaryTextShape(n: nat, singular: bool)
    ensures LeadingNumber(SummaryText(n, singular)) == n
    ensures EndsWith(SummaryText(n, singular), " violation was detected") <==> singular
    ensures EndsWith(SummaryText(n, singular), " violations were detected") <==> !singular
  {
    SummaryTextCount(n, singular);
    if singular {
      SingularTextShape(n);
    } else {
      PluralTextShape(n);
    }
  }

  /**
   * The summary used by the assertion and the summary log: singular only
   * for exactly one violation (`=== 1`).
   */
  function ViolationSummary(n: nat): string {
    SummaryText(n, n == 1)
  }

  /** The count reads back from the summary, and the wording is singular exactly for one. */
  lemma ViolationSummaryShape(n: nat)
    ensures LeadingNumber(ViolationSummary(n)) == n
    ensures EndsWith(ViolationSummary(n), " violation was detected") <==> n == 1
    ensures EndsWith(ViolationSummary(n), " violations were detected") <==> n != 1
  {
    SummaryTextShape(n, n == 1);
  }

  /**
   * The summary used by the reporters: plural only for more than one
   * violation (`> 1`), so a count of 0 reads "violation … was".
   */
  function ReporterSummary(n: nat): string {
    SummaryText(n, !(n > 1))
  }

  /** The count reads back from the reporter summary, which is plural exactly above one. */
  lemma ReporterSummaryShape(n: nat)
    ensures LeadingNumber(ReporterSummary(n)) == n
    ensures EndsWith(ReporterSummary(n), " violation was detected") <==> n <= 1
    ensures EndsWith(ReporterSummary(n), " violations were detected") <==> n > 1
  {
    SummaryTextShape(n, !(n > 1));
  }

  /** The two wordings disagree only for a count of zero. */
  lemma ReporterSummaryDiffersOnlyAtZero(n: nat)
    ensures ReporterSummary(n) == ViolationSummary(n) <==> n != 0
  {
    if n == 0 {
      ReporterSummaryShape(0);
      ViolationSummaryShape(0);
    }
  }

  /** A summary determines its count. */
  lemma ViolationSummaryInjective(a: nat, b: nat)
    ensures ViolationSummary(a) == ViolationSummary(b) <==> a == b
  {
    ViolationSummaryShape(a);
    ViolationSummaryShape(b);
  }

  lemma SingularSummaryExample()
    ensures ViolationSummary(1) == "1 accessibility violation was detected"
  {
    assert NatToString(1) == "1";
    assert SummaryText(1, true) == "1" + " accessibility violation was detected";
    assert "1" + " accessibility violation was detected" == "1 accessibility violation was detected";
    assert ViolationSummary(1) == SummaryText(1, true);
  }

  lemma PluralSummaryExample()
    ensures ViolationSummary(2) == "2 accessibility violations were detected"
  {
    assert NatToString(2) == "2";
    assert SummaryText(2, false) == "2" + " accessibility violations were detected";
    assert "2" + " accessibility violations were detected" == "2 accessibility violations were detected";
    assert ViolationSummary(2) == SummaryText(2, false);
  }

  lemma ZeroSummaryExample()
    ensures ViolationSummary(0) == "0 accessibility violations were detected"
  {
    assert NatToString(0) == "0";
    assert SummaryText(0, false) == "0" + " accessibility violations were detected";
    assert "0" + " accessibility violations were detected" == "0 accessibility violations were detected";
    assert ViolationSummary(0) == SummaryText(0, false);
  }

  lemma ZeroReporterSummaryExample()
    ensures ReporterSummary(0) == "0 accessibility violation was detected"
  {
    assert NatToString(0) == "0";
    assert SummaryText(0, true) == "0" + " accessibility violation was detected";
    assert "0" + " accessibility violation was detected" == "0 accessibility violation was detected";
    assert ReporterSummary(0) == SummaryText(0, true);
  }

  /**
   * The per-violation message `${id} on ${count} Node${count === 1 ? '' : 's'}`:
   * it starts with the rule id, the count can be read back after " on ",
   * and the noun is singular exactly when the count is 1.
   */
  function NodeCountMessage(id: string, count: nat): string {
    id + " on " + NatToString(count) + if count == 1 then " Node" else " Nodes"
  }

  lemma NodeCountMessageShape(id: string, count: nat)
    ensures var m := NodeCountMessage(id, count);
      && id <= m && |id| + 4 <= |m| && m[|id|..|id| + 4] == " on "
      && LeadingNumber(m[|id| + 4..]) == count
      && (EndsWith(m, " Node") <==> count == 1)
      && (EndsWith(m, " Nodes") <==> count != 1)
  {
    var noun := if count == 1 then " Node" else " Nodes";
    var head := id + " on " + NatToString(count);
    var m := NodeCountMessage(id, count);
    assert m == head + noun;
    assert id <= m && |id| + 4 <= |m| && m[|id|..|id| + 4] == " on " && LeadingNumber(m[|id| + 4..]) == count by {
      assert m[|id| + 4..] == NatToString(count) + noun;
      LeadingNumberOfNumeral(count, noun);
    }
    EndsWithAppend(head, noun);
    if count == 1 {
      EndsWithOtherLast(m, " Nodes");
    } else {
      EndsWithOtherLast(m, " Node");
    }
  }

  lemma EndsWithAppend(s: string, suffix: string)
    ensures EndsWith(s + suffix, suffix)
  {
    assert (s + suffix)[|s|..] == suffix;
  }

  /** A string whose last character differs from the suffix's does not end with it. */
  lemma EndsWithOtherLast(s: string, suffix: string)
    requires |s| > 0 && |suffix| > 0 && s[|s| - 1] != suffix[|suffix| - 1]
    ensures !EndsWith(s, suffix)
  {
  }

  /** All node targets in order: the reference definition of the selector list. */
  function Flatten(nodes: seq<Node>): seq<string> {
    if nodes == [] then [] else nodes[0].target + Flatten(nodes[1..])
  }

  lemma {:induction false} FlattenAppend(a: seq<Node>, b: seq<Node>)
    ensures Flatten(a + b) == Flatten(a) + Flatten(b)
    decreases |a|
  {
    if a != [] {
      assert (a + b)[0] == a[0] && (a + b)[1..] == a[1..] + b;
      FlattenAppend(a[1..], b);
      assert Flatten(a + b) == a[0].target + (Flatten(a[1..]) + Flatten(b));
    } else {
      assert a + b == b;
    }
  }

  lemma {:induction false} FlattenContainsTargets(nodes: seq<Node>, i: nat, j: nat)
    requires i < |nodes| && j < |nodes[i].target|
    ensures nodes[i].target[j] in Flatten(nodes)
    decreases i
  {
    if i > 0 {
      FlattenContainsTargets(nodes[1..], i - 1, j);
    }
  }

  /** `nodes.reduce((acc, node) => acc.concat(node.target), acc)`, a left fold. */
  function ConcatTargets(acc: seq<string>, nodes: seq<Node>): seq<string>
    decreases |nodes|
  {
    if nodes == [] then acc else ConcatTargets(acc + nodes[0].target, nodes[1..])
  }

  lemma {:induction false} ConcatTargetsFlattens(acc: seq<string>, nodes: seq<Node>)
    ensures ConcatTargets(acc, nodes) == acc + Flatten(nodes)
    decreases |nodes|
  {
    if nodes != [] {
      ConcatTargetsFlattens(acc + nodes[0].target, nodes[1..]);
    }
  }

  /** `parts.join(sep)`. */
  function Join(parts: seq<string>, sep: string): string
    decreases |parts|
  {
    if parts == [] then "" else if |parts| == 1 then parts[0] else parts[0] + sep + Join(parts[1..], sep)
  }

  lemma {:induction false} JoinAppend(a: seq<string>, b: seq<string>, sep: string)
    requires a != [] && b != []
    ensures Join(a + b, sep) == Join(a, sep) + sep + Join(b, sep)
    decreases |a|
  {
    if |a| > 1 {
      assert (a + b)[1..] == a[1..] + b;
      JoinAppend(a[1..], b, sep);
    } else {
      assert (a + b)[1..] == b;
    }
  }

  /**
   * The highlight selector of a violation: every target of every node, in
   * order, joined with ", ".
   */
  function Selectors(nodes: seq<Node>): string {
    Join(ConcatTargets([], nodes), ", ")
  }

  /** The left fold collects the same list as the reference definition. */
  lemma SelectorsFlatten(nodes: seq<Node>)
    ensures Selectors(nodes) == Join(Flatten(nodes), ", ")
  {
    ConcatTargetsFlattens([], nodes);
    assert [] + Flatten(nodes) == Flatten(nodes);
  }

  /** The selectors of two groups of nodes, each with at least one target. */
  lemma SelectorsAppend(a: seq<Node>, b: seq<Node>)
    requires Flatten(a) != [] && Flatten(b) != []
    ensures Selectors(a + b) == Selectors(a) + ", " + Selectors(b)
  {
    SelectorsFlatten(a + b);
    SelectorsFlatten(a);
    SelectorsFlatten(b);
    FlattenAppend(a, b);
    JoinAppend(Flatten(a), Flatten(b), ", ");
  }
}
