/**
 * What the reporters share: the run they are handed (test file, violations,
 * optional label) and the per-violation record they tabulate.
 */
module Reporting {
  import opened Wrappers
  import opened Axe
  import opened Decimal

  /** `RunResults`: the test file, its violations and the label given to checkA11y, if any. */
  datatype RunResults = RunResults(filename: string, results: seq<Finding>, labelValue: Option<string>)

  /** `{ ...label && { label }, impact, description, count: nodes.length }`. */
  datatype Entry = Entry(shownLabel: Option<string>, impact: Option<string>, description: string, count: nat)

  /** `...label && { label }`: the label is spread in only when it is a non-empty string. */
  predicate LabelShown(labelValue: Option<string>) {
    labelValue.Some? && labelValue.value != ""
  }

  function LabelField(labelValue: Option<string>): Option<string> {
    if LabelShown(labelValue) then labelValue else None
  }

  /** The record a reporter makes of one violation. */
  function EntryOf(labelValue: Option<string>, v: Finding): Entry {
    Entry(LabelField(labelValue), v.impact, v.description, |v.nodes|)
  }

  /** Keys that share a prefix are equal exactly when their suffixes are. */
  lemma SuffixInjective(prefix: string, a: string, b: string)
    ensures prefix + a == prefix + b <==> a == b
  {
    if prefix + a == prefix + b {
      assert (prefix + a)[|prefix|..] == a;
      assert (prefix + b)[|prefix|..] == b;
    }
  }

  /** A table key: a fixed prefix followed by the position counted from `base`. */
  function PositionKey(prefix: string, base: nat, idx: nat): string {
    prefix + NatToString(base + idx)
  }

  /** The key starts with the prefix, and the position counted from `base` reads back after it. */
  lemma PositionKeyNumber(prefix: string, base: nat, idx: nat)
    ensures prefix <= PositionKey(prefix, base, idx)
    ensures LeadingNumber(PositionKey(prefix, base, idx)[|prefix|..]) == base + idx
  {
    assert PositionKey(prefix, base, idx)[|prefix|..] == NatToString(base + idx) + [];
    LeadingNumberOfNumeral(base + idx, []);
  }

  /** Distinct positions give distinct keys. */
  lemma PositionKeyInjective(prefix: string, base: nat, i: nat, j: nat)
    ensures PositionKey(prefix, base, i) == PositionKey(prefix, base, j) <==> i == j
  {
    SuffixInjective(prefix, NatToString(base + i), NatToString(base + j));
    NatToStringInjective(base + i, base + j);
  }

  /** The keys of positions below n are the keys below n - 1 and the key of n - 1. */
  lemma KeysGrow(key: nat -> string, n: nat)
    requires n > 0
    ensures (set i: nat | i < n :: key(i)) == (set i: nat | i < n - 1 :: key(i)) + {key(n - 1)}
  {
    var all := set i: nat | i < n :: key(i);
    forall x | x in all
      ensures x in (set i: nat | i < n - 1 :: key(i)) + {key(n - 1)}
    {
      var i: nat :| i < n && x == key(i);
      if i < n - 1 {
        assert key(i) in (set i: nat | i < n - 1 :: key(i));
      }
    }
  }

  /** Under a key scheme that tells positions apart, the next position's key is new. */
  lemma NextKeyFresh(key: nat -> string, n: nat)
    requires forall i: nat, j: nat :: key(i) == key(j) ==> i == j
    ensures key(n) !in (set i: nat | i < n :: key(i))
  {
  }

  /** Positions 0 to n - 1 under a key scheme that tells positions apart give n distinct keys. */
  lemma {:induction false} DistinctKeys(key: nat -> string, n: nat)
    requires forall i: nat, j: nat :: key(i) == key(j) ==> i == j
    ensures |set i: nat | i < n :: key(i)| == n
    decreases n
  {
    if n > 0 {
      DistinctKeys(key, n - 1);
      NextKeyFresh(key, n - 1);
      KeysGrow(key, n);
    }
  }

  /** Positions 0 to n - 1 have n distinct keys, so no record of the table overwrites another. */
  lemma PositionKeyCount(prefix: string, base: nat, n: nat)
    ensures |set i | 0 <= i < n :: PositionKey(prefix, base, i)| == n
  {
    var key := (i: nat) => PositionKey(prefix, base, i);
    forall i: nat, j: nat
      ensures key(i) == key(j) ==> i == j
    {
      PositionKeyInjective(prefix, base, i, j);
    }
    DistinctKeys(key, n);
    var keys := set i | 0 <= i < n :: PositionKey(prefix, base, i);
    var byKey := set i: nat | i < n :: key(i);
    forall x | x in keys
      ensures x in byKey
    {
      var i: nat :| i < n && x == PositionKey(prefix, base, i);
      assert key(i) == x;
    }
    assert byKey == keys;
  }
}
