/**
 What `createClassNames` promises about each key of its result.

 JavaScript object keys are pairwise distinct, so the lemmas about one
 entry assume `DistinctKeys`. Under that assumption the value an override
 or merge receives as `baseVal` is always the ORIGINAL base value. The
 `resultSoFar` argument it receives is the result of the entries before it.
 */
module ClassNamesProperties {
  import ClassList
  import opened ClassNames

  /** `KeysOf` holds exactly the keys at some index of the sequence. */
  lemma {:induction false} KeysOfIndex(entries: seq<Entry>, k: string)
    ensures k in KeysOf(entries) <==> exists j :: 0 <= j < |entries| && entries[j].0 == k
    decreases |entries|
  {
    if |entries| > 0 {
      KeysOfIndex(entries[1..], k);
      if k in KeysOf(entries[1..]) {
        var j :| 0 <= j < |entries[1..]| && entries[1..][j].0 == k;
        assert entries[j + 1].0 == k;
      }
      if exists j :: 0 <= j < |entries| && entries[j].0 == k {
        var j :| 0 <= j < |entries| && entries[j].0 == k;
        if j > 0 {
          assert entries[1..][j - 1].0 == k;
        }
      }
    }
  }

  /** The extension loop over `a + b` is the loop over `a`, then over `b`. */
  lemma {:induction false} ApplyAllAppend(m: ClassMap, a: seq<Entry>, b: seq<Entry>, merge: Merge)
    ensures ApplyAll(m, a + b, merge) == ApplyAll(ApplyAll(m, a, merge), b, merge)
    decreases |a|
  {
    if |a| > 0 {
      assert (a + b)[0] == a[0];
      assert (a + b)[1..] == a[1..] + b;
      ApplyAllAppend(Step(m, a[0], merge), a[1..], b, merge);
    } else {
      assert a + b == b;
    }
  }

  /** The effect of entry `i` on its own key, when keys are distinct: the
      override or merge sees the original base value and the result of the
      entries before `i`, and no later entry touches that key again. */
  lemma {:induction false} EntryOutcome(base: ClassMap, entries: seq<Entry>, merge: Merge, i: nat)
    requires DistinctKeys(entries)
    requires i < |entries|
    requires entries[i].0 in base
    ensures ApplyAll(base, entries[..i], merge)[entries[i].0] == base[entries[i].0]
    ensures entries[i].1.Fn? ==>
      ApplyAll(base, entries, merge)[entries[i].0]
        == entries[i].1.f(base[entries[i].0], entries[i].0, ApplyAll(base, entries[..i], merge))
    ensures entries[i].1.Plain? ==>
      ApplyAll(base, entries, merge)[entries[i].0]
        == merge(entries[i].1.v, base[entries[i].0], entries[i].0, ApplyAll(base, entries[..i], merge))
  {
    var k := entries[i].0;
    var before := ApplyAll(base, entries[..i], merge);
    var after := Step(before, entries[i], merge);
    var rest := entries[i + 1..];
    KeysOfIndex(entries[..i], k);
    assert k !in KeysOf(entries[..i]);
    KeysOfIndex(rest, k);
    assert k !in KeysOf(rest);
    assert entries == entries[..i] + ([entries[i]] + rest);
    ApplyAllAppend(base, entries[..i], [entries[i]] + rest, merge);
    assert ([entries[i]] + rest)[1..] == rest;
    assert ApplyAll(before, [entries[i]] + rest, merge) == ApplyAll(after, rest, merge);
  }

  /** With the default strategy a string extension `s` turns the base string
      `b` into `b + " " + s`: base first, exactly one space, then `s`. */
  lemma DefaultAppends(base: ClassMap, entries: seq<Entry>, i: nat, b: string, s: string)
    requires DistinctKeys(entries)
    requires i < |entries|
    requires entries[i].0 in base && base[entries[i].0] == Str(b)
    requires entries[i].1.Plain? && entries[i].1.v == Str(s)
    ensures CreateClassNames(base, Some(entries), None)[entries[i].0] == Str(b + " " + s)
    ensures ClassList.Split(CreateClassNames(base, Some(entries), None)[entries[i].0].s)
      == ClassList.Split(b) + ClassList.Split(s)
  {
    EntryOutcome(base, entries, DefaultMerge(), i);
    MergeStrategyAppends(Str(s), Str(b));
  }

  /** With the default strategy an extension that is neither a string nor a
      function leaves the base value unchanged. */
  lemma DefaultIgnoresNonString(base: ClassMap, entries: seq<Entry>, i: nat)
    requires DistinctKeys(entries)
    requires i < |entries|
    requires entries[i].0 in base
    requires entries[i].1.Plain? && !entries[i].1.v.Str?
    ensures CreateClassNames(base, Some(entries), None)[entries[i].0] == base[entries[i].0]
  {
    EntryOutcome(base, entries, DefaultMerge(), i);
  }

  /** A function-valued extension decides its key alone: the result is
      `f(base[k], k, resultSoFar)` whatever merge strategy is passed. */
  lemma OverrideTakesPrecedence(base: ClassMap, entries: seq<Entry>, merge: Option<Merge>, i: nat)
    requires DistinctKeys(entries)
    requires i < |entries|
    requires entries[i].0 in base
    requires entries[i].1.Fn?
    ensures CreateClassNames(base, Some(entries), merge)[entries[i].0]
      == entries[i].1.f(base[entries[i].0], entries[i].0, CreateClassNames(base, Some(entries[..i]), merge))
  {
    EntryOutcome(base, entries, Strategy(merge), i);
  }

  /** A caller-supplied merge decides every non-function extension,
      strings and non-strings alike. */
  lemma CustomMergeUsed(base: ClassMap, entries: seq<Entry>, merge: Merge, i: nat)
    requires DistinctKeys(entries)
    requires i < |entries|
    requires entries[i].0 in base
    requires entries[i].1.Plain?
    ensures CreateClassNames(base, Some(entries), Some(merge))[entries[i].0]
      == merge(entries[i].1.v, base[entries[i].0], entries[i].0, CreateClassNames(base, Some(entries[..i]), Some(merge)))
  {
    EntryOutcome(base, entries, merge, i);
  }

  /** The entries whose key is in `keys`, in their original order. */
  function Known(keys: set<string>, entries: seq<Entry>): (r: seq<Entry>)
    ensures |r| <= |entries|
    ensures forall j :: 0 <= j < |r| ==> r[j].0 in keys
    ensures KeysOf(r) == KeysOf(entries) * keys
    decreases |entries|
  {
    if |entries| == 0 then []
    else if entries[0].0 in keys then [entries[0]] + Known(keys, entries[1..])
    else Known(keys, entries[1..])
  }

  /** Entries whose key the base lacks contribute nothing: dropping them
      gives the same result. */
  lemma {:induction false} UnknownKeysIgnored(m: ClassMap, entries: seq<Entry>, merge: Merge)
    ensures ApplyAll(m, entries, merge) == ApplyAll(m, Known(m.Keys, entries), merge)
    decreases |entries|
  {
    if |entries| > 0 {
      var m' := Step(m, entries[0], merge);
      UnknownKeysIgnored(m', entries[1..], merge);
      assert m'.Keys == m.Keys;
      if entries[0].0 in m.Keys {
        var kept := [entries[0]] + Known(m.Keys, entries[1..]);
        assert kept[0] == entries[0];
        assert kept[1..] == Known(m.Keys, entries[1..]);
      }
    }
  }

  /** The same at the level of `createClassNames`. */
  lemma ExtraKeysDropped(base: ClassMap, entries: seq<Entry>, merge: Option<Merge>)
    ensures CreateClassNames(base, Some(entries), merge) == CreateClassNames(base, Some(Known(base.Keys, entries)), merge)
  {
    UnknownKeysIgnored(base, entries, Strategy(merge));
  }
}
