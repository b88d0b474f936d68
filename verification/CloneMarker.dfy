/**
 * The keys that hold deadlines: `_exp_:` and the base key in front. Cloning replaces the source's
 * base key wherever it occurs, and the first occurrence may begin inside the marker. Exactly when
 * the listing of existing keys covers the names that come out, whatever follows.
 */
module CloneMarker {
  import opened Common
  import opened Text
  import opened Cycles
  import opened CloneModel
  import opened CloneSafety

  const EXPIRY := "_exp_:"

  /** Where the base key first occurs in the marker followed by it, from i on. */
  function FirstAt(base: string, i: nat): (first: nat)
    requires i <= 6
    ensures i <= first <= 6 && StartsAt(base, EXPIRY + base, first)
    ensures forall k: nat :: i <= k < first ==> !StartsAt(base, EXPIRY + base, k)
    decreases 6 - i
  {
    if StartsAt(base, EXPIRY + base, i) then i
    else
      assert (EXPIRY + base)[6..] == base;
      FirstAt(base, i + 1)
  }

  /** The part of the marker that an occurrence at i leaves alone, and the part that it begins in. */
  function Head(i: nat): string
    requires i <= 6
  {
    EXPIRY[..i]
  }

  function Rest(i: nat): string
    requires i <= 6
  {
    EXPIRY[i..]
  }

  /** The condition on the two base keys. */
  predicate MarkerSafe(from: string, to: string) {
    var i := FirstAt(from, 0);
    from == to || i == 0 || i == 6 || Repeats(Head(i), to) || InStep(Rest(i), from, to)
  }

  /** Behind its first character the marker has no character twice. */
  lemma RestDistinct(i: nat)
    requires 0 < i <= 6
    ensures Distinct(Rest(i))
  {
    assert EXPIRY[1] == 'e' && EXPIRY[2] == 'x' && EXPIRY[3] == 'p' && EXPIRY[4] == '_' && EXPIRY[5] == ':';
    assert forall p :: 0 <= p < 6 - i ==> Rest(i)[p] == EXPIRY[i + p];
  }

  /** The base key repeats the part of the marker in which it begins. */
  lemma FirstRepeats(from: string)
    ensures var i := FirstAt(from, 0);
      && Repeats(Rest(i), from) && EXPIRY + from == Head(i) + (Rest(i) + from)
      && forall k: nat :: k < |Head(i)| ==> !StartsAt(from, Head(i) + (Rest(i) + from), k)
  {
    var i, marked := FirstAt(from, 0), EXPIRY + from;
    assert marked == Head(i) + (Rest(i) + from);
    StartsAtBehind(from, Head(i), Rest(i) + from);
  }

  /** What a key under the marker is renamed to. */
  lemma Shape(c: Config, rest: string)
    requires c.fromBase != "" && c.fromBase != c.toBase
    ensures var i, from := FirstAt(c.fromBase, 0), c.fromBase;
      ToKey(c, EXPIRY + from + rest) == Head(i) + (c.toBase + Replace(Tail(Rest(i), from) + rest, from, c.toBase))
  {
    var i := FirstAt(c.fromBase, 0);
    FirstRepeats(c.fromBase);
    ReplaceInside(Head(i), Rest(i), c.fromBase, c.toBase, rest);
  }

  /** Whether the name is covered is a question of what follows the head. */
  lemma CoveredShape(c: Config, i: nat, end: string)
    requires i <= 6
    ensures Covered(c, Head(i) + (c.toBase + end)) <==>
            Repeats(Head(i), c.toBase) || StartsWith(c.toBase + end, Rest(i) + c.toBase)
  {
    var to, name := c.toBase, Head(i) + (c.toBase + end);
    assert "_exp_:" + to == Head(i) + (Rest(i) + to);
    PrefixBehind(Head(i), to + end, Rest(i) + to);
    assert name == (Head(i) + to) + end;
    assert name[..|to|] == (Head(i) + to)[..|to|];
  }

  lemma PrefixBehind(head: string, s: string, prefix: string)
    ensures StartsWith(head + s, head + prefix) <==> StartsWith(s, prefix)
  {
    if |prefix| <= |s| {
      assert (head + s)[..|head + prefix|] == head + s[..|prefix|];
      assert (head + prefix)[|head|..] == prefix && (head + s[..|prefix|])[|head|..] == s[..|prefix|];
    }
  }

  /** Under the condition every key under the marker is sent to a covered name. */
  lemma SafeCovers(c: Config, rest: string)
    requires c.fromBase != "" && MarkerSafe(c.fromBase, c.toBase)
    ensures Covered(c, ToKey(c, EXPIRY + c.fromBase + rest))
  {
    var i, from, to := FirstAt(c.fromBase, 0), c.fromBase, c.toBase;
    if from == to {
      assert (EXPIRY + from + rest)[..|"_exp_:" + to|] == "_exp_:" + to;
    } else {
      var tail := Tail(Rest(i), from);
      var end := Replace(tail + rest, from, to);
      Shape(c, rest);
      CoveredShape(c, i, end);
      if i == 6 {
        assert Rest(i) == "" && (to + end)[..|to|] == to && "" + to == to;
      } else if i == 0 || to == "" {
        assert Head(0) == "" && "" + to == to;
      } else if !Repeats(Head(i), to) {
        RestDistinct(i);
        TailPasses(Rest(i), from, to, rest, 0);
        assert tail[0..] == tail;
        InStepStarts(Rest(i), from, to, end);
      }
    }
  }

  /** Otherwise the key with nothing behind the base key is sent to a name that is not. */
  lemma UnsafeEscapes(c: Config)
    requires c.fromBase != "" && !MarkerSafe(c.fromBase, c.toBase)
    ensures !Covered(c, ToKey(c, EXPIRY + c.fromBase))
  {
    var i, from, to := FirstAt(c.fromBase, 0), c.fromBase, c.toBase;
    var tail := Tail(Rest(i), from);
    Shape(c, "");
    assert EXPIRY + from + "" == EXPIRY + from && tail + "" == tail;
    var end := Replace(tail, from, to);
    CoveredShape(c, i, end);
    if StartsWith(to + end, Rest(i) + to) {
      RestDistinct(i);
      FirstRepeats(from);
      StartsInStep(Rest(i), from, to);
    }
  }

  /** The keys under the marker and the source's base key are all sent to covered names exactly under the condition. */
  lemma MarkerBoundary(c: Config)
    requires c.fromBase != ""
    ensures (forall key :: StartsWith(key, EXPIRY + c.fromBase) ==> Covered(c, ToKey(c, key)))
            <==> MarkerSafe(c.fromBase, c.toBase)
  {
    var marked := EXPIRY + c.fromBase;
    if MarkerSafe(c.fromBase, c.toBase) {
      forall key | StartsWith(key, marked) ensures Covered(c, ToKey(c, key)) {
        assert key == marked + key[|marked|..];
        SafeCovers(c, key[|marked|..]);
      }
    } else {
      UnsafeEscapes(c);
      assert StartsWith(marked, marked);
    }
  }

  /** The keys that `aclone` passes: under the base key, or under the marker and the base key. */
  predicate Passed(c: Config, key: string) {
    StartsWith(key, c.fromBase) || StartsWith(key, EXPIRY + c.fromBase)
  }

  ghost predicate AllPassed(c: Config, keys: seq<string>) {
    forall key :: key in keys ==> Passed(c, key)
  }

  /** So under the condition a clone of those keys clobbers nothing. */
  lemma CloneOfBaseKeys(c: Config, source: map<string, Source>, keys: seq<string>, target: Store)
    requires c.overwrite == Some(false) && c.rename.None? && c.fromBase != "" && MarkerSafe(c.fromBase, c.toBase)
    requires AllPassed(c, keys)
    ensures Preserves(target, CloneAll(c, source, Existing(c, target), Fresh(target), keys).target)
  {
    MarkerBoundary(c);
    forall key | key in keys && key in source && source[key].SourceText? ensures Covered(c, ToKey(c, key)) {
      if StartsWith(key, c.fromBase) {
        DataKeysAreCovered(c, key);
      }
    }
    CloneDoesNotClobber(c, source, keys, target);
  }

  /** And without it a clone of one such key overwrites a text, when no filter holds the key back. */
  lemma MarkerClobbers(c: Config) returns (source: map<string, Source>, keys: seq<string>, target: Store)
    requires c.fromBase != "" && !MarkerSafe(c.fromBase, c.toBase) && c.excluded == {} && c.filter.None?
    ensures AllPassed(c, keys)
    ensures !Preserves(target, CloneAll(c, source, Existing(c, target), Fresh(target), keys).target)
  {
    var key := EXPIRY + c.fromBase;
    UnsafeEscapes(c);
    source, keys, target := map[key := SourceText(1)], [key], map[ToKey(c, key) := TargetText(0)];
    assert keys[..0] == [];
    StepBoundary(c, source, target, Fresh(target), key);
    assert OverwritesText(c, source, target, key);
  }

  /** For example with base keys `x` and `n`. */
  lemma MarkerUnsafe()
    ensures !MarkerSafe("x", "n")
  {
    var marked := EXPIRY + "x";
    assert marked[0] == '_' && marked[1] == 'e' && marked[2] == 'x';
    assert marked[0..1][0] == '_' && marked[1..2][0] == 'e' && marked[2..3] == "x";
    assert FirstAt("x", 2) == 2 && FirstAt("x", 1) == 2 && FirstAt("x", 0) == 2;
    assert (Head(2) + "n")[0] == '_' && (Rest(2) + "n")[0] == 'x' && "n"[0] == 'n';
  }
}
