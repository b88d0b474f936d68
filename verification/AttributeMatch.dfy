/** `determine_match_from_attributes`: counting matching attributes with early exits. */
module AttributeMatch {
  import opened Common

  type Name = nat

  /** How many shared attributes must match: no check, 'any', 'all', a number, or a word of no meaning. */
  datatype Kind = Unchecked | Any | All | AtLeast(n: int) | Unknown

  function Shared<V>(source: map<Name, V>, target: map<Name, V>): set<Name> {
    source.Keys * target.Keys
  }

  /** The shared attributes whose comparison holds. */
  function Matching<V>(source: map<Name, V>, target: map<Name, V>, compare: (V, V) -> bool, keys: set<Name>): set<Name>
    requires keys <= Shared(source, target)
  {
    set k | k in keys && compare(source[k], target[k])
  }

  /** The verdict as a plain count, without any order of iteration. */
  function Verdict(kind: Kind, matching: nat, shared: nat): bool {
    match kind
    case Unchecked => true
    case Any => matching >= 1
    case All => shared > 0 && matching == shared
    case AtLeast(n) => shared > 0 && matching >= n
    case Unknown => false
  }

  ghost predicate Matches<V>(source: map<Name, V>, target: map<Name, V>, compare: (V, V) -> bool, kind: Kind) {
    Verdict(kind, |Matching(source, target, compare, Shared(source, target))|, |Shared(source, target)|)
  }

  lemma MoreKeys<V>(source: map<Name, V>, target: map<Name, V>, compare: (V, V) -> bool, small: set<Name>,
                    large: set<Name>)
    requires small <= large <= Shared(source, target)
    ensures |Matching(source, target, compare, small)| <= |Matching(source, target, compare, large)| <= |large|
  {
    var a, b := Matching(source, target, compare, small), Matching(source, target, compare, large);
    SubsetSize(a, b);
    SubsetSize(b, large);
  }

  lemma OneMore<V>(source: map<Name, V>, target: map<Name, V>, compare: (V, V) -> bool, seen: set<Name>, key: Name)
    requires seen <= Shared(source, target) && key in Shared(source, target) && key !in seen
    ensures |Matching(source, target, compare, seen + {key})| ==
            |Matching(source, target, compare, seen)| + (if compare(source[key], target[key]) then 1 else 0)
  {
    var before, after := Matching(source, target, compare, seen), Matching(source, target, compare, seen + {key});
    assert after == if compare(source[key], target[key]) then before + {key} else before;
  }

  /** The loop is left early: the verdict is settled by what it has seen. */
  predicate Settled(kind: Kind, matched: nat) {
    (kind == Any && matched > 0) || (kind.AtLeast? && matched > 0 && matched >= kind.n)
  }

  /** The loop over the shared keys, in any order, which stops as soon as the verdict is settled. */
  method CountMatches<V>(source: map<Name, V>, target: map<Name, V>, compare: (V, V) -> bool, kind: Kind)
      returns (matched: nat)
    ensures matched <= |Matching(source, target, compare, Shared(source, target))|
    ensures Settled(kind, matched) || matched == |Matching(source, target, compare, Shared(source, target))|
  {
    var shared := source.Keys * target.Keys;
    var left := shared;
    matched := 0;
    while left != {}
      invariant left <= shared && matched == |Matching(source, target, compare, shared - left)|
      decreases left
    {
      var key :| key in left;
      OneMore(source, target, compare, shared - left, key);
      assert shared - (left - {key}) == shared - left + {key};
      left := left - {key};
      if compare(source[key], target[key]) {
        matched := matched + 1;
        if (kind.AtLeast? && matched >= kind.n) || kind == Any {
          MoreKeys(source, target, compare, shared - left, shared);
          return;
        }
      }
    }
    assert shared - left == shared;
  }

  /** The verdict, for the early exits too, is that of the plain count. */
  method DetermineMatch<V>(source: map<Name, V>, target: map<Name, V>, compare: (V, V) -> bool, kind: Kind)
      returns (r: bool)
    ensures r == Matches(source, target, compare, kind)
  {
    if kind == Unchecked {
      return true;
    }
    if source.Keys * target.Keys == {} {
      return false;
    }
    var matched := CountMatches(source, target, compare, kind);
    if kind.AtLeast? && matched >= kind.n {
      return true;
    } else if kind == Any {
      return matched > 0;
    } else if kind == All {
      return matched == |source.Keys * target.Keys|;
    }
    return false;
  }

  /** 'any' is the number 1, and 'all' the number of shared attributes, as long as one is shared. */
  lemma WordsAsNumbers<V>(source: map<Name, V>, target: map<Name, V>, compare: (V, V) -> bool)
    ensures Matches(source, target, compare, Any) <==> Matches(source, target, compare, AtLeast(1))
    ensures Matches(source, target, compare, All) <==>
            Matches(source, target, compare, AtLeast(|Shared(source, target)|))
    ensures Matches(source, target, compare, All) ==> Matches(source, target, compare, Any)
  {
    MoreKeys(source, target, compare, Shared(source, target), Shared(source, target));
  }

  /** Asking for fewer matches never turns a match into a mismatch. */
  lemma FewerIsEasier<V>(source: map<Name, V>, target: map<Name, V>, compare: (V, V) -> bool, m: int, n: int)
    requires m <= n && Matches(source, target, compare, AtLeast(n))
    ensures Matches(source, target, compare, AtLeast(m))
  {
  }

  /** A number matches exactly when that many shared attributes match one by one. */
  lemma MatchesByWitness<V>(source: map<Name, V>, target: map<Name, V>, compare: (V, V) -> bool, n: nat)
    requires Shared(source, target) != {}
    ensures Matches(source, target, compare, AtLeast(n)) <==>
            exists keys :: && keys <= Shared(source, target) && |keys| == n
                           && forall k :: k in keys ==> compare(source[k], target[k])
  {
    var shared := Shared(source, target);
    var all := Matching(source, target, compare, shared);
    if Matches(source, target, compare, AtLeast(n)) {
      var keys := Pick(all, n);
      assert keys <= shared && |keys| == n;
    }
    if keys :| keys <= shared && |keys| == n && forall k :: k in keys ==> compare(source[k], target[k]) {
      SubsetSize(keys, all);
    }
  }

  lemma {:induction false} Pick(s: set<Name>, n: nat) returns (t: set<Name>)
    requires n <= |s|
    ensures t <= s && |t| == n
  {
    t := {};
    if n > 0 {
      var x :| x in s;
      t := Pick(s - {x}, n - 1);
      t := t + {x};
    }
  }

  /** Without a check everything matches; else nothing does that shares no attribute, or for a word of no meaning. */
  lemma EdgeVerdicts<V>(source: map<Name, V>, target: map<Name, V>, compare: (V, V) -> bool, kind: Kind)
    ensures kind == Unchecked ==> Matches(source, target, compare, kind)
    ensures kind == Unknown ==> !Matches(source, target, compare, kind)
    ensures kind != Unchecked && source.Keys !! target.Keys ==> !Matches(source, target, compare, kind)
  {
    if source.Keys !! target.Keys {
      assert Shared(source, target) == {};
      assert Matching(source, target, compare, {}) == {};
    }
  }
}
