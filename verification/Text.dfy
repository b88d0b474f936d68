/** The string operations the models share: Python's `in`, `replace` and `lstrip`. */
module Text {

  predicate StartsAt(pat: string, s: string, i: nat) {
    i + |pat| <= |s| && s[i..i + |pat|] == pat
  }

  /** `pat in s` */
  ghost predicate Occurs(pat: string, s: string) {
    exists i: nat :: StartsAt(pat, s, i)
  }

  /** `pat in s`, as a computation. */
  predicate Contains(pat: string, s: string) {
    |pat| <= |s| && (s[..|pat|] == pat || (s != "" && Contains(pat, s[1..])))
  }

  lemma {:induction false} ContainsIsOccurs(pat: string, s: string)
    ensures Contains(pat, s) <==> Occurs(pat, s)
  {
    if |pat| <= |s| {
      assert s[0..0 + |pat|] == s[..|pat|];
      if s[..|pat|] == pat {
        assert StartsAt(pat, s, 0);
      } else {
        ContainsIsOccurs(pat, s[1..]);
        forall i: nat ensures StartsAt(pat, s[1..], i) <==> StartsAt(pat, s, i + 1) {
          if i + |pat| <= |s[1..]| {
            assert s[1..][i..i + |pat|] == s[i + 1..i + 1 + |pat|];
          }
        }
        assert !StartsAt(pat, s, 0);
        if Occurs(pat, s) {
          var i: nat :| StartsAt(pat, s, i);
          assert StartsAt(pat, s[1..], i - 1);
        }
        if Occurs(pat, s[1..]) {
          var i: nat :| StartsAt(pat, s[1..], i);
          assert StartsAt(pat, s, i + 1);
        }
      }
    }
  }

  /** `s.startswith(prefix)` */
  predicate StartsWith(s: string, prefix: string) {
    |prefix| <= |s| && s[..|prefix|] == prefix
  }

  lemma OccurrenceInPrefix(pat: string, head: string, s: string, i: nat)
    requires StartsWith(s, head) && i + |pat| <= |head|
    ensures StartsAt(pat, s, i) <==> StartsAt(pat, head, i)
  {
    assert forall k :: 0 <= k < |head| ==> s[..|head|][k] == s[k];
    assert s[i..i + |pat|] == head[i..i + |pat|];
  }

  lemma StartsAtBehind(pat: string, head: string, s: string)
    ensures StartsAt(pat, head + s, |head|) <==> StartsWith(s, pat)
  {
    if |pat| <= |s| {
      assert (head + s)[|head|..|head| + |pat|] == s[..|pat|];
    }
  }

  /** `s.replace(pat, rep)`: left to right, never looking back into what was replaced. */
  function Replace(s: string, pat: string, rep: string): string
    requires pat != ""
  {
    if |s| < |pat| then s
    else if s[..|pat|] == pat then rep + Replace(s[|pat|..], pat, rep)
    else [s[0]] + Replace(s[1..], pat, rep)
  }

  /** `s.lstrip(c)` */
  function StripLeft(s: string, c: char): string {
    if s != "" && s[0] == c then StripLeft(s[1..], c) else s
  }

  lemma {:induction false} ReplaceAbsent(s: string, pat: string, rep: string)
    requires pat != "" && !Occurs(pat, s)
    ensures Replace(s, pat, rep) == s
  {
    if |s| >= |pat| {
      assert s[0..0 + |pat|] == s[..|pat|] && !StartsAt(pat, s, 0);
      forall i: nat ensures !StartsAt(pat, s[1..], i) {
        if i + |pat| <= |s[1..]| {
          assert s[1..][i..i + |pat|] == s[i + 1..i + 1 + |pat|];
          assert !StartsAt(pat, s, i + 1);
        }
      }
      ReplaceAbsent(s[1..], pat, rep);
    }
  }

  /** So a string stays as it is when the pattern's first character is not in it. */
  lemma ReplaceForeign(s: string, pat: string, rep: string)
    requires pat != "" && pat[0] !in s
    ensures Replace(s, pat, rep) == s
  {
    forall i: nat ensures !StartsAt(pat, s, i) {
      if i + |pat| <= |s| {
        assert s[i..i + |pat|][0] == s[i];
      }
    }
    ReplaceAbsent(s, pat, rep);
  }

  /** A leading occurrence is replaced first, and scanning goes on behind it. */
  lemma ReplacePrefix(pat: string, rest: string, rep: string)
    requires pat != ""
    ensures Replace(pat + rest, pat, rep) == rep + Replace(rest, pat, rep)
  {
    assert (pat + rest)[..|pat|] == pat && (pat + rest)[|pat|..] == rest;
  }

  /** A character that the pattern does not begin with is passed over. */
  lemma ReplaceSkip(c: char, rest: string, pat: string, rep: string)
    requires pat != "" && pat[0] != c
    ensures Replace([c] + rest, pat, rep) == [c] + Replace(rest, pat, rep)
  {
    var s := [c] + rest;
    assert s[1..] == rest;
    if |s| >= |pat| {
      assert s[..|pat|][0] == c;
    }
  }

  /** Scanning passes over a prefix in which no occurrence begins. */
  lemma {:induction false} ReplaceBehind(prefix: string, rest: string, pat: string, rep: string)
    requires pat != "" && forall i: nat :: i < |prefix| ==> !StartsAt(pat, prefix + rest, i)
    ensures Replace(prefix + rest, pat, rep) == prefix + Replace(rest, pat, rep)
  {
    if prefix == "" {
      assert prefix + rest == rest;
    } else {
      var s := prefix + rest;
      assert s[1..] == prefix[1..] + rest;
      forall i: nat | i < |prefix| - 1 ensures !StartsAt(pat, s[1..], i) {
        assert !StartsAt(pat, s, i + 1);
        assert i + |pat| <= |s[1..]| ==> s[1..][i..i + |pat|] == s[i + 1..i + 1 + |pat|];
      }
      assert !StartsAt(pat, s, 0);
      assert |s| >= |pat| ==> s[0..0 + |pat|] == s[..|pat|];
      ReplaceBehind(prefix[1..], rest, pat, rep);
      if |s| >= |pat| {
        assert Replace(s, pat, rep) == [s[0]] + Replace(s[1..], pat, rep);
      }
    }
  }

  lemma {:induction false} DeletingShortens(s: string, pat: string)
    requires pat != ""
    ensures |Replace(s, pat, "")| <= |s|
    ensures Occurs(pat, s) ==> |Replace(s, pat, "")| < |s|
  {
    if |s| >= |pat| {
      assert s[0..0 + |pat|] == s[..|pat|];
      if s[..|pat|] == pat {
        DeletingShortens(s[|pat|..], pat);
      } else {
        DeletingShortens(s[1..], pat);
        if Occurs(pat, s) {
          var i: nat :| StartsAt(pat, s, i);
          assert i > 0 && s[1..][i - 1..i - 1 + |pat|] == s[i..i + |pat|];
          assert StartsAt(pat, s[1..], i - 1);
        }
      }
    }
  }

  /** Deleting a pattern changes exactly the strings in which it occurs. */
  lemma DeletingChanges(s: string, pat: string)
    requires pat != ""
    ensures Replace(s, pat, "") == s <==> !Occurs(pat, s)
  {
    if Occurs(pat, s) {
      DeletingShortens(s, pat);
    } else {
      ReplaceAbsent(s, pat, "");
    }
  }
}
