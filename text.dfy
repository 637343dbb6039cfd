/** Case-insensitive substring matching, the meaning of the store's
    `ilike '%x%'` pattern. Case folding covers the ASCII letters. */
module Text {

  /** The lower-case form of one character (ASCII letters only). */
  function LowerChar(c: char): (r: char)
    ensures !('A' <= r <= 'Z')
    ensures r == c || ('A' <= c <= 'Z' && r as int - c as int == 32)
  {
    if 'A' <= c <= 'Z' then (c as int + 32) as char else c
  }

  /** The lower-case form of a string, character by character. */
  function Lower(s: string): (r: string)
    ensures |r| == |s|
    ensures forall i :: 0 <= i < |s| ==> r[i] == LowerChar(s[i])
  {
    seq(|s|, i requires 0 <= i < |s| => LowerChar(s[i]))
  }

  /** `p` occurs in `s` starting at index `i`. */
  ghost predicate OccursAt(s: string, p: string, i: int) {
    0 <= i && i + |p| <= |s| && s[i..i + |p|] == p
  }

  /** `p` is a substring of `s`, tried position by position. */
  predicate Contains(s: string, p: string)
    decreases |s|
  {
    if |p| > |s| then false
    else s[..|p|] == p || Contains(s[1..], p)
  }

  lemma {:induction false} ContainsIff(s: string, p: string)
    ensures Contains(s, p) <==> exists i :: OccursAt(s, p, i)
    decreases |s|
  {
    if |p| > |s| {
    } else if s[..|p|] == p {
      assert OccursAt(s, p, 0);
    } else {
      ContainsIff(s[1..], p);
      if Contains(s[1..], p) {
        var i :| OccursAt(s[1..], p, i);
        assert s[1..][i..i + |p|] == s[i + 1..i + 1 + |p|];
        assert OccursAt(s, p, i + 1);
      }
      if exists i :: OccursAt(s, p, i) {
        var i :| OccursAt(s, p, i);
        assert i != 0;
        assert s[1..][i - 1..i - 1 + |p|] == s[i..i + |p|];
        assert OccursAt(s[1..], p, i - 1);
      }
    }
  }

  /** `p` is a substring of `s` when case is ignored. */
  predicate ContainsIgnoringCase(s: string, p: string) {
    Contains(Lower(s), Lower(p))
  }

  /** `p` matches `s` at index `i` when case is ignored. */
  ghost predicate MatchesAt(s: string, p: string, i: int) {
    0 <= i && i + |p| <= |s| &&
    forall k :: 0 <= k < |p| ==> LowerChar(s[i + k]) == LowerChar(p[k])
  }

  lemma OccursAtLower(s: string, p: string, i: int)
    ensures OccursAt(Lower(s), Lower(p), i) <==> MatchesAt(s, p, i)
  {
    if 0 <= i && i + |p| <= |s| {
      if OccursAt(Lower(s), Lower(p), i) {
        forall k | 0 <= k < |p| ensures LowerChar(s[i + k]) == LowerChar(p[k]) {
          assert Lower(s)[i..i + |p|][k] == Lower(s)[i + k];
        }
      }
      if MatchesAt(s, p, i) {
        assert Lower(s)[i..i + |p|] == Lower(p);
      }
    }
  }

  /** Ignoring case means comparing the lower-case forms at some position. */
  lemma ContainsIgnoringCaseIff(s: string, p: string)
    ensures ContainsIgnoringCase(s, p) <==> exists i :: MatchesAt(s, p, i)
  {
    ContainsIff(Lower(s), Lower(p));
    if ContainsIgnoringCase(s, p) {
      var i :| OccursAt(Lower(s), Lower(p), i);
      OccursAtLower(s, p, i);
    }
    if exists i :: MatchesAt(s, p, i) {
      var i :| MatchesAt(s, p, i);
      OccursAtLower(s, p, i);
    }
  }

  /** Case is ignored in the pattern as well as in the text. */
  lemma ContainsIgnoringCaseOfLower(s: string, p: string)
    ensures ContainsIgnoringCase(s, p) == ContainsIgnoringCase(s, Lower(p))
  {
    assert Lower(Lower(p)) == Lower(p);
  }
}
