/**
 Removing the waiting-mode tag from the front of a nickname (`strip_all_prefixes`).
 The tag is removed as long as the string still starts with it, so a nickname that
 carries the tag several times (after earlier manual edits, say) loses every copy.
 */
module Prefix {

  /** The tag the bot puts in front of a waiting member's nickname ("대기_"). */
  const PrefixTag: string := "대기_"

  /** Python's `s.startswith(p)`. */
  predicate StartsWith(s: string, p: string) {
    |p| <= |s| && s[..|p|] == p
  }

  /** `k` copies of `p` written back to back. */
  function Repeat(p: string, k: nat): string {
    if k == 0 then [] else p + Repeat(p, k - 1)
  }

  /**
   Strips every leading copy of `p` from `s`. The source's loop only terminates
   because the tag is non-empty, hence the precondition.
   */
  function StripAll(p: string, s: string): (r: string)
    requires |p| > 0
    ensures !StartsWith(r, p)
    ensures |r| <= |s|
    ensures |r| < |s| <==> StartsWith(s, p)
    decreases |s|
  {
    if StartsWith(s, p) then StripAll(p, s[|p|..]) else s
  }

  /** The source's `while` loop over the fixed tag, step by step. */
  method StripAllPrefixes(name: string) returns (r: string)
    ensures !StartsWith(r, PrefixTag)
    ensures r == StripAll(PrefixTag, name)
  {
    r := name;
    while StartsWith(r, PrefixTag)
      invariant StripAll(PrefixTag, r) == StripAll(PrefixTag, name)
      decreases |r|
    {
      r := r[|PrefixTag|..];
    }
  }

  /** How many tags the source's loop removes from `s`. */
  ghost function TagCount(p: string, s: string): nat
    requires |p| > 0
    decreases |s|
  {
    if StartsWith(s, p) then 1 + TagCount(p, s[|p|..]) else 0
  }

  /** A string that starts with `p` is `p` followed by the rest. */
  lemma TagThenRest(p: string, s: string)
    requires StartsWith(s, p)
    ensures s == p + s[|p|..]
  {
  }

  /** One more copy of `p` goes in front. */
  lemma RepeatThenRest(p: string, k: nat, t: string)
    ensures Repeat(p, k + 1) + t == p + (Repeat(p, k) + t)
  {
  }

  /** The input is `TagCount` tags followed by the stripped result. */
  lemma {:induction false} StripCounted(p: string, s: string)
    requires |p| > 0
    ensures s == Repeat(p, TagCount(p, s)) + StripAll(p, s)
    decreases |s|
  {
    var t := StripAll(p, s);
    if StartsWith(s, p) {
      var rest := s[|p|..];
      var k := TagCount(p, rest);
      StripCounted(p, rest);
      assert TagCount(p, s) == k + 1 && t == StripAll(p, rest);
      TagThenRest(p, s);
      RepeatThenRest(p, k, t);
    } else {
      assert Repeat(p, 0) + t == t;
    }
  }

  /** The input is some number of tags followed by the stripped result. */
  lemma StripShape(p: string, s: string)
    requires |p| > 0
    ensures exists k: nat :: s == Repeat(p, k) + StripAll(p, s)
  {
    StripCounted(p, s);
  }

  /** Stripping a string that starts with `k` tags and then no tag gives exactly the rest. */
  lemma {:induction false} StripRepeatUntagged(p: string, k: nat, t: string)
    requires |p| > 0
    requires !StartsWith(t, p)
    ensures StripAll(p, Repeat(p, k) + t) == t
  {
    StripRepeat(p, k, t);
  }

  /** Leading tags never change the result. */
  lemma {:induction false} StripRepeat(p: string, k: nat, s: string)
    requires |p| > 0
    ensures StripAll(p, Repeat(p, k) + s) == StripAll(p, s)
  {
    if k > 0 {
      var u := Repeat(p, k) + s;
      assert u == p + (Repeat(p, k - 1) + s);
      assert StartsWith(u, p);
      assert u[|p|..] == Repeat(p, k - 1) + s;
      assert StripAll(p, u) == StripAll(p, u[|p|..]);
      StripRepeat(p, k - 1, s);
    } else {
      assert Repeat(p, 0) + s == s;
    }
  }

  /** The stripped result is the unique tag-free rest: both directions. */
  lemma StripCharacterization(p: string, s: string, t: string)
    requires |p| > 0
    ensures StripAll(p, s) == t <==> !StartsWith(t, p) && exists k: nat :: s == Repeat(p, k) + t
  {
    if StripAll(p, s) == t {
      StripShape(p, s);
    }
    if !StartsWith(t, p) && exists k: nat :: s == Repeat(p, k) + t {
      var k: nat :| s == Repeat(p, k) + t;
      StripRepeatUntagged(p, k, t);
    }
  }

  /** Stripping twice is stripping once. */
  lemma StripIdempotent(p: string, s: string)
    requires |p| > 0
    ensures StripAll(p, StripAll(p, s)) == StripAll(p, s)
  {
  }

  /** Adding one tag in front of a stripped name and stripping again gives the stripped name back. */
  lemma StripAfterTag(p: string, s: string)
    requires |p| > 0
    ensures StripAll(p, p + StripAll(p, s)) == StripAll(p, s)
  {
  }

  /** Tag, then one tag-free remainder: the nickname state the bot aims for when activating. */
  predicate HasSingleTag(p: string, s: string) {
    StartsWith(s, p) && !StartsWith(s[|p|..], p)
  }

  /** A string equals the tag followed by its own stripped form exactly when it carries one tag. */
  lemma SingleTagFixpoint(p: string, s: string)
    requires |p| > 0
    ensures s == p + StripAll(p, s) <==> HasSingleTag(p, s)
  {
  }

  /** Deactivating "대기_대기_Bob" yields "Bob". */
  lemma StripExample()
    ensures StripAll(PrefixTag, "대기_대기_Bob") == "Bob"
  {
    assert "대기_대기_Bob" == Repeat(PrefixTag, 2) + "Bob";
    assert "Bob"[0] != PrefixTag[0];
    StripRepeatUntagged(PrefixTag, 2, "Bob");
  }
}
