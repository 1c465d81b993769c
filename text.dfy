/**
 * The string primitives the bot relies on: Python's `str.isspace` for one
 * character and `str.strip()` with no argument.
 */
module Text {

  /** Python's `str.isspace` for a single character: the ASCII controls tab to
      carriage return, the information separators, and the Unicode spaces. */
  predicate IsSpace(c: char)
    ensures IsSpace(c) ==> !('0' <= c <= '9') && !('a' <= c <= 'z') && !('A' <= c <= 'Z')
  {
    c == ' ' || ('\t' <= c <= '\r') || ('\U{1C}' <= c <= '\U{1F}')
    || c == '\U{85}' || c == '\U{A0}' || c == '\U{1680}'
    || ('\U{2000}' <= c <= '\U{200A}') || c == '\U{2028}' || c == '\U{2029}'
    || c == '\U{202F}' || c == '\U{205F}' || c == '\U{3000}'
  }

  /** `s` with its leading whitespace removed: nothing more to remove. */
  function StripLeading(s: string): (r: string)
    ensures |r| <= |s|
    ensures r == [] || !IsSpace(r[0])
  {
    if s != [] && IsSpace(s[0]) then StripLeading(s[1..]) else s
  }

  /** What StripLeading keeps is a suffix of its input, and all it removes
      is whitespace. */
  lemma {:induction false} StripLeadingSuffix(s: string)
    ensures StripLeading(s) == s[|s| - |StripLeading(s)|..]
    ensures forall k :: 0 <= k < |s| - |StripLeading(s)| ==> IsSpace(s[k])
  {
    if s != [] && IsSpace(s[0]) {
      StripLeadingSuffix(s[1..]);
    }
  }

  /** `s` with its trailing whitespace removed: nothing more to remove. */
  function StripTrailing(s: string): (r: string)
    ensures |r| <= |s|
    ensures r == [] || !IsSpace(r[|r| - 1])
  {
    if s != [] && IsSpace(s[|s| - 1]) then StripTrailing(s[..|s| - 1]) else s
  }

  /** What StripTrailing keeps is a prefix of its input, and all it removes
      is whitespace. */
  lemma {:induction false} StripTrailingPrefix(s: string)
    ensures StripTrailing(s) == s[..|StripTrailing(s)|]
    ensures forall k :: |StripTrailing(s)| <= k < |s| ==> IsSpace(s[k])
  {
    if s != [] && IsSpace(s[|s| - 1]) {
      StripTrailingPrefix(s[..|s| - 1]);
    }
  }

  /** `r` occurs in `s` starting at position `i`. */
  predicate InfixAt(r: string, s: string, i: int) {
    0 <= i <= |s| - |r| && s[i..i + |r|] == r
  }

  /** Python's `s.strip()`: whitespace removed from both ends, so that what
      is left neither starts nor ends with whitespace. */
  function Strip(s: string): (r: string)
    ensures |r| <= |s|
    ensures r == [] || (!IsSpace(r[0]) && !IsSpace(r[|r| - 1]))
  {
    var t := StripLeading(s);
    var r := StripTrailing(t);
    StripTrailingPrefix(t);
    assert r != [] ==> r[0] == t[0];
    r
  }

  /** What `strip` keeps is an infix of its input, and everything it drops
      before and after that infix is whitespace. */
  lemma StripInfix(s: string)
    ensures exists i ::
      && InfixAt(Strip(s), s, i)
      && (forall k :: 0 <= k < i ==> IsSpace(s[k]))
      && (forall k :: i + |Strip(s)| <= k < |s| ==> IsSpace(s[k]))
  {
    var t := StripLeading(s);
    var i := |s| - |t|;
    StripLeadingSuffix(s);
    StripTrailingPrefix(t);
    assert InfixAt(Strip(s), s, i);
    forall k | i + |Strip(s)| <= k < |s| ensures IsSpace(s[k]) {
      assert s[k] == t[k - i];
    }
  }

  /** `strip` gives the empty string exactly when its input is all
      whitespace. */
  lemma StripEmptyIff(s: string)
    ensures Strip(s) == [] <==> forall k :: 0 <= k < |s| ==> IsSpace(s[k])
  {
    var t := StripLeading(s);
    StripLeadingSuffix(s);
    StripTrailingPrefix(t);
    if Strip(s) != [] {
      assert Strip(s)[0] == s[|s| - |t|];
    }
  }

  /** Stripping twice is stripping once. */
  lemma StripIdempotent(s: string)
    ensures Strip(Strip(s)) == Strip(s)
  {
  }
}
