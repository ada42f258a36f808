/**
 * Character classes and the two string operations the postcode normaliser
 * applies: Python's `str.strip()` with no argument and `str.upper()`.
 * Case mapping is modelled for ASCII letters only.
 */
module Text {

  /** The regular-expression class `[A-Z]`. */
  predicate IsUpperLetter(c: char) { 'A' <= c <= 'Z' }

  predicate IsLowerLetter(c: char) { 'a' <= c <= 'z' }

  /** The regular-expression class `[0-9]`. */
  predicate IsDigit(c: char) { '0' <= c <= '9' }

  /**
   * Python's `str.isspace()` on one character. `str.strip()` removes exactly
   * these characters, and `\s` in a `str` pattern matches exactly these.
   */
  predicate IsSpace(c: char) {
    var n := c as int;
    || n == 0x20 || 0x09 <= n <= 0x0D || 0x1C <= n <= 0x1F
    || n == 0x85 || n == 0xA0 || n == 0x1680 || 0x2000 <= n <= 0x200A
    || n == 0x2028 || n == 0x2029 || n == 0x202F || n == 0x205F || n == 0x3000
  }

  predicate AllSpace(s: string) {
    forall i :: 0 <= i < |s| ==> IsSpace(s[i])
  }

  /** `str.upper()` on one ASCII character; every other character is kept. */
  function UpperChar(c: char): char {
    if IsLowerLetter(c) then (c as int - 32) as char else c
  }

  /** `str.upper()`: the same length, each character mapped on its own. */
  function Upper(s: string): (r: string)
    ensures |r| == |s|
    ensures forall i :: 0 <= i < |s| ==> r[i] == UpperChar(s[i])
  {
    if s == [] then [] else [UpperChar(s[0])] + Upper(s[1..])
  }

  /** Removes leading whitespace: the result is the suffix of `s` that starts at its first non-space. */
  function StripLeft(s: string): (r: string)
    ensures |r| <= |s| && r == s[|s| - |r|..]
    ensures AllSpace(s[..|s| - |r|])
    ensures r == [] || !IsSpace(r[0])
  {
    if |s| > 0 && IsSpace(s[0]) then
      var r := StripLeft(s[1..]);
      assert s[1..][|s| - 1 - |r|..] == s[|s| - |r|..];
      var cut := s[..|s| - |r|];
      assert AllSpace(cut) by {
        forall i | 0 <= i < |cut|
          ensures IsSpace(cut[i])
        {
          if i > 0 {
            assert cut[i] == s[1..][..|s| - 1 - |r|][i - 1];
          }
        }
      }
      r
    else s
  }

  /** Removes trailing whitespace: the result is the prefix of `s` that ends at its last non-space. */
  function StripRight(s: string): (r: string)
    ensures |r| <= |s| && r == s[..|r|]
    ensures AllSpace(s[|r|..])
    ensures r == [] || !IsSpace(r[|r| - 1])
  {
    if |s| > 0 && IsSpace(s[|s| - 1]) then StripRight(s[..|s| - 1]) else s
  }

  /**
   * Python's `str.strip()`: never longer than `s`, with whitespace on neither
   * end. StripIgnoresPadding and StripUnpadded together pin the result: it is
   * `s` with its leading and trailing whitespace cut away.
   */
  function Strip(s: string): (r: string)
    ensures |r| <= |s|
    ensures r == [] || (!IsSpace(r[0]) && !IsSpace(r[|r| - 1]))
  {
    StripRight(StripLeft(s))
  }

  lemma StripLeftOfSpaces(s: string)
    requires AllSpace(s)
    ensures StripLeft(s) == []
  {
  }

  /** Leading whitespace never reaches the result of StripLeft. */
  lemma {:induction false} StripLeftSkipsPadding(w: string, t: string)
    requires AllSpace(w)
    ensures StripLeft(w + t) == StripLeft(t)
  {
    if w != [] {
      assert (w + t)[1..] == w[1..] + t;
      StripLeftSkipsPadding(w[1..], t);
    } else {
      assert w + t == t;
    }
  }

  /** Trailing whitespace never reaches the result of StripRight. */
  lemma {:induction false} StripRightSkipsPadding(t: string, w: string)
    requires AllSpace(w)
    ensures StripRight(t + w) == StripRight(t)
  {
    if w != [] {
      var w' := w[..|w| - 1];
      assert (t + w)[..|t + w| - 1] == t + w';
      StripRightSkipsPadding(t, w');
    } else {
      assert t + w == t;
    }
  }

  lemma {:induction false} StripKeepsTrailingPaddingOut(t: string, w: string)
    requires AllSpace(w)
    ensures StripRight(StripLeft(t + w)) == StripRight(StripLeft(t))
  {
    if t == [] {
      assert t + w == w;
      StripLeftOfSpaces(w);
    } else if IsSpace(t[0]) {
      assert (t + w)[1..] == t[1..] + w;
      StripKeepsTrailingPaddingOut(t[1..], w);
    } else {
      StripRightSkipsPadding(t, w);
    }
  }

  /** Surrounding whitespace of any kind and length does not change the stripped text. */
  lemma StripIgnoresPadding(w1: string, s: string, w2: string)
    requires AllSpace(w1) && AllSpace(w2)
    ensures Strip(w1 + s + w2) == Strip(s)
  {
    assert w1 + s + w2 == w1 + (s + w2);
    StripLeftSkipsPadding(w1, s + w2);
    StripKeepsTrailingPaddingOut(s, w2);
    assert Strip(w1 + s + w2) == StripRight(StripLeft(s + w2));
  }

  /** A string with whitespace at neither end is its own stripped form. */
  lemma StripUnpadded(s: string)
    requires s == [] || (!IsSpace(s[0]) && !IsSpace(s[|s| - 1]))
    ensures Strip(s) == s
  {
  }

  /** Stripping twice is stripping once. */
  lemma StripIdempotent(s: string)
    ensures Strip(Strip(s)) == Strip(s)
  {
    var r := Strip(s);
    if r != [] {
      assert StripLeft(r) == r;
      assert StripRight(r) == r;
    }
  }

  lemma UpperCharKeepsSpace(c: char)
    ensures IsSpace(UpperChar(c)) <==> IsSpace(c)
  {
  }

  lemma {:induction false} StripLeftUpperCommute(s: string)
    ensures StripLeft(Upper(s)) == Upper(StripLeft(s))
  {
    if s != [] {
      UpperCharKeepsSpace(s[0]);
      if IsSpace(s[0]) {
        assert Upper(s)[1..] == Upper(s[1..]);
        StripLeftUpperCommute(s[1..]);
      }
    }
  }

  lemma {:induction false} StripRightUpperCommute(s: string)
    ensures StripRight(Upper(s)) == Upper(StripRight(s))
  {
    if s != [] {
      UpperCharKeepsSpace(s[|s| - 1]);
      if IsSpace(s[|s| - 1]) {
        assert Upper(s)[..|s| - 1] == Upper(s[..|s| - 1]);
        StripRightUpperCommute(s[..|s| - 1]);
      }
    }
  }

  /** Upper-casing never creates or destroys whitespace, so it commutes with stripping. */
  lemma StripUpperCommute(s: string)
    ensures Strip(Upper(s)) == Upper(Strip(s))
  {
    StripLeftUpperCommute(s);
    StripRightUpperCommute(StripLeft(s));
  }

  lemma UpperIdempotent(s: string)
    ensures Upper(Upper(s)) == Upper(s)
  {
  }

  lemma UpperKeepsUnpadded(s: string)
    requires s == [] || (!IsSpace(s[0]) && !IsSpace(s[|s| - 1]))
    ensures Upper(s) == [] || (!IsSpace(Upper(s)[0]) && !IsSpace(Upper(s)[|s| - 1]))
  {
    if s != [] {
      UpperCharKeepsSpace(s[0]);
      UpperCharKeepsSpace(s[|s| - 1]);
    }
  }

  /** Upper-casing leaves no lower-case ASCII letter behind. */
  lemma UpperHasNoLowerLetter(s: string)
    ensures forall i :: 0 <= i < |s| ==> !IsLowerLetter(Upper(s)[i])
  {
  }
}
