/**
 * The fragment of Python's regular-expression language the postcode
 * patterns use: a concatenation of character classes, each with a
 * `{min,max}` repetition (`?` is `{0,1}`), anchored at the start by
 * `re.match`/`^` and at the end by `$`.
 */
module Regex {
  import opened Text

  datatype CharClass = Letters | Digits | LettersOrDigits | Whitespace

  predicate InClass(k: CharClass, c: char) {
    match k
    case Letters => IsUpperLetter(c)
    case Digits => IsDigit(c)
    case LettersOrDigits => IsDigit(c) || IsUpperLetter(c)
    case Whitespace => IsSpace(c)
  }

  /** `[class]{min,max}` */
  datatype Atom = Atom(cls: CharClass, min: nat, max: nat)

  type Pattern = seq<Atom>

  /** `^[A-Z]{1,2}[0-9][0-9A-Z]?\s?[0-9][A-Z]{2}$` */
  const FullPattern: Pattern := [
    Atom(Letters, 1, 2), Atom(Digits, 1, 1), Atom(LettersOrDigits, 0, 1),
    Atom(Whitespace, 0, 1), Atom(Digits, 1, 1), Atom(Letters, 2, 2)]

  /** `^[A-Z]{1,2}[0-9][0-9A-Z]?$` */
  const ShortPattern: Pattern := [
    Atom(Letters, 1, 2), Atom(Digits, 1, 1), Atom(LettersOrDigits, 0, 1)]

  /**
   * How the two patterns relate: the full pattern begins with the whole
   * outward-code pattern, then allows at most one whitespace character
   * (`\s?`) and whitespace nowhere else; the outward-code pattern allows none.
   */
  lemma PatternsShareOutward()
    ensures |FullPattern| == 6 && FullPattern[..3] == ShortPattern
    ensures FullPattern[3] == Atom(Whitespace, 0, 1)
    ensures forall i :: 0 <= i < |FullPattern| && i != 3 ==> FullPattern[i].cls != Whitespace
    ensures forall i :: 0 <= i < |ShortPattern| ==> ShortPattern[i].cls != Whitespace
  {
  }

  /** Whether the whole of `s` is in the language of `p`, trying every repetition count (backtracking). */
  function Matches(p: Pattern, s: string): bool
    decreases |p|, 1, 0
  {
    if |p| == 0 then |s| == 0
    else MatchesAtom(p[0].cls, p[0].min, p[0].max, p[1..], s)
  }

  /** Whether `s` is `[k]{min,max}` followed by a match of `rest`. */
  function MatchesAtom(k: CharClass, min: nat, max: nat, rest: Pattern, s: string): bool
    decreases |rest| + 1, 0, max
  {
    || (min == 0 && Matches(rest, s))
    || (max > 0 && |s| > 0 && InClass(k, s[0])
        && MatchesAtom(k, if min > 0 then min - 1 else 0, max - 1, rest, s[1..]))
  }

  /**
   * `re.match("^" + p + "$", s)` succeeds: without MULTILINE, `$` matches at
   * the end of the string and also just before a newline that ends it.
   */
  function AnchoredMatch(p: Pattern, s: string): bool {
    || Matches(p, s)
    || (|s| > 0 && s[|s| - 1] == '\n' && Matches(p, s[..|s| - 1]))
  }

  /** Once the repetition budget is spent, only the rest of the pattern is left to match. */
  lemma AtomSpent(k: CharClass, rest: Pattern, s: string)
    ensures MatchesAtom(k, 0, 0, rest, s) == Matches(rest, s)
  {
  }

  lemma StepOptional(p: Pattern, s: string)
    requires |p| > 0 && p[0].min == 0 && p[0].max == 1
    ensures Matches(p, s) <==>
      || Matches(p[1..], s)
      || (|s| > 0 && InClass(p[0].cls, s[0]) && Matches(p[1..], s[1..]))
  {
    var k, rest := p[0].cls, p[1..];
    assert Matches(p, s) == MatchesAtom(k, 0, 1, rest, s);
    if |s| > 0 {
      AtomSpent(k, rest, s[1..]);
    }
  }

  lemma StepOne(p: Pattern, s: string)
    requires |p| > 0 && p[0].min == 1 && p[0].max == 1
    ensures Matches(p, s) <==> |s| > 0 && InClass(p[0].cls, s[0]) && Matches(p[1..], s[1..])
  {
    var k, rest := p[0].cls, p[1..];
    assert Matches(p, s) == MatchesAtom(k, 1, 1, rest, s);
    if |s| > 0 {
      AtomSpent(k, rest, s[1..]);
    }
  }

  lemma StepOneOrTwo(p: Pattern, s: string)
    requires |p| > 0 && p[0].min == 1 && p[0].max == 2
    ensures Matches(p, s) <==>
      && |s| > 0 && InClass(p[0].cls, s[0])
      && (|| Matches(p[1..], s[1..])
          || (|s| > 1 && InClass(p[0].cls, s[1]) && Matches(p[1..], s[2..])))
  {
    var k, rest := p[0].cls, p[1..];
    assert Matches(p, s) == MatchesAtom(k, 1, 2, rest, s);
    if |s| > 0 {
      assert MatchesAtom(k, 0, 1, rest, s[1..]) <==>
        || Matches(rest, s[1..])
        || (|s| > 1 && InClass(k, s[1]) && MatchesAtom(k, 0, 0, rest, s[1..][1..]));
      if |s| > 1 {
        assert s[1..][1..] == s[2..];
        AtomSpent(k, rest, s[2..]);
      }
    }
  }

  lemma StepTwo(p: Pattern, s: string)
    requires |p| > 0 && p[0].min == 2 && p[0].max == 2
    ensures Matches(p, s) <==>
      |s| > 1 && InClass(p[0].cls, s[0]) && InClass(p[0].cls, s[1]) && Matches(p[1..], s[2..])
  {
    var k, rest := p[0].cls, p[1..];
    assert Matches(p, s) == MatchesAtom(k, 2, 2, rest, s);
    if |s| > 0 {
      assert MatchesAtom(k, 1, 1, rest, s[1..]) <==>
        |s| > 1 && InClass(k, s[1]) && MatchesAtom(k, 0, 0, rest, s[1..][1..]);
      if |s| > 1 {
        assert s[1..][1..] == s[2..];
        AtomSpent(k, rest, s[2..]);
      }
    }
  }
}
