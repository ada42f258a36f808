/**
 * The UK postcode format check (`is_valid_postcode`), written by hand as
 * "outward code, optional whitespace, inward code" and proved to accept
 * exactly the strings the source's two anchored regular expressions accept.
 */
module Postcode {
  import opened Text
  import opened Regex

  /** Outward code: one or two area letters, a district digit, an optional district letter or digit. */
  predicate IsOutwardCode(s: string) {
    if |s| == 2 then
      IsUpperLetter(s[0]) && IsDigit(s[1])
    else if |s| == 3 then
      && IsUpperLetter(s[0])
      && ((IsDigit(s[1]) && InClass(LettersOrDigits, s[2])) || (IsUpperLetter(s[1]) && IsDigit(s[2])))
    else if |s| == 4 then
      IsUpperLetter(s[0]) && IsUpperLetter(s[1]) && IsDigit(s[2]) && InClass(LettersOrDigits, s[3])
    else
      false
  }

  /** Inward code: a sector digit and two unit letters. */
  predicate IsInwardCode(s: string) {
    |s| == 3 && IsDigit(s[0]) && IsUpperLetter(s[1]) && IsUpperLetter(s[2])
  }

  /** A full postcode read from the right: its last three characters are the inward code, and
      what precedes them is an outward code, possibly followed by one whitespace character. */
  predicate IsFullCode(s: string) {
    && |s| >= 3
    && IsInwardCode(s[|s| - 3..])
    && var outward := s[..|s| - 3];
       || IsOutwardCode(outward)
       || (|outward| > 0 && IsSpace(outward[|outward| - 1]) && IsOutwardCode(outward[..|outward| - 1]))
  }

  /** A full postcode or an outward code alone. */
  predicate IsPostcode(s: string) {
    IsFullCode(s) || IsOutwardCode(s)
  }

  /**
   * `is_valid_postcode`: `s` is a postcode, or a postcode followed by a
   * single newline (which the source's `$` also lets through).
   */
  predicate IsValidPostcode(s: string) {
    || IsPostcode(s)
    || (|s| > 0 && s[|s| - 1] == '\n' && IsPostcode(s[..|s| - 1]))
  }

  // The full pattern read left to right, one atom at a time.

  predicate SpacedInward(t: string) {
    IsInwardCode(t) || (|t| > 0 && IsSpace(t[0]) && IsInwardCode(t[1..]))
  }

  predicate DistrictTail(t: string) {
    SpacedInward(t) || (|t| > 0 && InClass(LettersOrDigits, t[0]) && SpacedInward(t[1..]))
  }

  predicate AfterArea(t: string) {
    |t| > 0 && IsDigit(t[0]) && DistrictTail(t[1..])
  }

  predicate FullLeftToRight(s: string) {
    && |s| > 0 && IsUpperLetter(s[0])
    && (AfterArea(s[1..]) || (|s| > 1 && IsUpperLetter(s[1]) && AfterArea(s[2..])))
  }

  lemma FullSuffix5(t: string)
    ensures Matches(FullPattern[5..], t) <==> |t| == 2 && IsUpperLetter(t[0]) && IsUpperLetter(t[1])
  {
    StepTwo(FullPattern[5..], t);
    assert FullPattern[5..][1..] == [];
  }

  lemma FullSuffix4(t: string)
    ensures Matches(FullPattern[4..], t) <==> IsInwardCode(t)
  {
    StepOne(FullPattern[4..], t);
    assert FullPattern[4..][1..] == FullPattern[5..];
    if |t| > 0 {
      FullSuffix5(t[1..]);
    }
  }

  lemma FullSuffix3(t: string)
    ensures Matches(FullPattern[3..], t) <==> SpacedInward(t)
  {
    StepOptional(FullPattern[3..], t);
    assert FullPattern[3..][1..] == FullPattern[4..];
    FullSuffix4(t);
    if |t| > 0 {
      FullSuffix4(t[1..]);
    }
  }

  lemma FullSuffix2(t: string)
    ensures Matches(FullPattern[2..], t) <==> DistrictTail(t)
  {
    StepOptional(FullPattern[2..], t);
    assert FullPattern[2..][1..] == FullPattern[3..];
    FullSuffix3(t);
    if |t| > 0 {
      FullSuffix3(t[1..]);
    }
  }

  lemma FullSuffix1(t: string)
    ensures Matches(FullPattern[1..], t) <==> AfterArea(t)
  {
    StepOne(FullPattern[1..], t);
    assert FullPattern[1..][1..] == FullPattern[2..];
    if |t| > 0 {
      FullSuffix2(t[1..]);
    }
  }

  lemma FullPatternLeftToRight(s: string)
    ensures Matches(FullPattern, s) <==> FullLeftToRight(s)
  {
    StepOneOrTwo(FullPattern, s);
    if |s| > 0 {
      FullSuffix1(s[1..]);
    }
    if |s| > 1 {
      FullSuffix1(s[2..]);
    }
  }

  /** Reading a full postcode from the left (as the regex does) and from the right agree. */
  lemma LeftToRightIsFullCode(s: string)
    ensures FullLeftToRight(s) <==> IsFullCode(s)
  {
    // A case split on the length, one branch per full-code length; it keeps each
    // solver query small and carries no proof of its own.
    if |s| == 5 {
    } else if |s| == 6 {
    } else if |s| == 7 {
    } else if |s| == 8 {
    }
  }

  /** The hand-written full-code recogniser accepts exactly the language of the full pattern. */
  lemma FullCodeIsFullPattern(s: string)
    ensures IsFullCode(s) <==> Matches(FullPattern, s)
  {
    FullPatternLeftToRight(s);
    LeftToRightIsFullCode(s);
  }

  lemma ShortSuffix2(t: string)
    ensures Matches(ShortPattern[2..], t) <==> |t| == 0 || (|t| == 1 && InClass(LettersOrDigits, t[0]))
  {
    StepOptional(ShortPattern[2..], t);
    assert ShortPattern[2..][1..] == [];
  }

  lemma ShortSuffix1(t: string)
    ensures Matches(ShortPattern[1..], t) <==>
      |t| > 0 && IsDigit(t[0]) && (|t| == 1 || (|t| == 2 && InClass(LettersOrDigits, t[1])))
  {
    StepOne(ShortPattern[1..], t);
    assert ShortPattern[1..][1..] == ShortPattern[2..];
    if |t| > 0 {
      ShortSuffix2(t[1..]);
    }
  }

  /** The hand-written outward-code recogniser accepts exactly the language of the short pattern. */
  lemma OutwardCodeIsShortPattern(s: string)
    ensures IsOutwardCode(s) <==> Matches(ShortPattern, s)
  {
    StepOneOrTwo(ShortPattern, s);
    if |s| > 0 {
      ShortSuffix1(s[1..]);
    }
    if |s| > 1 {
      ShortSuffix1(s[2..]);
    }
  }

  /** The format check accepts exactly the strings on which `re.match` succeeds for the
      full pattern or for the outward-only pattern. */
  lemma ValidIffPatternsMatch(s: string)
    ensures IsValidPostcode(s) <==> AnchoredMatch(FullPattern, s) || AnchoredMatch(ShortPattern, s)
  {
    FullCodeIsFullPattern(s);
    OutwardCodeIsShortPattern(s);
    if |s| > 0 {
      FullCodeIsFullPattern(s[..|s| - 1]);
      OutwardCodeIsShortPattern(s[..|s| - 1]);
    }
  }

  predicate PostcodeAlphabet(s: string) {
    forall i :: 0 <= i < |s| ==> IsUpperLetter(s[i]) || IsDigit(s[i]) || IsSpace(s[i])
  }

  lemma OutwardCodeShape(s: string)
    requires IsOutwardCode(s)
    ensures 2 <= |s| <= 4 && IsUpperLetter(s[0]) && (IsDigit(s[1]) || IsDigit(s[2]))
    ensures PostcodeAlphabet(s)
  {
  }

  lemma FullCodeShape(s: string)
    requires IsFullCode(s)
    ensures 5 <= |s| <= 8 && IsUpperLetter(s[0]) && IsDigit(s[|s| - 3])
    ensures PostcodeAlphabet(s)
  {
    var outward := s[..|s| - 3];
    var core := if IsOutwardCode(outward) then outward else outward[..|outward| - 1];
    OutwardCodeShape(core);
    assert s[0] == core[0];
    forall i | 0 <= i < |s|
      ensures IsUpperLetter(s[i]) || IsDigit(s[i]) || IsSpace(s[i])
    {
      if i < |core| {
        assert s[i] == core[i];
      } else if i < |s| - 3 {
        assert s[i] == outward[|outward| - 1];
      } else {
        assert s[i] == s[|s| - 3..][i - (|s| - 3)];
      }
    }
  }

  /** Every accepted string is 2 to 9 characters long, begins with a letter, holds a digit and
      contains only capital letters, digits and whitespace; a ninth character can only be the
      newline that `$` lets through. */
  lemma ValidPostcodeShape(s: string)
    requires IsValidPostcode(s)
    ensures 2 <= |s| <= 9 && IsUpperLetter(s[0])
    ensures |s| == 9 ==> s[8] == '\n'
    ensures exists i :: 0 <= i < |s| && IsDigit(s[i])
    ensures PostcodeAlphabet(s)
  {
    var p := if IsPostcode(s) then s else s[..|s| - 1];
    assert IsPostcode(p);
    if IsOutwardCode(p) {
      OutwardCodeShape(p);
      assert IsDigit(s[1]) || IsDigit(s[2]);
    } else {
      FullCodeShape(p);
      assert IsDigit(s[|p| - 3]);
    }
    assert forall i :: 0 <= i < |p| ==> s[i] == p[i];
  }

  lemma ValidPostcodeLength(s: string)
    ensures IsValidPostcode(s) ==> 2 <= |s| <= 9
  {
    if IsValidPostcode(s) {
      ValidPostcodeShape(s);
    }
  }

  /** Lower-case letters are never accepted: the check is case-sensitive. */
  lemma LowerCaseRejected(s: string, i: int)
    requires 0 <= i < |s| && IsLowerLetter(s[i])
    ensures !IsValidPostcode(s)
  {
    if IsValidPostcode(s) {
      ValidPostcodeShape(s);
    }
  }

  /** On a string that does not end in whitespace (as after `strip()`), the newline
      allowance of `$` never applies and at most eight characters are accepted. */
  lemma ValidWithoutTrailingSpace(s: string)
    requires s == [] || !IsSpace(s[|s| - 1])
    ensures IsValidPostcode(s) <==> IsPostcode(s)
    ensures IsValidPostcode(s) ==> 2 <= |s| <= 8
  {
    if IsValidPostcode(s) {
      ValidPostcodeShape(s);
    }
  }

  lemma Examples()
    ensures IsValidPostcode("SW1A 1AA") && IsValidPostcode("EC1A 1BB")
    ensures IsValidPostcode("M1 1AE") && IsValidPostcode("B33 8TH") && IsValidPostcode("CR2 6XH")
    ensures IsValidPostcode("SW1A") && IsValidPostcode("EC1A1BB")
    ensures !IsValidPostcode("") && !IsValidPostcode("NOT-A-CODE") && !IsValidPostcode("1AA 1AA")
  {
    assert IsFullCode("SW1A 1AA");
    assert IsFullCode("EC1A 1BB");
    assert IsFullCode("M1 1AE");
    assert IsFullCode("B33 8TH");
    assert IsFullCode("CR2 6XH");
    assert IsOutwardCode("SW1A");
    assert IsFullCode("EC1A1BB");
  }

  /** The whitespace between the outward and inward code is at most one character. */
  lemma DoubleSpaceRejected()
    ensures !IsValidPostcode("SW1A  1AA")
  {
    assert !IsOutwardCode("SW1A ");
  }
}
