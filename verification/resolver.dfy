/**
 * `get_distance_between_postcodes`: normalise both codes, reject either one
 * that fails the format check, otherwise ask the postcode dataset for the
 * distance and convert it from kilometres to miles.
 */
module Resolver {
  import opened Wrappers
  import opened Text
  import opened Postcode

  /**
   * The coordinate dataset: the distance in kilometres between two
   * normalised postcodes, `None` where the dataset answers NaN (a code it
   * does not know).
   */
  type Lookup = (string, string) -> Option<real>

  /** The resolver's answer: the "Invalid postcode" sentinel, or a distance in miles. */
  datatype Distance = Invalid | Miles(miles: real)

  const MilesPerKm: real := 0.621371

  /** `code.strip().upper()`: no whitespace at either end and no lower-case ASCII letter left. */
  function Normalise(code: string): (r: string)
    ensures |r| <= |code|
    ensures r == [] || (!IsSpace(r[0]) && !IsSpace(r[|r| - 1]))
    ensures forall i :: 0 <= i < |r| ==> !IsLowerLetter(r[i])
  {
    var stripped := Strip(code);
    UpperKeepsUnpadded(stripped);
    UpperHasNoLowerLetter(stripped);
    Upper(stripped)
  }

  /** The integer nearest to `y`, ties going to the even neighbour (Python's `round`). */
  function RoundHalfEven(y: real): (n: int)
    ensures n as real - 0.5 <= y <= n as real + 0.5
    ensures (y == n as real - 0.5 || y == n as real + 0.5) ==> n % 2 == 0
  {
    var f := y.Floor;
    var frac := y - f as real;
    if frac < 0.5 then f
    else if frac > 0.5 then f + 1
    else if f % 2 == 0 then f
    else f + 1
  }

  /** `round(x, 2)`: a whole number of hundredths within half a hundredth of `x`. */
  function Round2(x: real): (r: real)
    ensures x - 0.005 <= r <= x + 0.005
    ensures (r * 100.0).Floor as real == r * 100.0
    ensures x >= 0.0 ==> r >= 0.0
  {
    RoundHalfEven(x * 100.0) as real / 100.0
  }

  /** `round(distance_km * 0.621371, 2)`: within half a hundredth of the exact conversion. */
  function KmToMiles(km: real): (miles: real)
    ensures km * MilesPerKm - 0.005 <= miles <= km * MilesPerKm + 0.005
    ensures km >= 0.0 ==> miles >= 0.0
  {
    Round2(km * MilesPerKm)
  }

  /**
   * The resolver. A distance comes back exactly when both normalised codes
   * are postcodes and the dataset knows the pair; every other path ends in
   * the sentinel.
   */
  function Resolve(lookup: Lookup, from: string, to: string): (d: Distance)
    ensures d.Miles? <==>
      && IsPostcode(Normalise(from)) && IsPostcode(Normalise(to))
      && lookup(Normalise(from), Normalise(to)).Some?
    ensures d.Miles? ==> d.miles == KmToMiles(lookup(Normalise(from), Normalise(to)).value)
  {
    var a := Normalise(from);
    var b := Normalise(to);
    ValidWithoutTrailingSpace(a);
    ValidWithoutTrailingSpace(b);
    if !(IsValidPostcode(a) && IsValidPostcode(b)) then
      Invalid
    else
      match lookup(a, b)
      case None => Invalid
      case Some(km) => Miles(KmToMiles(km))
  }

  /**
   * A code that fails the format check makes the answer the sentinel, with
   * the arguments in either order and whatever the dataset holds: the
   * dataset is not consulted.
   */
  lemma InvalidCodeShortCircuits(lookup: Lookup, from: string, to: string)
    requires !IsValidPostcode(Normalise(from)) || !IsValidPostcode(Normalise(to))
    ensures Resolve(lookup, from, to) == Invalid
    ensures Resolve(lookup, to, from) == Invalid
    ensures forall other: Lookup :: Resolve(other, from, to) == Invalid && Resolve(other, to, from) == Invalid
  {
  }

  /** With two well-formed codes, the sentinel appears exactly when the dataset misses,
      and a hit always yields its converted distance. */
  lemma ValidCodesConsultLookup(lookup: Lookup, from: string, to: string)
    requires IsValidPostcode(Normalise(from)) && IsValidPostcode(Normalise(to))
    ensures Resolve(lookup, from, to) == Invalid <==> lookup(Normalise(from), Normalise(to)) == None
    ensures lookup(Normalise(from), Normalise(to)).Some? ==>
      Resolve(lookup, from, to) == Miles(KmToMiles(lookup(Normalise(from), Normalise(to)).value))
  {
  }

  /** A non-negative dataset distance gives a non-negative number of miles. */
  lemma MilesAreNonNegative(lookup: Lookup, from: string, to: string)
    requires Resolve(lookup, from, to).Miles?
    requires lookup(Normalise(from), Normalise(to)).value >= 0.0
    ensures Resolve(lookup, from, to).miles >= 0.0
  {
  }

  /** The answer depends on each argument only through its normal form. */
  lemma ResolveSeesNormalFormsOnly(lookup: Lookup, from: string, to: string, from': string, to': string)
    requires Normalise(from) == Normalise(from') && Normalise(to) == Normalise(to')
    ensures Resolve(lookup, from, to) == Resolve(lookup, from', to')
  {
  }

  /** Whitespace around either argument does not change the answer. */
  lemma ResolveIgnoresPadding(lookup: Lookup, from: string, to: string, w1: string, w2: string, w3: string, w4: string)
    requires AllSpace(w1) && AllSpace(w2) && AllSpace(w3) && AllSpace(w4)
    ensures Resolve(lookup, w1 + from + w2, w3 + to + w4) == Resolve(lookup, from, to)
  {
    StripIgnoresPadding(w1, from, w2);
    StripIgnoresPadding(w3, to, w4);
  }

  lemma NormaliseIgnoresCase(a: string, b: string)
    requires Upper(a) == Upper(b)
    ensures Normalise(a) == Normalise(b)
  {
    StripUpperCommute(a);
    StripUpperCommute(b);
  }

  /** Arguments that differ only in letter case give the same answer. */
  lemma ResolveIgnoresCase(lookup: Lookup, from: string, to: string, from': string, to': string)
    requires Upper(from) == Upper(from') && Upper(to) == Upper(to')
    ensures Resolve(lookup, from, to) == Resolve(lookup, from', to')
  {
    NormaliseIgnoresCase(from, from');
    NormaliseIgnoresCase(to, to');
    ResolveSeesNormalFormsOnly(lookup, from, to, from', to');
  }

  /** Normalising is idempotent, so handing the resolver already-normalised codes changes nothing. */
  lemma NormaliseIdempotent(code: string)
    ensures Normalise(Normalise(code)) == Normalise(code)
  {
    var s := Strip(code);
    StripUpperCommute(s);
    StripIdempotent(code);
    UpperIdempotent(s);
  }

  lemma ResolveOnNormalForms(lookup: Lookup, from: string, to: string)
    ensures Resolve(lookup, Normalise(from), Normalise(to)) == Resolve(lookup, from, to)
  {
    NormaliseIdempotent(from);
    NormaliseIdempotent(to);
    ResolveSeesNormalFormsOnly(lookup, Normalise(from), Normalise(to), from, to);
  }

  /** `"not-a-code"` normalises to ten characters, more than any accepted string has. */
  lemma MalformedCodeRejected()
    ensures !IsValidPostcode(Normalise("not-a-code"))
  {
    StripUnpadded("not-a-code");
    LongCodeRejected("not-a-code");
  }

  /** A code with whitespace at neither end keeps its length under normalisation. */
  lemma NormaliseKeepsUnpaddedLength(code: string)
    requires code == [] || (!IsSpace(code[0]) && !IsSpace(code[|code| - 1]))
    ensures |Normalise(code)| == |code|
  {
    StripUnpadded(code);
  }

  /** A code longer than nine characters once stripped is never a postcode. */
  lemma LongCodeRejected(code: string)
    requires |Strip(code)| > 9
    ensures !IsValidPostcode(Normalise(code))
  {
    ValidPostcodeLength(Normalise(code));
  }

  /** A malformed code gives the sentinel, in either position. */
  lemma MalformedCodeScenario(lookup: Lookup)
    ensures Resolve(lookup, "not-a-code", "EC1A 1BB") == Invalid
    ensures Resolve(lookup, "EC1A 1BB", "not-a-code") == Invalid
  {
    MalformedCodeRejected();
    InvalidCodeShortCircuits(lookup, "not-a-code", "EC1A 1BB");
  }

  lemma ExampleCaseFolding()
    ensures Upper("sw1a 1aa") == Upper("SW1A 1AA")
    ensures Upper("ec1a 1bb") == Upper("EC1A 1BB")
  {
  }

  /** Lower-case letters and surrounding whitespace make no difference to the answer. */
  lemma CaseAndPaddingScenario(lookup: Lookup)
    ensures Resolve(lookup, "  sw1a 1aa\t", "ec1a 1bb") == Resolve(lookup, "SW1A 1AA", "EC1A 1BB")
  {
    assert "  sw1a 1aa\t" == "  " + "sw1a 1aa" + "\t";
    assert "ec1a 1bb" == "" + "ec1a 1bb" + "";
    ResolveIgnoresPadding(lookup, "sw1a 1aa", "ec1a 1bb", "  ", "\t", "", "");
    ExampleCaseFolding();
    ResolveIgnoresCase(lookup, "sw1a 1aa", "ec1a 1bb", "SW1A 1AA", "EC1A 1BB");
  }
}
