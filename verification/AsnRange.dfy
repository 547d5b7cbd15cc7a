/** The private ASN range: how it is written, parsed and validated, and how one ASN is drawn from it
    for each cluster member. */
module AsnRange {
  import opened Prelude
  import opened Text

  const MAX_UINT32: nat := 0xFFFF_FFFF
  const TWO_TO_64: nat := 0x1_0000_0000_0000_0000

  // Section 5 of RFC 6996: the 32-bit private use ASNs.
  const PRIVATE_MIN: nat := 4_200_000_000
  const PRIVATE_MAX: nat := 4_294_967_294

  datatype Range = Range(min: nat, max: nat)

  datatype Error = NotTwoParts | BadMin | BadMax | MinNotBelowMax | OutsidePrivateUse

  function FormatAsnRange(r: Range): string
  {
    ToDecimal(r.min) + "-" + ToDecimal(r.max)
  }

  function ParseAsnRange(text: string): Result<Range, Error>
  {
    var parts := Split(text, '-');
    if |parts| != 2 then Err(NotTwoParts)
    else
      var min := ParseUint(parts[0], MAX_UINT32);
      if min.None? then Err(BadMin)
      else
        var max := ParseUint(parts[1], MAX_UINT32);
        if max.None? then Err(BadMax) else Ok(Range(min.value, max.value))
  }

  function ValidateAsnRange(r: Range): Option<Error>
  {
    if r.min >= r.max then Some(MinNotBelowMax)
    else if r.min < PRIVATE_MIN || r.max > PRIVATE_MAX then Some(OutsidePrivateUse)
    else None
  }

  predicate Fits32(r: Range) { r.min <= MAX_UINT32 && r.max <= MAX_UINT32 }

  /** Text that a range is written as: two numerals of at most 32 bits around one dash. */
  ghost predicate WritesRange(text: string, lo: string, hi: string)
  {
    && text == lo + "-" + hi
    && IsNumeral(lo) && DecimalValue(lo) <= MAX_UINT32
    && IsNumeral(hi) && DecimalValue(hi) <= MAX_UINT32
  }

  /** What the cluster handler stores for a range is read back as that very range. */
  lemma AsnRangeRoundTrip(r: Range)
    requires Fits32(r)
    ensures ParseAsnRange(FormatAsnRange(r)) == Ok(r)
  {
    var lo, hi := ToDecimal(r.min), ToDecimal(r.max);
    NumeralHasNoDash(lo);
    NumeralHasNoDash(hi);
    SplitAtSeparator(lo, hi, '-');
    SplitWhole(hi, '-');
    assert lo + ['-'] + hi == FormatAsnRange(r);
    DecimalRoundTrip(r.min);
    DecimalRoundTrip(r.max);
  }

  lemma NumeralHasNoDash(s: string)
    requires IsNumeral(s)
    ensures '-' !in s
  {
    assert '-' in s ==> IsDigit('-');
  }

  /** The parser accepts exactly the texts of that shape, and returns their two values. */
  lemma ParseAcceptsExactly(text: string)
    ensures ParseAsnRange(text).Ok? <==> exists lo, hi :: WritesRange(text, lo, hi)
    ensures forall lo, hi | WritesRange(text, lo, hi) ::
              ParseAsnRange(text) == Ok(Range(DecimalValue(lo), DecimalValue(hi)))
  {
    forall lo, hi | WritesRange(text, lo, hi)
      ensures ParseAsnRange(text) == Ok(Range(DecimalValue(lo), DecimalValue(hi)))
    {
      NumeralHasNoDash(lo);
      NumeralHasNoDash(hi);
      SplitAtSeparator(lo, hi, '-');
      SplitWhole(hi, '-');
      assert lo + ['-'] + hi == text;
    }
    if ParseAsnRange(text).Ok? {
      var parts := Split(text, '-');
      JoinOfSplit(text, '-');
      assert parts[1..] == [parts[1]];
      assert text == parts[0] + "-" + parts[1];
      assert WritesRange(text, parts[0], parts[1]);
    }
  }

  /** Valid are the ranges of at least two private use numbers (section 5 of RFC 6996). */
  lemma ValidRangeIff(r: Range)
    ensures ValidateAsnRange(r) == None <==> 4_200_000_000 <= r.min < r.max <= 4_294_967_294
    ensures ValidateAsnRange(r) == Some(MinNotBelowMax) <==> r.max <= r.min
  {
  }

  // Unsigned 64-bit arithmetic, with its wrap-around.

  function Add64(a: nat, b: nat): nat { (a + b) % TWO_TO_64 }

  function Sub64(a: nat, b: nat): nat { (a - b) % TWO_TO_64 }

  function RangeSize(r: Range): nat { Add64(Sub64(r.max, r.min), 1) }

  ghost predicate ValidRange(r: Range) { ValidateAsnRange(r) == None }

  /** A row id of the cluster member table: a positive signed 64-bit integer. */
  ghost predicate MemberId(id: nat) { 1 <= id < 0x8000_0000_0000_0000 }

  function GenerateAsn(r: Range, memberId: nat): nat
    requires RangeSize(r) != 0
  {
    Sub64(Add64(r.min, memberId % RangeSize(r)), 1)
  }

  /** For a validated range no operation wraps, so the formula means what it says over the
      integers, and the ASN fits 32 bits. */
  lemma AsnArithmeticIsExact(r: Range, memberId: nat)
    requires ValidRange(r)
    ensures RangeSize(r) == r.max - r.min + 1
    ensures GenerateAsn(r, memberId) == r.min + memberId % RangeSize(r) - 1
    ensures GenerateAsn(r, memberId) < r.max <= MAX_UINT32
  {
    var size := r.max - r.min + 1;
    NoWrap(r.max - r.min);
    NoWrap(size);
    var rest := memberId % size;
    assert 0 <= rest < size;
    NoWrap(r.min + rest);
    NoWrap(r.min + rest - 1);
  }

  lemma NoWrap(n: int)
    requires 0 <= n < TWO_TO_64
    ensures n % TWO_TO_64 == n
  {
  }

  /** Two members collide exactly when their ids are congruent modulo the size of the range. */
  lemma AsnCollisionIff(r: Range, a: nat, b: nat)
    requires ValidRange(r) && MemberId(a) && MemberId(b)
    ensures GenerateAsn(r, a) == GenerateAsn(r, b) <==> a % RangeSize(r) == b % RangeSize(r)
    ensures a <= RangeSize(r) && b <= RangeSize(r) && a != b ==> GenerateAsn(r, a) != GenerateAsn(r, b)
  {
    AsnArithmeticIsExact(r, a);
    AsnArithmeticIsExact(r, b);
    if a <= RangeSize(r) && b <= RangeSize(r) {
      SmallRemainder(a, RangeSize(r));
      SmallRemainder(b, RangeSize(r));
    }
  }

  lemma SmallRemainder(a: nat, n: nat)
    requires a <= n && n > 0
    ensures a % n == if a < n then a else 0
  {
  }

  /** The ASN lies inside the requested range exactly when the size does not divide the id; the
      one value that escapes is the number just below the range. */
  lemma AsnInRangeIff(r: Range, memberId: nat)
    requires ValidRange(r) && MemberId(memberId)
    ensures r.min <= GenerateAsn(r, memberId) <= r.max <==> memberId % RangeSize(r) != 0
    ensures memberId % RangeSize(r) == 0 ==> GenerateAsn(r, memberId) == r.min - 1
  {
    AsnArithmeticIsExact(r, memberId);
  }

  /** So a member leaves the private use numbers exactly when, on top of that, the range starts at
      the very first of them. */
  lemma AsnPrivateIff(r: Range, memberId: nat)
    requires ValidRange(r) && MemberId(memberId)
    ensures PRIVATE_MIN <= GenerateAsn(r, memberId) <= PRIVATE_MAX
       <==> !(memberId % RangeSize(r) == 0 && r.min == PRIVATE_MIN)
  {
    AsnArithmeticIsExact(r, memberId);
    AsnInRangeIff(r, memberId);
  }

  /** A validated two-number range and its second member: the ASN drawn is not a private one. */
  lemma AsnEscapesPrivateUse()
    ensures var r := Range(PRIVATE_MIN, PRIVATE_MIN + 1);
            ValidRange(r) && GenerateAsn(r, 2) == PRIVATE_MIN - 1
  {
  }
}
