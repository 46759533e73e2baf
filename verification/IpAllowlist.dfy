/** CIDR matching of the IP allow list, from the texts down to the signed 32-bit shifts. */
module IpAllowlist {
  import opened JsInt
  import opened Text

  /** `parseInt(part, 10) << (8 * (3 - index))`; a shifted NaN is 0. */
  function ShiftedPart(part: string, index: nat): int
    requires index < 4
  {
    match ParseInt(part)
    case None => 0
    case Some(v) => ShiftLeft(v, 8 * (3 - index))
  }

  /** `ipToNumber`. */
  function IpToNumber(ip: string): nat {
    var parts := Split(ip, '.');
    if |parts| != 4 then 0
    else ToUint32(ShiftedPart(parts[0], 0) + ShiftedPart(parts[1], 1)
                  + ShiftedPart(parts[2], 2) + ShiftedPart(parts[3], 3))
  }

  /** `matchCIDR`; everything after a second `/` is ignored, and without a `/` there is no mask. */
  predicate MatchCIDR(ip: string, cidr: string) {
    var pieces := Split(cidr, '/');
    var mask := if |pieces| < 2 then None else ParseInt(pieces[1]);
    match mask
    case None => false
    case Some(m) =>
      if m < 0 || m > 32 then false
      else
        var maskNum := ToUint32(ShiftLeft(0xffff_ffff, 32 - m));
        BitAnd(IpToNumber(ip), maskNum) == BitAnd(IpToNumber(pieces[0]), maskNum)
  }

  predicate IsOctet(part: string) {
    1 <= |part| <= 3 && AllDigits(part) && DigitsValue(part) <= 255
  }

  /** `validateIP`: the regular expression asks for four groups of one to three digits. */
  predicate ValidateIP(ip: string) {
    var parts := Split(ip, '.');
    |parts| == 4 && forall k :: 0 <= k < 4 ==> IsOctet(parts[k])
  }

  // ----- the meaning of an address -----

  /** The 32-bit number of four octets, first octet most significant. */
  function QuadValue(a: nat, b: nat, c: nat, d: nat): nat {
    a * 0x100_0000 + b * 0x1_0000 + c * 0x100 + d
  }

  function Octet(ip: string, k: nat): nat
    requires ValidateIP(ip) && k < 4
  {
    DigitsValue(Split(ip, '.')[k])
  }

  function AddressValue(ip: string): (v: nat)
    requires ValidateIP(ip)
    ensures v < TWO32
  {
    assert forall k :: 0 <= k < 4 ==> IsOctet(Split(ip, '.')[k]);
    QuadValue(Octet(ip, 0), Octet(ip, 1), Octet(ip, 2), Octet(ip, 3))
  }

  /** Prefix matching as section 3.1 of RFC 4632 defines it. */
  predicate SamePrefix(x: nat, y: nat, length: nat)
    requires length <= 32
  {
    x / Pow2(32 - length) == y / Pow2(32 - length)
  }

  /** The weight of the octet at an index. */
  function Weight(index: nat): nat
    requires index < 4
  {
    if index == 0 then 0x100_0000 else if index == 1 then 0x1_0000 else if index == 2 then 0x100 else 1
  }

  lemma WeightIsPower(index: nat)
    requires index < 4
    ensures Pow2(8 * (3 - index)) == Weight(index)
    ensures 8 * (3 - index) % 32 == 8 * (3 - index)
  {
    Pow2Values();
  }

  lemma ShiftedOctet(part: string, index: nat)
    requires IsOctet(part) && index < 4
    ensures ToUint32(ShiftedPart(part, index)) == ToUint32(DigitsValue(part) * Weight(index))
  {
    ParseIntOfDigits(part);
    WeightIsPower(index);
    hide Pow2, ParseInt, DigitsValue;
    SmallUint32(DigitsValue(part));
    assert ShiftedPart(part, index) == ToInt32(DigitsValue(part) * Weight(index));
    SignedSameResidue(DigitsValue(part) * Weight(index));
  }

  lemma SignedSameResidue(x: int)
    ensures ToUint32(ToInt32(x)) == ToUint32(x)
  {
  }

  /** The first shift turns octets from 128 on into negative numbers; `>>> 0` at the end undoes it. */
  lemma IpToNumberIsAddressValue(ip: string)
    requires ValidateIP(ip)
    ensures IpToNumber(ip) == AddressValue(ip)
  {
    hide ShiftedPart, Split, DigitsValue, ToUint32;
    var parts := Split(ip, '.');
    assert IsOctet(parts[0]) && IsOctet(parts[1]) && IsOctet(parts[2]) && IsOctet(parts[3]);
    hide IsOctet;
    ShiftedOctet(parts[0], 0);
    ShiftedOctet(parts[1], 1);
    ShiftedOctet(parts[2], 2);
    ShiftedOctet(parts[3], 3);
    SumModulo(ShiftedPart(parts[0], 0), ShiftedPart(parts[1], 1), ShiftedPart(parts[2], 2), ShiftedPart(parts[3], 3),
              Octet(ip, 0) * 0x100_0000, Octet(ip, 1) * 0x1_0000, Octet(ip, 2) * 0x100, Octet(ip, 3));
    SmallUint32(AddressValue(ip));
  }

  lemma SumModulo(a: int, b: int, c: int, d: int, a': int, b': int, c': int, d': int)
    requires ToUint32(a) == ToUint32(a') && ToUint32(b) == ToUint32(b')
    requires ToUint32(c) == ToUint32(c') && ToUint32(d) == ToUint32(d')
    ensures ToUint32(a + b + c + d) == ToUint32(a' + b' + c' + d')
  {
    hide ToUint32;
    AddModulo(a, a', b, b');
    AddModulo(a + b, a' + b', c, c');
    AddModulo(a + b + c, a' + b' + c', d, d');
  }

  lemma AddModulo(a: int, a': int, b: int, b': int)
    requires ToUint32(a) == ToUint32(a') && ToUint32(b) == ToUint32(b')
    ensures ToUint32(a + b) == ToUint32(a' + b')
  {
  }

  // ----- masks -----

  lemma NegatedPower(p: nat)
    requires 0 < p <= TWO32
    ensures ToUint32(ToInt32(-1 * p)) == TWO32 - p
  {
  }

  /** How far the mask of prefix length `m` reaches: `32 - m` bits, but none at length 0, where shifting by 32
      shifts by nothing. */
  function ClearBits(m: nat): nat
    requires m <= 32
  {
    if m == 0 then 0 else 32 - m
  }

  lemma Pow2AtMost31(k: nat)
    requires k <= 31
    ensures Pow2(k) <= TWO31
  {
    Pow2Values();
    Pow2Add(31 - k, k);
    MulExceeds(Pow2(k), Pow2(31 - k));
  }

  lemma MaskValue(m: nat)
    requires m <= 32
    ensures Pow2(ClearBits(m)) <= TWO32
    ensures ToUint32(ShiftLeft(0xffff_ffff, 32 - m)) == TWO32 - Pow2(ClearBits(m))
  {
    var k := ClearBits(m);
    assert (32 - m) % 32 == k;
    assert ToInt32(0xffff_ffff) == -1;
    Pow2AtMost31(k);
    hide Pow2, ToInt32;
    assert ShiftLeft(0xffff_ffff, 32 - m) == ToInt32(-1 * Pow2(k));
    NegatedPower(Pow2(k));
  }

  lemma MaskedValue(x: nat, k: nat)
    requires x < TWO32 && k <= 32 && Pow2(k) <= TWO32
    ensures 0 <= x / Pow2(k) * Pow2(k) <= x
    ensures BitAnd(x, TWO32 - Pow2(k)) == ToInt32(x / Pow2(k) * Pow2(k))
  {
    Pow2Values();
    hide AndBits, Pow2, Halved, BitAnd;
    AndBitsHighMask(x, k, 32);
    HalvedIsQuotient(x, k);
    QuotientBound(x, Pow2(k));
    BitAndInRange(x, TWO32 - Pow2(k));
  }

  lemma Int32Injective(x: nat, y: nat)
    requires x < TWO32 && y < TWO32
    ensures ToInt32(x) == ToInt32(y) <==> x == y
  {
  }

  /** Masking `k` low bits and comparing is comparing the quotients by 2^k. */
  lemma MaskedEqual(x: nat, y: nat, k: nat)
    requires x < TWO32 && y < TWO32 && k <= 32 && Pow2(k) <= TWO32
    ensures BitAnd(x, TWO32 - Pow2(k)) == BitAnd(y, TWO32 - Pow2(k)) <==> x / Pow2(k) == y / Pow2(k)
  {
    MaskedValue(x, k);
    MaskedValue(y, k);
    hide BitAnd, Pow2, ToInt32;
    Int32Injective(x / Pow2(k) * Pow2(k), y / Pow2(k) * Pow2(k));
    EqualProducts(x / Pow2(k), y / Pow2(k), Pow2(k));
  }

  lemma QuotientBound(x: nat, p: nat)
    requires p > 0
    ensures 0 <= x / p * p <= x
  {
  }

  lemma EqualProducts(q: int, r: int, p: int)
    requires p > 0
    ensures q * p == r * p <==> q == r
  {
    MulExceeds(p, q - r);
  }

  // ----- the CIDR text -----

  lemma NoSlashInAddress(ip: string)
    requires ValidateIP(ip)
    ensures '/' !in ip
  {
    forall k | 0 <= k < 4 ensures '/' !in Split(ip, '.')[k] {
      assert IsOctet(Split(ip, '.')[k]);
    }
    SplitLosesOnly(ip, '.', '/');
  }

  /** `range/m` is read back as the range and the mask. */
  lemma PiecesOfCIDR(range: string, m: nat)
    requires ValidateIP(range)
    ensures var pieces := Split(range + "/" + Decimal(m), '/');
            |pieces| == 2 && pieces[0] == range && ParseInt(pieces[1]) == Some(m)
  {
    NoSlashInAddress(range);
    SplitFirst(range, Decimal(m), '/');
    SplitWithout(Decimal(m), '/');
    ParseIntOfDigits(Decimal(m));
    DecimalValue(m);
  }

  lemma MatchUnfolds(ip: string, range: string, m: nat)
    requires ValidateIP(range) && m <= 32
    ensures var maskNum := ToUint32(ShiftLeft(0xffff_ffff, 32 - m));
            MatchCIDR(ip, range + "/" + Decimal(m))
            == (BitAnd(IpToNumber(ip), maskNum) == BitAnd(IpToNumber(range), maskNum))
  {
    hide ValidateIP, IpToNumber, ShiftLeft, BitAnd, ToUint32, Split, ParseInt, Decimal;
    PiecesOfCIDR(range, m);
  }

  /** What the code compares, for every prefix length. */
  lemma MatchComparesQuotients(ip: string, range: string, m: nat)
    requires ValidateIP(ip) && ValidateIP(range) && m <= 32
    ensures MatchCIDR(ip, range + "/" + Decimal(m))
            <==> AddressValue(ip) / Pow2(ClearBits(m)) == AddressValue(range) / Pow2(ClearBits(m))
  {
    hide ValidateIP, IpToNumber, ShiftLeft, BitAnd, ToUint32, Decimal, AddressValue, Pow2, MatchCIDR;
    MatchUnfolds(ip, range, m);
    IpToNumberIsAddressValue(ip);
    IpToNumberIsAddressValue(range);
    MaskValue(m);
    MaskedEqual(AddressValue(ip), AddressValue(range), ClearBits(m));
  }

  /** A text that is not four parts counts as 0.0.0.0: it matches the ranges whose first bits are all zero, and no
      other. */
  lemma NotFourPartsMatchesIff(ip: string, range: string, m: nat)
    requires |Split(ip, '.')| != 4 && ValidateIP(range) && m <= 32
    ensures MatchCIDR(ip, range + "/" + Decimal(m)) <==> AddressValue(range) / Pow2(ClearBits(m)) == 0
  {
    assert IpToNumber(ip) == 0;
    hide ValidateIP, IpToNumber, ShiftLeft, BitAnd, ToUint32, Decimal, AddressValue, Pow2, MatchCIDR, Split;
    MatchUnfolds(ip, range, m);
    IpToNumberIsAddressValue(range);
    MaskValue(m);
    MaskedEqual(0, AddressValue(range), ClearBits(m));
    ZeroQuotient(Pow2(ClearBits(m)));
  }

  lemma ZeroQuotient(p: nat)
    requires p > 0
    ensures 0 / p == 0
  {
  }

  /** The main law: between valid addresses, prefix lengths 1 to 32 compare exactly the first bits. */
  lemma MatchIsPrefixEquality(ip: string, range: string, m: nat)
    requires ValidateIP(ip) && ValidateIP(range) && 1 <= m <= 32
    ensures MatchCIDR(ip, range + "/" + Decimal(m)) <==> SamePrefix(AddressValue(ip), AddressValue(range), m)
  {
    hide ValidateIP, Decimal, AddressValue, Pow2, MatchCIDR;
    MatchComparesQuotients(ip, range, m);
  }

  /** Prefix length 0 compares all 32 bits instead of none. */
  lemma ZeroLengthComparesEverything(ip: string, range: string)
    requires ValidateIP(ip) && ValidateIP(range)
    ensures MatchCIDR(ip, range + "/" + Decimal(0)) <==> AddressValue(ip) == AddressValue(range)
  {
    hide ValidateIP, Decimal, AddressValue, MatchCIDR;
    MatchComparesQuotients(ip, range, 0);
    assert Pow2(ClearBits(0)) == 1;
  }

  /** Exactly when the code agrees with section 3.1 of RFC 4632: always, except at length 0 for another address. */
  lemma AgreesWithStandardIff(ip: string, range: string, m: nat)
    requires ValidateIP(ip) && ValidateIP(range) && m <= 32
    ensures (MatchCIDR(ip, range + "/" + Decimal(m)) <==> SamePrefix(AddressValue(ip), AddressValue(range), m))
            <==> (m > 0 || AddressValue(ip) == AddressValue(range))
  {
    hide ValidateIP, Decimal, AddressValue, MatchCIDR;
    if m == 0 {
      ZeroLengthComparesEverything(ip, range);
      ZeroLengthPrefix(AddressValue(ip), AddressValue(range));
    } else {
      MatchIsPrefixEquality(ip, range, m);
    }
  }

  lemma ZeroLengthPrefix(x: nat, y: nat)
    requires x < TWO32 && y < TWO32
    ensures SamePrefix(x, y, 0)
  {
    Pow2Values();
    assert Pow2(32 - 0) == TWO32;
  }

  /** Lengths outside 0..32 match nothing. */
  lemma LongPrefixMatchesNothing(ip: string, range: string, m: nat)
    requires ValidateIP(range) && m > 32
    ensures !MatchCIDR(ip, range + "/" + Decimal(m))
  {
    PiecesOfCIDR(range, m);
  }

  /** A longer prefix that matches implies every shorter one. */
  lemma ShorterPrefixMatches(ip: string, range: string, m: nat, n: nat)
    requires ValidateIP(ip) && ValidateIP(range) && 1 <= n <= m <= 32
    ensures MatchCIDR(ip, range + "/" + Decimal(m)) ==> MatchCIDR(ip, range + "/" + Decimal(n))
  {
    hide ValidateIP, Decimal, AddressValue, MatchCIDR, SamePrefix;
    MatchIsPrefixEquality(ip, range, m);
    MatchIsPrefixEquality(ip, range, n);
    if SamePrefix(AddressValue(ip), AddressValue(range), m) {
      SamePrefixShorter(AddressValue(ip), AddressValue(range), m, n);
    }
  }

  lemma SamePrefixShorter(x: nat, y: nat, m: nat, n: nat)
    requires n <= m <= 32 && SamePrefix(x, y, m)
    ensures SamePrefix(x, y, n)
  {
    hide Pow2, Halved;
    HalvedIsQuotient(x, 32 - m);
    HalvedIsQuotient(y, 32 - m);
    HalvedIsQuotient(x, 32 - n);
    HalvedIsQuotient(y, 32 - n);
    HalvedTwice(x, 32 - m, m - n);
    HalvedTwice(y, 32 - m, m - n);
  }

  lemma {:induction false} HalvedTwice(u: nat, a: nat, b: nat)
    ensures Halved(u, a + b) == Halved(Halved(u, a), b)
    decreases a
  {
    if a != 0 { HalvedTwice(u / 2, a - 1, b); }
  }
}
