/** Time-based one-time passwords: truncation, printing, the acceptance window, and backup codes. */
module Totp {
  import opened JsInt
  import opened Text
  import Base32

  const TOTP_WINDOW: int := 1
  const TOTP_PERIOD: int := 30
  const TOTP_DIGITS: nat := 6

  /** The latest second a `Date` can show. */
  const LAST_SECOND: int := 8_640_000_000_000

  /** An HMAC-SHA1 value: 20 bytes. */
  type Digest = d: seq<nat> | |d| == 20 && forall i :: 0 <= i < 20 ==> d[i] < 256 witness seq(20, _ => 0)

  /** HMAC-SHA1 of a key over the 8 bytes of a counter; any function will do. */
  type Hmac = (seq<nat>, nat) -> Digest

  datatype Result<+T> = Ok(value: T) | RangeError

  // ----- dynamic truncation -----

  /** Four bytes joined with the operators of the source. */
  function JoinedBytes(b0: nat, b1: nat, b2: nat, b3: nat): int {
    BitOr(BitOr(BitOr(
      ShiftLeft(BitAnd(b0, 0x7f), 24),
      ShiftLeft(BitAnd(b1, 0xff), 16)),
      ShiftLeft(BitAnd(b2, 0xff), 8)),
      BitAnd(b3, 0xff))
  }

  /** The joined four bytes that start where the low nibble of the last byte says. */
  function Truncate(hash: Digest): int {
    LowNibble(hash[19]);
    var offset := BitAnd(hash[|hash| - 1], 0x0f);
    JoinedBytes(hash[offset], hash[offset + 1], hash[offset + 2], hash[offset + 3])
  }

  /** Four bytes, most significant first, without the top bit. */
  function BigEndian31(b0: nat, b1: nat, b2: nat, b3: nat): nat {
    (b0 * 0x100_0000 + (b1 * 0x1_0000 + b2 * 0x100 + b3)) % TWO31
  }

  /** Section 5.3 of RFC 4226. */
  function TruncateSpec(hash: Digest): nat {
    var o := hash[19] % 16;
    BigEndian31(hash[o], hash[o + 1], hash[o + 2], hash[o + 3])
  }

  lemma MaskByte(b: nat, k: nat)
    requires b < 256 && k <= 8
    ensures Pow2(k) <= 256
    ensures BitAnd(b, Pow2(k) - 1) == b % Pow2(k)
  {
    Pow2Values();
    Pow2Add(k, 8 - k);
    MulExceeds(Pow2(k), Pow2(8 - k));
    hide AndBits, Pow2, ToInt32, BitAnd;
    AndBitsLowMask(b, k);
    RemainderBound(b, Pow2(k));
    BitAndInRange(b, Pow2(k) - 1);
    SmallUint32(b % Pow2(k));
  }

  lemma RemainderBound(x: nat, d: nat)
    requires d > 0
    ensures 0 <= x % d <= x
  {
    if x < d { DivModUnique(x, d, 0, x); }
  }

  lemma LowNibble(b: nat)
    requires b < 256
    ensures BitAnd(b, 0x0f) == b % 16
  {
    assert Pow2(4) == 16;
    MaskByte(b, 4);
  }

  lemma LowSeven(b: nat)
    requires b < 256
    ensures BitAnd(b, 0x7f) == b % 128
  {
    Pow2Values();
    Pow2Add(7, 1);
    assert Pow2(7) == 128;
    MaskByte(b, 7);
  }

  lemma WholeByte(b: nat)
    requires b < 256
    ensures BitAnd(b, 0xff) == b
  {
    Pow2Values();
    hide Pow2, BitAnd;
    MaskByte(b, 8);
  }

  /** Or-ing a value of `k` bits under a shifted one adds, as long as nothing reaches the sign bit. */
  lemma OrUnder(x: nat, y: nat, k: nat)
    requires y < Pow2(k) && x * Pow2(k) + y < TWO31
    ensures BitOr(x * Pow2(k), y) == x * Pow2(k) + y
  {
    hide OrBits, Pow2, BitOr, ToInt32;
    OrIntoClearBits(x, y, k);
    assert x * Pow2(k) >= 0;
    BitOrInRange(x * Pow2(k), y);
    SmallUint32(x * Pow2(k) + y);
  }

  lemma ShiftSmall(x: nat, k: nat)
    requires k < 32 && x * Pow2(k) < TWO31 && x < TWO31
    ensures ShiftLeft(x, k) == x * Pow2(k)
  {
    hide Pow2;
    assert ToInt32(x) == x && k % 32 == k;
    assert x * Pow2(k) >= 0;
  }

  lemma JoinBytes(b0: nat, b1: nat, b2: nat, b3: nat)
    requires b0 < 128 && b1 < 256 && b2 < 256 && b3 < 256
    ensures BitOr(BitOr(BitOr(ShiftLeft(b0, 24), ShiftLeft(b1, 16)), ShiftLeft(b2, 8)), b3)
            == b0 * 0x100_0000 + (b1 * 0x1_0000 + b2 * 0x100 + b3)
  {
    Pow2Values();
    hide BitOr, ShiftLeft, Pow2;
    ShiftSmall(b0, 24);
    ShiftSmall(b1, 16);
    ShiftSmall(b2, 8);
    OrUnder(b0, b1 * 0x1_0000, 24);
    OrUnder(b0 * 0x100 + b1, b2 * 0x100, 16);
    OrUnder(b0 * 0x1_0000 + b1 * 0x100 + b2, b3, 8);
  }

  lemma TopBitDropped(b0: nat, rest: nat)
    requires b0 < 256 && rest < 0x100_0000
    ensures (b0 * 0x100_0000 + rest) % TWO31 == b0 % 128 * 0x100_0000 + rest
  {
    DivModUnique(b0 * 0x100_0000 + rest, TWO31, b0 / 128, b0 % 128 * 0x100_0000 + rest);
  }

  lemma JoinedBytesAreBigEndian(b0: nat, b1: nat, b2: nat, b3: nat)
    requires b0 < 256 && b1 < 256 && b2 < 256 && b3 < 256
    ensures JoinedBytes(b0, b1, b2, b3) == BigEndian31(b0, b1, b2, b3) < TWO31
  {
    hide BitAnd, BitOr, ShiftLeft;
    LowSeven(b0);
    WholeByte(b1);
    WholeByte(b2);
    WholeByte(b3);
    JoinBytes(b0 % 128, b1, b2, b3);
    TopBitDropped(b0, b1 * 0x1_0000 + b2 * 0x100 + b3);
  }

  /** Truncation reads inside the digest, and computes the 31-bit number of section 5.3 of RFC 4226. */
  lemma TruncateIsStandard(hash: Digest)
    ensures Truncate(hash) == TruncateSpec(hash)
    ensures 0 <= Truncate(hash) < TWO31
  {
    hide BitAnd, JoinedBytes, BigEndian31;
    LowNibble(hash[19]);
    var o := hash[19] % 16;
    JoinedBytesAreBigEndian(hash[o], hash[o + 1], hash[o + 2], hash[o + 3]);
  }

  // ----- codes -----

  /** The printed code of a truncated value. */
  function PrintedCode(binary: nat): (code: string)
    ensures AllDigits(code)
  {
    PadStartValue(Decimal(binary % 1_000_000), TOTP_DIGITS);
    PadStart(Decimal(binary % 1_000_000), TOTP_DIGITS)
  }

  /** A code has exactly six digits, which parse back to the truncated value modulo 10^6. */
  lemma CodeHasSixDigits(binary: nat)
    ensures var code := PrintedCode(binary);
            |code| == 6 && DigitsValue(code) == binary % 1_000_000
  {
    var otp := binary % 1_000_000;
    assert Pow10(3) == 1000 && Pow10(TOTP_DIGITS) == 1_000_000;
    DecimalLength(otp, TOTP_DIGITS);
    DecimalValue(otp);
    PadStartValue(Decimal(otp), TOTP_DIGITS);
  }

  /** The code of a secret for a counter, as an authenticator shows it (section 5.2 of RFC 6238). */
  function CodeAt(h: Hmac, secret: string, counter: nat): (code: string)
    ensures AllDigits(code)
  {
    TruncateIsStandard(h(Base32.Decoded(secret), counter));
    PrintedCode(Truncate(h(Base32.Decoded(secret), counter)))
  }

  /** A code belongs to its secret and its counter: six digits, whose value is the truncated MAC of the decoded secret
      over the counter, modulo 10^6. */
  lemma CodeIsStandard(h: Hmac, secret: string, counter: nat)
    ensures var code := CodeAt(h, secret, counter);
            && |code| == 6 && AllDigits(code)
            && DigitsValue(code) == TruncateSpec(h(Base32.Decoded(secret), counter)) % 1_000_000
  {
    var d := h(Base32.Decoded(secret), counter);
    hide PrintedCode, Truncate, TruncateSpec, DigitsValue;
    TruncateIsStandard(d);
    CodeHasSixDigits(Truncate(d));
  }

  /** The worked example of section 5.4 of RFC 4226. */
  lemma ExampleOfTheStandard(h: Hmac, secret: string, counter: nat)
    requires h(Base32.Decoded(secret), counter)
             == [0x1f, 0x86, 0x98, 0x69, 0x0e, 0x02, 0xca, 0x16, 0x61, 0x85,
                 0x50, 0xef, 0x7f, 0x19, 0xda, 0x8e, 0x94, 0x5b, 0x55, 0x5a]
    ensures CodeAt(h, secret, counter) == "872921"
  {
    hide CodeAt, TruncateSpec, DigitsValue, Base32.Decoded;
    ExampleTruncates(h(Base32.Decoded(secret), counter));
    CodeIsStandard(h, secret, counter);
    SixDigitsValue("872921");
    DigitsUnique(CodeAt(h, secret, counter), "872921");
  }

  lemma ExampleTruncates(d: Digest)
    requires d == [0x1f, 0x86, 0x98, 0x69, 0x0e, 0x02, 0xca, 0x16, 0x61, 0x85,
                   0x50, 0xef, 0x7f, 0x19, 0xda, 0x8e, 0x94, 0x5b, 0x55, 0x5a]
    ensures TruncateSpec(d) == 0x50ef_7f19
  {
    assert d[19] % 16 == 10 && d[10] == 0x50 && d[11] == 0xef && d[12] == 0x7f && d[13] == 0x19;
  }

  lemma SixDigitsValue(s: string)
    requires |s| == 6 && AllDigits(s)
    ensures DigitsValue(s) == 100000 * (s[0] as int - 48) + 10000 * (s[1] as int - 48) + 1000 * (s[2] as int - 48)
                              + 100 * (s[3] as int - 48) + 10 * (s[4] as int - 48) + (s[5] as int - 48)
  {
    var t1, t2, t3, t4, t5 := s[..5], s[..4], s[..3], s[..2], s[..1];
    assert t1[..4] == t2 && t2[..3] == t3 && t3[..2] == t4 && t4[..1] == t5 && t5[..0] == "";
    assert DigitsValue(t5) == s[0] as int - 48;
    assert DigitsValue(t4) == 10 * DigitsValue(t5) + (s[1] as int - 48);
    assert DigitsValue(t3) == 10 * DigitsValue(t4) + (s[2] as int - 48);
    assert DigitsValue(t2) == 10 * DigitsValue(t3) + (s[3] as int - 48);
    assert DigitsValue(t1) == 10 * DigitsValue(t2) + (s[4] as int - 48);
  }

  /** Digits of one length are determined by their value. */
  lemma {:induction false} DigitsUnique(a: string, b: string)
    requires AllDigits(a) && AllDigits(b) && |a| == |b| && DigitsValue(a) == DigitsValue(b)
    ensures a == b
  {
    if |a| > 0 {
      DigitsUnique(a[..|a| - 1], b[..|b| - 1]);
      assert a == a[..|a| - 1] + [a[|a| - 1]] && b == b[..|b| - 1] + [b[|b| - 1]];
    }
  }

  /** The token is the code of the secret at the counter, by section 5 of RFC 4226. */
  ghost predicate IsCode(h: Hmac, secret: string, counter: nat, token: string) {
    && |token| == 6 && AllDigits(token)
    && DigitsValue(token) == TruncateSpec(h(Base32.Decoded(secret), counter)) % 1_000_000
  }

  lemma IsCodeIff(h: Hmac, secret: string, counter: nat, token: string)
    ensures IsCode(h, secret, counter, token) <==> token == CodeAt(h, secret, counter)
  {
    hide CodeAt, TruncateSpec, DigitsValue;
    CodeIsStandard(h, secret, counter);
    if IsCode(h, secret, counter, token) {
      DigitsUnique(token, CodeAt(h, secret, counter));
    }
  }

  /** `generateTOTP(secret, time)`: a `time` of 0 counts as absent and is replaced by the clock.  A counter
      that does not fit 64 unsigned bits is a RangeError of `writeBigUInt64BE`. */
  function GenerateTOTP(h: Hmac, secret: string, time: int, clock: int): Result<string> {
    var epoch := if time == 0 then clock else time;
    var counter := epoch / TOTP_PERIOD;
    if counter < 0 || counter >= 0x1_0000_0000_0000_0000 then RangeError
    else Ok(CodeAt(h, secret, counter))
  }

  /** The counters whose codes a verification at second `now` accepts.  Only at 30 does the first step reach
      time 0, and then the clock is read again, at second `clock`. */
  function TriedCounters(now: int, clock: int): seq<int> {
    [if now == 30 then clock / TOTP_PERIOD else now / TOTP_PERIOD - 1, now / TOTP_PERIOD, now / TOTP_PERIOD + 1]
  }

  ghost predicate MatchesTried(h: Hmac, secret: string, token: string, now: int, clock: int)
    requires 30 <= now <= clock
  {
    exists k | 0 <= k < 3 :: TriedCounters(now, clock)[k] >= 0
        && CodeAt(h, secret, TriedCounters(now, clock)[k]) == token
  }

  /** What the acceptance of a token means in terms of section 5 of RFC 4226 alone. */
  lemma MatchesTriedIff(h: Hmac, secret: string, token: string, now: int, clock: int)
    requires 30 <= now <= clock
    ensures MatchesTried(h, secret, token, now, clock)
            <==> IsCode(h, secret, if now == 30 then clock / 30 else now / 30 - 1, token)
                 || IsCode(h, secret, now / 30, token) || IsCode(h, secret, now / 30 + 1, token)
  {
    hide CodeAt, IsCode;
    var first := if now == 30 then clock / 30 else now / 30 - 1;
    IsCodeIff(h, secret, first, token);
    IsCodeIff(h, secret, now / 30, token);
    IsCodeIff(h, secret, now / 30 + 1, token);
    assert TriedCounters(now, clock)[0] == first && TriedCounters(now, clock)[1] == now / 30
           && TriedCounters(now, clock)[2] == now / 30 + 1;
  }

  /** `verifyToken`. */
  method VerifyToken(h: Hmac, secret: string, token: string, now: int, clock: int) returns (result: Result<bool>)
    requires 0 <= now <= clock <= LAST_SECOND
    ensures now < 30 ==> result == RangeError
    ensures now >= 30 ==> result == Ok(MatchesTried(h, secret, token, now, clock))
    ensures now > 30 ==> result == Ok(IsCode(h, secret, now / 30 - 1, token) || IsCode(h, secret, now / 30, token)
                                      || IsCode(h, secret, now / 30 + 1, token))
    ensures now == 30 ==> result == Ok(IsCode(h, secret, clock / 30, token) || IsCode(h, secret, 1, token)
                                       || IsCode(h, secret, 2, token))
  {
    hide CodeAt, IsCode;
    if now >= 30 { MatchesTriedIff(h, secret, token, now, clock); }
    var i := -TOTP_WINDOW;
    while i <= TOTP_WINDOW
      invariant -1 <= i <= 2
      invariant i > -1 ==> now >= 30
      invariant forall k :: 0 <= k <= i ==>
        TriedCounters(now, clock)[k] >= 0 && CodeAt(h, secret, TriedCounters(now, clock)[k]) != token
    {
      var time := now + i * TOTP_PERIOD;
      assert now >= 30 ==> (if time == 0 then clock else time) / TOTP_PERIOD == TriedCounters(now, clock)[i + 1];
      match GenerateTOTP(h, secret, time, clock) {
        case RangeError => return RangeError;
        case Ok(expected) =>
          if expected == token {
            return Ok(true);
          }
      }
      i := i + 1;
    }
    return Ok(false);
  }

  // ----- the acceptance window -----

  /** Exactly when the counters tried are the ones of section 5.2 of RFC 6238, one step either way. */
  lemma NeighboursTriedIff(now: int, clock: int)
    requires 30 <= now <= clock
    ensures (TriedCounters(now, clock) == [now / 30 - 1, now / 30, now / 30 + 1]) <==> now > 30
  {
  }

  /** A code shown at second `t` is accepted at every second at most 30 away, from second 31 on. */
  lemma AcceptedWithinOnePeriod(h: Hmac, secret: string, t: nat, now: int, clock: int)
    requires 30 < now <= clock && t - 30 <= now <= t + 30
    ensures MatchesTried(h, secret, CodeAt(h, secret, t / 30), now, clock)
  {
    var k := t / 30 - now / 30 + 1;
    assert 0 <= k < 3;
    assert TriedCounters(now, clock)[k] == t / 30;
  }

  /** Conversely, unless two of the codes collide, a code is accepted only within one step of its counter. */
  lemma AcceptedOnlyNearby(h: Hmac, secret: string, t: nat, now: int, clock: int)
    requires 30 < now <= clock
    requires forall c: nat | now / 30 - 1 <= c <= now / 30 + 1 && c != t / 30 ::
               CodeAt(h, secret, c) != CodeAt(h, secret, t / 30)
    ensures MatchesTried(h, secret, CodeAt(h, secret, t / 30), now, clock) <==> -1 <= t / 30 - now / 30 <= 1
  {
    if -1 <= t / 30 - now / 30 <= 1 {
      assert TriedCounters(now, clock)[t / 30 - now / 30 + 1] == t / 30;
    }
  }

  /** At second 30 the first step is at time 0, for which a later reading of the clock is used: the code of second 0 is
      accepted only if it equals one of the three codes then tried. */
  lemma AcceptedAtThirtyIff(h: Hmac, secret: string, token: string, clock: int)
    requires clock >= 30
    ensures MatchesTried(h, secret, token, 30, clock)
            <==> token == CodeAt(h, secret, clock / 30)
                 || token == CodeAt(h, secret, 1) || token == CodeAt(h, secret, 2)
  {
    assert TriedCounters(30, clock) == [clock / 30, 1, 2];
    if token == CodeAt(h, secret, clock / 30) { assert TriedCounters(30, clock)[0] == clock / 30; }
    if token == CodeAt(h, secret, 1) { assert TriedCounters(30, clock)[1] == 1; }
    if token == CodeAt(h, secret, 2) { assert TriedCounters(30, clock)[2] == 2; }
  }

  /** A MAC whose codes for the first counters are the counters themselves. */
  function CountingHmac(key: seq<nat>, counter: nat): Digest {
    seq(20, i => if i == 3 then counter % 256 else 0)
  }

  lemma CountingCode(secret: string, c: nat)
    requires c < 256
    ensures DigitsValue(CodeAt(CountingHmac, secret, c)) == c
  {
    hide DigitsValue, Base32.Decoded, BitAnd, JoinedBytes;
    var d := CountingHmac(Base32.Decoded(secret), c);
    assert d[19] == 0 && d[0] == 0 && d[1] == 0 && d[2] == 0 && d[3] == c;
    assert TruncateSpec(d) == BigEndian31(0, 0, 0, c) == c;
    hide Truncate, TruncateSpec, PrintedCode, CountingHmac;
    TruncateIsStandard(d);
    CodeHasSixDigits(Truncate(d));
  }

  /** The window fails at second 30: with this MAC the code of second 0, thirty seconds old, is refused. */
  lemma RefusedAtThirty(secret: string, clock: int)
    requires 30 <= clock < 256 * 30
    ensures !MatchesTried(CountingHmac, secret, CodeAt(CountingHmac, secret, 0), 30, clock)
  {
    CountingCode(secret, 0);
    CountingCode(secret, 1);
    CountingCode(secret, 2);
    CountingCode(secret, clock / 30);
    hide CodeAt, MatchesTried;
    AcceptedAtThirtyIff(CountingHmac, secret, CodeAt(CountingHmac, secret, 0), clock);
  }

  // ----- backup codes -----

  /** The codes left after one use of `code`, and whether it was accepted. */
  function UseCode(codes: seq<string>, code: string): (seq<string>, bool) {
    if |codes| == 0 then ([], false)
    else if codes[0] == code then (codes[1..], true)
    else var (rest, ok) := UseCode(codes[1..], code); ([codes[0]] + rest, ok)
  }

  lemma {:induction false} UseCodeSkips(codes: seq<string>, code: string, index: nat)
    requires index <= |codes| && (index < |codes| ==> codes[index] == code)
    requires forall k :: 0 <= k < index ==> codes[k] != code
    ensures UseCode(codes, code)
            == if index < |codes| then (codes[..index] + codes[index + 1..], true) else (codes, false)
    decreases index
  {
    if index == 0 {
      assert |codes| > 0 ==> codes[..0] + codes[1..] == codes[1..];
    } else {
      UseCodeSkips(codes[1..], code, index - 1);
      assert codes == [codes[0]] + codes[1..];
      assert codes[..index] == [codes[0]] + codes[1..][..index - 1];
      if index < |codes| {
        assert codes[1..][index..] == codes[index + 1..];
        assert codes[..index] + codes[index + 1..] == [codes[0]] + (codes[1..][..index - 1] + codes[index + 1..]);
      }
    }
  }

  lemma {:induction false} UseCodeConsumesOne(codes: seq<string>, code: string)
    ensures var (rest, ok) := UseCode(codes, code);
            ok == (code in codes) && multiset(rest) == multiset(codes) - multiset{code}
  {
    if |codes| > 0 {
      assert codes == [codes[0]] + codes[1..];
      UseCodeConsumesOne(codes[1..], code);
    }
  }

  /** One user's row of the `user_totp` table, without the encryption of its columns. */
  class TotpRow {
    var enabled: bool
    var backupCodes: seq<string>

    constructor (backupCodes: seq<string>)
      ensures this.enabled && this.backupCodes == backupCodes
    {
      this.enabled, this.backupCodes := true, backupCodes;
    }

    /** `verifyBackupCode` from its SELECT up to its UPDATE: `indexOf`, then `splice(index, 1)` on the list it read. */
    method BeginVerify(code: string) returns (left: Option<seq<string>>)
      ensures left == if enabled && UseCode(backupCodes, code).1 then Some(UseCode(backupCodes, code).0) else None
      ensures left.None? <==> !enabled || code !in backupCodes
      ensures left.Some? ==>
                exists i :: 0 <= i < |backupCodes| && backupCodes[i] == code && code !in backupCodes[..i]
                            && left.value == backupCodes[..i] + backupCodes[i + 1..]
    {
      if !enabled {
        return None;
      }
      var index := 0;
      while index < |backupCodes| && backupCodes[index] != code
        invariant 0 <= index <= |backupCodes|
        invariant forall k :: 0 <= k < index ==> backupCodes[k] != code
      {
        index := index + 1;
      }
      UseCodeSkips(backupCodes, code, index);
      if index == |backupCodes| {
        return None;
      }
      return Some(backupCodes[..index] + backupCodes[index + 1..]);
    }

    /** Its UPDATE, after which it answers true. */
    method EndVerify(left: seq<string>)
      modifies this`backupCodes
      ensures backupCodes == left
    {
      backupCodes := left;
    }

    /** `verifyBackupCode` as a whole, when nothing else writes the row meanwhile. */
    method VerifyBackupCode(code: string) returns (ok: bool)
      modifies this`backupCodes
      ensures !enabled ==> !ok && backupCodes == old(backupCodes)
      ensures enabled ==> (backupCodes, ok) == UseCode(old(backupCodes), code)
      ensures ok <==> enabled && code in old(backupCodes)
    {
      if enabled { UseCodeConsumesOne(backupCodes, code); UseCodeMisses(backupCodes, code); }
      var left := BeginVerify(code);
      if left.None? {
        return false;
      }
      EndVerify(left.value);
      return true;
    }
  }

  lemma {:induction false} UseCodeMisses(codes: seq<string>, code: string)
    ensures !UseCode(codes, code).1 ==> UseCode(codes, code).0 == codes
  {
    if |codes| > 0 { UseCodeMisses(codes[1..], code); }
  }

  // ----- overlapping verifications -----

  datatype Reading = Reading(code: string, read: seq<string>)

  /** The codes in one enabled row, the calls between SELECT and UPDATE with their code and the list they read, the
      codes accepted so far, and the codes of all calls that ended without an error. */
  datatype Codes = Codes(row: seq<string>, calls: map<nat, Reading>, accepted: seq<string>, ended: seq<string>)

  /** A call's SELECT, its UPDATE, and an UPDATE that fails, for which the call answers false. */
  datatype CodeStep = Select(call: nat, code: string) | Update(call: nat) | UpdateFails(call: nat)

  predicate CodeStepEnabled(s: Codes, step: CodeStep) {
    match step
    case Select(call, _) => call !in s.calls
    case Update(call) => call in s.calls
    case UpdateFails(call) => call in s.calls
  }

  function NextCodes(s: Codes, step: CodeStep): Codes
    requires CodeStepEnabled(s, step)
  {
    match step
    case Select(call, code) =>
      if UseCode(s.row, code).1 then s.(calls := s.calls[call := Reading(code, s.row)])
      else s.(ended := s.ended + [code])
    case Update(call) =>
      var r := s.calls[call];
      Codes(UseCode(r.read, r.code).0, s.calls - {call}, s.accepted + [r.code], s.ended + [r.code])
    case UpdateFails(call) => s.(calls := s.calls - {call})
  }

  /** A step that is not enabled is skipped. */
  function CodesStep(s: Codes, step: CodeStep): Codes {
    if CodeStepEnabled(s, step) then NextCodes(s, step) else s
  }

  function CodesAfter(issued: seq<string>, steps: seq<CodeStep>): Codes {
    if |steps| == 0 then Codes(issued, map[], [], [])
    else CodesStep(CodesAfter(issued, steps[..|steps| - 1]), steps[|steps| - 1])
  }

  /** Each code is either still in the row or was accepted, as often as it was issued. */
  predicate Conserved(issued: seq<string>, s: Codes) {
    multiset(s.row) + multiset(s.accepted) == multiset(issued)
  }

  /** An UPDATE loses nothing: the row still holds the codes that were read. */
  predicate Lossless(s: Codes, step: CodeStep) {
    step.Update? && CodeStepEnabled(s, step) ==> multiset(s.calls[step.call].read) == multiset(s.row)
  }

  /** What a pending call read contained its code. */
  ghost predicate ReadsValid(s: Codes) {
    forall call :: call in s.calls ==> s.calls[call].code in s.calls[call].read
  }

  lemma SelectKeepsRow(s: Codes, step: CodeStep)
    requires CodeStepEnabled(s, step) && ReadsValid(s)
    ensures ReadsValid(NextCodes(s, step))
    ensures !step.Update? ==> NextCodes(s, step).row == s.row && NextCodes(s, step).accepted == s.accepted
  {
    if step.Select? { UseCodeConsumesOne(s.row, step.code); }
  }

  /** One UPDATE keeps the codes conserved exactly when it is lossless. */
  lemma UpdateConservesIff(issued: seq<string>, s: Codes, step: CodeStep)
    requires Conserved(issued, s) && ReadsValid(s) && step.Update? && CodeStepEnabled(s, step)
    ensures Conserved(issued, NextCodes(s, step)) <==> Lossless(s, step)
  {
    var r, t := s.calls[step.call], NextCodes(s, step);
    UseCodeConsumesOne(r.read, r.code);
    assert multiset(t.row) + multiset{r.code} == multiset(r.read);
    assert multiset(t.accepted) == multiset(s.accepted) + multiset{r.code};
    assert multiset(t.row) + multiset(t.accepted) == multiset(r.read) + multiset(s.accepted);
    if Conserved(issued, t) {
      assert multiset(r.read) == (multiset(r.read) + multiset(s.accepted)) - multiset(s.accepted);
      assert multiset(s.row) == (multiset(s.row) + multiset(s.accepted)) - multiset(s.accepted);
    }
  }

  lemma LastStepConservesIff(issued: seq<string>, s: Codes, step: CodeStep)
    requires Conserved(issued, s) && ReadsValid(s)
    ensures Conserved(issued, CodesStep(s, step)) <==> Lossless(s, step)
  {
    if CodeStepEnabled(s, step) {
      SelectKeepsRow(s, step);
      if step.Update? { UpdateConservesIff(issued, s, step); }
    }
  }

  lemma {:induction false} ReadsStayValid(issued: seq<string>, steps: seq<CodeStep>)
    ensures ReadsValid(CodesAfter(issued, steps))
  {
    if |steps| > 0 {
      var before, step := CodesAfter(issued, steps[..|steps| - 1]), steps[|steps| - 1];
      ReadsStayValid(issued, steps[..|steps| - 1]);
      if CodeStepEnabled(before, step) { SelectKeepsRow(before, step); }
    }
  }

  predicate AlwaysConserved(issued: seq<string>, steps: seq<CodeStep>) {
    Conserved(issued, CodesAfter(issued, steps)) && (|steps| > 0 ==> AlwaysConserved(issued, steps[..|steps| - 1]))
  }

  predicate AllLossless(issued: seq<string>, steps: seq<CodeStep>) {
    |steps| > 0 ==>
      && AllLossless(issued, steps[..|steps| - 1])
      && Lossless(CodesAfter(issued, steps[..|steps| - 1]), steps[|steps| - 1])
  }

  lemma NothingUsed(issued: seq<string>)
    ensures Conserved(issued, CodesAfter(issued, []))
  {
  }

  /** On every run, whatever overlaps: the codes are conserved all along exactly when every UPDATE found the row with
      the codes its call had read. */
  lemma {:induction false} CodesConservedIff(issued: seq<string>, steps: seq<CodeStep>)
    ensures AlwaysConserved(issued, steps) <==> AllLossless(issued, steps)
  {
    hide CodesStep, Conserved, Lossless, ReadsValid;
    if |steps| == 0 {
      NothingUsed(issued);
    } else {
      var p := steps[..|steps| - 1];
      CodesConservedIff(issued, p);
      ReadsStayValid(issued, p);
      if AlwaysConserved(issued, p) {
        LastStepConservesIff(issued, CodesAfter(issued, p), steps[|p|]);
      }
    }
  }

  /** No verification of this user starts while another one is between SELECT and UPDATE. */
  predicate OneAtATime(issued: seq<string>, steps: seq<CodeStep>) {
    forall n :: 0 <= n < |steps| && steps[n].Select? ==> CodesAfter(issued, steps[..n]).calls == map[]
  }

  function AtMost(n: nat, limit: nat): nat {
    if n < limit then n else limit
  }

  /** Without overlap a pending call has read the present row, and each code was accepted as often as it was tried, up
      to the number issued. */
  ghost predicate SerialInv(issued: seq<string>, s: Codes) {
    && Conserved(issued, s) && ReadsValid(s)
    && (forall call :: call in s.calls ==> s.calls[call].read == s.row && s.calls.Keys == {call})
    && (forall x :: multiset(s.accepted)[x] == AtMost(multiset(s.ended)[x], multiset(issued)[x]))
  }

  lemma CountsBalance(issued: seq<string>, s: Codes, x: string)
    requires Conserved(issued, s)
    ensures multiset(s.row)[x] + multiset(s.accepted)[x] == multiset(issued)[x]
    ensures x in s.row <==> multiset(s.row)[x] > 0
  {
    assert (multiset(s.row) + multiset(s.accepted))[x] == multiset(issued)[x];
  }

  lemma SerialCounts(issued: seq<string>, s: Codes, step: CodeStep)
    requires SerialInv(issued, s) && CodeStepEnabled(s, step) && (step.Select? ==> s.calls == map[])
    ensures var t := NextCodes(s, step);
            forall x :: multiset(t.accepted)[x] == AtMost(multiset(t.ended)[x], multiset(issued)[x])
  {
    var t := NextCodes(s, step);
    var code := if step.Select? then step.code else s.calls[step.call].code;
    CountsBalance(issued, s, code);
    UseCodeConsumesOne(s.row, code);
    hide Conserved, UseCode;
    forall x ensures multiset(t.accepted)[x] == AtMost(multiset(t.ended)[x], multiset(issued)[x]) {
      assert multiset(s.accepted)[x] == AtMost(multiset(s.ended)[x], multiset(issued)[x]);
      OneMore(s.accepted, code, x);
      OneMore(s.ended, code, x);
    }
  }

  lemma SerialStep(issued: seq<string>, s: Codes, step: CodeStep)
    requires SerialInv(issued, s) && CodeStepEnabled(s, step) && (step.Select? ==> s.calls == map[])
    ensures SerialInv(issued, NextCodes(s, step))
  {
    var t := NextCodes(s, step);
    SelectKeepsRow(s, step);
    SerialCounts(issued, s, step);
    hide UseCode, AtMost;
    if step.Select? {
      assert map[][step.call := Reading(step.code, s.row)].Keys == {step.call};
    } else {
      assert t.calls.Keys == {};
      if step.Update? {
        UpdateConservesIff(issued, s, step);
        assert Lossless(s, step);
      }
    }
  }

  lemma OneMore(s: seq<string>, code: string, x: string)
    ensures multiset(s + [code])[x] == multiset(s)[x] + (if x == code then 1 else 0)
  {
  }

  /** Without overlapping verifications of a user, after every run each backup code was accepted exactly as often as it
      was tried, up to the number of times it was issued, and the others are still there. */
  lemma {:induction false} BackupCodeWorksAsOftenAsIssued(issued: seq<string>, steps: seq<CodeStep>)
    requires OneAtATime(issued, steps)
    ensures SerialInv(issued, CodesAfter(issued, steps))
  {
    if |steps| > 0 {
      var p := steps[..|steps| - 1];
      assert forall n :: 0 <= n < |p| ==> steps[..n] == p[..n];
      BackupCodeWorksAsOftenAsIssued(issued, p);
      if CodeStepEnabled(CodesAfter(issued, p), steps[|p|]) {
        SerialStep(issued, CodesAfter(issued, p), steps[|p|]);
      }
    }
  }

  lemma FourSteps(issued: seq<string>, a: CodeStep, b: CodeStep, c: CodeStep, d: CodeStep)
    ensures CodesAfter(issued, [a, b, c, d])
            == CodesStep(CodesStep(CodesStep(CodesStep(Codes(issued, map[], [], []), a), b), c), d)
  {
    hide CodesStep;
    assert [a, b, c, d][..3] == [a, b, c] && [a, b, c][..2] == [a, b] && [a, b][..1] == [a] && [a][..0] == [];
    assert CodesAfter(issued, [a]) == CodesStep(CodesAfter(issued, []), a);
    assert CodesAfter(issued, [a, b]) == CodesStep(CodesAfter(issued, [a]), b);
    assert CodesAfter(issued, [a, b, c]) == CodesStep(CodesAfter(issued, [a, b]), c);
  }

  /** Two overlapping calls that both find their codes; the second UPDATE is what stays. */
  lemma OverlapWritesTwice(issued: seq<string>, code: string, other: string)
    requires code in issued && other in issued
    ensures CodesAfter(issued, [Select(1, code), Select(2, other), Update(1), Update(2)])
            == Codes(UseCode(issued, other).0, map[], [code, other], [code, other])
  {
    UseCodeConsumesOne(issued, code);
    UseCodeConsumesOne(issued, other);
    FourSteps(issued, Select(1, code), Select(2, other), Update(1), Update(2));
    hide CodesAfter, UseCode, CodesStep;
    var one, two := Reading(code, issued), Reading(other, issued);
    BothSelect(issued, code, other);
    BothUpdate(issued, one, two);
  }

  lemma BothSelect(issued: seq<string>, code: string, other: string)
    requires UseCode(issued, code).1 && UseCode(issued, other).1
    ensures CodesStep(CodesStep(Codes(issued, map[], [], []), Select(1, code)), Select(2, other))
            == Codes(issued, map[1 := Reading(code, issued), 2 := Reading(other, issued)], [], [])
  {
    hide UseCode;
  }

  lemma BothUpdate(row: seq<string>, one: Reading, two: Reading)
    ensures CodesStep(CodesStep(Codes(row, map[1 := one, 2 := two], [], []), Update(1)), Update(2))
            == Codes(UseCode(two.read, two.code).0, map[], [one.code, two.code], [one.code, two.code])
  {
    hide UseCode;
    var s := Codes(row, map[1 := one, 2 := two], [], []);
    assert s.calls - {1} == map[2 := two];
    assert CodesStep(s, Update(1)) == Codes(UseCode(one.read, one.code).0, map[2 := two], [one.code], [one.code]);
    assert map[2 := two] - {2} == map[];
    assert [one.code] + [two.code] == [one.code, two.code];
  }

  /** With one code, both are accepted, though the row loses the code once. */
  lemma OverlapAcceptsTwice(issued: seq<string>, code: string)
    requires code in issued
    ensures var s := CodesAfter(issued, [Select(1, code), Select(2, code), Update(1), Update(2)]);
            s.accepted == [code, code] && multiset(s.row) == multiset(issued) - multiset{code} && s.calls == map[]
  {
    OverlapWritesTwice(issued, code, code);
    UseCodeConsumesOne(issued, code);
  }

  /** With different codes, the later UPDATE puts the first code back. */
  lemma OverlapRestoresCode(issued: seq<string>, code: string, other: string)
    requires code in issued && other in issued && code != other
    ensures var s := CodesAfter(issued, [Select(1, code), Select(2, other), Update(1), Update(2)]);
            && s.accepted == [code, other] && multiset(s.row) == multiset(issued) - multiset{other} && s.calls == map[]
            && UseCode(s.row, code).1
  {
    OverlapWritesTwice(issued, code, other);
    UseCodeConsumesOne(issued, other);
    var row := UseCode(issued, other).0;
    UseCodeConsumesOne(row, code);
    assert multiset(row)[code] == multiset(issued)[code] > 0;
    assert code in multiset(row);
  }
}
