/** Base32 (section 6 of RFC 4648): the decoder's wrapping accumulator against the stream of bits. */
module Base32 {
  import opened JsInt

  // ----- bit streams -----

  /** The number written by a bit string, most significant bit first. */
  function Num(b: seq<bool>): nat {
    if |b| == 0 then 0 else 2 * Num(b[..|b| - 1]) + (if b[|b| - 1] then 1 else 0)
  }

  /** The low `n` bits of `x`, most significant bit first. */
  function BitsOf(x: nat, n: nat): (b: seq<bool>)
    ensures |b| == n
  {
    if n == 0 then [] else BitsOf(x / 2, n - 1) + [x % 2 == 1]
  }

  /** The concatenation of the `width`-bit representations of the numbers of `s`. */
  function Stream(s: seq<nat>, width: nat): (b: seq<bool>)
    ensures |b| == width * |s|
  {
    if |s| == 0 then []
    else
      assert width * |s| == width * (|s| - 1) + width;
      Stream(s[..|s| - 1], width) + BitsOf(s[|s| - 1], width)
  }

  /** Cuts a bit string into `width`-bit numbers, dropping an incomplete last one. */
  function Chunks(b: seq<bool>, width: nat): (s: seq<nat>)
    requires width > 0
    decreases |b|
  {
    if |b| < width then [] else [Num(b[..width])] + Chunks(b[width..], width)
  }

  lemma {:induction false} NumBitsOf(x: nat, n: nat)
    ensures Num(BitsOf(x, n)) == x % Pow2(n)
  {
    if n != 0 {
      NumBitsOf(x / 2, n - 1);
      HalveDivision(x, Pow2(n - 1));
      assert BitsOf(x, n)[..n - 1] == BitsOf(x / 2, n - 1);
    }
  }

  lemma {:induction false} BitsOfNum(b: seq<bool>)
    ensures Num(b) < Pow2(|b|)
    ensures BitsOf(Num(b), |b|) == b
  {
    if |b| != 0 {
      BitsOfNum(b[..|b| - 1]);
      assert b == b[..|b| - 1] + [b[|b| - 1]];
    }
  }

  lemma {:induction false} ChunksAppend(a: seq<bool>, b: seq<bool>, width: nat, n: nat)
    requires width > 0 && |a| == n * width
    ensures Chunks(a + b, width) == Chunks(a, width) + Chunks(b, width)
    ensures |Chunks(a, width)| == n
    decreases n
  {
    if n == 0 {
      assert a + b == b;
    } else {
      assert n * width == (n - 1) * width + width;
      assert (n - 1) * width >= 0;
      ChunksAppend(a[width..], b, width, n - 1);
      assert (a + b)[..width] == a[..width];
      assert (a + b)[width..] == a[width..] + b;
    }
  }

  /** Cutting a stream at the width it was built with gives the numbers back, and nothing from a short tail. */
  lemma {:induction false} ChunksOfStream(s: seq<nat>, width: nat, tail: seq<bool>)
    requires width > 0 && |tail| < width
    requires forall i :: 0 <= i < |s| ==> s[i] < Pow2(width)
    ensures Chunks(Stream(s, width) + tail, width) == s
  {
    if |s| == 0 {
      assert Stream(s, width) + tail == tail;
    } else {
      var p, x := s[..|s| - 1], s[|s| - 1];
      var last := BitsOf(x, width) + tail;
      assert s == p + [x];
      assert Stream(s, width) == Stream(p, width) + BitsOf(x, width);
      hide Chunks, Stream;
      assert Stream(s, width) + tail == Stream(p, width) + last;
      ChunksAppend(Stream(p, width), last, width, |p|);
      ChunksOfOne(x, width, tail);
      ChunksOfStream(p, width, []);
      assert Stream(p, width) + [] == Stream(p, width);
    }
  }

  lemma ChunksOfOne(x: nat, width: nat, tail: seq<bool>)
    requires 0 < width && |tail| < width && x < Pow2(width)
    ensures Chunks(BitsOf(x, width) + tail, width) == [x]
  {
    var b := BitsOf(x, width) + tail;
    assert b[..width] == BitsOf(x, width) && b[width..] == tail;
    NumBitsOf(x, width);
    DivModUnique(x, Pow2(width), 0, x);
  }

  /** Writing out the chunks of a whole number of chunks gives the bit string back. */
  lemma {:induction false} StreamOfChunks(b: seq<bool>, width: nat, n: nat)
    requires width > 0 && |b| == n * width
    ensures Stream(Chunks(b, width), width) == b
    ensures forall i :: 0 <= i < |Chunks(b, width)| ==> Chunks(b, width)[i] < Pow2(width)
    decreases n
  {
    if n != 0 {
      assert n * width == (n - 1) * width + width;
      assert (n - 1) * width >= 0;
      assert Chunks(b, width) == [Num(b[..width])] + Chunks(b[width..], width);
      hide Chunks, Stream, Num, BitsOf;
      StreamOfChunks(b[width..], width, n - 1);
      BitsOfNum(b[..width]);
      StreamPrepend(Num(b[..width]), Chunks(b[width..], width), width);
      assert b == b[..width] + b[width..];
    }
  }

  lemma {:induction false} StreamPrepend(x: nat, s: seq<nat>, width: nat)
    ensures Stream([x] + s, width) == BitsOf(x, width) + Stream(s, width)
  {
    var xs := [x] + s;
    if |s| == 0 {
      assert xs[..0] == [];
      assert Stream([], width) == [];
    } else {
      var p, last := s[..|s| - 1], BitsOf(s[|s| - 1], width);
      assert Stream(s, width) == Stream(p, width) + last;
      assert xs[..|xs| - 1] == [x] + p;
      assert Stream(xs, width) == Stream([x] + p, width) + last;
      hide Stream, BitsOf;
      StreamPrepend(x, p, width);
    }
  }

  lemma {:induction false} ByteCount(b: seq<bool>)
    ensures |Chunks(b, 8)| == |b| / 8
    decreases |b|
  {
    if |b| >= 8 { ByteCount(b[8..]); }
  }

  // ----- the decoder -----

  /** The position of `c.toUpperCase()` in the alphabet, or -1.  The last group lists the characters outside
      ASCII whose upper case is a part of the alphabet: dotless i, long s, and the two st ligatures. */
  function SymbolIndex(c: char): (i: int)
    ensures -1 <= i < 32
  {
    if 'A' <= c <= 'Z' then c as int - 'A' as int
    else if 'a' <= c <= 'z' then c as int - 'a' as int
    else if '2' <= c <= '7' then c as int - '2' as int + 26
    else if c == '\U{0131}' then 8
    else if c == '\U{017F}' || c == '\U{FB05}' || c == '\U{FB06}' then 18
    else -1
  }

  /** The values of the characters of the alphabet in `encoded`, in order; the others are skipped. */
  function Symbols(encoded: string): (s: seq<nat>)
    ensures forall i :: 0 <= i < |s| ==> s[i] < 32
  {
    if |encoded| == 0 then []
    else
      var rest := Symbols(encoded[..|encoded| - 1]);
      var i := SymbolIndex(encoded[|encoded| - 1]);
      if i == -1 then rest else rest + [i]
  }

  /** What section 6 of RFC 4648 makes of a text: the whole bytes of the stream of its 5-bit symbols. */
  function Decoded(encoded: string): seq<nat> {
    Chunks(Stream(Symbols(encoded), 5), 8)
  }

  lemma DecodedLength(encoded: string)
    ensures |Decoded(encoded)| == 5 * |Symbols(encoded)| / 8
  {
    ByteCount(Stream(Symbols(encoded), 5));
  }

  /** `u` with `w` zero bits appended. */
  function Doubled(u: nat, w: nat): nat {
    if w == 0 then u else 2 * Doubled(u, w - 1)
  }

  lemma DoubledFive(u: nat)
    ensures Doubled(u, 5) == u * 32
  {
    assert Doubled(u, 1) == 2 * u;
    assert Doubled(u, 2) == 4 * u;
    assert Doubled(u, 3) == 8 * u;
    assert Doubled(u, 4) == 16 * u;
  }

  /** The low bits of `u` after `w` more bits were shifted in. */
  lemma {:induction false} BitsAfterPush(u: nat, x: nat, n: nat, w: nat)
    requires x < Pow2(w)
    ensures BitsOf(Doubled(u, w) + x, n + w) == BitsOf(u, n) + BitsOf(x, w)
    decreases w
  {
    if w != 0 {
      PushBit(Doubled(u, w - 1) + x / 2, x % 2, n + w - 1);
      PushBit(x / 2, x % 2, w - 1);
      hide BitsOf;
      BitsAfterPush(u, x / 2, n, w - 1);
    }
  }

  lemma PushBit(y: nat, b: nat, n: nat)
    requires b < 2
    ensures BitsOf(2 * y + b, n + 1) == BitsOf(y, n) + [b == 1]
  {
    assert (2 * y + b) / 2 == y && (2 * y + b) % 2 == b;
  }

  /** Wrapping at `k` bits keeps the bits below. */
  lemma {:induction false} BitsAfterWrap(x: nat, n: nat, k: nat)
    requires n <= k
    ensures BitsOf(x % Pow2(k), n) == BitsOf(x, n)
    decreases n
  {
    if n != 0 {
      BitsAfterWrap(x / 2, n - 1, k - 1);
      HalveDivision(x, Pow2(k - 1));
    }
  }

  lemma {:induction false} BitsAfterShift(u: nat, n: nat, low: nat)
    ensures BitsOf(u, n + low) == BitsOf(Halved(u, low), n) + BitsOf(u, low)
    decreases low
  {
    if low != 0 { BitsAfterShift(u / 2, n, low - 1); }
  }

  lemma ShiftByFive(value: int)
    ensures ToUint32(ShiftLeft(value, 5)) == ToUint32(value) * 32 % TWO32
  {
    Pow2Values();
    assert Pow2(5 % 32) == 32;
  }

  lemma OrIntoFive(z: nat, index: nat)
    requires index < 32 && z * 32 < TWO32
    ensures OrBits(z * 32, index) == z * 32 + index
  {
    Pow2Values();
    OrIntoClearBits(z, index, 5);
  }

  lemma WrapTwice(x: nat, y: nat)
    ensures ToUint32(ToInt32(x % TWO32 + y)) == (x + y) % TWO32
  {
  }

  /** On 32-bit values, shifting by five and or-ing a symbol multiplies by 32 and adds. */
  lemma PushIsSum(value: int, index: nat)
    requires index < 32
    ensures ToUint32(BitOr(ShiftLeft(value, 5), index)) == (ToUint32(value) * 32 + index) % TWO32
  {
    hide OrBits, ShiftLeft;
    var u := ToUint32(ShiftLeft(value, 5));
    assert BitOr(ShiftLeft(value, 5), index) == ToInt32(u + index) by {
      ShiftByFive(value);
      OrIntoFive(u / 32, index);
      assert u == u / 32 * 32;
      assert ToUint32(index) == index;
    }
    ShiftByFive(value);
    WrapTwice(ToUint32(value) * 32, index);
  }

  lemma PushSymbol(value: int, bits: nat, pending: seq<bool>, index: nat)
    requires bits < 8 && index < 32 && BitsOf(ToUint32(value), bits) == pending
    ensures BitsOf(ToUint32(BitOr(ShiftLeft(value, 5), index)), bits + 5) == pending + BitsOf(index, 5)
  {
    PushIsSum(value, index);
    hide BitOr, ShiftLeft, ToUint32, BitsOf;
    Pow2Values();
    BitsAfterWrap(ToUint32(value) * 32 + index, bits + 5, 32);
    BitsAfterPush(ToUint32(value), index, bits, 5);
    DoubledFive(ToUint32(value));
  }

  lemma PopByte(value: int, bits: nat, pending: seq<bool>)
    requires 8 <= bits <= 12 && BitsOf(ToUint32(value), bits) == pending
    ensures BitAnd(ShiftRight(value, bits - 8), 0xff) == Num(pending[..8])
    ensures BitsOf(ToUint32(value), bits - 8) == pending[8..]
  {
    BitsAfterShift(ToUint32(value), 8, bits - 8);
    var shifted := ShiftRight(value, bits - 8);
    HalvedBound(ToUint32(value), bits - 8);
    LowByte(shifted);
    NumBitsOf(shifted, 8);
  }

  lemma {:induction false} HalvedBound(u: nat, n: nat)
    ensures Halved(u, n) <= u
  {
    if n != 0 { HalvedBound(u / 2, n - 1); }
  }

  lemma LowByte(x: nat)
    requires x < TWO32
    ensures BitAnd(x, 0xff) == x % Pow2(8)
  {
    hide AndBits;
    Pow2Values();
    assert ToUint32(x) == x && ToUint32(0xff) == Pow2(8) - 1;
    AndBitsLowMask(x, 8);
  }

  /** The decoder between two characters, when the symbols read so far have the bits `stream`. */
  ghost predicate DecoderState(stream: seq<bool>, output: seq<nat>, bits: int, value: int) {
    && 0 <= bits < 8
    && |stream| == 8 * |output| + bits
    && output == Chunks(stream[..8 * |output|], 8)
    && BitsOf(ToUint32(value), bits) == stream[8 * |output|..]
  }

  lemma ChunksExtend(stream: seq<bool>, n: nat)
    requires 8 * n + 8 <= |stream|
    ensures Chunks(stream[..8 * n + 8], 8) == Chunks(stream[..8 * n], 8) + [Num(stream[8 * n..][..8])]
  {
    var next := stream[8 * n..][..8];
    assert stream[..8 * n + 8] == stream[..8 * n] + next;
    ChunksAppend(stream[..8 * n], next, 8, n);
    assert next[..8] == next && next[8..] == [];
  }

  lemma SymbolStep(stream: seq<bool>, output: seq<nat>, bits: nat, value: int, index: nat)
    requires DecoderState(stream, output, bits, value) && index < 32
    ensures var stream', value' := stream + BitsOf(index, 5), BitOr(ShiftLeft(value, 5), index);
            if bits + 5 < 8 then DecoderState(stream', output, bits + 5, value')
            else
              var byte := BitAnd(ShiftRight(value', bits - 3), 0xff);
              byte >= 0 && DecoderState(stream', output + [byte], bits - 3, value')
  {
    hide BitOr, BitAnd, ShiftLeft, ShiftRight, ToUint32, Chunks, BitsOf;
    var done := 8 * |output|;
    var stream', value' := stream + BitsOf(index, 5), BitOr(ShiftLeft(value, 5), index);
    PushSymbol(value, bits, stream[done..], index);
    assert stream'[..done] == stream[..done];
    assert stream'[done..] == stream[done..] + BitsOf(index, 5);
    if bits + 5 >= 8 {
      PopByte(value', bits + 5, stream'[done..]);
      ChunksExtend(stream', |output|);
      assert stream'[done + 8..] == stream'[done..][8..];
    }
  }

  lemma DecoderEnd(stream: seq<bool>, output: seq<nat>, bits: int, value: int)
    requires DecoderState(stream, output, bits, value)
    ensures output == Chunks(stream, 8)
  {
    var whole := 8 * |output|;
    assert stream == stream[..whole] + stream[whole..];
    ChunksAppend(stream[..whole], stream[whole..], 8, |output|);
  }

  /** `base32Decode`, with its accumulator `value` that is never masked and wraps at 32 bits. */
  method Base32Decode(encoded: string) returns (output: seq<nat>)
    ensures output == Decoded(encoded)
  {
    var bits, value := 0, 0;
    output := [];
    for i := 0 to |encoded|
      invariant DecoderState(Stream(Symbols(encoded[..i]), 5), output, bits, value)
    {
      hide BitOr, BitAnd, ShiftLeft, ShiftRight, DecoderState;
      assert encoded[..i + 1][..i] == encoded[..i];
      var index := SymbolIndex(encoded[i]);
      if index == -1 {
        continue;
      }
      ghost var symbols := Symbols(encoded[..i]);
      assert (symbols + [index])[..|symbols|] == symbols;
      SymbolStep(Stream(symbols, 5), output, bits, value, index);
      value := BitOr(ShiftLeft(value, 5), index);
      bits := bits + 5;
      if bits >= 8 {
        output := output + [BitAnd(ShiftRight(value, bits - 8), 0xff)];
        bits := bits - 8;
      }
    }
    assert encoded[..|encoded|] == encoded;
    DecoderEnd(Stream(Symbols(encoded), 5), output, bits, value);
  }

  // ----- the encoder of RFC 4648, and the round trip -----

  /** The alphabet "ABCDEFGHIJKLMNOPQRSTUVWXYZ234567". */
  function Letter(i: nat): char
    requires i < 32
  {
    if i < 26 then ('A' as int + i) as char else ('2' as int + i - 26) as char
  }

  function Letters(s: seq<nat>): string
    requires forall i :: 0 <= i < |s| ==> s[i] < 32
  {
    if |s| == 0 then "" else Letters(s[..|s| - 1]) + [Letter(s[|s| - 1])]
  }

  /** `n` characters `=`. */
  function Padding(n: nat): string {
    if n == 0 then "" else Padding(n - 1) + "="
  }

  function Zeros(n: nat): (b: seq<bool>)
    ensures |b| == n
  {
    seq(n, _ => false)
  }

  /** The bits of the bytes, completed with zero bits to a multiple of five. */
  function PaddedBits(bytes: seq<nat>): (b: seq<bool>)
    ensures |b| == |b| / 5 * 5
  {
    var s := Stream(bytes, 8);
    s + Zeros((5 - |s| % 5) % 5)
  }

  /** The 5-bit groups of the bytes. */
  function Groups(bytes: seq<nat>): (s: seq<nat>)
    ensures forall i :: 0 <= i < |s| ==> s[i] < 32
  {
    var b := PaddedBits(bytes);
    StreamOfChunks(b, 5, |b| / 5);
    Pow2Values();
    Chunks(b, 5)
  }

  /** Section 6 of RFC 4648: 5-bit groups as letters, then `=` up to a multiple of eight characters. */
  function Encode(bytes: seq<nat>): string {
    var text := Letters(Groups(bytes));
    text + Padding((8 - |text| % 8) % 8)
  }

  lemma IndexOfLetter(i: nat)
    requires i < 32
    ensures SymbolIndex(Letter(i)) == i
  {
  }

  lemma {:induction false} SymbolsOfLetters(s: seq<nat>)
    requires forall i :: 0 <= i < |s| ==> s[i] < 32
    ensures Symbols(Letters(s)) == s
  {
    if |s| > 0 {
      IndexOfLetter(s[|s| - 1]);
      hide SymbolIndex, Letter;
      SymbolsOfLetters(s[..|s| - 1]);
      assert Letters(s)[..|Letters(s)| - 1] == Letters(s[..|s| - 1]);
    }
  }

  lemma {:induction false} SymbolsOfPadded(text: string, pads: nat)
    ensures Symbols(text + Padding(pads)) == Symbols(text)
  {
    var padded := text + Padding(pads);
    if pads == 0 {
      assert padded == text;
    } else {
      SymbolsOfPadded(text, pads - 1);
      assert padded[..|padded| - 1] == text + Padding(pads - 1);
      assert padded[|padded| - 1] == '=';
    }
  }

  lemma SymbolsOfEncoded(bytes: seq<nat>)
    ensures Symbols(Encode(bytes)) == Groups(bytes)
  {
    hide Symbols, Letters, Padding, Groups;
    var text := Letters(Groups(bytes));
    SymbolsOfPadded(text, (8 - |text| % 8) % 8);
    SymbolsOfLetters(Groups(bytes));
  }

  lemma StreamOfGroups(bytes: seq<nat>)
    ensures Stream(Groups(bytes), 5) == PaddedBits(bytes)
  {
    var b := PaddedBits(bytes);
    StreamOfChunks(b, 5, |b| / 5);
  }

  lemma BytesOfPaddedBits(bytes: seq<nat>)
    requires forall i :: 0 <= i < |bytes| ==> bytes[i] < 256
    ensures Chunks(PaddedBits(bytes), 8) == bytes
  {
    hide Chunks, Stream;
    Pow2Values();
    ChunksOfStream(bytes, 8, Zeros((5 - |Stream(bytes, 8)| % 5) % 5));
  }

  /** Decoding inverts encoding on every byte string. */
  lemma DecodeInvertsEncode(bytes: seq<nat>)
    requires forall i :: 0 <= i < |bytes| ==> bytes[i] < 256
    ensures Decoded(Encode(bytes)) == bytes
  {
    hide Chunks, Stream, Encode, Symbols, Groups, PaddedBits;
    SymbolsOfEncoded(bytes);
    StreamOfGroups(bytes);
    BytesOfPaddedBits(bytes);
  }
}
