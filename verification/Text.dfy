/** Strings as the source uses them: decimal numbers, `padStart`, `parseInt`, `split` and `join`. */
module Text {

  datatype Option<+T> = None | Some(value: T)

  // ----- decimal digits -----

  function Digit(d: nat): char
    requires d < 10
  {
    ('0' as int + d) as char
  }

  predicate IsDigit(c: char) {
    '0' <= c <= '9'
  }

  predicate AllDigits(s: string) {
    forall i :: 0 <= i < |s| ==> IsDigit(s[i])
  }

  /** The number written by a string of digits. */
  function DigitsValue(s: string): nat
    requires AllDigits(s)
  {
    if |s| == 0 then 0
    else 10 * DigitsValue(s[..|s| - 1]) + (s[|s| - 1] as int - '0' as int)
  }

  /** `n.toString()`. */
  function Decimal(n: nat): (s: string)
    ensures |s| > 0 && AllDigits(s)
  {
    if n < 10 then [Digit(n)] else Decimal(n / 10) + [Digit(n % 10)]
  }

  lemma {:induction false} DecimalValue(n: nat)
    ensures DigitsValue(Decimal(n)) == n
  {
    var s := Decimal(n);
    if n < 10 {
      assert s[..0] == "" && DigitsValue("") == 0;
    } else {
      DecimalValue(n / 10);
      assert s[..|s| - 1] == Decimal(n / 10);
    }
  }

  function Pow10(k: nat): nat {
    if k == 0 then 1 else 10 * Pow10(k - 1)
  }

  lemma {:induction false} DecimalLength(n: nat, k: nat)
    requires k > 0 && n < Pow10(k)
    ensures |Decimal(n)| <= k
    decreases k
  {
    if n >= 10 { DecimalLength(n / 10, k - 1); }
  }

  /** `s.padStart(k, '0')`. */
  function PadStart(s: string, k: nat): (p: string)
    ensures |p| == if |s| < k then k else |s|
    decreases k - |s|
  {
    if |s| >= k then s else PadStart("0" + s, k)
  }

  lemma {:induction false} PadStartValue(s: string, k: nat)
    requires AllDigits(s)
    ensures AllDigits(PadStart(s, k)) && DigitsValue(PadStart(s, k)) == DigitsValue(s)
    decreases k - |s|
  {
    if |s| < k {
      LeadingZero(s);
      PadStartValue("0" + s, k);
    }
  }

  lemma {:induction false} LeadingZero(s: string)
    requires AllDigits(s)
    ensures AllDigits("0" + s) && DigitsValue("0" + s) == DigitsValue(s)
  {
    var z := "0" + s;
    if |s| == 0 {
      assert z[..0] == "";
    } else {
      LeadingZero(s[..|s| - 1]);
      assert z[..|z| - 1] == "0" + s[..|s| - 1];
    }
  }

  // ----- parseInt -----

  /** The white space that `parseInt` skips. */
  predicate IsSpace(c: char) {
    || '\U{0009}' <= c <= '\U{000D}' || c == ' ' || c == '\U{00A0}' || c == '\U{1680}'
    || '\U{2000}' <= c <= '\U{200A}' || c == '\U{2028}' || c == '\U{2029}' || c == '\U{202F}'
    || c == '\U{205F}' || c == '\U{3000}' || c == '\U{FEFF}'
  }

  /** The longest prefix of digits. */
  function DigitPrefix(s: string): (p: string)
    ensures AllDigits(p)
  {
    if |s| > 0 && IsDigit(s[0]) then [s[0]] + DigitPrefix(s[1..]) else ""
  }

  /** `parseInt(s, 10)`; NaN is `None`. */
  function ParseInt(s: string): Option<int> {
    if |s| == 0 then None
    else if IsSpace(s[0]) then ParseInt(s[1..])
    else
      var negative := s[0] == '-';
      var digits := DigitPrefix(if s[0] == '-' || s[0] == '+' then s[1..] else s);
      if digits == "" then None
      else Some(if negative then 0 - DigitsValue(digits) as int else DigitsValue(digits) as int)
  }

  lemma {:induction false} DigitPrefixOfDigits(s: string)
    requires AllDigits(s)
    ensures DigitPrefix(s) == s
  {
    if |s| > 0 {
      DigitPrefixOfDigits(s[1..]);
      assert s == [s[0]] + s[1..];
    }
  }

  lemma ParseIntOfDigits(s: string)
    requires AllDigits(s) && |s| > 0
    ensures ParseInt(s) == Some(DigitsValue(s))
  {
    DigitPrefixOfDigits(s);
    assert IsDigit(s[0]);
  }

  // ----- split -----

  /** `s.split(sep)` for a separator of one character. */
  function Split(s: string, sep: char): (parts: seq<string>)
    ensures |parts| > 0
  {
    if |s| == 0 then [""]
    else
      var rest := Split(s[1..], sep);
      if s[0] == sep then [""] + rest else [[s[0]] + rest[0]] + rest[1..]
  }

  /** Splitting at the first separator. */
  lemma {:induction false} SplitFirst(a: string, b: string, sep: char)
    requires sep !in a
    ensures Split(a + [sep] + b, sep) == [a] + Split(b, sep)
  {
    var s := a + [sep] + b;
    if |a| == 0 {
      assert s[1..] == b;
    } else {
      SplitFirst(a[1..], b, sep);
      assert s[1..] == a[1..] + [sep] + b;
      assert a == [a[0]] + a[1..];
      assert s[0] == a[0];
    }
  }

  lemma {:induction false} SplitWithout(s: string, sep: char)
    requires sep !in s
    ensures Split(s, sep) == [s]
  {
    if |s| > 0 {
      SplitWithout(s[1..], sep);
      assert s == [s[0]] + s[1..];
    }
  }

  /** Splitting loses no character but the separator. */
  lemma {:induction false} SplitLosesOnly(s: string, sep: char, c: char)
    requires c != sep
    requires forall k :: 0 <= k < |Split(s, sep)| ==> c !in Split(s, sep)[k]
    ensures c !in s
  {
    if |s| > 0 {
      var rest, parts := Split(s[1..], sep), Split(s, sep);
      forall k | 0 <= k < |rest| ensures c !in rest[k] {
        assert c !in parts[if s[0] == sep then k + 1 else k];
      }
      SplitLosesOnly(s[1..], sep, c);
      assert c !in parts[0];
      assert s == [s[0]] + s[1..];
    }
  }

  /** `parts.join(sep)`. */
  function Join(parts: seq<string>, sep: string): string {
    if |parts| == 0 then ""
    else if |parts| == 1 then parts[0]
    else parts[0] + sep + Join(parts[1..], sep)
  }
}
