/** Strings as the source uses them: byte order, prefixes, decimal and hexadecimal
    numerals, and splitting at a separator. */
module Text {

  datatype Option<+T> = None | Some(value: T)

  const U64_MAX := 0xFFFF_FFFF_FFFF_FFFF

  // ---- order ----

  /** The order of string keys: first difference decides, a proper prefix is smaller. */
  predicate Less(a: string, b: string) {
    |b| > 0 && (|a| == 0 || a[0] < b[0] || (a[0] == b[0] && Less(a[1..], b[1..])))
  }

  lemma {:induction false} LessTotal(a: string, b: string)
    ensures Less(a, b) || a == b || Less(b, a)
    ensures !(Less(a, b) && Less(b, a)) && !Less(a, a)
  {
    if |a| > 0 && |b| > 0 {
      LessTotal(a[1..], b[1..]);
      LessTotal(a[1..], a[1..]);
      assert a[0] == b[0] && a[1..] == b[1..] ==> a == b by {
        assert a == [a[0]] + a[1..] && b == [b[0]] + b[1..];
      }
    } else if |a| > 0 {
      LessTotal(a[1..], a[1..]);
    }
  }

  lemma {:induction false} LessTransitive(a: string, b: string, c: string)
    requires Less(a, b) && Less(b, c)
    ensures Less(a, c)
  {
    if |a| > 0 && a[0] == b[0] == c[0] {
      LessTransitive(a[1..], b[1..], c[1..]);
    }
  }

  /** Keys at or above a prefix and below a key with that prefix have it too. */
  lemma {:induction false} PrefixRangeIsContiguous(p: string, a: string, b: string)
    requires !Less(a, p) && Less(a, b) && p <= b
    ensures p <= a
  {
    if |p| > 0 {
      assert |a| > 0;
      assert b[0] == p[0];
      PrefixRangeIsContiguous(p[1..], a[1..], b[1..]);
    }
  }

  lemma {:induction false} PrefixIsNotAbove(p: string, s: string)
    requires p <= s
    ensures !Less(s, p)
  {
    if |p| > 0 {
      PrefixIsNotAbove(p[1..], s[1..]);
    }
  }

  lemma {:induction false} LessCommonPrefix(p: string, a: string, b: string)
    ensures Less(p + a, p + b) <==> Less(a, b)
  {
    if |p| == 0 {
      assert p + a == a && p + b == b;
    } else {
      assert (p + a)[1..] == p[1..] + a && (p + b)[1..] == p[1..] + b;
      LessCommonPrefix(p[1..], a, b);
    }
  }

  lemma {:induction false} LessLastChar(a: string, b: string, x: char, y: char)
    requires |a| == |b|
    ensures Less(a + [x], b + [y]) <==> Less(a, b) || (a == b && x < y)
  {
    if |a| > 0 {
      assert (a + [x])[1..] == a[1..] + [x] && (b + [y])[1..] == b[1..] + [y];
      LessLastChar(a[1..], b[1..], x, y);
      assert a[0] == b[0] && a[1..] == b[1..] <==> a == b by {
        assert a == [a[0]] + a[1..] && b == [b[0]] + b[1..];
      }
    }
  }

  /** Equally long fronts that differ decide. */
  lemma {:induction false} LessFrontDecides(a: string, b: string, x: string, y: string)
    requires |a| == |b| && Less(a, b)
    ensures Less(a + x, b + y)
  {
    assert (a + x)[0] == a[0] && (b + y)[0] == b[0];
    if a[0] == b[0] {
      LessFrontDecides(a[1..], b[1..], x, y);
      assert (a + x)[1..] == a[1..] + x && (b + y)[1..] == b[1..] + y;
    }
  }

  // ---- decimal numerals ----

  predicate IsDigit(c: char) { '0' <= c <= '9' }

  function Digit(d: int): (c: char)
    requires 0 <= d < 10
    ensures IsDigit(c) && DigitValue(c) == d
  {
    '0' + d as char
  }

  function DigitValue(c: char): int { c as int - '0' as int }

  function Pow10(w: nat): (p: int)
    ensures p >= 1
  {
    if w == 0 then 1 else 10 * Pow10(w - 1)
  }

  /** The value of a numeral, ignoring leading zeros. */
  function Value(s: string): int {
    if s == "" then 0 else 10 * Value(s[..|s| - 1]) + DigitValue(s[|s| - 1])
  }

  /** `n` in exactly `w` digits (`{:0w}` of a number that fits). */
  function Padded(n: nat, w: nat): string {
    if w == 0 then "" else Padded(n / 10, w - 1) + [Digit(n % 10)]
  }

  /** `n` in the fewest digits (`{}`). */
  function Decimal(n: nat): string {
    if n < 10 then [Digit(n)] else Decimal(n / 10) + [Digit(n % 10)]
  }

  /** `n` in at least `w` digits (`{:0w}`). */
  function PaddedAtLeast(n: nat, w: nat): string {
    if n < Pow10(w) then Padded(n, w) else Decimal(n)
  }

  lemma {:induction false} PaddedReadsBack(n: nat, w: nat)
    requires n < Pow10(w)
    ensures |Padded(n, w)| == w
    ensures forall i :: 0 <= i < w ==> IsDigit(Padded(n, w)[i])
    ensures Value(Padded(n, w)) == n
  {
    if w > 0 {
      PaddedReadsBack(n / 10, w - 1);
      assert Padded(n, w)[..w - 1] == Padded(n / 10, w - 1);
    }
  }

  lemma {:induction false} DecimalReadsBack(n: nat)
    ensures |Decimal(n)| > 0
    ensures forall i :: 0 <= i < |Decimal(n)| ==> IsDigit(Decimal(n)[i])
    ensures Value(Decimal(n)) == n
  {
    if n < 10 {
      assert [Digit(n)][..0] == "";
    } else {
      DecimalReadsBack(n / 10);
      assert Decimal(n)[..|Decimal(n)| - 1] == Decimal(n / 10);
    }
  }

  lemma PaddedAtLeastReadsBack(n: nat, w: nat)
    ensures Value(PaddedAtLeast(n, w)) == n
  {
    if n < Pow10(w) {
      PaddedReadsBack(n, w);
    } else {
      DecimalReadsBack(n);
    }
  }

  /** Equal-width numerals sort as the numbers do. */
  lemma {:induction false} PaddedSorts(m: nat, n: nat, w: nat)
    requires m < Pow10(w) && n < Pow10(w)
    ensures Less(Padded(m, w), Padded(n, w)) <==> m < n
  {
    if w > 0 {
      PaddedSorts(m / 10, n / 10, w - 1);
      PaddedReadsBack(m / 10, w - 1);
      PaddedReadsBack(n / 10, w - 1);
      LessLastChar(Padded(m / 10, w - 1), Padded(n / 10, w - 1), Digit(m % 10), Digit(n % 10));
    }
  }

  predicate AllDigits(s: string) { forall i :: 0 <= i < |s| ==> IsDigit(s[i]) }

  /** `str::parse::<u64>`: an optional plus sign, then digits, within range. */
  function ParseU64(s: string): Option<nat> {
    var digits := if |s| > 0 && s[0] == '+' then s[1..] else s;
    if digits == "" || !AllDigits(digits) then None
    else
      ValueIsNat(digits);
      if Value(digits) > U64_MAX then None else Some(Value(digits))
  }

  lemma {:induction false} ValueIsNat(s: string)
    requires AllDigits(s)
    ensures Value(s) >= 0
  {
    if s != "" { ValueIsNat(s[..|s| - 1]); }
  }

  function Zeros(k: nat): string { if k == 0 then "" else Zeros(k - 1) + "0" }

  ghost predicate Numeral(s: string, n: nat) {
    exists k: nat :: s == Zeros(k) + Decimal(n) || s == "+" + (Zeros(k) + Decimal(n))
  }

  lemma {:induction false} NumeralIsDigits(k: nat, n: nat)
    ensures var s := Zeros(k) + Decimal(n); Value(s) == n && s != "" && AllDigits(s)
  {
    ZerosAreDigits(k);
    DecimalReadsBack(n);
    ZerosAddNothing(k, Decimal(n));
  }

  lemma {:induction false} ZerosAreDigits(k: nat)
    ensures Value(Zeros(k)) == 0 && AllDigits(Zeros(k))
  {
    if k > 0 {
      ZerosAreDigits(k - 1);
      assert Zeros(k)[..|Zeros(k)| - 1] == Zeros(k - 1);
    }
  }

  lemma {:induction false} ZerosAddNothing(k: nat, s: string)
    ensures Value(Zeros(k) + s) == Value(s)
    decreases |s|
  {
    if s == "" {
      assert Zeros(k) + s == Zeros(k);
      ZerosAreDigits(k);
    } else {
      ZerosAddNothing(k, s[..|s| - 1]);
      assert (Zeros(k) + s)[..|Zeros(k) + s| - 1] == Zeros(k) + s[..|s| - 1];
    }
  }

  /** Digits are a decimal numeral after some zeros. */
  lemma {:induction false} DigitsAreNumeral(s: string) returns (k: nat)
    requires s != "" && AllDigits(s)
    ensures Value(s) >= 0 && s == Zeros(k) + Decimal(Value(s))
  {
    var front, c := s[..|s| - 1], s[|s| - 1];
    assert s == front + [c] && Digit(DigitValue(c)) == c;
    if front == "" {
      k := 0;
    } else {
      k := DigitsAreNumeral(front);
      if Value(front) == 0 {
        assert front == Zeros(k) + "0";
        k := k + 1;
      }
    }
  }

  /** Exactly the numbers of 64 bits in decimal are read, with zeros and a plus sign before them
      or not. */
  lemma ParsesExactly(s: string, n: nat)
    ensures ParseU64(s) == Some(n) <==> n <= U64_MAX && Numeral(s, n)
  {
    if ParseU64(s) == Some(n) {
      ParsedIsNumeral(s);
    }
    if Numeral(s, n) {
      var k: nat :| s == Zeros(k) + Decimal(n) || s == "+" + (Zeros(k) + Decimal(n));
      NumeralIsDigits(k, n);
      assert s[0] == '+' ==> s[1..] == Zeros(k) + Decimal(n);
    }
  }

  lemma ParsedIsNumeral(s: string)
    requires ParseU64(s).Some?
    ensures Numeral(s, ParseU64(s).value)
  {
    if s[0] == '+' {
      var k := DigitsAreNumeral(s[1..]);
      assert s == "+" + s[1..];
    } else {
      var k := DigitsAreNumeral(s);
    }
  }

  // ---- hexadecimal numerals ----

  function HexDigit(d: int): char
    requires 0 <= d < 16
  {
    if d < 10 then '0' + d as char else 'a' + (d - 10) as char
  }

  /** `n` in exactly `w` lower-case hexadecimal digits (`{:0wx}` of a number that fits). */
  function PaddedHex(n: nat, w: nat): string {
    if w == 0 then "" else PaddedHex(n / 16, w - 1) + [HexDigit(n % 16)]
  }

  function Pow16(w: nat): (p: int)
    ensures p >= 1
  {
    if w == 0 then 1 else 16 * Pow16(w - 1)
  }

  lemma {:induction false} PaddedHexLength(n: nat, w: nat)
    ensures |PaddedHex(n, w)| == w
  {
    if w > 0 { PaddedHexLength(n / 16, w - 1); }
  }

  lemma HexDigitInjective(d: int, e: int)
    requires 0 <= d < 16 && 0 <= e < 16 && HexDigit(d) == HexDigit(e)
    ensures d == e
  {}

  lemma {:induction false} PaddedHexInjective(m: nat, n: nat, w: nat)
    requires m < Pow16(w) && n < Pow16(w) && PaddedHex(m, w) == PaddedHex(n, w)
    ensures m == n
  {
    if w > 0 {
      PaddedHexLength(m / 16, w - 1);
      PaddedHexLength(n / 16, w - 1);
      assert PaddedHex(m, w)[..w - 1] == PaddedHex(m / 16, w - 1) && PaddedHex(n, w)[..w - 1] == PaddedHex(n / 16, w - 1);
      assert PaddedHex(m, w)[w - 1] == HexDigit(m % 16) && PaddedHex(n, w)[w - 1] == HexDigit(n % 16);
      HexDigitInjective(m % 16, n % 16);
      PaddedHexInjective(m / 16, n / 16, w - 1);
    }
  }

  lemma U64FitsSixteenHexDigits()
    ensures U64_MAX < Pow16(16)
  {
    assert Pow16(4) == 65536;
    assert Pow16(8) == 65536 * Pow16(4);
    assert Pow16(12) == 65536 * Pow16(8);
    assert Pow16(16) == 65536 * Pow16(12);
  }

  /** A hexadecimal digit of either case. */
  function HexValue(c: char): (v: Option<int>)
    ensures v.Some? ==> 0 <= v.value < 16
  {
    if '0' <= c <= '9' then Some(c as int - '0' as int)
    else if 'A' <= c <= 'F' then Some(c as int - 'A' as int + 10)
    else if 'a' <= c <= 'f' then Some(c as int - 'a' as int + 10)
    else None
  }

  // ---- characters and bytes ----

  type Byte = b: int | 0 <= b < 256

  /** Unicode white space, which `str::trim` removes. */
  predicate IsWhitespace(c: char) {
    var n := c as int;
    9 <= n <= 13 || n in {0x20, 0x85, 0xA0, 0x1680, 0x2028, 0x2029, 0x202F, 0x205F, 0x3000} || 0x2000 <= n <= 0x200A
  }

  /** `str::trim`. */
  function Trim(s: string): string {
    if s != "" && IsWhitespace(s[0]) then Trim(s[1..])
    else if s != "" && IsWhitespace(s[|s| - 1]) then Trim(s[..|s| - 1])
    else s
  }

  /** The length of a string in UTF-8. */
  function ByteLength(s: string): nat {
    if s == "" then 0
    else
      var n := s[0] as int;
      (if n < 0x80 then 1 else if n < 0x800 then 2 else if n < 0x10000 then 3 else 4) + ByteLength(s[1..])
  }

  function CountFrom(s: string, least: int): nat {
    if s == "" then 0 else (if s[0] as int >= least then 1 else 0) + CountFrom(s[1..], least)
  }

  /** One byte a character, and one more from each of U+0080, U+0800 and U+10000 on. */
  lemma {:induction false} ByteLengthCounts(s: string)
    ensures ByteLength(s) == |s| + CountFrom(s, 0x80) + CountFrom(s, 0x800) + CountFrom(s, 0x10000)
  {
    if s != "" { ByteLengthCounts(s[1..]); }
  }

  /** Trimming takes white space off both ends and stops there. */
  lemma {:induction false} TrimIsExact(s: string) returns (a: string, b: string)
    ensures s == a + Trim(s) + b
    ensures (forall c :: c in a || c in b ==> IsWhitespace(c))
    ensures Trim(s) != "" ==> !IsWhitespace(Trim(s)[0]) && !IsWhitespace(Trim(s)[|Trim(s)| - 1])
  {
    if s != "" && IsWhitespace(s[0]) {
      a, b := TrimIsExact(s[1..]);
      assert s == [s[0]] + s[1..];
      a := [s[0]] + a;
    } else if s != "" && IsWhitespace(s[|s| - 1]) {
      a, b := TrimIsExact(s[..|s| - 1]);
      assert s == s[..|s| - 1] + [s[|s| - 1]];
      b := b + [s[|s| - 1]];
    } else {
      a, b := "", "";
    }
  }

  lemma TrimEmptyIff(s: string)
    ensures Trim(s) == "" <==> forall i :: 0 <= i < |s| ==> IsWhitespace(s[i])
  {
    var a, b := TrimIsExact(s);
    if Trim(s) == "" {
      forall i | 0 <= i < |s| ensures IsWhitespace(s[i]) { assert s[i] in a + b; }
    } else {
      assert s[|a|] == Trim(s)[0];
    }
  }
}
