/**
 * The color codec: `hexToRgb` and `rgbToHex` of colorql.ts.
 *
 * A color code is `#` followed by six hex digits. `rgbToHex` builds the
 * number 2^24 + r*2^16 + g*2^8 + b, prints it in base 16 (always seven
 * lower-case digits, the first being `1`) and drops that leading `1`.
 * `hexToRgb` parses the digits and masks out three 8-bit channels.
 */
module Codec {
  import opened Wrappers

  /** An 8-bit channel value. */
  type Byte = x: int | 0 <= x < 256

  datatype Rgb = Rgb(r: Byte, g: Byte, b: Byte)

  predicate IsHexDigit(c: char) {
    '0' <= c <= '9' || 'a' <= c <= 'f' || 'A' <= c <= 'F'
  }

  predicate IsLowerHexDigit(c: char) {
    '0' <= c <= '9' || 'a' <= c <= 'f'
  }

  predicate AllHex(s: string) {
    forall i :: 0 <= i < |s| ==> IsHexDigit(s[i])
  }

  /** The value of one hex digit; both letter cases are accepted, as by `parseInt(_, 16)`. */
  function DigitValue(c: char): (d: nat)
    requires IsHexDigit(c)
    ensures d < 16
  {
    if '0' <= c <= '9' then c as int - '0' as int
    else if 'a' <= c <= 'f' then c as int - 'a' as int + 10
    else c as int - 'A' as int + 10
  }

  /** The digit `Number.prototype.toString(16)` prints for `d`: always lower case. */
  function Digit(d: nat): (c: char)
    requires d < 16
    ensures IsLowerHexDigit(c) && IsHexDigit(c) && DigitValue(c) == d
  {
    if d < 10 then ('0' as int + d) as char else ('a' as int + d - 10) as char
  }

  function LowerChar(c: char): char {
    if 'A' <= c <= 'F' then (c as int - 'A' as int + 'a' as int) as char else c
  }

  /** The case normalisation the codec applies: upper-case hex letters become lower case. */
  function Lower(s: string): string {
    if s == [] then [] else Lower(s[..|s| - 1]) + [LowerChar(s[|s| - 1])]
  }

  /** The number a string of hex digits denotes, most significant digit first. */
  function HexValue(s: string): nat
    requires AllHex(s)
  {
    if s == [] then 0 else HexValue(s[..|s| - 1]) * 16 + DigitValue(s[|s| - 1])
  }

  function Pow16(k: nat): (p: nat)
    ensures p >= 1
  {
    if k == 0 then 1 else 16 * Pow16(k - 1)
  }

  /** `n.toString(16)`: the base-16 numeral of `n`, in lower case. */
  function ToHexString(n: nat): (s: string)
    ensures |s| > 0
    decreases n
  {
    if n < 16 then [Digit(n)] else ToHexString(n / 16) + [Digit(n % 16)]
  }

  /** The numeral printed for `n` is lower case, denotes `n`, and has no leading zero unless it is `"0"`. */
  lemma {:induction false} ToHexStringSpec(n: nat)
    ensures var s := ToHexString(n);
      && AllHex(s)
      && (forall i :: 0 <= i < |s| ==> IsLowerHexDigit(s[i]))
      && HexValue(s) == n
      && (n > 0 ==> DigitValue(s[0]) != 0)
    decreases n
  {
    if n >= 16 {
      ToHexStringSpec(n / 16);
      var s := ToHexString(n);
      var u := ToHexString(n / 16);
      assert s == u + [Digit(n % 16)];
      assert s[..|s| - 1] == u;
      assert s[0] == u[0];
    }
  }

  /**
   * `hexToRgb` applied to the six digits of a code: parse them as one number
   * and take bits 16..23, 8..15 and 0..7 (`>> 16 & 255`, `>> 8 & 255`,
   * `& 255`; for a value below 2^24 these are `/` and `%` by powers of two).
   * A string that is not six hex digits has no channels here.
   */
  function HexToRgb(digits: string): (c: Option<Rgb>)
    ensures c.Some? <==> |digits| == 6 && AllHex(digits)
    ensures c.Some? ==> HexValue(digits) == c.value.r * 0x10000 + c.value.g * 0x100 + c.value.b
  {
    if |digits| == 6 && AllHex(digits) then
      var n := HexValue(digits);
      HexValueBound(digits);
      Pow16Six();
      Split(n);
      Some(Rgb((n / 0x10000) % 256, (n / 0x100) % 256, n % 256))
    else None
  }

  /** A color code: `#` and six hex digits, decoded by `hexToRgb` on the digits. */
  function Decode(code: string): (c: Option<Rgb>)
    ensures c.Some? <==> |code| == 7 && code[0] == '#' && AllHex(code[1..])
  {
    if |code| == 7 && code[0] == '#' then HexToRgb(code[1..]) else None
  }

  /**
   * `rgbToHex(r, g, b)`: `"#" + (1 << 24 | r << 16 | g << 8 | b).toString(16).slice(1)`.
   * For channels in 0..255 the four operands of `|` occupy disjoint bits, so the
   * `|` is a sum.
   */
  function RgbToHex(c: Rgb): string {
    "#" + ToHexString(0x1000000 + c.r * 0x10000 + c.g * 0x100 + c.b)[1..]
  }

  /** Every code `RgbToHex` builds is `#` and exactly six lower-case digits. */
  lemma RgbToHexFormat(c: Rgb)
    ensures var code := RgbToHex(c);
      |code| == 7 && code[0] == '#' && forall i :: 1 <= i < 7 ==> IsLowerHexDigit(code[i])
  {
    var n := 0x1000000 + c.r * 0x10000 + c.g * 0x100 + c.b;
    var s := ToHexString(n);
    SevenDigits(s, n);
    ToHexStringSpec(n);
    var code := RgbToHex(c);
    forall i | 1 <= i < 7 ensures IsLowerHexDigit(code[i]) {
      assert code[i] == s[i];
    }
  }

  /** `Decode` inverts `RgbToHex`: every colour survives the round trip. */
  lemma DecodeEncode(c: Rgb)
    ensures Decode(RgbToHex(c)) == Some(c)
  {
    var n := 0x1000000 + c.r * 0x10000 + c.g * 0x100 + c.b;
    var s := ToHexString(n);
    SevenDigits(s, n);
    ToHexStringSpec(n);
    var d := s[1..];
    var code := RgbToHex(c);
    assert code == "#" + d;
    assert |code| == 7 && code[0] == '#' && code[1..] == d;
    assert AllHex(d) by {
      forall i | 0 <= i < |d| ensures IsHexDigit(d[i]) {
        assert d[i] == s[i + 1];
      }
    }
    var v := c.r * 0x10000 + c.g * 0x100 + c.b;
    assert HexValue(d) == v;
    Channels(c.r, c.g, c.b);
    assert HexToRgb(d) == Some(Rgb((v / 0x10000) % 256, (v / 0x100) % 256, v % 256));
  }

  /** The byte extractions of `hexToRgb` recover the three channels packed by `rgbToHex`. */
  lemma Channels(r: Byte, g: Byte, b: Byte)
    ensures var n := r * 0x10000 + g * 0x100 + b;
      (n / 0x10000) % 256 == r && (n / 0x100) % 256 == g && n % 256 == b
  {
  }

  /** Multiplying by 16 appends a `0` digit. */
  lemma ShiftDigit(m: nat)
    requires m >= 1
    ensures ToHexString(16 * m) == ToHexString(m) + "0"
  {
    assert (16 * m) / 16 == m && (16 * m) % 16 == 0;
    assert Digit(0) == '0';
  }

  /** `16^k` is printed as `1` followed by k zeros. */
  lemma {:induction false} PowerNumeral(k: nat)
    ensures ToHexString(Pow16(k)) == "1" + seq(k, _ => '0')
  {
    if k > 0 {
      PowerNumeral(k - 1);
      ShiftDigit(Pow16(k - 1));
      assert "1" + seq(k, _ => '0') == "1" + seq(k - 1, _ => '0') + "0";
    }
  }

  /** `rgbToHex(0, 0, 0)` is `#000000`. */
  lemma BlackCode()
    ensures RgbToHex(Rgb(0, 0, 0)) == "#000000"
  {
    Pow16Six();
    PowerNumeral(6);
    var s := ToHexString(Pow16(6));
    assert s[1..] == seq(6, _ => '0');
  }

  /** A number below 2^24 is the sum of its three bytes, R high and B low. */
  lemma Split(n: nat)
    requires n < 0x1000000
    ensures (n / 0x10000) % 256 < 256 && (n / 0x100) % 256 < 256 && n % 256 < 256
    ensures n == ((n / 0x10000) % 256) * 0x10000 + ((n / 0x100) % 256) * 0x100 + n % 256
  {
    var r, m := n / 0x10000, n % 0x10000;
    var g, b := m / 0x100, m % 0x100;
    assert n == (r * 0x100 + g) * 0x100 + b;
    assert n / 0x100 == r * 0x100 + g && n % 0x100 == b;
    assert (n / 0x100) % 256 == g && n % 256 == b;
    assert r < 256;
  }

  /** `RgbToHex` inverts `Decode` up to letter case. */
  lemma {:induction false} EncodeDecode(code: string)
    requires Decode(code).Some?
    ensures RgbToHex(Decode(code).value) == "#" + Lower(code[1..])
  {
    var d := code[1..];
    var c := Decode(code).value;
    var t := ['1'] + d;
    assert t[1..] == d;
    assert AllHex(t);
    HexValueCons(t);
    assert HexValue(t) == 0x1000000 + HexValue(d) by { Pow16Six(); }
    assert HexValue(t) == 0x1000000 + c.r * 0x10000 + c.g * 0x100 + c.b;
    ToHexStringOfHexValue(t);
    LowerCons('1', d);
    assert ToHexString(HexValue(t)) == ['1'] + Lower(d);
    assert (['1'] + Lower(d))[1..] == Lower(d);
  }

  // ----- helper lemmas about hex numerals -----

  lemma Pow16Six()
    ensures Pow16(6) == 0x1000000 && Pow16(7) == 0x10000000
  {
    assert Pow16(1) == 16;
    assert Pow16(2) == 256;
    assert Pow16(3) == 4096;
    assert Pow16(4) == 65536;
    assert Pow16(5) == 1048576;
  }

  lemma {:induction false} Pow16Monotone(i: nat, j: nat)
    requires i <= j
    ensures Pow16(i) <= Pow16(j)
    decreases j
  {
    if i < j { Pow16Monotone(i, j - 1); }
  }

  lemma {:induction false} HexValueBound(s: string)
    requires AllHex(s)
    ensures HexValue(s) < Pow16(|s|)
    decreases |s|
  {
    if s != [] {
      var u := s[..|s| - 1];
      HexValueBound(u);
    }
  }

  /** Splitting off the most significant digit. */
  lemma {:induction false} HexValueCons(s: string)
    requires |s| > 0 && AllHex(s)
    ensures HexValue(s) == DigitValue(s[0]) * Pow16(|s| - 1) + HexValue(s[1..])
    decreases |s|
  {
    if |s| > 1 {
      var u := s[..|s| - 1];
      var w := s[1..];
      assert AllHex(u);
      HexValueCons(u);
      assert u[0] == s[0] && |u| - 1 == |s| - 2;
      assert u[1..] == w[..|w| - 1];
      assert w[|w| - 1] == s[|s| - 1];
      Regroup(DigitValue(s[0]), Pow16(|s| - 2), HexValue(u[1..]), DigitValue(s[|s| - 1]));
    } else {
      assert s[..0] == [];
      assert s[1..] == [];
    }
  }

  lemma Regroup(a: int, p: int, h: int, d: int)
    ensures (a * p + h) * 16 + d == a * (16 * p) + (h * 16 + d)
  {
  }

  /** A numeral without leading zero denotes at least 16^(length - 1). */
  lemma LeadingDigitBound(s: string)
    requires |s| > 0 && AllHex(s) && DigitValue(s[0]) != 0
    ensures HexValue(s) >= Pow16(|s| - 1)
  {
    HexValueCons(s);
    MulAtLeast(DigitValue(s[0]), Pow16(|s| - 1));
  }

  lemma MulAtLeast(a: int, p: int)
    requires a >= 1 && p >= 0
    ensures a * p >= p
  {
    assert a * p == p + (a - 1) * p;
  }

  /** The numeral printed for 2^24 + v, v < 2^24, has seven digits and starts with `1`. */
  lemma SevenDigits(s: string, n: nat)
    requires 0x1000000 <= n < 0x2000000
    requires s == ToHexString(n)
    ensures |s| == 7 && s[0] == '1'
    ensures AllHex(s[1..]) && HexValue(s[1..]) == n - 0x1000000
  {
    ToHexStringSpec(n);
    Pow16Six();
    HexValueBound(s);
    LeadingDigitBound(s);
    if |s| < 7 {
      Pow16Monotone(|s|, 6);
    } else if |s| > 7 {
      Pow16Monotone(7, |s| - 1);
    }
    assert |s| == 7;
    HexValueCons(s);
    HexValueBound(s[1..]);
    assert HexValue(s) == DigitValue(s[0]) * 0x1000000 + HexValue(s[1..]);
    assert DigitValue(s[0]) == 1;
  }

  lemma DigitOfValue(c: char)
    requires IsHexDigit(c)
    ensures Digit(DigitValue(c)) == LowerChar(c)
  {
  }

  lemma {:induction false} LowerCons(c: char, s: string)
    ensures Lower([c] + s) == [LowerChar(c)] + Lower(s)
    decreases |s|
  {
    if s != [] {
      var u := s[..|s| - 1];
      assert ([c] + s)[..|s|] == [c] + u;
      LowerCons(c, u);
    } else {
      assert ([c] + s)[..0] == [];
    }
  }

  /** Printing the value of a numeral without leading zero gives the numeral in lower case. */
  lemma {:induction false} ToHexStringOfHexValue(t: string)
    requires |t| > 0 && AllHex(t) && DigitValue(t[0]) != 0
    ensures ToHexString(HexValue(t)) == Lower(t)
    decreases |t|
  {
    var u := t[..|t| - 1];
    var c := t[|t| - 1];
    if |t| == 1 {
      assert u == [];
      DigitOfValue(c);
      assert Lower(t) == Lower([]) + [LowerChar(c)];
    } else {
      assert u[0] == t[0];
      ToHexStringOfHexValue(u);
      HexValueCons(u);
      var x := HexValue(u);
      assert x >= 1;
      assert HexValue(t) == x * 16 + DigitValue(c);
      assert (x * 16 + DigitValue(c)) / 16 == x;
      assert (x * 16 + DigitValue(c)) % 16 == DigitValue(c);
      DigitOfValue(c);
    }
  }

  // ----- as written -----

  /** Length of the longest prefix of hex digits: how far `parseInt(_, 16)` reads. */
  function HexPrefixLength(s: string): (k: nat)
    ensures k <= |s| && AllHex(s[..k])
    ensures k < |s| ==> !IsHexDigit(s[k])
  {
    if s == [] || !IsHexDigit(s[0]) then 0
    else
      var k := 1 + HexPrefixLength(s[1..]);
      assert s[..k] == [s[0]] + s[1..][..k - 1];
      k
  }

  /**
   * `hexToRgb` exactly as called: the whole `#`-prefixed code goes to
   * `parseInt(hex, 16)`. With no leading hex digit `parseInt` gives `NaN`, and
   * every bitwise operator turns `NaN` into 0. (Leading white space, a sign
   * and a `0x` prefix, which `parseInt` also accepts, are not modelled.)
   */
  function HexToRgbAsWritten(hex: string): Rgb {
    var k := HexPrefixLength(hex);
    if k == 0 then Rgb(0, 0, 0)
    else
      var n := HexValue(hex[..k]);
      Rgb((n / 0x10000) % 256, (n / 0x100) % 256, n % 256)
  }

  /** As written, every well-formed color code decodes to channels (0, 0, 0). */
  lemma HexToRgbAsWrittenIgnoresCode(code: string)
    requires Decode(code).Some?
    ensures HexToRgbAsWritten(code) == Rgb(0, 0, 0)
    ensures Decode(code).value != Rgb(0, 0, 0) ==> HexToRgbAsWritten(code) != Decode(code).value
  {
  }

  /** A concrete code on which the two disagree: R channel 5 is read as 0. */
  lemma HexToRgbAsWrittenCounterexample()
    ensures Decode("#050000") == Some(Rgb(5, 0, 0))
    ensures HexToRgbAsWritten("#050000") == Rgb(0, 0, 0)
  {
    var d := "050000";
    assert "#050000"[1..] == d;
    assert d[..1][..0] == [] && d[..2][..1] == d[..1] && d[..3][..2] == d[..2];
    assert d[..4][..3] == d[..3] && d[..5][..4] == d[..4] && d[..5] == d[..|d| - 1];
    assert HexValue(d[..1]) == 0;
    assert HexValue(d[..2]) == 5;
    assert HexValue(d[..3]) == 80;
    assert HexValue(d[..4]) == 1280;
    assert HexValue(d[..5]) == 20480;
    assert HexValue(d) == 327680;
  }

  /** Given the six digits alone, the source's parsing is exactly `HexToRgb`: only the `#` breaks it. */
  lemma {:induction false} HexToRgbAsWrittenOnDigits(digits: string)
    requires HexToRgb(digits).Some?
    ensures HexToRgbAsWritten(digits) == HexToRgb(digits).value
  {
    AllHexPrefix(digits);
    assert digits[..6] == digits;
  }

  lemma {:induction false} AllHexPrefix(s: string)
    requires AllHex(s)
    ensures HexPrefixLength(s) == |s|
    decreases |s|
  {
    if s != [] { AllHexPrefix(s[1..]); }
  }
}
