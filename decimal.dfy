/** Decimal text and integers as the bridge converts between them:
    `BigInt(s)`, `n.toString()`, BigInt division, and the gwei unit
    conversion (`toWei(x, "gwei")`, `fromWei(n, "gwei")`) of the Web3 library
    that the source-chain client uses to move between coin amounts written
    in decimal and integer satoshi. */
module Decimal {

  import opened Results
  import Js

  predicate IsDigit(c: char) {
    '0' <= c <= '9'
  }

  function DigitValue(c: char): nat {
    if IsDigit(c) then (c as int) - ('0' as int) else 0
  }

  function DigitChar(d: nat): (c: char)
    requires d < 10
    ensures IsDigit(c) && DigitValue(c) == d
  {
    (('0' as int) + d) as char
  }

  predicate AllDigits(s: string) {
    forall i :: 0 <= i < |s| ==> IsDigit(s[i])
  }

  function Pow10(k: nat): (p: nat)
    ensures p >= 1
  {
    if k == 0 then 1 else 10 * Pow10(k - 1)
  }

  /** The value of a string of decimal digits, most significant first. */
  function DigitsValue(s: string): nat {
    if |s| == 0 then 0 else DigitsValue(s[..|s| - 1]) * 10 + DigitValue(s[|s| - 1])
  }

  /** `n.toString()` for a non-negative integer. */
  function NatToString(n: nat): string
    decreases n
  {
    if n < 10 then [DigitChar(n)] else NatToString(n / 10) + [DigitChar(n % 10)]
  }

  /** `n.toString()` for a BigInt or an integral Number. */
  function IntToString(i: int): string {
    if i < 0 then "-" + NatToString(-i) else NatToString(i)
  }

  /** The characters `BigInt` trims from both ends of a string: the white
      space and line terminators of ECMAScript (sections 12.2 and 12.3 of
      ECMA-262), that is tab, vertical tab, form feed, the byte order mark,
      the space separators of Unicode, and the four line terminators. */
  predicate IsJsSpace(c: char) {
    || c == '\U{0009}' || c == '\U{000A}' || c == '\U{000B}' || c == '\U{000C}' || c == '\U{000D}'
    || c == '\U{0020}' || c == '\U{00A0}' || c == '\U{1680}' || ('\U{2000}' <= c <= '\U{200A}')
    || c == '\U{2028}' || c == '\U{2029}' || c == '\U{202F}' || c == '\U{205F}' || c == '\U{3000}'
    || c == '\U{FEFF}'
  }

  function TrimStart(s: string): (t: string)
    ensures |t| > 0 ==> !IsJsSpace(t[0])
  {
    if |s| > 0 && IsJsSpace(s[0]) then TrimStart(s[1..]) else s
  }

  function TrimEnd(s: string): (t: string)
    ensures |t| > 0 ==> !IsJsSpace(t[|t| - 1])
  {
    if |s| > 0 && IsJsSpace(s[|s| - 1]) then TrimEnd(s[..|s| - 1]) else s
  }

  /** `s.trim()`. */
  function Trim(s: string): string {
    TrimEnd(TrimStart(s))
  }

  /** The radix a `0x`, `0o` or `0b` prefix names (either case), or zero. */
  function RadixOf(c: char): nat {
    if c == 'x' || c == 'X' then 16
    else if c == 'o' || c == 'O' then 8
    else if c == 'b' || c == 'B' then 2
    else 0
  }

  /** The value of a hexadecimal digit of either case; 16 for any other
      character, which no radix admits. */
  function HexValue(c: char): nat {
    if IsDigit(c) then DigitValue(c)
    else if 'a' <= c <= 'f' then (c as int) - ('a' as int) + 10
    else if 'A' <= c <= 'F' then (c as int) - ('A' as int) + 10
    else 16
  }

  predicate RadixDigits(s: string, radix: nat) {
    forall i :: 0 <= i < |s| ==> HexValue(s[i]) < radix
  }

  /** The value of digits in `radix`, most significant first. */
  function RadixValue(s: string, radix: nat): nat {
    if |s| == 0 then 0 else RadixValue(s[..|s| - 1], radix) * radix + HexValue(s[|s| - 1])
  }

  /** The text after the trim names a non-decimal literal: `0`, a radix
      letter, and at least one more character. */
  predicate HasRadixPrefix(t: string) {
    |t| > 2 && t[0] == '0' && RadixOf(t[1]) > 0
  }

  /** An optional sign and at least one decimal digit. */
  predicate SignedDigits(t: string) {
    if |t| > 0 && (t[0] == '-' || t[0] == '+') then |t| > 1 && AllDigits(t[1..])
    else |t| > 0 && AllDigits(t)
  }

  function SignedValue(t: string): int
    requires SignedDigits(t)
  {
    if t[0] == '-' then -(DigitsValue(t[1..]) as int)
    else if t[0] == '+' then DigitsValue(t[1..])
    else DigitsValue(t)
  }

  /** `BigInt(s)` for a string (StringToBigInt of ECMA-262, section 7.1.14):
      after trimming white space at both ends, the empty string reads as
      zero, `0x`, `0o` or `0b` and digits in that radix as a non-negative
      value, and otherwise an optional sign and decimal digits; anything
      else is a SyntaxError. */
  function ParseBigInt(s: string): Result<int> {
    var t := Trim(s);
    if |t| == 0 then Ok(0)
    else if HasRadixPrefix(t) then
      if RadixDigits(t[2..], RadixOf(t[1])) then Ok(RadixValue(t[2..], RadixOf(t[1])))
      else Err("SyntaxError: Cannot convert " + s + " to a BigInt")
    else if SignedDigits(t) then Ok(SignedValue(t))
    else Err("SyntaxError: Cannot convert " + s + " to a BigInt")
  }

  /** `a / b` on BigInt: the quotient is truncated toward zero. */
  function TruncDiv(a: int, b: int): int
    requires b > 0
  {
    if a >= 0 then a / b else -((-a) / b)
  }

  // ---------------------------------------------------------------------
  // The gwei unit conversion (nine decimal places)

  const GWEI: nat := 1_000_000_000
  const GWEI_DIGITS: nat := 9

  function Zeros(k: nat): (z: string)
    ensures |z| == k
  {
    if k == 0 then "" else Zeros(k - 1) + "0"
  }

  function PadLeft(s: string, n: nat): (r: string)
    ensures |r| == if |s| < n then n else |s|
  {
    if |s| < n then Zeros(n - |s|) + s else s
  }

  function PadRight(s: string, n: nat): (r: string)
    ensures |r| == if |s| < n then n else |s|
  {
    if |s| < n then s + Zeros(n - |s|) else s
  }

  /** The `/^([0-9]*[1-9]|0)(0*)/` trim that `fromWei` applies to the
      fraction: the digits up to the last non-zero one, or "0". */
  function TrimFraction(t: string): string {
    if |t| == 0 then "0"
    else if t[|t| - 1] == '0' then TrimFraction(t[..|t| - 1])
    else t
  }

  /** The fraction `fromWei` prints for a remainder below one gwei. */
  function FractionDigits(r: nat): string {
    TrimFraction(PadLeft(NatToString(r), GWEI_DIGITS))
  }

  function UnsignedDecimal(whole: nat, frac: string): string {
    NatToString(whole) + (if frac == "0" then "" else "." + frac)
  }

  /** `fromWei(n, "gwei")`: the integer part, and the nine-digit fraction
      with its trailing zeros trimmed, left out when it is zero. */
  function GweiToDecimal(n: int): string {
    var m := if n < 0 then -n else n;
    var body := UnsignedDecimal(m / GWEI, FractionDigits(m % GWEI));
    if n < 0 then "-" + body else body
  }

  predicate NumberChar(c: char) {
    IsDigit(c) || c == '.'
  }

  /** The `/^-?[0-9.]+$/` shape that `toWei` demands of a string. */
  predicate MatchesNumber(s: string) {
    if |s| > 0 && s[0] == '-' then |s| > 1 && forall i :: 1 <= i < |s| ==> NumberChar(s[i])
    else |s| > 0 && forall i :: 0 <= i < |s| ==> NumberChar(s[i])
  }

  /** `toWei(s, "gwei")`: an optional minus sign and an unsigned amount. */
  function DecimalToGwei(s: string): Result<int> {
    if !MatchesNumber(s) then Err("while converting number to string, invalid number value '" + s + "'")
    else
      var negative := s[0] == '-';
      var v :- UnsignedToGwei(s, if negative then s[1..] else s);
      Ok(if negative then -v else v)
  }

  /** The unsigned part of `toWei`: split at the decimal point, an empty
      integer or fraction part reads as "0", at most nine decimal places. */
  function UnsignedToGwei(s: string, body: string): Result<int> {
    if body == "." then Err("while converting number " + s + " to wei, invalid value")
    else
      var parts := Js.Split(body, '.');
      if |parts| > 2 then Err("while converting number " + s + " to wei, too many decimal points")
      else
        var whole := if parts[0] == "" then "0" else parts[0];
        var fraction := if |parts| < 2 || parts[1] == "" then "0" else parts[1];
        if |fraction| > GWEI_DIGITS then Err("while converting number " + s + " to wei, too many decimal places")
        else Ok(DigitsValue(whole) * GWEI + FractionGwei(fraction))
  }

  /** The gwei a fraction of at most nine digits stands for: its digits
      padded with zeros to nine places (a lone "0" pads to zero). */
  function FractionGwei(fraction: string): nat {
    if fraction == "0" then 0 else DigitsValue(PadRight(fraction, GWEI_DIGITS))
  }

  // ---------------------------------------------------------------------
  // Lemmas

  lemma {:induction false} DigitsValueConcat(a: string, b: string)
    ensures DigitsValue(a + b) == DigitsValue(a) * Pow10(|b|) + DigitsValue(b)
    decreases |b|
  {
    if |b| == 0 {
      assert a + b == a;
    } else {
      var b' := b[..|b| - 1];
      assert (a + b)[..|a + b| - 1] == a + b';
      assert (a + b)[|a + b| - 1] == b[|b| - 1];
      DigitsValueConcat(a, b');
    }
  }

  lemma {:induction false} ZerosValue(k: nat)
    ensures DigitsValue(Zeros(k)) == 0 && AllDigits(Zeros(k))
  {
    if k > 0 {
      ZerosValue(k - 1);
      assert Zeros(k)[..k - 1] == Zeros(k - 1);
    }
  }

  lemma PadLeftValue(s: string, n: nat)
    requires AllDigits(s)
    ensures DigitsValue(PadLeft(s, n)) == DigitsValue(s) && AllDigits(PadLeft(s, n))
  {
    if |s| < n {
      var z := Zeros(n - |s|);
      ZerosValue(n - |s|);
      DigitsValueConcat(z, s);
      assert DigitsValue(z) * Pow10(|s|) == 0;
      PadLeftDigits(s, n);
    }
  }

  lemma PadLeftDigits(s: string, n: nat)
    requires AllDigits(s) && |s| < n
    ensures AllDigits(PadLeft(s, n))
  {
    var z := Zeros(n - |s|);
    ZerosValue(n - |s|);
    var r := z + s;
    assert forall i :: 0 <= i < |r| ==> r[i] == if i < |z| then z[i] else s[i - |z|];
  }

  lemma PadRightValue(s: string, n: nat)
    requires |s| <= n
    ensures DigitsValue(PadRight(s, n)) == DigitsValue(s) * Pow10(n - |s|)
  {
    if |s| < n {
      ZerosValue(n - |s|);
      DigitsValueConcat(s, Zeros(n - |s|));
    }
  }

  /** `toString` writes digits, and reading them back gives the number. */
  lemma {:induction false} NatToStringValue(n: nat)
    ensures AllDigits(NatToString(n)) && |NatToString(n)| >= 1
    ensures DigitsValue(NatToString(n)) == n
    decreases n
  {
    if n >= 10 {
      NatToStringValue(n / 10);
      var s := NatToString(n);
      assert s[..|s| - 1] == NatToString(n / 10);
    }
  }

  lemma {:induction false} NatToStringLength(n: nat, k: nat)
    requires k >= 1 && n < Pow10(k)
    ensures |NatToString(n)| <= k
    decreases n
  {
    if n >= 10 {
      NatToStringLength(n / 10, k - 1);
    }
  }

  /** A string that neither starts nor ends with white space is its own trim. */
  lemma TrimPlain(s: string)
    requires |s| > 0 && !IsJsSpace(s[0]) && !IsJsSpace(s[|s| - 1])
    ensures Trim(s) == s
  {
  }

  /** `BigInt(i.toString()) == i`. */
  lemma ParseIntToString(i: int)
    ensures ParseBigInt(IntToString(i)) == Ok(i)
  {
    var s := IntToString(i);
    var n: nat := if i < 0 then -i else i;
    NatToStringValue(n);
    if i < 0 {
      assert s[1..] == NatToString(n);
    }
    assert IsDigit(s[|s| - 1]);
    TrimPlain(s);
    assert |s| > 1 ==> IsDigit(s[1]);
    assert !HasRadixPrefix(s);
  }

  /** `BigInt` ignores white space around the literal. */
  lemma ParsePadded(before: string, s: string, after: string)
    requires forall k :: 0 <= k < |before| ==> IsJsSpace(before[k])
    requires forall k :: 0 <= k < |after| ==> IsJsSpace(after[k])
    requires |s| > 0 && !IsJsSpace(s[0]) && !IsJsSpace(s[|s| - 1])
    ensures ParseBigInt(before + s + after).Ok? <==> ParseBigInt(s).Ok?
    ensures ParseBigInt(s).Ok? ==> ParseBigInt(before + s + after) == ParseBigInt(s)
  {
    TrimStartSpaces(before, s + after);
    assert before + s + after == before + (s + after);
    assert TrimStart(s + after) == s + after by {
      assert (s + after)[0] == s[0];
    }
    TrimEndSpaces(s, after);
    TrimPlain(s);
  }

  lemma {:induction false} TrimStartSpaces(w: string, s: string)
    requires forall k :: 0 <= k < |w| ==> IsJsSpace(w[k])
    ensures TrimStart(w + s) == TrimStart(s)
    decreases |w|
  {
    if |w| == 0 {
      assert w + s == s;
    } else {
      assert (w + s)[0] == w[0];
      assert (w + s)[1..] == w[1..] + s;
      TrimStartSpaces(w[1..], s);
    }
  }

  lemma {:induction false} TrimEndSpaces(s: string, w: string)
    requires |s| > 0 && !IsJsSpace(s[|s| - 1])
    requires forall k :: 0 <= k < |w| ==> IsJsSpace(w[k])
    ensures TrimEnd(s + w) == s
    decreases |w|
  {
    if |w| == 0 {
      assert s + w == s;
    } else {
      var sw := s + w;
      assert sw[|sw| - 1] == w[|w| - 1];
      assert sw[..|sw| - 1] == s + w[..|w| - 1];
      TrimEndSpaces(s, w[..|w| - 1]);
    }
  }

  /** `BigInt("0x" + h)` reads the hexadecimal digits `h`. */
  lemma ParseHex(h: string)
    requires |h| > 0 && RadixDigits(h, 16)
    ensures ParseBigInt("0x" + h) == Ok(RadixValue(h, 16))
  {
    var s := "0x" + h;
    assert s[0] == '0' && s[1] == 'x' && s[2..] == h;
    assert HexValue(s[|s| - 1]) < 16;
    TrimPlain(s);
  }

  lemma IntToStringInjective(a: int, b: int)
    ensures IntToString(a) == IntToString(b) ==> a == b
  {
    ParseIntToString(a);
    ParseIntToString(b);
  }

  lemma DigitsHaveNoPoint(s: string)
    requires AllDigits(s)
    ensures '.' !in s
  {
    assert forall i :: 0 <= i < |s| ==> s[i] != '.';
  }

  lemma {:induction false} TrimFractionShape(t: string)
    requires AllDigits(t)
    ensures var f := TrimFraction(t);
      && |f| >= 1 && AllDigits(f)
      && (f == "0" ==> DigitsValue(t) == 0)
      && (f != "0" ==> |f| <= |t| && PadRight(f, |t|) == t)
    decreases |t|
  {
    if |t| > 0 {
      var t' := t[..|t| - 1];
      if t[|t| - 1] == '0' {
        TrimFractionShape(t');
        var f := TrimFraction(t');
        assert t == t' + "0";
        if f != "0" {
          assert PadRight(f, |t'|) == t';
          assert Zeros(|t| - |f|) == Zeros(|t'| - |f|) + "0";
          assert PadRight(f, |t|) == (f + Zeros(|t'| - |f|)) + "0";
        }
      } else {
        assert t != "0";
      }
    }
  }

  lemma SplitSingle(s: string, c: char)
    requires c !in s
    ensures Js.Split(s, c) == [s]
  {
    Js.SplitJoin([s], c);
  }

  lemma SplitPair(a: string, b: string, c: char)
    requires c !in a && c !in b
    ensures Js.Split(a + [c] + b, c) == [a, b]
  {
    assert Js.Join([a, b], c) == a + [c] + Js.Join([b], c);
    Js.SplitJoin([a, b], c);
  }

  lemma FractionDigitsShape(r: nat)
    requires r < GWEI
    ensures var f := FractionDigits(r);
      && |f| >= 1 && |f| <= GWEI_DIGITS && AllDigits(f)
      && (f == "0" ==> r == 0)
      && (f != "0" ==> DigitsValue(PadRight(f, GWEI_DIGITS)) == r)
  {
    var digits := NatToString(r);
    NatToStringValue(r);
    assert Pow10(9) == GWEI;
    NatToStringLength(r, 9);
    var t := PadLeft(digits, GWEI_DIGITS);
    PadLeftValue(digits, GWEI_DIGITS);
    TrimFractionShape(t);
  }

  /** A plain run of digits reads as that many whole coins. */
  lemma ReadsWhole(s: string, whole: string)
    requires AllDigits(whole) && |whole| >= 1
    ensures UnsignedToGwei(s, whole) == Ok(DigitsValue(whole) * GWEI)
  {
    DigitsHaveNoPoint(whole);
    assert whole != "." by {
      assert IsDigit(whole[0]);
    }
    SplitSingle(whole, '.');
  }

  /** Digits, a point and at most nine digits read as coins and gwei. */
  lemma ReadsWithFraction(s: string, whole: string, frac: string)
    requires AllDigits(whole) && |whole| >= 1
    requires AllDigits(frac) && 1 <= |frac| <= GWEI_DIGITS && frac != "0"
    ensures UnsignedToGwei(s, whole + ['.'] + frac) ==
      Ok(DigitsValue(whole) * GWEI + DigitsValue(PadRight(frac, GWEI_DIGITS)))
  {
    DigitsHaveNoPoint(whole);
    DigitsHaveNoPoint(frac);
    var body := whole + ['.'] + frac;
    assert body != "." by {
      assert body[0] == whole[0];
    }
    SplitPair(whole, frac, '.');
    ReadsPair(s, body, whole, frac);
  }

  lemma ReadsPair(s: string, body: string, whole: string, frac: string)
    requires body != "." && Js.Split(body, '.') == [whole, frac]
    requires whole != "" && frac != "" && frac != "0" && |frac| <= GWEI_DIGITS
    ensures UnsignedToGwei(s, body) == Ok(DigitsValue(whole) * GWEI + DigitsValue(PadRight(frac, GWEI_DIGITS)))
  {
  }

  lemma UnsignedDecimalReads(s: string, w: nat, r: nat)
    requires r < GWEI
    ensures UnsignedToGwei(s, UnsignedDecimal(w, FractionDigits(r))) == Ok(w * GWEI + r)
  {
    var frac := FractionDigits(r);
    FractionDigitsShape(r);
    var W := NatToString(w);
    NatToStringValue(w);
    if frac == "0" {
      assert UnsignedDecimal(w, frac) == W;
      ReadsWhole(s, W);
    } else {
      assert UnsignedDecimal(w, frac) == W + ['.'] + frac;
      ReadsWithFraction(s, W, frac);
    }
  }

  lemma UnsignedDecimalShape(w: nat, frac: string)
    requires AllDigits(frac)
    ensures var body := UnsignedDecimal(w, frac);
      |body| > 0 && IsDigit(body[0]) && forall i :: 0 <= i < |body| ==> NumberChar(body[i])
  {
    var W := NatToString(w);
    NatToStringValue(w);
    var body := UnsignedDecimal(w, frac);
    assert body[0] == W[0];
    forall i | 0 <= i < |body| ensures NumberChar(body[i]) {
      if i >= |W| + 1 {
        assert body[i] == frac[i - |W| - 1];
      }
    }
  }

  /** `toWei(fromWei(n, "gwei"), "gwei") == n` for every integer `n`. */
  lemma GweiRoundTrip(n: int)
    ensures DecimalToGwei(GweiToDecimal(n)) == Ok(n)
  {
    var m := if n < 0 then -n else n;
    var w, r := m / GWEI, m % GWEI;
    FractionDigitsShape(r);
    var body := UnsignedDecimal(w, FractionDigits(r));
    UnsignedDecimalShape(w, FractionDigits(r));
    var s := GweiToDecimal(n);
    UnsignedDecimalReads(s, w, r);
    if n < 0 {
      assert s[1..] == body;
    }
    assert MatchesNumber(s);
  }
}
