/** The JavaScript number conversions the pages use: template-literal
    rendering of an integer, `Number.parseInt`, `Number(string)` (the
    conversion behind `formData.target <= 0`) and `Math.round` of a
    percentage, all over exact integers and reals. */
module JsNumbers {
  import opened Wrappers
  import JsStrings

  // ------------------------------------------------------------ digits

  /** The value of `c` as a digit in any radix up to 36, or -1. */
  function DigitValue(c: char): int
  {
    if '0' <= c <= '9' then c as int - '0' as int
    else if 'a' <= c <= 'z' then c as int - 'a' as int + 10
    else if 'A' <= c <= 'Z' then c as int - 'A' as int + 10
    else -1
  }

  predicate IsDigit(c: char, radix: nat)
  {
    0 <= DigitValue(c) < radix
  }

  lemma DecimalDigitRange(c: char)
    requires IsDigit(c, 10)
    ensures '0' <= c <= '9'
  {
  }

  predicate AllDigits(s: string, radix: nat)
  {
    forall k :: 0 <= k < |s| ==> IsDigit(s[k], radix)
  }

  /** The longest prefix of `s` made of radix-`radix` digits. */
  function DigitRun(s: string, radix: nat): (r: string)
    ensures |r| <= |s| && r == s[..|r|]
    ensures AllDigits(r, radix)
    ensures |r| < |s| ==> !IsDigit(s[|r|], radix)
  {
    if s == [] || !IsDigit(s[0], radix) then ""
    else
      var t := DigitRun(s[1..], radix);
      assert [s[0]] + t == s[..|t| + 1];
      [s[0]] + t
  }

  /** A string of digits is its own longest digit prefix. */
  lemma DigitRunOfDigits(s: string, radix: nat)
    requires AllDigits(s, radix)
    ensures DigitRun(s, radix) == s
  {
    assert s[..|s|] == s;
  }

  /** The value of a digit string, most significant digit first. */
  function DigitsValue(ds: string, radix: nat): nat
    requires AllDigits(ds, radix)
  {
    if ds == [] then 0
    else DigitsValue(ds[..|ds| - 1], radix) * radix + DigitValue(ds[|ds| - 1]) as nat
  }

  function Pow10(e: nat): (p: nat)
    ensures p >= 1
  {
    if e == 0 then 1 else 10 * Pow10(e - 1)
  }

  function Pow2(e: nat): (p: nat)
    ensures p >= 1 && (e >= 1 ==> p >= 2)
  {
    if e == 0 then 1 else 2 * Pow2(e - 1)
  }

  lemma Pow2Monotone(a: nat, b: nat)
    requires a <= b
    ensures Pow2(a) <= Pow2(b)
    decreases b
  {
    if a < b {
      Pow2Monotone(a, b - 1);
    }
  }

  /** Ten to the e is at least two to the 3e, since 10 >= 8. */
  lemma {:induction false} Pow10AtLeastPow2(e: nat)
    ensures Pow10(e) >= Pow2(3 * e)
  {
    if e > 0 {
      Pow10AtLeastPow2(e - 1);
      assert Pow2(3 * e) == 8 * Pow2(3 * (e - 1)) by {
        assert Pow2(3 * e) == 2 * Pow2(3 * e - 1);
        assert Pow2(3 * e - 1) == 2 * Pow2(3 * e - 2);
        assert Pow2(3 * e - 2) == 2 * Pow2(3 * (e - 1));
      }
    }
  }

  // ------------------------------------------------ integer rendering

  function DecimalDigit(k: nat): (c: char)
    requires k < 10
    ensures IsDigit(c, 10) && DigitValue(c) == k
  {
    (('0' as int) + k) as char
  }

  /** `${n}` for a non-negative integer: its decimal digits, no leading zero. */
  function NatToString(n: nat): (s: string)
    ensures |s| >= 1 && AllDigits(s, 10)
    ensures |s| > 1 ==> s[0] != '0'
  {
    if n < 10 then [DecimalDigit(n)]
    else NatToString(n / 10) + [DecimalDigit(n % 10)]
  }

  /** `${n}` for an integer. */
  function IntToString(n: int): string
  {
    if n < 0 then "-" + NatToString(-n) else NatToString(n)
  }

  /** Reading the digits back gives the number. */
  lemma {:induction false} DigitsValueOfNatToString(n: nat)
    ensures DigitsValue(NatToString(n), 10) == n
  {
    var s := NatToString(n);
    if n >= 10 {
      DigitsValueOfNatToString(n / 10);
      assert s[..|s| - 1] == NatToString(n / 10);
    }
  }

  /** A rendered integer holds only digits and, in front, a minus sign. */
  lemma IntToStringCharacters(n: int)
    ensures forall k :: 0 <= k < |IntToString(n)| ==>
              IsDigit(IntToString(n)[k], 10) || (k == 0 && n < 0 && IntToString(n)[k] == '-')
  {
  }

  // ---------------------------------------------------- Number.parseInt

  /** `Number.parseInt(s)` with no radix argument: leading white space is
      skipped, one sign is read, a "0x"/"0X" prefix switches to
      hexadecimal, then the longest run of digits is read. `None` is NaN. */
  function ParseInt(s: string): Option<int>
  {
    var t := JsStrings.TrimStart(s);
    var negative := |t| > 0 && t[0] == '-';
    var u := if |t| > 0 && (t[0] == '-' || t[0] == '+') then t[1..] else t;
    var hex := |u| >= 2 && u[0] == '0' && (u[1] == 'x' || u[1] == 'X');
    var radix := if hex then 16 else 10;
    var body := if hex then u[2..] else u;
    var ds := DigitRun(body, radix);
    if ds == [] then None
    else
      var v: int := DigitsValue(ds, radix);
      Some(if negative then -v else v)
  }

  /** `parseInt` reads back what a template literal writes. */
  lemma ParseIntOfIntToString(n: int)
    ensures ParseInt(IntToString(n)) == Some(n)
  {
    var s := IntToString(n);
    var m: nat := if n < 0 then -n else n;
    var digits := NatToString(m);
    assert !JsStrings.IsWhitespace(s[0]);
    JsStrings.TrimStartUnchanged(s);
    var u := if n < 0 then s[1..] else s;
    assert u == digits;
    assert !(|u| >= 2 && u[0] == '0');
    DigitRunOfDigits(digits, 10);
    DigitsValueOfNatToString(m);
  }

  /** A string whose first non-blank character, after an optional sign, is
      not a digit parses to NaN. */
  lemma ParseIntNaN(s: string)
    requires var t := JsStrings.TrimStart(s);
             var u := if |t| > 0 && (t[0] == '-' || t[0] == '+') then t[1..] else t;
             u == [] || !IsDigit(u[0], 10)
    ensures ParseInt(s).None?
  {
  }

  // ---------------------------------------------------- Number(string)

  /** A JavaScript number as far as the comparisons here can see it. */
  datatype JsNumber = Finite(value: real) | Infinite(negative: bool) | NaN

  /** `x <= 0` in JavaScript: false whenever `x` is NaN. */
  predicate AtMostZero(x: JsNumber)
  {
    match x
    case Finite(v) => v <= 0.0
    case Infinite(negative) => negative
    case NaN => false
  }

  /** The exponent part of a decimal literal ("e", "e+3", "E-2"); `e` must
      be the whole remainder of the string. */
  function Exponent(e: string): Option<int>
  {
    if e == [] then Some(0)
    else if e[0] != 'e' && e[0] != 'E' then None
    else
      var f := e[1..];
      var negative := |f| > 0 && f[0] == '-';
      var g := if |f| > 0 && (f[0] == '-' || f[0] == '+') then f[1..] else f;
      var ds := DigitRun(g, 10);
      if ds == [] || |ds| != |g| then None
      else
        var v: int := DigitsValue(ds, 10);
        Some(if negative then -v else v)
  }

  /** The value of the digits after a decimal point. */
  function Fraction(fp: string): real
    requires AllDigits(fp, 10)
  {
    (DigitsValue(fp, 10) as real) / (Pow10(|fp|) as real)
  }

  function Scale(x: real, e: int): real
  {
    if e >= 0 then x * (Pow10(e) as real) else x / (Pow10(-e) as real)
  }

  /** A StrUnsignedDecimalLiteral: digits, an optional fraction, an
      optional exponent; at least one digit before or after the point. */
  function UnsignedDecimal(u: string): Option<real>
  {
    var ip := DigitRun(u, 10);
    var r1 := u[|ip|..];
    var hasPoint := |r1| > 0 && r1[0] == '.';
    var fp := if hasPoint then DigitRun(r1[1..], 10) else "";
    var r2 := if hasPoint then r1[1 + |fp|..] else r1;
    if |ip| + |fp| == 0 then None
    else
      match Exponent(r2)
      case None => None
      case Some(e) =>
        var mantissa := DigitsValue(ip, 10) as real + Fraction(fp);
        Some(Scale(mantissa, e))
  }

  /** A "0x", "0o" or "0b" prefix (either case) of a non-decimal literal. */
  predicate RadixPrefix(t: string)
  {
    |t| >= 2 && t[0] == '0' && t[1] in "xXoObB"
  }

  /** A NonDecimalIntegerLiteral: the prefix, then nothing but digits. */
  function NonDecimal(t: string): JsNumber
    requires RadixPrefix(t)
  {
    var radix := if t[1] in "xX" then 16 else if t[1] in "oO" then 8 else 2;
    var ds := DigitRun(t[2..], radix);
    if ds == [] || |ds| != |t| - 2 then NaN else Finite(DigitsValue(ds, radix) as real)
  }

  /** Half the smallest positive double, 2^-1075. A literal whose magnitude
      is at most this rounds to zero (the tie at 2^-1075 goes to the even
      neighbour 0); a larger one rounds to a double that is not zero and
      has the same sign. */
  const UnderflowBound: real := 1.0 / (Pow2(1075) as real)

  /** The underflow of the conversion to a double: a value too small for
      the smallest double becomes 0, every other value keeps its sign and
      stays non-zero. Rounding between doubles is not modelled. */
  function Underflow(v: real): (r: real)
    ensures r == 0.0 <==> -UnderflowBound <= v <= UnderflowBound
    ensures r != 0.0 ==> r == v
  {
    if -UnderflowBound <= v <= UnderflowBound then 0.0 else v
  }

  /** An integer never underflows. */
  lemma UnderflowOfInteger(n: int)
    ensures Underflow(n as real) == n as real
  {
    assert UnderflowBound < 1.0;
  }

  /** A StrDecimalLiteral: an optional sign, then "Infinity" or an unsigned
      decimal literal. */
  function SignedDecimal(t: string): JsNumber
    requires t != []
  {
    var negative := t[0] == '-';
    var u := if t[0] == '-' || t[0] == '+' then t[1..] else t;
    if u == "Infinity" then Infinite(negative)
    else
      match UnsignedDecimal(u)
      case None => NaN
      case Some(v) => Finite(Underflow(if negative then -v else v))
  }

  /** `Number(s)`: surrounding white space is ignored, the empty string is
      0, a signed decimal literal or "Infinity" is read, and "0x", "0o",
      "0b" introduce unsigned integer literals; anything else is NaN. */
  function ToNumber(s: string): JsNumber
  {
    var t := JsStrings.Trim(s);
    if t == [] then Finite(0.0)
    else if RadixPrefix(t) then NonDecimal(t)
    else SignedDecimal(t)
  }

  /** A plain digit string is an unsigned decimal literal with its own value. */
  lemma UnsignedDecimalOfDigits(u: string)
    requires |u| >= 1 && AllDigits(u, 10)
    ensures UnsignedDecimal(u) == Some(DigitsValue(u, 10) as real)
  {
    DigitRunOfDigits(u, 10);
    assert u[|u|..] == "";
    assert Exponent("") == Some(0);
    FractionOfNothing();
    ScaleOfWhole(DigitsValue(u, 10) as real, Fraction(""));
  }

  lemma FractionOfNothing()
    ensures Fraction("") == 0.0
  {
    assert DigitsValue("", 10) == 0 && Pow10(0) == 1;
  }

  /** A mantissa without fraction and without exponent is the integer. */
  lemma ScaleOfWhole(whole: real, fraction: real)
    requires fraction == 0.0
    ensures Scale(whole + fraction, 0) == whole
  {
    assert Pow10(0) == 1;
  }

  /** Trimming leaves a string alone whose ends are not white space. */
  lemma TrimOfDigits(s: string)
    requires |s| >= 1 && AllDigits(s, 10)
    ensures JsStrings.Trim(s) == s
  {
    DecimalDigitRange(s[0]);
    DecimalDigitRange(s[|s| - 1]);
    assert !JsStrings.IsWhitespace(s[0]) && !JsStrings.IsWhitespace(s[|s| - 1]);
    JsStrings.TrimUnchanged(s);
  }

  /** A digit string is a signed decimal literal with its own value. */
  lemma SignedDecimalOfDigits(s: string)
    requires |s| >= 1 && AllDigits(s, 10)
    ensures SignedDecimal(s) == Finite(DigitsValue(s, 10) as real)
  {
    assert IsDigit(s[0], 10);
    DecimalDigitRange(s[0]);
    assert s != "Infinity" by { assert "Infinity"[0] == 'I'; }
    UnsignedDecimalOfDigits(s);
    UnderflowOfInteger(DigitsValue(s, 10));
  }

  lemma ToNumberOfTrimmed(s: string)
    requires |s| >= 1 && AllDigits(s, 10) && !RadixPrefix(s)
    ensures ToNumber(s) == SignedDecimal(s)
  {
    TrimOfDigits(s);
  }

  /** A digit string that does not start like "0x" converts to its own value. */
  lemma ToNumberOfDigits(s: string)
    requires |s| >= 1 && AllDigits(s, 10) && !RadixPrefix(s)
    ensures ToNumber(s) == Finite(DigitsValue(s, 10) as real)
  {
    calc {
      ToNumber(s);
      { ToNumberOfTrimmed(s); }
      SignedDecimal(s);
      { SignedDecimalOfDigits(s); }
      Finite(DigitsValue(s, 10) as real);
    }
  }

  /** The decimal rendering of a natural number converts back to it. */
  lemma ToNumberOfNatToString(n: nat)
    ensures ToNumber(NatToString(n)) == Finite(n as real)
  {
    var s := NatToString(n);
    assert !RadixPrefix(s);
    ToNumberOfDigits(s);
    DigitsValueOfNatToString(n);
  }

  /** The empty string converts to 0. */
  lemma ToNumberOfEmpty()
    ensures ToNumber("") == Finite(0.0)
  {
    assert JsStrings.Trim("") == "";
  }

  /** A Latin letter other than 'I' (which could begin "Infinity"). */
  predicate StartsWord(c: char)
  {
    ('a' <= c <= 'z' || 'A' <= c <= 'Z') && c != 'I'
  }

  /** Text that, once trimmed, starts with a letter other than 'I' is not
      a numeric literal: it converts to NaN. */
  lemma ToNumberOfWord(s: string)
    requires JsStrings.Trim(s) != [] && StartsWord(JsStrings.Trim(s)[0])
    ensures ToNumber(s) == NaN
  {
    var t := JsStrings.Trim(s);
    assert !RadixPrefix(t);
    assert t[0] != '-' && t[0] != '+';
    assert t != "Infinity" by { assert "Infinity"[0] == 'I'; }
    UnsignedDecimalOfWord(t);
  }

  lemma UnsignedDecimalOfWord(u: string)
    requires u != [] && StartsWord(u[0])
    ensures UnsignedDecimal(u) == None
  {
    assert DigitValue(u[0]) >= 10;
    var ip := DigitRun(u, 10);
    assert ip == [];
    assert u[|ip|..] == u;
  }

  /** The word "abc" converts to NaN. */
  lemma ToNumberOfAbc()
    ensures ToNumber("abc") == NaN
  {
    var w := "abc";
    assert !JsStrings.IsWhitespace(w[0]) && !JsStrings.IsWhitespace(w[2]);
    JsStrings.TrimUnchanged(w);
    ToNumberOfWord(w);
  }

  /** `1e-400` is below the smallest double: it converts to 0. */
  lemma ToNumberOfTinyLiteral()
    ensures ToNumber("1e-400") == Finite(0.0)
  {
    var t := "1e-400";
    assert !JsStrings.IsWhitespace(t[0]) && !JsStrings.IsWhitespace(t[5]);
    JsStrings.TrimUnchanged(t);
    assert !RadixPrefix(t) && t[0] != '-' && t[0] != '+';
    assert t != "Infinity" by { assert "Infinity"[0] == 'I'; }
    assert UnsignedDecimal(t) == Some(1.0 / (Pow10(400) as real)) by {
      UnsignedDecimalOfTiny();
    }
    TinyUnderflows();
  }

  lemma UnsignedDecimalOfTiny()
    ensures UnsignedDecimal("1e-400") == Some(1.0 / (Pow10(400) as real))
  {
    var u := "1e-400";
    assert DigitRun(u[1..], 10) == "" by { assert DigitValue(u[1]) >= 10; }
    assert DigitRun(u, 10) == "1";
    assert u[1..] == "e-400";
    var ds := "400";
    DigitRunOfDigits(ds, 10);
    assert DigitsValue(ds, 10) == 400 by {
      assert ds[..2] == "40" && "40"[..1] == "4" && "4"[..0] == "";
      assert DigitsValue("4", 10) == 4;
      assert DigitsValue("40", 10) == 40;
    }
    assert "e-400"[1..] == "-400" && "-400"[1..] == ds;
    assert Exponent("e-400") == Some(-400);
    assert DigitsValue("1", 10) == 1 by { assert "1"[..0] == ""; }
    FractionOfNothing();
  }

  /** 10^-400 is at most 2^-1075. */
  lemma TinyUnderflows()
    ensures Underflow(1.0 / (Pow10(400) as real)) == 0.0
  {
    Pow10AtLeastPow2(400);
    Pow2Monotone(1075, 1200);
    UnderflowOfReciprocal(Pow10(400));
  }

  /** The reciprocal of a number at least 2^1075 underflows. */
  lemma UnderflowOfReciprocal(a: nat)
    requires a >= Pow2(1075)
    ensures Underflow(1.0 / (a as real)) == 0.0
  {
    DivideAntitone(a as real, Pow2(1075) as real);
  }

  lemma DivideAntitone(a: real, b: real)
    requires a >= b > 0.0
    ensures 1.0 / a <= 1.0 / b
  {
    assert 1.0 / a * a == 1.0 && 1.0 / b * b == 1.0;
    assert 1.0 / a * b <= 1.0 / a * a;
  }

  // --------------------------------------------------------- Math.round

  /** `Math.round(part / whole * 100)` computed exactly: the integer nearest
      to the percentage, halves rounded up. */
  function RoundedPercent(part: nat, whole: nat): (r: int)
    requires whole > 0
    ensures whole * (2 * r - 1) <= 200 * part < whole * (2 * r + 1)
    ensures part <= whole ==> 0 <= r <= 100
  {
    NearestFacts(part, whole);
    (200 * part + whole) / (2 * whole)
  }

  /** All of the whole is 100 percent and none of it 0 percent. */
  lemma RoundedPercentExtremes(whole: nat)
    requires whole > 0
    ensures RoundedPercent(whole, whole) == 100
    ensures RoundedPercent(0, whole) == 0
  {
    var all := RoundedPercent(whole, whole);
    assert 200 * whole == whole * 200;
    CancelFactor(whole, 200, 2 * all + 1);
    var none := RoundedPercent(0, whole);
    assert 200 * 0 == whole * 0;
    CancelFactor(whole, 2 * none - 1, 0);
  }

  /** A positive factor can be cancelled from a strict inequality. */
  lemma CancelFactor(w: int, x: int, y: int)
    requires w > 0 && w * x < w * y
    ensures x < y
  {
    var d := y - x;
    assert w * y == w * x + w * d;
  }

  lemma NearestFacts(part: nat, whole: nat)
    requires whole > 0
    ensures var q := (200 * part + whole) / (2 * whole);
            whole * (2 * q - 1) <= 200 * part < whole * (2 * q + 1)
            && (part <= whole ==> 0 <= q <= 100)
  {
    var q := (200 * part + whole) / (2 * whole);
    var rem := (200 * part + whole) % (2 * whole);
    var wq := whole * q;
    assert 200 * part + whole == (2 * whole) * q + rem;
    assert (2 * whole) * q == 2 * wq;
    assert 0 <= rem < 2 * whole;
    assert whole * (2 * q - 1) == 2 * wq - whole;
    assert whole * (2 * q + 1) == 2 * wq + whole;
    assert 0 <= q;
    if part <= whole {
      assert 2 * wq <= 201 * whole;
      assert whole * 101 == 101 * whole;
      FactorBound(whole, q, 100);
    }
  }

  /** Dividing a bound by a positive factor. */
  lemma FactorBound(w: int, a: int, b: int)
    requires w > 0 && 2 * (w * a) <= (2 * b + 1) * w
    ensures a <= b
  {
    var d := a - b;
    assert (2 * b + 1) * w == 2 * (w * b) + w;
    assert w * a == w * b + w * d;
    assert 2 * (w * d) <= w;
  }
}
