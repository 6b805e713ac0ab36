/** The number texts of the fleet file: Java's `%d` and `%.2f` renderings
    and the `Integer.parseInt` / `Double.parseDouble` parsers that read them
    back, on the decimal forms (no exponents, hexadecimal or NaN). */
module Numbers {
  import opened Errors
  import opened Text

  const IntMin: int := -0x8000_0000
  const IntMax: int := 0x7fff_ffff

  /** The range of a Java `int`. */
  predicate IsInt32(x: int) {
    IntMin <= x <= IntMax
  }

  predicate IsDigit(c: char) {
    '0' <= c <= '9'
  }

  predicate AllDigits(s: string) {
    forall i | 0 <= i < |s| :: IsDigit(s[i])
  }

  function DigitChar(d: nat): (c: char)
    requires d < 10
    ensures IsDigit(c) && c as int - '0' as int == d
  {
    ('0' as int + d) as char
  }

  function DigitValue(c: char): nat
    requires IsDigit(c)
  {
    c as int - '0' as int
  }

  /** The value of a string of decimal digits, most significant first. */
  function DigitsValue(s: string): nat
    requires AllDigits(s)
  {
    if |s| == 0 then 0 else DigitsValue(s[..|s| - 1]) * 10 + DigitValue(s[|s| - 1])
  }

  function Pow10(n: nat): (p: nat)
    ensures p >= 1
  {
    if n == 0 then 1 else 10 * Pow10(n - 1)
  }

  /** The decimal numeral of `n` without leading zeros. */
  function ShowNat(n: nat): (s: string)
    ensures |s| >= 1
  {
    if n < 10 then [DigitChar(n)]
    else ShowNat(n / 10) + [DigitChar(n % 10)]
  }

  /** A numeral is all digits, and starts with `0` only when it shows zero. */
  lemma {:induction false} ShowNatDigits(n: nat)
    ensures AllDigits(ShowNat(n))
    ensures ShowNat(n)[0] == '0' <==> n == 0
  {
    if n >= 10 {
      ShowNatDigits(n / 10);
      var s := ShowNat(n);
      assert s[0] == ShowNat(n / 10)[0];
    }
  }

  /** Reading a numeral back gives the number it shows. */
  lemma {:induction false} ShowNatValue(n: nat)
    ensures AllDigits(ShowNat(n)) && DigitsValue(ShowNat(n)) == n
  {
    ShowNatDigits(n);
    if n >= 10 {
      ShowNatValue(n / 10);
      var s := ShowNat(n);
      assert s[..|s| - 1] == ShowNat(n / 10);
    }
  }

  /** `%d`: a minus sign for a negative value, then the digits. */
  function ShowInt(n: int): (s: string)
    ensures |s| >= 1 && (s[0] == '-' <==> n < 0)
  {
    ShowNatDigits(if n < 0 then -n else n);
    if n < 0 then "-" + ShowNat(-n) else ShowNat(n)
  }

  /** `Integer.parseInt(s)`: an optional sign and at least one decimal digit,
      nothing else (no surrounding spaces), and a value in `int` range;
      anything else is a `NumberFormatException`. */
  function ParseInt(s: string): (r: Option<int>)
    ensures r.Some? ==> IsInt32(r.value)
    ensures r.Some? ==> |s| >= 1 && (IsDigit(s[0]) || s[0] == '-' || s[0] == '+')
    ensures r.Some? ==> forall i | 1 <= i < |s| :: IsDigit(s[i])
    ensures r.Some? && s[0] == '-' ==> r.value <= 0
    ensures r.Some? && s[0] != '-' ==> r.value >= 0
  {
    var signed := |s| > 0 && (s[0] == '-' || s[0] == '+');
    ReadDigits(|s| > 0 && s[0] == '-', if signed then s[1..] else s)
  }

  /** The digits after the sign, negated after a minus, kept when the value
      fits an `int`. */
  function ReadDigits(negative: bool, digits: string): Option<int> {
    if |digits| == 0 || !AllDigits(digits) then None
    else
      var n: int := if negative then -(DigitsValue(digits) as int) else DigitsValue(digits);
      if IsInt32(n) then Some(n) else None
  }

  /** The converse of `ParseInt`'s contract, without a sign: ASCII digits
      read as their value exactly when it fits an `int`. */
  lemma ParseUnsignedDigits(digits: string)
    requires |digits| >= 1 && AllDigits(digits)
    ensures ParseInt(digits) == if IsInt32(DigitsValue(digits)) then Some(DigitsValue(digits) as int) else None
  {
    assert IsDigit(digits[0]);
  }

  /** The same after a sign: a minus negates the value, a plus keeps it. */
  lemma ParseSignedDigits(sign: char, digits: string)
    requires sign == '-' || sign == '+'
    requires |digits| >= 1 && AllDigits(digits)
    ensures var n: int := if sign == '-' then -(DigitsValue(digits) as int) else DigitsValue(digits);
            ParseInt([sign] + digits) == if IsInt32(n) then Some(n) else None
  {
    SignThenDigits(sign, digits);
    SignedValue(sign == '-', digits);
  }

  lemma SignThenDigits(sign: char, digits: string)
    requires sign == '-' || sign == '+'
    ensures ParseInt([sign] + digits) == ReadDigits(sign == '-', digits)
  {
    var s := [sign] + digits;
    assert s[0] == sign && s[1..] == digits;
  }

  lemma SignedValue(negative: bool, digits: string)
    requires |digits| >= 1 && AllDigits(digits)
    ensures var n: int := if negative then -(DigitsValue(digits) as int) else DigitsValue(digits);
            ReadDigits(negative, digits) == if IsInt32(n) then Some(n) else None
  {
  }

  /** Every `int` survives `%d` and `Integer.parseInt`. */
  lemma ParseShowInt(n: int)
    requires IsInt32(n)
    ensures ParseInt(ShowInt(n)) == Some(n)
  {
    if n < 0 {
      ShowNatValue(-n);
      assert ShowInt(n) == ['-'] + ShowNat(-n);
      ParseSignedDigits('-', ShowNat(-n));
    } else {
      ShowNatValue(n);
      ParseUnsignedDigits(ShowNat(n));
    }
  }

  /** `x * 100` rounded to an integer HALF_UP (ties away from zero), the
      rounding `%.2f` applies. */
  function Cents(x: real): (c: int)
    ensures -0.5 <= x * 100.0 - c as real <= 0.5
    ensures x >= 0.0 ==> x * 100.0 - c as real < 0.5
    ensures x < 0.0 ==> x * 100.0 - c as real > -0.5
    ensures x >= 0.0 ==> c >= 0
    ensures x <= 0.0 ==> c <= 0
  {
    if x >= 0.0 then (x * 100.0 + 0.5).Floor else -((-x * 100.0 + 0.5).Floor)
  }

  /** The value `%.2f` keeps of `x`. */
  function Round2(x: real): (y: real)
    ensures -0.005 <= x - y <= 0.005
    ensures x >= 0.0 ==> y >= 0.0
    ensures x <= 0.0 ==> y <= 0.0
  {
    Cents(x) as real / 100.0
  }

  /** A value that already has two decimals is kept as it is. */
  lemma Round2Exact(c: int)
    ensures Cents(c as real / 100.0) == c
    ensures Round2(c as real / 100.0) == c as real / 100.0
  {
  }

  /** Rounding twice rounds once. */
  lemma Round2Idempotent(x: real)
    ensures Round2(Round2(x)) == Round2(x)
  {
    Round2Exact(Cents(x));
  }

  /** `String.format("%.2f", x)`: a minus sign for a negative `x`, then the
      rounded magnitude as its whole part, a point and two decimals. A
      negative value that rounds to zero keeps its sign, as in Java
      ("-0.00"). */
  function ShowFixed2(x: real): (s: string)
    ensures |s| >= 4 && s[|s| - 3] == '.' && IsDigit(s[|s| - 1])
    ensures s[0] == '-' <==> x < 0.0
    ensures x >= 0.0 ==> IsDigit(s[0])
    decreases if x < 0.0 then 1 else 0
  {
    if x < 0.0 then "-" + ShowFixed2(-x) else FixedText(Cents(x))
  }

  /** `m` hundredths as digits, a point and two decimals. */
  function FixedText(m: nat): (s: string)
    ensures |s| >= 4 && s[|s| - 3] == '.'
    ensures IsDigit(s[0]) && IsDigit(s[|s| - 1])
  {
    ShowNatDigits(m / 100);
    ShowNat(m / 100) + "." + [DigitChar(m % 100 / 10), DigitChar(m % 10)]
  }

  /** `Double.parseDouble(s)` on the decimal forms: surrounding whitespace
      is trimmed, then the rest is read as a signed decimal. */
  function ParseReal(s: string): (r: Option<real>)
    ensures r.Some? ==> |Trim(s)| >= 1
    ensures r.Some? && Trim(s)[0] == '-' ==> r.value <= 0.0
    ensures r.Some? && Trim(s)[0] != '-' ==> r.value >= 0.0
  {
    ParseTrimmed(Trim(s))
  }

  /** An optional sign, then an unsigned decimal. */
  function ParseTrimmed(t: string): Option<real> {
    var (negative, digits) := SplitSign(t);
    var magnitude := ParseUnsigned(digits);
    if negative then Negate(magnitude) else magnitude
  }

  /** A leading `-` or `+` taken off, and whether it was `-`. */
  function SplitSign(t: string): (r: (bool, string))
    ensures r.0 <==> |t| > 0 && t[0] == '-'
    ensures |t| > 0 && (t[0] == '-' || t[0] == '+') ==> r.1 == t[1..]
    ensures |t| == 0 || (t[0] != '-' && t[0] != '+') ==> r.1 == t
  {
    if |t| > 0 && (t[0] == '-' || t[0] == '+') then (t[0] == '-', t[1..]) else (false, t)
  }

  function Negate(o: Option<real>): (r: Option<real>)
    ensures r.Some? <==> o.Some?
    ensures r.Some? ==> r.value == -o.value
  {
    match o
    case None => None
    case Some(y) => Some(-y)
  }

  /** Digits, and an optional point with more digits, at least one digit in
      all. The value is exact. */
  function ParseUnsigned(body: string): (r: Option<real>)
    ensures r.Some? ==> |body| >= 1 && r.value >= 0.0
  {
    var dot := IndexOf(body, '.');
    var whole := body[..dot];
    var frac := if dot < |body| then body[dot + 1..] else "";
    if |whole| + |frac| == 0 || !AllDigits(whole) || !AllDigits(frac) then None
    else Some(DecimalValue(DigitsValue(whole), DigitsValue(frac), |frac|))
  }

  /** The value of `whole` followed by the `n` digits of `frac` after the point. */
  function DecimalValue(whole: nat, frac: nat, n: nat): (y: real)
    ensures y >= 0.0
  {
    whole as real + frac as real / Pow10(n) as real
  }

  /** The value of two digits after the point. */
  lemma TwoDigits(m: nat)
    ensures var f := [DigitChar(m % 100 / 10), DigitChar(m % 10)];
            AllDigits(f) && DigitsValue(f) == m % 100
  {
    var f := [DigitChar(m % 100 / 10), DigitChar(m % 10)];
    assert f[..1] == [f[0]];
    assert [f[0]][..0] == [];
    assert DigitsValue(f[..1]) == m % 100 / 10;
    assert m % 10 == m % 100 % 10;
  }

  /** Reading back a rendered magnitude: whole part, point, two digits. */
  lemma ParseMagnitude(m: nat)
    ensures var text := ShowNat(m / 100) + "." + [DigitChar(m % 100 / 10), DigitChar(m % 10)];
            && IndexOf(text, '.') == |ShowNat(m / 100)|
            && text[..|ShowNat(m / 100)|] == ShowNat(m / 100)
            && text[|ShowNat(m / 100)| + 1..] == [DigitChar(m % 100 / 10), DigitChar(m % 10)]
  {
    var whole := ShowNat(m / 100);
    var f := [DigitChar(m % 100 / 10), DigitChar(m % 10)];
    ShowNatDigits(m / 100);
    assert '.' !in whole by {
      forall i | 0 <= i < |whole| ensures whole[i] != '.' {
        assert IsDigit(whole[i]);
      }
    }
    IndexOfFirst(whole, '.', f);
  }

  /** The rendered magnitude `m` hundredths reads back as `m / 100`. */
  lemma ParseMagnitudeValue(m: nat)
    ensures ParseUnsigned(FixedText(m)) == Some(m as real / 100.0)
  {
    var whole := ShowNat(m / 100);
    var f := [DigitChar(m % 100 / 10), DigitChar(m % 10)];
    ParseMagnitude(m);
    TwoDigits(m);
    ShowNatValue(m / 100);
    UnsignedValue(whole, f);
    HundredthsValue(m);
  }

  /** Whole digits, a point and fraction digits read back as their value. */
  lemma UnsignedValue(whole: string, frac: string)
    requires |whole| >= 1 && AllDigits(whole) && AllDigits(frac)
    requires IndexOf(whole + "." + frac, '.') == |whole|
    ensures ParseUnsigned(whole + "." + frac)
            == Some(DecimalValue(DigitsValue(whole), DigitsValue(frac), |frac|))
  {
    var body := whole + "." + frac;
    var dot := IndexOf(body, '.');
    assert dot < |body|;
    assert body[..dot] == whole;
    assert body[dot + 1..] == frac;
  }

  lemma HundredthsValue(m: nat)
    ensures DecimalValue(m / 100, m % 100, 2) == m as real / 100.0
  {
    assert Pow10(2) == 100;
    assert m == (m / 100) * 100 + m % 100;
  }

  /** A numeral that starts with a digit reads as its unsigned value. */
  lemma ParseDigitFirst(t: string)
    requires |t| > 0 && IsDigit(t[0])
    ensures ParseTrimmed(t) == ParseUnsigned(t)
  {
  }

  /** A minus sign in front of a numeral that starts with a digit negates
      its value. */
  lemma ParseMinusFirst(t: string, u: string)
    requires |t| > 0 && IsDigit(t[0]) && u == "-" + t
    ensures ParseTrimmed(u) == Negate(ParseTrimmed(t))
  {
    assert u[1..] == t;
  }

  /** The hundredths that `%.2f` renders for a non-negative value read back
      as the rounded value. */
  lemma ParseShowNonNegative(x: real, s: string)
    requires x >= 0.0 && s == ShowFixed2(x)
    ensures ParseTrimmed(s) == Some(Round2(x))
  {
    ParseMagnitudeValue(Cents(x));
  }

  /** A minus sign before the rendering of a magnitude that reads back
      rounded reads back as the negative value rounded. */
  lemma ParseShowNegative(x: real, t: string, s: string)
    requires x < 0.0 && |t| > 0 && IsDigit(t[0]) && s == "-" + t
    requires ParseTrimmed(t) == Some(Round2(-x))
    ensures ParseTrimmed(s) == Some(Round2(x))
  {
    ParseMinusFirst(t, s);
    Round2Negated(x);
  }

  /** Without the surrounding trim: `%.2f` text reads back as the rounded
      value. */
  lemma {:induction false} ParseTrimmedShow(x: real, s: string)
    requires s == ShowFixed2(x)
    ensures ParseTrimmed(s) == Some(Round2(x))
    decreases if x < 0.0 then 1 else 0
  {
    if x < 0.0 {
      var t := ShowFixed2(-x);
      ParseTrimmedShow(-x, t);
      assert s == "-" + t;
      ParseShowNegative(x, t, s);
    } else {
      ParseShowNonNegative(x, s);
    }
  }

  /** HALF_UP rounding is symmetric about zero. */
  lemma Round2Negated(x: real)
    ensures Round2(-x) == -Round2(x)
  {
  }

  /** The text `s` that `%.2f` renders for `x` reads back through
      `Double.parseDouble` as `x` rounded to two decimals. */
  lemma ParseShowFixed2(x: real, s: string)
    requires s == ShowFixed2(x)
    ensures ParseReal(s) == Some(Round2(x))
  {
    TrimUnpadded(s);
    ParseTrimmedShow(x, s);
  }

  /** Text made of digits, minus signs and points only: what `%d` and `%.2f`
      write, so never a field separator. */
  predicate NumeralText(s: string) {
    forall i | 0 <= i < |s| :: IsDigit(s[i]) || s[i] == '-' || s[i] == '.'
  }

  lemma ShowIntNumeral(n: int)
    ensures NumeralText(ShowInt(n))
  {
    var m := if n < 0 then -n else n;
    ShowNatDigits(m);
    var s := ShowInt(n);
    forall i | 0 <= i < |s| ensures IsDigit(s[i]) || s[i] == '-' || s[i] == '.' {
      if n < 0 && i > 0 {
        assert s[i] == ShowNat(m)[i - 1];
      }
    }
  }

  lemma FixedTextNumeral(m: nat)
    ensures NumeralText(FixedText(m))
  {
    ShowNatDigits(m / 100);
    var w := ShowNat(m / 100);
    var s := FixedText(m);
    forall i | 0 <= i < |s| ensures IsDigit(s[i]) || s[i] == '-' || s[i] == '.' {
      if i < |w| {
        assert s[i] == w[i];
      }
    }
  }

  lemma {:induction false} ShowFixed2Numeral(x: real)
    ensures NumeralText(ShowFixed2(x))
    decreases if x < 0.0 then 1 else 0
  {
    if x < 0.0 {
      ShowFixed2Numeral(-x);
      var s := ShowFixed2(x);
      forall i | 0 <= i < |s| ensures IsDigit(s[i]) || s[i] == '-' || s[i] == '.' {
        if i > 0 {
          assert s[i] == ShowFixed2(-x)[i - 1];
        }
      }
    } else {
      FixedTextNumeral(Cents(x));
    }
  }
}
