/** The numeric conversions the decoder applies to bracket arguments:
    Python's `int(text)`, `str(n)` and `Decimal(text)`, on the plain ASCII
    forms the device sends. A conversion that Python would reject with an
    exception yields `None`. */
module Numbers {
  import opened Wrappers
  import Strings

  predicate IsDigit(c: char) {
    '0' <= c <= '9'
  }

  predicate AllDigits(s: string) {
    forall i :: 0 <= i < |s| ==> IsDigit(s[i])
  }

  /** The value of a string of decimal digits, most significant first. */
  function DigitsValue(s: string): nat
    requires AllDigits(s)
  {
    if s == [] then 0 else DigitsValue(s[..|s| - 1]) * 10 + (s[|s| - 1] as int - '0' as int)
  }

  function DigitChar(d: nat): (c: char)
    requires d < 10
    ensures IsDigit(c) && c as int - '0' as int == d
  {
    (d + '0' as int) as char
  }

  /** `str(n)` for a non-negative `n`: its decimal digits without leading zeros. */
  function NatToString(n: nat): (r: string)
    ensures r != [] && AllDigits(r)
    ensures |r| > 1 ==> r[0] != '0'
  {
    if n < 10 then [DigitChar(n)] else NatToString(n / 10) + [DigitChar(n % 10)]
  }

  /** `str(n)`. */
  function IntToString(n: int): (r: string)
    ensures r != [] && (r[0] == '-' <==> n < 0)
    ensures forall i :: 0 <= i < |r| ==> r[i] == '-' || IsDigit(r[i])
  {
    if n < 0 then "-" + NatToString(-n) else NatToString(n)
  }

  /** What `int(text)` accepts here: an optional sign and at least one digit. */
  predicate IsIntLiteral(s: string) {
    || (s != [] && AllDigits(s))
    || (|s| > 1 && (s[0] == '-' || s[0] == '+') && AllDigits(s[1..]))
  }

  /** `int(text)`; `None` where Python raises `ValueError`. */
  function ParseInt(s: string): (r: Option<int>)
    ensures r.Some? <==> IsIntLiteral(s)
    ensures r.Some? && s[0] == '-' ==> r.value <= 0
    ensures r.Some? && s[0] != '-' ==> r.value >= 0
  {
    if s != [] && AllDigits(s) then Some(DigitsValue(s))
    else if |s| > 1 && (s[0] == '-' || s[0] == '+') && AllDigits(s[1..]) then
      Some(if s[0] == '-' then -(DigitsValue(s[1..]) as int) else DigitsValue(s[1..]))
    else None
  }

  /** Reading back the digits of `n` gives `n`. */
  lemma {:induction false} NatToStringValue(n: nat)
    ensures DigitsValue(NatToString(n)) == n
    decreases n
  {
    if n >= 10 {
      var p := NatToString(n / 10);
      var r := p + [DigitChar(n % 10)];
      assert r[..|r| - 1] == p;
      NatToStringValue(n / 10);
    }
  }

  /** `int(str(n)) == n`: the formatter and the parser are inverse. */
  lemma IntRoundTrip(n: int)
    ensures ParseInt(IntToString(n)) == Some(n)
  {
    if n < 0 {
      var d := NatToString(-n);
      assert ("-" + d)[1..] == d;
      NatToStringValue(-n);
    } else {
      NatToStringValue(n);
    }
  }

  /** A Python `Decimal` as sign-carrying coefficient and exponent: its value
      is `coefficient * 10^exponent`, and `Decimal("-12.5")` is `(-125, -1)`. */
  datatype Decimal = Decimal(coefficient: int, exponent: int)

  /** Split an optional leading sign off a numeric literal. */
  function SignAndBody(s: string): (bool, string)
  {
    if s != [] && (s[0] == '-' || s[0] == '+') then (s[0] == '-', s[1..]) else (false, s)
  }

  /** `Decimal(text)` for the plain positional forms: an optional sign, digits,
      at most one decimal point, and at least one digit in all. `None` where
      this model does not accept the text (see README). */
  function ParseDecimal(s: string): (r: Option<Decimal>)
    ensures r.Some? ==> r.value.exponent <= 0
    ensures r.Some? && Strings.Find(s, ".") == -1 ==> r.value.exponent == 0
  {
    DotFreeBody(s);
    var (negative, body) := SignAndBody(s);
    ParseUnsigned(negative, body)
  }

  /** The unsigned part of `Decimal(text)`: digits on either side of at most
      one point; the exponent counts the digits after the point. */
  function ParseUnsigned(negative: bool, body: string): (r: Option<Decimal>)
    ensures r.Some? ==> r.value.exponent <= 0
    ensures r.Some? && Strings.Find(body, ".") == -1 ==> r.value.exponent == 0
  {
    var (whole, fraction) := AroundPoint(body);
    if AllDigits(whole) && AllDigits(fraction) && |whole| + |fraction| > 0 then
      var magnitude: int := DigitsValue(whole + fraction);
      Some(Decimal(if negative then -magnitude else magnitude, -|fraction|))
    else None
  }

  /** What comes before and after the first point of `body`; without a
      point, all of it comes before. */
  function AroundPoint(body: string): (r: (string, string))
    ensures Strings.Find(body, ".") == -1 ==> r == (body, "")
    ensures Strings.Find(body, ".") != -1 ==> r.0 + "." + r.1 == body && '.' !in r.0
  {
    var k := Strings.Find(body, ".");
    if k == -1 then (body, "")
    else
      assert body[k] == '.' && body == body[..k] + "." + body[k + 1..] by {
        assert body[k..k + 1] == ".";
      }
      assert forall j :: 0 <= j < k ==> body[j] != '.' by {
        forall j | 0 <= j < k ensures body[j] != '.' {
          assert !Strings.OccursAt(body, ".", j);
          assert body[j..j + 1] == [body[j]];
        }
      }
      (body[..k], body[k + 1..])
  }

  /** Without a point in `s`, its body has none either. */
  lemma DotFreeBody(s: string)
    ensures Strings.Find(s, ".") == -1 ==> Strings.Find(SignAndBody(s).1, ".") == -1
  {
    var body := SignAndBody(s).1;
    if Strings.Find(s, ".") == -1 && body != s {
      forall j | 0 <= j && j + 1 <= |body| ensures !Strings.OccursAt(body, ".", j) {
        assert body[j..j + 1] == s[j + 1..j + 2];
        assert !Strings.OccursAt(s, ".", j + 1);
      }
    }
  }

  /** An integer written by `str(n)` reads back as the `Decimal` with that
      coefficient and exponent 0. */
  lemma DecimalOfInteger(n: int)
    ensures ParseDecimal(IntToString(n)) == Some(Decimal(n, 0))
  {
    var s := IntToString(n);
    var body := SignAndBody(s).1;
    assert forall i :: 0 <= i < |body| ==> IsDigit(body[i]) by {
      if n < 0 {
        assert body == NatToString(-n);
      } else {
        assert body == NatToString(n);
      }
    }
    assert Strings.Find(body, ".") == -1 by {
      forall j | 0 <= j && j + 1 <= |body| ensures !Strings.OccursAt(body, ".", j) {
        assert body[j..j + 1][0] == body[j];
      }
    }
    assert body + "" == body;
    if n < 0 {
      NatToStringValue(-n);
    } else {
      NatToStringValue(n);
    }
  }
}
