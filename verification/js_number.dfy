/**
 * JavaScript's number conversions as the application uses them: `parseInt` and
 * `parseFloat` on text (NaN modelled as `None`) and `String(n)` on integers.
 */
module JsNumber {
  import opened Wrappers
  import JsText

  predicate IsDigit(c: char) {
    '0' <= c <= '9'
  }

  function DigitValue(c: char): (d: nat)
    requires IsDigit(c)
    ensures d < 10
  {
    c as int - '0' as int
  }

  function DigitChar(d: nat): (c: char)
    requires d < 10
    ensures IsDigit(c) && DigitValue(c) == d
  {
    ('0' as int + d) as char
  }

  /** The length of the run of decimal digits at the start of `s`. */
  function DigitRun(s: string): (n: nat)
    ensures n <= |s|
    ensures forall i :: 0 <= i < n ==> IsDigit(s[i])
    ensures n < |s| ==> !IsDigit(s[n])
  {
    if s == [] || !IsDigit(s[0]) then 0 else 1 + DigitRun(s[1..])
  }

  /** The number a run of decimal digits denotes. */
  function DigitsValue(ds: string): nat
    requires forall i :: 0 <= i < |ds| ==> IsDigit(ds[i])
  {
    if ds == [] then 0 else 10 * DigitsValue(ds[..|ds| - 1]) + DigitValue(ds[|ds| - 1])
  }

  /** Splits an optional leading sign off `t`: whether it was `-`, and the rest. */
  function SignAndBody(t: string): (bool, string) {
    if t != [] && (t[0] == '-' || t[0] == '+') then (t[0] == '-', t[1..]) else (false, t)
  }

  predicate IsHexDigit(c: char) {
    IsDigit(c) || 'a' <= c <= 'f' || 'A' <= c <= 'F'
  }

  function HexDigitValue(c: char): (d: nat)
    requires IsHexDigit(c)
    ensures d < 16
    ensures IsDigit(c) ==> d == DigitValue(c)
  {
    if IsDigit(c) then DigitValue(c)
    else if 'a' <= c <= 'f' then c as int - 'a' as int + 10
    else c as int - 'A' as int + 10
  }

  /** The length of the run of hexadecimal digits at the start of `s`. */
  function HexRun(s: string): (n: nat)
    ensures n <= |s|
    ensures forall i :: 0 <= i < n ==> IsHexDigit(s[i])
    ensures n < |s| ==> !IsHexDigit(s[n])
  {
    if s == [] || !IsHexDigit(s[0]) then 0 else 1 + HexRun(s[1..])
  }

  /** The number a run of hexadecimal digits denotes. */
  function HexValue(ds: string): nat
    requires forall i :: 0 <= i < |ds| ==> IsHexDigit(ds[i])
  {
    if ds == [] then 0 else 16 * HexValue(ds[..|ds| - 1]) + HexDigitValue(ds[|ds| - 1])
  }

  /** The body starts with `0x` or `0X`: without a radix, `parseInt` reads it
      in base 16. */
  predicate HexPrefixed(body: string) {
    |body| >= 2 && body[0] == '0' && (body[1] == 'x' || body[1] == 'X')
  }

  /** The decimal reading of text: leading white space, an optional sign, then
      the longest run of decimal digits; the rest of the text is ignored, and
      there is no number (`None`) when there is no digit. */
  function ParseDecimal(s: string): (r: Option<int>)
    ensures r.None? <==> DigitRun(SignAndBody(JsText.TrimStart(s)).1) == 0
  {
    var (negative, body) := SignAndBody(JsText.TrimStart(s));
    var n := DigitRun(body);
    if n == 0 then None
    else
      var v: int := DigitsValue(body[..n]);
      Some(if negative then -v else v)
  }

  /** `parseInt(s)` with no radix, as every call in the application makes it:
      leading white space and an optional sign, then, after `0x` or `0X`, the
      longest run of hexadecimal digits, and otherwise the decimal reading.
      NaN (`None`) when that run is empty: `parseInt("0x")` is NaN. */
  function ParseInt(s: string): (r: Option<int>)
    ensures var body := SignAndBody(JsText.TrimStart(s)).1;
            HexPrefixed(body) ==> (r.None? <==> HexRun(body[2..]) == 0)
    ensures !HexPrefixed(SignAndBody(JsText.TrimStart(s)).1) ==> r == ParseDecimal(s)
  {
    var (negative, body) := SignAndBody(JsText.TrimStart(s));
    if HexPrefixed(body) then
      var digits := body[2..];
      var n := HexRun(digits);
      if n == 0 then None
      else
        var v: int := HexValue(digits[..n]);
        Some(if negative then -v else v)
    else ParseDecimal(s)
  }

  /** `parseInt` reads a `0x` prefix in base 16: `parseInt("0x10")` is 16. */
  lemma ParseIntHex()
    ensures ParseInt("0x10") == Some(16)
  {
    var s := "0x10";
    assert !JsText.IsSpace(s[0]);
    assert JsText.TrimStart(s) == s;
    assert SignAndBody(s) == (false, s);
    assert HexPrefixed(s);
    var digits := s[2..];
    assert digits == ['1', '0'];
    assert HexRun(digits) == 2;
    assert digits[..2] == digits;
    assert digits[..1] == ['1'];
    assert HexValue(['1']) == 1;
    assert HexValue(digits) == 16;
  }

  /** `parseInt("0x2")` is 2. */
  lemma ParseIntHexDigit()
    ensures ParseInt("0x2") == Some(2)
  {
    var s := "0x2";
    assert !JsText.IsSpace(s[0]);
    assert JsText.TrimStart(s) == s;
    assert SignAndBody(s) == (false, s);
    assert HexPrefixed(s);
    var digits := s[2..];
    assert digits == ['2'];
    assert HexRun(digits) == 1;
    assert digits[..1] == digits && digits[..0] == [];
    assert HexDigitValue('2') == 2;
    assert HexValue(digits) == 16 * HexValue([]) + 2;
  }

  /** `parseInt("10")` is 10. */
  lemma ParseIntTen()
    ensures ParseInt("10") == Some(10)
  {
    var s := "10";
    assert !JsText.IsSpace(s[0]);
    assert JsText.TrimStart(s) == s;
    assert SignAndBody(s) == (false, s);
    assert !HexPrefixed(s);
    assert DigitRun(s) == 2;
    assert s[..2] == s && s[..1] == ['1'] && ['1'][..0] == [];
    assert DigitsValue(['1']) == 1;
    assert DigitsValue(s) == 10;
  }

  /** A `0x` prefix with no hexadecimal digit after it is NaN. */
  lemma ParseIntHexEmpty()
    ensures ParseInt("0x").None?
  {
    var s := "0x";
    assert !JsText.IsSpace(s[0]);
    assert JsText.TrimStart(s) == s;
    assert SignAndBody(s) == (false, s);
    assert HexPrefixed(s) && s[2..] == [];
  }

  /** `parseFloat(s)` on plain decimal text: leading white space, an optional
      sign, digits, optionally a point and more digits; NaN (`None`) when there
      is no digit on either side of the point. The digits before the point are
      the number's whole part. */
  function ParseFloat(s: string): (r: Option<real>)
    ensures r.Some? ==>
              var body := SignAndBody(JsText.TrimStart(s)).1;
              var whole := DigitsValue(body[..DigitRun(body)]) as real;
              var magnitude := if SignAndBody(JsText.TrimStart(s)).0 then -r.value else r.value;
              whole <= magnitude < whole + 1.0
    ensures var body := SignAndBody(JsText.TrimStart(s)).1;
            r.None? <==> DigitRun(body) == 0 && (body == [] || body[0] != '.' || DigitRun(body[1..]) == 0)
  {
    var (negative, body) := SignAndBody(JsText.TrimStart(s));
    match Magnitude(body)
    case None => None
    case Some(v) => Some(if negative then -v else v)
  }

  /** The unsigned reading of the text after the sign: digits, optionally a
      point and more digits. */
  function Magnitude(body: string): (r: Option<real>)
    ensures r.Some? ==>
              var whole := DigitsValue(body[..DigitRun(body)]) as real;
              whole <= r.value < whole + 1.0
    ensures r.None? <==> DigitRun(body) == 0 && (body == [] || body[0] != '.' || DigitRun(body[1..]) == 0)
  {
    var n := DigitRun(body);
    var whole := DigitsValue(body[..n]);
    var rest := body[n..];
    var f := if rest != [] && rest[0] == '.' then DigitRun(rest[1..]) else 0;
    if n == 0 && f == 0 then None
    else
      var fraction := if f == 0 then 0.0 else FractionValue(rest[1..][..f]);
      Some(whole as real + fraction)
  }

  /** A run of digits followed by a non-digit (or nothing) is read up to that point. */
  lemma {:induction false} DigitRunStops(w: string, t: string)
    requires forall i :: 0 <= i < |w| ==> IsDigit(w[i])
    requires t == [] || !IsDigit(t[0])
    ensures DigitRun(w + t) == |w|
  {
    if w != [] {
      assert (w + t)[1..] == w[1..] + t;
      DigitRunStops(w[1..], t);
    }
  }

  /** `parseFloat` reads text of the form `w.ds` as its decimal value. */
  lemma {:induction false} ParseFloatDecimal(w: string, ds: string)
    requires forall i :: 0 <= i < |w| ==> IsDigit(w[i])
    requires forall i :: 0 <= i < |ds| ==> IsDigit(ds[i])
    requires ds != []
    ensures ParseFloat(w + "." + ds) == Some(DigitsValue(w) as real + DigitsValue(ds) as real / Pow10(|ds|) as real)
  {
    var body := w + "." + ds;
    assert !JsText.IsSpace(body[0]) && body[0] != '-' && body[0] != '+' by {
      if w != [] {
        assert body[0] == w[0];
      } else {
        assert body[0] == '.';
      }
    }
    assert JsText.TrimStart(body) == body;
    assert SignAndBody(body) == (false, body);
    ReadFloatBody(body, false, w, ds);
  }

  /** With a leading `-`, `parseFloat` reads text of the form `-w.ds` as the
      negated decimal value. */
  lemma {:induction false} ParseFloatNegativeDecimal(w: string, ds: string)
    requires forall i :: 0 <= i < |w| ==> IsDigit(w[i])
    requires forall i :: 0 <= i < |ds| ==> IsDigit(ds[i])
    requires ds != []
    ensures ParseFloat("-" + w + "." + ds) == Some(-(DigitsValue(w) as real + DigitsValue(ds) as real / Pow10(|ds|) as real))
  {
    var s := "-" + w + "." + ds;
    assert s[0] == '-' && !JsText.IsSpace(s[0]);
    assert JsText.TrimStart(s) == s;
    assert s[1..] == w + "." + ds;
    assert SignAndBody(s) == (true, w + "." + ds);
    ReadFloatBody(s, true, w, ds);
  }

  /** `parseFloat` of text whose sign and body are already split off. */
  lemma {:induction false} ReadFloatBody(s: string, negative: bool, w: string, ds: string)
    requires forall i :: 0 <= i < |w| ==> IsDigit(w[i])
    requires forall i :: 0 <= i < |ds| ==> IsDigit(ds[i])
    requires ds != []
    requires SignAndBody(JsText.TrimStart(s)) == (negative, w + "." + ds)
    ensures var v := DigitsValue(w) as real + DigitsValue(ds) as real / Pow10(|ds|) as real;
            ParseFloat(s) == Some(if negative then -v else v)
  {
    MagnitudeDecimal(w, ds);
    SignedMagnitude(s, negative, w + "." + ds, DigitsValue(w) as real + FractionValue(ds));
  }

  /** `parseFloat` applies the sign to the unsigned reading of the body. */
  lemma {:induction false} SignedMagnitude(s: string, negative: bool, body: string, v: real)
    requires SignAndBody(JsText.TrimStart(s)) == (negative, body)
    requires Magnitude(body) == Some(v)
    ensures ParseFloat(s) == Some(if negative then -v else v)
  {
  }

  /** The unsigned reading of `w.ds`. */
  lemma {:induction false} MagnitudeDecimal(w: string, ds: string)
    requires forall i :: 0 <= i < |w| ==> IsDigit(w[i])
    requires forall i :: 0 <= i < |ds| ==> IsDigit(ds[i])
    requires ds != []
    ensures Magnitude(w + "." + ds) == Some(DigitsValue(w) as real + FractionValue(ds))
  {
    var body := w + "." + ds;
    ReadDecimalBody(w, ds);
    assert body[|w|] == '.' && body[|w| + 1..] == ds;
    MagnitudeSplit(body, w, ds);
  }

  /** The unsigned reading of a body already split into whole digits, a
      point and fraction digits. */
  lemma {:induction false} MagnitudeSplit(body: string, w: string, ds: string)
    requires forall i :: 0 <= i < |w| ==> IsDigit(w[i])
    requires forall i :: 0 <= i < |ds| ==> IsDigit(ds[i])
    requires ds != [] && DigitRun(ds) == |ds|
    requires DigitRun(body) == |w| && body[..|w|] == w
    requires |body| > |w| && body[|w|] == '.' && body[|w| + 1..] == ds
    ensures Magnitude(body) == Some(DigitsValue(w) as real + FractionValue(ds))
  {
    var rest := body[|w|..];
    assert rest[1..] == ds;
    assert ds[..|ds|] == ds;
  }

  /** `parseFloat` of text whose body, after the sign, is a run of digits. */
  lemma {:induction false} ReadFloatWhole(s: string, negative: bool, w: string)
    requires forall i :: 0 <= i < |w| ==> IsDigit(w[i])
    requires w != []
    requires SignAndBody(JsText.TrimStart(s)) == (negative, w)
    ensures ParseFloat(s) == Some(if negative then -(DigitsValue(w) as real) else DigitsValue(w) as real)
  {
    MagnitudeWhole(w);
    SignedMagnitude(s, negative, w, DigitsValue(w) as real);
  }

  /** The unsigned reading of a run of digits. */
  lemma {:induction false} MagnitudeWhole(w: string)
    requires forall i :: 0 <= i < |w| ==> IsDigit(w[i])
    requires w != []
    ensures Magnitude(w) == Some(DigitsValue(w) as real)
  {
    DigitRunStops(w, []);
    assert w + [] == w;
    assert w[..|w|] == w && w[|w|..] == [];
  }

  /** The body `w.ds` splits into the whole digits `w` and the fraction digits `ds`. */
  lemma {:induction false} ReadDecimalBody(w: string, ds: string)
    requires forall i :: 0 <= i < |w| ==> IsDigit(w[i])
    requires forall i :: 0 <= i < |ds| ==> IsDigit(ds[i])
    requires ds != []
    ensures var body := w + "." + ds;
            DigitRun(body) == |w| && body[..|w|] == w && body[|w|..][1..] == ds
            && DigitRun(ds) == |ds| && ds[..|ds|] == ds
  {
    var body := w + "." + ds;
    assert body == w + ("." + ds);
    DigitRunStops(w, "." + ds);
    DigitRunStops(ds, []);
    assert ds + [] == ds;
  }

  /** The value of the digits after a decimal point: below one. */
  function FractionValue(ds: string): (v: real)
    requires forall i :: 0 <= i < |ds| ==> IsDigit(ds[i])
    ensures 0.0 <= v < 1.0
  {
    DigitsBelowPow10(ds);
    QuotientBelowOne(DigitsValue(ds) as real, Pow10(|ds|) as real);
    DigitsValue(ds) as real / Pow10(|ds|) as real
  }

  lemma QuotientBelowOne(x: real, p: real)
    requires 0.0 <= x < p
    ensures 0.0 <= x / p < 1.0
  {
    assert x / p * p == x;
  }

  /** `k` decimal digits denote less than `10^k`. */
  lemma {:induction false} DigitsBelowPow10(ds: string)
    requires forall i :: 0 <= i < |ds| ==> IsDigit(ds[i])
    ensures DigitsValue(ds) < Pow10(|ds|)
  {
    if ds != [] {
      DigitsBelowPow10(ds[..|ds| - 1]);
    }
  }

  function Pow10(k: nat): (p: nat)
    ensures p >= 1
  {
    if k == 0 then 1 else 10 * Pow10(k - 1)
  }

  /** The decimal digits of `n`, without leading zeros. */
  function NatToString(n: nat): (s: string)
    ensures |s| >= 1
    ensures forall i :: 0 <= i < |s| ==> IsDigit(s[i])
  {
    if n < 10 then [DigitChar(n)] else NatToString(n / 10) + [DigitChar(n % 10)]
  }

  /** `String(n)` for an integer `n`. */
  function IntToString(n: int): (s: string)
    ensures |s| >= 1
  {
    if n < 0 then "-" + NatToString(-n) else NatToString(n)
  }

  lemma {:induction false} NatToStringValue(n: nat)
    ensures DigitsValue(NatToString(n)) == n
  {
    if n >= 10 {
      var s := NatToString(n);
      assert s[..|s| - 1] == NatToString(n / 10);
      NatToStringValue(n / 10);
    }
  }

  /** `parseInt(String(n)) === n`: reading back the decimal text of an integer. */
  lemma ParseIntString(n: int)
    ensures ParseInt(IntToString(n)) == Some(n)
  {
    var s := IntToString(n);
    var digits := NatToString(if n < 0 then -n else n);
    assert JsText.TrimStart(s) == s by {
      assert !JsText.IsSpace(s[0]);
    }
    assert SignAndBody(s).1 == digits;
    assert !HexPrefixed(digits) by {
      if |digits| >= 2 {
        assert IsDigit(digits[1]);
      }
    }
    assert DigitRun(digits) == |digits|;
    assert digits[..|digits|] == digits;
    NatToStringValue(if n < 0 then -n else n);
  }

  /** A JSON field as the application reads it: absent or null, a number, or text. */
  datatype JsValue = Undefined | Number(n: real) | Text(s: string)

  /** JavaScript truthiness of such a field (JSON has no NaN). */
  predicate Truthy(v: JsValue) {
    match v
    case Undefined => false
    case Number(n) => n != 0.0
    case Text(s) => s != ""
  }

  /** `parseFloat(v)`: a number stays itself, text is parsed, absence is NaN. */
  function ParseFloatValue(v: JsValue): (r: Option<real>)
    ensures v.Number? ==> r == Some(v.n)
    ensures v.Undefined? ==> r.None?
  {
    match v
    case Undefined => None
    case Number(n) => Some(n)
    case Text(s) => ParseFloat(s)
  }

  /** `parseFloat` reads back the decimal text of an integer. */
  lemma {:induction false} ParseFloatIntString(n: int)
    ensures ParseFloat(IntToString(n)) == Some(n as real)
  {
    var s := IntToString(n);
    var digits := NatToString(if n < 0 then -n else n);
    assert JsText.TrimStart(s) == s by {
      assert !JsText.IsSpace(s[0]);
    }
    assert SignAndBody(s) == (n < 0, digits);
    NatToStringValue(if n < 0 then -n else n);
    ReadFloatWhole(s, n < 0, digits);
  }
}
