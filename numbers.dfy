/**
 * The two conversions the backend applies to user text: Python's `int(s)`
 * (for the `author` filter's id) and `float(s)` (for an ingredient line's
 * free-text amount). Values are exact: `int` and `real` stand for Python's
 * int and float.
 *
 * Accepted syntax: surrounding ASCII whitespace, an optional sign, decimal
 * digits, and for `float` an optional fraction and an optional exponent.
 */
module Numbers {
  import opened Wrappers

  predicate IsDigit(c: char) { '0' <= c <= '9' }

  predicate AllDigits(s: string) { forall i :: 0 <= i < |s| ==> IsDigit(s[i]) }

  /** The value of a string of decimal digits (0 for the empty string). */
  function DigitsValue(s: string): nat
    requires AllDigits(s)
  {
    if s == [] then 0 else DigitsValue(s[..|s| - 1]) * 10 + (s[|s| - 1] as int - '0' as int)
  }

  function Pow10(n: nat): (r: nat)
    ensures r > 0
  {
    if n == 0 then 1 else 10 * Pow10(n - 1)
  }

  predicate IsSpace(c: char) {
    c == ' ' || c == '\t' || c == '\n' || c == '\r' || c == '\U{000B}' || c == '\U{000C}'
  }

  function StripLeft(s: string): string {
    if s != [] && IsSpace(s[0]) then StripLeft(s[1..]) else s
  }

  function StripRight(s: string): string {
    if s != [] && IsSpace(s[|s| - 1]) then StripRight(s[..|s| - 1]) else s
  }

  /** `s.strip()` */
  function Strip(s: string): string {
    StripRight(StripLeft(s))
  }

  /** Whether the text starts with `-`, and the text after an optional sign. */
  function SplitSign(s: string): (bool, string) {
    if s != [] && s[0] == '-' then (true, s[1..])
    else if s != [] && s[0] == '+' then (false, s[1..])
    else (false, s)
  }

  /** Index of the first character of `s` that is in `cs`, or `|s|` when there is none. */
  function IndexOfAny(s: string, cs: set<char>): (r: nat)
    ensures r <= |s|
    ensures r < |s| ==> s[r] in cs
    ensures forall j :: 0 <= j < r ==> s[j] !in cs
  {
    if s == [] then 0
    else if s[0] in cs then 0
    else 1 + IndexOfAny(s[1..], cs)
  }

  /** An optional sign followed by at least one digit, nothing else. */
  function ParseSignedDigits(s: string): Option<int> {
    var (negative, digits) := SplitSign(s);
    if digits != [] && AllDigits(digits) then
      var v: int := DigitsValue(digits);
      Some(if negative then -v else v)
    else None
  }

  /** `int(s)` */
  function ParseInt(s: string): Option<int> {
    ParseSignedDigits(Strip(s))
  }

  /** Digits with an optional decimal point, at least one digit in all. */
  function ParseMantissa(m: string): Option<real> {
    var dot := IndexOfAny(m, {'.'});
    var whole := m[..dot];
    var frac := if dot < |m| then m[dot + 1..] else "";
    if AllDigits(whole) && AllDigits(frac) && |whole| + |frac| > 0 then
      assert AllDigits(whole + frac);
      Some(Fraction(DigitsValue(whole + frac), |frac|))
    else None
  }

  /** n / 10^k */
  function Fraction(n: nat, k: nat): real {
    (n as real) / (Pow10(k) as real)
  }

  /** A mantissa with an optional exponent `e<signed digits>`, no sign in front. */
  function ParseUnsignedAmount(body: string): Option<real> {
    var e := IndexOfAny(body, {'e', 'E'});
    var mantissa := ParseMantissa(body[..e]);
    var exponent := if e < |body| then ParseSignedDigits(body[e + 1..]) else Some(0);
    if mantissa.None? || exponent.None? then None
    else
      Some(Scale(mantissa.value, exponent.value))
  }

  /** m * 10^x */
  function Scale(m: real, x: int): real {
    if x >= 0 then m * (Pow10(x) as real) else m / (Pow10(-x) as real)
  }

  /** `float(s)` */
  function ParseAmount(s: string): Option<real> {
    var (negative, body) := SplitSign(Strip(s));
    match ParseUnsignedAmount(body)
    case None => None
    case Some(v) => Some(if negative then -v else v)
  }

  /** `str(n)`: the decimal digits of `n`, without leading zeros. */
  function NatText(n: nat): (r: string)
    ensures r != [] && AllDigits(r)
    ensures DigitsValue(r) == n
  {
    var last := [('0' as int + n % 10) as char];
    if n < 10 then last
    else
      var init := NatText(n / 10);
      assert DigitsValue(init + last) == DigitsValue(init) * 10 + n % 10 by {
        assert (init + last)[..|init + last| - 1] == init;
      }
      init + last
  }

  /** Different numbers are written differently. */
  lemma NatTextInjective(a: nat, b: nat)
    requires NatText(a) == NatText(b)
    ensures a == b
  {
  }

  /** Appending digits shifts the value left by that many decimal places. */
  lemma {:induction false} DigitsValueAppend(a: string, b: string)
    requires AllDigits(a) && AllDigits(b)
    ensures AllDigits(a + b)
    ensures DigitsValue(a + b) == DigitsValue(a) * Pow10(|b|) + DigitsValue(b)
    decreases |b|
  {
    assert AllDigits(a + b);
    if b != [] {
      var b' := b[..|b| - 1];
      var d := b[|b| - 1] as int - '0' as int;
      assert (a + b)[..|a + b| - 1] == a + b';
      DigitsValueAppend(a, b');
      var x, p, y := DigitsValue(a), Pow10(|b'|), DigitsValue(b');
      assert DigitsValue(a + b) == (x * p + y) * 10 + d;
      assert (x * p + y) * 10 + d == x * (10 * p) + (y * 10 + d) by {
        ShiftDistributes(x, p, y);
      }
    } else {
      assert a + b == a;
    }
  }

  /** The distributive step of `DigitsValueAppend`, kept apart so the non-linear fact is proved alone. */
  lemma ShiftDistributes(x: int, p: int, y: int)
    ensures (x * p + y) * 10 == x * (10 * p) + y * 10
  {
  }

  lemma StripUnpadded(s: string)
    requires s != [] ==> !IsSpace(s[0]) && !IsSpace(s[|s| - 1])
    ensures Strip(s) == s
  {
  }

  lemma IndexOfAnyAbsent(s: string, cs: set<char>)
    requires forall j :: 0 <= j < |s| ==> s[j] !in cs
    ensures IndexOfAny(s, cs) == |s|
  {
  }

  lemma MantissaOfDigits(d: string)
    requires d != [] && AllDigits(d)
    ensures ParseMantissa(d) == Some(DigitsValue(d) as real)
  {
    IndexOfAnyAbsent(d, {'.'});
    assert d[..|d|] == d;
    assert d + "" == d;
    assert Pow10(0) == 1;
    assert Fraction(DigitsValue(d), 0) == DigitsValue(d) as real;
  }

  /** A plain string of digits reads as that whole number, as `int` and as `float`. */
  lemma ParseDigits(d: string)
    requires d != [] && AllDigits(d)
    ensures ParseInt(d) == Some(DigitsValue(d))
    ensures ParseAmount(d) == Some(DigitsValue(d) as real)
  {
    StripUnpadded(d);
    assert SplitSign(d) == (false, d);
    IndexOfAnyAbsent(d, {'e', 'E'});
    NoExponent(d);
    MantissaOfDigits(d);
  }

  lemma DotIndexAt(m: string, dot: nat)
    requires dot < |m| && m[dot] == '.' && AllDigits(m[..dot])
    ensures IndexOfAny(m, {'.'}) == dot
  {
    assert forall j :: 0 <= j < dot ==> m[..dot][j] == m[j];
  }

  lemma FractionSplit(whole: string, frac: string)
    requires AllDigits(whole) && AllDigits(frac)
    ensures AllDigits(whole + frac)
    ensures Fraction(DigitsValue(whole + frac), |frac|) == DigitsValue(whole) as real + Fraction(DigitsValue(frac), |frac|)
  {
    DigitsValueAppend(whole, frac);
    ShiftDivide(DigitsValue(whole), DigitsValue(frac), Pow10(|frac|));
  }

  /** A mantissa with its point at `dot` reads as the whole part plus the fraction. */
  lemma MantissaAt(m: string, dot: nat)
    requires dot < |m| && m[dot] == '.' && |m| > 1
    requires AllDigits(m[..dot]) && AllDigits(m[dot + 1..])
    ensures ParseMantissa(m) == Some(DigitsValue(m[..dot]) as real + Fraction(DigitsValue(m[dot + 1..]), |m| - dot - 1))
  {
    DotIndexAt(m, dot);
    FractionSplit(m[..dot], m[dot + 1..]);
  }

  /** `"<whole>.<frac>"`, with the point at `dot`, reads as whole + frac / 10^|frac|. */
  lemma ParseDecimal(s: string, dot: nat)
    requires 0 < dot < |s| && s[dot] == '.'
    requires AllDigits(s[..dot]) && AllDigits(s[dot + 1..])
    ensures ParseAmount(s) == Some(DigitsValue(s[..dot]) as real + Fraction(DigitsValue(s[dot + 1..]), |s| - dot - 1))
  {
    assert forall j :: 0 <= j < dot ==> s[..dot][j] == s[j];
    assert forall j :: dot < j < |s| ==> s[dot + 1..][j - dot - 1] == s[j];
    StripUnpadded(s);
    assert SplitSign(s) == (false, s);
    IndexOfAnyAbsent(s, {'e', 'E'});
    NoExponent(s);
    MantissaAt(s, dot);
  }

  lemma NoExponent(body: string)
    requires IndexOfAny(body, {'e', 'E'}) == |body|
    ensures ParseUnsignedAmount(body) == ParseMantissa(body)
  {
    assert body[..|body|] == body;
    match ParseMantissa(body)
    case None =>
    case Some(m) =>
      assert Pow10(0) == 1;
      assert Scale(m, 0) == m;
  }

  lemma ShiftDivide(w: nat, f: nat, p: nat)
    requires p > 0
    ensures ((w * p + f) as real) / (p as real) == w as real + (f as real) / (p as real)
  {
    var P := p as real;
    assert (w * p) as real == (w as real) * P;
    assert ((w * p + f) as real) == (w as real) * P + f as real;
    assert ((w as real) * P + f as real) / P == (w as real) * P / P + (f as real) / P;
    assert (w as real) * P / P == w as real;
  }

  /** A single digit reads as its value. */
  lemma ParseSingleDigit(c: char)
    requires IsDigit(c)
    ensures ParseAmount([c]) == Some((c as int - '0' as int) as real)
  {
    ParseDigits([c]);
    assert [c][..0] == [];
  }

  /** Empty text is not a number. */
  lemma ParseAmountRejectsEmpty()
    ensures ParseAmount("") == None
  {
  }

  /** Text with a unit written after the number is not a number. */
  lemma ParseAmountRejectsUnit()
    ensures ParseAmount("2 tbsp") == None
  {
    var s := "2 tbsp";
    StripUnpadded(s);
    assert SplitSign(s) == (false, s);
    IndexOfAnyAbsent(s, {'e', 'E'});
    IndexOfAnyAbsent(s, {'.'});
    assert s[..6] == s;
    assert !AllDigits(s) by { assert !IsDigit(s[1]); }
    assert ParseMantissa(s) == None;
  }

  /** Whitespace around the text is ignored. */
  lemma ParseAmountIgnoresPadding(left: string, s: string, right: string)
    requires forall i :: 0 <= i < |left| ==> IsSpace(left[i])
    requires forall i :: 0 <= i < |right| ==> IsSpace(right[i])
    requires s != [] && !IsSpace(s[0])
    ensures ParseAmount(left + s + right) == ParseAmount(s)
  {
    assert left + s + right == left + (s + right);
    StripLeftSpaces(left, s + right);
    assert StripLeft(s + right) == s + right by { assert (s + right)[0] == s[0]; }
    StripRightSpaces(s, right);
    SameStripSameAmount(left + s + right, s);
  }

  lemma {:induction false} StripLeftSpaces(pad: string, t: string)
    requires forall i :: 0 <= i < |pad| ==> IsSpace(pad[i])
    ensures StripLeft(pad + t) == StripLeft(t)
    decreases |pad|
  {
    if pad != [] {
      assert (pad + t)[0] == pad[0] && (pad + t)[1..] == pad[1..] + t;
      StripLeftSpaces(pad[1..], t);
    } else {
      assert pad + t == t;
    }
  }

  lemma {:induction false} StripRightSpaces(t: string, pad: string)
    requires forall i :: 0 <= i < |pad| ==> IsSpace(pad[i])
    ensures StripRight(t + pad) == StripRight(t)
    decreases |pad|
  {
    if pad != [] {
      var init := pad[..|pad| - 1];
      assert (t + pad)[|t + pad| - 1] == pad[|pad| - 1] && (t + pad)[..|t + pad| - 1] == t + init;
      StripRightSpaces(t, init);
    } else {
      assert t + pad == t;
    }
  }

  lemma SameStripSameAmount(s: string, t: string)
    requires Strip(s) == Strip(t)
    ensures ParseAmount(s) == ParseAmount(t)
  {
  }

  /** A sign and an exponent are read. */
  lemma ParseAmountSignedExponent()
    ensures ParseAmount("-1e2") == Some(-100.0)
  {
    StripUnpadded("-1e2");
    assert SplitSign("-1e2") == (true, "1e2");
    assert IndexOfAny("1e2", {'e', 'E'}) == 1;
    assert "1e2"[..1] == "1" && "1e2"[2..] == "2";
    MantissaOfDigits("1");
    assert DigitsValue("1") == 1 && DigitsValue("2") == 2;
    assert SplitSign("2") == (false, "2");
    assert ParseSignedDigits("2") == Some(2);
    assert Pow10(2) == 100;
    assert Scale(1.0, 2) == 100.0;
  }
}
