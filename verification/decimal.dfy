/** The part of Python's `float(text)` the estimators rely on, restricted to
    plain decimals: surrounding whitespace, an optional sign, digits, an
    optional fraction. Values are exact reals. */
module Decimal {
  import opened Results
  import opened Text

  predicate IsDigit(c: char) {
    '0' <= c <= '9'
  }

  predicate AllDigits(s: string) {
    forall i :: 0 <= i < |s| ==> IsDigit(s[i])
  }

  predicate HasDigit(s: string) {
    exists i :: 0 <= i < |s| && IsDigit(s[i])
  }

  function DigitValue(c: char): (d: nat)
    requires IsDigit(c)
    ensures d < 10
  {
    c as int - '0' as int
  }

  /** The value of a string of decimal digits read as a whole number. */
  function WholeValue(s: string): nat
    requires AllDigits(s)
  {
    if |s| == 0 then 0 else 10 * WholeValue(s[..|s| - 1]) + DigitValue(s[|s| - 1])
  }

  /** The value of the digits after a decimal point: `0.d1 d2 d3 ...`. */
  function FractionValue(s: string): (r: real)
    requires AllDigits(s)
    ensures 0.0 <= r < 1.0
  {
    if |s| == 0 then 0.0 else (DigitValue(s[0]) as real + FractionValue(s[1..])) / 10.0
  }

  /** An unsigned decimal: `digits`, `digits.`, `.digits` or `digits.digits`. */
  function ParseUnsigned(t: string): (r: Option<real>)
    ensures r.Some? ==> HasDigit(t) && 0.0 <= r.value
  {
    if '.' in t then
      var i := IndexOf(t, '.');
      var whole, frac := t[..i], t[i + 1..];
      if AllDigits(whole) && AllDigits(frac) && |whole| + |frac| > 0 then
        assert |whole| > 0 ==> t[0] == whole[0];
        assert |whole| == 0 ==> t[i + 1] == frac[0];
        Some(WholeValue(whole) as real + FractionValue(frac))
      else None
    else if |t| > 0 && AllDigits(t) then
      Some(WholeValue(t) as real)
    else None
  }

  /** A signed decimal with no surrounding whitespace. */
  function ParseSigned(t: string): (r: Option<real>)
    ensures r.Some? ==> HasDigit(t)
    ensures r.Some? && r.value < 0.0 ==> t[0] == '-'
  {
    if |t| > 0 && (t[0] == '-' || t[0] == '+') then
      var u := ParseUnsigned(t[1..]);
      if u.None? then None
      else
        DigitInTail(t);
        if t[0] == '-' then Some(-u.value) else u
    else
      ParseUnsigned(t)
  }

  /** `float(text)` on the restricted grammar; `None` where Python raises
      `ValueError`. */
  function ParseDecimal(text: string): (r: Option<real>)
    ensures r.Some? ==> HasDigit(Strip(text))
    ensures r.Some? && r.value < 0.0 ==> Strip(text)[0] == '-'
  {
    ParseSigned(Strip(text))
  }

  /** No two `.` in `t`. */
  predicate AtMostOneDot(t: string) {
    forall i, j :: 0 <= i < j < |t| && t[i] == '.' ==> t[j] != '.'
  }

  /** The texts the unsigned grammar accepts: digits and at most one `.`,
      with at least one digit. */
  predicate UnsignedText(t: string) {
    HasDigit(t) && (forall i :: 0 <= i < |t| ==> IsDigit(t[i]) || t[i] == '.') && AtMostOneDot(t)
  }

  /** The texts the signed grammar accepts: an optional `+` or `-` in front
      of an unsigned text. */
  predicate SignedText(t: string) {
    |t| > 0 && if t[0] == '-' || t[0] == '+' then UnsignedText(t[1..]) else UnsignedText(t)
  }

  /** Exactly the texts of the unsigned grammar parse. */
  lemma {:induction false} ParseUnsignedAccepts(t: string)
    ensures ParseUnsigned(t).Some? <==> UnsignedText(t)
  {
    if '.' in t {
      var i := IndexOf(t, '.');
      var whole, frac := t[..i], t[i + 1..];
      assert forall k :: 0 <= k < i ==> t[k] == whole[k];
      assert forall k :: i < k < |t| ==> t[k] == frac[k - i - 1];
      if ParseUnsigned(t).Some? {
        assert forall k :: 0 <= k < |t| && t[k] == '.' ==> k == i;
      }
      if UnsignedText(t) {
        assert forall k :: i < k < |t| ==> t[k] != '.';
        var k :| 0 <= k < |t| && IsDigit(t[k]);
        assert k != i;
      }
    } else if UnsignedText(t) {
      var k :| 0 <= k < |t| && IsDigit(t[k]);
    }
  }

  /** Exactly the texts whose stripped form is in the signed grammar
      parse: anything else is a `ValueError`. */
  lemma {:induction false} ParseDecimalAccepts(text: string)
    ensures ParseDecimal(text).Some? <==> SignedText(Strip(text))
  {
    var t := Strip(text);
    if |t| > 0 && (t[0] == '-' || t[0] == '+') {
      ParseUnsignedAccepts(t[1..]);
    } else {
      ParseUnsignedAccepts(t);
      if UnsignedText(t) {
        var k :| 0 <= k < |t| && IsDigit(t[k]);
      }
    }
  }

  /** A character after the first that is neither a digit nor the point
      makes the text no number: a unit after it ("5 days"), a range
      ("3-5"), a doubled sign ("+-1"). */
  lemma {:induction false} StrayCharRejected(text: string, k: nat)
    requires 0 < k < |Strip(text)|
    requires !IsDigit(Strip(text)[k]) && Strip(text)[k] != '.'
    ensures ParseDecimal(text) == None
  {
    ParseDecimalAccepts(text);
    StrayCharNotSigned(Strip(text), k);
  }

  lemma {:induction false} StrayCharNotSigned(t: string, k: nat)
    requires 0 < k < |t| && !IsDigit(t[k]) && t[k] != '.'
    ensures !SignedText(t)
  {
    assert t[1..][k - 1] == t[k];
  }

  /** A second point after the first character makes the text no number
      ("1.2.3"). */
  lemma {:induction false} SecondDotRejected(text: string, i: nat, j: nat)
    requires 0 < i < j < |Strip(text)|
    requires Strip(text)[i] == '.' && Strip(text)[j] == '.'
    ensures ParseDecimal(text) == None
  {
    ParseDecimalAccepts(text);
    SecondDotNotSigned(Strip(text), i, j);
  }

  lemma {:induction false} SecondDotNotSigned(t: string, i: nat, j: nat)
    requires 0 < i < j < |t| && t[i] == '.' && t[j] == '.'
    ensures !SignedText(t)
  {
    assert t[1..][i - 1] == '.' && t[1..][j - 1] == '.';
  }

  lemma {:induction false} DigitInTail(t: string)
    requires |t| > 0 && HasDigit(t[1..])
    ensures HasDigit(t)
  {
    var i :| 0 <= i < |t[1..]| && IsDigit(t[1..][i]);
    assert IsDigit(t[i + 1]);
  }

  /** Text with no digit in it never parses. */
  lemma {:induction false} NoDigitNoNumber(text: string)
    requires !HasDigit(text)
    ensures ParseDecimal(text) == None
  {
    StripIsInfix(text);
    var i, j :| 0 <= i <= j <= |text| && Strip(text) == text[i..j];
    NoDigitInSlice(text, i, j);
  }

  lemma {:induction false} NoDigitInSlice(text: string, i: nat, j: nat)
    requires !HasDigit(text) && i <= j <= |text|
    ensures !HasDigit(text[i..j])
  {
    assert forall k :: 0 <= k < j - i ==> text[i..j][k] == text[i + k];
  }

  function DigitChar(d: nat): (c: char)
    requires d < 10
    ensures IsDigit(c) && DigitValue(c) == d
  {
    ('0' as int + d) as char
  }

  /** The shortest decimal digits of `n`, as Python's `str(n)` writes them. */
  function ShowNat(n: nat): (s: string)
    ensures |s| >= 1 && AllDigits(s)
  {
    if n < 10 then [DigitChar(n)] else ShowNat(n / 10) + [DigitChar(n % 10)]
  }

  lemma {:induction false} WholeValueShowNat(n: nat)
    ensures WholeValue(ShowNat(n)) == n
  {
    if n >= 10 {
      var s := ShowNat(n);
      assert s[..|s| - 1] == ShowNat(n / 10);
      WholeValueShowNat(n / 10);
    }
  }

  /** The unsigned part of a written number: whole digits and an optional
      fraction part. */
  function Magnitude(whole: nat, frac: string): (m: string)
    ensures |m| > 0 && IsDigit(m[0])
  {
    var w := ShowNat(whole);
    if frac == "" then w else w + "." + frac
  }

  /** A number written with an optional minus sign, whole digits and an
      optional fraction part. */
  function Show(negative: bool, whole: nat, frac: string): string
  {
    if negative then "-" + Magnitude(whole, frac) else Magnitude(whole, frac)
  }

  /** The value a written number denotes. */
  function ShownValue(negative: bool, whole: nat, frac: string): real
    requires AllDigits(frac)
  {
    var magnitude := whole as real + FractionValue(frac);
    if negative then -magnitude else magnitude
  }

  /** The unsigned part of a written number parses to its value. */
  lemma {:induction false} ParseUnsignedShow(whole: nat, frac: string)
    requires AllDigits(frac)
    ensures ParseUnsigned(Magnitude(whole, frac)) == Some(whole as real + FractionValue(frac))
  {
    var w := ShowNat(whole);
    var body := Magnitude(whole, frac);
    WholeValueShowNat(whole);
    if frac == "" {
      assert '.' !in body;
    } else {
      assert body == w + ['.'] + frac;
      assert body[|w|] == '.';
      assert forall j :: 0 <= j < |w| ==> body[j] == w[j];
      IndexOfUnique(body, '.', |w|);
      assert body[..|w|] == w && body[|w| + 1..] == frac;
    }
  }

  /** A written number has no whitespace at either end. */
  lemma {:induction false} ShowIsTrimmed(negative: bool, whole: nat, frac: string)
    requires AllDigits(frac)
    ensures IsTrimmed(Show(negative, whole, frac))
  {
    var w := ShowNat(whole);
    var m := Magnitude(whole, frac);
    assert m[|m| - 1] == (if frac == "" then w[|w| - 1] else frac[|frac| - 1]);
    var s := Show(negative, whole, frac);
    assert s[|s| - 1] == m[|m| - 1];
    assert s[0] == (if negative then '-' else m[0]);
  }

  /** Whitespace padding around a trimmed text does not change what it
      parses to. */
  lemma {:induction false} ParsePadded(lead: string, t: string, trail: string)
    requires AllSpace(lead) && AllSpace(trail) && IsTrimmed(t)
    ensures ParseDecimal(lead + t + trail) == ParseDecimal(t)
  {
    StripPadded(lead, t, trail);
    StripPadded("", t, "");
    assert "" + t + "" == t;
    assert Strip(lead + t + trail) == Strip(t);
  }

  /** A written number parses to its value. */
  lemma {:induction false} ParseShowExact(negative: bool, whole: nat, frac: string)
    requires AllDigits(frac)
    ensures ParseDecimal(Show(negative, whole, frac))
         == Some(ShownValue(negative, whole, frac))
  {
    var s := Show(negative, whole, frac);
    ShowIsTrimmed(negative, whole, frac);
    StripPadded("", s, "");
    assert "" + s + "" == s;
    SignedShow(negative, whole, frac);
  }

  lemma {:induction false} SignedShow(negative: bool, whole: nat, frac: string)
    requires AllDigits(frac)
    ensures ParseSigned(Show(negative, whole, frac)) == Some(ShownValue(negative, whole, frac))
  {
    var m := Magnitude(whole, frac);
    ParseUnsignedShow(whole, frac);
    if negative {
      var s := "-" + m;
      assert s[1..] == m;
      SignedMinus(s, whole as real + FractionValue(frac));
    } else {
      SignedDigitStart(m);
    }
  }

  lemma {:induction false} SignedDigitStart(t: string)
    requires |t| > 0 && IsDigit(t[0])
    ensures ParseSigned(t) == ParseUnsigned(t)
  {
  }

  lemma {:induction false} SignedMinus(t: string, v: real)
    requires |t| > 0 && t[0] == '-' && ParseUnsigned(t[1..]) == Some(v)
    ensures ParseSigned(t) == Some(-v)
  {
  }

  /** Parsing a written number, padded with whitespace on both sides, gives
      back its value. */
  lemma {:induction false} ParseShow(lead: string, negative: bool, whole: nat, frac: string, trail: string)
    requires AllSpace(lead) && AllSpace(trail) && AllDigits(frac)
    ensures ParseDecimal(lead + Show(negative, whole, frac) + trail)
         == Some(ShownValue(negative, whole, frac))
  {
    ShowIsTrimmed(negative, whole, frac);
    ParsePadded(lead, Show(negative, whole, frac), trail);
    ParseShowExact(negative, whole, frac);
  }

  /** A written sign: none, `+` or `-`. */
  predicate IsSign(sign: string) {
    sign == "" || sign == "+" || sign == "-"
  }

  /** The value of the digits `w` before a point and `f` after it. */
  function PointValue(w: string, f: string): real
    requires AllDigits(w) && AllDigits(f)
  {
    WholeValue(w) as real + FractionValue(f)
  }

  /** The value `v` carries under a written sign. */
  function Signed(sign: string, v: real): real {
    if sign == "-" then -v else v
  }

  /** Any numeral with a point, with or without a sign, leading zeros or
      digits on either side, and padded with whitespace, parses to its
      value: `+5.`, `05.25`, ` -.5 `. */
  lemma {:induction false} ParseWritten(lead: string, sign: string, w: string, f: string, trail: string)
    requires AllSpace(lead) && AllSpace(trail) && IsSign(sign)
    requires AllDigits(w) && AllDigits(f) && |w| + |f| > 0
    ensures ParseDecimal(lead + sign + w + "." + f + trail) == Some(Signed(sign, PointValue(w, f)))
  {
    var u := w + "." + f;
    DottedParses(lead, sign, w, f, u, PointValue(w, f), trail);
    Regroup(lead, sign, w, ".", f, trail);
  }

  lemma {:induction false} DottedParses(lead: string, sign: string, w: string, f: string, u: string, v: real, trail: string)
    requires AllSpace(lead) && AllSpace(trail) && IsSign(sign)
    requires AllDigits(w) && AllDigits(f) && |w| + |f| > 0 && u == w + "." + f
    requires v == PointValue(w, f)
    ensures ParseDecimal(lead + (sign + u) + trail) == Some(Signed(sign, v))
  {
    DottedEnds(w, f, u, v);
    NumeralParses(lead, sign, u, trail, v);
  }

  lemma {:induction false} DottedEnds(w: string, f: string, u: string, v: real)
    requires AllDigits(w) && AllDigits(f) && |w| + |f| > 0 && u == w + "." + f
    requires v == PointValue(w, f)
    ensures |u| > 0 && (IsDigit(u[0]) || u[0] == '.') && (IsDigit(u[|u| - 1]) || u[|u| - 1] == '.')
    ensures ParseUnsigned(u) == Some(v)
  {
    UnsignedDotted(w, f);
    assert u[|u| - 1] == (if |f| > 0 then f[|f| - 1] else '.');
    assert u[0] == (if |w| > 0 then w[0] else '.');
  }

  /** Any numeral without a point, with or without a sign and leading
      zeros, and padded with whitespace, parses to its value: `+5`, `007`. */
  lemma {:induction false} ParseWrittenWhole(lead: string, sign: string, w: string, trail: string)
    requires AllSpace(lead) && AllSpace(trail) && IsSign(sign)
    requires AllDigits(w) && |w| > 0
    ensures ParseDecimal(lead + sign + w + trail) == Some(Signed(sign, WholeValue(w) as real))
  {
    assert '.' !in w by {
      assert forall k :: 0 <= k < |w| ==> IsDigit(w[k]);
    }
    RegroupWhole(lead, sign, w, trail);
    NumeralParses(lead, sign, w, trail, WholeValue(w) as real);
  }

  lemma Regroup(lead: string, sign: string, w: string, dot: string, f: string, trail: string)
    ensures lead + sign + w + dot + f + trail == lead + (sign + (w + dot + f)) + trail
  {
  }

  lemma RegroupWhole(lead: string, sign: string, w: string, trail: string)
    ensures lead + sign + w + trail == lead + (sign + w) + trail
  {
  }

  /** Digits around a point parse to their value, either side possibly
      empty. */
  lemma {:induction false} UnsignedDotted(w: string, f: string)
    requires AllDigits(w) && AllDigits(f) && |w| + |f| > 0
    ensures ParseUnsigned(w + "." + f) == Some(WholeValue(w) as real + FractionValue(f))
  {
    var u := w + "." + f;
    assert u[|w|] == '.';
    assert forall j :: 0 <= j < |w| ==> u[j] == w[j];
    IndexOfUnique(u, '.', |w|);
    assert u[..|w|] == w && u[|w| + 1..] == f;
  }

  /** A sign in front of an unsigned numeral, padded with whitespace,
      applies to the numeral's value. */
  lemma {:induction false} NumeralParses(lead: string, sign: string, u: string, trail: string, v: real)
    requires AllSpace(lead) && AllSpace(trail) && IsSign(sign)
    requires |u| > 0 && (IsDigit(u[0]) || u[0] == '.') && (IsDigit(u[|u| - 1]) || u[|u| - 1] == '.')
    requires ParseUnsigned(u) == Some(v)
    ensures ParseDecimal(lead + (sign + u) + trail) == Some(Signed(sign, v))
  {
    var t := sign + u;
    NumeralTrimmed(sign, u);
    SignedNumeral(sign, u, v);
    ParsePadded(lead, t, trail);
    ParseTrimmed(t);
  }

  lemma {:induction false} ParseTrimmed(t: string)
    requires IsTrimmed(t)
    ensures ParseDecimal(t) == ParseSigned(t)
  {
    StripPadded("", t, "");
    assert "" + t + "" == t;
  }

  lemma {:induction false} NumeralTrimmed(sign: string, u: string)
    requires IsSign(sign)
    requires |u| > 0 && (IsDigit(u[0]) || u[0] == '.') && (IsDigit(u[|u| - 1]) || u[|u| - 1] == '.')
    ensures IsTrimmed(sign + u)
  {
    var t := sign + u;
    assert t[|t| - 1] == u[|u| - 1];
    assert t[0] == (if sign == "" then u[0] else sign[0]);
  }

  lemma {:induction false} SignedNumeral(sign: string, u: string, v: real)
    requires IsSign(sign)
    requires |u| > 0 && (IsDigit(u[0]) || u[0] == '.')
    requires ParseUnsigned(u) == Some(v)
    ensures ParseSigned(sign + u) == Some(Signed(sign, v))
  {
    var t := sign + u;
    if sign == "" {
      assert t == u;
    } else {
      assert t[0] == sign[0] && t[1..] == u;
    }
  }
}
