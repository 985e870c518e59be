/**
 * The part of Go's `strconv.ParseFloat(s, 32)` that a scraped percent can
 * exercise: an optional sign, decimal digits with at most one decimal point and
 * at least one digit, and the range error for magnitudes that round beyond the
 * largest float32. Values are exact reals (no rounding to float32).
 */
module GoStrconv {

  import opened Wrappers

  predicate IsDigit(c: char) {
    '0' <= c <= '9'
  }

  predicate AllDigits(s: string) {
    forall i :: 0 <= i < |s| ==> IsDigit(s[i])
  }

  function Pow10(n: nat): (p: nat)
    ensures p >= 1
  {
    if n == 0 then 1 else 10 * Pow10(n - 1)
  }

  /** The value of a string of decimal digits, most significant first; it has at most `|s|` digits. */
  function DigitsValue(s: string): (n: nat)
    requires AllDigits(s)
    ensures n < Pow10(|s|)
  {
    if s == [] then 0
    else 10 * DigitsValue(s[..|s| - 1]) + (s[|s| - 1] as int - '0' as int)
  }

  /** Position of the first `c` in `s`, or `|s|` when there is none. */
  function IndexOf(s: string, c: char): (k: nat)
    ensures k <= |s|
    ensures k < |s| ==> s[k] == c
    ensures forall j :: 0 <= j < k ==> s[j] != c
  {
    if s == [] || s[0] == c then 0 else 1 + IndexOf(s[1..], c)
  }

  /** The value of the digits after the decimal point, 0.d1d2... = (d1 + 0.d2...) / 10. */
  function Fraction(frac: string): (f: real)
    requires AllDigits(frac)
    ensures 0.0 <= f < 1.0
  {
    if frac == [] then 0.0 else ((frac[0] as int - '0' as int) as real + Fraction(frac[1..])) / 10.0
  }

  /** The digits before and after the decimal point; at least one digit in all. */
  function ParseParts(whole: string, frac: string): (r: Option<real>)
    ensures r.Some? ==> r.value >= 0.0
  {
    if |whole| + |frac| > 0 && AllDigits(whole) && AllDigits(frac) then
      Some(DigitsValue(whole) as real + Fraction(frac))
    else
      None
  }

  /** Digits, optionally followed by a point and more digits. */
  function ParseUnsigned(s: string): (r: Option<real>)
    ensures r.Some? ==> r.value >= 0.0
  {
    var k := IndexOf(s, '.');
    if k < |s| then ParseParts(s[..k], s[k + 1..]) else ParseParts(s, "")
  }

  function Negated(r: Option<real>): Option<real> {
    match r
    case Some(v) => Some(-v)
    case None => None
  }

  /** An optionally signed decimal number. */
  function ParseDecimal(s: string): (r: Option<real>)
    ensures r.Some? && r.value < 0.0 ==> |s| > 0 && s[0] == '-'
  {
    if |s| > 0 && s[0] == '-' then
      Negated(ParseUnsigned(s[1..]))
    else if |s| > 0 && s[0] == '+' then
      ParseUnsigned(s[1..])
    else
      ParseUnsigned(s)
  }

  /**
   * Half an ulp above the largest float32, 2^128 - 2^103: a decimal value whose
   * magnitude reaches it rounds to infinity, and ParseFloat reports a range error.
   */
  const Float32Overflow: real := 340282356779733661637539395458142568448.0

  /** `strconv.ParseFloat(s, 32)` on decimal input: `None` stands for a returned error. */
  function ParseFloat32(s: string): (r: Option<real>)
    ensures r.Some? ==> -Float32Overflow < r.value < Float32Overflow
  {
    match ParseDecimal(s)
    case None => None
    case Some(v) => if v <= -Float32Overflow || Float32Overflow <= v then None else Some(v)
  }

  /** A character the decimal grammar can contain. */
  predicate IsDecimalChar(c: char) {
    IsDigit(c) || c == '.' || c == '+' || c == '-'
  }

  /**
   * What ParseFloat32 accepts: a non-empty string with at least one digit, no
   * character outside digits, point and sign, and no sign after the first
   * position. In particular the empty string, white space and `%` are errors.
   */
  lemma ParseFloat32Accepts(s: string)
    requires ParseFloat32(s).Some?
    ensures |s| > 0
    ensures forall i :: 0 <= i < |s| ==> IsDecimalChar(s[i])
    ensures forall i :: 0 < i < |s| ==> s[i] != '+' && s[i] != '-'
    ensures exists i :: 0 <= i < |s| && IsDigit(s[i])
    ensures forall i, j :: 0 <= i < j < |s| && s[i] == '.' ==> s[j] != '.'
  {
    var u := if |s| > 0 && (s[0] == '-' || s[0] == '+') then s[1..] else s;
    assert ParseUnsigned(u).Some?;
    var d := ParseUnsignedAccepts(u);
    forall i | 0 <= i < |s|
      ensures IsDecimalChar(s[i])
      ensures i > 0 ==> s[i] != '+' && s[i] != '-'
    {
      if u != s && i > 0 {
        assert s[i] == u[i - 1];
      }
    }
    if u != s {
      assert IsDigit(s[d + 1]);
      forall i, j | 0 <= i < j < |s| && s[i] == '.'
        ensures s[j] != '.'
      {
        assert s[i] == u[i - 1] && s[j] == u[j - 1];
      }
    } else {
      assert IsDigit(s[d]);
    }
  }

  /** What ParseUnsigned accepts: digits and at most one point, with some digit at index `d`. */
  lemma ParseUnsignedAccepts(u: string) returns (d: nat)
    requires ParseUnsigned(u).Some?
    ensures forall i :: 0 <= i < |u| ==> IsDigit(u[i]) || u[i] == '.'
    ensures d < |u| && IsDigit(u[d])
    ensures forall i, j :: 0 <= i < j < |u| && u[i] == '.' ==> u[j] != '.'
  {
    var k := IndexOf(u, '.');
    var frac := if k < |u| then u[k + 1..] else "";
    assert AllDigits(u[..k]) && AllDigits(frac) && k + |frac| > 0 by {
      if k == |u| {
        assert u[..k] == u;
      }
    }
    forall i | 0 <= i < |u|
      ensures IsDigit(u[i]) || u[i] == '.'
    {
      if i < k {
        assert u[i] == u[..k][i];
      } else if i > k {
        assert u[i] == frac[i - k - 1];
      }
    }
    if k > 0 {
      d := 0;
      assert IsDigit(u[..k][0]);
    } else {
      d := |u| - 1;
      assert u[d] == frac[|frac| - 1];
    }
  }

  lemma {:induction false} Pow10Monotone(n: nat, m: nat)
    requires n <= m
    ensures Pow10(n) <= Pow10(m)
    decreases m
  {
    if n < m {
      Pow10Monotone(n, m - 1);
    }
  }

  /**
   * At most 38 integer digits never reach the float32 overflow bound, even with
   * a fraction added, so a percent of that length never fails with a range error.
   */
  lemma ShortDigitsInRange(s: string)
    requires AllDigits(s) && |s| <= 38
    ensures (DigitsValue(s) as real) + 1.0 < Float32Overflow
  {
    Pow10Monotone(|s|, 38);
    Pow10Of38();
  }

  lemma Pow10Of38()
    ensures Pow10(38) == 100000000000000000000000000000000000000
  {
    assert Pow10(2) == 100;
    Pow10Add(2, 2);
    Pow10Add(4, 4);
    Pow10Add(8, 8);
    Pow10Add(16, 16);
    Pow10Add(32, 4);
    Pow10Add(36, 2);
  }

  lemma {:induction false} Pow10Add(a: nat, b: nat)
    ensures Pow10(a + b) == Pow10(a) * Pow10(b)
    decreases b
  {
    if b > 0 {
      Pow10Add(a, b - 1);
      assert Pow10(a + b) == 10 * Pow10(a + b - 1);
    }
  }

  /** A string without `c` has no index of `c`. */
  lemma {:induction false} IndexOfAbsent(s: string, c: char)
    requires forall i :: 0 <= i < |s| ==> s[i] != c
    ensures IndexOf(s, c) == |s|
  {
    if s != [] {
      IndexOfAbsent(s[1..], c);
    }
  }

  /** A character outside the decimal grammar anywhere in the text makes the parse fail. */
  lemma ParseRejectsChar(s: string, i: int)
    requires 0 <= i < |s| && !IsDecimalChar(s[i])
    ensures ParseFloat32(s).None?
  {
    if ParseFloat32(s).Some? {
      ParseFloat32Accepts(s);
    }
  }

  /** A plain run of digits parses to its value. */
  lemma ParseDigits(s: string)
    requires |s| > 0 && AllDigits(s) && (DigitsValue(s) as real) < Float32Overflow
    ensures ParseFloat32(s) == Some(DigitsValue(s) as real)
  {
    IndexOfAbsent(s, '.');
    assert ParseUnsigned(s) == ParseParts(s, "");
    assert ParseParts(s, "") == Some(DigitsValue(s) as real);
    assert s[0] != '-' && s[0] != '+';
  }

  /** `whole.frac` with both parts plain digits reads as whole + frac / 10^|frac|. */
  lemma ParseUnsignedPoint(whole: string, frac: string)
    requires |whole| > 0 && AllDigits(whole) && AllDigits(frac)
    ensures ParseUnsigned(whole + "." + frac) == Some(DigitsValue(whole) as real + Fraction(frac))
    ensures (whole + "." + frac)[0] == whole[0]
  {
    var s := whole + "." + frac;
    forall i | 0 <= i < |whole|
      ensures whole[i] != '.'
    {
      assert IsDigit(whole[i]);
    }
    IndexOfAbsent(whole, '.');
    IndexOfAfter(whole, ".", frac);
    assert s[..|whole|] == whole;
    assert s[|whole| + 1..] == frac;
    ParseUnsignedSplit(s, |whole|);
  }

  /** A number with its first point at `k` is read as the digits before and after it. */
  lemma ParseUnsignedSplit(s: string, k: nat)
    requires k < |s| && IndexOf(s, '.') == k
    ensures ParseUnsigned(s) == ParseParts(s[..k], s[k + 1..])
  {
  }

  /** Within the float32 range, `whole.frac` parses to its value. */
  lemma ParseFloat32Point(whole: string, frac: string)
    requires |whole| > 0 && AllDigits(whole) && AllDigits(frac)
    requires (DigitsValue(whole) as real) + 1.0 < Float32Overflow
    ensures ParseFloat32(whole + "." + frac) == Some(DigitsValue(whole) as real + Fraction(frac))
  {
    ParseUnsignedPoint(whole, frac);
    ParseFloat32Plain(whole + "." + frac, DigitsValue(whole) as real + Fraction(frac));
  }

  /** An unsigned number in range that starts with a digit is returned as is. */
  lemma ParseFloat32Plain(u: string, v: real)
    requires |u| > 0 && IsDigit(u[0])
    requires ParseUnsigned(u) == Some(v) && v < Float32Overflow
    ensures ParseFloat32(u) == Some(v)
  {
    ParseDecimalUnsigned(u);
    ParseFloat32InRange(u, v);
  }

  /** Within the float32 range, `-whole.frac` parses to the negated value. */
  lemma ParseFloat32NegativePoint(whole: string, frac: string)
    requires |whole| > 0 && AllDigits(whole) && AllDigits(frac)
    requires (DigitsValue(whole) as real) + 1.0 < Float32Overflow
    ensures ParseFloat32("-" + (whole + "." + frac)) == Some(-(DigitsValue(whole) as real + Fraction(frac)))
  {
    ParseUnsignedPoint(whole, frac);
    ParseFloat32Minus(whole + "." + frac, DigitsValue(whole) as real + Fraction(frac));
  }

  /** A minus sign in front of an unsigned number in range negates it. */
  lemma ParseFloat32Minus(u: string, v: real)
    requires ParseUnsigned(u) == Some(v) && v < Float32Overflow
    ensures ParseFloat32("-" + u) == Some(-v)
  {
    ParseDecimalMinus(u);
    ParseFloat32InRange("-" + u, -v);
  }

  /** A decimal value inside the float32 range is returned as is. */
  lemma ParseFloat32InRange(s: string, v: real)
    requires ParseDecimal(s) == Some(v) && -Float32Overflow < v < Float32Overflow
    ensures ParseFloat32(s) == Some(v)
  {
  }

  lemma ParseDecimalUnsigned(u: string)
    requires |u| > 0 && u[0] != '-' && u[0] != '+'
    ensures ParseDecimal(u) == ParseUnsigned(u)
  {
  }

  lemma ParseDecimalMinus(u: string)
    ensures ParseDecimal("-" + u) == Negated(ParseUnsigned(u))
  {
    assert ("-" + u)[0] == '-';
    assert ("-" + u)[1..] == u;
  }

  /** The first `c` of a string starting with a `c`-free part and then `c` sits right after that part. */
  lemma {:induction false} IndexOfAfter(w: string, c: string, f: string)
    requires |c| == 1 && IndexOf(w, c[0]) == |w|
    ensures IndexOf(w + c + f, c[0]) == |w|
  {
    if w != [] {
      assert (w + c + f)[1..] == w[1..] + c + f;
      assert w[0] != c[0];
      IndexOfAfter(w[1..], c, f);
    }
  }

}
