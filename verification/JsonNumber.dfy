/**
 Number literals of tools/gason.cpp: the language `string2double` reads, what it
 computes in exact real arithmetic, and when that is the value RFC 8259 gives the literal.
 */
module JsonNumber {
  import opened Options
  import opened Texts
  import opened JsonChars

  datatype Exponent = Exponent(mark: char, sign: string, digits: string)

  /** A literal cut into its parts; every part but the mark may be empty. */
  datatype Literal = Literal(negative: bool, whole: string, fraction: Option<string>, exponent: Option<Exponent>)

  const UINT_RANGE: nat := 0x1_0000_0000

  predicate IsSign(sign: string) {
    sign == "" || sign == "+" || sign == "-"
  }

  ghost predicate WellFormedExponent(e: Option<Exponent>) {
    e.Some? ==>
      && (e.value.mark == 'e' || e.value.mark == 'E')
      && IsSign(e.value.sign)
      && AllDigits(e.value.digits)
  }

  ghost predicate WellFormedFraction(f: Option<string>) {
    f.Some? ==> AllDigits(f.value)
  }

  ghost predicate WellFormed(l: Literal) {
    && AllDigits(l.whole)
    && WellFormedFraction(l.fraction)
    && WellFormedExponent(l.exponent)
  }

  function SpellFraction(f: Option<string>): string {
    if f.None? then "" else "." + f.value
  }

  function SpellExponent(e: Option<Exponent>): string {
    if e.None? then "" else [e.value.mark] + e.value.sign + e.value.digits
  }

  function SpellMinus(negative: bool): string {
    if negative then "-" else ""
  }

  function Spell(l: Literal): string {
    SpellMinus(l.negative) + l.whole + SpellFraction(l.fraction) + SpellExponent(l.exponent)
  }

  // ---------- scanning ----------

  function Digits(text: string, i: nat): (ds: string)
    requires i <= |text|
    ensures AllDigits(ds)
  {
    text[i..DigitsEnd(text, i)]
  }

  function ScanFraction(text: string, i: nat): (r: (Option<string>, nat))
    requires i <= |text|
    ensures i <= r.1 <= |text| && WellFormedFraction(r.0)
  {
    if At(text, i) == '.' then (Some(Digits(text, i + 1)), DigitsEnd(text, i + 1)) else (None, i)
  }

  function SignEnd(text: string, i: nat): (j: nat)
    requires i <= |text|
    ensures i <= j <= |text|
  {
    if At(text, i) == '+' || At(text, i) == '-' then i + 1 else i
  }

  function ScanSign(text: string, i: nat): (s: string)
    requires i <= |text|
    ensures IsSign(s)
  {
    if At(text, i) == '+' then "+" else if At(text, i) == '-' then "-" else ""
  }

  function ScanExponent(text: string, i: nat): (r: (Option<Exponent>, nat))
    requires i <= |text|
    ensures i <= r.1 <= |text| && WellFormedExponent(r.0)
  {
    if At(text, i) == 'e' || At(text, i) == 'E' then
      var d := SignEnd(text, i + 1);
      (Some(Exponent(text[i], ScanSign(text, i + 1), Digits(text, d))), DigitsEnd(text, d))
    else (None, i)
  }

  /** The literal at `i` and the first position behind it. */
  function Scan(text: string, i: nat): (r: (Literal, nat))
    requires i <= |text|
    ensures i <= r.1 <= |text| && WellFormed(r.0)
  {
    var w := if At(text, i) == '-' then i + 1 else i;
    var fraction := ScanFraction(text, DigitsEnd(text, w));
    var exponent := ScanExponent(text, fraction.1);
    (Literal(At(text, i) == '-', Digits(text, w), fraction.0, exponent.0), exponent.1)
  }

  /** The four parts of a literal stand one behind the other from `i` on. */
  ghost predicate PartsOccur(text: string, i: nat, l: Literal) {
    var w := i + |SpellMinus(l.negative)|;
    var f := w + |l.whole|;
    && Occurs(text, i, SpellMinus(l.negative))
    && Occurs(text, w, l.whole)
    && Occurs(text, f, SpellFraction(l.fraction))
    && Occurs(text, f + |SpellFraction(l.fraction)|, SpellExponent(l.exponent))
  }

  lemma SpelledInParts(text: string, i: nat, l: Literal)
    ensures Occurs(text, i, Spell(l)) <==> PartsOccur(text, i, l)
    ensures |Spell(l)| == |SpellMinus(l.negative)| + |l.whole| + |SpellFraction(l.fraction)|
      + |SpellExponent(l.exponent)|
  {
    hide Occurs, SpellMinus, SpellFraction, SpellExponent;
    var a, b, c, d := SpellMinus(l.negative), l.whole, SpellFraction(l.fraction), SpellExponent(l.exponent);
    OccursConcat(text, i, a, b);
    OccursConcat(text, i, a + b, c);
    OccursConcat(text, i, a + b + c, d);
  }

  lemma FractionSpelled(text: string, i: nat)
    requires i <= |text|
    ensures var r := ScanFraction(text, i); Occurs(text, i, SpellFraction(r.0)) && r.1 == i + |SpellFraction(r.0)|
  {
    if At(text, i) == '.' {
      SliceOccurs(text, i + 1, DigitsEnd(text, i + 1));
      OccursConcat(text, i, ".", Digits(text, i + 1));
    }
  }

  lemma ExponentSpelled(text: string, i: nat)
    requires i <= |text|
    ensures var r := ScanExponent(text, i); Occurs(text, i, SpellExponent(r.0)) && r.1 == i + |SpellExponent(r.0)|
  {
    if ScanExponent(text, i).0.Some? {
      var x := ScanExponent(text, i).0.value;
      var d := SignEnd(text, i + 1);
      SliceOccurs(text, d, DigitsEnd(text, d));
      OccursConcat(text, i, [x.mark], x.sign);
      OccursConcat(text, i, [x.mark] + x.sign, x.digits);
    }
  }

  lemma MinusSpelled(text: string, i: nat)
    ensures Occurs(text, i, SpellMinus(At(text, i) == '-')) || i > |text|
  {
  }

  /** The positions between the parts of the literal at `i`. */
  lemma ScanUnfolds(text: string, i: nat) returns (w: nat, f: nat, e: nat)
    requires i <= |text|
    ensures var l := Scan(text, i).0;
      && l.negative == (At(text, i) == '-') && w == i + |SpellMinus(l.negative)| <= f <= e <= |text|
      && l.whole == text[w..f] && ScanFraction(text, f) == (l.fraction, e)
      && ScanExponent(text, e) == (l.exponent, Scan(text, i).1)
  {
    w := if At(text, i) == '-' then i + 1 else i;
    f := DigitsEnd(text, w);
    e := ScanFraction(text, f).1;
  }

  /** Scanning takes exactly the characters of the literal it returns. */
  lemma ScanSpells(text: string, i: nat)
    requires i <= |text|
    ensures var r := Scan(text, i); r.1 == i + |Spell(r.0)| && Occurs(text, i, Spell(r.0))
  {
    hide Occurs, Spell, SpellFraction, SpellExponent, ScanFraction, ScanExponent, Scan;
    var w, f, e := ScanUnfolds(text, i);
    SliceOccurs(text, w, f);
    FractionSpelled(text, f);
    ExponentSpelled(text, e);
    MinusSpelled(text, i);
    SpelledInParts(text, i, Scan(text, i).0);
  }

  /** A literal spelled at `i` and followed by a delimiter is the one scanning finds. */
  lemma ScanFinds(text: string, i: nat, l: Literal)
    requires Occurs(text, i, Spell(l)) && WellFormed(l)
    requires IsDelim(At(text, i + |Spell(l)|))
    requires l.negative || l.whole != ""
    ensures Scan(text, i) == (l, i + |Spell(l)|)
  {
    hide Occurs, Spell, SpellFraction, SpellExponent, Scan, ScanFraction, ScanExponent, AllDigits;
    SpelledInParts(text, i, l);
    var w := i + |SpellMinus(l.negative)|;
    var f := w + |l.whole|;
    var e := f + |SpellFraction(l.fraction)|;
    MinusAt(text, i, l);
    ExponentAt(text, e, l.exponent);
    FractionAt(text, f, l.fraction);
    DigitsOccur(text, w, l.whole);
    OccursFits(text, e, SpellExponent(l.exponent));
    ScanParts(text, i, l, w, f, e, i + |Spell(l)|);
  }

  lemma ScanParts(text: string, i: nat, l: Literal, w: nat, f: nat, e: nat, end: nat)
    requires w == (if l.negative then i + 1 else i) <= f <= e <= |text| && (l.negative <==> At(text, i) == '-')
    requires DigitsEnd(text, w) == f && text[w..f] == l.whole
    requires ScanFraction(text, f) == (l.fraction, e) && ScanExponent(text, e) == (l.exponent, end)
    ensures Scan(text, i) == (l, end)
  {
    hide ScanFraction, ScanExponent;
  }

  lemma MinusAt(text: string, i: nat, l: Literal)
    requires Occurs(text, i, SpellMinus(l.negative)) && Occurs(text, i + |SpellMinus(l.negative)|, l.whole)
    requires AllDigits(l.whole) && (l.negative || l.whole != "")
    ensures l.negative <==> At(text, i) == '-'
  {
    if l.negative {
      OccursAt(text, i, "-", 0);
    } else {
      OccursAt(text, i, l.whole, 0);
    }
  }

  lemma FractionAt(text: string, f: nat, fraction: Option<string>)
    requires WellFormedFraction(fraction) && Occurs(text, f, SpellFraction(fraction))
    requires var e := f + |SpellFraction(fraction)|; !IsDigit(At(text, e)) && At(text, e) != '.'
    ensures !IsDigit(At(text, f)) && ScanFraction(text, f) == (fraction, f + |SpellFraction(fraction)|)
  {
    if fraction.Some? {
      OccursConcat(text, f, ".", fraction.value);
      OccursAt(text, f, ".", 0);
      DigitsOccur(text, f + 1, fraction.value);
    }
  }

  lemma ExponentAt(text: string, e: nat, exponent: Option<Exponent>)
    requires WellFormedExponent(exponent) && Occurs(text, e, SpellExponent(exponent))
    requires IsDelim(At(text, e + |SpellExponent(exponent)|))
    ensures !IsDigit(At(text, e)) && At(text, e) != '.'
    ensures ScanExponent(text, e) == (exponent, e + |SpellExponent(exponent)|)
  {
    hide Occurs, AllDigits, DigitsEnd, ScanExponent, SpellExponent, ScanSign, SignEnd;
    ExponentParts(exponent);
    OccursFits(text, e, SpellExponent(exponent));
    if exponent.Some? {
      var x := exponent.value;
      OccursConcat(text, e, [x.mark] + x.sign, x.digits);
      OccursConcat(text, e, [x.mark], x.sign);
      OccursAt(text, e, [x.mark], 0);
      SignAt(text, e + 1, x);
      DigitsOccur(text, e + 1 + |x.sign|, x.digits);
      ExponentScan(text, e, x);
    } else {
      NoExponentScan(text, e);
    }
  }

  lemma ExponentParts(exponent: Option<Exponent>)
    ensures SpellExponent(exponent)
         == if exponent.None? then "" else [exponent.value.mark] + exponent.value.sign + exponent.value.digits
  {
  }

  lemma NoExponentScan(text: string, e: nat)
    requires e <= |text| && IsDelim(At(text, e))
    ensures !IsDigit(At(text, e)) && At(text, e) != '.' && ScanExponent(text, e) == (None, e)
  {
  }

  lemma ExponentScan(text: string, e: nat, x: Exponent)
    requires e < |text| && text[e] == x.mark && (x.mark == 'e' || x.mark == 'E')
    requires SignEnd(text, e + 1) == e + 1 + |x.sign| && ScanSign(text, e + 1) == x.sign
    requires e + 1 + |x.sign| + |x.digits| <= |text|
    requires DigitsEnd(text, e + 1 + |x.sign|) == e + 1 + |x.sign| + |x.digits|
    requires text[e + 1 + |x.sign|..e + 1 + |x.sign| + |x.digits|] == x.digits
    ensures ScanExponent(text, e) == (Some(x), e + 1 + |x.sign| + |x.digits|)
  {
    hide DigitsEnd, SignEnd, ScanSign;
  }

  lemma SignAt(text: string, i: nat, x: Exponent)
    requires IsSign(x.sign) && AllDigits(x.digits)
    requires Occurs(text, i, x.sign) && Occurs(text, i + |x.sign|, x.digits)
    requires IsDelim(At(text, i + |x.sign| + |x.digits|))
    ensures ScanSign(text, i) == x.sign && SignEnd(text, i) == i + |x.sign|
  {
    if x.sign != "" {
      OccursAt(text, i, x.sign, 0);
    } else if x.digits != "" {
      OccursAt(text, i, x.digits, 0);
    }
  }

  // ---------- values ----------

  function Power(base: real, n: nat): real {
    if n == 0 then 1.0 else base * Power(base, n - 1)
  }

  function Times(x: real, y: real): real {
    x * y
  }

  /** The digits behind a decimal point as a number below one. */
  function Fraction(digits: string): real
    requires AllDigits(digits)
  {
    Times(Natural(digits) as real, Power(0.1, |digits|))
  }

  function FractionOf(f: Option<string>): real
    requires WellFormedFraction(f)
  {
    if f.None? then 0.0 else Fraction(f.value)
  }

  function Magnitude(l: Literal): real
    requires WellFormed(l)
  {
    Natural(l.whole) as real + FractionOf(l.fraction)
  }

  function Base(sign: string): real {
    if sign == "-" then 0.1 else 10.0
  }

  /** The power of ten `string2double` multiplies by: its `unsigned int` exponent wraps. */
  function Scale(e: Option<Exponent>): real
    requires WellFormedExponent(e)
  {
    if e.None? then 1.0 else Power(Base(e.value.sign), Natural(e.value.digits) % UINT_RANGE)
  }

  /** The power of ten without the wrap-around. */
  function ExactScale(e: Option<Exponent>): real
    requires WellFormedExponent(e)
  {
    if e.None? then 1.0 else Power(Base(e.value.sign), Natural(e.value.digits))
  }

  function Scaled(negative: bool, magnitude: real, scale: real): real {
    if negative then -(magnitude * scale) else magnitude * scale
  }

  /** What `string2double` returns. */
  function Value(l: Literal): real
    requires WellFormed(l)
  {
    Scaled(l.negative, Magnitude(l), Scale(l.exponent))
  }

  /** What it would return if the exponent did not wrap. */
  function UnwrappedValue(l: Literal): real
    requires WellFormed(l)
  {
    Scaled(l.negative, Magnitude(l), ExactScale(l.exponent))
  }

  // ---------- the decimal number a literal stands for ----------

  function Ten(n: nat): (p: nat)
    ensures p > 0
  {
    if n == 0 then 1 else 10 * Ten(n - 1)
  }

  function FractionDigits(l: Literal): (digits: string)
    requires WellFormed(l)
    ensures AllDigits(digits)
  {
    if l.fraction.None? then "" else l.fraction.value
  }

  /** How many places the exponent moves the decimal point to the right, and how many to the left. */
  function PlacesRight(l: Literal): nat
    requires WellFormed(l)
  {
    if l.exponent.Some? && l.exponent.value.sign != "-" then Natural(l.exponent.value.digits) else 0
  }

  function PlacesLeft(l: Literal): nat
    requires WellFormed(l)
  {
    if l.exponent.Some? && l.exponent.value.sign == "-" then Natural(l.exponent.value.digits) else 0
  }

  /**
   All digits in front of the exponent as one whole number, times ten for each place to the
   right, over ten for each place to the left and each digit behind the decimal point.
   */
  function ExactValue(l: Literal): real
    requires WellFormed(l)
  {
    var digits: int := Natural(l.whole + FractionDigits(l));
    var signed := if l.negative then -digits else digits;
    (signed * Ten(PlacesRight(l))) as real / Ten(|FractionDigits(l)| + PlacesLeft(l)) as real
  }

  lemma {:induction false} TenSum(m: nat, n: nat)
    ensures Ten(m + n) == Ten(m) * Ten(n)
    decreases m
  {
    if m > 0 {
      TenSum(m - 1, n);
      assert Ten(m + n) == 10 * Ten(m - 1 + n);
      assert 10 * (Ten(m - 1) * Ten(n)) == (10 * Ten(m - 1)) * Ten(n);
    }
  }

  lemma {:induction false} PowersOfTen(n: nat)
    ensures Power(10.0, n) == Ten(n) as real
    ensures Power(0.1, n) * Ten(n) as real == 1.0
  {
    if n > 0 {
      PowersOfTen(n - 1);
      var t, p := Ten(n - 1) as real, Power(0.1, n - 1);
      assert Ten(n) as real == 10.0 * t;
      assert (0.1 * p) * (10.0 * t) == p * t;
    }
  }

  lemma {:induction false} NaturalConcat(a: string, b: string)
    requires AllDigits(a) && AllDigits(b)
    ensures AllDigits(a + b) && Natural(a + b) == Natural(a) * Ten(|b|) + Natural(b)
    decreases |b|
  {
    hide Natural, Ten;
    TenStep(0);
    if b == "" {
      NoExponent("", 0);
      assert a + b == a && ""[0..0] == b;
    } else {
      var n := |b| - 1;
      var front, c := b[..n], b[n];
      NaturalConcat(a, front);
      assert a + b == (a + front) + [c] && b == front + [c];
      NaturalSnoc(a + front, c);
      NaturalSnoc(front, c);
      TenStep(n);
      OneMoreDigit(Natural(a), Ten(n), Natural(front), Digit(c));
    }
  }

  lemma TenStep(n: nat)
    ensures Ten(n + 1) == 10 * Ten(n) && Ten(0) == 1
  {
  }

  lemma OneMoreDigit(a: nat, t: nat, b: nat, d: nat)
    ensures (a * t + b) * 10 + d == a * (10 * t) + (b * 10 + d)
  {
  }

  lemma MovePoint(w: real, f: real, p: real, s: real, t: real, u: real, v: real)
    requires p * t == 1.0 && s * v == u
    ensures ((w + f * p) * s) * (t * v) == (w * t + f) * u
  {
    var m := w + f * p;
    assert m * t == w * t + f * (p * t);
    assert (m * s) * (t * v) == (m * t) * (s * v);
  }

  lemma Quotient(x: real, d: real, y: real)
    requires d != 0.0 && x * d == y
    ensures x == y / d
  {
  }

  /** The exponent's power, times ten for each place to the left, is ten for each place to the right. */
  lemma ScaleMoves(l: Literal)
    requires WellFormed(l)
    ensures ExactScale(l.exponent) * Ten(PlacesLeft(l)) as real == Ten(PlacesRight(l)) as real
  {
    if l.exponent.Some? {
      PowersOfTen(Natural(l.exponent.value.digits));
    }
  }

  lemma DigitsTogether(l: Literal)
    requires WellFormed(l)
    ensures var t := Ten(|FractionDigits(l)|) as real;
      Natural(l.whole + FractionDigits(l)) as real == Natural(l.whole) as real * t + Natural(FractionDigits(l)) as real
  {
    hide Natural, Ten, FractionDigits;
    NaturalConcat(l.whole, FractionDigits(l));
    var w, t, f := Natural(l.whole), Ten(|FractionDigits(l)|), Natural(FractionDigits(l));
    assert (w * t + f) as real == w as real * t as real + f as real;
  }

  lemma MagnitudeIs(l: Literal)
    requires WellFormed(l)
    ensures Magnitude(l) ==
      Natural(l.whole) as real + Natural(FractionDigits(l)) as real * Power(0.1, |FractionDigits(l)|)
  {
  }

  /** Without the wrap-around the source's products and sums come to the decimal number. */
  lemma UnwrappedIsExact(l: Literal)
    requires WellFormed(l)
    ensures UnwrappedValue(l) == ExactValue(l)
  {
    hide Natural, Power, Ten, Magnitude, ExactScale, PlacesLeft, PlacesRight, FractionDigits;
    var k, left, right := |FractionDigits(l)|, PlacesLeft(l), PlacesRight(l);
    var digits: int := Natural(l.whole + FractionDigits(l));
    var x := Magnitude(l) * ExactScale(l.exponent);
    MagnitudeIs(l);
    PowersOfTen(k);
    ScaleMoves(l);
    DigitsTogether(l);
    TenSum(k, left);
    MovePoint(Natural(l.whole) as real, Natural(FractionDigits(l)) as real, Power(0.1, k), ExactScale(l.exponent),
              Ten(k) as real, Ten(right) as real, Ten(left) as real);
    assert x * Ten(k + left) as real == (digits * Ten(right)) as real by {
      assert Ten(k + left) as real == Ten(k) as real * Ten(left) as real;
      assert (digits * Ten(right)) as real == digits as real * Ten(right) as real;
    }
    Quotient(x, Ten(k + left) as real, (digits * Ten(right)) as real);
    SignedQuotient(digits, Ten(right), Ten(k + left));
  }

  lemma SignedQuotient(digits: int, up: nat, down: nat)
    requires down > 0
    ensures (-digits * up) as real / down as real == -((digits * up) as real / down as real)
  {
    assert -digits * up == -(digits * up);
  }

  predicate ExponentFits(e: Option<Exponent>)
    requires WellFormedExponent(e)
  {
    e.None? || Natural(e.value.digits) < UINT_RANGE
  }

  lemma {:induction false} PowerPositive(base: real, n: nat)
    requires base > 0.0
    ensures Power(base, n) > 0.0
  {
    if n > 0 { PowerPositive(base, n - 1); }
  }

  lemma {:induction false} PowerStrict(base: real, m: nat, n: nat)
    requires m < n && (base == 10.0 || base == 0.1)
    ensures Power(base, m) != Power(base, n)
    ensures base == 10.0 ==> Power(base, m) < Power(base, n)
    ensures base == 0.1 ==> Power(base, m) > Power(base, n)
    decreases n
  {
    PowerPositive(base, n - 1);
    if m < n - 1 { PowerStrict(base, m, n - 1); }
  }

  /** Squaring the base while halving the exponent leaves the power alone. */
  lemma {:induction false} PowerHalves(base: real, n: nat)
    ensures Power(base, n) == (if n % 2 == 1 then base else 1.0) * Power(base * base, n / 2)
  {
    if n >= 2 {
      PowerHalves(base, n - 2);
      assert Power(base, n) == base * (base * Power(base, n - 2));
      assert n / 2 == (n - 2) / 2 + 1;
      var odd := if n % 2 == 1 then base else 1.0;
      var rest := Power(base * base, (n - 2) / 2);
      assert base * (base * (odd * rest)) == odd * ((base * base) * rest);
    }
  }

  predicate AllZeros(s: string) {
    forall i :: 0 <= i < |s| ==> s[i] == '0'
  }

  /** Every digit in front of the exponent is a zero. */
  predicate IsZero(l: Literal) {
    AllZeros(l.whole) && (l.fraction.Some? ==> AllZeros(l.fraction.value))
  }

  lemma {:induction false} NaturalIsZeroIff(digits: string)
    requires AllDigits(digits)
    ensures Natural(digits) == 0 <==> AllZeros(digits)
    decreases |digits|
  {
    if digits != "" {
      var n := |digits| - 1;
      NaturalIsZeroIff(digits[..n]);
      assert AllZeros(digits) <==> AllZeros(digits[..n]) && digits[n] == '0';
    }
  }

  lemma TimesIsZeroIff(n: nat, x: real)
    requires x > 0.0
    ensures Times(n as real, x) >= 0.0 && (Times(n as real, x) == 0.0 <==> n == 0)
  {
  }

  lemma MagnitudeIsZeroIff(l: Literal)
    requires WellFormed(l)
    ensures Magnitude(l) == 0.0 <==> IsZero(l)
  {
    hide Natural, Power, Times, AllZeros;
    NaturalIsZeroIff(l.whole);
    if l.fraction.Some? {
      var ds := l.fraction.value;
      NaturalIsZeroIff(ds);
      PowerPositive(0.1, |ds|);
      TimesIsZeroIff(Natural(ds), Power(0.1, |ds|));
    }
  }

  /**
   The source computes the decimal value exactly when the exponent fits its
   `unsigned int` or the digits before it are all zero.
   */
  lemma ValueIsExactIff(l: Literal)
    requires WellFormed(l)
    ensures Value(l) == ExactValue(l) <==> ExponentFits(l.exponent) || IsZero(l)
  {
    MagnitudeIsZeroIff(l);
    UnwrappedIsExact(l);
    hide ExactValue;
    if !ExponentFits(l.exponent) {
      var n := Natural(l.exponent.value.digits);
      PowerStrict(Base(l.exponent.value.sign), n % UINT_RANGE, n);
      ScaledDiffers(l.negative, Magnitude(l), Scale(l.exponent), ExactScale(l.exponent));
    } else if l.exponent.Some? {
      var n := Natural(l.exponent.value.digits);
      assert n % UINT_RANGE == n;
    }
  }

  /** One with an exponent of 2^32. */
  const WRAPPED := Literal(false, "1", None, Some(Exponent('e', "", "4294967296")))

  lemma NaturalOf(front: string, c: char, digits: string, n: nat)
    requires AllDigits(front) && Natural(front) == n && IsDigit(c) && digits == front + [c]
    ensures AllDigits(digits) && Natural(digits) == n * 10 + Digit(c)
  {
    NaturalSnoc(front, c);
  }

  lemma WrappedExponent()
    ensures AllDigits("4294967296") && Natural("4294967296") == UINT_RANGE
  {
    NoExponent("", 0);
    hide Natural, AllDigits;
    assert "" == ""[0..0];
    NaturalOf("", '4', "4", 0);
    NaturalOf("4", '2', "42", 4);
    NaturalOf("42", '9', "429", 42);
    NaturalOf("429", '4', "4294", 429);
    NaturalOf("4294", '9', "42949", 4294);
    NaturalOf("42949", '6', "429496", 42949);
    NaturalOf("429496", '7', "4294967", 429496);
    NaturalOf("4294967", '2', "42949672", 4294967);
    NaturalOf("42949672", '9', "429496729", 42949672);
    NaturalOf("429496729", '6', "4294967296", 429496729);
  }

  /** Such a literal is read as one, the exponent having wrapped to zero. */
  lemma WrappedExample()
    ensures WellFormed(WRAPPED) && Value(WRAPPED) == 1.0 && ExactValue(WRAPPED) != 1.0
  {
    hide Natural;
    WrappedExponent();
    NoExponent("", 0);
    assert "" == ""[0..0];
    NaturalOf("", '1', "1", 0);
    assert WRAPPED.whole[0] == '1';
    ValueIsExactIff(WRAPPED);
  }

  lemma ScaledDiffers(negative: bool, a: real, x: real, y: real)
    requires x != y
    ensures Scaled(negative, a, x) == Scaled(negative, a, y) <==> a == 0.0
  {
    if a * x == a * y {
      assert a * (x - y) == 0.0;
    }
  }

  lemma WrapStep(a: nat, d: nat)
    ensures ((a % UINT_RANGE) * 10 + d) % UINT_RANGE == (a * 10 + d) % UINT_RANGE
  {
    var q := a / UINT_RANGE;
    assert a == q * UINT_RANGE + a % UINT_RANGE;
    assert a * 10 + d == (q * 10) * UINT_RANGE + ((a % UINT_RANGE) * 10 + d);
    ModAdd(q * 10, (a % UINT_RANGE) * 10 + d);
  }

  lemma {:induction false} ModAdd(q: nat, r: nat)
    ensures (q * UINT_RANGE + r) % UINT_RANGE == r % UINT_RANGE
  {
    if q > 0 {
      ModAdd(q - 1, r);
      assert q * UINT_RANGE + r == ((q - 1) * UINT_RANGE + r) + UINT_RANGE;
    }
  }

  // ---------- string2double ----------

  method ReadWhole(buf: array<char>, ghost text: string, start: nat) returns (result: real, s: nat)
    requires HoldsFrom(buf, text, start) && start <= |text|
    ensures s == DigitsEnd(text, start)
    ensures result == Natural(text[start..s]) as real
  {
    s, result := start, 0.0;
    while IsDigit(buf[s])
      invariant start <= s <= |text|
      invariant AllDigits(text[start..s])
      invariant DigitsEnd(text, s) == DigitsEnd(text, start)
      invariant result == Natural(text[start..s]) as real
      decreases |text| - s
    {
      assert buf[s] == text[s];
      NaturalSnoc(text[start..s], text[s]);
      SliceSnoc(text, start, s);
      result := result * 10.0 + Digit(buf[s]) as real;
      s := s + 1;
    }
  }

  lemma FractionSnoc(digits: string, c: char)
    requires AllDigits(digits) && IsDigit(c)
    ensures AllDigits(digits + [c])
    ensures Fraction(digits + [c]) == Fraction(digits) + Times(Digit(c) as real, Power(0.1, |digits| + 1))
  {
    hide Times;
    NaturalSnoc(digits, c);
    assert Power(0.1, |digits| + 1) == 0.1 * Power(0.1, |digits|);
    FractionStep(Natural(digits + [c]), Natural(digits), Digit(c), Power(0.1, |digits| + 1), Power(0.1, |digits|));
  }

  lemma FractionStep(n1: nat, n: nat, d: nat, f1: real, f: real)
    requires n1 == n * 10 + d && f1 == 0.1 * f
    ensures Times(n1 as real, f1) == Times(n as real, f) + Times(d as real, f1)
  {
    var x, y := n as real, d as real;
    assert n1 as real == x * 10.0 + y;
    assert (x * 10.0 + y) * (0.1 * f) == x * f + y * (0.1 * f);
  }

  lemma NoFraction(text: string, i: nat)
    requires i <= |text|
    ensures Power(0.1, 0) == 1.0 && Fraction(text[i..i]) == 0.0
  {
  }

  lemma PowerSnoc(base: real, n: nat)
    ensures Power(base, n + 1) == Power(base, n) * base
  {
  }

  method ReadFraction(buf: array<char>, ghost text: string, start: nat, whole: real) returns (result: real, s: nat)
    requires HoldsFrom(buf, text, start) && start <= |text|
    ensures s == DigitsEnd(text, start)
    ensures result == whole + Fraction(text[start..s])
  {
    hide Natural, Power, Fraction, Times;
    NoFraction(text, start);
    s, result := start, whole;
    var fraction := 1.0;
    while IsDigit(buf[s])
      invariant start <= s <= |text|
      invariant AllDigits(text[start..s])
      invariant DigitsEnd(text, s) == DigitsEnd(text, start)
      invariant fraction == Power(0.1, s - start)
      invariant result == whole + Fraction(text[start..s])
      decreases |text| - s
    {
      assert buf[s] == text[s];
      FractionSnoc(text[start..s], text[s]);
      SliceSnoc(text, start, s);
      PowerSnoc(0.1, s - start);
      fraction := fraction * 0.1;
      var digit := Digit(buf[s]) as real;
      result := result + Times(digit, fraction);
      s := s + 1;
    }
  }

  lemma NoExponent(text: string, i: nat)
    requires i <= |text|
    ensures AllDigits(text[i..i]) && Natural(text[i..i]) == 0
  {
  }

  lemma ExponentSnoc(text: string, i: nat, j: nat)
    requires i <= j < |text| && AllDigits(text[i..j]) && IsDigit(text[j])
    ensures AllDigits(text[i..j + 1])
    ensures Natural(text[i..j + 1]) % UINT_RANGE
      == (Natural(text[i..j]) % UINT_RANGE * 10 + Digit(text[j])) % UINT_RANGE
  {
    hide Natural, AllDigits;
    NaturalSnoc(text[i..j], text[j]);
    SliceSnoc(text, i, j);
    WrapStep(Natural(text[i..j]), Digit(text[j]));
  }

  method ReadExponent(buf: array<char>, ghost text: string, start: nat) returns (exponent: nat, s: nat)
    requires HoldsFrom(buf, text, start) && start <= |text|
    ensures s == DigitsEnd(text, start)
    ensures exponent == Natural(text[start..s]) % UINT_RANGE
  {
    hide Natural, AllDigits;
    NoExponent(text, start);
    s, exponent := start, 0;
    while IsDigit(buf[s])
      invariant start <= s <= |text|
      invariant AllDigits(text[start..s])
      invariant DigitsEnd(text, s) == DigitsEnd(text, start)
      invariant exponent == Natural(text[start..s]) % UINT_RANGE
      decreases |text| - s
    {
      assert buf[s] == text[s];
      ExponentSnoc(text, start, s);
      exponent := (exponent * 10 + Digit(buf[s])) % UINT_RANGE;
      s := s + 1;
    }
  }

  method RaiseBySquaring(base0: real, exponent0: nat) returns (power: real)
    ensures power == Power(base0, exponent0)
  {
    var base, exponent := base0, exponent0;
    power := 1.0;
    while exponent != 0
      invariant power * Power(base, exponent) == Power(base0, exponent0)
    {
      PowerHalves(base, exponent);
      ghost var rest := Power(base * base, exponent / 2);
      ghost var before := power;
      if exponent % 2 == 1 {
        power := power * base;
        assert before * (base * rest) == power * rest;
      }
      exponent := exponent / 2;
      base := base * base;
    }
  }

  /** The exponent part, if there is one: its power and the position behind it. */
  method ReadScale(buf: array<char>, ghost text: string, start: nat) returns (power: real, s: nat)
    requires HoldsFrom(buf, text, start) && start <= |text|
    ensures s == ScanExponent(text, start).1
    ensures power == Scale(ScanExponent(text, start).0)
  {
    s, power := start, 1.0;
    assert forall i :: start <= i <= |text| ==> buf[i] == At(text, i);
    if buf[s] == 'e' || buf[s] == 'E' {
      s := s + 1;
      var base := 10.0;
      if buf[s] == '+' {
        s := s + 1;
      } else if buf[s] == '-' {
        s := s + 1;
        base := 0.1;
      }
      assert s == SignEnd(text, start + 1) && base == Base(ScanSign(text, start + 1));
      var exponent;
      exponent, s := ReadExponent(buf, text, s);
      power := RaiseBySquaring(base, exponent);
    }
  }

  /** The digits in front of the exponent. */
  method ReadMagnitude(buf: array<char>, ghost text: string, start: nat) returns (result: real, s: nat)
    requires HoldsFrom(buf, text, start) && start <= |text|
    ensures var f := DigitsEnd(text, start);
      && s == ScanFraction(text, f).1
      && result == Natural(text[start..f]) as real + FractionOf(ScanFraction(text, f).0)
  {
    result, s := ReadWhole(buf, text, start);
    assert buf[s] == At(text, s);
    if buf[s] == '.' {
      result, s := ReadFraction(buf, text, s + 1, result);
    }
  }

  method ApplyScale(negative: bool, magnitude: real, power: real) returns (value: real)
    ensures value == Scaled(negative, magnitude, power)
  {
    value := magnitude * power;
    if negative { value := -value; }
  }

  /** tools/gason.cpp `string2double`, started on the first character of a literal. */
  method String2Double(buf: array<char>, ghost text: string, start: nat) returns (value: real, end: nat)
    requires HoldsFrom(buf, text, start) && start <= |text|
    ensures end == Scan(text, start).1
    ensures value == Value(Scan(text, start).0)
  {
    assert buf[start] == At(text, start);
    var ch := buf[start];
    var s := start;
    if ch == '-' { s := s + 1; }
    ghost var f := DigitsEnd(text, s);
    ghost var fraction := ScanFraction(text, f);
    ghost var exponent := ScanExponent(text, fraction.1);
    ghost var l := Literal(ch == '-', Digits(text, s), fraction.0, exponent.0);
    assert Scan(text, start) == (l, exponent.1);
    var result, power;
    result, s := ReadMagnitude(buf, text, s);
    assert result == Magnitude(l);
    power, end := ReadScale(buf, text, s);
    assert power == Scale(l.exponent);
    value := ApplyScale(ch == '-', result, power);
  }
}
