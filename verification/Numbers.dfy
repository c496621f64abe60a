/**
 * Real numbers as a C++ output stream writes them unless told otherwise: the conversion g of printf
 * with six significant digits (section 7.21.6.1 of ISO/IEC 9899).
 */
module Numbers {
  import opened Decimals

  // ----- powers of ten -----

  function Power(n: int): (r: real)
    ensures r > 0.0
  {
    if n >= 0 then Pow10(n) else 1.0 / Pow10(-n)
  }

  lemma PowerNext(n: int)
    ensures Power(n + 1) == 10.0 * Power(n)
  {
    if n < 0 {
      var p := Pow10(-n - 1);
      assert Pow10(-n) == 10.0 * p;
      assert 10.0 * (1.0 / (10.0 * p)) == 1.0 / p;
    }
  }

  /** Ten to the power w as a whole number. */
  function Tens(w: nat): (n: nat)
    ensures n > 0 && n as real == Pow10(w)
  {
    if w == 0 then 1 else 10 * Tens(w - 1)
  }

  /** Digits in front weigh ten times as much for every digit behind them. */
  lemma {:induction false} DigitsWeigh(a: string, b: string)
    requires AllDigits(a) && AllDigits(b)
    ensures AllDigits(a + b) && DigitsValue(a + b) == DigitsValue(a) * Tens(|b|) + DigitsValue(b)
  {
    if |b| == 0 {
      assert a + b == a && b == "" && Tens(0) == 1;
    } else {
      var n := |b| - 1;
      DigitsWeigh(a, b[..n]);
      assert (a + b)[..|a + b| - 1] == a + b[..n] && (a + b)[|a + b| - 1] == b[n];
      TenMore(DigitsValue(a), Tens(n), DigitsValue(b[..n]));
    }
  }

  lemma TenMore(a: nat, t: nat, b: nat)
    ensures 10 * (a * t + b) == a * (10 * t) + 10 * b
  {
  }

  lemma {:induction false} PowerAdds(n: int, w: nat)
    ensures Power(n + w) == Power(n) * Tens(w) as real
  {
    hide Power, Pow10;
    if w == 0 {
      assert Tens(0) == 1;
    } else {
      PowerAdds(n, w - 1);
      PowerNext(n + w - 1);
    }
  }

  lemma PowersGrow(m: int, n: int)
    requires m <= n
    ensures Power(m) <= Power(n)
  {
    hide Power;
    PowerAdds(m, n - m);
    var t := Tens(n - m) as real;
    assert t >= 1.0;
    assert Power(m) * t >= Power(m) * 1.0;
  }

  // ----- six significant digits -----

  /** The decimal exponent: the place of the first significant digit. */
  function Leading(x: real): (e: int)
    requires x > 0.0
    ensures Power(e) <= x < Power(e + 1)
    decreases x < 1.0, if x < 1.0 then 2.0 / x else x
  {
    if x >= 10.0 then
      var e := Leading(x / 10.0);
      PowerNext(e);
      PowerNext(e + 1);
      e + 1
    else if x < 1.0 then
      Shrinks(x);
      var e := Leading(10.0 * x);
      PowerNext(e - 1);
      PowerNext(e);
      e - 1
    else
      assert Power(0) == 1.0 && Power(1) == 10.0;
      0
  }

  lemma Shrinks(x: real)
    requires 0.0 < x < 1.0
    ensures 2.0 / (10.0 * x) <= 2.0 / x - 1.0
  {
    var y := 2.0 / x;
    assert y * x == 2.0;
    assert 2.0 / (10.0 * x) == y / 10.0;
    assert y > 2.0;
  }

  /** The nearest whole number; halfway between two, the even one. */
  function Nearest(y: real): int {
    var whole, rest := y.Floor, y - y.Floor as real;
    if rest < 0.5 || (rest == 0.5 && whole % 2 == 0) then whole else whole + 1
  }

  function Away(a: real, b: real): real {
    if a < b then b - a else a - b
  }

  lemma NearestIs(y: real, n: int)
    ensures Away(Nearest(y) as real, y) <= Away(n as real, y)
    ensures n as real <= y ==> n <= Nearest(y)
    ensures y <= n as real ==> Nearest(y) <= n
  {
    var whole := y.Floor;
    assert whole as real <= y < whole as real + 1.0;
    if n <= whole {
      assert n as real <= whole as real;
    } else {
      assert n as real >= (whole + 1) as real;
    }
  }

  /** A number of six digits and the place of the last one. */
  datatype Digits = Digits(number: nat, place: int)

  /** The six leading digits of x, rounded. */
  function SixDigits(x: real): (d: Digits)
    requires x > 0.0
    ensures 100_000 <= d.number < 1_000_000
  {
    var e := Leading(x) - 5;
    InUnits(x, e);
    NearestIs(x / Power(e), 100_000);
    NearestIs(x / Power(e), 1_000_000);
    var n := Nearest(x / Power(e));
    if n == 1_000_000 then Digits(100_000, e + 1) else Digits(n, e)
  }

  lemma Hundreds()
    ensures Tens(1) == 10 && Tens(5) == 100_000 && Tens(6) == 1_000_000
  {
    assert Tens(2) == 100 && Tens(3) == 1000;
  }

  lemma InUnits(x: real, e: int)
    requires Power(e + 5) <= x < Power(e + 6)
    ensures 100000.0 <= x / Power(e) < 1000000.0
  {
    hide Power, Tens;
    Hundreds();
    PowerAdds(e, 5);
    PowerAdds(e, 6);
    Between(x, Power(e), 100000.0, 1000000.0);
  }

  lemma Between(x: real, p: real, a: real, b: real)
    requires p > 0.0 && p * a <= x < p * b
    ensures a <= x / p < b
  {
    var t := x / p;
    assert t * p == x;
    assert p * (t - a) >= 0.0 && p * (b - t) > 0.0;
  }

  /** What is left of x when it is written. */
  function Rounded(x: real): real
    decreases x < 0.0
  {
    if x == 0.0 then 0.0
    else if x < 0.0 then -Rounded(-x)
    else SixDigits(x).number as real * Power(SixDigits(x).place)
  }

  /** Does x have at most six significant digits? */
  ghost predicate Short(x: real) {
    exists k: int, e: int :: IsDecimal(x, k, e)
  }

  predicate IsDecimal(x: real, k: int, e: int) {
    -1_000_000 < k < 1_000_000 && x == k as real * Power(e)
  }

  /** Rounding in the units of the last digit kept. */
  lemma RoundedInUnits(x: real)
    requires x > 0.0
    ensures var e := Leading(x) - 5;
            Rounded(x) == Nearest(x / Power(e)) as real * Power(e)
  {
    hide Power, Leading, Nearest;
    PowerNext(Leading(x) - 5);
  }

  lemma ScaledAway(a: real, b: real, p: real, x: real, y: real)
    requires p > 0.0 && x == a * p && y == b * p
    ensures Away(x, y) == Away(a, b) * p
  {
    assert y - x == (b - a) * p;
    assert x - y == (a - b) * p;
  }

  lemma ScaledLess(a: real, b: real, p: real)
    requires p > 0.0 && a <= b
    ensures a * p <= b * p
  {
  }

  lemma BelowMillion(y: real, k: int, e: int)
    requires IsDecimal(y, k, e)
    ensures y <= Power(e + 6)
  {
    hide Power, Tens;
    Hundreds();
    PowerAdds(e, 6);
    ScaledLess(k as real, 1000000.0, Power(e));
  }

  lemma DecadeStarts(unit: int)
    ensures Power(unit + 5) == 100000.0 * Power(unit)
  {
    hide Power, Tens;
    Hundreds();
    PowerAdds(unit, 5);
  }

  /** A number of at most six digits that is not on the grid of the units of x lies below all of the decade of x. */
  lemma OffGrid(x: real, y: real, k: int, e: int, unit: int)
    requires x > 0.0 && unit == Leading(x) - 5 && e < unit && IsDecimal(y, k, e)
    ensures y <= 100000.0 * Power(unit) <= x
  {
    hide Power, Leading, IsDecimal;
    BelowMillion(y, k, e);
    PowersGrow(e + 6, unit + 5);
    DecadeStarts(unit);
  }

  lemma Ratio(x: real, u: real)
    requires u > 0.0
    ensures x / u * u == x
  {
  }

  lemma CloserInUnits(a: real, b: real, t: real, u: real, x: real, y: real, z: real)
    requires u > 0.0 && Away(a, t) <= Away(b, t) && x == a * u && y == b * u && z == t * u
    ensures Away(x, z) <= Away(y, z)
  {
    hide Away;
    ScaledAway(a, t, u, x, z);
    ScaledAway(b, t, u, y, z);
    ScaledLess(Away(a, t), Away(b, t), u);
  }

  /** A whole number of units is no nearer than the rounded one. */
  lemma NearestScaled(x: real, grid: int, y: real)
    requires x > 0.0 && y == grid as real * Power(Leading(x) - 5)
    ensures Away(Rounded(x), x) <= Away(y, x)
  {
    hide Power, Leading, Rounded, Nearest, Away;
    var u := Power(Leading(x) - 5);
    var t := x / u;
    Ratio(x, u);
    RoundedInUnits(x);
    NearestIs(t, grid);
    CloserInUnits(Nearest(t) as real, grid as real, t, u, Rounded(x), y, x);
  }

  lemma FartherBelow(y: real, a: real, x: real)
    requires y <= a <= x
    ensures Away(a, x) <= Away(y, x)
  {
  }

  lemma OnGrid(y: real, k: int, e: int, unit: int)
    requires IsDecimal(y, k, e) && e >= unit
    ensures y == (k * Tens(e - unit)) as real * Power(unit)
  {
    hide Power, Tens;
    PowerAdds(unit, e - unit);
    Factors(k, Tens(e - unit), Power(unit));
  }

  lemma Factors(k: int, t: nat, u: real)
    ensures k as real * (u * t as real) == (k * t) as real * u
  {
    assert (k * t) as real == k as real * t as real;
  }

  /** No six digits at any place are nearer. */
  lemma NoneNearer(x: real, y: real, k: int, e: int)
    requires x > 0.0 && IsDecimal(y, k, e)
    ensures Away(Rounded(x), x) <= Away(y, x)
  {
    hide Power, Leading, Nearest, Tens, Rounded, Away, IsDecimal;
    var unit := Leading(x) - 5;
    if e >= unit {
      OnGrid(y, k, e, unit);
      NearestScaled(x, k * Tens(e - unit), y);
    } else {
      OffGrid(x, y, k, e, unit);
      var start := 100000.0 * Power(unit);
      NearestScaled(x, 100_000, start);
      FartherBelow(y, start, x);
    }
  }

  lemma PositiveIsNearest(x: real, y: real)
    requires x > 0.0 && Short(y)
    ensures Short(Rounded(x)) && Away(Rounded(x), x) <= Away(y, x)
  {
    RoundedIsShort(x);
    hide Power, Rounded;
    var k: int, e: int :| IsDecimal(y, k, e);
    NoneNearer(x, y, k, e);
  }

  lemma RoundedIsShort(x: real)
    requires x > 0.0
    ensures Short(Rounded(x))
  {
    hide Power;
    assert IsDecimal(Rounded(x), SixDigits(x).number, SixDigits(x).place);
  }

  /** A number is written exactly if it has at most six significant digits. */
  lemma RoundedIffShort(x: real)
    ensures Rounded(x) == x <==> Short(x)
  {
    hide Power, SixDigits, Short;
    if x == 0.0 {
      ZeroIsShort();
    } else if x > 0.0 {
      PositiveIffShort(x);
    } else {
      PositiveIffShort(-x);
      if Short(x) {
        ShortMinus(x);
      }
      if Short(-x) {
        ShortMinus(-x);
      }
    }
  }

  lemma PositiveIffShort(x: real)
    requires x > 0.0
    ensures Rounded(x) == x <==> Short(x)
  {
    hide Rounded, Short;
    RoundedIsShort(x);
    if Short(x) {
      PositiveIsNearest(x, x);
    }
  }

  lemma RoundedUp()
    ensures Rounded(0.1234567) == 0.123457
  {
    var x := 0.1234567;
    assert Power(-1) == 0.1 && Power(0) == 1.0;
    assert Leading(10.0 * x) == 0;
    assert Leading(x) == -1;
    assert Tens(5) == 100_000 && Tens(6) == 1_000_000 by { Hundreds(); }
    assert Power(-6) == 0.000001;
    assert x / Power(-6) == 123456.7;
    assert Nearest(123456.7) == 123457;
  }

  lemma ZeroIsShort()
    ensures Short(0.0)
  {
    assert IsDecimal(0.0, 0, 0);
  }

  lemma ShortMinus(x: real)
    requires Short(x)
    ensures Short(-x)
  {
    var k: int, e: int :| IsDecimal(x, k, e);
    assert IsDecimal(-x, -k, e);
  }

  /** Rounding gives the nearest number of at most six significant digits. */
  lemma RoundedIsNearest(x: real, y: real)
    requires Short(y)
    ensures Short(Rounded(x)) && Away(Rounded(x), x) <= Away(y, x)
  {
    hide Power, SixDigits, Short;
    if x == 0.0 {
      ZeroIsShort();
    } else if x > 0.0 {
      PositiveIsNearest(x, y);
    } else {
      ShortMinus(y);
      PositiveIsNearest(-x, -y);
      ShortMinus(Rounded(-x));
    }
  }

  // ----- how a number is written -----

  /** The last w digits of m. */
  function Padded(m: nat, w: nat): (s: string)
    ensures |s| == w && AllDigits(s)
  {
    if w == 0 then "" else Padded(m / 10, w - 1) + [DigitOf(m % 10)]
  }

  function Fraction(m: nat, w: nat): (s: string)
    ensures AllDigits(s) && |s| <= w
  {
    if w > 0 && m % 10 == 0 then Fraction(m / 10, w - 1) else Padded(m, w)
  }

  /** Does m have at most w digits? */
  predicate Fits(m: nat, w: nat) {
    if w == 0 then m == 0 else Fits(m / 10, w - 1)
  }

  lemma {:induction false} PaddedValue(m: nat, w: nat)
    requires Fits(m, w)
    ensures DigitsValue(Padded(m, w)) == m
  {
    if w == 0 {
    } else {
      PaddedValue(m / 10, w - 1);
      var s := Padded(m, w);
      assert s[..|s| - 1] == Padded(m / 10, w - 1) && s[|s| - 1] == DigitOf(m % 10);
    }
  }

  /** Leaving out trailing zeros does not change a fraction. */
  lemma {:induction false} FractionValue(m: nat, w: nat)
    requires Fits(m, w) && m > 0
    ensures |Fraction(m, w)| > 0
    ensures DigitsValue(Fraction(m, w)) as real / Pow10(|Fraction(m, w)|) == m as real / Pow10(w)
  {
    if m % 10 == 0 {
      FractionValue(m / 10, w - 1);
      TenTimes(m / 10, w);
      assert 10 * (m / 10) == m;
    } else {
      PaddedValue(m, w);
    }
  }

  lemma TenTimes(m: nat, w: nat)
    requires w > 0
    ensures m as real / Pow10(w - 1) == (10 * m) as real / Pow10(w)
  {
    assert Pow10(w) == 10.0 * Pow10(w - 1);
    var p := Pow10(w - 1);
    assert (10 * m) as real == 10.0 * m as real;
    assert m as real / p == (10.0 * m as real) / (10.0 * p);
  }

  lemma {:induction false} BelowTensFits(m: nat, w: nat)
    requires m < Tens(w)
    ensures Fits(m, w)
  {
    if w == 0 {
    } else {
      BelowTensFits(m / 10, w - 1);
    }
  }

  /** The parts of a written number; an empty fraction or exponent is left out with its mark. */
  datatype Parts = Parts(negative: bool, whole: string, fraction: string, exponent: string)

  /** Sign and at least two digits. */
  function ExponentText(e: int): string {
    (if e < 0 then "-" else "+") + if -100 < e < 100 then Padded(Size(e), 2) else Decimal(Size(e))
  }

  function Size(e: int): nat {
    if e < 0 then -e else e
  }

  function Quotient(k: nat, t: nat): nat
    requires t > 0
  {
    k / t
  }

  function Remainder(k: nat, t: nat): (r: nat)
    requires t > 0
    ensures r < t
  {
    k % t
  }

  /** k with the point before its last w digits, without trailing zeros. */
  function Pointed(k: nat, w: nat, exponent: string): Parts {
    var part := Remainder(k, Tens(w));
    Parts(false, Decimal(Quotient(k, Tens(w))), if part == 0 then "" else Fraction(part, w), exponent)
  }

  /** In fixed notation for the decimal exponents from -4 to 5, with an exponent for the others. */
  function PartsOf(x: real): (p: Parts)
    ensures p.negative <==> x < 0.0
    decreases x < 0.0
  {
    if x == 0.0 then Parts(false, "0", "", "")
    else if x < 0.0 then PartsOf(-x).(negative := true)
    else
      var Digits(k, place) := SixDigits(x);
      if -4 <= place + 5 < 6 then Pointed(k, -place, "") else Pointed(k, 5, ExponentText(place + 5))
  }

  function PartsText(p: Parts): string {
    (if p.negative then "-" else "") + p.whole + (if p.fraction == "" then "" else "." + p.fraction)
    + if p.exponent == "" then "" else "e" + p.exponent
  }

  /** The number as the stream writes it. */
  function Streamed(x: real): string {
    PartsText(PartsOf(x))
  }

  predicate ExponentOk(t: string) {
    t == "" || (|t| > 1 && (t[0] == '-' || t[0] == '+') && AllDigits(t[1..]))
  }

  predicate PartsOk(p: Parts) {
    |p.whole| > 0 && AllDigits(p.whole) && AllDigits(p.fraction) && ExponentOk(p.exponent)
  }

  function Scaled(size: real, exponent: string): real
    requires ExponentOk(exponent)
  {
    if exponent == "" then size
    else if exponent[0] == '-' then size / Pow10(DigitsValue(exponent[1..]))
    else size * Pow10(DigitsValue(exponent[1..]))
  }

  /** The number that whole part and fraction denote. */
  function SizeOf(whole: string, fraction: string): real
    requires AllDigits(whole) && AllDigits(fraction)
  {
    DigitsValue(whole) as real + if fraction == "" then 0.0 else DigitsValue(fraction) as real / Pow10(|fraction|)
  }

  /** The number that the parts denote. */
  function PartsValue(p: Parts): real
    requires PartsOk(p)
  {
    var scaled := Scaled(SizeOf(p.whole, p.fraction), p.exponent);
    if p.negative then -scaled else scaled
  }

  function Shifted(size: real, e: int): real {
    if e < 0 then size / Pow10(-e) else size * Pow10(e)
  }

  lemma ExponentIs(e: int, size: real)
    ensures ExponentOk(ExponentText(e))
    ensures Scaled(size, ExponentText(e)) == Shifted(size, e)
  {
    hide DigitsValue, Padded, Decimal, Pow10;
    var t := ExponentText(e);
    if -100 < e < 100 {
      assert t[1..] == Padded(Size(e), 2);
      assert Tens(2) == 10 * Tens(1) == 100;
      BelowTensFits(Size(e), 2);
      PaddedValue(Size(e), 2);
    } else {
      assert t[1..] == Decimal(Size(e));
      DecimalRoundTrip(Size(e));
    }
  }

  lemma Divided(k: nat, t: nat)
    requires t > 0
    ensures k as real / t as real == Quotient(k, t) as real + Remainder(k, t) as real / t as real
  {
    var q, r := Quotient(k, t), Remainder(k, t);
    assert k == q * t + r;
    SumDivided(q, r, t);
  }

  lemma SumDivided(q: nat, r: nat, t: nat)
    requires t > 0
    ensures (q * t + r) as real / t as real == q as real + r as real / t as real
  {
    var a, b, c := q as real, r as real, t as real;
    assert (q * t + r) as real == a * c + b;
    assert (a * c + b) / c == a + b / c;
  }

  /** The value of digits with a point in them. */
  lemma PointedIs(k: nat, w: nat, exponent: string)
    requires ExponentOk(exponent)
    ensures var p := Pointed(k, w, exponent); PartsOk(p) && PartsValue(p) == Scaled(k as real / Pow10(w), exponent)
  {
    hide DigitsValue, Decimal, Fraction, Pow10, Tens, Scaled, Quotient, Remainder;
    var part := Remainder(k, Tens(w));
    Divided(k, Tens(w));
    DecimalRoundTrip(Quotient(k, Tens(w)));
    if part > 0 {
      BelowTensFits(part, w);
      FractionValue(part, w);
    }
  }

  lemma FixedScale(k: real, place: int)
    requires place <= 0
    ensures k / Pow10(-place) == k * Power(place)
  {
    hide Pow10;
    if place == 0 {
      assert Pow10(0) == 1.0 by { assert Tens(0) == 1; }
    } else {
      var p := Pow10(-place);
      assert k / p == k * (1.0 / p);
    }
  }

  lemma ScientificScale(k: real, size: real, place: int)
    requires size == k / Pow10(5)
    ensures Shifted(size, place + 5) == k * Power(place)
  {
    hide Pow10, Tens;
    var e := place + 5;
    Hundreds();
    PowerAdds(place, 5);
    var p, q := Power(place), Power(e);
    assert q == p * 100000.0;
    assert k * p == size * q;
    if e < 0 {
      var r := Pow10(-e);
      assert size / r == size * (1.0 / r);
    }
  }

  lemma FixedDigits(k: nat, place: int)
    requires place <= 0
    ensures var p := Pointed(k, -place, ""); PartsOk(p) && PartsValue(p) == k as real * Power(place)
  {
    FixedScale(k as real, place);
    hide Pow10, Power, Pointed, PartsOk, PartsValue;
    PointedIs(k, -place, "");
  }

  lemma ScientificDigits(k: nat, place: int)
    ensures var p := Pointed(k, 5, ExponentText(place + 5));
            PartsOk(p) && PartsValue(p) == k as real * Power(place)
  {
    hide Pow10, Power, Pointed, PartsOk, PartsValue, Scaled, Shifted, ExponentText, ExponentOk;
    var size := k as real / Pow10(5);
    ScientificScale(k as real, size, place);
    ExponentIs(place + 5, size);
    PointedIs(k, 5, ExponentText(place + 5));
  }

  lemma ZeroIs()
    ensures var p := Parts(false, "0", "", ""); PartsOk(p) && PartsValue(p) == 0.0
  {
    assert DigitsValue("0") == 10 * DigitsValue("") + ValueOf('0');
  }

  /** What is written denotes the number rounded to six digits. */
  lemma PartsAreRounded(x: real)
    ensures PartsOk(PartsOf(x)) && PartsValue(PartsOf(x)) == Rounded(x)
    decreases x < 0.0
  {
    hide Power, Pointed, SixDigits, ExponentText, Scaled, SizeOf;
    ZeroIs();
    if x < 0.0 {
      PartsAreRounded(-x);
    } else if x > 0.0 {
      var Digits(k, place) := SixDigits(x);
      if -4 <= place + 5 < 6 {
        FixedDigits(k, place);
      } else {
        ScientificDigits(k, place);
      }
    }
  }
}
