/** The 64-bit float nearest to a real number, ties to the even one: how the source's library reads a
    decimal literal and converts an integer for comparison (rust-old/src/condition.rs). */
module Floats {
  // A float has 53 bits of precision and no spacing finer than two to the -1074.
  const PRECISION: real := 9007199254740992.0

  const LOWEST: int := -1074

  /** Two to the k. */
  function Scale(k: int): (r: real)
    ensures r > 0.0
    decreases if k < 0 then -k else k
  {
    if k == 0 then 1.0 else if k > 0 then 2.0 * Scale(k - 1) else Scale(k + 1) / 2.0
  }

  lemma {:induction false} ScaleIsLarge(k: nat)
    ensures Scale(k) >= k as real + 1.0
  {
    if k > 0 {
      ScaleIsLarge(k - 1);
    }
  }

  /** The spacing of floats around `r` is two to this, searched from `k` up. */
  function Exponent(r: real, k: int): (e: int)
    requires r >= 0.0
    ensures k <= e
    decreases r.Floor + 1 - k
  {
    SearchEnds(r, k);
    if r < Scale(k) * PRECISION then k else Exponent(r, k + 1)
  }

  lemma SearchEnds(r: real, k: int)
    requires r >= 0.0
    ensures r >= Scale(k) * PRECISION ==> r.Floor + 1 - k > 0
  {
    if k >= 0 {
      ScaleIsLarge(k);
      assert Scale(k) * PRECISION >= Scale(k);
    }
  }

  /** The nearest integer, ties to the even one. */
  function RoundHalfEven(x: real): int {
    var q := x.Floor;
    var rest := x - q as real;
    if rest > 0.5 || (rest == 0.5 && q % 2 == 1) then q + 1 else q
  }

  function Nearest(r: real): real
    requires r >= 0.0
  {
    RoundedAt(r, Exponent(r, LOWEST))
  }

  function RoundedAt(r: real, k: int): real {
    RoundHalfEven(r / Scale(k)) as real * Scale(k)
  }

  function ToFloat(r: real): real {
    if r < 0.0 then -Nearest(-r) else Nearest(r)
  }

  // ---------- Rounding keeps the order ----------

  lemma ScaleDoubles(k: int)
    ensures Scale(k + 1) == 2.0 * Scale(k)
  {
  }

  lemma {:induction false} ScaleGrows(k: int, l: int)
    requires k <= l
    ensures Scale(k) <= Scale(l)
    decreases l - k
  {
    if k < l {
      ScaleGrows(k, l - 1);
      ScaleDoubles(l - 1);
    }
  }

  /** The exponent is the first at which `r` is within the precision. */
  lemma {:induction false} ExponentIs(r: real, k: int)
    requires r >= 0.0
    ensures var e := Exponent(r, k); r < Scale(e) * PRECISION && (e > k ==> r >= Scale(e - 1) * PRECISION)
    decreases r.Floor + 1 - k
  {
    hide Scale;
    SearchEnds(r, k);
    if r >= Scale(k) * PRECISION {
      ExponentIs(r, k + 1);
    }
  }

  lemma RoundHalfEvenMonotone(x: real, y: real)
    requires x <= y
    ensures RoundHalfEven(x) <= RoundHalfEven(y)
  {
  }

  lemma RoundHalfEvenExact(n: int)
    ensures RoundHalfEven(n as real) == n
  {
  }

  lemma DivideBy(x: real, y: real, u: real)
    requires u > 0.0
    ensures x <= y ==> x / u <= y / u
    ensures x < y ==> x / u < y / u
  {
  }

  lemma TimesBy(m: int, n: int, u: real)
    requires u > 0.0 && m <= n
    ensures m as real * u <= n as real * u
  {
  }

  /** Rounding at one spacing keeps the order. */
  lemma RoundedAtMonotone(a: real, b: real, k: int)
    requires a <= b
    ensures RoundedAt(a, k) <= RoundedAt(b, k)
  {
    DivideBy(a, b, Scale(k));
    hide Scale, RoundHalfEven;
    RoundHalfEvenMonotone(a / Scale(k), b / Scale(k));
    TimesBy(RoundHalfEven(a / Scale(k)), RoundHalfEven(b / Scale(k)), Scale(k));
  }

  /** An integer multiple of the spacing is rounded to itself. */
  lemma MultipleIsExact(n: int, k: int, y: real)
    requires y == n as real * Scale(k)
    ensures RoundedAt(y, k) == y
  {
    hide Scale, RoundHalfEven;
    TimesThenDivide(n as real, Scale(k));
    RoundHalfEvenExact(n);
    assert y / Scale(k) == n as real;
  }

  lemma TimesThenDivide(x: real, u: real)
    requires u > 0.0
    ensures x * u / u == x
  {
  }

  /** Rounding at different spacings keeps the order too: a power of two lies between the numbers, on
      the grid of both. */
  lemma RoundedAcross(a: real, b: real, j: int, k: int)
    requires j < k && 0.0 <= a && a < Scale(j) * PRECISION && b >= Scale(k - 1) * PRECISION
    ensures RoundedAt(a, j) <= RoundedAt(b, k)
  {
    var p, half := 9007199254740992, 4503599627370496;
    ScaleGrows(j, k - 1);
    ScaleDoubles(k - 1);
    hide Scale, RoundedAt;
    HalfOfDouble(Scale(k - 1), Scale(k));
    TimesPrecision(Scale(j), Scale(k - 1));
    var low, high := p as real * Scale(j), half as real * Scale(k);
    RoundedAtMonotone(a, low, j);
    MultipleIsExact(p, j, low);
    RoundedAtMonotone(high, b, k);
    MultipleIsExact(half, k, high);
  }

  lemma HalfOfDouble(u: real, v: real)
    requires v == 2.0 * u
    ensures 9007199254740992 as real * u == 4503599627370496 as real * v == u * PRECISION
  {
  }

  lemma TimesPrecision(u: real, v: real)
    requires u <= v
    ensures u * PRECISION <= v * PRECISION
    ensures 9007199254740992 as real * u == u * PRECISION
  {
  }

  lemma NearestMonotone(a: real, b: real)
    requires 0.0 <= a <= b
    ensures Nearest(a) <= Nearest(b)
  {
    var j, k := Exponent(a, LOWEST), Exponent(b, LOWEST);
    ExponentIs(a, LOWEST);
    ExponentIs(b, LOWEST);
    hide Scale, Exponent, RoundedAt;
    if j == k {
      RoundedAtMonotone(a, b, j);
    } else if j < k {
      RoundedAcross(a, b, j, k);
    } else {
      ScaleGrows(k, j - 1);
      TimesPrecision(Scale(k), Scale(j - 1));
      assert false;
    }
  }

  /** A larger number never converts to a smaller float. */
  lemma ToFloatMonotone(a: real, b: real)
    requires a <= b
    ensures ToFloat(a) <= ToFloat(b)
  {
    hide Nearest;
    if a >= 0.0 {
      NearestMonotone(a, b);
    } else if b < 0.0 {
      NearestMonotone(-b, -a);
    } else {
      NearestOfZero();
      NearestMonotone(0.0, -a);
      NearestMonotone(0.0, b);
    }
  }

  lemma NearestOfZero()
    ensures Nearest(0.0) == 0.0
  {
    var k := Exponent(0.0, LOWEST);
    assert 0 as real * Scale(k) == 0.0;
    MultipleIsExact(0, k, 0.0);
  }

  // ---------- Integers within the precision ----------

  /** An integer is a multiple of every spacing no greater than one. */
  lemma {:induction false} IntegerIsMultiple(i: int, k: int) returns (n: int)
    requires k <= 0
    ensures i as real == n as real * Scale(k)
    decreases -k
  {
    if k == 0 {
      n := i;
    } else {
      var m := IntegerIsMultiple(i, k + 1);
      n := 2 * m;
      ScaleDoubles(k);
    }
  }

  /** Integers up to two to the 53 convert exactly. */
  lemma SmallIntegersAreExact(i: int)
    requires -9007199254740992 <= i <= 9007199254740992
    ensures ToFloat(i as real) == i as real
  {
    var a := if i < 0 then -i else i;
    var k := Exponent(a as real, LOWEST);
    ExponentIs(a as real, LOWEST);
    hide Exponent, RoundedAt;
    if k <= 0 {
      var n := IntegerIsMultiple(a, k);
      MultipleIsExact(n, k, a as real);
    } else {
      ScaleGrows(0, k - 1);
      assert Scale(0) == 1.0 && a == 9007199254740992;
      LargestExact(k);
    }
  }

  lemma LargestExact(k: int)
    requires k > 0 && PRECISION >= Scale(k - 1) * PRECISION
    ensures RoundedAt(PRECISION, k) == PRECISION
  {
    ScaleIsLarge(k - 1);
    assert k == 1 && Scale(1) == 2.0 * Scale(0) == 2.0;
    MultipleIsExact(4503599627370496, 1, PRECISION);
  }

  /** The first integer past the precision converts to its neighbour. */
  lemma FirstInexactInteger()
    ensures ToFloat(9007199254740993.0) == ToFloat(9007199254740992.0) == 9007199254740992.0
  {
    var r := 9007199254740993.0;
    SmallIntegersAreExact(9007199254740992);
    var k := Exponent(r, LOWEST);
    ExponentIs(r, LOWEST);
    hide Exponent;
    assert Scale(0) == 1.0 && Scale(1) == 2.0;
    if k <= 0 {
      ScaleGrows(k, 0);
      assert false;
    } else if k >= 2 {
      ScaleGrows(1, k - 1);
      assert false;
    }
    assert r / 2.0 == 4503599627370496.5;
  }

  // ---------- Rounding is to the nearest ----------

  function Distance(a: real, b: real): real { if a < b then b - a else a - b }

  ghost predicate FloatAt(f: real, n: int, k: int) {
    k >= LOWEST && -9007199254740992 <= n <= 9007199254740992 && f == n as real * Scale(k)
  }

  /** A number a 64-bit float can hold, its greatest exponent aside. */
  ghost predicate IsFloat(f: real) {
    exists n, k :: FloatAt(f, n, k)
  }

  lemma RoundHalfEvenIsNearest(x: real, m: int)
    ensures Distance(RoundHalfEven(x) as real, x) <= Distance(m as real, x)
    ensures Distance(m as real, x) == Distance(RoundHalfEven(x) as real, x) && m != RoundHalfEven(x) ==>
      RoundHalfEven(x) % 2 == 0
  {
  }

  lemma ScaledDifference(a: real, b: real, u: real)
    requires u > 0.0 && a <= b
    ensures a * u <= b * u && b * u - a * u == (b - a) * u
  {
  }

  lemma ScaledDistance(p: real, x: real, u: real, a: real, r: real)
    requires u > 0.0 && a == p * u && r == x * u
    ensures Distance(a, r) == Distance(p, x) * u
  {
    if p < x {
      ScaledDifference(p, x, u);
      if a >= r {
        DifferenceSign(x - p, u);
      }
    } else {
      ScaledDifference(x, p, u);
    }
  }

  lemma DifferenceSign(d: real, u: real)
    requires d > 0.0 && u > 0.0
    ensures d * u > 0.0
  {
  }

  /** Scaling keeps which of two numbers is nearer to a third. */
  lemma ScaledNearer(p: real, q: real, x: real, u: real, a: real, b: real, r: real)
    requires u > 0.0 && Distance(p, x) <= Distance(q, x)
    requires a == p * u && b == q * u && r == x * u
    ensures Distance(a, r) <= Distance(b, r)
  {
    var d, e := Distance(p, x), Distance(q, x);
    ScaledDistance(p, x, u, a, r);
    ScaledDistance(q, x, u, b, r);
    ScaledDifference(d, e, u);
    assert Distance(a, r) == d * u && Distance(b, r) == e * u;
  }

  lemma DivideThenTimes(r: real, u: real)
    requires u > 0.0
    ensures r / u * u == r
  {
  }

  /** Of the multiples of one spacing the rounded one is nearest. */
  lemma RoundedIsNearest(r: real, k: int, m: int, f: real)
    requires f == m as real * Scale(k)
    ensures Distance(RoundedAt(r, k), r) <= Distance(f, r)
  {
    hide Scale, RoundHalfEven, Distance;
    var u := Scale(k);
    var x := r / u;
    DivideThenTimes(r, u);
    RoundHalfEvenIsNearest(x, m);
    ScaledNearer(RoundHalfEven(x) as real, m as real, x, u, RoundedAt(r, k), f, r);
  }

  /** A multiple of a spacing is one of every finer spacing. */
  lemma {:induction false} MultipleOfFiner(n: int, j: int, k: int) returns (m: int)
    requires k <= j
    ensures n as real * Scale(j) == m as real * Scale(k)
    decreases j - k
  {
    m := n;
    if k < j {
      var l := MultipleOfFiner(n, j, k + 1);
      m := 2 * l;
      ScaleDoubles(k);
      DoubledMultiple(l, Scale(k), Scale(k + 1));
    }
  }

  lemma DoubledMultiple(l: int, u: real, v: real)
    requires v == 2.0 * u
    ensures l as real * v == (2 * l) as real * u
  {
  }

  /** A number of a finer spacing is no greater than where the coarser one begins. */
  lemma FinerIsBelow(n: int, finer: real, half: real, spacing: real, r: real)
    requires n <= 9007199254740992 && 0.0 < finer <= half && spacing == 2.0 * half && r >= half * PRECISION
    ensures n as real * finer <= 4503599627370496 as real * spacing <= r
  {
    HalfOfDouble(half, spacing);
    TimesBy(n, 9007199254740992, finer);
    TimesPrecision(finer, half);
  }

  lemma NoFinerIsNearer(r: real, f: real, k: int, n: int, j: int)
    requires j < k && n <= 9007199254740992 && r >= Scale(k - 1) * PRECISION && f == n as real * Scale(j)
    ensures Distance(RoundedAt(r, k), r) <= Distance(f, r)
  {
    ScaleGrows(j, k - 1);
    ScaleDoubles(k - 1);
    hide *;
    FinerIsBelow(n, Scale(j), Scale(k - 1), Scale(k), r);
    var h := 4503599627370496 as real * Scale(k);
    RoundedIsNearest(r, k, 4503599627370496, h);
    FurtherBelow(RoundedAt(r, k), h, f, r);
  }

  /** No float is nearer to a number that is not negative than the one it converts to. */
  lemma NearestIsNearest(r: real, f: real, n: int, j: int)
    requires r >= 0.0 && FloatAt(f, n, j)
    ensures Distance(Nearest(r), r) <= Distance(f, r)
  {
    var k := Exponent(r, LOWEST);
    ExponentIs(r, LOWEST);
    assert Nearest(r) == RoundedAt(r, k) && f == n as real * Scale(j) && n <= 9007199254740992;
    assert j < k ==> r >= Scale(k - 1) * PRECISION;
    hide *;
    if j >= k {
      var m := MultipleOfFiner(n, j, k);
      RoundedIsNearest(r, k, m, f);
    } else {
      NoFinerIsNearer(r, f, k, n, j);
    }
  }

  lemma FurtherBelow(p: real, h: real, f: real, r: real)
    requires f <= h <= r && Distance(p, r) <= Distance(h, r)
    ensures Distance(p, r) <= Distance(f, r)
  {
  }

  lemma Quotient(r: real, u: real)
    requires u > 0.0 && 0.0 <= r <= u * PRECISION
    ensures 0.0 <= r / u <= PRECISION
  {
    DivideBy(0.0, r, u);
    DivideBy(r, u * PRECISION, u);
    TimesThenDivide(PRECISION, u);
    assert PRECISION * u == u * PRECISION;
  }

  lemma NearestIsFloat(r: real)
    requires r >= 0.0
    ensures IsFloat(Nearest(r))
  {
    var k := Exponent(r, LOWEST);
    ExponentIs(r, LOWEST);
    hide Exponent, Scale, RoundedAt;
    RoundedIsFloat(r, k);
  }

  lemma RoundedIsFloat(r: real, k: int)
    requires k >= LOWEST && 0.0 <= r < Scale(k) * PRECISION
    ensures IsFloat(RoundedAt(r, k))
  {
    var u := Scale(k);
    hide Scale, IsFloat, RoundHalfEven;
    Quotient(r, u);
    MantissaFits(r / u);
    FloatsAre(RoundedAt(r, k), RoundHalfEven(r / u), k);
  }

  lemma MantissaFits(x: real)
    requires 0.0 <= x <= PRECISION
    ensures 0 <= RoundHalfEven(x) <= 9007199254740992
  {
    RoundHalfEvenMonotone(0.0, x);
    RoundHalfEvenMonotone(x, PRECISION);
    RoundHalfEvenExact(0);
    RoundHalfEvenExact(9007199254740992);
  }

  lemma FloatsAre(f: real, n: int, k: int)
    requires k >= LOWEST && 0 <= n <= 9007199254740992 && f == n as real * Scale(k)
    ensures IsFloat(f)
  {
    assert FloatAt(f, n, k);
  }

  lemma NegatedFloat(f: real, n: int, k: int)
    requires FloatAt(f, n, k)
    ensures FloatAt(-f, -n, k)
  {
  }

  /** A number converts to a float, and to one that no other float is nearer than. */
  lemma ToFloatIsNearest(r: real, f: real)
    requires IsFloat(f)
    ensures IsFloat(ToFloat(r)) && Distance(ToFloat(r), r) <= Distance(f, r)
  {
    var n, k :| FloatAt(f, n, k);
    hide Nearest, FloatAt;
    if r >= 0.0 {
      NearestIsFloat(r);
      NearestIsNearest(r, f, n, k);
    } else {
      NegatedFloat(f, n, k);
      NearestIsFloat(-r);
      var m, l :| FloatAt(Nearest(-r), m, l);
      NegatedFloat(Nearest(-r), m, l);
      NearestIsNearest(-r, -f, -n, k);
    }
  }

  // ---------- Where conversion overflows ----------

  lemma {:induction false} ScaleAdds(k: int, n: nat)
    ensures Scale(k + n) == Scale(k) * Scale(n)
    decreases n
  {
    if n > 0 {
      ScaleDoubles(k + n - 1);
      ScaleDoubles(n - 1);
      hide Scale;
      ScaleAdds(k, n - 1);
      TwiceTheProduct(Scale(k), Scale(n - 1), Scale(n));
    }
  }

  lemma TwiceTheProduct(a: real, b: real, c: real)
    requires c == 2.0 * b
    ensures a * c == 2.0 * (a * b)
  {
  }

  lemma ScaleOf53()
    ensures Scale(53) == PRECISION
  {
    assert Scale(8) == 256.0 && Scale(5) == 32.0;
    hide Scale;
    ScaleAdds(8, 8);
    ScaleAdds(16, 8);
    ScaleAdds(24, 24);
    ScaleAdds(48, 5);
  }

  /** From half a spacing below two to the 1024 on, numbers convert to that or more, which no 64-bit float
      holds; all smaller ones convert below it. */
  lemma OverflowIsExact(r: real)
    requires r >= 0.0
    ensures r >= Scale(1024) - Scale(970) <==> ToFloat(r) >= Scale(1024)
  {
    var u := Scale(971);
    OverflowScales();
    var top, limit := u * PRECISION - u, Scale(1024) - Scale(970);
    hide *;
    OverflowRounds(u, limit);
    LargestFloat(u, top);
    if r >= limit {
      ToFloatMonotone(limit, r);
    } else if r > top {
      ToFloatIsNearest(r, top);
      NearerThanTwice(ToFloat(r), top, r, u * PRECISION);
    } else {
      ToFloatMonotone(r, top);
    }
  }

  lemma OverflowScales()
    ensures Scale(1024) == Scale(971) * PRECISION && 2.0 * Scale(970) == Scale(971) > 0.0
  {
    hide Scale;
    ScaleAdds(971, 53);
    ScaleOf53();
    ScaleDoubles(970);
  }

  lemma NearerThanTwice(p: real, top: real, r: real, end: real)
    requires top < r && r - top < end - r && Distance(p, r) <= Distance(top, r)
    ensures p < end
  {
  }

  lemma LargestFloat(u: real, top: real)
    requires u == Scale(971) && top == u * PRECISION - u
    ensures IsFloat(top) && ToFloat(top) == top && top >= 0.0
  {
    hide Scale;
    assert top == 9007199254740991 as real * u;
    assert FloatAt(top, 9007199254740991, 971);
    DifferenceSign(9007199254740991.0, u);
    ToFloatIsNearest(top, top);
  }

  lemma OverflowRounds(u: real, limit: real)
    requires u == Scale(971) > 0.0 && limit == u * PRECISION - u / 2.0
    ensures ToFloat(limit) == u * PRECISION && limit >= 0.0
  {
    hide Scale, RoundedAt;
    assert limit == 9007199254740991.5 * u;
    DifferenceSign(9007199254740991.5, u);
    var k := Exponent(limit, LOWEST);
    ExponentIs(limit, LOWEST);
    hide Exponent;
    ScaleDoubles(970);
    if k < 971 {
      ScaleGrows(k, 970);
      TimesPrecision(Scale(k), Scale(970));
      HalfIsBelow(u, Scale(970), limit);
      assert false;
    } else if k > 971 {
      ScaleGrows(971, k - 1);
      TimesPrecision(u, Scale(k - 1));
      assert false;
    }
    RoundedUp(u, limit);
  }

  lemma RoundedUp(u: real, limit: real)
    requires u == Scale(971) && u > 0.0 && limit == 9007199254740991.5 * u
    ensures RoundedAt(limit, 971) == u * PRECISION
  {
    hide Scale;
    TimesThenDivide(9007199254740991.5, u);
    assert RoundHalfEven(9007199254740991.5) == 9007199254740992;
  }

  lemma HalfIsBelow(u: real, half: real, limit: real)
    requires u == 2.0 * half && half > 0.0 && limit == u * PRECISION - u / 2.0
    ensures limit >= half * PRECISION
  {
  }
}
