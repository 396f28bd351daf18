// Rounding to double precision, over the reals: to 53 significant bits, to the nearest such
// number, and to the one with an even last bit in case of a tie.
module Doubles {

  // 2 to the power -53.
  const Unit: real := 1.0 / 9007199254740992.0

  function Abs(x: real): real {
    if x < 0.0 then -x else x
  }

  // ---- Products ----

  function Times(a: real, b: real): real {
    a * b
  }

  lemma Monotone(a: real, b: real, u: real)
    requires a <= b && u > 0.0
    ensures a * u <= b * u && Times(a, u) <= Times(b, u)
  {
  }

  lemma Strict(a: real, b: real, u: real)
    requires a < b && u > 0.0
    ensures Times(a, u) < Times(b, u)
  {
  }

  lemma Distribute(a: real, b: real, u: real)
    ensures Times(a - b, u) == Times(a, u) - Times(b, u)
  {
  }

  lemma Associate(a: real, b: real, c: real)
    ensures Times(a, Times(b, c)) == Times(Times(a, b), c)
  {
  }

  lemma Quotient(x: real, u: real)
    requires u > 0.0
    ensures Times(x / u, u) == x
  {
  }

  lemma AbsScaled(a: real, u: real)
    requires u > 0.0
    ensures Abs(Times(a, u)) == Times(Abs(a), u)
  {
    ZeroTimes(u);
    Distribute(0.0, a, u);
    hide Times;
    if a < 0.0 {
      Strict(a, 0.0, u);
    } else {
      Monotone(0.0, a, u);
    }
  }

  lemma ZeroTimes(u: real)
    ensures Times(0.0, u) == 0.0
  {
  }

  // Distances from `s` compare like the distances of the multiples.
  lemma Closer(h: real, m: real, s: real, u: real)
    requires u > 0.0 && Abs(h - s) <= Abs(m - s)
    ensures Abs(Times(h, u) - Times(s, u)) <= Abs(Times(m, u) - Times(s, u))
  {
    hide Times;
    AbsScaled(h - s, u);
    AbsScaled(m - s, u);
    Monotone(Abs(h - s), Abs(m - s), u);
    Distribute(h, s, u);
    Distribute(m, s, u);
  }

  // ---- Powers of two ----

  function Pow2(e: int): (r: real)
    ensures r > 0.0
    decreases if e < 0 then -e else e
  {
    if e == 0 then 1.0 else if e > 0 then 2.0 * Pow2(e - 1) else Pow2(e + 1) / 2.0
  }

  lemma Pow2Next(e: int)
    ensures Pow2(e + 1) == 2.0 * Pow2(e)
  {
  }

  lemma {:induction false} Pow2Grows(e: int, f: int)
    requires e <= f
    ensures Pow2(e) <= Pow2(f)
    decreases f - e
  {
    if e < f {
      Pow2Next(f - 1);
      hide Pow2;
      Pow2Grows(e, f - 1);
    }
  }

  lemma {:induction false} Pow2Sum(e: int, k: nat)
    ensures Pow2(e + k) == Times(Pow2(k), Pow2(e))
  {
    if k == 0 {
      assert Pow2(0) == 1.0;
    } else {
      Pow2Next(e + k - 1);
      Pow2Next(k - 1);
      hide Pow2, Times;
      Pow2Sum(e, k - 1);
      assert e + (k - 1) == e + k - 1;
      Twice(Pow2(k - 1), Pow2(e));
    }
  }

  lemma Twice(a: real, b: real)
    ensures Times(2.0 * a, b) == 2.0 * Times(a, b)
  {
  }

  lemma {:induction false} Pow2IsInteger(k: nat) returns (n: int)
    ensures n >= 1 && n as real == Pow2(k)
  {
    if k == 0 {
      n := 1;
      assert Pow2(0) == 1.0;
    } else {
      Pow2Next(k - 1);
      hide Pow2;
      n := Pow2IsInteger(k - 1);
      n := 2 * n;
    }
  }

  lemma Pow2Of52()
    ensures Pow2(52) == 4503599627370496.0
  {
    assert Pow2(1) == 2.0;
    assert Pow2(2) == 4.0;
    assert Pow2(3) == 8.0;
    hide Pow2;
    Pow2Sum(3, 3);
    assert Pow2(6) == 64.0;
    Pow2Next(6);
    Pow2Sum(6, 7);
    assert Pow2(13) == 8192.0;
    Pow2Sum(13, 13);
    assert Pow2(26) == 67108864.0;
    Pow2Sum(26, 26);
  }

  lemma HalvedReciprocal(x: real)
    requires 0.0 < x && 2.0 * x < 1.0
    ensures (1.0 / (2.0 * x)).Floor < (1.0 / x).Floor
  {
    var y := 1.0 / x;
    assert y * x == 1.0;
    assert (y - 2.0) * x > 0.0;
    assert y > 2.0;
    assert 1.0 / (2.0 * x) == y / 2.0;
  }

  // The exponent of a positive number.
  function Log2(x: real): (e: int)
    requires x > 0.0
    ensures Pow2(e) <= x < 2.0 * Pow2(e)
    decreases if x >= 2.0 then x.Floor else if x < 1.0 then (1.0 / x).Floor else 0
  {
    if x >= 2.0 then 1 + Log2(x / 2.0)
    else if x < 1.0 then
      assert 1.0 / x > 1.0 by { assert (1.0 / x) * x == 1.0; }
      if 2.0 * x < 1.0 then HalvedReciprocal(x); Log2(2.0 * x) - 1 else -1
    else 0
  }

  // ---- Rounding ----

  function HalfEven(s: real): (h: int)
    ensures -0.5 <= h as real - s <= 0.5
    ensures h as real - s == 0.5 || h as real - s == -0.5 ==> h % 2 == 0
  {
    var f := s.Floor;
    var rest := s - f as real;
    if rest < 0.5 || (rest == 0.5 && f % 2 == 0) then f else f + 1
  }

  // The distance between neighbours around a positive number: the last of 53 bits.
  function Ulp(x: real): (r: real)
    requires x > 0.0
    ensures 0.0 < r && 0.5 * r <= Unit * x
  {
    Pow2(Log2(x)) / 4503599627370496.0
  }

  function Nearest(x: real): real
    decreases x < 0.0
  {
    if x == 0.0 then 0.0
    else if x < 0.0 then -Nearest(-x)
    else
      var ulp := Ulp(x);
      HalfEven(x / ulp) as real * ulp
  }

  // The relative error of a rounding is at most `Unit`.
  predicate Within(exact: real, computed: real) {
    Abs(computed - exact) <= Unit * Abs(exact)
  }

  // Rounding to a multiple of `ulp` is off by at most half of it.
  lemma Multiple(x: real, ulp: real, h: real)
    requires ulp > 0.0 && -0.5 <= h - x / ulp <= 0.5
    ensures Abs(h * ulp - x) <= 0.5 * ulp
  {
    var s := x / ulp;
    assert s * ulp == x;
    Monotone(h, s + 0.5, ulp);
    Monotone(s - 0.5, h, ulp);
    assert (s + 0.5) * ulp == x + 0.5 * ulp && (s - 0.5) * ulp == x - 0.5 * ulp;
  }

  lemma {:induction false} NearestWithin(x: real)
    ensures Within(x, Nearest(x))
    decreases x < 0.0
  {
    hide Log2, Pow2, Ulp, HalfEven;
    if x < 0.0 {
      NearestWithin(-x);
    } else if x > 0.0 {
      var h := HalfEven(x / Ulp(x)) as real;
      Multiple(x, Ulp(x), h);
      assert Nearest(x) == h * Ulp(x);
      hide Nearest;
    }
  }

  // ---- The nearest of all numbers with 53 significant bits ----

  lemma NearestInteger(s: real, m: int)
    ensures Abs(HalfEven(s) as real - s) <= Abs(m as real - s)
  {
    var h := HalfEven(s);
    hide HalfEven;
    if m < h {
      assert m as real <= h as real - 1.0;
    } else if m > h {
      assert m as real >= h as real + 1.0;
    }
  }

  lemma NearestIs(x: real) returns (s: real)
    requires x > 0.0
    ensures Times(s, Ulp(x)) == x && Nearest(x) == Times(HalfEven(s) as real, Ulp(x))
  {
    s := x / Ulp(x);
    assert Nearest(x) == HalfEven(s) as real * Ulp(x);
    hide Nearest, HalfEven, Ulp;
    Quotient(x, Ulp(x));
  }

  // Among the multiples of the last bit none is nearer.
  lemma NearestMultiple(x: real, m: int)
    requires x > 0.0
    ensures Abs(Nearest(x) - x) <= Abs(Times(m as real, Ulp(x)) - x)
  {
    hide Nearest, HalfEven, Ulp, Abs, Times;
    var s := NearestIs(x);
    NearestInteger(s, m);
    Closer(HalfEven(s) as real, m as real, s, Ulp(x));
  }

  lemma UlpIs(x: real)
    requires x > 0.0
    ensures Ulp(x) == Pow2(Log2(x) - 52) && Pow2(Log2(x)) == Times(4503599627370496.0, Ulp(x))
    ensures Pow2(Log2(x)) == Times(9007199254740992.0, Pow2(Log2(x) - 53))
  {
    var e := Log2(x);
    assert Ulp(x) == Pow2(e) / 4503599627370496.0;
    hide Log2, Pow2, Ulp;
    Pow2Of52();
    Pow2Sum(e - 52, 52);
    Pow2Next(e - 53);
  }

  lemma IntegerTimes(m: int, n: int)
    ensures (m * n) as real == Times(m as real, n as real)
  {
  }

  lemma CoarseIsMultiple(m: int, e: int, x: real) returns (n: int)
    requires x > 0.0 && e >= Log2(x) - 52
    ensures Times(m as real, Pow2(e)) == Times(n as real, Ulp(x))
  {
    var low := Log2(x) - 52;
    var k: nat := e - low;
    hide Log2, Pow2, Ulp, Times;
    UlpIs(x);
    Pow2Sum(low, k);
    assert low + k == e;
    var p := Pow2IsInteger(k);
    IntegerTimes(m, p);
    Associate(m as real, Pow2(k), Pow2(low));
    n := m * p;
  }

  lemma FineIsBelow(m: int, e: int, x: real)
    requires x > 0.0 && e < Log2(x) - 52 && m <= 9007199254740992
    ensures Times(m as real, Pow2(e)) <= Pow2(Log2(x))
  {
    hide Log2, Pow2, Ulp, Times;
    UlpIs(x);
    Pow2Grows(e, Log2(x) - 53);
    Monotone(m as real, 9007199254740992.0, Pow2(e));
    Scaled(9007199254740992.0, Pow2(e), Pow2(Log2(x) - 53));
  }

  lemma Scaled(c: real, a: real, b: real)
    requires c > 0.0 && a <= b
    ensures Times(c, a) <= Times(c, b)
  {
    Monotone(a, b, c);
  }

  lemma NearestAmongDoubles(x: real, m: int, e: int)
    requires x > 0.0 && m <= 9007199254740992
    ensures Abs(Nearest(x) - x) <= Abs(Times(m as real, Pow2(e)) - x)
  {
    assert Pow2(Log2(x)) <= x;
    hide Nearest, Log2, Pow2, Ulp, Times;
    if e >= Log2(x) - 52 {
      var n := CoarseIsMultiple(m, e, x);
      NearestMultiple(x, n);
    } else {
      FineIsBelow(m, e, x);
      UlpIs(x);
      NearestMultiple(x, 4503599627370496);
    }
  }

  // No number with 53 significant bits is nearer to `x` than the one it is rounded to.
  lemma NearestIsNearest(x: real, m: int, e: int)
    requires x > 0.0 && m <= 9007199254740992
    ensures Abs(Nearest(x) - x) <= Abs(m as real * Pow2(e) - x)
  {
    NearestAmongDoubles(x, m, e);
    hide Nearest, Pow2;
    assert Times(m as real, Pow2(e)) == m as real * Pow2(e);
  }

  // The rounded number has 53 significant bits, and in case of a tie the last one is even.
  lemma NearestIsDouble(x: real) returns (m: int)
    requires x > 0.0
    ensures 4503599627370496 <= m <= 9007199254740992 && Nearest(x) == Times(m as real, Pow2(Log2(x) - 52))
    ensures Abs(Nearest(x) - x) == 0.5 * Pow2(Log2(x) - 52) ==> m % 2 == 0
  {
    var ulp := Ulp(x);
    assert Pow2(Log2(x)) <= x < 2.0 * Pow2(Log2(x));
    hide Nearest, Log2, Pow2, Ulp, HalfEven, Times;
    var s := NearestIs(x);
    m := HalfEven(s);
    UlpIs(x);
    QuotientBounds(s, ulp, x);
    if Abs(Nearest(x) - x) == 0.5 * ulp {
      Tie(m as real, s, ulp, x);
    }
  }

  lemma Half(u: real)
    ensures Times(0.5, u) == 0.5 * u
  {
  }

  lemma Tie(m: real, s: real, u: real, x: real)
    requires u > 0.0 && Times(s, u) == x && Abs(Times(m, u) - x) == 0.5 * u
    ensures m - s == 0.5 || m - s == -0.5
  {
    hide Times;
    AbsScaled(m - s, u);
    Distribute(m, s, u);
    Half(u);
    Cancel(Abs(m - s), 0.5, u);
  }

  lemma QuotientBounds(s: real, u: real, x: real)
    requires u > 0.0 && Times(s, u) == x && Times(4503599627370496.0, u) <= x < 2.0 * Times(4503599627370496.0, u)
    ensures 4503599627370496.0 <= s < 9007199254740992.0
  {
    Twice(4503599627370496.0, u);
    hide Times;
    if s < 4503599627370496.0 {
      Strict(s, 4503599627370496.0, u);
    } else if s >= 9007199254740992.0 {
      Monotone(9007199254740992.0, s, u);
    }
  }

  lemma Cancel(a: real, b: real, u: real)
    requires u > 0.0 && Times(a, u) == Times(b, u)
    ensures a == b
  {
    hide Times;
    if a < b {
      Strict(a, b, u);
    } else if b < a {
      Strict(b, a, u);
    }
  }
}
