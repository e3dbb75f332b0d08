/**
 Integer arithmetic as JavaScript's bigint performs it, and the few facts about
 rounding and convexity that the margin proofs rest on.
 */
module Arithmetic {

  const WAD: int := 1_000_000_000_000_000_000

  function Abs(x: int): int {
    if x < 0 then -x else x
  }

  function Max(x: int, y: int): int {
    if x > y then x else y
  }

  function Pow10(n: nat): (r: int)
    ensures r > 0
  {
    if n == 0 then 1 else 10 * Pow10(n - 1)
  }

  function Pow2(n: nat): (r: int)
    ensures r > 0
  {
    if n == 0 then 1 else 2 * Pow2(n - 1)
  }

  /** bigint `/`: the quotient is truncated toward zero. */
  function TruncDiv(a: int, b: int): int
    requires b != 0
  {
    var q := Abs(a) / Abs(b);
    if (a < 0) == (b < 0) then q else -q
  }

  /** bigint `%`: the remainder takes the sign of the dividend. */
  function TruncMod(a: int, b: int): int
    requires b != 0
  {
    a - b * TruncDiv(a, b)
  }

  /** The source's correction of a truncated quotient down to the floor. */
  function FloorDiv(a: int, b: int): int
    requires b != 0
  {
    var q := TruncDiv(a, b);
    if TruncMod(a, b) != 0 && (a < 0) != (b < 0) then q - 1 else q
  }

  lemma MulOrder(x: int, y: int, d: int)
    requires d >= 0 && x <= y
    ensures x * d <= y * d
  {
  }

  lemma DivMod(x: int, d: int)
    requires d > 0
    ensures d * (x / d) <= x < d * (x / d) + d
  {
    assert x == d * (x / d) + x % d;
  }

  lemma FloorUnique(x: int, d: int, q: int)
    requires d > 0
    requires q * d <= x < q * d + d
    ensures x / d == q
  {
    DivMod(x, d);
    var r := x / d;
    assert r < q ==> (r + 1) * d <= q * d;
    assert r > q ==> (q + 1) * d <= r * d;
  }

  /** `FloorDiv(a, b)` is the floor of the rational a/b, whatever the signs. */
  lemma FloorDivIsFloor(a: int, b: int)
    requires b != 0
    ensures b > 0 ==> b * FloorDiv(a, b) <= a < b * FloorDiv(a, b) + b
    ensures b < 0 ==> b * FloorDiv(a, b) >= a > b * FloorDiv(a, b) + b
  {
    var q := Abs(a) / Abs(b);
    DivMod(Abs(a), Abs(b));
    if b > 0 {
      FloorDivByPositive(a, b);
    } else {
      assert Abs(b) * q == -(b * q);
      assert b * -q == -(b * q);
      assert b * (-q - 1) == -(b * q) - b;
    }
  }

  lemma FloorDivByPositive(a: int, b: int)
    requires b > 0
    ensures b * FloorDiv(a, b) <= a < b * FloorDiv(a, b) + b
    ensures FloorDiv(a, b) == a / b
  {
    var q := Abs(a) / b;
    DivMod(Abs(a), b);
    assert b * -q == -(b * q);
    assert b * (-q - 1) == -(b * q) - b;
    FloorUnique(a, b, FloorDiv(a, b));
  }

  lemma LeastAbove(y: int, z: int, d: int)
    requires d > 0
    requires d * z < d * y + d
    ensures z <= y
  {
    assert z > y ==> d * z >= d * (y + 1);
  }

  lemma MulAssoc(x: int, y: int, z: int)
    ensures (x * y) * z == x * (y * z)
  {
  }

  lemma MulSwap(x: int, y: int, z: int)
    ensures (x * y) * z == x * z * y
  {
  }

  lemma MulSum(x: int, y: int, z: int)
    ensures (x + y) * z == x * z + y * z && z * (x + y) == z * x + z * y
    ensures (x - y) * z == x * z - y * z && z * (x - y) == z * x - z * y
  {
  }

  lemma FloorOfSum(n: int, x: int, scale: int)
    requires scale > 0
    ensures (n * scale + x) / scale == n + x / scale
  {
    DivMod(x, scale);
    MulSum(n, x / scale, scale);
    FloorUnique(n * scale + x, scale, n + x / scale);
  }

  lemma ScaledQuotient(x: int, d: int, k: int)
    requires x >= 0 && d > 0 && k > 0
    ensures d * k > 0 && (x * k) / (d * k) == x / d
  {
    MulOrder(1, d, k);
    DivMod(x, d);
    var q := x / d;
    MulOrder(d * q, x, k);
    MulOrder(x + 1, d * q + d, k);
    MulAssoc(q, d, k);
    MulSum(d * q, d, k);
    MulSum(x, 1, k);
    FloorUnique(x * k, d * k, q);
  }

  /** Which side of a floored root a point lies on. */
  lemma FloorRoot(n: int, c: int, q: int)
    requires c != 0
    ensures q <= FloorDiv(n, c) ==> (c > 0 ==> n - c * q >= 0) && (c < 0 ==> n - c * q <= 0)
    ensures FloorDiv(n, c) + 1 <= q ==> (c > 0 ==> n - c * q <= 0) && (c < 0 ==> n - c * q >= 0)
  {
    FloorDivIsFloor(n, c);
    hide FloorDiv;
    var f := FloorDiv(n, c);
    if c > 0 {
      RootSide(n, c, f, q);
    } else {
      Negated(c, f);
      Negated(c, q);
      RootSide(-n, -c, f, q);
    }
  }

  lemma Negated(x: int, y: int)
    ensures -x * y == -(x * y)
  {
  }

  lemma RootSide(n: int, c: int, f: int, q: int)
    requires c > 0 && c * f <= n < c * f + c
    ensures if q <= f then c * q <= n else n <= c * q
  {
    if q <= f { MulOrder(q, f, c); } else { MulOrder(f + 1, q, c); }
  }

  lemma ScaledOrder(q: int, f: int, c: int)
    requires c > 0
    ensures if q <= f then q * c <= f * c else (f + 1) * c <= q * c
  {
    if q <= f { MulOrder(q, f, c); } else { MulOrder(f + 1, q, c); }
  }

  lemma NestedFloorBelow(q: int, x: int, y: int, l: int, d: int)
    requires d > 0 && l > 0 && d * q <= x && x * l < d * y + d
    ensures q * l <= y
  {
    MulOrder(d * q, x, l);
    MulAssoc(d, q, l);
    LeastAbove(y, q * l, d);
  }

  lemma NestedFloorAbove(q: int, x: int, y: int, l: int, d: int)
    requires d > 0 && l > 0 && x + 1 <= d * (q + 1) && d * y <= x * l
    ensures y < (q + 1) * l
  {
    MulOrder(x + 1, d * (q + 1), l);
    MulAssoc(d, q + 1, l);
    MulSum(x, 1, l);
    MulSum((q + 1) * l, 1, d);
    LeastAbove((q + 1) * l - 1, y, d);
  }

  /** Scaling up before a floor and down after it cancels. */
  lemma NestedFloor(x: int, l: int, d: int)
    requires x >= 0 && l > 0 && d > 0
    ensures (x * l) / d / l == x / d
  {
    var q, y := x / d, (x * l) / d;
    DivMod(x, d);
    DivMod(x * l, d);
    MulSum(q, 1, d);
    MulSum(q, 1, l);
    NestedFloorBelow(q, x, y, l, d);
    NestedFloorAbove(q, x, y, l, d);
    FloorUnique(y, l, q);
  }

  lemma DivMonotone(x: int, y: int, d: int)
    requires d > 0 && x <= y
    ensures x / d <= y / d
  {
    DivMod(x, d);
    DivMod(y, d);
    LeastAbove(y / d, x / d, d);
  }

  lemma FloorOfMax(x: int, y: int, d: int)
    requires d > 0
    ensures Max(x / d, y / d) == Max(x, y) / d
  {
    if x > y { DivMonotone(y, x, d); } else { DivMonotone(x, y, d); }
  }

  lemma ExactDiv(x: int, d: int)
    requires d > 0
    ensures TruncDiv(x * d, d) == x
  {
    assert Abs(x * d) == Abs(x) * d;
    FloorUnique(Abs(x) * d, d, Abs(x));
    if x < 0 { assert x * d < 0; }
  }

  lemma PowersAdd(a: nat, b: nat)
    ensures Pow10(a) * Pow10(b) == Pow10(a + b)
  {
    if a > 0 {
      PowersAdd(a - 1, b);
      MulAssoc(10, Pow10(a - 1), Pow10(b));
    }
  }

  lemma Pow18IsWad()
    ensures Pow10(18) == WAD
  {
    assert Pow10(6) == 1_000_000;
    PowersAdd(6, 6);
    PowersAdd(12, 6);
  }

  // ── Rounding against the reals ───────────────────────────────────────────

  lemma RealDivBounds(x: real, d: real, lo: real, hi: real)
    requires d > 0.0
    requires lo * d <= x < hi * d
    ensures lo <= x / d < hi
  {
    var e := x / d;
    assert e * d == x;
    assert e < lo ==> e * d < lo * d;
    assert e >= hi ==> e * d >= hi * d;
  }

  /** A floor is at most one below the exact quotient. */
  lemma FloorBounds(x: int, d: int)
    requires d > 0
    ensures (x / d) as real <= x as real / d as real < (x / d) as real + 1.0
  {
    var q := x / d;
    DivMod(x, d);
    assert (d * q) as real == d as real * q as real;
    assert (d * q + d) as real == (d * q) as real + d as real;
    RealDivBounds(x as real, d as real, q as real, q as real + 1.0);
  }

  lemma NegatedQuotient(x: real, d: real)
    requires d > 0.0
    ensures (-x) / d == -(x / d)
  {
  }

  /** A truncated quotient moves toward zero by less than one. */
  lemma TruncBounds(x: int, d: int)
    requires d > 0
    ensures x >= 0 ==> TruncDiv(x, d) as real <= x as real / d as real < TruncDiv(x, d) as real + 1.0
    ensures x <= 0 ==> TruncDiv(x, d) as real - 1.0 < x as real / d as real <= TruncDiv(x, d) as real
  {
    FloorBounds(Abs(x), d);
    NegatedQuotient(x as real, d as real);
  }

  // ── Chords: convexity at three points ────────────────────────────────────

  function Pos(x: real): real {
    if x > 0.0 then x else 0.0
  }

  /**
   At weights w1, w2 the middle value lies on or below the chord through the outer
   two. For a function on prices a <= c <= b, take w1 = b - c and w2 = c - a.
   */
  ghost predicate Chord(w1: real, w2: real, ta: real, tc: real, tb: real) {
    tc * (w1 + w2) <= ta * w1 + tb * w2
  }

  lemma ChordAdd(w1: real, w2: real, ta: real, tc: real, tb: real, ua: real, uc: real, ub: real)
    requires Chord(w1, w2, ta, tc, tb) && Chord(w1, w2, ua, uc, ub)
    ensures Chord(w1, w2, ta + ua, tc + uc, tb + ub)
  {
  }

  lemma ChordPos(w1: real, w2: real, ta: real, tc: real, tb: real)
    requires w1 >= 0.0 && w2 >= 0.0
    requires Chord(w1, w2, ta, tc, tb)
    ensures Chord(w1, w2, Pos(ta), Pos(tc), Pos(tb))
  {
    assert ta * w1 <= Pos(ta) * w1;
    assert tb * w2 <= Pos(tb) * w2;
    assert 0.0 <= Pos(ta) * w1 && 0.0 <= Pos(tb) * w2;
  }

  lemma ChordAffine(a: int, c: int, b: int, k: real, m: real)
    ensures Chord((b - c) as real, (c - a) as real,
                  k * a as real + m, k * c as real + m, k * b as real + m)
  {
  }

  lemma RealMulOrder(x: real, y: real, w: real)
    requires w >= 0.0 && x < y
    ensures x * w <= y * w
    ensures w > 0.0 ==> x * w < y * w
  {
  }

  /** A value on the chord stays below any strict bound on the two ends. */
  lemma ChordBound(w1: real, w2: real, ta: real, tc: real, tb: real, t: real)
    requires w1 >= 0.0 && w2 >= 0.0 && w1 + w2 > 0.0
    requires Chord(w1, w2, ta, tc, tb)
    requires ta < t && tb < t
    ensures tc < t
  {
    RealMulOrder(ta, t, w1);
    RealMulOrder(tb, t, w2);
    assert tc >= t ==> tc * (w1 + w2) >= t * (w1 + w2);
  }

  /** The same with bounds that may be reached. */
  lemma ChordAtMost(w1: real, w2: real, ta: real, tc: real, tb: real, t: real)
    requires w1 >= 0.0 && w2 >= 0.0 && w1 + w2 > 0.0
    requires Chord(w1, w2, ta, tc, tb)
    requires ta <= t && tb <= t
    ensures tc <= t
  {
    if tc > t {
      ChordBound(w1, w2, ta, tc, tb, tc);
    }
  }
}
