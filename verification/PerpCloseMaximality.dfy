/**
 The close is the deepest one: between neighbouring kinks the MM shortfall is exactly
 linear in the closed quantity, so no quantity the walk passed over is in the band by more
 than rounding.
 */
module PerpCloseMaximality {
  import opened Arithmetic
  import opened Margin
  import opened MarginShape
  import opened PerpClose
  import opened PerpCloseGuarantee

  // ── From two shapes to the deepest close ─────────────────────────────────

  /** Between two unhealthy closes of the range there is no close healthy beyond rounding. */
  ghost predicate StaysUnhealthy(mmS: int -> int, a: int, b: int) {
    forall x, k, y :: a <= x <= k <= y <= b && 1 <= k && mmS(x) < 0 && mmS(y) < 0 ==> mmS(k) < CLOSE_SLACK
  }

  /** Between two closes over IM there is none under IM beyond rounding. */
  ghost predicate StaysOverIM(imS: int -> int, absNet: int) {
    forall x, k, y :: 1 <= x <= k <= y <= absNet && imS(x) > 0 && imS(y) > 0 ==> imS(k) > -CLOSE_SLACK
  }

  /** In the band by more than rounding. */
  ghost predicate ClearlyInBand(mmS: int -> int, imS: int -> int, q: int) {
    mmS(q) >= CLOSE_SLACK && imS(q) <= -CLOSE_SLACK
  }

  lemma BarrenHasNone(mmS: int -> int, imS: int -> int, absNet: int, a: int, b: int, k: int)
    requires StaysUnhealthy(mmS, a, b) && StaysOverIM(imS, absNet)
    requires 0 <= a < k <= b <= absNet && (a == 0 ==> mmS(a) < 0)
    requires Barren(mmS, imS, a, b)
    ensures !ClearlyInBand(mmS, imS, k)
  {
    if mmS(a) < 0 && mmS(b) < 0 {
      StillUnhealthy(mmS, a, b, a, k, b);
    } else {
      hide StaysUnhealthy, StaysOverIM;
      var lo, hi :| RangeOf(mmS, a, b, lo, hi) && imS(lo) > 0 && imS(hi) > 0;
      OutsideRange(mmS, a, b, lo, hi, k);
      StillOverIM(imS, absNet, lo, k, hi);
    }
  }

  lemma StillUnhealthy(mmS: int -> int, a: int, b: int, x: int, k: int, y: int)
    requires StaysUnhealthy(mmS, a, b) && a <= x <= k <= y <= b && 1 <= k && mmS(x) < 0 && mmS(y) < 0
    ensures mmS(k) < CLOSE_SLACK
  {
  }

  lemma StillOverIM(imS: int -> int, absNet: int, x: int, k: int, y: int)
    requires StaysOverIM(imS, absNet)
    ensures 1 <= x <= k <= y <= absNet && imS(x) > 0 && imS(y) > 0 ==> imS(k) > -CLOSE_SLACK
  {
  }

  lemma OutsideRange(mmS: int -> int, a: int, b: int, lo: int, hi: int, k: int)
    requires StaysUnhealthy(mmS, a, b) && RangeOf(mmS, a, b, lo, hi) && 0 <= a < k <= b
    ensures lo <= k <= hi || mmS(k) < CLOSE_SLACK
  {
    hide StaysUnhealthy;
    if k < lo {
      StillUnhealthy(mmS, a, b, a, k, lo - 1);
    } else if k > hi {
      StillUnhealthy(mmS, a, b, hi + 1, k, b);
    }
  }

  lemma OfferIsDeepest(mmS: int -> int, imS: int -> int, absNet: int, a: int, b: int, q: int, k: int)
    requires StaysUnhealthy(mmS, a, b) && StaysOverIM(imS, absNet)
    requires 0 <= a < k <= b <= absNet && (a == 0 ==> mmS(a) < 0) && q < k
    requires Yields(mmS, imS, a, b, q)
    ensures !ClearlyInBand(mmS, imS, k)
  {
    var lo, hi :| RangeOf(mmS, a, b, lo, hi) && lo <= q <= hi && imS(q) <= 0 &&
      (q == hi || (imS(q + 1) > 0 && imS(hi) > 0));
    hide StaysUnhealthy, StaysOverIM;
    OutsideRange(mmS, a, b, lo, hi, k);
    StillOverIM(imS, absNet, q + 1, k, hi);
  }

  lemma {:induction false} IntervalAround(bounds: seq<int>, k: int, n: nat) returns (i: nat)
    requires n < |bounds| && bounds[0] < k <= bounds[n]
    ensures i + 1 <= n && bounds[i] < k <= bounds[i + 1]
  {
    if n == 0 || bounds[n - 1] < k {
      i := n - 1;
    } else {
      i := IntervalAround(bounds, k, n - 1);
    }
  }

  ghost predicate ShapedBetweenKinks(mmS: int -> int, imS: int -> int, bounds: seq<int>, absNet: int) {
    && IsPartition(bounds, absNet) && mmS(0) < 0 && StaysOverIM(imS, absNet)
    && forall i, j :: 0 <= i < j == i + 1 < |bounds| ==> StaysUnhealthy(mmS, bounds[i], bounds[j])
  }

  lemma NothingDeeper(mmS: int -> int, imS: int -> int, bounds: seq<int>, absNet: int, q: int, k: int)
    requires ShapedBetweenKinks(mmS, imS, bounds, absNet) && BufferedClose(mmS, imS, bounds, absNet, q)
    requires q < k <= absNet && k >= 1
    ensures !ClearlyInBand(mmS, imS, k)
  {
    hide StaysUnhealthy, StaysOverIM, Yields, Barren, ClearlyInBand, IsOffer, Enclosed, KinksCovered;
    var i := IntervalAround(bounds, k, |bounds| - 1);
    var a, b := bounds[i], bounds[i + 1];
    if Barren(mmS, imS, a, b) {
      BarrenHasNone(mmS, imS, absNet, a, b, k);
    } else {
      assert OffersUpTo(mmS, imS, a, b, q);
      var d :| d <= q && Yields(mmS, imS, a, b, d);
      OfferIsDeepest(mmS, imS, absNet, a, b, d, k);
    }
  }

  lemma NothingAtAll(mmS: int -> int, imS: int -> int, bounds: seq<int>, absNet: int, k: int)
    requires ShapedBetweenKinks(mmS, imS, bounds, absNet) && AllBarren(mmS, imS, bounds)
    requires 1 <= k <= absNet
    ensures !ClearlyInBand(mmS, imS, k)
  {
    hide StaysUnhealthy, StaysOverIM, Barren, ClearlyInBand;
    var i := IntervalAround(bounds, k, |bounds| - 1);
    BarrenHasNone(mmS, imS, absNet, bounds[i], bounds[i + 1], k);
  }

  // ── Each clamp keeps its side between kinks ──────────────────────────────

  ghost predicate OneSign(x: int, y: int, z: int) {
    (x >= 0 && y >= 0 && z >= 0) || (x <= 0 && y <= 0 && z <= 0)
  }

  ghost predicate AreKinks(snap: AccountSnapshot, params: MMParams, price: int, bounds: seq<int>)
    requires PerUnit(params) != 0
  {
    var absNet := Abs(snap.perp.netQty);
    && IsPartition(bounds, absNet)
    && forall k :: k in bounds <==> k == 0 || k == absNet || Interior(CloseRoots(snap, params, price), absNet, k)
  }

  /** A root and its successor are both boundaries, so no interval has either inside. */
  lemma RootIsOutside(bounds: seq<int>, roots: seq<int>, absNet: int, r: int, i: nat)
    requires IsPartition(bounds, absNet) && i + 1 < |bounds| && r in roots
    requires forall k :: k in bounds <==> k == 0 || k == absNet || Interior(roots, absNet, k)
    ensures bounds[i + 1] <= r || r + 1 <= bounds[i] || bounds[i + 1] == bounds[i] + 1
  {
    NotInside(bounds, absNet, r, i);
    NotInside(bounds, absNet, r + 1, i);
  }

  lemma NotInside(bounds: seq<int>, absNet: int, k: int, i: nat)
    requires IsPartition(bounds, absNet) && i + 1 < |bounds|
    ensures k in bounds ==> k <= bounds[i] || bounds[i + 1] <= k
    ensures 0 <= bounds[i] && bounds[i + 1] <= absNet
  {
    if k in bounds {
      var m :| 0 <= m < |bounds| && bounds[m] == k;
    }
  }

  lemma TruncRoot(n: int, u: int, q: int)
    requires u > 0 && q >= 0
    ensures 1 <= q <= TruncDiv(n, u) ==> n - u * q >= 0
    ensures TruncDiv(n, u) + 1 <= q ==> n - u * q <= 0
    ensures q == 0 && 1 <= TruncDiv(n, u) ==> n - u * q >= 0
  {
    var f := Abs(n) / u;
    DivMod(Abs(n), u);
    if q <= f { MulOrder(q, f, u); } else { MulOrder(f + 1, q, u); }
    MulSum(f, 1, u);
    MulOrder(0, q, u);
  }

  /** The order deltas differ by an even number of WAD units, as they do below eighteen token decimals. */
  predicate EvenOrders(snap: AccountSnapshot, params: MMParams) {
    (SellDeltaWad(snap, params) - BuyDeltaWad(snap, params)) % 2 == 0
  }

  lemma EvenBelowEighteen(snap: AccountSnapshot, params: MMParams)
    requires params.tokenDecimals < 18
    ensures EvenOrders(snap, params)
  {
    EvenLift(params);
    hide MMParams.WadLift, Pow10;
    EvenDifference(snap.perp.orders.sellDelta + snap.futures.orders.sellDelta,
                   snap.perp.orders.buyDelta + snap.futures.orders.buyDelta, 5 * Pow10(17 - params.tokenDecimals));
  }

  lemma EvenLift(params: MMParams)
    requires params.tokenDecimals < 18
    ensures params.WadLift() == 2 * (5 * Pow10(17 - params.tokenDecimals))
  {
  }

  lemma EvenDifference(x: int, y: int, half: int)
    ensures (x * (2 * half) - y * (2 * half)) % 2 == 0
  {
    MulSum(x, y, 2 * half);
    MulSwap(x - y, 2, half);
    assert (x - y) * (2 * half) == 2 * ((x - y) * half);
  }

  /** Twice how far net delta lies above the point where the two stress legs swap. */
  function LegBalance(snap: AccountSnapshot, params: MMParams, q: int): int {
    2 * NetDeltaWad(Reduced(snap, q), params) + BuyDeltaWad(snap, params) - SellDeltaWad(snap, params)
  }

  lemma LegBalanceIs(snap: AccountSnapshot, params: MMParams, q: int)
    requires params.perpQuantityDecimals <= 18 && EvenOrders(snap, params)
    ensures PerUnit(params) > 0
    ensures var h := TruncDiv(SellDeltaWad(snap, params) - BuyDeltaWad(snap, params), 2);
            var n := Sgn(snap.perp.netQty) * (NetDeltaWad(snap, params) - h);
            LegBalance(snap, params, q) == 2 * Sgn(snap.perp.netQty) * (n - PerUnit(params) * q)
  {
    var gap, s, u := SellDeltaWad(snap, params) - BuyDeltaWad(snap, params), Sgn(snap.perp.netQty), PerUnit(params);
    ExactDiv(gap / 2, 2);
    PerUnitIsExact(params);
    ReducedDelta(snap, params, q);
    ReducedDelta(snap, params, 0);
    assert Reduced(snap, 0) == snap;
    hide TruncDiv, NetDeltaWad;
    assert -(s * u) * q == -(s * (u * q)) by { MulAssoc(s, u, q); }
    assert -(s * u) * 0 == 0;
    assert s == 1 || s == -1;
  }

  lemma LegBalanceKeepsSign(snap: AccountSnapshot, params: MMParams, price: int, bounds: seq<int>, i: nat, x: int,
                            k: int, y: int)
    requires params.perpQuantityDecimals <= 18 && EvenOrders(snap, params) && PerUnit(params) > 0
    requires AreKinks(snap, params, price, bounds) && i + 1 < |bounds| && bounds[i] <= x < k < y <= bounds[i + 1]
    ensures OneSign(LegBalance(snap, params, x), LegBalance(snap, params, k), LegBalance(snap, params, y))
  {
    var h := TruncDiv(SellDeltaWad(snap, params) - BuyDeltaWad(snap, params), 2);
    var n, u := Sgn(snap.perp.netQty) * (NetDeltaWad(snap, params) - h), PerUnit(params);
    var r := QtyAtDelta(snap, params, h);
    assert CloseRoots(snap, params, price)[2] == r;
    RootIsOutside(bounds, CloseRoots(snap, params, price), Abs(snap.perp.netQty), r, i);
    NotInside(bounds, Abs(snap.perp.netQty), x, i);
    LegBalanceIs(snap, params, x);
    LegBalanceIs(snap, params, k);
    LegBalanceIs(snap, params, y);
    hide TruncDiv, LegBalance, NetDeltaWad, BuyDeltaWad, SellDeltaWad, CloseRoots, AreKinks, OneSign;
    OneSideOfRoot(n, u, Sgn(snap.perp.netQty), bounds[i], bounds[i + 1], x, k, y);
  }

  lemma OneSideOfRoot(n: int, u: int, s: int, a: int, b: int, x: int, k: int, y: int)
    requires u > 0 && (s == 1 || s == -1) && 0 <= a <= x < k < y <= b
    requires b <= TruncDiv(n, u) || TruncDiv(n, u) + 1 <= a || b == a + 1
    ensures OneSign(2 * s * (n - u * x), 2 * s * (n - u * k), 2 * s * (n - u * y))
  {
    TruncRoot(n, u, x);
    TruncRoot(n, u, k);
    TruncRoot(n, u, y);
    hide TruncDiv;
    var nx, nk, ny := n - u * x, n - u * k, n - u * y;
    if s == 1 {
      assert 2 * s * nx == 2 * nx && 2 * s * nk == 2 * nk && 2 * s * ny == 2 * ny;
    } else {
      assert 2 * s * nx == -2 * nx && 2 * s * nk == -2 * nk && 2 * s * ny == -2 * ny;
    }
  }

  /** The exact total PnL after closing q, times the quantity scale. */
  function ScaledTotal(snap: AccountSnapshot, params: MMParams, price: int, q: int): int {
    (price - snap.perp.entryPrice) * snap.perp.netQty + FuturesUnrealizedPnl(snap, price) * params.QtyScale()
    - (price - snap.perp.entryPrice) * Sgn(snap.perp.netQty) * q
  }

  lemma TotalKeepsSign(snap: AccountSnapshot, params: MMParams, price: int, bounds: seq<int>, i: nat, x: int, k: int,
                       y: int)
    requires PerUnit(params) > 0 && AreKinks(snap, params, price, bounds) && i + 1 < |bounds|
    requires bounds[i] <= x < k < y <= bounds[i + 1]
    ensures OneSign(ScaledTotal(snap, params, price, x), ScaledTotal(snap, params, price, k),
                    ScaledTotal(snap, params, price, y))
  {
    var d, s := price - snap.perp.entryPrice, Sgn(snap.perp.netQty);
    var n, c := d * snap.perp.netQty + FuturesUnrealizedPnl(snap, price) * params.QtyScale(), d * s;
    if d == 0 {
      assert c * x == 0 && c * k == 0 && c * y == 0;
    } else {
      var r := FloorDiv(n, c);
      assert CloseRoots(snap, params, price)[3] == r;
      RootIsOutside(bounds, CloseRoots(snap, params, price), Abs(snap.perp.netQty), r, i);
      hide FloorDiv, FuturesUnrealizedPnl, CloseRoots, AreKinks, QtyAtDelta;
      FloorRoot(n, c, x);
      FloorRoot(n, c, k);
      FloorRoot(n, c, y);
    }
  }

  // ── So the shortfall is linear there ─────────────────────────────────────

  /** Where the same leg is the worse one throughout, its delta is linear. */
  lemma LegDeltaIsLinear(snap: AccountSnapshot, params: MMParams, a: int, c: int, b: int)
    requires WellFormed(snap, params) && params.perpQuantityDecimals <= 18 && a <= c <= b
    requires OneSign(LegBalance(snap, params, a), LegBalance(snap, params, c), LegBalance(snap, params, b))
    ensures Chord((b - c) as real, (c - a) as real, -(LegDelta(snap, params, a) as real),
                  -(LegDelta(snap, params, c) as real),
                  -(LegDelta(snap, params, b) as real))
  {
    hide NetDeltaWad, Chord, BuyDeltaWad, SellDeltaWad;
    var k := -(Sgn(snap.perp.netQty) * PerUnit(params));
    var m := snap.perp.netQty * PerUnit(params) + UnsettledQuantity(snap.futures.positions) * WAD;
    var buy, sell := BuyDeltaWad(snap, params), SellDeltaWad(snap, params);
    OrderDeltasAreUnsigned(snap, params);
    ReducedDelta(snap, params, a);
    ReducedDelta(snap, params, c);
    ReducedDelta(snap, params, b);
    AffineIntChord(k, m + buy, a, c, b);
    AffineIntChord(k, m - sell, a, c, b);
  }

  lemma OrderDeltasAreUnsigned(snap: AccountSnapshot, params: MMParams)
    requires WellFormed(snap, params)
    ensures BuyDeltaWad(snap, params) >= 0 && SellDeltaWad(snap, params) >= 0
  {
    MulOrder(0, snap.perp.orders.buyDelta + snap.futures.orders.buyDelta, params.WadLift());
    MulOrder(0, snap.perp.orders.sellDelta + snap.futures.orders.sellDelta, params.WadLift());
  }

  lemma StressIsLinear(snap: AccountSnapshot, params: MMParams, price: int, a: int, c: int, b: int)
    requires WellFormed(snap, params) && params.perpQuantityDecimals <= 18 && price >= 0 && a <= c <= b
    requires OneSign(LegBalance(snap, params, a), LegBalance(snap, params, c), LegBalance(snap, params, b))
    ensures Chord((b - c) as real, (c - a) as real,
                  -Line(StressCoefficient(Reduced(snap, a), params, MM), WAD * WAD, price),
                  -Line(StressCoefficient(Reduced(snap, c), params, MM), WAD * WAD, price),
                  -Line(StressCoefficient(Reduced(snap, b), params, MM), WAD * WAD, price))
  {
    hide StressCoefficient, LegDelta, LegBalance, Chord, Line, WellFormed;
    LegDeltaIsLinear(snap, params, a, c, b);
    CoefficientOf(snap, params, MM, a);
    CoefficientOf(snap, params, MM, c);
    CoefficientOf(snap, params, MM, b);
    ShockIsNonnegative(snap, params, MM);
    NegatedCoefficients((b - c) as real, (c - a) as real, LegDelta(snap, params, a), LegDelta(snap, params, c),
                        LegDelta(snap, params, b),
                        params.Shock(MM), WAD * WAD, price);
  }

  lemma ShockIsNonnegative(snap: AccountSnapshot, params: MMParams, requirement: MarginRequirement)
    requires WellFormed(snap, params)
    ensures params.Shock(requirement) >= 0
  {
  }

  lemma NegatedCoefficients(w1: real, w2: real, a: int, c: int, b: int, shock: int, d: int, price: int)
    requires Chord(w1, w2, -(a as real), -(c as real), -(b as real)) && shock >= 0 && d > 0 && price >= 0
    ensures Chord(w1, w2, -Line(a * shock, d, price), -Line(c * shock, d, price), -Line(b * shock, d, price))
  {
    hide Chord, Line;
    assert (-a) as real == -(a as real) && (-c) as real == -(c as real) && (-b) as real == -(b as real);
    CoefficientChord(w1, w2, -a, -c, -b, shock, d, price);
    LineNegates(a, shock, d, price);
    LineNegates(c, shock, d, price);
    LineNegates(b, shock, d, price);
  }

  lemma LineNegates(a: int, shock: int, d: int, price: int)
    requires d > 0
    ensures Line(-a * shock, d, price) == -Line(a * shock, d, price)
  {
    CoefficientLine(a, shock, d, price);
    CoefficientLine(-a, shock, d, price);
    assert (-a) as real == -(a as real);
  }

  lemma TotalSign(snap: AccountSnapshot, params: MMParams, price: int, q: int, k: real, f: real, x: real)
    requires k == (price - snap.perp.entryPrice) as real / params.QtyScale() as real
    requires f == FuturesUnrealizedPnl(snap, price) as real && x == LeftOver(snap, q)
    ensures ScaledTotal(snap, params, price, q) >= 0 ==> -k * x + -f <= 0.0
    ensures ScaledTotal(snap, params, price, q) <= 0 ==> -k * x + -f >= 0.0
  {
    hide FuturesUnrealizedPnl;
    var d, n, s, scale := price - snap.perp.entryPrice, snap.perp.netQty, Sgn(snap.perp.netQty), params.QtyScale();
    var futures := FuturesUnrealizedPnl(snap, price);
    MulSum(n, s * q, d);
    MulAssoc(d, s, q);
    assert ScaledTotal(snap, params, price, q) == d * (n - s * q) + futures * scale;
    TotalOfParts(d, n - s * q, futures, scale, k, f, x);
  }

  lemma TotalOfParts(d: int, left: int, futures: int, scale: int, k: real, f: real, x: real)
    requires scale > 0 && k == d as real / scale as real && f == futures as real && x == left as real
    ensures d * left + futures * scale >= 0 ==> -k * x + -f <= 0.0
    ensures d * left + futures * scale <= 0 ==> -k * x + -f >= 0.0
  {
    var z := d * left + futures * scale;
    ProductAsReal(d, left, futures * scale);
    ProductAsReal(futures, scale, 0);
    assert k * scale as real == d as real;
    assert (k * x + f) * scale as real == z as real by {
      assert (k * x) * scale as real == (k * scale as real) * x;
    }
    SignOfProduct(k * x + f, scale as real);
    assert -k * x == -(k * x);
  }

  lemma SignOfProduct(t: real, w: real)
    requires w > 0.0
    ensures t * w >= 0.0 ==> t >= 0.0
    ensures t * w <= 0.0 ==> t <= 0.0
  {
  }

  /** Where the netted PnL keeps its sign, the clamped loss is linear. */
  lemma LossIsLinear(snap: AccountSnapshot, params: MMParams, price: int, a: int, c: int, b: int)
    requires a <= c <= b
    requires OneSign(ScaledTotal(snap, params, price, a), ScaledTotal(snap, params, price, c),
                     ScaledTotal(snap, params, price, b))
    ensures Chord((b - c) as real, (c - a) as real,
                  -ExactUnrealizedLoss(Reduced(snap, a), params, price, MM),
                  -ExactUnrealizedLoss(Reduced(snap, c), params, price, MM),
                  -ExactUnrealizedLoss(Reduced(snap, b), params, price, MM))
  {
    hide LeftOver, ExactUnrealizedLoss, ScaledTotal, FuturesUnrealizedPnl;
    var w1, w2 := (b - c) as real, (c - a) as real;
    var k := (price - snap.perp.entryPrice) as real / params.QtyScale() as real;
    var f := FuturesUnrealizedPnl(snap, price) as real;
    var xa, xc, xb := LeftOver(snap, a), LeftOver(snap, c), LeftOver(snap, b);
    TotalSign(snap, params, price, a, k, f, xa);
    TotalSign(snap, params, price, c, k, f, xc);
    TotalSign(snap, params, price, b, k, f, xb);
    NegatedTotal(snap, params, price, MM, a, k, f, xa);
    NegatedTotal(snap, params, price, MM, c, k, f, xc);
    NegatedTotal(snap, params, price, MM, b, k, f, xb);
    LeftOverMiddle(snap, a, c, b);
    AffineChord(w1, w2, k, f, xa, xc, xb);
    ClampOfOneSign(w1, w2, k, f, xa, xc, xb);
  }

  lemma ClampOfOneSign(w1: real, w2: real, k: real, f: real, xa: real, xc: real, xb: real)
    requires Chord(w1, w2, k * xa + f, k * xc + f, k * xb + f)
    requires || (-k * xa + -f <= 0.0 && -k * xc + -f <= 0.0 && -k * xb + -f <= 0.0)
             || (-k * xa + -f >= 0.0 && -k * xc + -f >= 0.0 && -k * xb + -f >= 0.0)
    ensures Chord(w1, w2, -(Pos(-k * xa + -f) + 0.0), -(Pos(-k * xc + -f) + 0.0), -(Pos(-k * xb + -f) + 0.0))
  {
    assert -k * xa == -(k * xa) && -k * xc == -(k * xc) && -k * xb == -(k * xb);
    ChordConstant(w1, w2, 0.0);
  }

  lemma ShortfallIsLinear(snap: AccountSnapshot, params: MMParams, price: int, a: int, c: int, b: int)
    requires WellFormed(snap, params) && params.perpQuantityDecimals <= 18 && price >= 0 && a <= c <= b
    requires OneSign(LegBalance(snap, params, a), LegBalance(snap, params, c), LegBalance(snap, params, b))
    requires OneSign(ScaledTotal(snap, params, price, a), ScaledTotal(snap, params, price, c),
                     ScaledTotal(snap, params, price, b))
    ensures Chord((b - c) as real, (c - a) as real,
                  -ExactShortfall(snap, params, price, MM, a), -ExactShortfall(snap, params, price, MM, c),
                    -ExactShortfall(snap, params, price, MM, b))
  {
    hide StressCoefficient, ExactUnrealizedLoss, Line, Reduced, LegBalance, ScaledTotal;
    var w1, w2 := (b - c) as real, (c - a) as real;
    StressIsLinear(snap, params, price, a, c, b);
    LossIsLinear(snap, params, price, a, c, b);
    LineChord((price - snap.perp.entryPrice) * Sgn(snap.perp.netQty), SIM_QTY_SCALE, a, c, b);
    var sa, sc, sb := -Line(StressCoefficient(Reduced(snap, a), params, MM), WAD * WAD, price),
                      -Line(StressCoefficient(Reduced(snap, c), params, MM), WAD * WAD, price),
                      -Line(StressCoefficient(Reduced(snap, b), params, MM), WAD * WAD, price);
    var ua, uc, ub := -ExactUnrealizedLoss(Reduced(snap, a), params, price, MM),
                      -ExactUnrealizedLoss(Reduced(snap, c), params, price, MM),
                      -ExactUnrealizedLoss(Reduced(snap, b), params, price, MM);
    ChordAdd(w1, w2, sa, sc, sb, ua, uc, ub);
    ChordAdd(w1, w2, sa + ua, sc + uc, sb + ub, ExactRealized(snap, price, a), ExactRealized(snap, price, c),
             ExactRealized(snap, price, b));
  }

  // ── The account has both shapes ──────────────────────────────────────────

  /** A linear surplus below zero at both ends is below zero, up to rounding, in between. */
  lemma UnhealthyBetween(snap: AccountSnapshot, params: MMParams, price: int, fixed: int, a: int, c: int, b: int)
    requires WellFormed(snap, params) && params.perpQuantityDecimals <= 18 && price >= 0
    requires 0 <= a < c < b <= Abs(snap.perp.netQty)
    requires OneSign(LegBalance(snap, params, a), LegBalance(snap, params, c), LegBalance(snap, params, b))
    requires OneSign(ScaledTotal(snap, params, price, a), ScaledTotal(snap, params, price, c),
                     ScaledTotal(snap, params, price, b))
    requires fixed + Moving(snap, params, price, MM, a) < 0 && fixed + Moving(snap, params, price, MM, b) < 0
    ensures fixed + Moving(snap, params, price, MM, c) < CLOSE_SLACK
  {
    ShortfallIsLinear(snap, params, price, a, c, b);
    hide Moving, ExactShortfall, RoundingFloor, WellFormed, LegBalance, ScaledTotal, Chord;
    MovingRounding(snap, params, price, MM, a);
    MovingRounding(snap, params, price, MM, c);
    MovingRounding(snap, params, price, MM, b);
    ChordAtMost((b - c) as real, (c - a) as real,
                -ExactShortfall(snap, params, price, MM, a), -ExactShortfall(snap, params, price, MM, c),
                  -ExactShortfall(snap, params, price, MM, b),
                -(fixed as real + RoundingFloor(snap, price) as real + 1.0));
  }

  /** The account a close is sized for: its orders and fee as the venues report them. */
  ghost predicate Sizable(snap: AccountSnapshot, params: MMParams, price: int, fee: int) {
    && WellFormed(snap, params) && params.perpQuantityDecimals <= 18 && EvenOrders(snap, params)
    && price >= 0 && fee >= 0 && snap.perp.netQty != 0
  }

  lemma UnhealthyCloseBetween(snap: AccountSnapshot, params: MMParams, price: int, fee: int, x: int, k: int, y: int)
    requires Sizable(snap, params, price, fee) && 0 <= x < k < y <= Abs(snap.perp.netQty)
    requires OneSign(LegBalance(snap, params, x), LegBalance(snap, params, k), LegBalance(snap, params, y))
    requires OneSign(ScaledTotal(snap, params, price, x), ScaledTotal(snap, params, price, k),
                     ScaledTotal(snap, params, price, y))
    requires var mmS := MmAfter(snap, params, price, fee); mmS(x) < 0 && mmS(y) < 0
    ensures MmAfter(snap, params, price, fee)(k) < CLOSE_SLACK
  {
    hide LegBalance, ScaledTotal, Moving, Fixed, SimulatePerpClose, Surplus, OneSign, EvenOrders;
    NothingClosed(snap, params, price, MM, fee);
    if x > 0 { SurplusSplits(snap, params, price, MM, fee, x); }
    SurplusSplits(snap, params, price, MM, fee, k);
    SurplusSplits(snap, params, price, MM, fee, y);
    UnhealthyBetween(snap, params, price, Fixed(snap, params, price, fee), x, k, y);
  }

  lemma UnhealthyBetweenKinks(snap: AccountSnapshot, params: MMParams, price: int, fee: int, bounds: seq<int>, i: nat)
    requires Sizable(snap, params, price, fee) && PerUnit(params) > 0
    requires AreKinks(snap, params, price, bounds) && i + 1 < |bounds|
    ensures StaysUnhealthy(MmAfter(snap, params, price, fee), bounds[i], bounds[i + 1])
  {
    hide LegBalance, ScaledTotal, OneSign, EvenOrders, Interior, CloseRoots, SimulatePerpClose, Surplus, WellFormed;
    var mmS := MmAfter(snap, params, price, fee);
    NotInside(bounds, Abs(snap.perp.netQty), 0, i);
    forall x, k, y | bounds[i] <= x <= k <= y <= bounds[i + 1] && 1 <= k && mmS(x) < 0 && mmS(y) < 0
      ensures mmS(k) < CLOSE_SLACK {
      if x < k < y {
        LegBalanceKeepsSign(snap, params, price, bounds, i, x, k, y);
        TotalKeepsSign(snap, params, price, bounds, i, x, k, y);
        UnhealthyCloseBetween(snap, params, price, fee, x, k, y);
      }
    }
  }

  lemma OverIMBetween(snap: AccountSnapshot, params: MMParams, price: int, fee: int)
    requires Sizable(snap, params, price, fee)
    ensures StaysOverIM(ImAfter(snap, params, price, fee), Abs(snap.perp.netQty))
  {
    hide Surplus, SimulatePerpClose, EvenOrders;
    var imS := ImAfter(snap, params, price, fee);
    forall x, k, y | 1 <= x <= k <= y <= Abs(snap.perp.netQty) && imS(x) > 0 && imS(y) > 0
      ensures imS(k) > -CLOSE_SLACK {
      BetweenCloses(snap, params, price, IM, fee, x, k, y, 1);
    }
  }

  lemma ShapedByKinks(snap: AccountSnapshot, params: MMParams, price: int, fee: int, bounds: seq<int>)
    requires Sizable(snap, params, price, fee) && PerUnit(params) > 0 && AreKinks(snap, params, price, bounds)
    requires MmSurplus(snap, params, price) < 0
    ensures ShapedBetweenKinks(MmAfter(snap, params, price, fee), ImAfter(snap, params, price, fee), bounds,
                               Abs(snap.perp.netQty))
  {
    hide Surplus, Sizable, StaysUnhealthy, StaysOverIM;
    var mmS := MmAfter(snap, params, price, fee);
    assert SimulatePerpClose(snap, 0, price, fee) == snap;
    OverIMBetween(snap, params, price, fee);
    forall i, j | 0 <= i < j == i + 1 < |bounds| ensures StaysUnhealthy(mmS, bounds[i], bounds[j]) {
      UnhealthyBetweenKinks(snap, params, price, fee, bounds, i);
    }
  }

  // ── The guarantees ───────────────────────────────────────────────────────

  /** No deeper close than the solver's is in the band by more than rounding. */
  lemma NoDeeperCloseIsInBand(snap: AccountSnapshot, params: MMParams, price: int, fee: int, bounds: seq<int>, q: int,
                              k: int)
    requires Sizable(snap, params, price, fee) && PerUnit(params) > 0 && AreKinks(snap, params, price, bounds)
    requires MmSurplus(snap, params, price) < 0
    requires BufferedClose(MmAfter(snap, params, price, fee), ImAfter(snap, params, price, fee), bounds,
                           Abs(snap.perp.netQty), q)
    requires 1 <= q < k <= Abs(snap.perp.netQty)
    ensures !ClearlyInBand(MmAfter(snap, params, price, fee), ImAfter(snap, params, price, fee), k)
  {
    hide ShapedBetweenKinks, BufferedClose, ClearlyInBand, Sizable;
    ShapedByKinks(snap, params, price, fee, bounds);
    NothingDeeper(MmAfter(snap, params, price, fee), ImAfter(snap, params, price, fee), bounds, Abs(snap.perp.netQty),
                  q, k);
  }

  /** Everything is closed out of band only when no close at all is in the band by more than rounding. */
  lemma FullCloseIsForced(snap: AccountSnapshot, params: MMParams, price: int, fee: int, bounds: seq<int>, k: int)
    requires Sizable(snap, params, price, fee) && PerUnit(params) > 0 && AreKinks(snap, params, price, bounds)
    requires MmSurplus(snap, params, price) < 0
    requires BufferedClose(MmAfter(snap, params, price, fee), ImAfter(snap, params, price, fee), bounds,
                           Abs(snap.perp.netQty), Abs(snap.perp.netQty))
    requires !InBand(MmAfter(snap, params, price, fee), ImAfter(snap, params, price, fee), Abs(snap.perp.netQty))
    requires 1 <= k <= Abs(snap.perp.netQty)
    ensures !ClearlyInBand(MmAfter(snap, params, price, fee), ImAfter(snap, params, price, fee), k)
  {
    hide ShapedBetweenKinks, ClearlyInBand, Sizable, IsOffer, Enclosed, KinksCovered, NoneDeeper, AllBarren, InBand;
    ShapedByKinks(snap, params, price, fee, bounds);
    NothingAtAll(MmAfter(snap, params, price, fee), ImAfter(snap, params, price, fee), bounds, Abs(snap.perp.netQty),
                 k);
  }
}
