/**
 Why a partial perp close is healthy: the surplus after closing q is, up to rounding, a
 concave function of q, so a quantity between two healthy ones falls short by at most
 two units.
 */
module PerpCloseGuarantee {
  import opened Arithmetic
  import opened Margin
  import opened MarginShape
  import opened PerpClose

  /** How far rounding can move the surplus of a close against its neighbours. */
  const CLOSE_SLACK: int := 2

  /** The account with q closed, without the fee and PnL it books. */
  function Reduced(snap: AccountSnapshot, q: int): AccountSnapshot {
    snap.(perp := snap.perp.(netQty := snap.perp.netQty - Sgn(snap.perp.netQty) * q))
  }

  /** The numerator of the PnL realized by closing q. */
  function RealizedNumerator(snap: AccountSnapshot, price: int, q: int): int {
    (price - snap.perp.entryPrice) * (Sgn(snap.perp.netQty) * q)
  }

  /** The part of the surplus that depends on q. */
  ghost function Moving(snap: AccountSnapshot, params: MMParams, price: int, requirement: MarginRequirement,
                        q: int): int {
    TruncDiv(RealizedNumerator(snap, price, q), SIM_QTY_SCALE)
    - WorstLegStressLoss(Reduced(snap, q), params, params.Shock(requirement), price)
    - UnrealizedLoss(Reduced(snap, q), params, price, requirement)
  }

  /** Everything else: balance, fee, fill loss, funding. */
  ghost function Fixed(snap: AccountSnapshot, params: MMParams, price: int, fee: int): int {
    snap.balance - fee - FillLoss(snap, params, price) - snap.perp.fundingOwed
  }

  lemma SignedWithin(snap: AccountSnapshot, q: int)
    requires 0 <= q <= Abs(snap.perp.netQty) != 0
    ensures Sgn(snap.perp.netQty) * q == if snap.perp.netQty > 0 then q else -q
  {
  }

  lemma SurplusSplits(snap: AccountSnapshot, params: MMParams, price: int, requirement: MarginRequirement, fee: int,
                      q: int)
    requires 1 <= q <= Abs(snap.perp.netQty)
    ensures Surplus(SimulatePerpClose(snap, q, price, fee), params, price, requirement)
         == Fixed(snap, params, price, fee) + Moving(snap, params, price, requirement, q)
  {
    hide TruncDiv, VenueFillLoss, StressLoss, NetDeltaWad, FuturesPnl;
    SignedWithin(snap, q);
    var after, reduced := SimulatePerpClose(snap, q, price, fee), Reduced(snap, q);
    assert after.perp == reduced.perp && after.futures == reduced.futures;
    SameTerms(after, reduced, params, price, requirement);
    assert FillLoss(reduced, params, price) == FillLoss(snap, params, price);
  }

  /** Closing nothing costs nothing: the same split, short of the fee. */
  lemma NothingClosed(snap: AccountSnapshot, params: MMParams, price: int, requirement: MarginRequirement, fee: int)
    requires snap.perp.netQty != 0
    ensures Surplus(SimulatePerpClose(snap, 0, price, fee), params, price, requirement)
         == Fixed(snap, params, price, fee) + fee + Moving(snap, params, price, requirement, 0)
  {
    hide VenueFillLoss, StressLoss, NetDeltaWad, FuturesPnl;
    SignedWithin(snap, 0);
    assert Reduced(snap, 0) == snap;
    assert RealizedNumerator(snap, price, 0) == 0;
    assert TruncDiv(0, SIM_QTY_SCALE) == 0;
  }

  /** The requirement's terms do not look at the balance. */
  lemma SameTerms(s: AccountSnapshot, t: AccountSnapshot, params: MMParams, price: int, requirement: MarginRequirement)
    requires s.perp == t.perp && s.futures == t.futures
    ensures WorstLegStressLoss(s, params, params.Shock(requirement), price)
            == WorstLegStressLoss(t, params, params.Shock(requirement), price)
    ensures UnrealizedLoss(s, params, price, requirement) == UnrealizedLoss(t, params, price, requirement)
    ensures FillLoss(s, params, price) == FillLoss(t, params, price)
  {
  }

  // ── The exact counterpart, convex in the closed quantity ─────────────────

  ghost function ExactRealized(snap: AccountSnapshot, price: int, q: int): real {
    Line((price - snap.perp.entryPrice) * Sgn(snap.perp.netQty), SIM_QTY_SCALE, q)
  }

  ghost function ExactShortfall(snap: AccountSnapshot, params: MMParams, price: int, requirement: MarginRequirement,
                                q: int): real {
    Line(StressCoefficient(Reduced(snap, q), params, requirement), WAD * WAD, price)
    + ExactUnrealizedLoss(Reduced(snap, q), params, price, requirement)
    - ExactRealized(snap, price, q)
  }

  lemma AffineChord(w1: real, w2: real, k: real, m: real, a: real, c: real, b: real)
    requires c * (w1 + w2) == a * w1 + b * w2
    ensures Chord(w1, w2, k * a + m, k * c + m, k * b + m)
  {
    assert (k * c + m) * (w1 + w2) == k * (c * (w1 + w2)) + m * (w1 + w2);
    assert (k * a + m) * w1 + (k * b + m) * w2 == k * (a * w1 + b * w2) + m * (w1 + w2);
  }

  /** An affine integer function of q at three points, with its negation. */
  lemma AffineIntChord(k: int, m: int, a: int, c: int, b: int)
    ensures var w1, w2 := (b - c) as real, (c - a) as real;
            && Chord(w1, w2, (k * a + m) as real, (k * c + m) as real, (k * b + m) as real)
            && Chord(w1, w2, -((k * a + m) as real), -((k * c + m) as real), -((k * b + m) as real))
  {
    ProductAsReal(k, a, m);
    ProductAsReal(k, c, m);
    ProductAsReal(k, b, m);
    ChordAffine(a, c, b, k as real, m as real);
    ChordAffine(a, c, b, -(k as real), -(m as real));
  }

  lemma ProductAsReal(k: int, x: int, m: int)
    ensures (k * x + m) as real == k as real * x as real + m as real
    ensures -((k * x + m) as real) == -(k as real) * x as real + -(m as real)
  {
    assert (k * x) as real == k as real * x as real;
  }

  lemma ChordAbs(w1: real, w2: real, a: int, c: int, b: int)
    requires w1 >= 0.0 && w2 >= 0.0
    requires Chord(w1, w2, a as real, c as real, b as real)
    requires Chord(w1, w2, -(a as real), -(c as real), -(b as real))
    ensures Chord(w1, w2, Abs(a) as real, Abs(c) as real, Abs(b) as real)
  {
    ChordPos(w1, w2, a as real, c as real, b as real);
    ChordPos(w1, w2, -(a as real), -(c as real), -(b as real));
    ChordAdd(w1, w2, Pos(a as real), Pos(c as real), Pos(b as real), Pos(-(a as real)), Pos(-(c as real)),
             Pos(-(b as real)));
  }

  lemma ChordMax(w1: real, w2: real, a: int, c: int, b: int, a': int, c': int, b': int)
    requires w1 >= 0.0 && w2 >= 0.0
    requires Chord(w1, w2, a as real, c as real, b as real) && Chord(w1, w2, a' as real, c' as real, b' as real)
    ensures Chord(w1, w2, Max(a, a') as real, Max(c, c') as real, Max(b, b') as real)
  {
    RealOrder(a as real, Max(a, a') as real, w1);
    RealOrder(a' as real, Max(a, a') as real, w1);
    RealOrder(b as real, Max(b, b') as real, w2);
    RealOrder(b' as real, Max(b, b') as real, w2);
  }

  lemma RealOrder(x: real, y: real, w: real)
    requires x <= y && w >= 0.0
    ensures x * w <= y * w
  {
  }

  lemma ChordScale(w1: real, w2: real, k: real, a: real, c: real, b: real)
    requires k >= 0.0 && Chord(w1, w2, a, c, b)
    ensures Chord(w1, w2, k * a, k * c, k * b)
  {
    RealOrder(c * (w1 + w2), a * w1 + b * w2, k);
    assert (k * c) * (w1 + w2) == c * (w1 + w2) * k;
    assert (k * a) * w1 + (k * b) * w2 == (a * w1 + b * w2) * k;
  }

  /** Net delta is exactly affine in the closed quantity. */
  lemma ReducedDelta(snap: AccountSnapshot, params: MMParams, q: int)
    requires params.perpQuantityDecimals <= 18
    ensures NetDeltaWad(Reduced(snap, q), params)
         == -(Sgn(snap.perp.netQty) * PerUnit(params)) * q +
           (snap.perp.netQty * PerUnit(params) + UnsettledQuantity(snap.futures.positions) * WAD)
  {
    PerUnitIsExact(params);
    var u, scale, s, n := PerUnit(params), params.QtyScale(), Sgn(snap.perp.netQty), snap.perp.netQty;
    MulAssoc(n - s * q, u, scale);
    ExactDiv((n - s * q) * u, scale);
    MulSum(n, s * q, u);
    MulSwap(s, q, u);
    assert -(s * u) * q == -(s * u * q);
  }

  /** The worse leg's delta after closing q. */
  function LegDelta(snap: AccountSnapshot, params: MMParams, q: int): int {
    var netDelta := NetDeltaWad(Reduced(snap, q), params);
    Max(Abs(netDelta + BuyDeltaWad(snap, params)), Abs(netDelta - SellDeltaWad(snap, params)))
  }

  lemma CoefficientOf(snap: AccountSnapshot, params: MMParams, requirement: MarginRequirement, q: int)
    ensures StressCoefficient(Reduced(snap, q), params, requirement)
            == LegDelta(snap, params, q) * params.Shock(requirement)
  {
    hide NetDeltaWad;
  }

  lemma LegDeltaChord(snap: AccountSnapshot, params: MMParams, a: int, c: int, b: int)
    requires params.perpQuantityDecimals <= 18 && a <= c <= b
    ensures Chord((b - c) as real, (c - a) as real, LegDelta(snap, params, a) as real,
                  LegDelta(snap, params, c) as real, LegDelta(snap, params, b) as real)
  {
    hide NetDeltaWad, Chord, BuyDeltaWad, SellDeltaWad;
    var k := -(Sgn(snap.perp.netQty) * PerUnit(params));
    var m := snap.perp.netQty * PerUnit(params) + UnsettledQuantity(snap.futures.positions) * WAD;
    ReducedDelta(snap, params, a);
    ReducedDelta(snap, params, c);
    ReducedDelta(snap, params, b);
    WorseOfTwoLines(k, m + BuyDeltaWad(snap, params), m - SellDeltaWad(snap, params), a, c, b);
  }

  lemma WorseOfTwoLines(k: int, m: int, n: int, a: int, c: int, b: int)
    requires a <= c <= b
    ensures Chord((b - c) as real, (c - a) as real, Max(Abs(k * a + m), Abs(k * a + n)) as real,
                  Max(Abs(k * c + m), Abs(k * c + n)) as real, Max(Abs(k * b + m), Abs(k * b + n)) as real)
  {
    hide Chord, Max, Abs;
    var w1, w2 := (b - c) as real, (c - a) as real;
    AffineIntChord(k, m, a, c, b);
    AffineIntChord(k, n, a, c, b);
    ChordAbs(w1, w2, k * a + m, k * c + m, k * b + m);
    ChordAbs(w1, w2, k * a + n, k * c + n, k * b + n);
    ChordMax(w1, w2, Abs(k * a + m), Abs(k * c + m), Abs(k * b + m), Abs(k * a + n), Abs(k * c + n), Abs(k * b + n));
  }

  lemma StressChord(snap: AccountSnapshot, params: MMParams, price: int, requirement: MarginRequirement, a: int,
                    c: int, b: int)
    requires WellFormed(snap, params) && params.perpQuantityDecimals <= 18 && price >= 0 && a <= c <= b
    ensures Chord((b - c) as real, (c - a) as real,
                  Line(StressCoefficient(Reduced(snap, a), params, requirement), WAD * WAD, price),
                  Line(StressCoefficient(Reduced(snap, c), params, requirement), WAD * WAD, price),
                  Line(StressCoefficient(Reduced(snap, b), params, requirement), WAD * WAD, price))
  {
    hide StressCoefficient, LegDelta, Chord, Line;
    CoefficientOf(snap, params, requirement, a);
    CoefficientOf(snap, params, requirement, c);
    CoefficientOf(snap, params, requirement, b);
    LegDeltaChord(snap, params, a, c, b);
    CoefficientChord((b - c) as real, (c - a) as real, LegDelta(snap, params, a), LegDelta(snap, params, c),
                     LegDelta(snap, params, b),
                     params.Shock(requirement), WAD * WAD, price);
  }

  lemma CoefficientChord(w1: real, w2: real, a: int, c: int, b: int, shock: int, d: int, price: int)
    requires Chord(w1, w2, a as real, c as real, b as real) && shock >= 0 && d > 0 && price >= 0
    ensures Chord(w1, w2, Line(a * shock, d, price), Line(c * shock, d, price), Line(b * shock, d, price))
  {
    var k := (shock as real / d as real) * price as real;
    CoefficientLine(a, shock, d, price);
    CoefficientLine(c, shock, d, price);
    CoefficientLine(b, shock, d, price);
    assert shock as real / d as real >= 0.0;
    RealOrder(0.0, shock as real / d as real, price as real);
    ChordScale(w1, w2, k, a as real, c as real, b as real);
  }

  lemma CoefficientLine(a: int, shock: int, d: int, price: int)
    requires d > 0
    ensures Line(a * shock, d, price) == ((shock as real / d as real) * price as real) * a as real
  {
    assert (a * shock) as real == a as real * shock as real;
    var r := shock as real / d as real;
    QuotientOfProduct(a as real, shock as real, d as real);
    assert (a as real * r) * price as real == (r * price as real) * a as real;
  }

  lemma QuotientOfProduct(x: real, y: real, d: real)
    requires d > 0.0
    ensures (x * y) / d == x * (y / d)
  {
  }

  /** The perp PnL left after closing q, a multiple of the quantity left. */
  lemma ReducedPnl(snap: AccountSnapshot, params: MMParams, price: int, q: int)
    ensures ExactPerpPnl(Reduced(snap, q), params, price)
         == ((price - snap.perp.entryPrice) as real / params.QtyScale() as real) * (snap.perp.netQty
                                                                                    - Sgn(snap.perp.netQty) * q) as real
  {
    var n, d, e := (snap.perp.netQty - Sgn(snap.perp.netQty) * q) as real, params.QtyScale() as real,
      snap.perp.entryPrice;
    var r := n / d;
    assert r * price as real - r * e as real == r * (price - e) as real;
    QuotientOfProduct((price - e) as real, n, d);
    QuotientOfProduct(n, (price - e) as real, d);
    assert (price - e) as real * n == n * (price - e) as real;
  }

  lemma UnrealizedCloseChord(snap: AccountSnapshot, params: MMParams, price: int, requirement: MarginRequirement,
                             a: int, c: int, b: int)
    requires a <= c <= b
    ensures Chord((b - c) as real, (c - a) as real,
                  ExactUnrealizedLoss(Reduced(snap, a), params, price, requirement),
                  ExactUnrealizedLoss(Reduced(snap, c), params, price, requirement),
                  ExactUnrealizedLoss(Reduced(snap, b), params, price, requirement))
  {
    hide LeftOver, ExactUnrealizedLoss, Chord, Pos, FuturesUnrealizedPnl;
    var w1, w2 := (b - c) as real, (c - a) as real;
    var k := (price - snap.perp.entryPrice) as real / params.QtyScale() as real;
    var f := FuturesUnrealizedPnl(snap, price) as real;
    var inside := if requirement == MM then -f else 0.0;
    var outside := if requirement == MM then 0.0 else Pos(-f);
    var xa, xc, xb := LeftOver(snap, a), LeftOver(snap, c), LeftOver(snap, b);
    NegatedTotal(snap, params, price, requirement, a, k, f, xa);
    NegatedTotal(snap, params, price, requirement, c, k, f, xc);
    NegatedTotal(snap, params, price, requirement, b, k, f, xb);
    LeftOverMiddle(snap, a, c, b);
    AffineChord(w1, w2, -k, inside, xa, xc, xb);
    var ta, tc, tb := -k * xa + inside, -k * xc + inside, -k * xb + inside;
    ChordPos(w1, w2, ta, tc, tb);
    ChordConstant(w1, w2, outside);
    ChordAdd(w1, w2, Pos(ta), Pos(tc), Pos(tb), outside, outside, outside);
    assert ExactUnrealizedLoss(Reduced(snap, a), params, price, requirement) == Pos(ta) + outside;
    assert ExactUnrealizedLoss(Reduced(snap, c), params, price, requirement) == Pos(tc) + outside;
    assert ExactUnrealizedLoss(Reduced(snap, b), params, price, requirement) == Pos(tb) + outside;
  }

  ghost function LeftOver(snap: AccountSnapshot, q: int): real {
    (snap.perp.netQty - Sgn(snap.perp.netQty) * q) as real
  }

  lemma LeftOverMiddle(snap: AccountSnapshot, a: int, c: int, b: int)
    ensures var w1, w2 := (b - c) as real, (c - a) as real;
            LeftOver(snap, c) * (w1 + w2) == LeftOver(snap, a) * w1 + LeftOver(snap, b) * w2
  {
    var n, s := snap.perp.netQty, Sgn(snap.perp.netQty);
    ProductAsReal(-s, a, n);
    ProductAsReal(-s, c, n);
    ProductAsReal(-s, b, n);
    MiddleOf(-(s as real), n as real, a, c, b);
  }

  /** The loss left after closing q: under MM the futures PnL sits inside the clamp, under IM outside. */
  lemma NegatedTotal(snap: AccountSnapshot, params: MMParams, price: int, requirement: MarginRequirement, q: int,
                     k: real,
                     f: real, x: real)
    requires k == (price - snap.perp.entryPrice) as real / params.QtyScale() as real
    requires f == FuturesUnrealizedPnl(snap, price) as real && x == LeftOver(snap, q)
    ensures ExactUnrealizedLoss(Reduced(snap, q), params, price, requirement)
         == if requirement == MM then Pos(-k * x + -f) + 0.0 else Pos(-k * x + 0.0) + Pos(-f)
  {
    hide ExactPerpPnl, FuturesPnl;
    ReducedPnl(snap, params, price, q);
    assert -k * x == -(k * x);
  }

  lemma MiddleOf(k: real, m: real, a: int, c: int, b: int)
    ensures var w1, w2 := (b - c) as real, (c - a) as real;
            (k * c as real + m) * (w1 + w2) == (k * a as real + m) * w1 + (k * b as real + m) * w2
  {
  }

  lemma ShortfallIsConvex(snap: AccountSnapshot, params: MMParams, price: int, requirement: MarginRequirement, a: int,
                          c: int, b: int)
    requires WellFormed(snap, params) && params.perpQuantityDecimals <= 18 && price >= 0 && a <= c <= b
    ensures Chord((b - c) as real, (c - a) as real,
                  ExactShortfall(snap, params, price, requirement, a),
                    ExactShortfall(snap, params, price, requirement, c),
                    ExactShortfall(snap, params, price, requirement, b))
  {
    hide StressCoefficient, ExactUnrealizedLoss, Line, Reduced;
    var w1, w2 := (b - c) as real, (c - a) as real;
    StressChord(snap, params, price, requirement, a, c, b);
    UnrealizedCloseChord(snap, params, price, requirement, a, c, b);
    LineChord((price - snap.perp.entryPrice) * Sgn(snap.perp.netQty), SIM_QTY_SCALE, a, c, b);
    var sa, sc, sb := Line(StressCoefficient(Reduced(snap, a), params, requirement), WAD * WAD, price),
                      Line(StressCoefficient(Reduced(snap, c), params, requirement), WAD * WAD, price),
                      Line(StressCoefficient(Reduced(snap, b), params, requirement), WAD * WAD, price);
    var ua, uc, ub := ExactUnrealizedLoss(Reduced(snap, a), params, price, requirement),
                      ExactUnrealizedLoss(Reduced(snap, c), params, price, requirement),
                      ExactUnrealizedLoss(Reduced(snap, b), params, price, requirement);
    ChordAdd(w1, w2, sa, sc, sb, ua, uc, ub);
    ChordAdd(w1, w2, sa + ua, sc + uc, sb + ub, -ExactRealized(snap, price, a), -ExactRealized(snap, price, c),
             -ExactRealized(snap, price, b));
  }

  // ── Rounding ─────────────────────────────────────────────────────────────

  /** Every truncation of the close errs on one known side, set by the sign of the perp's PnL. */
  ghost function RoundingFloor(snap: AccountSnapshot, price: int): int {
    if (price - snap.perp.entryPrice) * Sgn(snap.perp.netQty) >= 0 then -2 else 0
  }

  lemma MovingRounding(snap: AccountSnapshot, params: MMParams, price: int, requirement: MarginRequirement, q: int)
    requires WellFormed(snap, params) && price >= 0 && 0 <= q <= Abs(snap.perp.netQty) != 0
    ensures var lo := RoundingFloor(snap, price) as real;
            var err := Moving(snap, params, price, requirement, q) as real +
              ExactShortfall(snap, params, price, requirement, q);
            lo - 0.0 <= err < lo + 3.0 && (lo < 0.0 ==> lo < err)
  {
    hide WorstLegStressLoss, StressCoefficient, Line, FuturesPnl, TruncDiv, PerpUnrealizedPnl, ExactPerpPnl,
      ExactRealized;
    SignedWithin(snap, q);
    StressRounding(Reduced(snap, q), params, price, requirement);
    RealizedRounding(snap, price, q);
    LeftRounding(snap, params, price, q);
  }

  lemma RealizedRounding(snap: AccountSnapshot, price: int, q: int)
    requires q >= 0
    ensures var d := (price - snap.perp.entryPrice) * Sgn(snap.perp.netQty);
            var r, exact := TruncDiv(RealizedNumerator(snap, price, q), SIM_QTY_SCALE) as real,
              ExactRealized(snap, price, q);
            if d >= 0 then r <= exact < r + 1.0 else r - 1.0 < exact <= r
  {
    var d, s := price - snap.perp.entryPrice, Sgn(snap.perp.netQty);
    MulAssoc(d, s, q);
    TruncBounds(RealizedNumerator(snap, price, q), SIM_QTY_SCALE);
    LineIsQuotient(d * s, SIM_QTY_SCALE, q);
    assert q * (d * s) == RealizedNumerator(snap, price, q);
    if d * s >= 0 { MulOrder(0, d * s, q); } else { MulOrder(d * s, 0, q); }
  }

  lemma LeftRounding(snap: AccountSnapshot, params: MMParams, price: int, q: int)
    requires 0 <= q <= Abs(snap.perp.netQty) != 0
    ensures var d := (price - snap.perp.entryPrice) * Sgn(snap.perp.netQty);
            var reduced := Reduced(snap, q);
            var pnl, exact := PerpUnrealizedPnl(reduced, params, price) as real, ExactPerpPnl(reduced, params, price);
            if d >= 0 then pnl <= exact < pnl + 1.0 else pnl - 1.0 < exact <= pnl
  {
    var d, s, n := price - snap.perp.entryPrice, Sgn(snap.perp.netQty), snap.perp.netQty;
    var left := Abs(n) - q;
    SignedWithin(snap, q);
    assert n - s * q == s * left;
    MulAssoc(d, s, left);
    if d * s >= 0 { MulOrder(0, d * s, left); } else { MulOrder(d * s, 0, left); }
    PnlBounds(Reduced(snap, q), params, price);
  }

  lemma PnlBounds(snap: AccountSnapshot, params: MMParams, price: int)
    ensures var x := (price - snap.perp.entryPrice) * snap.perp.netQty;
            var pnl, exact := PerpUnrealizedPnl(snap, params, price) as real, ExactPerpPnl(snap, params, price);
            (x >= 0 ==> pnl <= exact < pnl + 1.0) && (x <= 0 ==> pnl - 1.0 < exact <= pnl)
  {
    var n, d, e := snap.perp.netQty, params.QtyScale(), snap.perp.entryPrice;
    TruncBounds((price - e) * n, d);
    LineIsQuotient(n, d, price);
    LineIsQuotient(n, d, e);
    MulSum(price, e, n);
    QuotientOfDifference((price * n) as real, (e * n) as real, d as real);
  }

  lemma QuotientOfDifference(x: real, y: real, d: real)
    requires d > 0.0
    ensures (x - y) / d == x / d - y / d
  {
  }

  // ── The guarantee ────────────────────────────────────────────────────────

  /** For either requirement: between two closes over a level, the surplus is short of it by at most two units. */
  lemma BetweenCloses(snap: AccountSnapshot, params: MMParams, price: int, requirement: MarginRequirement, fee: int,
                      a: int,
                      q: int, b: int, level: int)
    requires WellFormed(snap, params) && params.perpQuantityDecimals <= 18 && price >= 0
    requires 1 <= a <= q <= b <= Abs(snap.perp.netQty)
    requires Surplus(SimulatePerpClose(snap, a, price, fee), params, price, requirement) >= level
    requires Surplus(SimulatePerpClose(snap, b, price, fee), params, price, requirement) >= level
    ensures Surplus(SimulatePerpClose(snap, q, price, fee), params, price, requirement) >= level - CLOSE_SLACK
  {
    hide Surplus, Moving, ExactShortfall, Fixed, RoundingFloor, WellFormed, SimulatePerpClose;
    SurplusSplits(snap, params, price, requirement, fee, a);
    SurplusSplits(snap, params, price, requirement, fee, q);
    SurplusSplits(snap, params, price, requirement, fee, b);
    if a < b {
      MovingRounding(snap, params, price, requirement, a);
      MovingRounding(snap, params, price, requirement, q);
      MovingRounding(snap, params, price, requirement, b);
      ShortfallIsConvex(snap, params, price, requirement, a, q, b);
      ChordBound((b - q) as real, (q - a) as real,
                 ExactShortfall(snap, params, price, requirement, a),
                   ExactShortfall(snap, params, price, requirement, q),
                 ExactShortfall(snap, params, price, requirement, b),
                 (Fixed(snap, params, price, fee) - level) as real + RoundingFloor(snap, price) as real + 3.0);
    }
  }

  /** A close between two healthy ones is healthy up to two units of rounding. */
  lemma BetweenHealthyCloses(snap: AccountSnapshot, params: MMParams, price: int, fee: int, a: int, q: int, b: int)
    requires WellFormed(snap, params) && params.perpQuantityDecimals <= 18 && price >= 0
    requires 1 <= a <= q <= b <= Abs(snap.perp.netQty)
    requires MmSurplus(SimulatePerpClose(snap, a, price, fee), params, price) >= 0
    requires MmSurplus(SimulatePerpClose(snap, b, price, fee), params, price) >= 0
    ensures MmSurplus(SimulatePerpClose(snap, q, price, fee), params, price) >= -CLOSE_SLACK
  {
    hide Surplus, SimulatePerpClose, WellFormed;
    BetweenCloses(snap, params, price, MM, fee, a, q, b, 0);
  }

  /**
   The solver's promise for an underwater account with an IM buffer: a partial close
   leaves the account at or under IM exactly, and at or over MM up to two units.
   */
  lemma PartialCloseLandsInBand(snap: AccountSnapshot, params: MMParams, price: int, fee: int, bounds: seq<int>, q: int)
    requires WellFormed(snap, params) && params.perpQuantityDecimals <= 18 && price >= 0
    requires BufferedClose(MmAfter(snap, params, price, fee), ImAfter(snap, params, price, fee), bounds,
                           Abs(snap.perp.netQty), q)
    requires q < Abs(snap.perp.netQty)
    ensures ImSurplus(SimulatePerpClose(snap, q, price, fee), params, price) <= 0
    ensures MmSurplus(SimulatePerpClose(snap, q, price, fee), params, price) >= -CLOSE_SLACK
  {
    var absNet := Abs(snap.perp.netQty);
    var mmS := MmAfter(snap, params, price, fee);
    hide SimulatePerpClose, MmSurplus, ImSurplus, WellFormed, IsOffer, AllBarren, NoneDeeper, KinksCovered;
    var a, b :| 1 <= a <= q <= b <= absNet && mmS(a) >= 0 && mmS(b) >= 0;
    BetweenHealthyCloses(snap, params, price, fee, a, q, b);
  }
}
