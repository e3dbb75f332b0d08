/**
 Sizing a partial perp liquidation (simulatePerpClose, perpCloseKinks, nonNegativeRange,
 solvePerpCloseToTarget in portfolio-margin/src/solve.ts): what the solver returns for
 any surplus functions, and why the result is healthy up to rounding.
 */
module PerpClose {
  import opened Arithmetic
  import opened Margin
  import opened Optional
  import opened Thresholds

  /** The venue's quantity scale, fixed in the simulation. */
  const SIM_QTY_SCALE: int := 1_000_000

  function Sgn(x: int): int {
    if x > 0 then 1 else -1
  }

  function SimulatePerpClose(snap: AccountSnapshot, closeQty: int, currentPrice: int,
                             liquidationFee: int): AccountSnapshot {
    var netQty := snap.perp.netQty;
    var absNet := Abs(netQty);
    var closeAbs := if closeQty < absNet then closeQty else absNet;
    if closeAbs <= 0 then snap
    else
      var signedClose := if netQty > 0 then closeAbs else -closeAbs;
      var pnl := TruncDiv((currentPrice - snap.perp.entryPrice) * signedClose, SIM_QTY_SCALE);
      snap.(balance := snap.balance + pnl - liquidationFee, perp := snap.perp.(netQty := netQty - signedClose))
  }

  // ── A close conserves equity ─────────────────────────────────────────────

  function Equity(snap: AccountSnapshot, params: MMParams, price: int): int {
    snap.balance + PerpUnrealizedPnl(snap, params, price) + FuturesUnrealizedPnl(snap, price)
  }

  /** Splitting a quotient into two parts of the same sign moves it by at most one unit, toward zero. */
  lemma TruncSplit(x: int, y: int, d: int)
    requires d > 0
    requires (x >= 0 && y >= 0) || (x <= 0 && y <= 0)
    ensures x >= 0 && y >= 0 ==> -1 <= TruncDiv(x, d) + TruncDiv(y, d) - TruncDiv(x + y, d) <= 0
    ensures x <= 0 && y <= 0 ==> 0 <= TruncDiv(x, d) + TruncDiv(y, d) - TruncDiv(x + y, d) <= 1
  {
    var a, b := Abs(x), Abs(y);
    DivMod(a, d);
    DivMod(b, d);
    DivMod(a + b, d);
    MulSum(a / d, b / d, d);
    MulSum(a / d + b / d, 1, d);
    LeastAbove((a + b) / d, a / d + b / d, d);
    LeastAbove(a / d + b / d + 1, (a + b) / d, d);
  }

  /** The PnL of a slice at the simulation's scale, less what the requirement's scale makes of it. */
  function ScaleGap(params: MMParams, numerator: int): int {
    TruncDiv(numerator, SIM_QTY_SCALE) - TruncDiv(numerator, params.QtyScale())
  }

  /** The slice of the position's PnL that a close realizes, before scaling. */
  function ClosedNumerator(snap: AccountSnapshot, closeQty: int, currentPrice: int): int {
    var closeAbs := if closeQty < Abs(snap.perp.netQty) then closeQty else Abs(snap.perp.netQty);
    (currentPrice - snap.perp.entryPrice) * (if snap.perp.netQty > 0 then closeAbs else -closeAbs)
  }

  /**
   A perp close costs the account the fee and the gap between the simulation's fixed
   quantity scale and the account's, and rounding moves its equity by at most one unit. At
   six decimals the gap is nothing (`SixDecimalsExactly`).
   */
  lemma PerpCloseConservesEquity(snap: AccountSnapshot, params: MMParams, closeQty: int, currentPrice: int,
                                 liquidationFee: int)
    requires closeQty > 0 && snap.perp.netQty != 0
    ensures var change := Equity(SimulatePerpClose(snap, closeQty, currentPrice, liquidationFee), params,
                                 currentPrice) - Equity(snap, params, currentPrice);
            var gap := ScaleGap(params, ClosedNumerator(snap, closeQty, currentPrice));
            -liquidationFee + gap - 1 <= change <= -liquidationFee + gap + 1
  {
    var n, d := snap.perp.netQty, currentPrice - snap.perp.entryPrice;
    var absNet := Abs(n);
    var closeAbs := if closeQty < absNet then closeQty else absNet;
    var c := if n > 0 then closeAbs else -closeAbs;
    assert d * (n - c) == d * n - d * c by { MulSum(n, c, d); }
    SameSide(d, c, n - c);
    TruncSplit(d * c, d * (n - c), params.QtyScale());
    assert n - c == 0 ==> d * (n - c) == 0;
  }

  /** This close costs the fee and moves equity by at most one unit of rounding. */
  ghost predicate CloseConserves(snap: AccountSnapshot, params: MMParams, closeQty: int, currentPrice: int,
                                 liquidationFee: int) {
    var change := Equity(SimulatePerpClose(snap, closeQty, currentPrice, liquidationFee), params, currentPrice)
                  - Equity(snap, params, currentPrice);
    -liquidationFee - 1 <= change <= -liquidationFee + 1
  }

  /**
   Every close of every perp position, at every price and fee, costs the fee and at most a
   unit of rounding if and only if the account's quantities have six decimals, the scale
   fixed in the simulation.
   */
  lemma SixDecimalsExactly(params: MMParams)
    ensures (forall snap: AccountSnapshot, closeQty: int, currentPrice: int, liquidationFee: int ::
               closeQty > 0 && snap.perp.netQty != 0 ==>
                 CloseConserves(snap, params, closeQty, currentPrice, liquidationFee))
       <==> params.perpQuantityDecimals == 6
  {
    hide Equity, SimulatePerpClose, CloseConserves, ClosedNumerator, ScaleGap;
    if params.perpQuantityDecimals == 6 {
      forall snap: AccountSnapshot, closeQty: int, currentPrice: int, liquidationFee: int | closeQty > 0 &&
        snap.perp.netQty != 0
        ensures CloseConserves(snap, params, closeQty, currentPrice, liquidationFee)
      {
        ConservesAtSixDecimals(snap, params, closeQty, currentPrice, liquidationFee);
      }
    } else {
      LeaksOffSixDecimals(params);
    }
  }

  lemma ConservesAtSixDecimals(snap: AccountSnapshot, params: MMParams, closeQty: int, currentPrice: int,
                               liquidationFee: int)
    requires closeQty > 0 && snap.perp.netQty != 0 && params.perpQuantityDecimals == 6
    ensures CloseConserves(snap, params, closeQty, currentPrice, liquidationFee)
  {
    assert Pow10(6) == SIM_QTY_SCALE;
    hide Equity, SimulatePerpClose, ClosedNumerator, TruncDiv;
    PerpCloseConservesEquity(snap, params, closeQty, currentPrice, liquidationFee);
  }

  /** A whole number of units at either scale, bought for nothing. */
  ghost function BigPosition(params: MMParams): AccountSnapshot {
    AccountSnapshot("a", 0, PerpPosition(params.QtyScale() * SIM_QTY_SCALE, 0, RestingOrders(0, 0, 0, 0), 0),
                    FuturesBook([], RestingOrders(0, 0, 0, 0)))
  }

  /** Closing it in full at 1 books its whole PnL at the wrong scale. */
  lemma LeaksOffSixDecimals(params: MMParams)
    requires params.perpQuantityDecimals != 6
    ensures var snap := BigPosition(params);
            snap.perp.netQty > 0 && !CloseConserves(snap, params, snap.perp.netQty, 1, 0)
  {
    var scale := params.QtyScale();
    var snap := BigPosition(params);
    MulOrder(1, scale, SIM_QTY_SCALE);
    PerpCloseConservesEquity(snap, params, snap.perp.netQty, 1, 0);
    hide Equity, SimulatePerpClose, TruncDiv, Pow10;
    GapOfBigPosition(params);
    ScalesFarApart(params.perpQuantityDecimals);
  }

  lemma GapOfBigPosition(params: MMParams)
    ensures ScaleGap(params, params.QtyScale() * SIM_QTY_SCALE) == params.QtyScale() - SIM_QTY_SCALE
  {
    ExactDiv(params.QtyScale(), SIM_QTY_SCALE);
    ExactDiv(SIM_QTY_SCALE, params.QtyScale());
  }

  lemma {:induction false} ScalesFarApart(n: nat)
    ensures n < 6 ==> Pow10(n) <= SIM_QTY_SCALE / 10
    ensures n > 6 ==> Pow10(n) >= SIM_QTY_SCALE * 10
  {
    assert Pow10(6) == SIM_QTY_SCALE;
    if n > 7 {
      ScalesFarApart(n - 1);
    }
  }

  lemma SameSide(d: int, x: int, y: int)
    requires (x >= 0 && y >= 0) || (x <= 0 && y <= 0)
    ensures (d * x >= 0 && d * y >= 0) || (d * x <= 0 && d * y <= 0)
  {
  }

  // ── Kinks of the requirement in the closed quantity ──────────────────────

  function PerUnit(params: MMParams): int {
    TruncDiv(WAD, params.QtyScale())
  }

  lemma PerUnitIsExact(params: MMParams)
    requires params.perpQuantityDecimals <= 18
    ensures PerUnit(params) > 0 && PerUnit(params) * params.QtyScale() == WAD
  {
    PowersAdd(18 - params.perpQuantityDecimals, params.perpQuantityDecimals);
    Pow18IsWad();
    ExactDiv(Pow10(18 - params.perpQuantityDecimals), params.QtyScale());
  }

  function QtyAtDelta(snap: AccountSnapshot, params: MMParams, target: int): int
    requires PerUnit(params) != 0
  {
    TruncDiv(Sgn(snap.perp.netQty) * (NetDeltaWad(snap, params) - target), PerUnit(params))
  }

  function CloseRoots(snap: AccountSnapshot, params: MMParams, currentPrice: int): seq<int>
    requires PerUnit(params) != 0
  {
    var buy, sell := BuyDeltaWad(snap, params), SellDeltaWad(snap, params);
    var priceDiff := currentPrice - snap.perp.entryPrice;
    var sign := Sgn(snap.perp.netQty);
    [QtyAtDelta(snap, params, -buy), QtyAtDelta(snap, params, sell),
     QtyAtDelta(snap, params, TruncDiv(sell - buy, 2))] +
    (if priceDiff == 0 then []
     else [FloorDiv(priceDiff * snap.perp.netQty + FuturesUnrealizedPnl(snap, currentPrice) * params.QtyScale(),
                    priceDiff * sign)])
  }

  /** Ascending from nothing to the whole position. */
  ghost predicate IsPartition(bounds: seq<int>, absNet: int) {
    StrictlyIncreasing(bounds) && |bounds| >= 2 && bounds[0] == 0 && bounds[|bounds| - 1] == absNet
  }

  ghost predicate Interior(roots: seq<int>, absNet: int, q: int) {
    0 < q < absNet && (q in roots || q - 1 in roots)
  }

  method PerpCloseKinks(snap: AccountSnapshot, params: MMParams, absNet: int, currentPrice: int)
    returns (bounds: seq<int>)
    requires params.perpQuantityDecimals <= 18 && absNet == Abs(snap.perp.netQty) > 0
    ensures IsPartition(bounds, absNet)
    ensures PerUnit(params) != 0
    ensures forall q :: q in bounds <==>
            q == 0 || q == absNet || Interior(CloseRoots(snap, params, currentPrice), absNet, q)
  {
    PerUnitIsExact(params);
    var roots := CloseRoots(snap, params, currentPrice);
    var collected := [0, absNet];
    for i := 0 to |roots|
      invariant forall q :: q in collected <==> q == 0 || q == absNet || Interior(roots[..i], absNet, q)
    {
      assert roots[..i + 1] == roots[..i] + [roots[i]];
      var q := Straddle(roots[i]);
      collected := collected + (if 0 < q[0] < absNet then [q[0]] else []) + (if 0 < q[1] < absNet then [q[1]] else []);
    }
    assert roots[..|roots|] == roots;
    bounds := SortDistinct(collected);
    assert 0 in bounds && absNet in bounds;
    assert bounds[0] in bounds && bounds[|bounds| - 1] in bounds;
  }

  // ── The range on which a function is non-negative ────────────────────────

  /** Both ends are non-negative, and each end that was moved in has a negative neighbour. */
  ghost predicate RangeOf(f: int -> int, lo: int, hi: int, a: int, b: int) {
    && lo <= a <= b <= hi && f(a) >= 0 && f(b) >= 0
    && (if f(lo) >= 0 then a == lo else lo < a && f(a - 1) < 0)
    && (if f(hi) >= 0 then b == hi else b < hi && f(b + 1) < 0)
  }

  method NonNegativeRange(lo: int, hi: int, f: int -> int) returns (range: Option<(int, int)>)
    requires lo <= hi
    ensures range.None? <==> f(lo) < 0 && f(hi) < 0
    ensures range.Some? ==> RangeOf(f, lo, hi, range.value.0, range.value.1)
  {
    var atLo, atHi := f(lo), f(hi);
    if atLo >= 0 && atHi >= 0 { return Some((lo, hi)); }
    if atLo < 0 && atHi < 0 { return None; }
    var a, b := lo, hi;
    if atLo < 0 {
      while b - a > 1
        invariant lo <= a < b <= hi && f(a) < 0 <= f(b)
      {
        var m := TruncDiv(a + b, 2);
        assert a < m < b;
        if f(m) >= 0 { b := m; } else { a := m; }
      }
      return Some((b, hi));
    }
    while b - a > 1
      invariant lo <= a < b <= hi && f(b) < 0 <= f(a)
    {
      var m := TruncDiv(a + b, 2);
      assert a < m < b;
      if f(m) >= 0 { a := m; } else { b := m; }
    }
    return Some((lo, a));
  }

  // ── The solver ───────────────────────────────────────────────────────────

  function MmAfter(snap: AccountSnapshot, params: MMParams, currentPrice: int, liquidationFee: int): int -> int {
    q => MmSurplus(SimulatePerpClose(snap, q, currentPrice, liquidationFee), params, currentPrice)
  }

  function ImAfter(snap: AccountSnapshot, params: MMParams, currentPrice: int, liquidationFee: int): int -> int {
    q => ImSurplus(SimulatePerpClose(snap, q, currentPrice, liquidationFee), params, currentPrice)
  }

  function ImAfterNegated(snap: AccountSnapshot, params: MMParams, currentPrice: int, liquidationFee: int): int -> int {
    q => -ImSurplus(SimulatePerpClose(snap, q, currentPrice, liquidationFee), params, currentPrice)
  }

  ghost predicate InBand(mmS: int -> int, imS: int -> int, q: int) {
    mmS(q) >= 0 && imS(q) <= 0
  }

  /** The interval a..b offers q: the deep end, under IM, of its healthy part. */
  ghost predicate Yields(mmS: int -> int, imS: int -> int, a: int, b: int, q: int) {
    exists lo, hi :: RangeOf(mmS, a, b, lo, hi) && lo <= q <= hi && imS(q) <= 0 &&
      (q == hi || (imS(q + 1) > 0 && imS(hi) > 0))
  }

  /** The interval a..b offers nothing: unhealthy, or healthy only above IM as far as its ends show. */
  ghost predicate Barren(mmS: int -> int, imS: int -> int, a: int, b: int) {
    || (mmS(a) < 0 && mmS(b) < 0)
    || exists lo, hi :: RangeOf(mmS, a, b, lo, hi) && imS(lo) > 0 && imS(hi) > 0
  }

  /** An offer of the interval a..b that is no deeper than q. */
  ghost predicate OffersUpTo(mmS: int -> int, imS: int -> int, a: int, b: int, q: int) {
    exists d :: d <= q && Yields(mmS, imS, a, b, d)
  }

  /** Some interval between neighbouring kinks offers q. */
  ghost predicate IsOffer(mmS: int -> int, imS: int -> int, bounds: seq<int>, q: int) {
    exists i, j :: 0 <= i < j == i + 1 < |bounds| && Yields(mmS, imS, bounds[i], bounds[j], q)
  }

  ghost predicate AllBarren(mmS: int -> int, imS: int -> int, bounds: seq<int>) {
    forall i, j :: 0 <= i < j == i + 1 < |bounds| ==> Barren(mmS, imS, bounds[i], bounds[j])
  }

  ghost predicate NoneDeeper(mmS: int -> int, imS: int -> int, bounds: seq<int>, q: int) {
    forall i, j :: 0 <= i < j == i + 1 < |bounds| ==>
      Barren(mmS, imS, bounds[i], bounds[j]) || OffersUpTo(mmS, imS, bounds[i], bounds[j], q)
  }

  /** Two healthy closes, inside the position, with q between them. */
  ghost predicate Enclosed(mmS: int -> int, absNet: int, q: int) {
    exists a, b :: 1 <= a <= q <= b <= absNet && mmS(a) >= 0 && mmS(b) >= 0
  }

  /** No kink in the band is deeper. */
  ghost predicate KinksCovered(mmS: int -> int, imS: int -> int, bounds: seq<int>, q: int) {
    forall k :: k in bounds && InBand(mmS, imS, k) ==> k <= q
  }

  /**
   With an IM buffer: the deepest offer of the intervals between kinks, under IM and
   enclosed by healthy closes. Everything is closed only when that is in the band itself
   or no interval offers anything.
   */
  ghost predicate BufferedClose(mmS: int -> int, imS: int -> int, bounds: seq<int>, absNet: int, q: int) {
    && (q < absNet ==> IsOffer(mmS, imS, bounds, q))
    && (q < absNet ==> imS(q) <= 0 && Enclosed(mmS, absNet, q))
    && (q == absNet ==> InBand(mmS, imS, absNet) || AllBarren(mmS, imS, bounds))
    && NoneDeeper(mmS, imS, bounds, q)
    && KinksCovered(mmS, imS, bounds, q)
  }

  /** Without one: the shallowest healthy close the kinks reveal, or everything. */
  ghost predicate UnbufferedClose(mmS: int -> int, bounds: seq<int>, absNet: int, q: int) {
    && (forall k :: k in bounds && k < q ==> mmS(k) < 0)
    && (if mmS(q) >= 0 then mmS(q - 1) < 0 else q == absNet)
  }

  method SolvePerpCloseToTarget(snap: AccountSnapshot, params: MMParams, currentPrice: int, liquidationFee: int)
    returns (q: int, ghost bounds: seq<int>)
    requires params.perpQuantityDecimals <= 18
    ensures snap.perp.netQty == 0 || MmSurplus(snap, params, currentPrice) >= 0 ==> q == 0
    ensures snap.perp.netQty != 0 && MmSurplus(snap, params, currentPrice) < 0 ==>
              var mmS, imS := MmAfter(snap, params, currentPrice, liquidationFee),
                ImAfter(snap, params, currentPrice, liquidationFee);
              var absNet := Abs(snap.perp.netQty);
              && 1 <= q <= absNet
              && PerUnit(params) != 0
              && IsPartition(bounds, absNet)
              && (forall k :: k in bounds <==>
                  k == 0 || k == absNet || Interior(CloseRoots(snap, params, currentPrice), absNet, k))
              && (if params.imSpotShock > params.mmSpotShock then BufferedClose(mmS, imS, bounds, absNet, q)
                  else UnbufferedClose(mmS, bounds, absNet, q))
  {
    bounds := [];
    var absNet := Abs(snap.perp.netQty);
    if absNet == 0 { return 0, []; }
    if MmSurplus(snap, params, currentPrice) >= 0 { return 0, []; }
    var mmS := MmAfter(snap, params, currentPrice, liquidationFee);
    assert mmS(0) < 0;
    var kinks := PerpCloseKinks(snap, params, absNet, currentPrice);
    bounds := kinks;
    if params.imSpotShock > params.mmSpotShock {
      q := DeepestInBand(kinks, absNet, mmS, ImAfter(snap, params, currentPrice, liquidationFee),
                         ImAfterNegated(snap, params, currentPrice, liquidationFee));
    } else {
      q := ShallowestHealthy(kinks, absNet, mmS);
    }
  }

  /** What the interval a..b offers: the deep end under IM of its healthy part. */
  method OfferOf(a: int, b: int, absNet: int, mmS: int -> int, imS: int -> int, imNegated: int -> int)
    returns (offer: Option<int>)
    requires 0 <= a < b <= absNet && (a == 0 ==> mmS(a) < 0) && forall k :: imNegated(k) == -imS(k)
    ensures offer.None? ==> Barren(mmS, imS, a, b) && !InBand(mmS, imS, b)
    ensures offer.Some? ==>
              && Yields(mmS, imS, a, b, offer.value) && Enclosed(mmS, absNet, offer.value)
              && 1 <= offer.value <= b && imS(offer.value) <= 0
              && (InBand(mmS, imS, b) ==> offer.value == b)
  {
    var healthy := NonNegativeRange(a, b, mmS);
    if healthy.None? { return None; }
    var (lo, hi) := healthy.value;
    var underIM := NonNegativeRange(lo, hi, imNegated);
    if underIM.None? { return None; }
    assert 1 <= lo <= underIM.value.1 <= hi <= absNet;
    return Some(underIM.value.1);
  }

  /** The buffered walk over the intervals between kinks. */
  method DeepestInBand(bounds: seq<int>, absNet: int, mmS: int -> int, imS: int -> int, imNegated: int -> int)
    returns (q: int)
    requires IsPartition(bounds, absNet)
    requires mmS(0) < 0 && forall k :: imNegated(k) == -imS(k)
    ensures 1 <= q <= absNet && BufferedClose(mmS, imS, bounds, absNet, q)
  {
    var best: Option<int> := None;
    for i := 0 to |bounds| - 1
      invariant best.Some? ==> 1 <= best.value <= bounds[i] && imS(best.value) <= 0
      invariant best.Some? ==> Enclosed(mmS, absNet, best.value)
      invariant Walked(mmS, imS, bounds[..i + 1], best) && (best.Some? ==> IsOffer(mmS, imS, bounds, best.value))
      invariant KinksCovered(mmS, imS, bounds[..i + 1], if best.None? then -1 else best.value)
    {
      hide Yields, Barren, Walked, IsOffer, Enclosed, KinksCovered, InBand;
      assert bounds[i] < bounds[i + 1] <= absNet && 0 <= bounds[i];
      assert bounds[i] == 0 ==> i == 0;
      var offer := OfferOf(bounds[i], bounds[i + 1], absNet, mmS, imS, imNegated);
      ghost var was := if best.None? then -1 else best.value;
      if offer.None? {
        BarrenStep(mmS, imS, bounds, i, best);
        KinkStep(mmS, imS, bounds, i, was);
        continue;
      }
      Offered(mmS, imS, bounds, i, best, offer.value);
      if best.None? || offer.value > best.value { best := offer; }
      KinkStepTo(mmS, imS, bounds, i, was, best.value, offer.value);
    }
    assert bounds[..|bounds|] == bounds;
    if best.Some? && best.value >= absNet { OffersEverything(mmS, imS, bounds, absNet); }
    if best.None? { BarrenMeansNoneDeeper(mmS, imS, bounds, absNet); }
    q := if best.None? then absNet else if best.value >= absNet then absNet else best.value;
  }

  lemma KinkStep(mmS: int -> int, imS: int -> int, bounds: seq<int>, i: nat, q: int)
    requires i + 1 < |bounds| && KinksCovered(mmS, imS, bounds[..i + 1], q) && !InBand(mmS, imS, bounds[i + 1])
    ensures KinksCovered(mmS, imS, bounds[..i + 2], q)
  {
    assert bounds[..i + 2] == bounds[..i + 1] + [bounds[i + 1]];
  }

  lemma KinkStepTo(mmS: int -> int, imS: int -> int, bounds: seq<int>, i: nat, was: int, q: int, deepest: int)
    requires i + 1 < |bounds| && deepest <= q && was <= q
    requires KinksCovered(mmS, imS, bounds[..i + 1], was)
    requires InBand(mmS, imS, bounds[i + 1]) ==> deepest == bounds[i + 1]
    ensures KinksCovered(mmS, imS, bounds[..i + 2], q)
  {
    assert bounds[..i + 2] == bounds[..i + 1] + [bounds[i + 1]];
  }

  lemma OffersEverything(mmS: int -> int, imS: int -> int, bounds: seq<int>, absNet: int)
    requires StrictlyIncreasing(bounds) && |bounds| >= 2 && bounds[|bounds| - 1] == absNet
    requires IsOffer(mmS, imS, bounds, absNet)
    ensures InBand(mmS, imS, absNet)
  {
  }

  lemma BarrenMeansNoneDeeper(mmS: int -> int, imS: int -> int, bounds: seq<int>, q: int)
    requires AllBarren(mmS, imS, bounds)
    ensures NoneDeeper(mmS, imS, bounds, q)
  {
  }

  /** What the walk knows after the intervals up to kink i. */
  ghost predicate Walked(mmS: int -> int, imS: int -> int, bounds: seq<int>, best: Option<int>) {
    if best.None? then AllBarren(mmS, imS, bounds) else NoneDeeper(mmS, imS, bounds, best.value)
  }

  lemma BarrenStep(mmS: int -> int, imS: int -> int, bounds: seq<int>, i: nat, best: Option<int>)
    requires i + 1 < |bounds| && Walked(mmS, imS, bounds[..i + 1], best) && Barren(mmS, imS, bounds[i], bounds[i + 1])
    ensures Walked(mmS, imS, bounds[..i + 2], best)
  {
    hide Barren, OffersUpTo;
    var before, after := bounds[..i + 1], bounds[..i + 2];
    assert forall k :: 0 <= k <= i ==> after[k] == before[k];
  }

  lemma Offered(mmS: int -> int, imS: int -> int, bounds: seq<int>, i: nat, best: Option<int>, q: int)
    requires i + 1 < |bounds| && Walked(mmS, imS, bounds[..i + 1], best) &&
             Yields(mmS, imS, bounds[i], bounds[i + 1], q)
    ensures Walked(mmS, imS, bounds[..i + 2], if best.None? || q > best.value then Some(q) else best)
    ensures IsOffer(mmS, imS, bounds, q)
  {
    var best' := if best.None? || q > best.value then Some(q) else best;
    assert OffersUpTo(mmS, imS, bounds[i], bounds[i + 1], best'.value);
    hide Barren, Yields, RangeOf;
    var before, after := bounds[..i + 1], bounds[..i + 2];
    assert forall k :: 0 <= k <= i ==> after[k] == before[k];
  }

  /** The degenerate walk when IM and MM coincide. */
  method ShallowestHealthy(bounds: seq<int>, absNet: int, mmS: int -> int) returns (q: int)
    requires IsPartition(bounds, absNet)
    requires mmS(0) < 0
    ensures 1 <= q <= absNet && UnbufferedClose(mmS, bounds, absNet, q)
  {
    for i := 0 to |bounds| - 1
      invariant forall j :: 0 <= j <= i ==> mmS(bounds[j]) < 0
    {
      assert bounds[i] < bounds[i + 1] <= absNet && 0 <= bounds[i];
      var healthy := NonNegativeRange(bounds[i], bounds[i + 1], mmS);
      if healthy.None? { continue; }
      q := if healthy.value.0 >= absNet then absNet else healthy.value.0;
      return;
    }
    q := absNet;
  }
}
