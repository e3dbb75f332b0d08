/**
 Between neighbouring kinks of the search. From one tick past the lower kink every clamp
 keeps its side, so there the surplus is monotone; on the whole interval it is monotone
 exactly when that first tick does not overshoot both ends.
 */
module MonotoneIntervals {
  import opened Arithmetic
  import opened Margin
  import opened MarginShape
  import opened Thresholds

  ghost predicate Monotone(f: int -> int, a: int, b: int) {
    || (forall x, y :: a <= x <= y <= b ==> f(x) <= f(y))
    || (forall x, y :: a <= x <= y <= b ==> f(y) <= f(x))
  }

  ghost predicate NoKinkInside(snap: AccountSnapshot, params: MMParams, spot: int, requirement: MarginRequirement,
                               lo: int, hi: int) {
    forall k :: k in Kinks(snap, params, spot, requirement) ==> k <= lo || hi <= k
  }

  // ── A venue's fill loss on one piece ─────────────────────────────────────

  /** The bid side carries its loss all the way up to `hi`. */
  predicate BuyLoses(orders: RestingOrders, tokenDecimals: TokenDecimals, hi: int) {
    orders.buyDelta > 0 ==> hi <= TruncDiv(orders.buyValue * Pow10(tokenDecimals), orders.buyDelta)
  }

  predicate SellLoses(orders: RestingOrders, tokenDecimals: TokenDecimals, hi: int) {
    orders.sellDelta > 0 && TruncDiv(orders.sellValue * Pow10(tokenDecimals), orders.sellDelta) < hi
  }

  function FillSlope(orders: RestingOrders, tokenDecimals: TokenDecimals, hi: int): int {
    var scale := Pow10(tokenDecimals);
    (if SellLoses(orders, tokenDecimals, hi) then orders.sellDelta / scale else 0)
    - (if BuyLoses(orders, tokenDecimals, hi) then orders.buyDelta / scale else 0)
  }

  function FillOffset(orders: RestingOrders, tokenDecimals: TokenDecimals, hi: int): int {
    (if BuyLoses(orders, tokenDecimals, hi) then orders.buyValue else 0)
    - (if SellLoses(orders, tokenDecimals, hi) then orders.sellValue else 0)
  }

  /** Neither break-even of the venue lies inside the interval. */
  ghost predicate BreakevensOutside(orders: RestingOrders, tokenDecimals: TokenDecimals, lo: int, hi: int) {
    forall k :: k in FillLossBreakevens(orders, tokenDecimals) ==> k <= lo || hi <= k
  }

  /** A price past the floored break-even is past the break-even, a price up to it is not. */
  lemma SideOfBreakeven(value: int, delta: int, scale: int, price: int)
    requires value >= 0 && delta > 0 && scale > 0 && delta % scale == 0 && price >= 0
    ensures TruncDiv(price * delta, scale) == price * (delta / scale)
    ensures price <= TruncDiv(value * scale, delta) ==> price * (delta / scale) <= value
    ensures price > TruncDiv(value * scale, delta) ==> price * (delta / scale) >= value
  {
    var d := delta / scale;
    assert delta == d * scale && d > 0;
    MulAssoc(price, d, scale);
    ExactDiv(price * d, scale);
    MulOrder(0, value, scale);
    TruncDivNonneg(value * scale, delta);
    ScaledQuotient(value, d, scale);
    DivMod(value, d);
    ScaledOrder(price, value / d, d);
    MulSum(value / d, 1, d);
  }

  lemma FillLossOnPiece(orders: RestingOrders, tokenDecimals: TokenDecimals, lo: int, hi: int, price: int)
    requires UnsignedOrders(orders) && WholeOrders(orders, Pow10(tokenDecimals))
    requires BreakevensOutside(orders, tokenDecimals, lo, hi) && 0 <= lo < price <= hi
    ensures VenueFillLoss(orders, price, tokenDecimals) == FillSlope(orders, tokenDecimals, hi) * price +
            FillOffset(orders, tokenDecimals, hi)
  {
    var scale := Pow10(tokenDecimals);
    BuyLossOnPiece(orders, tokenDecimals, lo, hi, price);
    SellLossOnPiece(orders, tokenDecimals, lo, hi, price);
    hide TruncDiv, BuyLoses, SellLoses;
    MulSum(if SellLoses(orders, tokenDecimals, hi) then orders.sellDelta / scale else 0,
           if BuyLoses(orders, tokenDecimals, hi) then orders.buyDelta / scale else 0, price);
  }

  lemma BuyLossOnPiece(orders: RestingOrders, tokenDecimals: TokenDecimals, lo: int, hi: int, price: int)
    requires UnsignedOrders(orders) && WholeOrders(orders, Pow10(tokenDecimals))
    requires BreakevensOutside(orders, tokenDecimals, lo, hi) && 0 <= lo < price <= hi
    ensures Max(0, orders.buyValue - TruncDiv(price * orders.buyDelta, Pow10(tokenDecimals)))
         == if !BuyLoses(orders, tokenDecimals, hi) then 0
            else orders.buyValue - (orders.buyDelta / Pow10(tokenDecimals)) * price
  {
    var scale := Pow10(tokenDecimals);
    if orders.buyDelta == 0 {
      assert price * 0 == 0 && 0 / scale == 0 && TruncDiv(0, scale) == 0;
    } else {
      SideOfBreakeven(orders.buyValue, orders.buyDelta, scale, price);
      assert TruncDiv(orders.buyValue * scale, orders.buyDelta) in FillLossBreakevens(orders, tokenDecimals);
    }
  }

  lemma SellLossOnPiece(orders: RestingOrders, tokenDecimals: TokenDecimals, lo: int, hi: int, price: int)
    requires UnsignedOrders(orders) && WholeOrders(orders, Pow10(tokenDecimals))
    requires BreakevensOutside(orders, tokenDecimals, lo, hi) && 0 <= lo < price <= hi
    ensures Max(0, TruncDiv(price * orders.sellDelta, Pow10(tokenDecimals)) - orders.sellValue)
         == if !SellLoses(orders, tokenDecimals, hi) then 0
            else (orders.sellDelta / Pow10(tokenDecimals)) * price - orders.sellValue
  {
    var scale := Pow10(tokenDecimals);
    if orders.sellDelta == 0 {
      assert price * 0 == 0 && 0 / scale == 0 && TruncDiv(0, scale) == 0;
    } else {
      SideOfBreakeven(orders.sellValue, orders.sellDelta, scale, price);
      assert TruncDiv(orders.sellValue * scale, orders.sellDelta) in FillLossBreakevens(orders, tokenDecimals);
    }
  }

  // ── The unrealized loss on one piece ─────────────────────────────────────

  /** The futures PnL's zero as the requirement's search computes it, for a flat perp. */
  function PnlRoot(snap: AccountSnapshot, params: MMParams, requirement: MarginRequirement): int
    requires UnsettledQuantity(snap.futures.positions) != 0
  {
    var qty, value := UnsettledQuantity(snap.futures.positions), FrozenValue(snap.futures.positions);
    var scale := if requirement == IM then 1 else params.QtyScale();
    assert scale * qty != 0;
    FloorDiv(scale * value, scale * qty)
  }

  predicate PnlLoses(snap: AccountSnapshot, params: MMParams, requirement: MarginRequirement, hi: int)
    requires UnsettledQuantity(snap.futures.positions) != 0
  {
    if UnsettledQuantity(snap.futures.positions) > 0 then hi <= PnlRoot(snap, params, requirement)
    else PnlRoot(snap, params, requirement) < hi
  }

  function LossSlope(snap: AccountSnapshot, params: MMParams, requirement: MarginRequirement, hi: int): int {
    var qty := UnsettledQuantity(snap.futures.positions);
    if qty != 0 && PnlLoses(snap, params, requirement, hi) then -qty else 0
  }

  function LossOffset(snap: AccountSnapshot, params: MMParams, requirement: MarginRequirement, hi: int): int {
    var value := FrozenValue(snap.futures.positions);
    if UnsettledQuantity(snap.futures.positions) == 0 then Max(0, value)
    else if PnlLoses(snap, params, requirement, hi) then value
    else 0
  }

  /** The search emits the root and its successor, save where they are not positive. */
  lemma RootIsKink(snap: AccountSnapshot, params: MMParams, spot: int, requirement: MarginRequirement)
    requires snap.perp.netQty == 0 && UnsettledQuantity(snap.futures.positions) != 0
    ensures PnlRoot(snap, params, requirement) > 0 ==>
            PnlRoot(snap, params, requirement) in Kinks(snap, params, spot, requirement)
  {
    var qty, value := UnsettledQuantity(snap.futures.positions), FrozenValue(snap.futures.positions);
    var scale := params.QtyScale();
    assert snap.perp.entryPrice * 0 == 0 && 1 * qty == qty && 1 * value == value;
    assert scale * qty != 0;
    hide FloorDiv, FillLossBreakevens;
    var r := PnlRoot(snap, params, requirement);
    assert r in Straddle(r);
    assert r > 0 ==> r in UnrealizedPnlBreakevens(snap, params, requirement);
  }

  lemma PnlSide(snap: AccountSnapshot, params: MMParams, requirement: MarginRequirement, price: int)
    requires UnsettledQuantity(snap.futures.positions) != 0
    ensures var qty, value, r := UnsettledQuantity(snap.futures.positions), FrozenValue(snap.futures.positions),
            PnlRoot(snap, params, requirement);
            && (price <= r ==> if qty > 0 then price * qty <= value else price * qty >= value)
            && (r < price ==> if qty > 0 then price * qty >= value else price * qty <= value)
  {
    var qty, value := UnsettledQuantity(snap.futures.positions), FrozenValue(snap.futures.positions);
    var scale := if requirement == IM then 1 else params.QtyScale();
    assert scale * qty != 0 && (scale * qty > 0 <==> qty > 0);
    FloorRoot(scale * value, scale * qty, price);
    hide FloorDiv;
    MulAssoc(scale, qty, price);
    MulSum(value, qty * price, scale);
    SignOfScaled(scale, value - qty * price);
  }

  lemma SignOfScaled(scale: int, x: int)
    requires scale > 0
    ensures (scale * x >= 0 <==> x >= 0) && (scale * x <= 0 <==> x <= 0)
  {
  }

  lemma LossOnPiece(snap: AccountSnapshot, params: MMParams, spot: int, requirement: MarginRequirement, lo: int,
                    hi: int, price: int)
    requires snap.perp.netQty == 0 && NoKinkInside(snap, params, spot, requirement, lo, hi) && 0 <= lo < price <= hi
    ensures UnrealizedLoss(snap, params, price, requirement)
            == LossSlope(snap, params, requirement, hi) * price + LossOffset(snap, params, requirement, hi)
  {
    hide UnrealizedLoss, FuturesPnl, Kinks, NoKinkInside, PnlRoot, FrozenValue, UnsettledQuantity;
    var qty, value := UnsettledQuantity(snap.futures.positions), FrozenValue(snap.futures.positions);
    FuturesPnlIsAffine(snap.futures.positions, price);
    FlatLoss(snap, params, price, requirement);
    if qty == 0 {
      assert price * 0 == 0;
    } else {
      RootOutside(snap, params, spot, requirement, lo, hi);
      PnlSide(snap, params, requirement, price);
      ClampOnPiece(qty, value, PnlRoot(snap, params, requirement), lo, hi, price);
    }
  }

  lemma RootOutside(snap: AccountSnapshot, params: MMParams, spot: int, requirement: MarginRequirement, lo: int,
                    hi: int)
    requires snap.perp.netQty == 0 && NoKinkInside(snap, params, spot, requirement, lo, hi) && 0 <= lo
    requires UnsettledQuantity(snap.futures.positions) != 0
    ensures PnlRoot(snap, params, requirement) <= lo || hi <= PnlRoot(snap, params, requirement)
  {
    hide Kinks, PnlRoot, UnsettledQuantity;
    RootIsKink(snap, params, spot, requirement);
  }

  lemma ClampOnPiece(qty: int, value: int, r: int, lo: int, hi: int, price: int)
    requires qty != 0 && (r <= lo || hi <= r) && lo < price <= hi
    requires price <= r ==> if qty > 0 then price * qty <= value else price * qty >= value
    requires r < price ==> if qty > 0 then price * qty >= value else price * qty <= value
    ensures Max(0, -(price * qty - value))
         == if (if qty > 0 then hi <= r else r < hi) then -qty * price + value else 0
  {
    assert -qty * price == -(price * qty);
  }

  lemma FlatLoss(snap: AccountSnapshot, params: MMParams, price: int, requirement: MarginRequirement)
    requires snap.perp.netQty == 0
    ensures UnrealizedLoss(snap, params, price, requirement) == Max(0, -FuturesUnrealizedPnl(snap, price))
  {
    hide FuturesUnrealizedPnl;
  }

  // ── Every account: the clamps flip only at kinks ─────────────────────────

  /** On one side of zero throughout, or on neighbouring prices. */
  ghost predicate KeepsSign(f: int -> int, lo: int, hi: int) {
    || hi == lo + 1
    || (forall p :: lo <= p <= hi ==> f(p) >= 0)
    || (forall p :: lo <= p <= hi ==> f(p) <= 0)
  }

  function PerpPnlScaled(snap: AccountSnapshot): int -> int {
    price => (price - snap.perp.entryPrice) * snap.perp.netQty
  }

  function FuturesPnlAt(snap: AccountSnapshot): int -> int {
    price => FuturesUnrealizedPnl(snap, price)
  }

  /** The PnL of both venues at the perp's quantity scale, before it is rounded. */
  function TotalPnlScaled(snap: AccountSnapshot, params: MMParams): int -> int {
    price => (price - snap.perp.entryPrice) * snap.perp.netQty + params.QtyScale() * FuturesUnrealizedPnl(snap, price)
  }

  ghost predicate IsLine(f: int -> int, slope: int, value: int) {
    forall p :: f(p) == p * slope - value
  }

  /** The floored root of a line and its successor, where positive, are not strictly inside. */
  ghost predicate RootOutOf(slope: int, value: int, lo: int, hi: int) {
    slope != 0 ==>
      var r := FloorDiv(value, slope);
      (r > 0 ==> r <= lo || hi <= r) && (r + 1 > 0 ==> r + 1 <= lo || hi <= r + 1)
  }

  lemma LineKeepsSign(f: int -> int, slope: int, value: int, lo: int, hi: int)
    requires 0 <= lo < hi && IsLine(f, slope, value) && RootOutOf(slope, value, lo, hi)
    ensures KeepsSign(f, lo, hi)
  {
    if slope == 0 {
      assert forall p: int :: p * slope == 0;
    } else {
      hide FloorDiv;
      forall p | lo <= p <= hi && hi != lo + 1
        ensures if (FloorDiv(value, slope) < lo) == (slope > 0) then f(p) >= 0 else f(p) <= 0
      {
        FloorRoot(value, slope, p);
        MulSwap(p, slope, 1);
      }
    }
  }

  /** The netted PnL changes sign only where the search for MM splits its range, whatever the account. */
  lemma NettedPnlKeepsSign(snap: AccountSnapshot, params: MMParams, spot: int, lo: int, hi: int)
    requires NoKinkInside(snap, params, spot, MM, lo, hi) && 0 <= lo < hi
    ensures KeepsSign(TotalPnlScaled(snap, params), lo, hi)
  {
    hide NoKinkInside, KeepsSign, IsLine, RootOutOf, TotalPnlScaled;
    NettedIsLine(snap, params);
    NettedRootIsKink(snap, params, spot, lo, hi);
    LineKeepsSign(TotalPnlScaled(snap, params), NettedSlope(snap, params), NettedValue(snap, params), lo, hi);
  }

  function NettedSlope(snap: AccountSnapshot, params: MMParams): int {
    snap.perp.netQty + params.QtyScale() * UnsettledQuantity(snap.futures.positions)
  }

  function NettedValue(snap: AccountSnapshot, params: MMParams): int {
    snap.perp.entryPrice * snap.perp.netQty + params.QtyScale() * FrozenValue(snap.futures.positions)
  }

  lemma NettedIsLine(snap: AccountSnapshot, params: MMParams)
    ensures IsLine(TotalPnlScaled(snap, params), NettedSlope(snap, params), NettedValue(snap, params))
  {
    hide FuturesUnrealizedPnl, FuturesPnl;
    var positions := snap.futures.positions;
    forall p ensures TotalPnlScaled(snap, params)(p) == p * NettedSlope(snap, params) - NettedValue(snap, params) {
      MarkedPnl(snap, p);
      TotalIsLine(p, snap.perp.entryPrice, snap.perp.netQty, params.QtyScale(), UnsettledQuantity(positions),
                  FrozenValue(positions));
    }
  }

  lemma MarkedPnl(snap: AccountSnapshot, price: int)
    ensures FuturesUnrealizedPnl(snap, price)
         == price * UnsettledQuantity(snap.futures.positions) - FrozenValue(snap.futures.positions)
  {
    FuturesPnlIsAffine(snap.futures.positions, price);
  }

  lemma TotalIsLine(p: int, entry: int, netQty: int, scale: int, qty: int, value: int)
    ensures (p - entry) * netQty + scale * (p * qty - value)
         == p * (netQty + scale * qty) - (entry * netQty + scale * value)
  {
    MulSum(p, entry, netQty);
    MulSum(p * qty, value, scale);
    MulSum(netQty, scale * qty, p);
    MulAssoc(p, scale, qty);
    MulAssoc(scale, p, qty);
  }

  lemma NettedRootIsKink(snap: AccountSnapshot, params: MMParams, spot: int, lo: int, hi: int)
    requires NoKinkInside(snap, params, spot, MM, lo, hi)
    ensures RootOutOf(NettedSlope(snap, params), NettedValue(snap, params), lo, hi)
  {
    hide FloorDiv, NoKinkInside, FrozenValue, UnsettledQuantity, MMParams.QtyScale;
    if NettedSlope(snap, params) != 0 {
      var r := FloorDiv(NettedValue(snap, params), NettedSlope(snap, params));
      StraddleHolds(r);
      PnlKinkIsOutside(snap, params, spot, MM, lo, hi, r);
      PnlKinkIsOutside(snap, params, spot, MM, lo, hi, r + 1);
    }
  }

  lemma PnlKinkIsOutside(snap: AccountSnapshot, params: MMParams, spot: int, requirement: MarginRequirement, lo: int,
                         hi: int, k: int)
    requires NoKinkInside(snap, params, spot, requirement, lo, hi)
    ensures k in UnrealizedPnlBreakevens(snap, params, requirement) ==> k <= lo || hi <= k
  {
    hide UnrealizedPnlBreakevens, FillLossBreakevens;
    if k in UnrealizedPnlBreakevens(snap, params, requirement) {
      assert k in Kinks(snap, params, spot, requirement);
    }
  }

  lemma StraddleHolds(r: int)
    ensures r in Straddle(r) && r + 1 in Straddle(r)
  {
    assert Straddle(r)[0] == r && Straddle(r)[1] == r + 1;
  }

  /** And the PnL of each venue only where the search for IM does. */
  lemma VenuePnlKeepsSign(snap: AccountSnapshot, params: MMParams, spot: int, lo: int, hi: int)
    requires NoKinkInside(snap, params, spot, IM, lo, hi) && 0 <= lo < hi
    ensures KeepsSign(PerpPnlScaled(snap), lo, hi) && KeepsSign(FuturesPnlAt(snap), lo, hi)
  {
    hide NoKinkInside, KeepsSign, RootOutOf, FuturesPnlAt, FrozenValue, UnsettledQuantity;
    var qty, value := UnsettledQuantity(snap.futures.positions), FrozenValue(snap.futures.positions);
    VenueRootsAreKinks(snap, params, spot, lo, hi);
    FuturesAreALine(snap);
    LineKeepsSign(FuturesPnlAt(snap), qty, value, lo, hi);
    PerpKeepsSign(snap, lo, hi);
  }

  lemma FuturesAreALine(snap: AccountSnapshot)
    ensures IsLine(FuturesPnlAt(snap), UnsettledQuantity(snap.futures.positions), FrozenValue(snap.futures.positions))
  {
    hide FuturesUnrealizedPnl;
    forall p ensures FuturesPnlAt(snap)(p)
                  == p * UnsettledQuantity(snap.futures.positions) - FrozenValue(snap.futures.positions) {
      MarkedPnl(snap, p);
    }
  }

  lemma VenueRootsAreKinks(snap: AccountSnapshot, params: MMParams, spot: int, lo: int, hi: int)
    requires NoKinkInside(snap, params, spot, IM, lo, hi)
    ensures RootOutOf(UnsettledQuantity(snap.futures.positions), FrozenValue(snap.futures.positions), lo, hi)
    ensures snap.perp.netQty != 0 && snap.perp.entryPrice > 0 ==>
            snap.perp.entryPrice <= lo || hi <= snap.perp.entryPrice
  {
    hide FloorDiv, NoKinkInside, FrozenValue, UnsettledQuantity, MMParams.QtyScale;
    var qty, value := UnsettledQuantity(snap.futures.positions), FrozenValue(snap.futures.positions);
    PnlKinkIsOutside(snap, params, spot, IM, lo, hi, snap.perp.entryPrice);
    if qty != 0 {
      var r := FloorDiv(value, qty);
      StraddleHolds(r);
      PnlKinkIsOutside(snap, params, spot, IM, lo, hi, r);
      PnlKinkIsOutside(snap, params, spot, IM, lo, hi, r + 1);
    }
  }

  lemma PerpKeepsSign(snap: AccountSnapshot, lo: int, hi: int)
    requires 0 <= lo < hi
    requires snap.perp.netQty != 0 && snap.perp.entryPrice > 0 ==>
             snap.perp.entryPrice <= lo || hi <= snap.perp.entryPrice
    ensures KeepsSign(PerpPnlScaled(snap), lo, hi)
  {
    var f, rising := PerpPnlScaled(snap), (snap.perp.entryPrice <= lo) == (snap.perp.netQty > 0);
    forall p | lo <= p <= hi ensures if rising then f(p) >= 0 else f(p) <= 0 {
      SignOfProduct(p - snap.perp.entryPrice, snap.perp.netQty);
    }
  }

  lemma SignOfProduct(x: int, y: int)
    ensures (x >= 0 && y >= 0) || (x <= 0 && y <= 0) ==> x * y >= 0
    ensures (x >= 0 && y <= 0) || (x <= 0 && y >= 0) ==> x * y <= 0
  {
  }

  // ── The requirement on one piece ─────────────────────────────────────────

  function PieceSlope(snap: AccountSnapshot, params: MMParams, requirement: MarginRequirement, hi: int): int {
    FillSlope(snap.perp.orders, params.tokenDecimals, hi) + FillSlope(snap.futures.orders, params.tokenDecimals, hi)
    + LossSlope(snap, params, requirement, hi)
  }

  function PieceOffset(snap: AccountSnapshot, params: MMParams, requirement: MarginRequirement, hi: int): int {
    FillOffset(snap.perp.orders, params.tokenDecimals, hi) + FillOffset(snap.futures.orders, params.tokenDecimals, hi)
    + LossOffset(snap, params, requirement, hi) + snap.perp.fundingOwed
  }

  lemma TermsOnPiece(snap: AccountSnapshot, params: MMParams, spot: int, requirement: MarginRequirement, lo: int,
                     hi: int, price: int)
    requires WholeContract(snap, params) && NoKinkInside(snap, params, spot, requirement, lo, hi) &&
             0 <= lo < price <= hi
    ensures FillLoss(snap, params, price) + UnrealizedLoss(snap, params, price, requirement) + snap.perp.fundingOwed
         == PieceSlope(snap, params, requirement, hi) * price + PieceOffset(snap, params, requirement, hi)
  {
    hide NoKinkInside, FillSlope, FillOffset, LossSlope, LossOffset, VenueFillLoss, UnrealizedLoss, BreakevensOutside;
    KinksCoverBreakevens(snap, params, spot, requirement, lo, hi);
    FillLossOnPiece(snap.perp.orders, params.tokenDecimals, lo, hi, price);
    FillLossOnPiece(snap.futures.orders, params.tokenDecimals, lo, hi, price);
    LossOnPiece(snap, params, spot, requirement, lo, hi, price);
    var k1, k2, k3 := FillSlope(snap.perp.orders, params.tokenDecimals, hi),
      FillSlope(snap.futures.orders, params.tokenDecimals, hi),
                      LossSlope(snap, params, requirement, hi);
    MulSum(k1, k2, price);
    MulSum(k1 + k2, k3, price);
  }

  /** One floor of one line: the whole slopes go under the stress's floor. */
  lemma RequiredOnPiece(snap: AccountSnapshot, params: MMParams, spot: int, requirement: MarginRequirement, lo: int,
                        hi: int, price: int)
    requires WholeContract(snap, params) && NoKinkInside(snap, params, spot, requirement, lo, hi) &&
             0 <= lo < price <= hi
    ensures Required(snap, params, price, requirement)
         == ((StressCoefficient(snap, params, requirement) +
              PieceSlope(snap, params, requirement, hi) * (WAD * WAD)) * price) / (WAD * WAD)
            + PieceOffset(snap, params, requirement, hi)
  {
    hide NoKinkInside, StressCoefficient, PieceSlope, PieceOffset, FillLoss, UnrealizedLoss, WorstLegStressLoss;
    WorstLegIsOneFloor(snap, params, price, requirement);
    TermsOnPiece(snap, params, spot, requirement, lo, hi, price);
    UnderOneFloor(StressCoefficient(snap, params, requirement), PieceSlope(snap, params, requirement, hi), WAD * WAD,
                  price);
  }

  lemma UnderOneFloor(c: int, k: int, w: int, price: int)
    requires w > 0
    ensures ((c + k * w) * price) / w == (c * price) / w + k * price
  {
    MulSum(c, k * w, price);
    MulAssoc(k, w, price);
    MulSwap(k, w, price);
    FloorOfSum(k * price, c * price, w);
  }

  lemma KinksCoverBreakevens(snap: AccountSnapshot, params: MMParams, spot: int, requirement: MarginRequirement,
                             lo: int, hi: int)
    requires NoKinkInside(snap, params, spot, requirement, lo, hi)
    ensures BreakevensOutside(snap.perp.orders, params.tokenDecimals, lo, hi)
    ensures BreakevensOutside(snap.futures.orders, params.tokenDecimals, lo, hi)
  {
    hide UnrealizedPnlBreakevens, FillLossBreakevens;
    forall k | k in FillLossBreakevens(snap.perp.orders, params.tokenDecimals) ||
      k in FillLossBreakevens(snap.futures.orders, params.tokenDecimals)
      ensures k <= lo || hi <= k
    {
      assert k in Kinks(snap, params, spot, requirement);
    }
  }

  // ── Monotone from the first tick on, and exactly when throughout ─────────

  function SurplusAt(snap: AccountSnapshot, params: MMParams, requirement: MarginRequirement): int -> int {
    price => Surplus(snap, params, price, requirement)
  }

  lemma LineIsMonotone(k: int, w: int, x: int, y: int)
    requires w > 0 && x <= y
    ensures if k >= 0 then (k * x) / w <= (k * y) / w else (k * y) / w <= (k * x) / w
  {
    if k >= 0 {
      MulOrder(x, y, k);
      DivMonotone(k * x, k * y, w);
    } else {
      MulOrder(x, y, -k);
      assert x * -k == -(k * x) && y * -k == -(k * y);
      DivMonotone(k * y, k * x, w);
    }
  }

  /** Past the first tick of an interval without kinks the surplus is monotone, MM or IM. */
  lemma MonotonePastFirstTick(snap: AccountSnapshot, params: MMParams, spot: int, requirement: MarginRequirement,
                              lo: int, hi: int)
    requires WholeContract(snap, params) && NoKinkInside(snap, params, spot, requirement, lo, hi) && 0 <= lo < hi
    ensures Monotone(SurplusAt(snap, params, requirement), lo + 1, hi)
  {
    hide NoKinkInside, WholeContract, Required, StressCoefficient, PieceSlope, PieceOffset;
    var f := SurplusAt(snap, params, requirement);
    var k := StressCoefficient(snap, params, requirement) + PieceSlope(snap, params, requirement, hi) * (WAD * WAD);
    forall x, y | lo + 1 <= x <= y <= hi ensures if k >= 0 then f(y) <= f(x) else f(x) <= f(y) {
      RequiredOnPiece(snap, params, spot, requirement, lo, hi, x);
      RequiredOnPiece(snap, params, spot, requirement, lo, hi, y);
      LineIsMonotone(k, WAD * WAD, x, y);
    }
  }

  /** Once it has fallen it never rises again, and before it has risen it never fell. */
  ghost predicate Unimodal(f: int -> int, lo: int, hi: int) {
    forall a, c, b :: lo <= a <= c <= b <= hi ==> (f(c) < f(a) ==> f(b) <= f(c)) && (f(c) < f(b) ==> f(a) <= f(c))
  }

  lemma FirstTickDecides(f: int -> int, lo: int, hi: int)
    requires lo < hi && Unimodal(f, lo, hi) && Monotone(f, lo + 1, hi)
    ensures Monotone(f, lo, hi) <==> f(lo + 1) <= Max(f(lo), f(hi))
  {
    if f(lo + 1) <= f(lo) {
      FallsThroughout(f, lo, hi);
    } else if f(lo + 1) <= f(hi) {
      RisesThroughout(f, lo, hi);
    }
  }

  lemma FallsThroughout(f: int -> int, lo: int, hi: int)
    requires lo < hi && Unimodal(f, lo, hi) && Monotone(f, lo + 1, hi) && f(lo + 1) <= f(lo)
    ensures Monotone(f, lo, hi)
  {
    if f(lo + 1) < f(lo) {
      assert forall y :: lo + 1 <= y <= hi ==> f(y) <= f(lo + 1);
    }
  }

  lemma RisesThroughout(f: int -> int, lo: int, hi: int)
    requires lo < hi && Monotone(f, lo + 1, hi) && f(lo) < f(lo + 1) <= f(hi)
    ensures Monotone(f, lo, hi)
  {
    assert forall y :: lo + 1 <= y <= hi ==> f(lo + 1) <= f(y);
  }

  /**
   When the search's premise holds. On an interval with no kink strictly inside, the surplus
   is monotone if and only if its first tick does not rise above both ends: the one tick that
   a floored break-even can put on the wrong side.
   */
  lemma MonotoneExactly(snap: AccountSnapshot, params: MMParams, spot: int, requirement: MarginRequirement, lo: int,
                        hi: int)
    requires WholeContract(snap, params) && NoKinkInside(snap, params, spot, requirement, lo, hi) && 0 <= lo < hi
    ensures Monotone(SurplusAt(snap, params, requirement), lo, hi) <==>
            Surplus(snap, params, lo + 1, requirement)
            <= Max(Surplus(snap, params, lo, requirement), Surplus(snap, params, hi, requirement))
  {
    hide WholeContract, NoKinkInside, Required, Monotone;
    var f := SurplusAt(snap, params, requirement);
    forall a, c, b | lo <= a <= c <= b <= hi ensures (f(c) < f(a) ==> f(b) <= f(c)) && (f(c) < f(b) ==> f(a) <= f(c)) {
      SurplusIsUnimodal(snap, params, requirement, a, c, b);
    }
    MonotonePastFirstTick(snap, params, spot, requirement, lo, hi);
    FirstTickDecides(f, lo, hi);
  }

  // ── An interval on which it is not monotone ──────────────────────────────

  /** Two contracts bid for 101 in all, no position, a tenth of shock, token units of one. */
  ghost function RestingBids(): (AccountSnapshot, MMParams) {
    var none := RestingOrders(0, 0, 0, 0);
    (AccountSnapshot("a", 0, PerpPosition(0, 0, none, 0), FuturesBook([], RestingOrders(2, 0, 101, 0))),
     MMParams(0, WAD / 10, 0, 6))
  }

  lemma RestingBidsRequire(price: int)
    requires price >= 0
    ensures var (snap, params) := RestingBids();
            Required(snap, params, price, MM) == (2 * price) / 10 + Max(0, 101 - 2 * price)
  {
    var (snap, params) := RestingBids();
    var positions := snap.futures.positions;
    assert UnsettledQuantity(positions) == 0 && FuturesPnl(positions, price) == 0;
    assert NetDeltaWad(snap, params) == 0 by { assert 0 * WAD == 0; }
    PowersAdd(0, 18);
    Pow18IsWad();
    assert BuyDeltaWad(snap, params) == 2 * WAD && SellDeltaWad(snap, params) == 0;
    TenthOfPrice(price);
    hide StressLoss, NetDeltaWad, BuyDeltaWad, SellDeltaWad;
    assert VenueFillLoss(snap.perp.orders, price, 0) == 0 by { assert price * 0 == 0; }
  }

  lemma TenthOfPrice(price: int)
    requires price >= 0
    ensures StressLoss(2 * WAD, WAD / 10, price, 0) == (2 * price) / 10 && StressLoss(0, WAD / 10, price, 0) == 0
  {
    hide StressLoss;
    StressIsOneFloor(2 * WAD, WAD / 10, price, 0);
    StressIsOneFloor(0, WAD / 10, price, 0);
    ScaledQuotient(2 * price, 10, WAD * (WAD / 10));
    assert Abs(0) * (WAD / 10) * price == 0;
  }

  /**
   The surplus is not monotone between kinks. The fill-loss break-even 50.5 is a kink at 50
   alone, so inside the last interval the surplus still rises to 51 before stress takes it
   down again: its first tick overshoots both ends.
   */
  lemma SurplusIsNotMonotoneBetweenKinks()
    ensures var (snap, params) := RestingBids();
            && WholeContract(snap, params) && NoKinkInside(snap, params, 50, MM, 50, 55)
            && 55 < SearchCap(Kinks(snap, params, 50, MM)) && !Monotone(SurplusAt(snap, params, MM), 50, 55)
  {
    hide WholeContract, Kinks, Monotone, NoKinkInside, Surplus;
    var (snap, params) := RestingBids();
    RestingBidsOvershoot(snap, params);
  }

  lemma RestingBidsOvershoot(snap: AccountSnapshot, params: MMParams)
    requires (snap, params) == RestingBids()
    ensures WholeContract(snap, params) && NoKinkInside(snap, params, 50, MM, 50, 55)
    ensures 55 < SearchCap(Kinks(snap, params, 50, MM)) && !Monotone(SurplusAt(snap, params, MM), 50, 55)
  {
    hide WholeContract, Kinks, Monotone, NoKinkInside, Surplus, RestingBids;
    RestingBidsKinks(snap, params);
    RestingBidsSurplus(snap, params);
    MonotoneExactly(snap, params, 50, MM, 50, 55);
  }

  lemma RestingBidsSurplus(snap: AccountSnapshot, params: MMParams)
    requires (snap, params) == RestingBids()
    ensures Surplus(snap, params, 51, MM) > Max(Surplus(snap, params, 50, MM), Surplus(snap, params, 55, MM))
  {
    hide Required;
    RestingBidsRequire(50);
    RestingBidsRequire(51);
    RestingBidsRequire(55);
  }

  lemma RestingBidsKinks(snap: AccountSnapshot, params: MMParams)
    requires (snap, params) == RestingBids()
    ensures WholeContract(snap, params)
    ensures NoKinkInside(snap, params, 50, MM, 50, 55) && 55 < SearchCap(Kinks(snap, params, 50, MM))
  {
    assert Pow10(0) == 1;
    assert UnsettledQuantity([]) == 0;
    assert UnrealizedPnlBreakevens(snap, params, MM) == [] by { assert params.QtyScale() * 0 == 0; }
    assert FillLossBreakevens(snap.futures.orders, 0) == [50];
    var kinks := Kinks(snap, params, 50, MM);
    assert kinks == [50, 50];
    assert Greatest(kinks) in kinks;
  }
}
