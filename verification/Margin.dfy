/**
 The margin requirement as a function of price (portfolio-margin/src/mm.ts):
 stress of the worse fill leg, per-side clamped fill loss, unrealized loss clamped
 per venue (IM) or once (MM), and funding. Each loop of the source is a method
 proved equal to the function the rest of the project reasons about.
 */
module Margin {
  import opened Arithmetic

  type Address = string

  /** 10^(18 - tokenDecimals) has to exist, or the source throws. */
  type TokenDecimals = n: nat | n <= 18

  datatype RestingOrders = RestingOrders(buyDelta: int, sellDelta: int, buyValue: int, sellValue: int)

  datatype PerpPosition = PerpPosition(netQty: int, entryPrice: int, orders: RestingOrders, fundingOwed: int)

  datatype FuturesPosition = FuturesPosition(expirationAt: int, netQuantity: int, netEntryValue: int,
                                             settlementPrice: int)
  {
    /** A settled leg is marked at its pinned price for ever. */
    function Mark(price: int): int {
      if settlementPrice != 0 then settlementPrice else price
    }
  }

  datatype FuturesBook = FuturesBook(positions: seq<FuturesPosition>, orders: RestingOrders)

  datatype AccountSnapshot = AccountSnapshot(user: Address, balance: int, perp: PerpPosition, futures: FuturesBook)

  datatype MarginRequirement = IM | MM

  datatype MMParams = MMParams(imSpotShock: int, mmSpotShock: int, tokenDecimals: TokenDecimals,
                               perpQuantityDecimals: nat)
  {
    function Shock(requirement: MarginRequirement): int {
      if requirement == IM then imSpotShock else mmSpotShock
    }

    function TokenScale(): (r: int)
      ensures r > 0
    {
      Pow10(tokenDecimals)
    }

    function WadLift(): (r: int)
      ensures r > 0
    {
      Pow10(18 - tokenDecimals)
    }

    function QtyScale(): (r: int)
      ensures r > 0
    {
      Pow10(perpQuantityDecimals)
    }
  }

  // ── Delta ────────────────────────────────────────────────────────────────

  /** Contracts that still move with spot. */
  function UnsettledQuantity(positions: seq<FuturesPosition>): int {
    if positions == [] then 0
    else
      var last := positions[|positions| - 1];
      UnsettledQuantity(positions[..|positions| - 1]) + (if last.settlementPrice != 0 then 0 else last.netQuantity)
  }

  function NetDeltaWad(snap: AccountSnapshot, params: MMParams): int {
    TruncDiv(snap.perp.netQty * WAD, params.QtyScale()) + UnsettledQuantity(snap.futures.positions) * WAD
  }

  method ComputeNetDeltaWad(snap: AccountSnapshot, params: MMParams) returns (delta: int)
    ensures delta == NetDeltaWad(snap, params)
  {
    var positions := snap.futures.positions;
    delta := TruncDiv(snap.perp.netQty * WAD, params.QtyScale());
    for i := 0 to |positions|
      invariant delta == TruncDiv(snap.perp.netQty * WAD, params.QtyScale()) + UnsettledQuantity(positions[..i]) * WAD
    {
      assert positions[..i + 1][..i] == positions[..i];
      if positions[i].settlementPrice != 0 { continue; }
      delta := delta + positions[i].netQuantity * WAD;
    }
    assert positions[..|positions|] == positions;
  }

  function BuyDeltaWad(snap: AccountSnapshot, params: MMParams): int {
    (snap.perp.orders.buyDelta + snap.futures.orders.buyDelta) * params.WadLift()
  }

  function SellDeltaWad(snap: AccountSnapshot, params: MMParams): int {
    (snap.perp.orders.sellDelta + snap.futures.orders.sellDelta) * params.WadLift()
  }

  // ── The terms of the requirement ─────────────────────────────────────────

  /** Scaled to WAD, floored by WAD squared, scaled back to token units. */
  function StressLoss(delta: int, shock: int, price: int, tokenDecimals: TokenDecimals): int {
    var priceWad := price * Pow10(18 - tokenDecimals);
    var stressWad := TruncDiv(Abs(delta) * shock * priceWad, WAD * WAD);
    TruncDiv(stressWad, Pow10(18 - tokenDecimals))
  }

  function WorstLegStressLoss(snap: AccountSnapshot, params: MMParams, shock: int, price: int): int {
    var netDelta := NetDeltaWad(snap, params);
    var buyLeg := StressLoss(netDelta + BuyDeltaWad(snap, params), shock, price, params.tokenDecimals);
    var sellLeg := StressLoss(netDelta - SellDeltaWad(snap, params), shock, price, params.tokenDecimals);
    Max(buyLeg, sellLeg)
  }

  function VenueFillLoss(orders: RestingOrders, price: int, tokenDecimals: TokenDecimals): int {
    var scale := Pow10(tokenDecimals);
    Max(0, orders.buyValue - TruncDiv(price * orders.buyDelta, scale)) +
    Max(0, TruncDiv(price * orders.sellDelta, scale) - orders.sellValue)
  }

  method ComputeVenueFillLoss(orders: RestingOrders, price: int, tokenDecimals: TokenDecimals) returns (loss: int)
    ensures loss == VenueFillLoss(orders, price, tokenDecimals)
  {
    var scale := Pow10(tokenDecimals);
    loss := 0;
    var buyMark := TruncDiv(price * orders.buyDelta, scale);
    if orders.buyValue > buyMark { loss := loss + (orders.buyValue - buyMark); }
    var sellMark := TruncDiv(price * orders.sellDelta, scale);
    if sellMark > orders.sellValue { loss := loss + (sellMark - orders.sellValue); }
  }

  function FillLoss(snap: AccountSnapshot, params: MMParams, price: int): int {
    VenueFillLoss(snap.perp.orders, price, params.tokenDecimals) +
    VenueFillLoss(snap.futures.orders, price, params.tokenDecimals)
  }

  function PerpUnrealizedPnl(snap: AccountSnapshot, params: MMParams, price: int): int {
    if snap.perp.netQty == 0 then 0
    else TruncDiv((price - snap.perp.entryPrice) * snap.perp.netQty, params.QtyScale())
  }

  function FuturesPnl(positions: seq<FuturesPosition>, price: int): int {
    if positions == [] then 0
    else
      var last := positions[|positions| - 1];
      FuturesPnl(positions[..|positions| - 1], price) + (last.Mark(price) * last.netQuantity - last.netEntryValue)
  }

  function FuturesUnrealizedPnl(snap: AccountSnapshot, price: int): int {
    FuturesPnl(snap.futures.positions, price)
  }

  method ComputeFuturesUnrealizedPnl(snap: AccountSnapshot, price: int) returns (pnl: int)
    ensures pnl == FuturesUnrealizedPnl(snap, price)
  {
    var positions := snap.futures.positions;
    pnl := 0;
    for i := 0 to |positions|
      invariant pnl == FuturesPnl(positions[..i], price)
    {
      assert positions[..i + 1][..i] == positions[..i];
      var mark := positions[i].Mark(price);
      pnl := pnl + (mark * positions[i].netQuantity - positions[i].netEntryValue);
    }
    assert positions[..|positions|] == positions;
  }

  /** MM clamps the signed sum once; IM clamps each venue and ignores gains. */
  function UnrealizedLoss(snap: AccountSnapshot, params: MMParams, price: int, requirement: MarginRequirement): int {
    var perp := PerpUnrealizedPnl(snap, params, price);
    var futures := FuturesUnrealizedPnl(snap, price);
    if requirement == MM then Max(0, -(perp + futures)) else Max(0, -perp) + Max(0, -futures)
  }

  function Required(snap: AccountSnapshot, params: MMParams, price: int, requirement: MarginRequirement): int {
    WorstLegStressLoss(snap, params, params.Shock(requirement), price) +
    FillLoss(snap, params, price) +
    UnrealizedLoss(snap, params, price, requirement) +
    snap.perp.fundingOwed
  }

  function Surplus(snap: AccountSnapshot, params: MMParams, price: int, requirement: MarginRequirement): int {
    snap.balance - Required(snap, params, price, requirement)
  }

  function MmSurplus(snap: AccountSnapshot, params: MMParams, price: int): int {
    Surplus(snap, params, price, MM)
  }

  function ImSurplus(snap: AccountSnapshot, params: MMParams, price: int): int {
    Surplus(snap, params, price, IM)
  }

  // ── The affine form of the futures PnL (futuresPnlTerms) ─────────────────

  /** Entry value of every leg, less the frozen mark of the settled ones. */
  function FrozenValue(positions: seq<FuturesPosition>): int {
    if positions == [] then 0
    else
      var last := positions[|positions| - 1];
      FrozenValue(positions[..|positions| - 1]) + last.netEntryValue -
      (if last.settlementPrice != 0 then last.settlementPrice * last.netQuantity else 0)
  }

  method FuturesPnlTerms(snap: AccountSnapshot) returns (qty: int, value: int)
    ensures qty == UnsettledQuantity(snap.futures.positions)
    ensures value == FrozenValue(snap.futures.positions)
    ensures forall price :: FuturesUnrealizedPnl(snap, price) == price * qty - value
  {
    var positions := snap.futures.positions;
    qty, value := 0, 0;
    for i := 0 to |positions|
      invariant qty == UnsettledQuantity(positions[..i])
      invariant value == FrozenValue(positions[..i])
    {
      assert positions[..i + 1][..i] == positions[..i];
      value := value + positions[i].netEntryValue;
      if positions[i].settlementPrice != 0 {
        value := value - positions[i].settlementPrice * positions[i].netQuantity;
        continue;
      }
      qty := qty + positions[i].netQuantity;
    }
    assert positions[..|positions|] == positions;
    forall price ensures FuturesUnrealizedPnl(snap, price) == price * qty - value {
      FuturesPnlIsAffine(positions, price);
    }
  }

  lemma {:induction false} FuturesPnlIsAffine(positions: seq<FuturesPosition>, price: int)
    ensures FuturesPnl(positions, price) == price * UnsettledQuantity(positions) - FrozenValue(positions)
  {
    if positions != [] {
      FuturesPnlIsAffine(positions[..|positions| - 1], price);
    }
  }

  // ── IM dominates MM ──────────────────────────────────────────────────────

  lemma TruncDivNonneg(x: int, d: int)
    requires x >= 0 && d > 0
    ensures TruncDiv(x, d) == x / d
  {
  }

  /**
   The stress of a leg is one floor, not two: lifting the price to WAD and scaling the
   loss back down cancels exactly.
   */
  lemma StressIsOneFloor(delta: int, shock: int, price: int, tokenDecimals: TokenDecimals)
    requires shock >= 0 && price >= 0
    ensures Abs(delta) * shock * price >= 0
    ensures StressLoss(delta, shock, price, tokenDecimals) == (Abs(delta) * shock * price) / (WAD * WAD)
  {
    var l := Pow10(18 - tokenDecimals);
    var a := Abs(delta) * shock;
    MulOrder(0, Abs(delta), shock);
    MulOrder(0, a, price);
    assert a * (price * l) == (a * price) * l;
    MulOrder(0, a * price, l);
    NestedFloor(a * price, l, WAD * WAD);
    var n := (a * price) * l;
    DivMonotone(0, n, WAD * WAD);
    assert 0 / (WAD * WAD) == 0;
  }

  lemma NoShock(snap: AccountSnapshot, params: MMParams, price: int)
    requires price >= 0
    ensures WorstLegStressLoss(snap, params, 0, price) == 0
  {
    var buy, sell := NetDeltaWad(snap, params) + BuyDeltaWad(snap, params),
      NetDeltaWad(snap, params) - SellDeltaWad(snap, params);
    StressIsOneFloor(buy, 0, price, params.tokenDecimals);
    StressIsOneFloor(sell, 0, price, params.tokenDecimals);
    assert Abs(buy) * 0 * price == 0 && Abs(sell) * 0 * price == 0;
  }

  lemma StressGrowsWithShock(delta: int, shock: int, shock': int, price: int, tokenDecimals: TokenDecimals)
    requires 0 <= shock <= shock' && price >= 0
    ensures StressLoss(delta, shock, price, tokenDecimals) <= StressLoss(delta, shock', price, tokenDecimals)
  {
    StressIsOneFloor(delta, shock, price, tokenDecimals);
    StressIsOneFloor(delta, shock', price, tokenDecimals);
    MulOrder(shock, shock', Abs(delta));
    MulOrder(Abs(delta) * shock, Abs(delta) * shock', price);
    DivMonotone(Abs(delta) * shock * price, Abs(delta) * shock' * price, WAD * WAD);
  }

  /** With the smaller MM shock, the maintenance requirement never exceeds the initial one. */
  lemma MmNeverExceedsIm(snap: AccountSnapshot, params: MMParams, price: int)
    requires 0 <= params.mmSpotShock <= params.imSpotShock && price >= 0
    ensures Required(snap, params, price, MM) <= Required(snap, params, price, IM)
  {
    var netDelta := NetDeltaWad(snap, params);
    StressGrowsWithShock(netDelta + BuyDeltaWad(snap, params), params.mmSpotShock, params.imSpotShock, price,
                         params.tokenDecimals);
    StressGrowsWithShock(netDelta - SellDeltaWad(snap, params), params.mmSpotShock, params.imSpotShock, price,
                         params.tokenDecimals);
  }
}
