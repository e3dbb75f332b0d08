/**
 What the worse-leg stress and the clamped fill loss are for: the requirement charged
 while orders rest already covers the account after they fill.
 */
module OrderFills {
  import opened Arithmetic
  import opened Margin
  import opened MarginShape
  import opened Sides

  /** Add a fill to the first unsettled leg of that expiry, or open one. */
  function AddToLeg(positions: seq<FuturesPosition>, expirationAt: int, quantity: int,
                    entryValue: int): seq<FuturesPosition> {
    if positions == [] then [FuturesPosition(expirationAt, quantity, entryValue, 0)]
    else
      var last := positions[|positions| - 1];
      var rest := positions[..|positions| - 1];
      if last.expirationAt == expirationAt && last.settlementPrice == 0 then
        rest + [FuturesPosition(expirationAt, last.netQuantity + quantity, last.netEntryValue + entryValue, 0)]
      else
        AddToLeg(rest, expirationAt, quantity, entryValue) + [last]
  }

  function TakeFrom(orders: RestingOrders, side: Side, delta: int, value: int): RestingOrders {
    if side == Buy then orders.(buyDelta := orders.buyDelta - delta, buyValue := orders.buyValue - value)
    else orders.(sellDelta := orders.sellDelta - delta, sellValue := orders.sellValue - value)
  }

  /** `contracts` resting futures contracts of one side, worth `value` at their limits, have filled. */
  function Filled(snap: AccountSnapshot, params: MMParams, side: Side, expirationAt: int, contracts: int,
                  value: int): AccountSnapshot {
    snap.(futures := FuturesBook(
      AddToLeg(snap.futures.positions, expirationAt, side.Signed(contracts), side.Signed(value)),
      TakeFrom(snap.futures.orders, side, contracts * params.TokenScale(), value)))
  }

  function RestingDelta(orders: RestingOrders, side: Side): int {
    if side == Buy then orders.buyDelta else orders.sellDelta
  }

  function RestingValue(orders: RestingOrders, side: Side): int {
    if side == Buy then orders.buyValue else orders.sellValue
  }

  /** The loss a fill marks at once, before clamping. */
  function RawFillLoss(side: Side, contracts: int, value: int, price: int): int {
    side.Signed(value - price * contracts)
  }

  ghost predicate CanFill(snap: AccountSnapshot, params: MMParams, side: Side, contracts: int) {
    && WellFormed(snap, params)
    && 0 <= contracts
    && contracts * params.TokenScale() <= RestingDelta(snap.futures.orders, side)
  }

  /** The same loss for what stays on the side. */
  function RawRestLoss(snap: AccountSnapshot, params: MMParams, side: Side, contracts: int, value: int,
                       price: int): int {
    var rest := RestingDelta(snap.futures.orders, side) - contracts * params.TokenScale();
    side.Signed(RestingValue(snap.futures.orders, side) - value - TruncDiv(price * rest, params.TokenScale()))
  }

  /** Both losses, or both gains. */
  predicate SameSide(x: int, y: int) {
    (x >= 0 && y >= 0) || (x <= 0 && y <= 0)
  }

  /** Filled part and rest are both under water, or neither is. */
  predicate FillsOneSide(snap: AccountSnapshot, params: MMParams, side: Side, contracts: int, value: int, price: int) {
    SameSide(RawFillLoss(side, contracts, value, price), RawRestLoss(snap, params, side, contracts, value, price))
  }

  // ── Position side ────────────────────────────────────────────────────────

  lemma LastLeg(rest: seq<FuturesPosition>, last: FuturesPosition, price: int)
    ensures UnsettledQuantity(rest + [last]) == UnsettledQuantity(rest) +
            (if last.settlementPrice != 0 then 0 else last.netQuantity)
    ensures FuturesPnl(rest + [last], price) == FuturesPnl(rest, price) +
            (last.Mark(price) * last.netQuantity - last.netEntryValue)
  {
    assert (rest + [last])[..|rest|] == rest;
  }

  lemma {:induction false} AddToLegIsAdditive(positions: seq<FuturesPosition>, expirationAt: int, quantity: int,
                                              entryValue: int, price: int)
    ensures UnsettledQuantity(AddToLeg(positions, expirationAt, quantity, entryValue))
            == UnsettledQuantity(positions) + quantity
    ensures FuturesPnl(AddToLeg(positions, expirationAt, quantity, entryValue), price)
            == FuturesPnl(positions, price) + price * quantity - entryValue
  {
    var after := AddToLeg(positions, expirationAt, quantity, entryValue);
    if positions == [] {
      LastLeg([], FuturesPosition(expirationAt, quantity, entryValue, 0), price);
      assert [] + after == after;
    } else {
      var rest := positions[..|positions| - 1];
      var last := positions[|positions| - 1];
      AddToLegIsAdditive(rest, expirationAt, quantity, entryValue, price);
      if last.expirationAt == expirationAt && last.settlementPrice == 0 {
        MulSum(last.netQuantity, quantity, price);
        LastLeg(rest, FuturesPosition(expirationAt, last.netQuantity + quantity, last.netEntryValue + entryValue, 0),
                price);
      } else {
        LastLeg(AddToLeg(rest, expirationAt, quantity, entryValue), last, price);
      }
    }
  }

  lemma ContractIsWad(params: MMParams, contracts: int)
    ensures contracts * params.TokenScale() * params.WadLift() == contracts * WAD
  {
    PowersAdd(params.tokenDecimals, 18 - params.tokenDecimals);
    Pow18IsWad();
    MulAssoc(contracts, params.TokenScale(), params.WadLift());
  }

  lemma StressGrowsWithDelta(delta: int, delta': int, shock: int, price: int, tokenDecimals: TokenDecimals)
    requires Abs(delta) <= Abs(delta') && shock >= 0 && price >= 0
    ensures StressLoss(delta, shock, price, tokenDecimals) <= StressLoss(delta', shock, price, tokenDecimals)
  {
    StressIsOneFloor(delta, shock, price, tokenDecimals);
    StressIsOneFloor(delta', shock, price, tokenDecimals);
    MulOrder(Abs(delta), Abs(delta'), shock);
    MulOrder(Abs(delta) * shock, Abs(delta') * shock, price);
    DivMonotone(Abs(delta) * shock * price, Abs(delta') * shock * price, WAD * WAD);
  }

  lemma StressWithin(lo: int, x: int, hi: int, shock: int, price: int, tokenDecimals: TokenDecimals)
    requires lo <= x <= hi && shock >= 0 && price >= 0
    ensures StressLoss(x, shock, price, tokenDecimals)
            <= Max(StressLoss(lo, shock, price, tokenDecimals), StressLoss(hi, shock, price, tokenDecimals))
  {
    if Abs(x) <= Abs(hi) {
      StressGrowsWithDelta(x, hi, shock, price, tokenDecimals);
    } else {
      StressGrowsWithDelta(x, lo, shock, price, tokenDecimals);
    }
  }

  /** Both legs after the fill lie between the two legs before it. */
  lemma FilledLegs(snap: AccountSnapshot, params: MMParams, side: Side, expirationAt: int, contracts: int, value: int)
    requires CanFill(snap, params, side, contracts)
    ensures var after := Filled(snap, params, side, expirationAt, contracts, value);
            var lo, hi := NetDeltaWad(snap, params) - SellDeltaWad(snap, params),
              NetDeltaWad(snap, params) + BuyDeltaWad(snap, params);
            && lo <= NetDeltaWad(after, params) + BuyDeltaWad(after, params) <= hi
            && lo <= NetDeltaWad(after, params) - SellDeltaWad(after, params) <= hi
  {
    var after := Filled(snap, params, side, expirationAt, contracts, value);
    AddToLegIsAdditive(snap.futures.positions, expirationAt, side.Signed(contracts), side.Signed(value), 0);
    var filled := contracts * WAD;
    assert NetDeltaWad(after, params) == NetDeltaWad(snap, params) + side.Signed(filled);
    LiftedDeltas(snap, params, side, expirationAt, contracts, value);
    MulOrder(0, contracts, WAD);
  }

  lemma LiftDifference(resting: int, contracts: int, params: MMParams)
    requires contracts * params.TokenScale() <= resting
    ensures (resting - contracts * params.TokenScale()) * params.WadLift()
            == resting * params.WadLift() - contracts * WAD
    ensures (resting - contracts * params.TokenScale()) * params.WadLift() >= 0
  {
    ContractIsWad(params, contracts);
    var taken, lift := contracts * params.TokenScale(), params.WadLift();
    MulSum(resting, taken, lift);
    MulOrder(0, resting - taken, lift);
  }

  lemma LiftedDeltas(snap: AccountSnapshot, params: MMParams, side: Side, expirationAt: int, contracts: int, value: int)
    requires CanFill(snap, params, side, contracts)
    ensures var after := Filled(snap, params, side, expirationAt, contracts, value);
            var filled := contracts * WAD;
            && BuyDeltaWad(after, params) == BuyDeltaWad(snap, params) - (if side == Buy then filled else 0)
            && SellDeltaWad(after, params) == SellDeltaWad(snap, params) - (if side == Sell then filled else 0)
            && BuyDeltaWad(after, params) >= 0 && SellDeltaWad(after, params) >= 0
  {
    var buy, sell := snap.perp.orders.buyDelta + snap.futures.orders.buyDelta,
      snap.perp.orders.sellDelta + snap.futures.orders.sellDelta;
    MulOrder(0, buy, params.WadLift());
    MulOrder(0, sell, params.WadLift());
    LiftDifference(if side == Buy then buy else sell, contracts, params);
  }

  /** The stress term covers a fill of either side, at any price and either shock. */
  lemma FillingNeverRaisesStress(snap: AccountSnapshot, params: MMParams, side: Side, expirationAt: int,
                                 contracts: int, value: int, price: int, requirement: MarginRequirement)
    requires CanFill(snap, params, side, contracts) && price >= 0
    ensures WorstLegStressLoss(Filled(snap, params, side, expirationAt, contracts, value), params,
                               params.Shock(requirement), price)
         <= WorstLegStressLoss(snap, params, params.Shock(requirement), price)
  {
    hide NetDeltaWad, BuyDeltaWad, SellDeltaWad, StressLoss, Filled;
    var after := Filled(snap, params, side, expirationAt, contracts, value);
    var lo, hi := NetDeltaWad(snap, params) - SellDeltaWad(snap, params),
      NetDeltaWad(snap, params) + BuyDeltaWad(snap, params);
    FilledLegs(snap, params, side, expirationAt, contracts, value);
    StressWithin(lo, NetDeltaWad(after, params) + BuyDeltaWad(after, params), hi, params.Shock(requirement), price,
                 params.tokenDecimals);
    StressWithin(lo, NetDeltaWad(after, params) - SellDeltaWad(after, params), hi, params.Shock(requirement), price,
                 params.tokenDecimals);
  }

  datatype Fill = Fill(side: Side, expirationAt: int, contracts: int, value: int)

  function FilledAll(snap: AccountSnapshot, params: MMParams, fills: seq<Fill>): AccountSnapshot {
    if fills == [] then snap
    else
      var last := fills[|fills| - 1];
      Filled(FilledAll(snap, params, fills[..|fills| - 1]), params, last.side, last.expirationAt, last.contracts,
             last.value)
  }

  /** Each fill takes no more than rests when its turn comes. */
  ghost predicate CanFillAll(snap: AccountSnapshot, params: MMParams, fills: seq<Fill>) {
    fills != [] ==>
      var init, last := fills[..|fills| - 1], fills[|fills| - 1];
      CanFillAll(snap, params, init) && CanFill(FilledAll(snap, params, init), params, last.side, last.contracts)
  }

  /** Whatever subset of the orders fills, on both sides and across expiries, the stress is covered. */
  lemma {:induction false} FillsNeverRaiseStress(snap: AccountSnapshot, params: MMParams, fills: seq<Fill>, price: int,
                                                 requirement: MarginRequirement)
    requires CanFillAll(snap, params, fills) && price >= 0
    ensures WorstLegStressLoss(FilledAll(snap, params, fills), params, params.Shock(requirement), price)
         <= WorstLegStressLoss(snap, params, params.Shock(requirement), price)
  {
    if fills != [] {
      hide WorstLegStressLoss, Filled, CanFill;
      var init, last := fills[..|fills| - 1], fills[|fills| - 1];
      FillsNeverRaiseStress(snap, params, init, price, requirement);
      FillingNeverRaisesStress(FilledAll(snap, params, init), params, last.side, last.expirationAt, last.contracts,
                               last.value, price, requirement);
    }
  }

  // ── Loss side ────────────────────────────────────────────────────────────

  lemma MarkSplits(delta: int, contracts: int, scale: int, price: int)
    requires scale > 0 && price >= 0 && 0 <= contracts && contracts * scale <= delta
    ensures TruncDiv(price * delta, scale) == price * contracts + TruncDiv(price * (delta - contracts * scale), scale)
  {
    var taken := contracts * scale;
    MulOrder(0, contracts, scale);
    MulOrder(0, delta - taken, price);
    MulOrder(0, delta, price);
    MulSum(delta, taken, price);
    MulAssoc(price, contracts, scale);
    FloorOfSum(price * contracts, price * (delta - taken), scale);
    TruncDivNonneg(price * delta, scale);
    TruncDivNonneg(price * (delta - taken), scale);
  }

  lemma VenueFillLossDrops(orders: RestingOrders, side: Side, taken: int, value: int, filledMark: int, price: int,
                           tokenDecimals: TokenDecimals)
    requires var scale := Pow10(tokenDecimals);
             TruncDiv(price * RestingDelta(orders, side), scale)
               == filledMark + TruncDiv(price * (RestingDelta(orders, side) - taken), scale)
    ensures var x := side.Signed(value - filledMark);
            var y := side.Signed(RestingValue(orders, side) - value
                                 - TruncDiv(price * (RestingDelta(orders, side) - taken), Pow10(tokenDecimals)));
            var before, after := VenueFillLoss(orders, price, tokenDecimals),
              VenueFillLoss(TakeFrom(orders, side, taken, value), price, tokenDecimals);
            && before <= after + Max(0, x)
            && (before == after + Max(0, x) <==> SameSide(x, y))
  {
    hide TruncDiv;
  }

  /**
   A fill takes at most its own clamped loss out of the fill loss, and exactly that if and
   only if filled part and rest are on one side of break-even.
   */
  lemma FillLossDrops(snap: AccountSnapshot, params: MMParams, side: Side, expirationAt: int, contracts: int,
                      value: int, price: int)
    requires CanFill(snap, params, side, contracts) && price >= 0
    ensures var before, after := FillLoss(snap, params, price),
            FillLoss(Filled(snap, params, side, expirationAt, contracts, value), params, price);
            var filled := Max(0, RawFillLoss(side, contracts, value, price));
            && before <= after + filled
            && (before == after + filled <==> FillsOneSide(snap, params, side, contracts, value, price))
  {
    hide VenueFillLoss, TruncDiv, AddToLeg, SameSide;
    MarkSplits(RestingDelta(snap.futures.orders, side), contracts, params.TokenScale(), price);
    VenueFillLossDrops(snap.futures.orders, side, contracts * params.TokenScale(), value, price * contracts, price,
                       params.tokenDecimals);
  }

  /** The fill turns resting risk into PnL; the clamps of both requirements are subadditive. */
  lemma LossGrowsByFill(snap: AccountSnapshot, params: MMParams, side: Side, expirationAt: int, contracts: int,
                        value: int, price: int, requirement: MarginRequirement)
    ensures UnrealizedLoss(Filled(snap, params, side, expirationAt, contracts, value), params, price, requirement)
         <= UnrealizedLoss(snap, params, price, requirement) + Max(0, RawFillLoss(side, contracts, value, price))
  {
    hide FuturesPnl, TruncDiv, AddToLeg;
    var after := Filled(snap, params, side, expirationAt, contracts, value);
    AddToLegIsAdditive(snap.futures.positions, expirationAt, side.Signed(contracts), side.Signed(value), price);
    assert price * -contracts == -(price * contracts);
    assert PerpUnrealizedPnl(after, params, price) == PerpUnrealizedPnl(snap, params, price);
    assert FuturesUnrealizedPnl(after, price) == FuturesUnrealizedPnl(snap, price)
           - RawFillLoss(side, contracts, value, price);
  }

  /**
   Filling resting futures orders into an unsettled leg never raises the requirement at
   the same price, MM or IM, when filled and remaining part are on the same side of
   break-even. Filling a whole side is one such case, a side resting at one limit price
   another. `SafeForEveryAccountExactly` says that no weaker condition will do.
   */
  lemma FillingNeverRaises(snap: AccountSnapshot, params: MMParams, side: Side, expirationAt: int, contracts: int,
                           value: int, price: int, requirement: MarginRequirement)
    requires CanFill(snap, params, side, contracts) && price >= 0
    requires FillsOneSide(snap, params, side, contracts, value, price)
    ensures Required(Filled(snap, params, side, expirationAt, contracts, value), params, price, requirement)
            <= Required(snap, params, price, requirement)
  {
    hide WorstLegStressLoss, FillLoss, UnrealizedLoss;
    FillingNeverRaisesStress(snap, params, side, expirationAt, contracts, value, price, requirement);
    FillLossDrops(snap, params, side, expirationAt, contracts, value, price);
    LossGrowsByFill(snap, params, side, expirationAt, contracts, value, price, requirement);
  }

  /** The fill raises neither requirement of this account. */
  ghost predicate Covers(snap: AccountSnapshot, params: MMParams, side: Side, expirationAt: int, contracts: int,
                         value: int, price: int) {
    forall requirement: MarginRequirement ::
      Required(Filled(snap, params, side, expirationAt, contracts, value), params, price, requirement)
        <= Required(snap, params, price, requirement)
  }

  ghost predicate RestsSameBook(other: AccountSnapshot, p: MMParams, snap: AccountSnapshot, params: MMParams) {
    && other.futures.orders == snap.futures.orders && p.tokenDecimals == params.tokenDecimals
    && WellFormed(other, p)
  }

  /** The book alone: no position, no perp orders, no shock. */
  function BookOnly(snap: AccountSnapshot): AccountSnapshot {
    snap.(perp := PerpPosition(0, 0, RestingOrders(0, 0, 0, 0), 0), futures := snap.futures.(positions := []))
  }

  function Unshocked(params: MMParams): MMParams {
    params.(imSpotShock := 0, mmSpotShock := 0)
  }

  lemma BookAloneRequires(snap: AccountSnapshot, params: MMParams, price: int)
    requires price >= 0 && params.mmSpotShock == 0 && snap.perp == PerpPosition(0, 0, RestingOrders(0, 0, 0, 0), 0)
    ensures Required(snap, params, price, MM) == FillLoss(snap, params, price) +
            Max(0, -FuturesUnrealizedPnl(snap, price))
  {
    hide WorstLegStressLoss, FillLoss, FuturesUnrealizedPnl;
    NoShock(snap, params, price);
  }

  /** The book alone is raised by a fill exactly when the fill straddles break-even. */
  lemma BookAloneIsCoveredExactly(snap: AccountSnapshot, params: MMParams, side: Side, expirationAt: int,
                                  contracts: int,
                                  value: int, price: int)
    requires CanFill(snap, params, side, contracts) && price >= 0
    ensures var book, flat := BookOnly(snap), Unshocked(params);
            && CanFill(book, flat, side, contracts)
            && (Required(Filled(book, flat, side, expirationAt, contracts, value), flat, price, MM)
                <= Required(book, flat, price, MM)
                <==> FillsOneSide(snap, params, side, contracts, value, price))
  {
    hide Required, FillLoss, FuturesUnrealizedPnl, AddToLeg, TakeFrom, SameSide, RawFillLoss;
    var book, flat := BookOnly(snap), Unshocked(params);
    FillLossDrops(book, flat, side, expirationAt, contracts, value, price);
    BookAloneRequires(book, flat, price);
    BookAloneRequires(Filled(book, flat, side, expirationAt, contracts, value), flat, price);
    FirstLegPnl(book, flat, side, expirationAt, contracts, value, price);
  }

  /** Without positions, the fill's own leg is all the PnL there is. */
  lemma FirstLegPnl(snap: AccountSnapshot, params: MMParams, side: Side, expirationAt: int, contracts: int, value: int,
                    price: int)
    requires snap.futures.positions == []
    ensures FuturesUnrealizedPnl(snap, price) == 0
    ensures FuturesUnrealizedPnl(Filled(snap, params, side, expirationAt, contracts, value), price)
         == -RawFillLoss(side, contracts, value, price)
  {
    assert FuturesPnl([], price) == 0;
    hide FuturesPnl, AddToLeg, TakeFrom;
    AddToLegIsAdditive([], expirationAt, side.Signed(contracts), side.Signed(value), price);
    assert price * -contracts == -(price * contracts);
  }

  /**
   The condition is exact: a fill raises no requirement of any account that rests this book,
   at this price, if and only if it does not straddle break-even.
   */
  lemma SafeForEveryAccountExactly(snap: AccountSnapshot, params: MMParams, side: Side, expirationAt: int,
                                   contracts: int, value: int, price: int)
    requires CanFill(snap, params, side, contracts) && price >= 0
    ensures FillsOneSide(snap, params, side, contracts, value, price)
       <==> forall other: AccountSnapshot, p: MMParams :: RestsSameBook(other, p, snap, params) ==>
              Covers(other, p, side, expirationAt, contracts, value, price)
  {
    hide Required, Filled;
    BookAloneIsCoveredExactly(snap, params, side, expirationAt, contracts, value, price);
    if FillsOneSide(snap, params, side, contracts, value, price) {
      forall other: AccountSnapshot, p: MMParams | RestsSameBook(other, p, snap, params)
        ensures Covers(other, p, side, expirationAt, contracts, value, price)
      {
        forall requirement: MarginRequirement
          ensures Required(Filled(other, p, side, expirationAt, contracts, value), p, price, requirement)
                  <= Required(other, p, price, requirement)
        {
          FillingNeverRaises(other, p, side, expirationAt, contracts, value, price, requirement);
        }
      }
    }
    var book, flat := BookOnly(snap), Unshocked(params);
    assert RestsSameBook(book, flat, snap, params);
    assert Covers(book, flat, side, expirationAt, contracts, value, price) ==>
             Required(Filled(book, flat, side, expirationAt, contracts, value), flat, price, MM)
               <= Required(book, flat, price, MM);
  }

  /** A whole side of whole contracts. */
  lemma FillingAWholeSide(snap: AccountSnapshot, params: MMParams, side: Side, expirationAt: int, contracts: int,
                          price: int, requirement: MarginRequirement)
    requires WellFormed(snap, params) && price >= 0 && contracts >= 0
    requires RestingDelta(snap.futures.orders, side) == contracts * params.TokenScale()
    ensures var after := Filled(snap, params, side, expirationAt, contracts, RestingValue(snap.futures.orders, side));
            && Required(after, params, price, requirement) <= Required(snap, params, price, requirement)
            && WellFormed(after, params) && RestingDelta(after.futures.orders, side)
               == RestingValue(after.futures.orders, side) == 0
            && RestingDelta(after.futures.orders, if side == Buy then Sell else Buy)
               == RestingDelta(snap.futures.orders, if side == Buy then Sell else Buy)
  {
    hide Required, AddToLeg, TruncDiv;
    ExactDiv(0, params.TokenScale());
    assert price * 0 == 0 && 0 * params.TokenScale() == 0;
    FillingNeverRaises(snap, params, side, expirationAt, contracts, RestingValue(snap.futures.orders, side), price,
                       requirement);
  }

  /** Both sides, each into a leg of its own choosing. */
  lemma FillingBothSides(snap: AccountSnapshot, params: MMParams, buyExpiry: int, bought: int, sellExpiry: int,
                         sold: int, price: int, requirement: MarginRequirement)
    requires WellFormed(snap, params) && price >= 0 && bought >= 0 && sold >= 0
    requires snap.futures.orders.buyDelta == bought * params.TokenScale() &&
             snap.futures.orders.sellDelta == sold * params.TokenScale()
    ensures var afterBuys := Filled(snap, params, Buy, buyExpiry, bought, snap.futures.orders.buyValue);
            var after := Filled(afterBuys, params, Sell, sellExpiry, sold, snap.futures.orders.sellValue);
            Required(after, params, price, requirement) <= Required(snap, params, price, requirement)
  {
    hide Required;
    FillingAWholeSide(snap, params, Buy, buyExpiry, bought, price, requirement);
    FillingAWholeSide(Filled(snap, params, Buy, buyExpiry, bought, snap.futures.orders.buyValue), params, Sell,
                      sellExpiry, sold, price, requirement);
  }

  /** Any part of a side that rests at a single limit price. */
  lemma FillingAtOnePrice(snap: AccountSnapshot, params: MMParams, side: Side, expirationAt: int, resting: int,
                          contracts: int, limit: int, price: int, requirement: MarginRequirement)
    requires WellFormed(snap, params) && price >= 0 && 0 <= contracts <= resting
    requires RestingDelta(snap.futures.orders, side) == resting * params.TokenScale()
    requires RestingValue(snap.futures.orders, side) == resting * limit
    ensures Required(Filled(snap, params, side, expirationAt, contracts, contracts * limit), params, price,
                     requirement) <= Required(snap, params, price, requirement)
  {
    hide Required, TruncDiv;
    var scale, rest := params.TokenScale(), resting - contracts;
    MulOrder(contracts, resting, scale);
    MulSum(resting, contracts, scale);
    MulSum(resting, contracts, limit);
    MulAssoc(price, rest, scale);
    ExactDiv(price * rest, scale);
    MulSum(limit, price, contracts);
    MulSum(limit, price, rest);
    SameSign(limit - price, contracts, rest);
    FillingNeverRaises(snap, params, side, expirationAt, contracts, contracts * limit, price, requirement);
  }

  lemma SameSign(k: int, x: int, y: int)
    requires x >= 0 && y >= 0
    ensures k >= 0 ==> k * x >= 0 && k * y >= 0
    ensures k <= 0 ==> k * x <= 0 && k * y <= 0
  {
  }

  /** One bid at 150 and one at 50 around a mark of 100, in whole contracts of token scale one. */
  ghost function MixedBids(): (AccountSnapshot, MMParams) {
    (AccountSnapshot("a", 0, PerpPosition(0, 0, RestingOrders(0, 0, 0, 0), 0),
                     FuturesBook([], RestingOrders(2, 0, 200, 0))),
     MMParams(0, 0, 0, 0))
  }

  /**
   The clamp is on the side's total, so a partial fill across limit prices can raise the
   requirement: here the losing bid fills alone and a loss of 50 appears that the
   profitable bid had been hiding.
   */
  lemma MixedPriceFillCanRaise()
    ensures var (snap, params) := MixedBids();
            && CanFill(snap, params, Buy, 1)
            && Required(snap, params, 100, MM) == 0
            && Required(Filled(snap, params, Buy, 7, 1, 150), params, 100, MM) == 50
  {
    var (snap, params) := MixedBids();
    MixedBidsFilled();
    RequiredAtUnitScale(snap, params, 100);
    RequiredAtUnitScale(Filled(snap, params, Buy, 7, 1, 150), params, 100);
    hide Required, FuturesPnl, Filled, CanFill;
  }

  lemma MixedBidsFilled()
    ensures var (snap, params) := MixedBids();
            && CanFill(snap, params, Buy, 1)
            && Filled(snap, params, Buy, 7, 1, 150)
            == snap.(futures := FuturesBook([FuturesPosition(7, 1, 150, 0)], RestingOrders(1, 0, 50, 0)))
            && FuturesPnl([], 100) == 0 && FuturesPnl([FuturesPosition(7, 1, 150, 0)], 100) == -50
  {
    AddToLegIsAdditive([], 7, 1, 150, 100);
    assert FuturesPnl([], 100) == 0;
  }

  lemma RequiredAtUnitScale(snap: AccountSnapshot, params: MMParams, price: int)
    requires price >= 0 && params.tokenDecimals == 0 && params.mmSpotShock == 0 &&
             snap.perp == PerpPosition(0, 0, RestingOrders(0, 0, 0, 0), 0)
    requires snap.futures.orders.buyDelta >= 0 && snap.futures.orders.sellDelta == snap.futures.orders.sellValue == 0
    ensures Required(snap, params, price, MM) ==
              Max(0, snap.futures.orders.buyValue - price * snap.futures.orders.buyDelta) +
                Max(0, -FuturesPnl(snap.futures.positions, price))
  {
    hide WorstLegStressLoss;
    NoShock(snap, params, price);
    MulOrder(0, snap.futures.orders.buyDelta, price);
    assert price * 0 == 0;
  }
}
