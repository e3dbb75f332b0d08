/**
 What the solved thresholds mean: between them the account stays solvent up to the
 rounding slack, the exact condition under which a whole-contract account gets a
 threshold, and how the liquidation and alert thresholds nest.
 */
module ThresholdGuarantees {
  import opened Arithmetic
  import opened Margin
  import opened MarginShape
  import opened Optional
  import opened Thresholds

  lemma BreakevensAreNonnegative(orders: RestingOrders, tokenDecimals: TokenDecimals)
    requires UnsignedOrders(orders)
    ensures forall k :: k in FillLossBreakevens(orders, tokenDecimals) ==> k >= 0
  {
    var scale := Pow10(tokenDecimals);
    MulOrder(0, orders.buyValue, scale);
    MulOrder(0, orders.sellValue, scale);
    if orders.buyDelta > 0 { QuotientIsNonnegative(orders.buyValue * scale, orders.buyDelta); }
    if orders.sellDelta > 0 { QuotientIsNonnegative(orders.sellValue * scale, orders.sellDelta); }
    hide TruncDiv;
  }

  lemma QuotientIsNonnegative(x: int, d: int)
    requires x >= 0 && d > 0
    ensures TruncDiv(x, d) >= 0
  {
    DivMonotone(0, x, d);
  }

  /** The search covers every price from 1, and spot, up to a cap above spot. */
  lemma SearchRange(snap: AccountSnapshot, params: MMParams, currentPrice: int, requirement: MarginRequirement)
    requires WellFormed(snap, params) && currentPrice >= 0
    ensures 0 <= Floor(snap, params, currentPrice, requirement) <= 1
    ensures Floor(snap, params, currentPrice, requirement) <= currentPrice
            < Cap(snap, params, currentPrice, requirement)
  {
    BreakevensAreNonnegative(snap.perp.orders, params.tokenDecimals);
    BreakevensAreNonnegative(snap.futures.orders, params.tokenDecimals);
    var kinks := Kinks(snap, params, currentPrice, requirement);
    PnlBreakevensArePositive(snap, params, requirement);
    hide UnrealizedPnlBreakevens, FillLossBreakevens;
    var all := [1] + kinks;
    assert 1 in all && currentPrice in all;
    assert Least(all) in all;
  }

  /** Both requirements are searched down to the same floor. */
  lemma SameFloor(snap: AccountSnapshot, params: MMParams, currentPrice: int)
    requires WellFormed(snap, params) && currentPrice >= 0
    ensures Floor(snap, params, currentPrice, IM) == Floor(snap, params, currentPrice, MM)
  {
    PnlBreakevensArePositive(snap, params, IM);
    PnlBreakevensArePositive(snap, params, MM);
    hide UnrealizedPnlBreakevens, FillLossBreakevens;
    var fills := FillLossBreakevens(snap.perp.orders, params.tokenDecimals) +
                 FillLossBreakevens(snap.futures.orders, params.tokenDecimals) + [currentPrice];
    LeastIgnoresPositive(UnrealizedPnlBreakevens(snap, params, IM), fills);
    LeastIgnoresPositive(UnrealizedPnlBreakevens(snap, params, MM), fills);
    assert Kinks(snap, params, currentPrice, IM) == UnrealizedPnlBreakevens(snap, params, IM) + fills;
    assert Kinks(snap, params, currentPrice, MM) == UnrealizedPnlBreakevens(snap, params, MM) + fills;
  }

  lemma PnlBreakevensArePositive(snap: AccountSnapshot, params: MMParams, requirement: MarginRequirement)
    ensures forall k :: k in UnrealizedPnlBreakevens(snap, params, requirement) ==> k > 0
  {
  }

  lemma LeastIgnoresPositive(positive: seq<int>, rest: seq<int>)
    requires forall k :: k in positive ==> k > 0
    ensures SearchFloor(positive + rest) == SearchFloor(rest)
  {
    var all, few := [1] + (positive + rest), [1] + rest;
    assert Least(all) in all && Least(few) in few;
    assert forall k :: k in few ==> k in all;
    assert 1 in few;
  }

  // ── Roots of a function with one peak ────────────────────────────────────

  /** Between two prices f falls below neither end by more than the slack. */
  ghost predicate Peaked(f: int -> int, slack: int) {
    forall a, c, b :: 0 <= a <= c <= b ==> f(c) >= f(a) - slack || f(c) >= f(b) - slack
  }

  lemma SurplusIsPeaked(snap: AccountSnapshot, params: MMParams)
    requires WellFormed(snap, params)
    ensures Peaked(MmSurplusAt(snap, params), Slack(snap, params))
  {
    hide Required, WellFormed, Slack;
    var f := MmSurplusAt(snap, params);
    forall a, c, b | 0 <= a <= c <= b ensures f(c) >= f(a) - Slack(snap, params) || f(c) >= f(b) - Slack(snap, params) {
      RequiredIsQuasiConvex(snap, params, MM, a, c, b,
                            Max(Required(snap, params, a, MM), Required(snap, params, b, MM)));
    }
  }

  lemma NoSlack(snap: AccountSnapshot, params: MMParams)
    requires WholeContract(snap, params)
    ensures Slack(snap, params) == 0 && WellFormed(snap, params)
  {
  }

  ghost predicate Outside(price: int, down: Option<int>, up: Option<int>) {
    (down.Some? && price < down.value) || (up.Some? && price > up.value)
  }

  lemma NegativeIsOutside(f: int -> int, slack: int, boundaries: seq<int>, floor: int, cap: int, spot: int,
                          down: Option<int>, up: Option<int>, price: int)
    requires Peaked(f, slack) && 0 <= floor <= spot < cap
    requires f(spot) >= 0
    requires price < spot ==> down.Some? || (f(spot) > 0 && f(spot - 1) >= 0)
    requires price > spot ==> up.Some? || (f(spot) > 0 && f(spot + 1) >= 0)
    requires ClosestRoots(f, boundaries, floor, cap, spot, down, up)
    requires floor <= price <= cap && f(price) < -slack && slack >= 0
    ensures Outside(price, down, up)
  {
    if price < spot {
      var end := if down.Some? then down.value else floor;
      assert down.None? ==> !Crosses(f, floor, spot);
      assert f(end) >= 0;
      assert end <= price ==> f(price) >= f(end) - slack || f(price) >= f(spot) - slack;
    } else {
      var end := if up.Some? then up.value else cap;
      assert up.None? ==> !Crosses(f, spot, cap);
      assert f(end) >= 0;
      assert price <= end ==> f(price) >= f(spot) - slack || f(price) >= f(end) - slack;
    }
  }

  lemma RootBelow(f: int -> int, floor: int, spot: int, d: int)
    requires Peaked(f, 0) && 0 <= floor <= d < spot && f(spot) > 0 && IsRoot(f, floor, spot, d)
    ensures forall p :: d <= p <= spot ==> f(p) >= 0
    ensures forall p :: floor <= p < d ==> f(p) <= 0
    ensures f(floor) <= 0
  {
    assert f(d) > 0 ==> (floor < d && f(d - 1) < 0) by {
      assert f(d + 1) >= f(d) || f(d + 1) >= f(spot);
    }
    forall p | floor <= p < d ensures f(p) <= 0 {
      assert f(d) >= f(p) || f(d) >= f(spot);
      assert f(d) > 0 ==> f(d - 1) >= f(p) || f(d - 1) >= f(spot);
    }
  }

  lemma RootAbove(f: int -> int, spot: int, cap: int, u: int)
    requires Peaked(f, 0) && 0 <= spot < u <= cap && f(spot) > 0 && IsRoot(f, spot, cap, u)
    ensures forall p :: spot <= p <= u ==> f(p) >= 0
    ensures forall p :: u < p <= cap ==> f(p) <= 0
    ensures f(cap) <= 0
  {
    assert f(u) > 0 ==> (u < cap && f(u + 1) < 0) by {
      assert f(u - 1) >= f(u) || f(u - 1) >= f(spot);
    }
    forall p | u < p <= cap ensures f(p) <= 0 {
      assert f(u) >= f(p) || f(u) >= f(spot);
      assert f(u) > 0 ==> f(u + 1) >= f(p) || f(u + 1) >= f(spot);
    }
  }

  // ── Safety between the thresholds ────────────────────────────────────────

  /**
   No price between a threshold and spot is short by more than the rounding slack, for any
   account solvent at spot. The slack is zero for whole-contract accounts.
   */
  lemma SolventBetweenThresholds(snap: AccountSnapshot, params: MMParams, currentPrice: int, down: Option<int>,
                                 up: Option<int>, price: int)
    requires WellFormed(snap, params) && currentPrice >= 0
    requires MmSurplus(snap, params, currentPrice) >= 0
    requires Closest(snap, params, currentPrice, MM, MmSurplusAt(snap, params), down, up)
    requires (down.Some? && down.value <= price <= currentPrice) || (up.Some? && currentPrice <= price <= up.value)
    ensures MmSurplus(snap, params, price) >= -Slack(snap, params)
  {
    hide Peaked, ClosestRoots, Required, Kinks, Slack, WholeContract;
    SearchRange(snap, params, currentPrice, MM);
    SurplusIsPeaked(snap, params);
    BetweenRoots(MmSurplusAt(snap, params), Slack(snap, params), Kinks(snap, params, currentPrice, MM),
                 Floor(snap, params, currentPrice, MM), Cap(snap, params, currentPrice, MM), currentPrice, down, up,
                   price);
  }

  lemma BetweenRoots(f: int -> int, slack: int, boundaries: seq<int>, floor: int, cap: int, spot: int,
                     down: Option<int>, up: Option<int>, price: int)
    requires Peaked(f, slack) && slack >= 0 && 0 <= floor <= spot < cap && f(spot) >= 0
    requires ClosestRoots(f, boundaries, floor, cap, spot, down, up)
    requires (down.Some? && down.value <= price <= spot) || (up.Some? && spot <= price <= up.value)
    ensures f(price) >= -slack
  {
    if price <= spot && down.Some? && down.value <= price {
      assert f(price) >= f(down.value) - slack || f(price) >= f(spot) - slack;
    } else {
      assert f(price) >= f(spot) - slack || f(price) >= f(up.value) - slack;
    }
  }

  /** Spot is solvent with a margin: above zero, with solvent neighbours. */
  ghost predicate ClearlySolvent(snap: AccountSnapshot, params: MMParams, currentPrice: int) {
    && MmSurplus(snap, params, currentPrice) > 0
    && MmSurplus(snap, params, currentPrice - 1) >= 0
    && MmSurplus(snap, params, currentPrice + 1) >= 0
  }

  /** Solvent at spot, and with a margin towards each side that got no threshold. */
  ghost predicate Guarded(snap: AccountSnapshot, params: MMParams, currentPrice: int, down: Option<int>,
                          up: Option<int>) {
    && MmSurplus(snap, params, currentPrice) >= 0
    && (down.Some? || (MmSurplus(snap, params, currentPrice) > 0 && MmSurplus(snap, params, currentPrice - 1) >= 0))
    && (up.Some? || (MmSurplus(snap, params, currentPrice) > 0 && MmSurplus(snap, params, currentPrice + 1) >= 0))
  }

  /**
   Every searched price whose surplus is below zero by more than the rounding slack
   lies strictly outside the solved thresholds.
   */
  lemma InsolventPricesAreOutside(snap: AccountSnapshot, params: MMParams, currentPrice: int, down: Option<int>,
                                  up: Option<int>, price: int)
    requires WellFormed(snap, params) && currentPrice >= 0
    requires Guarded(snap, params, currentPrice, down, up)
    requires Closest(snap, params, currentPrice, MM, MmSurplusAt(snap, params), down, up)
    requires Floor(snap, params, currentPrice, MM) <= price <= Cap(snap, params, currentPrice, MM)
    requires MmSurplus(snap, params, price) < -Slack(snap, params)
    ensures Outside(price, down, up)
  {
    hide Peaked, ClosestRoots, Required, Kinks, Slack, WholeContract;
    SearchRange(snap, params, currentPrice, MM);
    SurplusIsPeaked(snap, params);
    NegativeIsOutside(MmSurplusAt(snap, params), Slack(snap, params), Kinks(snap, params, currentPrice, MM),
                      Floor(snap, params, currentPrice, MM), Cap(snap, params, currentPrice, MM), currentPrice, down,
                        up, price);
  }

  // ── In terms of spot ─────────────────────────────────────────────────────

  /** The search reaches more than a thousand times spot, whatever the account. */
  lemma SearchReaches(snap: AccountSnapshot, params: MMParams, currentPrice: int, requirement: MarginRequirement)
    ensures Cap(snap, params, currentPrice, requirement) >= 1024 * currentPrice + 1
  {
    hide UnrealizedPnlBreakevens, FillLossBreakevens;
  }

  lemma FiveDoublings(m: nat)
    ensures Pow2(m + 5) == 32 * Pow2(m)
  {
    assert Pow2(m + 1) == 2 * Pow2(m) && Pow2(m + 2) == 2 * Pow2(m + 1);
    assert Pow2(m + 3) == 2 * Pow2(m + 2) && Pow2(m + 4) == 2 * Pow2(m + 3);
  }

  lemma {:induction false} TwosOutgrowTens(k: nat)
    ensures Pow2(10 * k) >= Pow10(3 * k)
  {
    if k > 0 {
      TwosOutgrowTens(k - 1);
      var m, n := 10 * (k - 1), 3 * (k - 1);
      FiveDoublings(m);
      FiveDoublings(m + 5);
      assert Pow10(n + 3) == 10 * Pow10(n + 2) && Pow10(n + 2) == 10 * Pow10(n + 1);
    }
  }

  /** No price range up to 10^76 wide is cut short by the cap on halvings. */
  lemma RealRangesAreInReach(snap: AccountSnapshot, params: MMParams, currentPrice: int, requirement: MarginRequirement)
    requires Cap(snap, params, currentPrice, requirement) <= Pow10(76)
    requires Floor(snap, params, currentPrice, requirement) >= 0
    ensures WithinReach(snap, params, currentPrice, requirement)
  {
    hide Cap, Floor;
    TwosOutgrowTens(25);
    FiveDoublings(250);
    assert Pow10(76) == 10 * Pow10(75);
  }

  /**
   A price up to 1024 times spot that is short by more than the slack is watched from
   above: an upper threshold lies strictly before it. Only spot and its neighbour need be sound.
   */
  lemma EveryRiseIsWatched(snap: AccountSnapshot, params: MMParams, currentPrice: int, down: Option<int>,
                           up: Option<int>, price: int)
    requires WellFormed(snap, params) && currentPrice >= 0
    requires MmSurplus(snap, params, currentPrice) > 0 && MmSurplus(snap, params, currentPrice + 1) >= 0
    requires Closest(snap, params, currentPrice, MM, MmSurplusAt(snap, params), down, up)
    requires currentPrice < price <= 1024 * currentPrice
    requires MmSurplus(snap, params, price) < -Slack(snap, params)
    ensures up.Some? && currentPrice < up.value < price
  {
    hide Peaked, ClosestRoots, Required, Kinks, Slack, WholeContract, Floor, Cap;
    SearchRange(snap, params, currentPrice, MM);
    SearchReaches(snap, params, currentPrice, MM);
    SurplusIsPeaked(snap, params);
    var f, kinks := MmSurplusAt(snap, params), Kinks(snap, params, currentPrice, MM);
    var floor, cap := Floor(snap, params, currentPrice, MM), Cap(snap, params, currentPrice, MM);
    NegativeIsOutside(f, Slack(snap, params), kinks, floor, cap, currentPrice, down, up, price);
    RootsEncloseSpot(f, kinks, floor, cap, currentPrice, down, up);
  }

  /** The mirror image below spot, down to the lowest price there is. */
  lemma EveryDropIsWatched(snap: AccountSnapshot, params: MMParams, currentPrice: int, down: Option<int>,
                           up: Option<int>, price: int)
    requires WellFormed(snap, params) && currentPrice >= 0
    requires MmSurplus(snap, params, currentPrice) > 0 && MmSurplus(snap, params, currentPrice - 1) >= 0
    requires Closest(snap, params, currentPrice, MM, MmSurplusAt(snap, params), down, up)
    requires 1 <= price < currentPrice
    requires MmSurplus(snap, params, price) < -Slack(snap, params)
    ensures down.Some? && price < down.value < currentPrice
  {
    hide Peaked, ClosestRoots, Required, Kinks, Slack, WholeContract, Floor, Cap;
    SearchRange(snap, params, currentPrice, MM);
    SurplusIsPeaked(snap, params);
    var f, kinks := MmSurplusAt(snap, params), Kinks(snap, params, currentPrice, MM);
    var floor, cap := Floor(snap, params, currentPrice, MM), Cap(snap, params, currentPrice, MM);
    NegativeIsOutside(f, Slack(snap, params), kinks, floor, cap, currentPrice, down, up, price);
    RootsEncloseSpot(f, kinks, floor, cap, currentPrice, down, up);
  }

  lemma RootsEncloseSpot(f: int -> int, boundaries: seq<int>, floor: int, cap: int, spot: int, down: Option<int>,
                         up: Option<int>)
    requires ClosestRoots(f, boundaries, floor, cap, spot, down, up)
    ensures (down.Some? ==> floor <= down.value < spot) && (up.Some? ==> spot < up.value <= cap)
  {
  }

  // ── Exactly when a whole-contract account gets a threshold ───────────────

  /**
   With positive surplus at spot, the lower threshold exists exactly when the search
   floor is not strictly solvent and the price one below spot is solvent; it then
   splits the prices below spot: no surplus under it, no shortfall from it to spot.
   */
  lemma LowerThresholdExactly(snap: AccountSnapshot, params: MMParams, currentPrice: int, down: Option<int>,
                              up: Option<int>)
    requires WholeContract(snap, params) && currentPrice >= 0
    requires MmSurplus(snap, params, currentPrice) > 0
    requires Closest(snap, params, currentPrice, MM, MmSurplusAt(snap, params), down, up)
    requires Floor(snap, params, currentPrice, MM) < currentPrice
    ensures down.Some? <==>
            && MmSurplus(snap, params, Floor(snap, params, currentPrice, MM)) <= 0
            && MmSurplus(snap, params, currentPrice - 1) >= 0
    ensures down.Some? ==> forall p :: Floor(snap, params, currentPrice, MM) <= p < down.value ==>
            MmSurplus(snap, params, p) <= 0
    ensures down.Some? ==> forall p :: down.value <= p <= currentPrice ==> MmSurplus(snap, params, p) >= 0
  {
    hide Peaked, ClosestRoots, Required, Kinks;
    SearchRange(snap, params, currentPrice, MM);
    SurplusIsPeaked(snap, params);
    var f, floor := MmSurplusAt(snap, params), Floor(snap, params, currentPrice, MM);
    LowerRootExactly(f, Kinks(snap, params, currentPrice, MM), floor, Cap(snap, params, currentPrice, MM),
                     currentPrice, down, up);
    assert forall p :: f(p) == MmSurplus(snap, params, p);
  }

  lemma LowerRootExactly(f: int -> int, boundaries: seq<int>, floor: int, cap: int, spot: int, down: Option<int>,
                         up: Option<int>)
    requires Peaked(f, 0) && 0 <= floor < spot < cap && f(spot) > 0
    requires ClosestRoots(f, boundaries, floor, cap, spot, down, up)
    ensures down.Some? <==> f(floor) <= 0 && f(spot - 1) >= 0
    ensures down.Some? ==> forall p :: floor <= p < down.value ==> f(p) <= 0
    ensures down.Some? ==> forall p :: down.value <= p <= spot ==> f(p) >= 0
  {
    if down.None? {
      assert !DroppedBelow(f, spot) ==> !Crosses(f, floor, spot);
    } else {
      RootBelow(f, floor, spot, down.value);
    }
  }

  /** The mirror image above spot, within the search cap. */
  lemma UpperThresholdExactly(snap: AccountSnapshot, params: MMParams, currentPrice: int, down: Option<int>,
                              up: Option<int>)
    requires WholeContract(snap, params) && currentPrice >= 0
    requires MmSurplus(snap, params, currentPrice) > 0
    requires Closest(snap, params, currentPrice, MM, MmSurplusAt(snap, params), down, up)
    ensures up.Some? <==>
            && MmSurplus(snap, params, Cap(snap, params, currentPrice, MM)) <= 0
            && MmSurplus(snap, params, currentPrice + 1) >= 0
    ensures up.Some? ==> forall p :: up.value < p <= Cap(snap, params, currentPrice, MM) ==>
            MmSurplus(snap, params, p) <= 0
    ensures up.Some? ==> forall p :: currentPrice <= p <= up.value ==> MmSurplus(snap, params, p) >= 0
  {
    hide Peaked, ClosestRoots, Required, Kinks;
    SearchRange(snap, params, currentPrice, MM);
    SurplusIsPeaked(snap, params);
    var f, cap := MmSurplusAt(snap, params), Cap(snap, params, currentPrice, MM);
    UpperRootExactly(f, Kinks(snap, params, currentPrice, MM), Floor(snap, params, currentPrice, MM), cap,
                     currentPrice, down, up);
    assert forall p :: f(p) == MmSurplus(snap, params, p);
  }

  lemma UpperRootExactly(f: int -> int, boundaries: seq<int>, floor: int, cap: int, spot: int, down: Option<int>,
                         up: Option<int>)
    requires Peaked(f, 0) && 0 <= floor <= spot < cap && f(spot) > 0
    requires ClosestRoots(f, boundaries, floor, cap, spot, down, up)
    ensures up.Some? <==> f(cap) <= 0 && f(spot + 1) >= 0
    ensures up.Some? ==> forall p :: up.value < p <= cap ==> f(p) <= 0
    ensures up.Some? ==> forall p :: spot <= p <= up.value ==> f(p) >= 0
  {
    if up.None? {
      assert !DroppedAbove(f, spot) ==> !Crosses(f, spot, cap);
    } else {
      RootAbove(f, spot, cap, up.value);
    }
  }

  /** One long contract from 100, balance 10, no shock: spot 90 is exactly the threshold. */
  ghost function OnTheThreshold(): (AccountSnapshot, MMParams) {
    var none := RestingOrders(0, 0, 0, 0);
    (AccountSnapshot("a", 10, PerpPosition(0, 0, none, 0), FuturesBook([FuturesPosition(1, 1, 100, 0)], none)),
     MMParams(0, 0, 6, 6))
  }

  /** With zero surplus at spot the root is dropped: the next tick down is insolvent and nothing watches for it. */
  lemma ZeroSurplusIsDropped(down: Option<int>, up: Option<int>)
    requires var (snap, params) := OnTheThreshold(); Closest(snap, params, 90, MM, MmSurplusAt(snap, params), down, up)
    ensures var (snap, params) := OnTheThreshold();
            WholeContract(snap, params) && MmSurplus(snap, params, 90) == 0 && MmSurplus(snap, params, 89) == -1 &&
              down.None?
  {
    hide ClosestRoots, MmSurplus;
    var (snap, params) := OnTheThreshold();
    OnTheThresholdSurplus(90);
    OnTheThresholdSurplus(89);
    SearchRange(snap, params, 90, MM);
    forall p | 0 <= p < 90 ensures MmSurplusAt(snap, params)(p) < 0 {
      OnTheThresholdSurplus(p);
    }
    NothingBelow(MmSurplusAt(snap, params), Kinks(snap, params, 90, MM), Floor(snap, params, 90, MM),
                 Cap(snap, params, 90, MM), 90, down, up);
  }

  lemma NothingBelow(f: int -> int, boundaries: seq<int>, floor: int, cap: int, spot: int, down: Option<int>,
                     up: Option<int>)
    requires ClosestRoots(f, boundaries, floor, cap, spot, down, up)
    requires forall p :: floor <= p < spot ==> f(p) < 0
    ensures down.None?
  {
  }

  lemma OnTheThresholdSurplus(p: int)
    requires 0 <= p <= 100
    ensures var (snap, params) := OnTheThreshold(); WholeContract(snap, params) && MmSurplus(snap, params, p) == p - 90
  {
    hide WorstLegStressLoss;
    var (snap, params) := OnTheThreshold();
    var positions := snap.futures.positions;
    assert positions[|positions| - 1] == FuturesPosition(1, 1, 100, 0) && positions[..|positions| - 1] == [];
    assert 0 % params.TokenScale() == 0;
    NoShock(snap, params, p);
    assert FillLoss(snap, params, p) == 0 by {
      assert p * 0 == 0 && TruncDiv(0, params.TokenScale()) == 0;
    }
    assert FuturesUnrealizedPnl(snap, p) == p - 100 by {
      assert FuturesPnl([], p) == 0;
      assert FuturesPnl(positions, p) == FuturesPnl([], p) + (p * 1 - 100);
    }
  }

  // ── Nesting of the thresholds ────────────────────────────────────────────

  /** The mirror of `Peaked` for the excess over an alert target. */
  ghost predicate Valley(g: int -> int) {
    forall a, c, b :: 0 <= a <= c <= b ==> g(c) <= g(a) || g(c) <= g(b)
  }

  lemma ExcessIsValley(snap: AccountSnapshot, params: MMParams, target: int)
    requires WholeContract(snap, params)
    ensures Valley(ImExcessAt(snap, params, target))
  {
    hide Required, WellFormed;
    var g := ImExcessAt(snap, params, target);
    forall a, c, b | 0 <= a <= c <= b ensures g(c) <= g(a) || g(c) <= g(b) {
      RequiredIsQuasiConvex(snap, params, IM, a, c, b,
                            Max(Required(snap, params, a, IM), Required(snap, params, b, IM)));
    }
  }

  lemma RootAtOrAboveBreach(g: int -> int, boundaries: seq<int>, floor: int, cap: int, spot: int, down: Option<int>,
                            up: Option<int>, breach: int)
    requires Valley(g) && 0 <= floor <= breach < spot && g(spot) < 0 <= g(breach)
    requires ClosestRoots(g, boundaries, floor, cap, spot, down, up)
    ensures down.Some? && floor <= down.value < spot && g(down.value) >= 0
    ensures forall p :: down.value < p < spot ==> g(p) <= 0
  {
    assert g(breach) <= g(floor) || g(breach) <= g(spot);
    assert Crosses(g, floor, spot);
    var d := down.value;
    assert floor < d ==> g(d) <= g(d - 1) || g(d) <= g(spot);
    forall p | d < p < spot ensures g(p) <= 0 {
      assert g(p) <= g(d) || g(p) <= g(spot);
      assert g(p) <= g(d + 1) || g(p) <= g(spot);
    }
  }

  lemma RootAtOrBelowBreach(g: int -> int, boundaries: seq<int>, floor: int, cap: int, spot: int, down: Option<int>,
                            up: Option<int>, breach: int)
    requires Valley(g) && 0 <= spot < breach <= cap && g(spot) < 0 <= g(breach)
    requires ClosestRoots(g, boundaries, floor, cap, spot, down, up)
    ensures up.Some? && spot < up.value <= cap && g(up.value) >= 0
    ensures forall p :: spot < p < up.value ==> g(p) <= 0
  {
    assert g(breach) <= g(spot) || g(breach) <= g(cap);
    assert Crosses(g, spot, cap);
    var u := up.value;
    assert u < cap ==> g(u) <= g(spot) || g(u) <= g(u + 1);
    forall p | spot < p < u ensures g(p) <= 0 {
      assert g(p) <= g(spot) || g(p) <= g(u);
      assert g(p) <= g(spot) || g(p) <= g(u - 1);
    }
  }

  /**
   A price below spot at or past the target, as the check of the current price counts it,
   forces a lower threshold that is itself at or past the target. Every price between that
   threshold and spot is at most the target, so no breach above the target lies nearer spot.
   */
  lemma BreachIsBracketedBelow(snap: AccountSnapshot, params: MMParams, currentPrice: int, target: int,
                               down: Option<int>, up: Option<int>, breach: int)
    requires WholeContract(snap, params) && currentPrice >= 0
    requires Required(snap, params, currentPrice, IM) < target
    requires Closest(snap, params, currentPrice, IM, ImExcessAt(snap, params, target), down, up)
    requires Floor(snap, params, currentPrice, IM) <= breach < currentPrice &&
             Required(snap, params, breach, IM) >= target
    ensures down.Some? && Floor(snap, params, currentPrice, IM) <= down.value < currentPrice
    ensures Required(snap, params, down.value, IM) >= target
    ensures forall p :: down.value < p < currentPrice ==> Required(snap, params, p, IM) <= target
    ensures Required(snap, params, breach, IM) > target ==> breach <= down.value
  {
    hide Required, ClosestRoots, Valley, WholeContract, WellFormed, Slack, Kinks, Floor, Cap;
    var g := ImExcessAt(snap, params, target);
    NoSlack(snap, params);
    SearchRange(snap, params, currentPrice, IM);
    ExcessIsValley(snap, params, target);
    RootAtOrAboveBreach(g, Kinks(snap, params, currentPrice, IM), Floor(snap, params, currentPrice, IM),
                        Cap(snap, params, currentPrice, IM), currentPrice, down, up, breach);
    assert forall p :: g(p) == Required(snap, params, p, IM) - target;
  }

  /** The mirror image above spot, up to the search cap. */
  lemma BreachIsBracketedAbove(snap: AccountSnapshot, params: MMParams, currentPrice: int, target: int,
                               down: Option<int>, up: Option<int>, breach: int)
    requires WholeContract(snap, params) && currentPrice >= 0
    requires Required(snap, params, currentPrice, IM) < target
    requires Closest(snap, params, currentPrice, IM, ImExcessAt(snap, params, target), down, up)
    requires currentPrice < breach <= Cap(snap, params, currentPrice, IM) &&
             Required(snap, params, breach, IM) >= target
    ensures up.Some? && currentPrice < up.value <= Cap(snap, params, currentPrice, IM)
    ensures Required(snap, params, up.value, IM) >= target
    ensures forall p :: currentPrice < p < up.value ==> Required(snap, params, p, IM) <= target
    ensures Required(snap, params, breach, IM) > target ==> up.value <= breach
  {
    hide Required, ClosestRoots, Valley, WholeContract, WellFormed, Slack, Kinks, Floor, Cap;
    var g := ImExcessAt(snap, params, target);
    NoSlack(snap, params);
    SearchRange(snap, params, currentPrice, IM);
    ExcessIsValley(snap, params, target);
    RootAtOrBelowBreach(g, Kinks(snap, params, currentPrice, IM), Floor(snap, params, currentPrice, IM),
                        Cap(snap, params, currentPrice, IM), currentPrice, down, up, breach);
    assert forall p :: g(p) == Required(snap, params, p, IM) - target;
  }

  /**
   An alert level is a utilization: a requirement is short of the target exactly when one unit
   more still fits in so many millionths of the balance.
   */
  lemma AlertLevelIsUtilization(snap: AccountSnapshot, utilizationPpm: int, required: int)
    requires snap.balance > 0 && utilizationPpm >= 0
    ensures required < AlertTarget(snap, utilizationPpm) <==>
            (required + 1) * 1_000_000 <= utilizationPpm * snap.balance
  {
    var x := utilizationPpm * snap.balance;
    MulOrder(0, utilizationPpm, snap.balance);
    DivMod(x, 1_000_000);
  }

  /**
   One solved alert level, from spot: nothing once IM is at or past the target, and otherwise a
   threshold on every side on which some searched price is, between that price and spot as above.
   Above spot every price up to 1024 times spot is searched.
   */
  lemma AlertsAreArmed(snap: AccountSnapshot, params: MMParams, currentPrice: int, target: int, down: Option<int>,
                       up: Option<int>, price: int)
    requires WholeContract(snap, params) && currentPrice >= 0 && WithinReach(snap, params, currentPrice, IM)
    requires AlertSolved(snap, params, currentPrice, target, down, up)
    requires 1 <= price <= 1024 * currentPrice && Required(snap, params, price, IM) > target
    ensures Required(snap, params, currentPrice, IM) >= target ==> down == up == None
    ensures Required(snap, params, currentPrice, IM) < target && price < currentPrice ==>
            down.Some? && price <= down.value < currentPrice
    ensures Required(snap, params, currentPrice, IM) < target && currentPrice < price ==>
            up.Some? && currentPrice < up.value <= price
  {
    hide Required, ClosestRoots, WholeContract, WithinReach, Floor, Cap;
    NoSlack(snap, params);
    SearchRange(snap, params, currentPrice, IM);
    SearchReaches(snap, params, currentPrice, IM);
    if Required(snap, params, currentPrice, IM) < target {
      if price < currentPrice {
        BreachIsBracketedBelow(snap, params, currentPrice, target, down, up, price);
      } else {
        BreachIsBracketedAbove(snap, params, currentPrice, target, down, up, price);
      }
    }
  }

  ghost predicate AlertLadder(snap: AccountSnapshot, params: MMParams, currentPrice: int, warnTarget: int,
                              critTarget: int) {
    && WholeContract(snap, params) && currentPrice >= 0
    && params.mmSpotShock <= params.imSpotShock
    && warnTarget < critTarget < snap.balance
    && Required(snap, params, currentPrice, IM) < warnTarget
  }

  /** A lower liquidation threshold forces both alert thresholds, in order, between it and spot. */
  lemma LowerThresholdsNest(snap: AccountSnapshot, params: MMParams, currentPrice: int, warnTarget: int,
                            critTarget: int,
                            liqDown: Option<int>, liqUp: Option<int>, alerts: AlertThresholds)
    requires AlertLadder(snap, params, currentPrice, warnTarget, critTarget)
    requires Closest(snap, params, currentPrice, MM, MmSurplusAt(snap, params), liqDown, liqUp)
    requires Closest(snap, params, currentPrice, IM, ImExcessAt(snap, params, warnTarget), alerts.warnDown,
                     alerts.warnUp)
    requires Closest(snap, params, currentPrice, IM, ImExcessAt(snap, params, critTarget), alerts.critDown,
                     alerts.critUp)
    requires liqDown.Some?
    ensures alerts.critDown.Some? && alerts.warnDown.Some?
    ensures liqDown.value - 1 <= alerts.critDown.value <= alerts.warnDown.value < currentPrice
  {
    SearchRange(snap, params, currentPrice, MM);
    SameFloor(snap, params, currentPrice);
    MmNeverExceedsIm(snap, params, currentPrice);
    var l := liqDown.value;
    var floor := Floor(snap, params, currentPrice, MM);
    var f := MmSurplusAt(snap, params);
    var breach := InsolventNeighbour(snap, params, currentPrice, f, floor, currentPrice, l);
    MmNeverExceedsIm(snap, params, breach);
    if breach > l {
      // the surplus would fall below zero between two prices where it is not
      RequiredIsQuasiConvex(snap, params, MM, l, breach, currentPrice, snap.balance);
      assert false;
    }
    BreachIsBracketedBelow(snap, params, currentPrice, critTarget, alerts.critDown, alerts.critUp, breach);
    BreachIsBracketedBelow(snap, params, currentPrice, warnTarget, alerts.warnDown, alerts.warnUp,
                           alerts.critDown.value);
  }

  /** A root of the surplus, or the insolvent price beside it. */
  lemma InsolventNeighbour(snap: AccountSnapshot, params: MMParams, currentPrice: int, f: int -> int, lo: int,
                           hi: int, root: int) returns (p: int)
    requires f == MmSurplusAt(snap, params) && IsRoot(f, lo, hi, root) && root != currentPrice
    ensures lo <= p <= hi && root - 1 <= p <= root + 1
    ensures MmSurplus(snap, params, p) <= 0
    ensures p != root ==> MmSurplus(snap, params, p) < 0 <= MmSurplus(snap, params, root)
  {
    p := if f(root) == 0 then root else if lo < root && f(root - 1) < 0 then root - 1 else root + 1;
    assert f(p) == MmSurplus(snap, params, p) && f(root) == MmSurplus(snap, params, root);
  }

  lemma UpperThresholdsNest(snap: AccountSnapshot, params: MMParams, currentPrice: int, warnTarget: int,
                            critTarget: int,
                            liqDown: Option<int>, liqUp: Option<int>, alerts: AlertThresholds)
    requires AlertLadder(snap, params, currentPrice, warnTarget, critTarget)
    requires Closest(snap, params, currentPrice, MM, MmSurplusAt(snap, params), liqDown, liqUp)
    requires Closest(snap, params, currentPrice, IM, ImExcessAt(snap, params, warnTarget), alerts.warnDown,
                     alerts.warnUp)
    requires Closest(snap, params, currentPrice, IM, ImExcessAt(snap, params, critTarget), alerts.critDown,
                     alerts.critUp)
    requires liqUp.Some? && liqUp.value < Cap(snap, params, currentPrice, IM)
    ensures alerts.critUp.Some? && alerts.warnUp.Some?
    ensures currentPrice < alerts.warnUp.value <= alerts.critUp.value <= liqUp.value + 1
  {
    SearchRange(snap, params, currentPrice, MM);
    MmNeverExceedsIm(snap, params, currentPrice);
    var u := liqUp.value;
    var cap := Cap(snap, params, currentPrice, MM);
    var f := MmSurplusAt(snap, params);
    var breach := InsolventNeighbour(snap, params, currentPrice, f, currentPrice, cap, u);
    MmNeverExceedsIm(snap, params, breach);
    if breach < u {
      RequiredIsQuasiConvex(snap, params, MM, currentPrice, breach, u, snap.balance);
      assert false;
    }
    BreachIsBracketedAbove(snap, params, currentPrice, critTarget, alerts.critDown, alerts.critUp, breach);
    BreachIsBracketedAbove(snap, params, currentPrice, warnTarget, alerts.warnDown, alerts.warnUp, alerts.critUp.value);
  }
}
