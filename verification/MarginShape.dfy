/**
 The shape of the requirement in price. `Required` is a rounding of an exact convex
 function; from that follow the contiguity of the solvent prices (exact for
 whole-contract accounts, up to a fixed slack for every other) and unimodality.
 */
module MarginShape {
  import opened Arithmetic
  import opened Margin

  /** How far rounding can lift the requirement above the larger of two requirements around it. */
  const ROUNDING_SLACK: int := 6

  ghost predicate UnsignedOrders(orders: RestingOrders) {
    orders.buyDelta >= 0 && orders.sellDelta >= 0 && orders.buyValue >= 0 && orders.sellValue >= 0
  }

  /** What the venues report: unsigned order deltas and values, unsigned shocks. */
  ghost predicate WellFormed(snap: AccountSnapshot, params: MMParams) {
    && params.imSpotShock >= 0 && params.mmSpotShock >= 0
    && UnsignedOrders(snap.perp.orders) && UnsignedOrders(snap.futures.orders)
  }

  ghost predicate WholeOrders(orders: RestingOrders, scale: int)
    requires scale > 0
  {
    orders.buyDelta % scale == 0 && orders.sellDelta % scale == 0
  }

  /** No perp position, and every order delta a whole number of contracts. */
  ghost predicate WholeContract(snap: AccountSnapshot, params: MMParams) {
    && WellFormed(snap, params)
    && snap.perp.netQty == 0
    && WholeOrders(snap.perp.orders, params.TokenScale())
    && WholeOrders(snap.futures.orders, params.TokenScale())
  }

  ghost function Slack(snap: AccountSnapshot, params: MMParams): (r: int)
    ensures r >= 0
  {
    if WholeContract(snap, params) then 0 else ROUNDING_SLACK
  }

  // ── The exact requirement ────────────────────────────────────────────────

  /** A linear function of price with rational slope n/d. */
  ghost function Line(n: int, d: int, price: int): real
    requires d > 0
  {
    (n as real / d as real) * price as real
  }

  /** The larger of the two exposures a fill of one side would leave. */
  function WorstDelta(snap: AccountSnapshot, params: MMParams): int {
    var netDelta := NetDeltaWad(snap, params);
    Max(Abs(netDelta + BuyDeltaWad(snap, params)), Abs(netDelta - SellDeltaWad(snap, params)))
  }

  ghost function StressCoefficient(snap: AccountSnapshot, params: MMParams, requirement: MarginRequirement): int {
    WorstDelta(snap, params) * params.Shock(requirement)
  }

  ghost function ExactFillLoss(orders: RestingOrders, scale: int, price: int): real
    requires scale > 0
  {
    Pos(orders.buyValue as real - Line(orders.buyDelta, scale, price)) +
    Pos(Line(orders.sellDelta, scale, price) - orders.sellValue as real)
  }

  ghost function ExactPerpPnl(snap: AccountSnapshot, params: MMParams, price: int): real {
    Line(snap.perp.netQty, params.QtyScale(), price) - Line(snap.perp.netQty, params.QtyScale(), snap.perp.entryPrice)
  }

  ghost function ExactUnrealizedLoss(snap: AccountSnapshot, params: MMParams, price: int,
                                     requirement: MarginRequirement): real {
    var perp := ExactPerpPnl(snap, params, price);
    var futures := FuturesUnrealizedPnl(snap, price) as real;
    if requirement == MM then Pos(-(perp + futures)) else Pos(-perp) + Pos(-futures)
  }

  ghost function ExactRequired(snap: AccountSnapshot, params: MMParams, price: int,
                               requirement: MarginRequirement): real {
    Line(StressCoefficient(snap, params, requirement), WAD * WAD, price) +
    (ExactFillLoss(snap.perp.orders, params.TokenScale(), price) +
     ExactFillLoss(snap.futures.orders, params.TokenScale(), price)) +
    ExactUnrealizedLoss(snap, params, price, requirement) +
    snap.perp.fundingOwed as real
  }

  // ── Convexity of the exact requirement ───────────────────────────────────

  lemma LineChord(n: int, d: int, a: int, c: int, b: int)
    requires d > 0
    ensures Chord((b - c) as real, (c - a) as real, Line(n, d, a), Line(n, d, c), Line(n, d, b))
    ensures Chord((b - c) as real, (c - a) as real, -Line(n, d, a), -Line(n, d, c), -Line(n, d, b))
  {
    ChordAffine(a, c, b, n as real / d as real, 0.0);
    ChordAffine(a, c, b, -(n as real / d as real), 0.0);
  }

  lemma ChordConstant(w1: real, w2: real, m: real)
    ensures Chord(w1, w2, m, m, m)
  {
  }

  lemma FillLossChord(orders: RestingOrders, scale: int, a: int, c: int, b: int)
    requires scale > 0 && a <= c <= b
    ensures Chord((b - c) as real, (c - a) as real,
                  ExactFillLoss(orders, scale, a), ExactFillLoss(orders, scale, c), ExactFillLoss(orders, scale, b))
  {
    var w1, w2 := (b - c) as real, (c - a) as real;
    var bv, sv := orders.buyValue as real, orders.sellValue as real;
    var xa, xc, xb := Line(orders.buyDelta, scale, a), Line(orders.buyDelta, scale, c), Line(orders.buyDelta, scale, b);
    var ya, yc, yb := Line(orders.sellDelta, scale, a), Line(orders.sellDelta, scale, c),
      Line(orders.sellDelta, scale, b);
    LineChord(orders.buyDelta, scale, a, c, b);
    LineChord(orders.sellDelta, scale, a, c, b);
    ChordConstant(w1, w2, bv);
    ChordConstant(w1, w2, -sv);
    ChordAdd(w1, w2, bv, bv, bv, -xa, -xc, -xb);
    ChordPos(w1, w2, bv - xa, bv - xc, bv - xb);
    ChordAdd(w1, w2, -sv, -sv, -sv, ya, yc, yb);
    ChordPos(w1, w2, ya - sv, yc - sv, yb - sv);
    ChordAdd(w1, w2, Pos(bv - xa), Pos(bv - xc), Pos(bv - xb), Pos(ya - sv), Pos(yc - sv), Pos(yb - sv));
  }

  lemma NegatedProductAsReal(price: int, qty: int, value: int)
    ensures -((price * qty - value) as real) == -(qty as real) * price as real + value as real
  {
    assert (price * qty) as real == qty as real * price as real;
  }

  /** The futures PnL is a straight line in price, so its negation is a chord with equality. */
  lemma FuturesChord(snap: AccountSnapshot, a: int, c: int, b: int)
    ensures Chord((b - c) as real, (c - a) as real, -(FuturesUnrealizedPnl(snap, a) as real),
                  -(FuturesUnrealizedPnl(snap, c) as real), -(FuturesUnrealizedPnl(snap, b) as real))
  {
    var qty, value := UnsettledQuantity(snap.futures.positions), FrozenValue(snap.futures.positions);
    FuturesPnlIsAffine(snap.futures.positions, a);
    FuturesPnlIsAffine(snap.futures.positions, c);
    FuturesPnlIsAffine(snap.futures.positions, b);
    NegatedProductAsReal(a, qty, value);
    NegatedProductAsReal(c, qty, value);
    NegatedProductAsReal(b, qty, value);
    ChordAffine(a, c, b, -(qty as real), value as real);
  }

  lemma PerpChord(snap: AccountSnapshot, params: MMParams, a: int, c: int, b: int)
    ensures Chord((b - c) as real, (c - a) as real,
                  -ExactPerpPnl(snap, params, a), -ExactPerpPnl(snap, params, c), -ExactPerpPnl(snap, params, b))
  {
    var w1, w2 := (b - c) as real, (c - a) as real;
    var n, d := snap.perp.netQty, params.QtyScale();
    var m := Line(n, d, snap.perp.entryPrice);
    LineChord(n, d, a, c, b);
    ChordConstant(w1, w2, m);
    ChordAdd(w1, w2, -Line(n, d, a), -Line(n, d, c), -Line(n, d, b), m, m, m);
  }

  lemma UnrealizedChord(snap: AccountSnapshot, params: MMParams, requirement: MarginRequirement, a: int, c: int, b: int)
    requires a <= c <= b
    ensures Chord((b - c) as real, (c - a) as real,
                  ExactUnrealizedLoss(snap, params, a, requirement),
                  ExactUnrealizedLoss(snap, params, c, requirement),
                  ExactUnrealizedLoss(snap, params, b, requirement))
  {
    var w1, w2 := (b - c) as real, (c - a) as real;
    var pa, pc, pb := -ExactPerpPnl(snap, params, a), -ExactPerpPnl(snap, params, c), -ExactPerpPnl(snap, params, b);
    var fa, fc, fb := -(FuturesUnrealizedPnl(snap, a) as real), -(FuturesUnrealizedPnl(snap, c) as real),
      -(FuturesUnrealizedPnl(snap, b) as real);
    PerpChord(snap, params, a, c, b);
    FuturesChord(snap, a, c, b);
    if requirement == MM {
      ChordAdd(w1, w2, pa, pc, pb, fa, fc, fb);
      ChordPos(w1, w2, pa + fa, pc + fc, pb + fb);
    } else {
      ChordPos(w1, w2, pa, pc, pb);
      ChordPos(w1, w2, fa, fc, fb);
      ChordAdd(w1, w2, Pos(pa), Pos(pc), Pos(pb), Pos(fa), Pos(fc), Pos(fb));
    }
  }

  /** The exact requirement is convex in price. */
  lemma ExactRequiredIsConvex(snap: AccountSnapshot, params: MMParams, requirement: MarginRequirement, a: int,
                              c: int, b: int)
    requires a <= c <= b
    ensures Chord((b - c) as real, (c - a) as real,
                  ExactRequired(snap, params, a, requirement),
                  ExactRequired(snap, params, c, requirement),
                  ExactRequired(snap, params, b, requirement))
  {
    var w1, w2 := (b - c) as real, (c - a) as real;
    var n, scale, funding := StressCoefficient(snap, params, requirement), params.TokenScale(),
      snap.perp.fundingOwed as real;
    var sa, sc, sb := Line(n, WAD * WAD, a), Line(n, WAD * WAD, c), Line(n, WAD * WAD, b);
    var pa, pc, pb := ExactFillLoss(snap.perp.orders, scale, a), ExactFillLoss(snap.perp.orders, scale, c),
      ExactFillLoss(snap.perp.orders, scale, b);
    var fa, fc, fb := ExactFillLoss(snap.futures.orders, scale, a), ExactFillLoss(snap.futures.orders, scale, c),
      ExactFillLoss(snap.futures.orders, scale, b);
    var ua, uc, ub := ExactUnrealizedLoss(snap, params, a, requirement),
      ExactUnrealizedLoss(snap, params, c, requirement), ExactUnrealizedLoss(snap, params, b, requirement);
    LineChord(n, WAD * WAD, a, c, b);
    FillLossChord(snap.perp.orders, scale, a, c, b);
    FillLossChord(snap.futures.orders, scale, a, c, b);
    UnrealizedChord(snap, params, requirement, a, c, b);
    ChordConstant(w1, w2, funding);
    ChordAdd(w1, w2, pa, pc, pb, fa, fc, fb);
    ChordAdd(w1, w2, sa, sc, sb, pa + fa, pc + fc, pb + fb);
    ChordAdd(w1, w2, sa + (pa + fa), sc + (pc + fc), sb + (pb + fb), ua, uc, ub);
    ChordAdd(w1, w2, sa + (pa + fa) + ua, sc + (pc + fc) + uc, sb + (pb + fb) + ub, funding, funding, funding);
  }

  // ── Required is a rounding of it ─────────────────────────────────────────

  lemma LineIsQuotient(n: int, d: int, price: int)
    requires d > 0
    ensures Line(n, d, price) == (price * n) as real / d as real
  {
    assert (price * n) as real == n as real * price as real;
  }

  lemma MaxProduct(x: int, y: int, k: int)
    requires k >= 0
    ensures Max(x * k, y * k) == Max(x, y) * k
  {
    MulOrder(x, Max(x, y), k);
    MulOrder(y, Max(x, y), k);
  }

  /** The stress of the worse leg is a single floor of the exact stress. */
  lemma WorstLegIsOneFloor(snap: AccountSnapshot, params: MMParams, price: int, requirement: MarginRequirement)
    requires WellFormed(snap, params) && price >= 0
    ensures WorstLegStressLoss(snap, params, params.Shock(requirement), price)
         == (StressCoefficient(snap, params, requirement) * price) / (WAD * WAD)
  {
    var shock := params.Shock(requirement);
    var netDelta := NetDeltaWad(snap, params);
    var buy, sell := Abs(netDelta + BuyDeltaWad(snap, params)), Abs(netDelta - SellDeltaWad(snap, params));
    StressIsOneFloor(netDelta + BuyDeltaWad(snap, params), shock, price, params.tokenDecimals);
    StressIsOneFloor(netDelta - SellDeltaWad(snap, params), shock, price, params.tokenDecimals);
    FloorOfMax(buy * shock * price, sell * shock * price, WAD * WAD);
    MaxProduct(buy, sell, shock);
    MaxProduct(buy * shock, sell * shock, price);
  }

  /** A fill of either venue's orders counts alike: moving resting delta between the books leaves the exposure. */
  lemma StressIgnoresVenue(snap: AccountSnapshot, params: MMParams, bids: int, asks: int)
    ensures var perp, futures := snap.perp.orders, snap.futures.orders;
            var moved := snap.(
              perp := snap.perp.(orders := perp.(buyDelta := perp.buyDelta + bids, sellDelta := perp.sellDelta + asks)),
              futures := snap.futures.(orders := futures.(buyDelta := futures.buyDelta - bids,
                                                          sellDelta := futures.sellDelta - asks)));
            WorstDelta(moved, params) == WorstDelta(snap, params)
  {
    hide TruncDiv;
  }

  /**
   Both requirements in closed form: one floor of the worse exposure at the requirement's own
   shock, the fill loss, the unrealized loss netted across venues (MM) or not (IM), and funding.
   */
  lemma RequirementsInClosedForm(snap: AccountSnapshot, params: MMParams, price: int)
    requires WellFormed(snap, params) && price >= 0
    ensures var perp, futures := PerpUnrealizedPnl(snap, params, price), FuturesUnrealizedPnl(snap, price);
            var worst, rest := WorstDelta(snap, params), FillLoss(snap, params, price) + snap.perp.fundingOwed;
            && snap.balance - ImSurplus(snap, params, price)
               == (worst * params.imSpotShock * price) / (WAD * WAD) + Max(0, -perp) + Max(0, -futures) + rest
            && snap.balance - MmSurplus(snap, params, price)
               == (worst * params.mmSpotShock * price) / (WAD * WAD) + Max(0, -(perp + futures)) + rest
  {
    hide WellFormed, WorstLegStressLoss, NetDeltaWad, BuyDeltaWad, SellDeltaWad, PerpUnrealizedPnl, FillLoss;
    WorstLegIsOneFloor(snap, params, price, IM);
    WorstLegIsOneFloor(snap, params, price, MM);
  }

  /** The gain of one venue that MM sets against the loss of the other and IM does not. */
  function NettedGain(perp: int, futures: int): int {
    if perp < 0 < futures then if -perp < futures then -perp else futures
    else if futures < 0 < perp then if -futures < perp then -futures else perp
    else 0
  }

  /** IM exceeds MM by the difference of the two shocks on the worse exposure, and by the gain MM nets. */
  lemma ImExceedsMmBy(snap: AccountSnapshot, params: MMParams, price: int)
    requires WellFormed(snap, params) && price >= 0
    ensures var netted := NettedGain(PerpUnrealizedPnl(snap, params, price), FuturesUnrealizedPnl(snap, price));
            var gap := MmSurplus(snap, params, price) - ImSurplus(snap, params, price) - netted;
            var exact := WorstDelta(snap, params) * (params.imSpotShock - params.mmSpotShock) * price;
            exact - WAD * WAD < gap * (WAD * WAD) < exact + WAD * WAD
    ensures snap.perp.netQty == 0 ==>
            NettedGain(PerpUnrealizedPnl(snap, params, price), FuturesUnrealizedPnl(snap, price)) == 0
  {
    hide ImSurplus, MmSurplus, WorstDelta, FillLoss, PerpUnrealizedPnl, FuturesUnrealizedPnl, WellFormed, Max,
      NettedGain;
    RequirementsInClosedForm(snap, params, price);
    NettingIs(PerpUnrealizedPnl(snap, params, price), FuturesUnrealizedPnl(snap, price));
    ShockGap(WorstDelta(snap, params), params.imSpotShock, params.mmSpotShock, price, WAD * WAD);
    FlatPerpPnl(snap, params, price);
  }

  lemma NettingIs(perp: int, futures: int)
    ensures Max(0, -perp) + Max(0, -futures) - Max(0, -(perp + futures)) == NettedGain(perp, futures)
    ensures perp == 0 ==> NettedGain(perp, futures) == 0
  {
  }

  lemma ShockGap(worst: int, im: int, mm: int, price: int, d: int)
    requires d > 0
    ensures var exact := worst * (im - mm) * price;
            exact - d < ((worst * im * price) / d - (worst * mm * price) / d) * d < exact + d
  {
    FloorsApart(worst * im * price, worst * mm * price, d);
    MulSum(im, mm, worst);
    MulSum(worst * im, worst * mm, price);
  }

  lemma FlatPerpPnl(snap: AccountSnapshot, params: MMParams, price: int)
    ensures snap.perp.netQty == 0 ==> PerpUnrealizedPnl(snap, params, price) == 0
  {
  }

  lemma FloorsApart(x: int, y: int, d: int)
    requires d > 0
    ensures x - y - d < (x / d - y / d) * d < x - y + d
  {
    DivMod(x, d);
    DivMod(y, d);
    MulSum(x / d, y / d, d);
  }

  lemma FloorOfLine(n: int, d: int, price: int, floor: int)
    requires d > 0 && floor == (n * price) / d
    ensures floor as real <= Line(n, d, price) < floor as real + 1.0
  {
    assert n * price == price * n;
    FloorBounds(price * n, d);
    LineIsQuotient(n, d, price);
  }

  lemma StressRounding(snap: AccountSnapshot, params: MMParams, price: int, requirement: MarginRequirement)
    requires WellFormed(snap, params) && price >= 0
    ensures var w := WorstLegStressLoss(snap, params, params.Shock(requirement), price) as real;
            w <= Line(StressCoefficient(snap, params, requirement), WAD * WAD, price) < w + 1.0
  {
    WorstLegIsOneFloor(snap, params, price, requirement);
    FloorOfLine(StressCoefficient(snap, params, requirement), WAD * WAD, price,
                WorstLegStressLoss(snap, params, params.Shock(requirement), price));
  }

  lemma MarkRounding(delta: int, scale: int, price: int)
    requires delta >= 0 && scale > 0 && price >= 0
    ensures var mark := TruncDiv(price * delta, scale) as real;
            mark <= Line(delta, scale, price) < mark + 1.0
    ensures delta % scale == 0 ==> TruncDiv(price * delta, scale) as real == Line(delta, scale, price)
  {
    MulOrder(0, delta, price);
    TruncBounds(price * delta, scale);
    LineIsQuotient(delta, scale, price);
    if delta % scale == 0 {
      var k := delta / scale;
      assert delta == k * scale;
      assert price * delta == (price * k) * scale;
      ExactDiv(price * k, scale);
      var r := Line(delta, scale, price);
      assert r * scale as real == ((price * k) * scale) as real;
      assert ((price * k) * scale) as real == (price * k) as real * scale as real;
    }
  }

  /** Flooring a mark can only raise a bid's fill loss and lower an ask's, each by less than one. */
  lemma FillLossRounding(orders: RestingOrders, tokenDecimals: TokenDecimals, price: int)
    requires UnsignedOrders(orders) && price >= 0
    ensures var loss, exact := VenueFillLoss(orders, price, tokenDecimals) as real,
            ExactFillLoss(orders, Pow10(tokenDecimals), price);
            exact - 1.0 < loss < exact + 1.0
    ensures WholeOrders(orders, Pow10(tokenDecimals)) ==>
              VenueFillLoss(orders, price, tokenDecimals) as real == ExactFillLoss(orders, Pow10(tokenDecimals), price)
  {
    MarkRounding(orders.buyDelta, Pow10(tokenDecimals), price);
    MarkRounding(orders.sellDelta, Pow10(tokenDecimals), price);
  }

  lemma PerpRounding(snap: AccountSnapshot, params: MMParams, price: int)
    ensures var pnl, exact := PerpUnrealizedPnl(snap, params, price) as real, ExactPerpPnl(snap, params, price);
            exact - 1.0 < pnl < exact + 1.0
    ensures snap.perp.netQty == 0 ==> ExactPerpPnl(snap, params, price) == 0.0
  {
    hide Line, TruncDiv;
    var n, d, e := snap.perp.netQty, params.QtyScale(), snap.perp.entryPrice;
    TruncBounds((price - e) * n, d);
    LineIsQuotient(n, d, price);
    LineIsQuotient(n, d, e);
    QuotientOfDifference(price * n, e * n, d);
    MulSum(price, e, n);
    assert n == 0 ==> price * n == 0 && e * n == 0;
  }

  lemma QuotientOfDifference(x: int, y: int, d: int)
    requires d > 0
    ensures (x - y) as real / d as real == x as real / d as real - y as real / d as real
  {
  }

  /** The only rounding in the unrealized loss is the perp's, and a flat perp has none. */
  lemma UnrealizedRounding(snap: AccountSnapshot, params: MMParams, price: int, requirement: MarginRequirement)
    ensures var loss, exact := UnrealizedLoss(snap, params, price, requirement) as real,
            ExactUnrealizedLoss(snap, params, price, requirement);
            && exact - 1.0 < loss < exact + 1.0
            && (snap.perp.netQty == 0 ==> loss == exact)
  {
    PerpRounding(snap, params, price);
    assert snap.perp.netQty == 0 ==> PerpUnrealizedPnl(snap, params, price) == 0;
    hide ExactPerpPnl, PerpUnrealizedPnl, FuturesUnrealizedPnl;
  }

  /** Within four units below the exact requirement and three above, for every account. */
  lemma AnyRounding(snap: AccountSnapshot, params: MMParams, price: int, requirement: MarginRequirement)
    requires WellFormed(snap, params) && price >= 0
    ensures var r, exact := Required(snap, params, price, requirement) as real,
            ExactRequired(snap, params, price, requirement);
            exact - 4.0 < r < exact + 3.0
  {
    hide Line, StressCoefficient, WorstLegStressLoss, VenueFillLoss, ExactFillLoss, UnrealizedLoss, ExactUnrealizedLoss;
    StressRounding(snap, params, price, requirement);
    FillLossRounding(snap.perp.orders, params.tokenDecimals, price);
    FillLossRounding(snap.futures.orders, params.tokenDecimals, price);
    UnrealizedRounding(snap, params, price, requirement);
  }

  /** For a whole-contract account only the stress is rounded, and down. */
  lemma WholeContractRounding(snap: AccountSnapshot, params: MMParams, price: int, requirement: MarginRequirement)
    requires WholeContract(snap, params) && price >= 0
    ensures var r := Required(snap, params, price, requirement) as real;
            r <= ExactRequired(snap, params, price, requirement) < r + 1.0
  {
    hide Line, StressCoefficient, WorstLegStressLoss, VenueFillLoss, ExactFillLoss, UnrealizedLoss, ExactUnrealizedLoss;
    StressRounding(snap, params, price, requirement);
    FillLossRounding(snap.perp.orders, params.tokenDecimals, price);
    FillLossRounding(snap.futures.orders, params.tokenDecimals, price);
    UnrealizedRounding(snap, params, price, requirement);
  }

  lemma RequiredRounding(snap: AccountSnapshot, params: MMParams, price: int, requirement: MarginRequirement)
    requires WellFormed(snap, params) && price >= 0
    ensures var r, exact := Required(snap, params, price, requirement) as real,
            ExactRequired(snap, params, price, requirement);
            exact - 4.0 < r < exact + 3.0
    ensures WholeContract(snap, params) ==>
              var r := Required(snap, params, price, requirement) as real;
              r <= ExactRequired(snap, params, price, requirement) < r + 1.0
  {
    hide Required, ExactRequired, WholeContract;
    AnyRounding(snap, params, price, requirement);
    if WholeContract(snap, params) {
      WholeContractRounding(snap, params, price, requirement);
    }
  }

  // ── What follows for the requirement itself ──────────────────────────────

  /**
   Between two prices at which the requirement is at most `level`, it is at most
   `level` plus the slack: nothing for a whole-contract account.
   */
  lemma RequiredIsQuasiConvex(snap: AccountSnapshot, params: MMParams, requirement: MarginRequirement, a: int,
                              c: int, b: int, level: int)
    requires WellFormed(snap, params) && 0 <= a <= c <= b
    requires Required(snap, params, a, requirement) <= level && Required(snap, params, b, requirement) <= level
    ensures Required(snap, params, c, requirement) <= level + Slack(snap, params)
  {
    RequiredRounding(snap, params, a, requirement);
    RequiredRounding(snap, params, c, requirement);
    RequiredRounding(snap, params, b, requirement);
    if a < b {
      ExactRequiredIsConvex(snap, params, requirement, a, c, b);
      var bound := if WholeContract(snap, params) then level as real + 1.0 else level as real + 4.0;
      ChordBound((b - c) as real, (c - a) as real,
                 ExactRequired(snap, params, a, requirement),
                 ExactRequired(snap, params, c, requirement),
                 ExactRequired(snap, params, b, requirement), bound);
    }
  }

  /**
   For a whole-contract account the surplus is exactly unimodal: once it has fallen
   it never rises again, and before it has risen it never fell.
   */
  lemma SurplusIsUnimodal(snap: AccountSnapshot, params: MMParams, requirement: MarginRequirement, a: int, c: int,
                          b: int)
    requires WholeContract(snap, params) && 0 <= a <= c <= b
    ensures var sa, sc, sb := Surplus(snap, params, a, requirement), Surplus(snap, params, c, requirement),
            Surplus(snap, params, b, requirement);
            && (sc < sa ==> sb <= sc)
            && (sc < sb ==> sa <= sc)
  {
    var level := Max(Required(snap, params, a, requirement), Required(snap, params, b, requirement));
    RequiredIsQuasiConvex(snap, params, requirement, a, c, b, level);
  }

  /** The solvent prices of a whole-contract account form one contiguous range. */
  lemma SolventPricesAreContiguous(snap: AccountSnapshot, params: MMParams, a: int, c: int, b: int)
    requires WholeContract(snap, params) && 0 <= a <= c <= b
    requires MmSurplus(snap, params, a) >= 0 && MmSurplus(snap, params, b) >= 0
    ensures MmSurplus(snap, params, c) >= 0
  {
    RequiredIsQuasiConvex(snap, params, MM, a, c, b, snap.balance);
  }
}
