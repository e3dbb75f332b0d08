/**
 Diffing desired quotes against resting orders (market-maker/src/core/orderExecutor.ts,
 with notionalToSize of market-maker/src/core/math.ts). The functions say which orders a
 diff cancels, reduces and creates; the class computes them with the source's loops.
 */
module OrderDiff {
  import opened Arithmetic
  import opened Optional
  import opened Sides

  type OrderId = string

  datatype OwnOrder = OwnOrder(orderId: OrderId, price: int, side: Side, size: int)

  datatype OrderIntent = OrderIntent(side: Side, price: int, size: int)

  datatype ReduceIntent = ReduceIntent(orderId: OrderId, newSize: int, side: Side)

  datatype Config = Config(staleBandAllowance: int, staleSizeAllowance: int, quantityScale: int,
                           requoteCooldownMs: int, urgentRequoteThresholdTicks: int)

  /** What the clock, the risk manager, the gas tracker, the oracle and the venue say when a plan is made. */
  datatype Conditions = Conditions(now: int, throttled: bool, gasSpiking: bool, oraclePrice: int, tick: int)

  /** A (side, price) level of the book. */
  datatype Level = Level(side: Side, price: int)

  function LevelOf(o: OwnOrder): Level {
    Level(o.side, o.price)
  }

  // ── Size allowance ───────────────────────────────────────────────────────

  function NotionalToSize(price: int, notionalUsd: int, quantityScale: int): int {
    if price <= 0 || notionalUsd <= 0 || quantityScale <= 0 then 0
    else TruncDiv(notionalUsd * quantityScale + TruncDiv(price, 2), price)
  }

  /** The nearest native size: off by at most half a unit of notional, halves rounding up. */
  lemma NotionalToSizeIsNearest(price: int, notionalUsd: int, quantityScale: int)
    requires price > 0 && notionalUsd > 0 && quantityScale > 0
    ensures var size := NotionalToSize(price, notionalUsd, quantityScale);
            -price < 2 * (size * price - notionalUsd * quantityScale) <= price
  {
    var n := notionalUsd * quantityScale;
    MulOrder(0, notionalUsd, quantityScale);
    var size := (n + price / 2) / price;
    DivMod(n + price / 2, price);
    DivMod(price, 2);
    assert size * price == price * size;
  }

  function Allowance(cfg: Config, price: int): (r: int) {
    NotionalToSize(price, cfg.staleSizeAllowance, cfg.quantityScale)
  }

  predicate AboveThreshold(cfg: Config, price: int, delta: int) {
    delta > Allowance(cfg, price)
  }

  // ── The desired grid ─────────────────────────────────────────────────────

  datatype Edges = Edges(worstBid: Option<int>, bestBid: Option<int>, worstAsk: Option<int>, bestAsk: Option<int>)

  function Lower(edge: Option<int>, price: int): Option<int> {
    if edge.None? || price < edge.value then Some(price) else edge
  }

  function Higher(edge: Option<int>, price: int): Option<int> {
    if edge.None? || price > edge.value then Some(price) else edge
  }

  function Widened(e: Edges, i: OrderIntent): Edges {
    if i.side == Buy then e.(worstBid := Lower(e.worstBid, i.price), bestBid := Higher(e.bestBid, i.price))
    else e.(worstAsk := Higher(e.worstAsk, i.price), bestAsk := Lower(e.bestAsk, i.price))
  }

  function EdgesOf(desired: seq<OrderIntent>): Edges {
    if desired == [] then Edges(None, None, None, None)
    else Widened(EdgesOf(desired[..|desired| - 1]), desired[|desired| - 1])
  }

  predicate IsDesired(desired: seq<OrderIntent>, level: Level) {
    exists i :: 0 <= i < |desired| && Level(desired[i].side, desired[i].price) == level
  }

  function WantedAt(desired: seq<OrderIntent>, level: Level): int {
    if desired == [] then 0
    else
      var last := desired[|desired| - 1];
      WantedAt(desired[..|desired| - 1], level) + (if Level(last.side, last.price) == level then last.size else 0)
  }

  /** Outside the keep zone, better than the grid, or locking the desired opposite side. */
  predicate IsStale(e: Edges, allowance: int, level: Level) {
    if level.side == Buy then
      || e.worstBid.None? || level.price + allowance < e.worstBid.value
      || (e.bestBid.Some? && level.price > e.bestBid.value)
      || (e.bestAsk.Some? && level.price >= e.bestAsk.value)
    else
      || e.worstAsk.None? || level.price > e.worstAsk.value + allowance
      || (e.bestAsk.Some? && level.price < e.bestAsk.value)
      || (e.bestBid.Some? && level.price <= e.bestBid.value)
  }

  // ── Levels of a book ─────────────────────────────────────────────────────

  function At(book: seq<OwnOrder>, level: Level): (r: seq<OwnOrder>)
    ensures forall o :: o in r <==> o in book && LevelOf(o) == level
  {
    if book == [] then []
    else
      var last := book[|book| - 1];
      assert book == book[..|book| - 1] + [last];
      At(book[..|book| - 1], level) + (if LevelOf(last) == level then [last] else [])
  }

  function TotalSize(orders: seq<OwnOrder>): int {
    if orders == [] then 0 else TotalSize(orders[..|orders| - 1]) + orders[|orders| - 1].size
  }

  ghost predicate DistinctIds(book: seq<OwnOrder>) {
    forall i, j :: 0 <= i < j < |book| ==> book[i].orderId != book[j].orderId
  }

  // ── Trimming an over-full level ──────────────────────────────────────────

  datatype Trim = Trim(cancels: seq<OwnOrder>, reduces: seq<ReduceIntent>)

  const NO_TRIM: Trim := Trim([], [])

  /** From the trailing order: cancel while it fits in the excess, then reduce one. */
  function TrimBy(orders: seq<OwnOrder>, excess: int): Trim {
    if orders == [] || excess <= 0 then NO_TRIM
    else
      var last := orders[|orders| - 1];
      if last.size <= excess then
        var rest := TrimBy(orders[..|orders| - 1], excess - last.size);
        Trim([last] + rest.cancels, rest.reduces)
      else
        Trim([], [ReduceIntent(last.orderId, last.size - excess, last.side)])
  }

  function TrimOf(desired: seq<OrderIntent>, cfg: Config, book: seq<OwnOrder>, level: Level): Trim {
    if IsStale(EdgesOf(desired), cfg.staleBandAllowance, level) || !IsDesired(desired, level) then NO_TRIM
    else
      var excess := TotalSize(At(book, level)) - WantedAt(desired, level);
      if excess > 0 && AboveThreshold(cfg, level.price, excess) then TrimBy(At(book, level), excess) else NO_TRIM
  }

  // ── Applying a diff ──────────────────────────────────────────────────────

  predicate IsCancelled(cancels: seq<OwnOrder>, id: OrderId) {
    exists i :: 0 <= i < |cancels| && cancels[i].orderId == id
  }

  function ReducedSize(reduces: seq<ReduceIntent>, o: OwnOrder): int {
    if reduces == [] then o.size
    else if reduces[|reduces| - 1].orderId == o.orderId then reduces[|reduces| - 1].newSize
    else ReducedSize(reduces[..|reduces| - 1], o)
  }

  /** The resting orders after the cancels and the in-place reduces. */
  function Applied(book: seq<OwnOrder>, cancels: seq<OwnOrder>, reduces: seq<ReduceIntent>): seq<OwnOrder> {
    if book == [] then []
    else
      var last := book[|book| - 1];
      Applied(book[..|book| - 1], cancels, reduces) +
      (if IsCancelled(cancels, last.orderId) then [] else [last.(size := ReducedSize(reduces, last))])
  }

  function MissingAt(cfg: Config, book: seq<OwnOrder>, i: OrderIntent): int {
    i.size - TotalSize(At(book, Level(i.side, i.price)))
  }

  predicate NeedsTopUp(cfg: Config, book: seq<OwnOrder>, i: OrderIntent) {
    var deficit := MissingAt(cfg, book, i);
    deficit > 0 && AboveThreshold(cfg, i.price, deficit)
  }

  /** What is missing from a book, one create per short level. */
  function TopUps(cfg: Config, book: seq<OwnOrder>, desired: seq<OrderIntent>): seq<OrderIntent> {
    if desired == [] then []
    else
      var last := desired[|desired| - 1];
      TopUps(cfg, book, desired[..|desired| - 1]) +
      (if NeedsTopUp(cfg, book, last) then [OrderIntent(last.side, last.price, MissingAt(cfg, book, last))] else [])
  }

  /** Exactly the stale orders and the trims of the over-full levels, each order once. */
  ghost predicate IsStaleDiff(desired: seq<OrderIntent>, cfg: Config, book: seq<OwnOrder>, cancels: seq<OwnOrder>,
                              reduces: seq<ReduceIntent>) {
    && (forall o :: o in cancels <==>
          && o in book
          && (|| IsStale(EdgesOf(desired), cfg.staleBandAllowance, LevelOf(o))
              || o in TrimOf(desired, cfg, book, LevelOf(o)).cancels))
    && (forall r :: r in reduces <==> exists o :: o in book && r in TrimOf(desired, cfg, book, LevelOf(o)).reduces)
    && EachOnce(cancels, reduces)
  }

  /** No order is cancelled twice, reduced twice, or both. */
  ghost predicate EachOnce(cancels: seq<OwnOrder>, reduces: seq<ReduceIntent>) {
    && DistinctIds(cancels)
    && (forall i, j :: 0 <= i < j < |reduces| ==> reduces[i].orderId != reduces[j].orderId)
    && (forall o, r :: o in cancels && r in reduces ==> o.orderId != r.orderId)
  }

  /** Nothing stale, nothing over-full, nothing short. */
  ghost predicate NothingToDo(desired: seq<OrderIntent>, cfg: Config, book: seq<OwnOrder>) {
    && (forall o :: o in book ==> !IsStale(EdgesOf(desired), cfg.staleBandAllowance, LevelOf(o)))
    && (forall o :: o in book ==> TrimOf(desired, cfg, book, LevelOf(o)) == NO_TRIM)
    && (forall i :: i in desired ==> !NeedsTopUp(cfg, book, i))
  }

  lemma TrimIsWithin(orders: seq<OwnOrder>, excess: int)
    ensures forall o :: o in TrimBy(orders, excess).cancels ==> o in orders
    ensures forall r :: r in TrimBy(orders, excess).reduces ==>
            exists o :: o in orders && o.orderId == r.orderId && o.side == r.side && 0 < r.newSize < o.size
    ensures |TrimBy(orders, excess).reduces| <= 1
    decreases |orders|
  {
    if orders != [] && excess > 0 {
      var last, init := orders[|orders| - 1], orders[..|orders| - 1];
      assert orders == init + [last];
      if last.size <= excess {
        TrimIsWithin(init, excess - last.size);
      } else {
        assert last in orders;
      }
    }
  }

  lemma {:induction false} TrimIsDistinct(orders: seq<OwnOrder>, excess: int)
    requires DistinctIds(orders)
    ensures DistinctIds(TrimBy(orders, excess).cancels)
    ensures forall o, r :: o in TrimBy(orders, excess).cancels && r in TrimBy(orders, excess).reduces ==>
            o.orderId != r.orderId
    decreases |orders|
  {
    if orders != [] && excess > 0 {
      var last, init := orders[|orders| - 1], orders[..|orders| - 1];
      if last.size <= excess {
        TrimIsDistinct(init, excess - last.size);
        TrimIsWithin(init, excess - last.size);
        assert forall o :: o in init ==> o.orderId != last.orderId;
        var rest := TrimBy(init, excess - last.size).cancels;
        assert forall i :: 0 <= i < |rest| ==> rest[i] in rest;
      }
    }
  }

  lemma WantedAppend(desired: seq<OrderIntent>, i: OrderIntent, k: Level)
    ensures WantedAt(desired + [i], k) == WantedAt(desired, k) + (if Level(i.side, i.price) == k then i.size else 0)
  {
    assert (desired + [i])[..|desired|] == desired;
  }

  lemma EdgesAppend(desired: seq<OrderIntent>, i: OrderIntent)
    ensures EdgesOf(desired + [i]) == Widened(EdgesOf(desired), i)
  {
    assert (desired + [i])[..|desired|] == desired;
  }

  lemma DesiredAppend(desired: seq<OrderIntent>, i: OrderIntent)
    ensures forall k :: IsDesired(desired + [i], k) <==> IsDesired(desired, k) || k == Level(i.side, i.price)
  {
    var longer := desired + [i];
    forall k ensures IsDesired(longer, k) <==> IsDesired(desired, k) || k == Level(i.side, i.price) {
      if IsDesired(desired, k) {
        var n :| 0 <= n < |desired| && Level(desired[n].side, desired[n].price) == k;
        assert longer[n] == desired[n];
      }
      assert longer[|desired|] == i;
    }
  }

  lemma AtAppend(book: seq<OwnOrder>, o: OwnOrder)
    ensures forall k :: At(book + [o], k) == At(book, k) + (if LevelOf(o) == k then [o] else [])
  {
    assert (book + [o])[..|book|] == book;
  }

  // ── Grouping by level ────────────────────────────────────────────────────

  /** The stale orders of a book, each once. */
  ghost predicate StalePart(e: Edges, allowance: int, book: seq<OwnOrder>, cancels: seq<OwnOrder>) {
    && (forall o :: o in cancels <==> o in book && IsStale(e, allowance, LevelOf(o)))
    && DistinctIds(cancels)
  }

  /** The levels that stay, with their orders in book order, and the keys in a list. */
  ghost predicate Grouped(e: Edges, allowance: int, book: seq<OwnOrder>, byKey: map<Level, seq<OwnOrder>>,
                          keys: seq<Level>) {
    && (forall k :: k in byKey <==> !IsStale(e, allowance, k) && At(book, k) != [])
    && (forall k :: k in byKey ==> byKey[k] == At(book, k))
    && (forall k :: k in keys <==> k in byKey)
    && (forall i, j :: 0 <= i < j < |keys| ==> keys[i] != keys[j])
  }

  lemma StalePartAppend(e: Edges, allowance: int, book: seq<OwnOrder>, order: OwnOrder, cancels: seq<OwnOrder>)
    requires StalePart(e, allowance, book, cancels) && DistinctIds(book + [order])
    ensures StalePart(e, allowance, book + [order],
                      if IsStale(e, allowance, LevelOf(order)) then cancels + [order] else cancels)
  {
    forall o | o in cancels ensures o.orderId != order.orderId {
      var m :| 0 <= m < |book| && book[m] == o;
      assert (book + [order])[m] == o && (book + [order])[|book|] == order;
    }
    assert forall i :: 0 <= i < |cancels| ==> cancels[i] in cancels;
  }

  lemma AtAppendAt(book: seq<OwnOrder>, o: OwnOrder, k: Level)
    ensures At(book + [o], k) == if LevelOf(o) == k then At(book, k) + [o] else At(book, k)
  {
    AtAppend(book, o);
    assert At(book, k) + [] == At(book, k);
  }

  ghost predicate AtGrows(book: seq<OwnOrder>, order: OwnOrder) {
    forall x :: At(book + [order], x) == if LevelOf(order) == x then At(book, x) + [order] else At(book, x)
  }

  lemma GroupedExisting(e: Edges, allowance: int, book: seq<OwnOrder>, order: OwnOrder,
                        byKey: map<Level, seq<OwnOrder>>, keys: seq<Level>)
    requires Grouped(e, allowance, book, byKey, keys) && AtGrows(book, order) && LevelOf(order) in byKey
    ensures Grouped(e, allowance, book + [order], byKey[LevelOf(order) := byKey[LevelOf(order)] + [order]], keys)
  {
    hide IsStale, At;
  }

  lemma GroupedNew(e: Edges, allowance: int, book: seq<OwnOrder>, order: OwnOrder, byKey: map<Level, seq<OwnOrder>>,
                   keys: seq<Level>)
    requires Grouped(e, allowance, book, byKey, keys) && AtGrows(book, order)
    requires !IsStale(e, allowance, LevelOf(order)) && LevelOf(order) !in byKey
    ensures Grouped(e, allowance, book + [order], byKey[LevelOf(order) := [order]], keys + [LevelOf(order)])
  {
    hide IsStale, At, LevelOf;
    var k := LevelOf(order);
    var grown := book + [order];
    assert At(book, k) == [];
    assert At(grown, k) == [order] by { assert [] + [order] == [order]; }
    forall x ensures At(grown, x) == if x == k then [order] else At(book, x) {
      assert At(grown, x) == if k == x then At(book, x) + [order] else At(book, x);
    }
    assert forall x :: x in keys + [k] <==> x in keys || x == k;
    assert forall i :: 0 <= i < |keys| ==> keys[i] in keys;
  }

  lemma GroupedAppend(e: Edges, allowance: int, book: seq<OwnOrder>, order: OwnOrder,
                      byKey: map<Level, seq<OwnOrder>>, keys: seq<Level>)
    requires Grouped(e, allowance, book, byKey, keys)
    ensures var k := LevelOf(order);
            if IsStale(e, allowance, k) then Grouped(e, allowance, book + [order], byKey, keys)
            else if k in byKey then Grouped(e, allowance, book + [order], byKey[k := byKey[k] + [order]], keys)
            else Grouped(e, allowance, book + [order], byKey[k := [order]], keys + [k])
  {
    hide IsStale, At;
    var k := LevelOf(order);
    forall x ensures At(book + [order], x) == if k == x then At(book, x) + [order]
      else At(book, x) { AtAppendAt(book, order, x); }
    if IsStale(e, allowance, k) {
    } else if k in byKey {
      GroupedExisting(e, allowance, book, order, byKey, keys);
    } else {
      GroupedNew(e, allowance, book, order, byKey, keys);
    }
  }

  /** What trimming from the end has done once only the first i orders are untouched. */
  ghost predicate TrimProgress(orders: seq<OwnOrder>, excess0: int, i: nat, excess: int, cancels: seq<OwnOrder>,
                               reduces: seq<ReduceIntent>)
    requires i <= |orders|
  {
    if excess > 0 then
      var rest := TrimBy(orders[..i], excess);
      reduces == [] && TrimBy(orders, excess0) == Trim(cancels + rest.cancels, rest.reduces)
    else
      TrimBy(orders, excess0) == Trim(cancels, reduces)
  }

  lemma TrimStep(orders: seq<OwnOrder>, excess0: int, i: nat, excess: int, cancels: seq<OwnOrder>)
    requires i < |orders| && excess > 0
    requires TrimProgress(orders, excess0, i + 1, excess, cancels, [])
    ensures var o := orders[i];
            if o.size <= excess then TrimProgress(orders, excess0, i, excess - o.size, cancels + [o], [])
            else TrimProgress(orders, excess0, i, 0, cancels, [ReduceIntent(o.orderId, o.size - excess, o.side)])
  {
    var o, prefix := orders[i], orders[..i + 1];
    assert prefix[|prefix| - 1] == o && prefix[..|prefix| - 1] == orders[..i];
    if o.size <= excess {
      var rest := TrimBy(orders[..i], excess - o.size);
      assert TrimBy(prefix, excess) == Trim([o] + rest.cancels, rest.reduces);
      assert cancels + ([o] + rest.cancels) == (cancels + [o]) + rest.cancels;
      assert excess == o.size ==> (cancels + [o]) + [] == cancels + [o];
    } else {
      assert cancels + [] == cancels;
    }
  }

  lemma TrimDone(orders: seq<OwnOrder>, excess0: int, i: nat, cancels: seq<OwnOrder>, reduces: seq<ReduceIntent>)
    requires i <= |orders| && TrimProgress(orders, excess0, i, 0, cancels, reduces)
    ensures TrimBy(orders, excess0) == Trim(cancels, reduces)
  {
  }

  lemma TrimEnds(orders: seq<OwnOrder>, excess0: int)
    ensures excess0 > 0 ==> TrimProgress(orders, excess0, |orders|, excess0, [], [])
    ensures forall excess, cancels, reduces :: TrimProgress(orders, excess0, 0, excess, cancels, reduces) ==>
            TrimBy(orders, excess0) == Trim(cancels, reduces)
  {
    var t := TrimBy(orders, excess0);
    assert orders[..|orders|] == orders && [] + t.cancels == t.cancels;
    forall excess, cancels, reduces | TrimProgress(orders, excess0, 0, excess, cancels, reduces)
      ensures t == Trim(cancels, reduces) {
      assert cancels + [] == cancels;
    }
  }

  // ── Walking the levels ───────────────────────────────────────────────────

  lemma IdsIdentify(book: seq<OwnOrder>)
    requires DistinctIds(book)
    ensures forall o, p :: o in book && p in book && o.orderId == p.orderId ==> o == p
  {
  }

  lemma {:induction false} LevelIsDistinct(book: seq<OwnOrder>, k: Level)
    requires DistinctIds(book)
    ensures DistinctIds(At(book, k))
  {
    if book != [] {
      var init, last := book[..|book| - 1], book[|book| - 1];
      LevelIsDistinct(init, k);
      var front := At(init, k);
      forall i | 0 <= i < |front| ensures front[i].orderId != last.orderId {
        assert front[i] in front;
        var m :| 0 <= m < |init| && init[m] == front[i];
        assert book[m] == front[i];
      }
    }
  }

  /** The diff so far: all stale orders, and the trims of the levels walked. */
  ghost predicate Walked(desired: seq<OrderIntent>, cfg: Config, book: seq<OwnOrder>, done: seq<Level>,
                         cancels: seq<OwnOrder>, reduces: seq<ReduceIntent>) {
    && (forall o :: o in cancels <==>
          && o in book
          && (|| IsStale(EdgesOf(desired), cfg.staleBandAllowance, LevelOf(o))
              || (LevelOf(o) in done && o in TrimOf(desired, cfg, book, LevelOf(o)).cancels)))
    && (forall r :: r in reduces <==> exists k :: k in done && r in TrimOf(desired, cfg, book, k).reduces)
    && (forall r :: r in reduces ==> exists o :: o in book && LevelOf(o) in done && o.orderId == r.orderId)
    && EachOnce(cancels, reduces)
  }

  /** Everything a trim touches rests at its level, and is touched once. */
  lemma TrimOfLevel(desired: seq<OrderIntent>, cfg: Config, book: seq<OwnOrder>, k: Level)
    requires DistinctIds(book)
    ensures var t := TrimOf(desired, cfg, book, k);
            && EachOnce(t.cancels, t.reduces)
            && (forall o :: o in t.cancels ==> o in book && LevelOf(o) == k)
            && (forall r :: r in t.reduces ==> exists o :: o in book && LevelOf(o) == k && o.orderId == r.orderId)
  {
    LevelIsDistinct(book, k);
    var orders := At(book, k);
    var excess := TotalSize(orders) - WantedAt(desired, k);
    TrimIsWithin(orders, excess);
    TrimIsDistinct(orders, excess);
  }

  lemma OnceTogether(cancels: seq<OwnOrder>, reduces: seq<ReduceIntent>, cancels': seq<OwnOrder>,
                     reduces': seq<ReduceIntent>)
    requires EachOnce(cancels, reduces) && EachOnce(cancels', reduces')
    requires forall o, p :: o in cancels && p in cancels' ==> o.orderId != p.orderId
    requires forall o, r :: o in cancels && r in reduces' ==> o.orderId != r.orderId
    requires forall r, o :: r in reduces && o in cancels' ==> r.orderId != o.orderId
    requires forall r, q :: r in reduces && q in reduces' ==> r.orderId != q.orderId
    ensures EachOnce(cancels + cancels', reduces + reduces')
  {
    assert forall i :: 0 <= i < |cancels| ==> cancels[i] in cancels;
    assert forall i :: 0 <= i < |cancels'| ==> cancels'[i] in cancels';
    assert forall i :: 0 <= i < |reduces| ==> reduces[i] in reduces;
    assert forall i :: 0 <= i < |reduces'| ==> reduces'[i] in reduces';
  }

  lemma StaleWalked(desired: seq<OrderIntent>, cfg: Config, book: seq<OwnOrder>, stale: seq<OwnOrder>)
    requires StalePart(EdgesOf(desired), cfg.staleBandAllowance, book, stale)
    ensures Walked(desired, cfg, book, [], stale, [])
  {
    hide IsStale, EdgesOf, TrimOf;
  }

  lemma LevelWalked(desired: seq<OrderIntent>, cfg: Config, book: seq<OwnOrder>, done: seq<Level>,
                    cancels: seq<OwnOrder>, reduces: seq<ReduceIntent>, k: Level)
    requires DistinctIds(book) && Walked(desired, cfg, book, done, cancels, reduces)
    requires k !in done && !IsStale(EdgesOf(desired), cfg.staleBandAllowance, k)
    ensures var t := TrimOf(desired, cfg, book, k);
            Walked(desired, cfg, book, done + [k], cancels + t.cancels, reduces + t.reduces)
  {
    hide TrimOf, IsStale, EdgesOf, DistinctIds, EachOnce;
    var t := TrimOf(desired, cfg, book, k);
    TrimOfLevel(desired, cfg, book, k);
    NewlyTouched(desired, cfg, book, done, cancels, reduces, k);
    OnceTogether(cancels, reduces, t.cancels, t.reduces);
    WalkedReduces(desired, cfg, book, done, reduces, k);
  }

  /** What the next level touches was not touched before. */
  lemma NewlyTouched(desired: seq<OrderIntent>, cfg: Config, book: seq<OwnOrder>, done: seq<Level>,
                     cancels: seq<OwnOrder>, reduces: seq<ReduceIntent>, k: Level)
    requires DistinctIds(book) && Walked(desired, cfg, book, done, cancels, reduces)
    requires k !in done && !IsStale(EdgesOf(desired), cfg.staleBandAllowance, k)
    ensures var t := TrimOf(desired, cfg, book, k);
            && (forall o, p :: o in cancels && p in t.cancels ==> o.orderId != p.orderId)
            && (forall o, r :: o in cancels && r in t.reduces ==> o.orderId != r.orderId)
            && (forall r, o :: r in reduces && o in t.cancels ==> r.orderId != o.orderId)
            && (forall r, q :: r in reduces && q in t.reduces ==> r.orderId != q.orderId)
  {
    TrimOfLevel(desired, cfg, book, k);
    IdsIdentify(book);
    hide TrimOf, IsStale, EdgesOf, DistinctIds, EachOnce;
    assert forall o :: o in cancels ==> o in book && LevelOf(o) != k;
    assert forall r :: r in reduces ==> exists o :: o in book && LevelOf(o) != k && o.orderId == r.orderId;
  }

  lemma WalkedReduces(desired: seq<OrderIntent>, cfg: Config, book: seq<OwnOrder>, done: seq<Level>,
                      reduces: seq<ReduceIntent>, k: Level)
    requires forall r :: r in reduces <==> exists x :: x in done && r in TrimOf(desired, cfg, book, x).reduces
    ensures forall r :: r in reduces + TrimOf(desired, cfg, book, k).reduces <==>
            exists x :: x in done + [k] && r in TrimOf(desired, cfg, book, x).reduces
  {
    hide TrimOf;
    var all := reduces + TrimOf(desired, cfg, book, k).reduces;
    forall r ensures r in all <==> exists x :: x in done + [k] && r in TrimOf(desired, cfg, book, x).reduces {
      if r in reduces {
        var x :| x in done && r in TrimOf(desired, cfg, book, x).reduces;
        assert x in done + [k];
      }
      if r in TrimOf(desired, cfg, book, k).reduces {
        assert k in done + [k];
      }
    }
  }

  lemma AllWalked(desired: seq<OrderIntent>, cfg: Config, book: seq<OwnOrder>, done: seq<Level>,
                  cancels: seq<OwnOrder>, reduces: seq<ReduceIntent>)
    requires Walked(desired, cfg, book, done, cancels, reduces)
    requires forall k :: k in done <==> !IsStale(EdgesOf(desired), cfg.staleBandAllowance, k) && At(book, k) != []
    ensures IsStaleDiff(desired, cfg, book, cancels, reduces)
  {
    hide EachOnce, EdgesOf, IsStale;
    forall o | o in book ensures LevelOf(o) in done || IsStale(EdgesOf(desired), cfg.staleBandAllowance, LevelOf(o)) {
      assert o in At(book, LevelOf(o));
    }
    forall r ensures r in reduces <==> exists o :: o in book && r in TrimOf(desired, cfg, book, LevelOf(o)).reduces {
      if r in reduces {
        var k :| k in done && r in TrimOf(desired, cfg, book, k).reduces;
        var o := At(book, k)[0];
        assert o in At(book, k);
      }
      if o :| o in book && r in TrimOf(desired, cfg, book, LevelOf(o)).reduces {
        assert LevelOf(o) in done;
      }
    }
  }

  // ── Sizes after a diff ───────────────────────────────────────────────────

  function SizeIn(m: map<Level, int>, k: Level): int {
    if k in m then m[k] else 0
  }

  lemma TotalAppend(book: seq<OwnOrder>, o: OwnOrder)
    ensures forall k :: TotalSize(At(book + [o], k)) == TotalSize(At(book, k)) + (if LevelOf(o) == k then o.size else 0)
  {
    forall k ensures TotalSize(At(book + [o], k)) == TotalSize(At(book, k)) + (if LevelOf(o) == k then o.size else 0) {
      AtAppendAt(book, o, k);
      assert (At(book, k) + [o])[..|At(book, k)|] == At(book, k);
    }
  }

  lemma {:induction false} NothingApplied(book: seq<OwnOrder>)
    ensures Applied(book, [], []) == book
  {
    if book != [] {
      NothingApplied(book[..|book| - 1]);
      assert book == book[..|book| - 1] + [book[|book| - 1]];
    }
  }

  lemma {:induction false} NoTopUps(cfg: Config, book: seq<OwnOrder>, desired: seq<OrderIntent>)
    ensures TopUps(cfg, book, desired) == [] <==> forall i :: i in desired ==> !NeedsTopUp(cfg, book, i)
  {
    if desired != [] {
      hide NeedsTopUp, MissingAt;
      var init, last := desired[..|desired| - 1], desired[|desired| - 1];
      NoTopUps(cfg, book, init);
      assert desired == init + [last];
    }
  }

  /** An empty stale diff means nothing is stale and nothing is over-full. */
  lemma EmptyDiff(desired: seq<OrderIntent>, cfg: Config, book: seq<OwnOrder>, cancels: seq<OwnOrder>,
                  reduces: seq<ReduceIntent>)
    requires IsStaleDiff(desired, cfg, book, cancels, reduces)
    ensures cancels == [] && reduces == [] <==>
              (forall o :: o in book ==>
               !IsStale(EdgesOf(desired), cfg.staleBandAllowance, LevelOf(o)) &&
               TrimOf(desired, cfg, book, LevelOf(o)) == NO_TRIM)
  {
    hide IsStale, EdgesOf, TrimOf, EachOnce;
    if cancels == [] && reduces == [] {
      forall o | o in book ensures TrimOf(desired, cfg, book, LevelOf(o)) == NO_TRIM {
        var t := TrimOf(desired, cfg, book, LevelOf(o));
        TrimTouchesBook(desired, cfg, book, LevelOf(o));
        assert forall c :: c in t.cancels ==> c in cancels;
        assert forall r :: r in t.reduces ==> r in reduces;
        Inhabited(t.cancels);
        Inhabited(t.reduces);
      }
    }
    Inhabited(cancels);
    Inhabited(reduces);
  }

  lemma Inhabited<T>(xs: seq<T>)
    ensures xs != [] ==> exists x :: x in xs
  {
    if xs != [] {
      assert xs[0] in xs;
    }
  }

  lemma TrimTouchesBook(desired: seq<OrderIntent>, cfg: Config, book: seq<OwnOrder>, k: Level)
    ensures forall o :: o in TrimOf(desired, cfg, book, k).cancels ==> o in book && LevelOf(o) == k
  {
    var orders := At(book, k);
    TrimIsWithin(orders, TotalSize(orders) - WantedAt(desired, k));
  }

  // ── The executor ─────────────────────────────────────────────────────────

  datatype Stats = Stats(ordersPlaced: int, ordersCancelled: int, reconcileCount: int)

  datatype Plan = Plan(cancels: seq<OwnOrder>, reduces: seq<ReduceIntent>, creates: seq<OrderIntent>)

  class OrderExecutor {
    const cfg: Config
    /** The tracked book's own orders, in the map's insertion order. */
    var ownOrders: seq<OwnOrder>
    var stats: Stats
    var lastRequoteAt: int
    var lastQuoteMidPrice: int

    constructor (cfg: Config, ownOrders: seq<OwnOrder>)
      ensures this.cfg == cfg && this.ownOrders == ownOrders
      ensures stats == Stats(0, 0, 0) && lastRequoteAt == lastQuoteMidPrice == 0
    {
      this.cfg, this.ownOrders := cfg, ownOrders;
      stats, lastRequoteAt, lastQuoteMidPrice := Stats(0, 0, 0), 0, 0;
    }

    /** The grid's edges and the size wanted at each level. */
    method ScanDesired(desired: seq<OrderIntent>) returns (e: Edges, desiredSize: map<Level, int>)
      ensures e == EdgesOf(desired)
      ensures forall k :: k in desiredSize <==> IsDesired(desired, k)
      ensures forall k :: k in desiredSize ==> desiredSize[k] == WantedAt(desired, k)
    {
      e, desiredSize := Edges(None, None, None, None), map[];
      assert desired[..0] == [];
      hide EdgesOf, WantedAt, IsDesired;
      for n := 0 to |desired|
        invariant e == EdgesOf(desired[..n])
        invariant forall k :: k in desiredSize <==> IsDesired(desired[..n], k)
        invariant forall k :: (if k in desiredSize then desiredSize[k] else 0) == WantedAt(desired[..n], k)
      {
        var i := desired[n];
        var k := Level(i.side, i.price);
        assert desired[..n + 1] == desired[..n] + [i];
        DesiredAppend(desired[..n], i);
        EdgesAppend(desired[..n], i);
        forall x ensures WantedAt(desired[..n + 1], x) == WantedAt(desired[..n], x) + (if k == x then i.size else 0) {
          WantedAppend(desired[..n], i, x);
        }
        desiredSize := desiredSize[k := (if k in desiredSize then desiredSize[k] else 0) + i.size];
        if i.side == Buy {
          if e.worstBid.None? || i.price < e.worstBid.value { e := e.(worstBid := Some(i.price)); }
          if e.bestBid.None? || i.price > e.bestBid.value { e := e.(bestBid := Some(i.price)); }
        } else {
          if e.worstAsk.None? || i.price > e.worstAsk.value { e := e.(worstAsk := Some(i.price)); }
          if e.bestAsk.None? || i.price < e.bestAsk.value { e := e.(bestAsk := Some(i.price)); }
        }
      }
      assert desired[..|desired|] == desired;
    }

    /** Split the book into stale orders and the levels that stay. */
    method SplitBook(e: Edges) returns (cancels: seq<OwnOrder>, byKey: map<Level, seq<OwnOrder>>, keys: seq<Level>)
      requires DistinctIds(ownOrders)
      ensures StalePart(e, cfg.staleBandAllowance, ownOrders, cancels)
      ensures Grouped(e, cfg.staleBandAllowance, ownOrders, byKey, keys)
    {
      cancels, byKey, keys := [], map[], [];
      for n := 0 to |ownOrders|
        invariant StalePart(e, cfg.staleBandAllowance, ownOrders[..n], cancels)
        invariant Grouped(e, cfg.staleBandAllowance, ownOrders[..n], byKey, keys)
      {
        hide StalePart, Grouped;
        var order := ownOrders[n];
        assert ownOrders[..n + 1] == ownOrders[..n] + [order];
        StalePartAppend(e, cfg.staleBandAllowance, ownOrders[..n], order, cancels);
        GroupedAppend(e, cfg.staleBandAllowance, ownOrders[..n], order, byKey, keys);
        if IsStale(e, cfg.staleBandAllowance, LevelOf(order)) {
          cancels := cancels + [order];
          continue;
        }
        var k := LevelOf(order);
        if k in byKey {
          byKey := byKey[k := byKey[k] + [order]];
        } else {
          byKey := byKey[k := [order]];
          keys := keys + [k];
        }
      }
      assert ownOrders[..|ownOrders|] == ownOrders;
    }

    /** The trailing orders of one level that exceed what is wanted. */
    method TrimLevel(orders: seq<OwnOrder>, excess0: int) returns (cancels: seq<OwnOrder>, reduces: seq<ReduceIntent>)
      requires excess0 > 0
      ensures Trim(cancels, reduces) == TrimBy(orders, excess0)
    {
      hide TrimBy, TrimProgress;
      cancels, reduces := [], [];
      var excess := excess0;
      var i := |orders| - 1;
      TrimEnds(orders, excess0);
      while i >= 0 && excess > 0
        invariant -1 <= i < |orders| && excess >= 0
        invariant excess > 0 ==> reduces == []
        invariant TrimProgress(orders, excess0, i + 1, excess, cancels, reduces)
      {
        var o := orders[i];
        TrimStep(orders, excess0, i, excess, cancels);
        if o.size <= excess {
          cancels := cancels + [o];
          excess := excess - o.size;
        } else {
          reduces := [ReduceIntent(o.orderId, o.size - excess, o.side)];
          excess := 0;
        }
        i := i - 1;
      }
      if excess == 0 { TrimDone(orders, excess0, i + 1, cancels, reduces); }
    }

    /** Everything to cancel or reduce, each order at most once. */
    method FindStaleOrders(desired: seq<OrderIntent>) returns (cancels: seq<OwnOrder>, reduces: seq<ReduceIntent>)
      requires DistinctIds(ownOrders)
      ensures IsStaleDiff(desired, cfg, ownOrders, cancels, reduces)
    {
      var e, desiredSize := ScanDesired(desired);
      var stale, byKey, keys := SplitBook(e);
      cancels, reduces := stale, [];
      StaleWalked(desired, cfg, ownOrders, stale);
      for n := 0 to |keys|
        invariant Walked(desired, cfg, ownOrders, keys[..n], cancels, reduces)
      {
        hide Walked, TrimOf, IsStaleDiff, StalePart;
        var k := keys[n];
        assert k in keys;
        assert keys[..n + 1] == keys[..n] + [k];
        var c, r := TrimExcess(desired, desiredSize, k, byKey[k]);
        LevelWalked(desired, cfg, ownOrders, keys[..n], cancels, reduces, k);
        cancels, reduces := cancels + c, reduces + r;
      }
      assert keys[..|keys|] == keys;
      AllWalked(desired, cfg, ownOrders, keys, cancels, reduces);
    }

    /** One level that stays: leave it unless it is on the grid and over-full past the allowance. */
    method TrimExcess(desired: seq<OrderIntent>, desiredSize: map<Level, int>, k: Level, orders: seq<OwnOrder>)
      returns (cancels: seq<OwnOrder>, reduces: seq<ReduceIntent>)
      requires forall x :: x in desiredSize <==> IsDesired(desired, x)
      requires forall x :: x in desiredSize ==> desiredSize[x] == WantedAt(desired, x)
      requires orders == At(ownOrders, k) != [] && !IsStale(EdgesOf(desired), cfg.staleBandAllowance, k)
      ensures Trim(cancels, reduces) == TrimOf(desired, cfg, ownOrders, k)
    {
      hide TrimBy, IsStale, Allowance, At;
      cancels, reduces := [], [];
      assert LevelOf(orders[0]) == k by { assert orders[0] in At(ownOrders, k); }
      if k !in desiredSize { return; }
      var want := desiredSize[k];
      var have := SumSizes(orders);
      if have <= want { return; }
      var excess := have - want;
      if !AboveThreshold(cfg, orders[0].price, excess) { return; }
      cancels, reduces := TrimLevel(orders, excess);
    }

    method SumSizes(orders: seq<OwnOrder>) returns (have: int)
      ensures have == TotalSize(orders)
    {
      have := 0;
      for n := 0 to |orders|
        invariant have == TotalSize(orders[..n])
      {
        assert orders[..n + 1][..n] == orders[..n];
        have := have + orders[n].size;
      }
      assert orders[..|orders|] == orders;
    }

    /** The size resting at each level once cancels and reduces are taken out. */
    method AggregateOwnSize(cancels: seq<OwnOrder>, reduces: seq<ReduceIntent>) returns (m: map<Level, int>)
      ensures forall k :: SizeIn(m, k) == TotalSize(At(Applied(ownOrders, cancels, reduces), k))
    {
      m := map[];
      for n := 0 to |ownOrders|
        invariant forall k :: SizeIn(m, k) == TotalSize(At(Applied(ownOrders[..n], cancels, reduces), k))
      {
        var o := ownOrders[n];
        assert ownOrders[..n + 1][..n] == ownOrders[..n];
        if IsCancelled(cancels, o.orderId) {
          assert Applied(ownOrders[..n + 1], cancels, reduces) == Applied(ownOrders[..n], cancels, reduces);
          continue;
        }
        var kept := o.(size := ReducedSize(reduces, o));
        TotalAppend(Applied(ownOrders[..n], cancels, reduces), kept);
        m := m[LevelOf(o) := SizeIn(m, LevelOf(o)) + kept.size];
      }
      assert ownOrders[..|ownOrders|] == ownOrders;
    }

    /** Desired levels still short of size after this plan's cancels and reduces. */
    method FindNewOrders(desired: seq<OrderIntent>, cancels: seq<OwnOrder>, reduces: seq<ReduceIntent>)
      returns (creates: seq<OrderIntent>)
      ensures creates == TopUps(cfg, Applied(ownOrders, cancels, reduces), desired)
    {
      var existing := AggregateOwnSize(cancels, reduces);
      ghost var after := Applied(ownOrders, cancels, reduces);
      creates := [];
      for n := 0 to |desired|
        invariant creates == TopUps(cfg, after, desired[..n])
      {
        hide Allowance, At, TotalSize, Applied;
        var i := desired[n];
        assert desired[..n + 1][..n] == desired[..n];
        var deficit := i.size - SizeIn(existing, Level(i.side, i.price));
        assert deficit == MissingAt(cfg, after, i);
        if deficit > 0 && AboveThreshold(cfg, i.price, deficit) {
          creates := creates + [OrderIntent(i.side, i.price, deficit)];
        }
      }
      assert desired[..|desired|] == desired;
    }

    method HasQuantityDeficit(desired: seq<OrderIntent>) returns (short: bool)
      ensures short <==> exists i :: i in desired && NeedsTopUp(cfg, ownOrders, i)
    {
      var existing := AggregateOwnSize([], []);
      NothingApplied(ownOrders);
      for n := 0 to |desired|
        invariant forall i :: i in desired[..n] ==> !NeedsTopUp(cfg, ownOrders, i)
      {
        hide Allowance, At, TotalSize, Applied;
        var i := desired[n];
        assert desired[..n + 1] == desired[..n] + [i];
        var deficit := i.size - SizeIn(existing, Level(i.side, i.price));
        assert deficit == MissingAt(cfg, ownOrders, i);
        if deficit > 0 && AboveThreshold(cfg, i.price, deficit) {
          assert i in desired && NeedsTopUp(cfg, ownOrders, i);
          return true;
        }
      }
      assert desired[..|desired|] == desired;
      return false;
    }

    /** Too soon after the last requote; a throttled executor waits three times as long. */
    predicate CoolingDown(c: Conditions)
      reads this
    {
      c.now - lastRequoteAt < (if c.throttled then cfg.requoteCooldownMs * 3 else cfg.requoteCooldownMs)
    }

    /** Oracle drift in ticks since the last requote; none before the first. */
    function PriceDriftTicks(c: Conditions): Option<int>
      reads this
    {
      if lastQuoteMidPrice == 0 then None
      else if c.tick == 0 then Some(0)
      else Some(TruncDiv(Abs(c.oraclePrice - lastQuoteMidPrice), c.tick))
    }

    /** A gas spike, and a drift not yet urgent. */
    predicate HeldByGas(c: Conditions)
      reads this
    {
      c.gasSpiking && PriceDriftTicks(c).Some? && PriceDriftTicks(c).value < cfg.urgentRequoteThresholdTicks
    }

    /** The cheap trigger. Past the cooldown it stays silent only when the full diff is empty. */
    method ShouldRequote(desired: seq<OrderIntent>, c: Conditions) returns (requote: bool)
      requires DistinctIds(ownOrders)
      ensures requote <==> !CoolingDown(c) && (|ownOrders| < |desired| || !NothingToDo(desired, cfg, ownOrders))
    {
      var elapsed := c.now - lastRequoteAt;
      var cooldownMs := if c.throttled then cfg.requoteCooldownMs * 3 else cfg.requoteCooldownMs;
      if elapsed < cooldownMs { return false; }
      if |ownOrders| < |desired| { return true; }
      var short := HasQuantityDeficit(desired);
      if short { return true; }
      var cancels, reduces := FindStaleOrders(desired);
      EmptyDiff(desired, cfg, ownOrders, cancels, reduces);
      return |cancels| > 0 || |reduces| > 0;
    }

    /** No plan while cooling down or held by gas; otherwise a plan exactly when there is work. */
    method MakePlan(desired: seq<OrderIntent>, c: Conditions) returns (plan: Option<Plan>)
      requires DistinctIds(ownOrders)
      ensures plan.Some? <==> !CoolingDown(c) && !HeldByGas(c) && !NothingToDo(desired, cfg, ownOrders)
      ensures plan.Some? ==> IsStaleDiff(desired, cfg, ownOrders, plan.value.cancels, plan.value.reduces)
      ensures plan.Some? ==>
              plan.value.creates == TopUps(cfg, Applied(ownOrders, plan.value.cancels, plan.value.reduces), desired)
    {
      var requote := ShouldRequote(desired, c);
      if !requote { return None; }
      if c.gasSpiking {
        var drift := PriceDriftTicks(c);
        if drift.Some? && drift.value < cfg.urgentRequoteThresholdTicks { return None; }
      }
      var cancels, reduces := FindStaleOrders(desired);
      var creates := FindNewOrders(desired, cancels, reduces);
      EmptyDiff(desired, cfg, ownOrders, cancels, reduces);
      if |cancels| == 0 && |reduces| == 0 {
        NothingApplied(ownOrders);
        NoTopUps(cfg, ownOrders, desired);
      }
      if |cancels| == 0 && |reduces| == 0 && |creates| == 0 { return None; }
      return Some(Plan(cancels, reduces, creates));
    }

    /**
     Counts the requote and starts the two gates: no plan until the cooldown has passed, and
     during a gas spike none while the oracle stays nearer than the urgent threshold to the
     price quoted.
     */
    method RecordRequote(placed: int, cancelled: int, c: Conditions)
      modifies this
      ensures ownOrders == old(ownOrders)
      ensures stats == Stats(old(stats.ordersPlaced) + placed, old(stats.ordersCancelled) + cancelled,
                             old(stats.reconcileCount) + 1)
      ensures forall later: Conditions ::
                CoolingDown(later) <==> later.now < c.now + cfg.requoteCooldownMs * (if later.throttled then 3 else 1)
      ensures c.oraclePrice != 0 ==> forall later: Conditions ::
              later.tick > 0 && cfg.urgentRequoteThresholdTicks >= 0 ==>
              (HeldByGas(later) <==>
               && later.gasSpiking
               && Abs(later.oraclePrice - c.oraclePrice) < cfg.urgentRequoteThresholdTicks * later.tick)
      ensures c.oraclePrice != 0 ==> forall later: Conditions :: later.tick == 0 ==>
                (HeldByGas(later) <==> later.gasSpiking && cfg.urgentRequoteThresholdTicks > 0)
      ensures c.oraclePrice == 0 ==> forall later: Conditions :: !HeldByGas(later)
    {
      stats := stats.(ordersCancelled := stats.ordersCancelled + cancelled,
                      ordersPlaced := stats.ordersPlaced + placed);
      lastRequoteAt, lastQuoteMidPrice := c.now, c.oraclePrice;
      stats := stats.(reconcileCount := stats.reconcileCount + 1);
      forall later: Conditions | later.tick > 0 && cfg.urgentRequoteThresholdTicks >= 0 && c.oraclePrice != 0
        ensures HeldByGas(later) <==>
                && later.gasSpiking
                && Abs(later.oraclePrice - c.oraclePrice) < cfg.urgentRequoteThresholdTicks * later.tick
      {
        UnderThreshold(Abs(later.oraclePrice - c.oraclePrice), later.tick, cfg.urgentRequoteThresholdTicks);
      }
    }
  }

  lemma UnderThreshold(distance: int, tick: int, threshold: int)
    requires distance >= 0 && tick > 0
    ensures TruncDiv(distance, tick) < threshold <==> distance < threshold * tick
  {
    DivMod(distance, tick);
    var q := distance / tick;
    if q < threshold {
      MulOrder(q + 1, threshold, tick);
    } else {
      MulOrder(threshold, q, tick);
    }
  }
}
