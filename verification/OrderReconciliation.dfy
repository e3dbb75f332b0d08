/**
 What applying a diff achieves: an uncrossed book, every desired level within the size
 allowance of its target, and nothing left to do.
 */
module OrderReconciliation {
  import opened Arithmetic
  import opened OrderDiff
  import opened Sides

  // ── The grid ─────────────────────────────────────────────────────────────

  ghost predicate DistinctLevels(desired: seq<OrderIntent>) {
    forall i, j :: 0 <= i < j < |desired| ==>
      Level(desired[i].side, desired[i].price) != Level(desired[j].side, desired[j].price)
  }

  /** Best desired bid below best desired ask, when both sides are quoted. */
  ghost predicate UncrossedGrid(desired: seq<OrderIntent>) {
    var e := EdgesOf(desired);
    e.bestBid.Some? && e.bestAsk.Some? ==> e.bestBid.value < e.bestAsk.value
  }

  /** The edges of a grid enclose its prices, and exist exactly for the sides it quotes. */
  ghost predicate Encloses(e: Edges, desired: seq<OrderIntent>) {
    && (e.worstBid.Some? <==> e.bestBid.Some?) && (e.worstAsk.Some? <==> e.bestAsk.Some?)
    && (forall i :: i in desired && i.side == Buy ==> e.bestBid.Some? && e.worstBid.value <= i.price <= e.bestBid.value)
    && (forall i :: i in desired && i.side == Sell ==>
        e.bestAsk.Some? && e.bestAsk.value <= i.price <= e.worstAsk.value)
  }

  lemma WidenedEncloses(e: Edges, desired: seq<OrderIntent>, i: OrderIntent)
    requires Encloses(e, desired)
    ensures Encloses(Widened(e, i), desired + [i])
  {
    assert forall x :: x in desired + [i] <==> x in desired || x == i;
  }

  lemma {:induction false} EdgesBound(desired: seq<OrderIntent>)
    ensures Encloses(EdgesOf(desired), desired)
  {
    if desired != [] {
      var init, last := desired[..|desired| - 1], desired[|desired| - 1];
      EdgesBound(init);
      WidenedEncloses(EdgesOf(init), init, last);
      assert desired == init + [last];
    }
  }

  /** A level of an uncrossed grid is never stale. */
  lemma DesiredIsNotStale(desired: seq<OrderIntent>, allowance: int, k: Level)
    requires UncrossedGrid(desired) && allowance >= 0 && IsDesired(desired, k)
    ensures !IsStale(EdgesOf(desired), allowance, k)
  {
    EdgesBound(desired);
    var n :| 0 <= n < |desired| && Level(desired[n].side, desired[n].price) == k;
    assert desired[n] in desired;
  }

  lemma {:induction false} WantedIsItsSize(desired: seq<OrderIntent>, n: nat)
    requires DistinctLevels(desired) && n < |desired|
    ensures WantedAt(desired, Level(desired[n].side, desired[n].price)) == desired[n].size
    decreases |desired|
  {
    var init, last := desired[..|desired| - 1], desired[|desired| - 1];
    if n < |desired| - 1 {
      WantedIsItsSize(init, n);
      assert init[n] == desired[n];
    } else {
      NotWanted(init, Level(last.side, last.price));
    }
  }

  lemma {:induction false} NotWanted(desired: seq<OrderIntent>, k: Level)
    requires forall n :: 0 <= n < |desired| ==> Level(desired[n].side, desired[n].price) != k
    ensures WantedAt(desired, k) == 0
  {
    if desired != [] {
      NotWanted(desired[..|desired| - 1], k);
    }
  }

  // ── Applying a trim to one level ─────────────────────────────────────────

  ghost predicate NonnegativeSizes(book: seq<OwnOrder>) {
    forall o :: o in book ==> o.size >= 0
  }

  /** Cancels and reduces touch these orders exactly as the trim says. */
  ghost predicate Realizes(orders: seq<OwnOrder>, t: Trim, cancels: seq<OwnOrder>, reduces: seq<ReduceIntent>) {
    && |t.reduces| <= 1
    && (forall o :: o in orders ==> (IsCancelled(cancels, o.orderId) <==> o in t.cancels))
    && (forall o :: o in orders && o !in t.cancels ==>
          ReducedSize(reduces, o) == if t.reduces != [] && t.reduces[0].orderId == o.orderId then t.reduces[0].newSize
            else o.size)
  }

  lemma {:induction false} Untouched(orders: seq<OwnOrder>, cancels: seq<OwnOrder>, reduces: seq<ReduceIntent>)
    requires forall o :: o in orders ==> !IsCancelled(cancels, o.orderId) && ReducedSize(reduces, o) == o.size
    ensures Applied(orders, cancels, reduces) == orders
  {
    if orders != [] {
      hide IsCancelled, ReducedSize;
      var init, last := orders[..|orders| - 1], orders[|orders| - 1];
      assert orders == init + [last];
      Untouched(init, cancels, reduces);
    }
  }

  lemma {:induction false} TotalIsNonnegative(orders: seq<OwnOrder>)
    requires NonnegativeSizes(orders)
    ensures TotalSize(orders) >= 0
  {
    if orders != [] {
      assert orders == orders[..|orders| - 1] + [orders[|orders| - 1]];
      TotalIsNonnegative(orders[..|orders| - 1]);
    }
  }

  /** What a trim leaves: a prefix in arrival order, then at most one order made smaller. */
  ghost predicate PrefixThenSmaller(orders: seq<OwnOrder>, left: seq<OwnOrder>) {
    exists p ::
      && 0 <= p <= |orders| && |left| <= p + 1 <= |orders| + 1 && p <= |left| && left[..p] == orders[..p]
      && (|left| == p + 1 ==>
          p < |orders| && left[p] == orders[p].(size := left[p].size) && 0 < left[p].size < orders[p].size)
  }

  /** Trimming takes out exactly the excess, from the trailing end. */
  lemma {:induction false} AppliedTrim(orders: seq<OwnOrder>, excess: int, cancels: seq<OwnOrder>,
                                       reduces: seq<ReduceIntent>)
    requires DistinctIds(orders) && NonnegativeSizes(orders) && 0 <= excess <= TotalSize(orders)
    requires Realizes(orders, TrimBy(orders, excess), cancels, reduces)
    ensures TotalSize(Applied(orders, cancels, reduces)) == TotalSize(orders) - excess
    ensures PrefixThenSmaller(orders, Applied(orders, cancels, reduces))
    decreases |orders|
  {
    hide Realizes, DistinctIds, NonnegativeSizes, IsCancelled, ReducedSize, TrimBy, PrefixThenSmaller;
    if orders == [] || excess == 0 {
      NothingTrimmed(orders, excess, cancels, reduces);
    } else if orders[|orders| - 1].size <= excess {
      InitRealizes(orders, excess, cancels, reduces);
      InitIsSound(orders);
      var init, last := orders[..|orders| - 1], orders[|orders| - 1];
      AppliedTrim(init, excess - last.size, cancels, reduces);
      assert Applied(orders, cancels, reduces) == Applied(init, cancels, reduces);
      PrefixExtends(init, last, Applied(init, cancels, reduces));
    } else {
      LastReduced(orders, excess, cancels, reduces);
    }
  }

  lemma NothingTrimmed(orders: seq<OwnOrder>, excess: int, cancels: seq<OwnOrder>, reduces: seq<ReduceIntent>)
    requires orders == [] || excess == 0
    requires Realizes(orders, TrimBy(orders, excess), cancels, reduces)
    ensures Applied(orders, cancels, reduces) == orders && PrefixThenSmaller(orders, orders)
    ensures orders == [] ==> TotalSize(orders) == 0
  {
    assert TrimBy(orders, excess) == NO_TRIM;
    hide IsCancelled, ReducedSize;
    Untouched(orders, cancels, reduces);
    assert orders[..|orders|] == orders;
  }

  lemma InitIsSound(orders: seq<OwnOrder>)
    requires DistinctIds(orders) && NonnegativeSizes(orders) && orders != []
    ensures DistinctIds(orders[..|orders| - 1]) && NonnegativeSizes(orders[..|orders| - 1])
    ensures orders == orders[..|orders| - 1] + [orders[|orders| - 1]]
  {
  }

  /** The excess ends inside the last order: only that one gets smaller. */
  lemma LastReduced(orders: seq<OwnOrder>, excess: int, cancels: seq<OwnOrder>, reduces: seq<ReduceIntent>)
    requires DistinctIds(orders) && orders != [] && 0 < excess < orders[|orders| - 1].size
    requires Realizes(orders, TrimBy(orders, excess), cancels, reduces)
    ensures TotalSize(Applied(orders, cancels, reduces)) == TotalSize(orders) - excess
    ensures PrefixThenSmaller(orders, Applied(orders, cancels, reduces))
  {
    var init, last := orders[..|orders| - 1], orders[|orders| - 1];
    var smaller := last.(size := last.size - excess);
    assert orders == init + [last];
    LastAlone(orders, excess, cancels, reduces);
    Untouched(init, cancels, reduces);
    AppliedAppend(init, last, cancels, reduces);
    ShorterLast(init, last, smaller);
  }

  lemma LastAlone(orders: seq<OwnOrder>, excess: int, cancels: seq<OwnOrder>, reduces: seq<ReduceIntent>)
    requires DistinctIds(orders) && orders != [] && 0 < excess < orders[|orders| - 1].size
    requires Realizes(orders, TrimBy(orders, excess), cancels, reduces)
    ensures var init, last := orders[..|orders| - 1], orders[|orders| - 1];
            && (forall o :: o in init ==> !IsCancelled(cancels, o.orderId) && ReducedSize(reduces, o) == o.size)
            && !IsCancelled(cancels, last.orderId) && ReducedSize(reduces, last) == last.size - excess
  {
    hide IsCancelled, ReducedSize;
    var init, last := orders[..|orders| - 1], orders[|orders| - 1];
    assert TrimBy(orders, excess) == Trim([], [ReduceIntent(last.orderId, last.size - excess, last.side)]);
    assert orders == init + [last];
    assert forall o :: o in init ==> o in orders && o.orderId != last.orderId;
    assert last in orders;
  }

  lemma ShorterLast(init: seq<OwnOrder>, last: OwnOrder, smaller: OwnOrder)
    requires smaller == last.(size := smaller.size) && 0 < smaller.size < last.size
    ensures TotalSize(init + [smaller]) == TotalSize(init + [last]) - last.size + smaller.size
    ensures PrefixThenSmaller(init + [last], init + [smaller])
  {
    var left, orders := init + [smaller], init + [last];
    assert left[..|init|] == init && orders[..|init|] == init;
  }

  lemma InitRealizes(orders: seq<OwnOrder>, excess: int, cancels: seq<OwnOrder>, reduces: seq<ReduceIntent>)
    requires DistinctIds(orders) && orders != [] && excess > 0 && orders[|orders| - 1].size <= excess
    requires Realizes(orders, TrimBy(orders, excess), cancels, reduces)
    ensures Realizes(orders[..|orders| - 1], TrimBy(orders[..|orders| - 1], excess - orders[|orders| - 1].size),
                     cancels, reduces)
    ensures IsCancelled(cancels, orders[|orders| - 1].orderId)
  {
    hide IsCancelled, ReducedSize;
    var init, last := orders[..|orders| - 1], orders[|orders| - 1];
    assert orders == init + [last];
    var rest := TrimBy(init, excess - last.size);
    assert TrimBy(orders, excess) == Trim([last] + rest.cancels, rest.reduces);
    assert last !in init;
    assert forall o :: o in [last] + rest.cancels <==> o == last || o in rest.cancels;
  }

  lemma PrefixExtends(init: seq<OwnOrder>, last: OwnOrder, left: seq<OwnOrder>)
    requires PrefixThenSmaller(init, left)
    ensures PrefixThenSmaller(init + [last], left)
  {
    var p :| 0 <= p <= |init| && |left| <= p + 1 <= |init| + 1 && p <= |left| && left[..p] == init[..p] &&
      (|left| == p + 1 ==> p < |init| && left[p] == init[p].(size := left[p].size) && 0 < left[p].size < init[p].size);
    assert (init + [last])[..p] == init[..p];
  }

  // ── Applying a diff level by level ───────────────────────────────────────

  lemma {:induction false} AtApplied(book: seq<OwnOrder>, cancels: seq<OwnOrder>, reduces: seq<ReduceIntent>, k: Level)
    ensures At(Applied(book, cancels, reduces), k) == Applied(At(book, k), cancels, reduces)
  {
    if book != [] {
      var init, last := book[..|book| - 1], book[|book| - 1];
      assert book == init + [last];
      AtApplied(init, cancels, reduces, k);
      AtAppliedAppend(init, last, cancels, reduces, k);
    }
  }

  lemma AtAppliedAppend(init: seq<OwnOrder>, last: OwnOrder, cancels: seq<OwnOrder>, reduces: seq<ReduceIntent>,
                        k: Level)
    requires At(Applied(init, cancels, reduces), k) == Applied(At(init, k), cancels, reduces)
    ensures At(Applied(init + [last], cancels, reduces), k) == Applied(At(init + [last], k), cancels, reduces)
  {
    hide IsCancelled, ReducedSize, At, Applied;
    var applied, kept := Applied(init, cancels, reduces), last.(size := ReducedSize(reduces, last));
    AppliedAppend(init, last, cancels, reduces);
    AtAppendAt(init, last, k);
    AtAppendAt(applied, kept, k);
    AppliedAppend(At(init, k), last, cancels, reduces);
    if IsCancelled(cancels, last.orderId) {
      assert Applied(init + [last], cancels, reduces) == applied;
    }
  }

  lemma AppliedAppend(book: seq<OwnOrder>, o: OwnOrder, cancels: seq<OwnOrder>, reduces: seq<ReduceIntent>)
    ensures Applied(book + [o], cancels, reduces)
         == Applied(book, cancels, reduces) +
           (if IsCancelled(cancels, o.orderId) then [] else [o.(size := ReducedSize(reduces, o))])
  {
    assert (book + [o])[..|book|] == book;
  }

  lemma {:induction false} ReducedSizeOf(reduces: seq<ReduceIntent>, o: OwnOrder)
    requires forall i, j :: 0 <= i < j < |reduces| ==> reduces[i].orderId != reduces[j].orderId
    ensures forall r :: r in reduces && r.orderId == o.orderId ==> ReducedSize(reduces, o) == r.newSize
    ensures (forall r :: r in reduces ==> r.orderId != o.orderId) ==> ReducedSize(reduces, o) == o.size
  {
    if reduces != [] {
      var init, last := reduces[..|reduces| - 1], reduces[|reduces| - 1];
      assert reduces == init + [last];
      ReducedSizeOf(init, o);
    }
  }

  lemma CancelledMembers(book: seq<OwnOrder>, cancels: seq<OwnOrder>, o: OwnOrder)
    requires DistinctIds(book) && o in book && forall c :: c in cancels ==> c in book
    ensures IsCancelled(cancels, o.orderId) <==> o in cancels
  {
    IdsIdentify(book);
    if IsCancelled(cancels, o.orderId) {
      var i :| 0 <= i < |cancels| && cancels[i].orderId == o.orderId;
      assert cancels[i] in cancels;
    }
    if o in cancels {
      var i :| 0 <= i < |cancels| && cancels[i] == o;
    }
  }

  /** The diff realizes each level's trim on that level. */
  lemma LevelRealizes(desired: seq<OrderIntent>, cfg: Config, book: seq<OwnOrder>, cancels: seq<OwnOrder>,
                      reduces: seq<ReduceIntent>, k: Level)
    requires DistinctIds(book) && IsStaleDiff(desired, cfg, book, cancels, reduces)
    requires !IsStale(EdgesOf(desired), cfg.staleBandAllowance, k)
    ensures Realizes(At(book, k), TrimOf(desired, cfg, book, k), cancels, reduces)
  {
    hide IsStale, EdgesOf, IsCancelled, ReducedSize, DistinctIds, IsStaleDiff, TrimOf, At;
    TrimReducesOne(desired, cfg, book, k);
    var t := TrimOf(desired, cfg, book, k);
    forall o | o in At(book, k) ensures IsCancelled(cancels, o.orderId) <==> o in t.cancels {
      AtMembers(book, k, o);
      LevelCancels(desired, cfg, book, cancels, reduces, k, o);
    }
    forall o | o in At(book, k) && o !in t.cancels
      ensures ReducedSize(reduces, o) == if t.reduces != [] &&
              t.reduces[0].orderId == o.orderId then t.reduces[0].newSize else o.size
    {
      AtMembers(book, k, o);
      ReducedAtLevel(desired, cfg, book, cancels, reduces, o);
    }
  }

  lemma TrimReducesOne(desired: seq<OrderIntent>, cfg: Config, book: seq<OwnOrder>, k: Level)
    ensures |TrimOf(desired, cfg, book, k).reduces| <= 1
  {
    TrimIsWithin(At(book, k), TotalSize(At(book, k)) - WantedAt(desired, k));
  }

  lemma LevelCancels(desired: seq<OrderIntent>, cfg: Config, book: seq<OwnOrder>, cancels: seq<OwnOrder>,
                     reduces: seq<ReduceIntent>, k: Level, o: OwnOrder)
    requires DistinctIds(book) && IsStaleDiff(desired, cfg, book, cancels, reduces)
    requires !IsStale(EdgesOf(desired), cfg.staleBandAllowance, k)
    requires o in book && LevelOf(o) == k
    ensures IsCancelled(cancels, o.orderId) <==> o in TrimOf(desired, cfg, book, k).cancels
  {
    hide IsStale, EdgesOf, IsCancelled, DistinctIds, TrimOf, EachOnce;
    CancelledMembers(book, cancels, o);
  }

  lemma AtMembers(book: seq<OwnOrder>, k: Level, o: OwnOrder)
    ensures o in At(book, k) <==> o in book && LevelOf(o) == k
  {
  }

  lemma ReducedAtLevel(desired: seq<OrderIntent>, cfg: Config, book: seq<OwnOrder>, cancels: seq<OwnOrder>,
                       reduces: seq<ReduceIntent>, o: OwnOrder)
    requires DistinctIds(book) && IsStaleDiff(desired, cfg, book, cancels, reduces) && o in book
    requires |TrimOf(desired, cfg, book, LevelOf(o)).reduces| <= 1
    ensures var t := TrimOf(desired, cfg, book, LevelOf(o));
            ReducedSize(reduces, o) == if t.reduces != [] &&
              t.reduces[0].orderId == o.orderId then t.reduces[0].newSize else o.size
  {
    hide TrimOf, ReducedSize, IsStaleDiff, DistinctIds;
    StaleDiffReduces(desired, cfg, book, cancels, reduces, o);
    ReducedSizeOf(reduces, o);
    var t := TrimOf(desired, cfg, book, LevelOf(o));
    forall r | r in reduces && r.orderId == o.orderId ensures r in t.reduces {
      ReduceBelongs(desired, cfg, book, cancels, reduces, o, r);
    }
    assert forall r :: r in t.reduces ==> r == t.reduces[0];
  }

  lemma StaleDiffReduces(desired: seq<OrderIntent>, cfg: Config, book: seq<OwnOrder>, cancels: seq<OwnOrder>,
                         reduces: seq<ReduceIntent>, o: OwnOrder)
    requires IsStaleDiff(desired, cfg, book, cancels, reduces) && o in book
    ensures forall i, j :: 0 <= i < j < |reduces| ==> reduces[i].orderId != reduces[j].orderId
    ensures var t := TrimOf(desired, cfg, book, LevelOf(o)); t.reduces != [] ==> t.reduces[0] in reduces
  {
    hide TrimOf, IsStale, EdgesOf;
    var t := TrimOf(desired, cfg, book, LevelOf(o));
    assert t.reduces != [] ==> t.reduces[0] in t.reduces;
  }

  /** A reduce of a resting order comes from the trim of that order's level. */
  lemma ReduceBelongs(desired: seq<OrderIntent>, cfg: Config, book: seq<OwnOrder>, cancels: seq<OwnOrder>,
                      reduces: seq<ReduceIntent>, o: OwnOrder, r: ReduceIntent)
    requires DistinctIds(book) && IsStaleDiff(desired, cfg, book, cancels, reduces) && o in book
    requires r in reduces && r.orderId == o.orderId
    ensures r in TrimOf(desired, cfg, book, LevelOf(o)).reduces
  {
    var p :| p in book && r in TrimOf(desired, cfg, book, LevelOf(p)).reduces;
    TrimOfLevel(desired, cfg, book, LevelOf(p));
    IdsIdentify(book);
    hide TrimOf, DistinctIds, IsStale, EdgesOf, EachOnce;
    var q :| q in book && LevelOf(q) == LevelOf(p) && q.orderId == r.orderId;
    assert q == o;
  }

  /** The size at a level after the cancels and reduces. */
  lemma SizeAfter(desired: seq<OrderIntent>, cfg: Config, book: seq<OwnOrder>, cancels: seq<OwnOrder>,
                  reduces: seq<ReduceIntent>, k: Level)
    requires DistinctIds(book) && NonnegativeSizes(book) && IsStaleDiff(desired, cfg, book, cancels, reduces)
    requires !IsStale(EdgesOf(desired), cfg.staleBandAllowance, k) && WantedAt(desired, k) >= 0
    ensures var have, left := TotalSize(At(book, k)), At(Applied(book, cancels, reduces), k);
            var excess := have - WantedAt(desired, k);
            && TotalSize(left) == (if IsDesired(desired, k) && excess > 0 &&
                                   AboveThreshold(cfg, k.price, excess) then WantedAt(desired, k) else have)
            && PrefixThenSmaller(At(book, k), left)
  {
    hide IsStale, EdgesOf, Allowance, Realizes, IsStaleDiff, Applied, PrefixThenSmaller, DistinctIds, At, TotalSize,
      WantedAt, IsDesired, TrimOf, TrimBy;
    LevelRealizes(desired, cfg, book, cancels, reduces, k);
    AtApplied(book, cancels, reduces, k);
    LevelIsDistinct(book, k);
    AtIsNonnegative(book, k);
    var orders := At(book, k);
    TrimOfIs(desired, cfg, book, k);
    AppliedTrim(orders, TrimmedExcess(desired, cfg, book, k), cancels, reduces);
  }

  /** How much a level that stays is trimmed by. */
  function TrimmedExcess(desired: seq<OrderIntent>, cfg: Config, book: seq<OwnOrder>, k: Level): int {
    var excess := TotalSize(At(book, k)) - WantedAt(desired, k);
    if IsDesired(desired, k) && excess > 0 && AboveThreshold(cfg, k.price, excess) then excess else 0
  }

  lemma TrimOfIs(desired: seq<OrderIntent>, cfg: Config, book: seq<OwnOrder>, k: Level)
    requires !IsStale(EdgesOf(desired), cfg.staleBandAllowance, k)
    ensures TrimOf(desired, cfg, book, k) == TrimBy(At(book, k), TrimmedExcess(desired, cfg, book, k))
  {
    hide IsStale, EdgesOf, Allowance, At, TotalSize, WantedAt, IsDesired;
  }

  lemma AtIsNonnegative(book: seq<OwnOrder>, k: Level)
    requires NonnegativeSizes(book)
    ensures NonnegativeSizes(At(book, k)) && TotalSize(At(book, k)) >= 0
  {
    TotalIsNonnegative(At(book, k));
  }

  // ── What a diff cancels off the grid ─────────────────────────────────────

  /** The edges are prices of the grid. */
  ghost predicate EdgesAreQuoted(e: Edges, desired: seq<OrderIntent>) {
    && (e.worstBid.Some? ==> exists i :: i in desired && i.side == Buy && i.price == e.worstBid.value)
    && (e.bestBid.Some? ==> exists i :: i in desired && i.side == Buy && i.price == e.bestBid.value)
    && (e.worstAsk.Some? ==> exists i :: i in desired && i.side == Sell && i.price == e.worstAsk.value)
    && (e.bestAsk.Some? ==> exists i :: i in desired && i.side == Sell && i.price == e.bestAsk.value)
  }

  lemma WidenedIsQuoted(e: Edges, desired: seq<OrderIntent>, i: OrderIntent)
    requires EdgesAreQuoted(e, desired)
    ensures EdgesAreQuoted(Widened(e, i), desired + [i])
  {
    assert i in desired + [i] && forall x :: x in desired ==> x in desired + [i];
  }

  lemma {:induction false} EdgesComeFromGrid(desired: seq<OrderIntent>)
    ensures EdgesAreQuoted(EdgesOf(desired), desired)
  {
    if desired != [] {
      hide EdgesAreQuoted, Widened;
      var init := desired[..|desired| - 1];
      EdgesComeFromGrid(init);
      WidenedIsQuoted(EdgesOf(init), init, desired[|desired| - 1]);
      assert desired == init + [desired[|desired| - 1]];
    }
  }

  /** The keep zone of a bid, on the grid itself. */
  ghost predicate BidIsKept(desired: seq<OrderIntent>, allowance: int, price: int) {
    && (exists i :: i in desired && i.side == Buy && i.price <= price + allowance)
    && (exists i :: i in desired && i.side == Buy && price <= i.price)
    && (forall i :: i in desired && i.side == Sell ==> price < i.price)
  }

  ghost predicate AskIsKept(desired: seq<OrderIntent>, allowance: int, price: int) {
    && (exists i :: i in desired && i.side == Sell && price - allowance <= i.price)
    && (exists i :: i in desired && i.side == Sell && i.price <= price)
    && (forall i :: i in desired && i.side == Buy ==> i.price < price)
  }

  lemma StaleBids(desired: seq<OrderIntent>, allowance: int, price: int)
    ensures IsStale(EdgesOf(desired), allowance, Level(Buy, price)) <==> !BidIsKept(desired, allowance, price)
  {
    hide EdgesOf;
    EdgesBound(desired);
    EdgesComeFromGrid(desired);
  }

  lemma StaleAsks(desired: seq<OrderIntent>, allowance: int, price: int)
    ensures IsStale(EdgesOf(desired), allowance, Level(Sell, price)) <==> !AskIsKept(desired, allowance, price)
  {
    hide EdgesOf;
    EdgesBound(desired);
    EdgesComeFromGrid(desired);
  }

  /**
   A resting bid at a level nobody wants is cancelled if and only if it lies further than the
   allowance below every desired bid, above every desired bid, or at or above some desired ask.
   With no bid desired the first holds of every bid.
   */
  lemma BidsCancelledExactly(desired: seq<OrderIntent>, cfg: Config, book: seq<OwnOrder>, cancels: seq<OwnOrder>,
                             reduces: seq<ReduceIntent>, o: OwnOrder)
    requires IsStaleDiff(desired, cfg, book, cancels, reduces) && o in book && o.side == Buy
    requires forall i :: i in desired && i.side == Buy ==> i.price != o.price
    ensures o in cancels <==>
            || (forall i :: i in desired && i.side == Buy ==> o.price + cfg.staleBandAllowance < i.price)
            || (forall i :: i in desired && i.side == Buy ==> i.price < o.price)
            || (exists i :: i in desired && i.side == Sell && i.price <= o.price)
  {
    hide IsStale, EdgesOf;
    StaleBids(desired, cfg.staleBandAllowance, o.price);
    OffGridIsNotTrimmed(desired, cfg, book, LevelOf(o));
    hide TrimOf, EachOnce;
  }

  /** The mirror image for asks. */
  lemma AsksCancelledExactly(desired: seq<OrderIntent>, cfg: Config, book: seq<OwnOrder>, cancels: seq<OwnOrder>,
                             reduces: seq<ReduceIntent>, o: OwnOrder)
    requires IsStaleDiff(desired, cfg, book, cancels, reduces) && o in book && o.side == Sell
    requires forall i :: i in desired && i.side == Sell ==> i.price != o.price
    ensures o in cancels <==>
            || (forall i :: i in desired && i.side == Sell ==> i.price + cfg.staleBandAllowance < o.price)
            || (forall i :: i in desired && i.side == Sell ==> o.price < i.price)
            || (exists i :: i in desired && i.side == Buy && o.price <= i.price)
  {
    hide IsStale, EdgesOf;
    StaleAsks(desired, cfg.staleBandAllowance, o.price);
    OffGridIsNotTrimmed(desired, cfg, book, LevelOf(o));
    hide TrimOf, EachOnce;
  }

  lemma OffGridIsNotTrimmed(desired: seq<OrderIntent>, cfg: Config, book: seq<OwnOrder>, k: Level)
    requires forall i :: i in desired && i.side == k.side ==> i.price != k.price
    ensures TrimOf(desired, cfg, book, k) == NO_TRIM
  {
    assert forall n :: 0 <= n < |desired| ==> desired[n] in desired;
  }

  // ── Survivors and creates ────────────────────────────────────────────────

  /** The creates as they come to rest. */
  function Placed(creates: seq<OrderIntent>, ids: seq<OrderId>): (r: seq<OwnOrder>)
    requires |ids| == |creates|
    ensures |r| == |creates|
    ensures forall i :: 0 <= i < |r| ==> r[i] == OwnOrder(ids[i], creates[i].price, creates[i].side, creates[i].size)
  {
    if creates == [] then []
    else
      var n := |creates| - 1;
      Placed(creates[..n], ids[..n]) + [OwnOrder(ids[n], creates[n].price, creates[n].side, creates[n].size)]
  }

  /** The book once the whole plan has landed. */
  function After(book: seq<OwnOrder>, plan: Plan, ids: seq<OrderId>): seq<OwnOrder>
    requires |ids| == |plan.creates|
  {
    Applied(book, plan.cancels, plan.reduces) + Placed(plan.creates, ids)
  }

  ghost predicate IsPlan(desired: seq<OrderIntent>, cfg: Config, book: seq<OwnOrder>, plan: Plan) {
    && IsStaleDiff(desired, cfg, book, plan.cancels, plan.reduces)
    && plan.creates == TopUps(cfg, Applied(book, plan.cancels, plan.reduces), desired)
  }

  lemma {:induction false} SurvivorsRest(book: seq<OwnOrder>, cancels: seq<OwnOrder>, reduces: seq<ReduceIntent>,
                                         o: OwnOrder)
    requires o in Applied(book, cancels, reduces)
    ensures exists p ::
            p in book && LevelOf(p) == LevelOf(o) && p.orderId == o.orderId && !IsCancelled(cancels, p.orderId)
  {
    var init, last := book[..|book| - 1], book[|book| - 1];
    assert book == init + [last];
    if o in Applied(init, cancels, reduces) {
      SurvivorsRest(init, cancels, reduces, o);
    } else {
      assert last in book;
    }
  }

  lemma SurvivorsAreNotStale(desired: seq<OrderIntent>, cfg: Config, book: seq<OwnOrder>, cancels: seq<OwnOrder>,
                             reduces: seq<ReduceIntent>, o: OwnOrder)
    requires IsStaleDiff(desired, cfg, book, cancels, reduces) && o in Applied(book, cancels, reduces)
    ensures !IsStale(EdgesOf(desired), cfg.staleBandAllowance, LevelOf(o))
  {
    hide IsStale, EdgesOf;
    SurvivorsRest(book, cancels, reduces, o);
    var p :| p in book && LevelOf(p) == LevelOf(o) && p.orderId == o.orderId && !IsCancelled(cancels, p.orderId);
    MembersAreCancelled(cancels, p);
  }

  lemma MembersAreCancelled(cancels: seq<OwnOrder>, o: OwnOrder)
    ensures o in cancels ==> IsCancelled(cancels, o.orderId)
  {
    if o in cancels {
      var i :| 0 <= i < |cancels| && cancels[i] == o;
    }
  }

  lemma {:induction false} TopUpsAreDesired(cfg: Config, book: seq<OwnOrder>, desired: seq<OrderIntent>)
    ensures forall c :: c in TopUps(cfg, book, desired) ==> IsDesired(desired, Level(c.side, c.price)) && c.size > 0
  {
    if desired != [] {
      var init, last := desired[..|desired| - 1], desired[|desired| - 1];
      assert desired == init + [last];
      TopUpsAreDesired(cfg, book, init);
      DesiredAppend(init, last);
    }
  }

  /** Nothing in the resulting book is stale. */
  lemma AfterIsNotStale(desired: seq<OrderIntent>, cfg: Config, book: seq<OwnOrder>, plan: Plan, ids: seq<OrderId>,
                        o: OwnOrder)
    requires IsPlan(desired, cfg, book, plan) && |ids| == |plan.creates|
    requires UncrossedGrid(desired) && cfg.staleBandAllowance >= 0
    requires o in After(book, plan, ids)
    ensures !IsStale(EdgesOf(desired), cfg.staleBandAllowance, LevelOf(o))
  {
    hide IsStale, EdgesOf;
    if o in Applied(book, plan.cancels, plan.reduces) {
      SurvivorsAreNotStale(desired, cfg, book, plan.cancels, plan.reduces, o);
    } else {
      var placed := Placed(plan.creates, ids);
      var i :| 0 <= i < |placed| && placed[i] == o;
      assert plan.creates[i] in plan.creates;
      TopUpsAreDesired(cfg, Applied(book, plan.cancels, plan.reduces), desired);
      DesiredIsNotStale(desired, cfg.staleBandAllowance, LevelOf(o));
    }
  }

  /** After the plan, every own bid is strictly below every own ask. */
  lemma PlanUncrossesBook(desired: seq<OrderIntent>, cfg: Config, book: seq<OwnOrder>, plan: Plan, ids: seq<OrderId>)
    requires IsPlan(desired, cfg, book, plan) && |ids| == |plan.creates|
    requires UncrossedGrid(desired) && cfg.staleBandAllowance >= 0
    ensures forall bid, ask ::
            bid in After(book, plan, ids) && ask in After(book, plan, ids) && bid.side == Buy && ask.side == Sell ==>
            bid.price < ask.price
  {
    hide IsPlan;
    EdgesBound(desired);
    forall bid, ask | bid in After(book, plan, ids) && ask in After(book, plan, ids) && bid.side == Buy &&
      ask.side == Sell ensures bid.price < ask.price {
      AfterIsNotStale(desired, cfg, book, plan, ids, bid);
      AfterIsNotStale(desired, cfg, book, plan, ids, ask);
    }
  }

  // ── The fixpoint ─────────────────────────────────────────────────────────

  lemma {:induction false} TotalOfSum(xs: seq<OwnOrder>, ys: seq<OwnOrder>, k: Level)
    ensures TotalSize(At(xs + ys, k)) == TotalSize(At(xs, k)) + TotalSize(At(ys, k))
  {
    if ys == [] {
      assert xs + ys == xs;
    } else {
      hide At, TotalSize;
      var init, last := ys[..|ys| - 1], ys[|ys| - 1];
      assert xs + ys == (xs + init) + [last] && ys == init + [last];
      TotalOfSum(xs, init, k);
      TotalAppend(xs + init, last);
      TotalAppend(init, last);
    }
  }

  /** Placing creates brings each level the size they ask for there. */
  lemma {:induction false} PlacedSize(creates: seq<OrderIntent>, ids: seq<OrderId>, k: Level)
    requires |ids| == |creates|
    ensures TotalSize(At(Placed(creates, ids), k)) == WantedAt(creates, k)
  {
    if creates != [] {
      var n := |creates| - 1;
      PlacedSize(creates[..n], ids[..n], k);
      TotalAppend(Placed(creates[..n], ids[..n]), OwnOrder(ids[n], creates[n].price, creates[n].side, creates[n].size));
    }
  }

  /** With distinct levels, a level is topped up by its whole deficit or not at all. */
  lemma {:induction false} TopUpAt(cfg: Config, book: seq<OwnOrder>, desired: seq<OrderIntent>, n: nat)
    requires DistinctLevels(desired) && n < |desired|
    ensures WantedAt(TopUps(cfg, book, desired), Level(desired[n].side, desired[n].price))
         == if NeedsTopUp(cfg, book, desired[n]) then MissingAt(cfg, book, desired[n]) else 0
    decreases |desired|
  {
    hide NeedsTopUp, MissingAt;
    var init, last := desired[..|desired| - 1], desired[|desired| - 1];
    var k := Level(desired[n].side, desired[n].price);
    var before := TopUps(cfg, book, init);
    WantedAppend(before, OrderIntent(last.side, last.price, MissingAt(cfg, book, last)), k);
    if n < |desired| - 1 {
      TopUpAt(cfg, book, init, n);
      assert init[n] == desired[n];
      assert Level(last.side, last.price) != k;
    } else {
      NoTopUpElsewhere(cfg, book, init, k);
    }
    assert before + [] == before;
  }

  lemma {:induction false} NoTopUpElsewhere(cfg: Config, book: seq<OwnOrder>, desired: seq<OrderIntent>, k: Level)
    requires forall n :: 0 <= n < |desired| ==> Level(desired[n].side, desired[n].price) != k
    ensures WantedAt(TopUps(cfg, book, desired), k) == 0
  {
    if desired != [] {
      hide NeedsTopUp, MissingAt;
      var init, last := desired[..|desired| - 1], desired[|desired| - 1];
      NoTopUpElsewhere(cfg, book, init, k);
      var before := TopUps(cfg, book, init);
      WantedAppend(before, OrderIntent(last.side, last.price, MissingAt(cfg, book, last)), k);
      assert before + [] == before;
    }
  }

  ghost predicate SoundGrid(desired: seq<OrderIntent>, cfg: Config) {
    && DistinctLevels(desired) && UncrossedGrid(desired)
    && (forall i :: i in desired ==> i.size > 0)
    && cfg.staleBandAllowance >= 0
  }

  lemma AllowanceIsNonnegative(cfg: Config, price: int)
    ensures Allowance(cfg, price) >= 0
  {
    if price > 0 && cfg.staleSizeAllowance > 0 && cfg.quantityScale > 0 {
      MulOrder(0, cfg.staleSizeAllowance, cfg.quantityScale);
      DivMonotone(0, cfg.staleSizeAllowance * cfg.quantityScale + price / 2, price);
    }
  }

  /**
   A desired level after the cancels and reduces: the target if it was over-full past the
   allowance, else as it was.
   */
  lemma DesiredSizeAfter(desired: seq<OrderIntent>, cfg: Config, book: seq<OwnOrder>, cancels: seq<OwnOrder>,
                         reduces: seq<ReduceIntent>, n: nat)
    requires DistinctIds(book) && NonnegativeSizes(book) && IsStaleDiff(desired, cfg, book, cancels, reduces)
    requires SoundGrid(desired, cfg) && n < |desired|
    ensures var k := Level(desired[n].side, desired[n].price);
            var have, left := TotalSize(At(book, k)), TotalSize(At(Applied(book, cancels, reduces), k));
            left == if have - desired[n].size > 0 && AboveThreshold(cfg, k.price, have - desired[n].size)
              then desired[n].size else have
  {
    hide IsStaleDiff, Applied, IsStale, EdgesOf, Allowance, At, TotalSize, DistinctIds, NonnegativeSizes, WantedAt,
      PrefixThenSmaller;
    var k := Level(desired[n].side, desired[n].price);
    assert desired[n] in desired && IsDesired(desired, k);
    DesiredIsNotStale(desired, cfg.staleBandAllowance, k);
    WantedIsItsSize(desired, n);
    SizeAfter(desired, cfg, book, cancels, reduces, k);
  }

  /** The creates bring a desired level exactly its deficit when that exceeds the allowance. */
  lemma DesiredSizeCreated(desired: seq<OrderIntent>, cfg: Config, book: seq<OwnOrder>, plan: Plan,
                           ids: seq<OrderId>, n: nat)
    requires IsPlan(desired, cfg, book, plan) && |ids| == |plan.creates| && DistinctLevels(desired) && n < |desired|
    ensures var k := Level(desired[n].side, desired[n].price);
            var left := TotalSize(At(Applied(book, plan.cancels, plan.reduces), k));
            var deficit := desired[n].size - left;
            TotalSize(At(After(book, plan, ids), k)) == left +
              (if deficit > 0 && AboveThreshold(cfg, k.price, deficit) then deficit else 0)
  {
    hide IsStaleDiff, Applied, Allowance, At, TotalSize, TopUps, Placed, DistinctLevels;
    var k := Level(desired[n].side, desired[n].price);
    var applied := Applied(book, plan.cancels, plan.reduces);
    TopUpAt(cfg, applied, desired, n);
    TotalOfSum(applied, Placed(plan.creates, ids), k);
    PlacedSize(plan.creates, ids, k);
  }

  /** After the plan, a desired level holds its target exactly, or was within the allowance and left alone. */
  lemma LevelReachesTarget(desired: seq<OrderIntent>, cfg: Config, book: seq<OwnOrder>, plan: Plan,
                           ids: seq<OrderId>, n: nat)
    requires DistinctIds(book) && NonnegativeSizes(book) && IsPlan(desired, cfg, book, plan) && |ids| == |plan.creates|
    requires SoundGrid(desired, cfg) && n < |desired|
    ensures var k := Level(desired[n].side, desired[n].price);
            var size := TotalSize(At(After(book, plan, ids), k));
            -Allowance(cfg, k.price) <= size - desired[n].size <= Allowance(cfg, k.price)
  {
    hide IsStaleDiff, Applied, Allowance, At, TotalSize, TopUps, After, DistinctLevels, DistinctIds, UncrossedGrid,
      NonnegativeSizes;
    AllowanceIsNonnegative(cfg, desired[n].price);
    DesiredSizeAfter(desired, cfg, book, plan.cancels, plan.reduces, n);
    DesiredSizeCreated(desired, cfg, book, plan, ids, n);
  }

  /** Further from its target than the allowance's notional buys, half a price rounding up; or off it at all. */
  predicate PastAllowance(cfg: Config, price: int, deviation: int) {
    if price > 0 && cfg.staleSizeAllowance > 0 && cfg.quantityScale > 0
    then 2 * Abs(deviation) * price > 2 * cfg.staleSizeAllowance * cfg.quantityScale + price
    else deviation != 0
  }

  lemma ThresholdIsNotional(cfg: Config, price: int, delta: int)
    requires delta > 0
    ensures AboveThreshold(cfg, price, delta) <==> PastAllowance(cfg, price, delta)
  {
    if price > 0 && cfg.staleSizeAllowance > 0 && cfg.quantityScale > 0 {
      var n := cfg.staleSizeAllowance * cfg.quantityScale;
      MulOrder(0, cfg.staleSizeAllowance, cfg.quantityScale);
      DivMod(price, 2);
      var a := (n + price / 2) / price;
      DivMod(n + price / 2, price);
      if delta > a { MulOrder(a + 1, delta, price); } else { MulOrder(delta, a, price); }
      MulAssoc(2, delta, price);
      MulAssoc(2, cfg.staleSizeAllowance, cfg.quantityScale);
    }
  }

  /**
   The whole plan in one line a level: a desired level is brought to its target exactly if it
   was further off than the allowance, and keeps its size otherwise.
   */
  lemma LevelAfterExactly(desired: seq<OrderIntent>, cfg: Config, book: seq<OwnOrder>, plan: Plan,
                          ids: seq<OrderId>, n: nat)
    requires DistinctIds(book) && NonnegativeSizes(book) && IsPlan(desired, cfg, book, plan) && |ids| == |plan.creates|
    requires SoundGrid(desired, cfg) && n < |desired|
    ensures var k := Level(desired[n].side, desired[n].price);
            var have := TotalSize(At(book, k));
            TotalSize(At(After(book, plan, ids), k))
            == if PastAllowance(cfg, k.price, have - desired[n].size) then desired[n].size else have
  {
    hide IsStaleDiff, Applied, Allowance, At, TotalSize, TopUps, After, DistinctLevels, DistinctIds, UncrossedGrid,
      NonnegativeSizes, AboveThreshold, PastAllowance;
    var k := Level(desired[n].side, desired[n].price);
    var off := TotalSize(At(book, k)) - desired[n].size;
    DesiredSizeAfter(desired, cfg, book, plan.cancels, plan.reduces, n);
    DesiredSizeCreated(desired, cfg, book, plan, ids, n);
    OnTargetIsKept(cfg, k.price, off);
    if off > 0 { ThresholdIsNotional(cfg, k.price, off); }
    if off < 0 { ThresholdIsNotional(cfg, k.price, -off); }
  }

  lemma OnTargetIsKept(cfg: Config, price: int, deviation: int)
    ensures PastAllowance(cfg, price, deviation) == PastAllowance(cfg, price, -deviation)
    ensures !PastAllowance(cfg, price, 0)
  {
    if price > 0 && cfg.staleSizeAllowance > 0 && cfg.quantityScale > 0 {
      MulOrder(0, 2 * cfg.staleSizeAllowance, cfg.quantityScale);
    }
  }

  /** Applying a plan leaves nothing to do: the diff of the resulting book is empty. */
  lemma PlanReachesFixpoint(desired: seq<OrderIntent>, cfg: Config, book: seq<OwnOrder>, plan: Plan, ids: seq<OrderId>)
    requires DistinctIds(book) && NonnegativeSizes(book) && IsPlan(desired, cfg, book, plan) && |ids| == |plan.creates|
    requires SoundGrid(desired, cfg)
    ensures NothingToDo(desired, cfg, After(book, plan, ids))
  {
    var after := After(book, plan, ids);
    forall o | o in after ensures !IsStale(EdgesOf(desired), cfg.staleBandAllowance, LevelOf(o)) &&
      TrimOf(desired, cfg, after, LevelOf(o)) == NO_TRIM {
      AfterIsNotStale(desired, cfg, book, plan, ids, o);
      NoTrimAfter(desired, cfg, book, plan, ids, LevelOf(o));
    }
    forall i | i in desired ensures !NeedsTopUp(cfg, after, i) {
      var n :| 0 <= n < |desired| && desired[n] == i;
      LevelReachesTarget(desired, cfg, book, plan, ids, n);
    }
  }

  lemma NoTrimAfter(desired: seq<OrderIntent>, cfg: Config, book: seq<OwnOrder>, plan: Plan, ids: seq<OrderId>,
                    k: Level)
    requires DistinctIds(book) && NonnegativeSizes(book) && IsPlan(desired, cfg, book, plan) && |ids| == |plan.creates|
    requires SoundGrid(desired, cfg)
    ensures TrimOf(desired, cfg, After(book, plan, ids), k) == NO_TRIM
  {
    hide IsPlan, After, Allowance;
    if IsDesired(desired, k) {
      var n :| 0 <= n < |desired| && Level(desired[n].side, desired[n].price) == k;
      LevelReachesTarget(desired, cfg, book, plan, ids, n);
      WantedIsItsSize(desired, n);
    }
  }
}
