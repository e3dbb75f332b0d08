/**
 The price-threshold solvers of portfolio-margin/src/solve.ts: kink enumeration,
 bisection, and the search for the closest crossings on either side of spot.
 */
module Thresholds {
  import opened Arithmetic
  import opened Margin
  import opened Optional

  /** `bisect` halves at most 256 times and tests the width before each halving. */
  const ITERATION_CAP: nat := 256

  datatype PriceThresholds = PriceThresholds(user: Address, liqDown: Option<int>, liqUp: Option<int>)

  datatype AlertThresholds = AlertThresholds(user: Address, warnDown: Option<int>, warnUp: Option<int>,
                                             critDown: Option<int>, critUp: Option<int>)

  // ── Kinks ────────────────────────────────────────────────────────────────

  function Straddle(root: int): seq<int> {
    [root, root + 1]
  }

  function OnlyPositive(kinks: seq<int>): (r: seq<int>)
    ensures forall k :: k in r <==> k in kinks && k > 0
  {
    if kinks == [] then []
    else (if kinks[0] > 0 then [kinks[0]] else []) + OnlyPositive(kinks[1..])
  }

  function FillLossBreakevens(orders: RestingOrders, tokenDecimals: TokenDecimals): seq<int> {
    var scale := Pow10(tokenDecimals);
    (if orders.buyDelta > 0 then [TruncDiv(orders.buyValue * scale, orders.buyDelta)] else []) +
    (if orders.sellDelta > 0 then [TruncDiv(orders.sellValue * scale, orders.sellDelta)] else [])
  }

  function UnrealizedPnlBreakevens(snap: AccountSnapshot, params: MMParams, requirement: MarginRequirement): seq<int> {
    var netQty := snap.perp.netQty;
    var futuresQty, futuresValue := UnsettledQuantity(snap.futures.positions), FrozenValue(snap.futures.positions);
    if requirement == IM then
      OnlyPositive((if netQty != 0 then [snap.perp.entryPrice] else []) +
                   (if futuresQty != 0 then Straddle(FloorDiv(futuresValue, futuresQty)) else []))
    else
      var coefficient := netQty + params.QtyScale() * futuresQty;
      if coefficient == 0 then []
      else
        var intercept := snap.perp.entryPrice * netQty + params.QtyScale() * futuresValue;
        OnlyPositive(Straddle(FloorDiv(intercept, coefficient)))
  }

  /** Every price at which the search splits its range. Spot itself is always one. */
  function Kinks(snap: AccountSnapshot, params: MMParams, currentPrice: int,
                 requirement: MarginRequirement): (r: seq<int>)
    ensures currentPrice in r
  {
    UnrealizedPnlBreakevens(snap, params, requirement) +
    FillLossBreakevens(snap.perp.orders, params.tokenDecimals) +
    FillLossBreakevens(snap.futures.orders, params.tokenDecimals) +
    [currentPrice]
  }

  function Least(s: seq<int>): (r: int)
    requires s != []
    ensures r in s && forall k :: k in s ==> r <= k
  {
    if |s| == 1 then s[0]
    else
      var rest := Least(s[1..]);
      assert forall k :: k in s ==> k == s[0] || k in s[1..];
      if s[0] < rest then s[0] else rest
  }

  function Greatest(s: seq<int>): (r: int)
    requires s != []
    ensures r in s && forall k :: k in s ==> k <= r
  {
    if |s| == 1 then s[0]
    else
      var rest := Greatest(s[1..]);
      assert forall k :: k in s ==> k == s[0] || k in s[1..];
      if s[0] > rest then s[0] else rest
  }

  /** The lowest price searched: 1, or a kink below it. */
  function SearchFloor(kinks: seq<int>): int {
    Least([1] + kinks)
  }

  /** The highest price searched. */
  function SearchCap(kinks: seq<int>): int
    requires kinks != []
  {
    Greatest(kinks) * 1024 + 1
  }

  // ── Sorting and splitting ────────────────────────────────────────────────

  ghost predicate Sorted(s: seq<int>) {
    forall i, j :: 0 <= i < j < |s| ==> s[i] <= s[j]
  }

  ghost predicate StrictlyIncreasing(s: seq<int>) {
    forall i, j :: 0 <= i < j < |s| ==> s[i] < s[j]
  }

  function Insert(x: int, s: seq<int>): (r: seq<int>)
    requires Sorted(s)
    ensures Sorted(r) && forall k :: k in r <==> k == x || k in s
  {
    if s == [] then [x]
    else if x <= s[0] then [x] + s
    else
      var rest := Insert(x, s[1..]);
      assert forall k :: k in s <==> k == s[0] || k in s[1..];
      assert forall i :: 0 <= i < |rest| ==> rest[i] in rest;
      [s[0]] + rest
  }

  /** The library's ascending sort. */
  function Sort(s: seq<int>): (r: seq<int>)
    ensures Sorted(r) && forall k :: k in r <==> k in s
  {
    if s == [] then []
    else
      assert forall k :: k in s <==> k == s[0] || k in s[1..];
      Insert(s[0], Sort(s[1..]))
  }

  method SortDistinct(kinks: seq<int>) returns (dedup: seq<int>)
    ensures StrictlyIncreasing(dedup)
    ensures forall k :: k in dedup <==> k in kinks
  {
    var sorted := Sort(kinks);
    dedup := [];
    for i := 0 to |sorted|
      invariant StrictlyIncreasing(dedup)
      invariant forall k :: k in dedup <==> k in sorted[..i]
      invariant dedup != [] ==> i > 0 && dedup[|dedup| - 1] == sorted[i - 1]
      invariant i > 0 ==> dedup != []
    {
      if |dedup| == 0 || dedup[|dedup| - 1] != sorted[i] {
        dedup := dedup + [sorted[i]];
      }
    }
    assert sorted[..|sorted|] == sorted;
  }

  /** Adjacent intervals of positive width from `floor` to `cap`. */
  ghost predicate Chain(intervals: seq<(int, int)>, floor: int, cap: int) {
    && |intervals| > 0 && intervals[0].0 == floor && intervals[|intervals| - 1].1 == cap
    && (forall i :: 0 <= i < |intervals| ==> intervals[i].0 < intervals[i].1)
    && (forall i :: 0 < i < |intervals| ==> intervals[i - 1].1 == intervals[i].0)
  }

  ghost predicate IsBoundary(intervals: seq<(int, int)>, k: int) {
    exists i :: 0 <= i < |intervals| && (intervals[i].0 == k || intervals[i].1 == k)
  }

  lemma ChainExtended(intervals: seq<(int, int)>, floor: int, prev: int, next: int)
    requires intervals == [] ==> prev == floor
    requires intervals != [] ==> Chain(intervals, floor, prev)
    requires prev < next
    ensures Chain(intervals + [(prev, next)], floor, next)
    ensures IsBoundary(intervals + [(prev, next)], prev) && IsBoundary(intervals + [(prev, next)], next)
    ensures forall k :: IsBoundary(intervals, k) ==> IsBoundary(intervals + [(prev, next)], k)
    ensures forall k :: IsBoundary(intervals + [(prev, next)], k) ==> IsBoundary(intervals, k) || k == prev || k == next
  {
    var longer := intervals + [(prev, next)];
    assert longer[|intervals|] == (prev, next);
    forall k | IsBoundary(longer, k) && k != prev && k != next ensures IsBoundary(intervals, k) {
      var m :| 0 <= m < |longer| && (longer[m].0 == k || longer[m].1 == k);
      assert intervals[m] == longer[m];
    }
    forall k | IsBoundary(intervals, k) ensures IsBoundary(longer, k) {
      var m :| 0 <= m < |intervals| && (intervals[m].0 == k || intervals[m].1 == k);
      assert longer[m] == intervals[m];
    }
  }

  method SplitAt(dedup: seq<int>, lowerCap: int, upperCap: int) returns (intervals: seq<(int, int)>)
    requires StrictlyIncreasing(dedup) && dedup != []
    requires dedup[|dedup| - 1] < upperCap
    ensures Chain(intervals, if dedup[0] < lowerCap then dedup[0] else lowerCap, upperCap)
    ensures forall k :: k in dedup ==> IsBoundary(intervals, k)
    ensures forall k :: IsBoundary(intervals, k) ==> k == lowerCap <= dedup[0] || k == upperCap || k in dedup
  {
    intervals := [];
    var prev := lowerCap;
    ghost var floor := if dedup[0] < lowerCap then dedup[0] else lowerCap;
    for j := 0 to |dedup|
      invariant prev == if j == 0 then lowerCap else dedup[j - 1]
      invariant intervals == [] ==> j == 0 || prev == floor
      invariant intervals != [] ==> j > 0 && Chain(intervals, floor, prev)
      invariant forall k :: k in dedup[..j] ==> k == prev || IsBoundary(intervals, k)
      invariant forall k :: IsBoundary(intervals, k) ==> k == lowerCap <= dedup[0] || k in dedup
    {
      var k := dedup[j];
      assert j > 0 ==> dedup[j - 1] < k;
      assert dedup[..j + 1] == dedup[..j] + [k];
      if k > prev {
        ChainExtended(intervals, floor, prev, k);
        intervals := intervals + [(prev, k)];
      }
      prev := k;
    }
    assert dedup[..|dedup|] == dedup;
    ChainExtended(intervals, floor, prev, upperCap);
    intervals := intervals + [(prev, upperCap)];
  }

  /** Sort, drop duplicates, and split the range from the floor to the cap at every kink. */
  method SearchIntervals(kinks: seq<int>) returns (intervals: seq<(int, int)>)
    requires kinks != [] && Greatest(kinks) >= 0
    ensures Chain(intervals, SearchFloor(kinks), SearchCap(kinks))
    ensures forall k :: k in kinks ==> IsBoundary(intervals, k)
    ensures forall k :: IsBoundary(intervals, k) ==> k == SearchFloor(kinks) || k == SearchCap(kinks) || k in kinks
  {
    var dedup := SortDistinct(kinks);
    assert kinks[0] in dedup;
    assert dedup[|dedup| - 1] == Greatest(kinks) by {
      assert dedup[|dedup| - 1] in kinks && Greatest(kinks) in dedup;
    }
    assert SearchFloor(kinks) == if dedup[0] < 1 then dedup[0] else 1 by {
      var least := SearchFloor(kinks);
      assert least == 1 || least in dedup;
      assert dedup[0] in [1] + kinks && 1 in [1] + kinks;
    }
    var upperCap := dedup[|dedup| - 1] * 1024 + 1;
    var lowerCap := 1;
    intervals := SplitAt(dedup, lowerCap, upperCap);
  }

  // ── Roots ────────────────────────────────────────────────────────────────

  /** The two end values do not have the same strict sign. */
  ghost predicate Crosses(f: int -> int, lo: int, hi: int) {
    !((f(lo) > 0 && f(hi) > 0) || (f(lo) < 0 && f(hi) < 0))
  }

  /** A zero of f, or the positive side of a sign change between neighbours inside [lo, hi]. */
  ghost predicate IsRoot(f: int -> int, lo: int, hi: int, r: int) {
    && lo <= r <= hi
    && (f(r) == 0 || (f(r) > 0 && ((lo < r && f(r - 1) < 0) || (r < hi && f(r + 1) < 0))))
  }

  lemma Halving(a: int, b: int, mid: int, p: int, width: int)
    requires b - a > 1 && mid == TruncDiv(a + b, 2) && p > 0
    requires (b - a - 1) * p <= width
    ensures a < mid < b
    ensures (mid - a - 1) * (2 * p) <= width && (b - mid - 1) * (2 * p) <= width
  {
    assert a + b - 1 <= 2 * mid <= a + b + 1;
    assert 2 * (mid - a - 1) <= b - a - 1 && 2 * (b - mid - 1) <= b - a - 1;
    MulOrder(2 * (mid - a - 1), b - a - 1, p);
    MulOrder(2 * (b - mid - 1), b - a - 1, p);
    assert (mid - a - 1) * (2 * p) == 2 * (mid - a - 1) * p;
    assert (b - mid - 1) * (2 * p) == 2 * (b - mid - 1) * p;
  }

  method Bisect(lo: int, hi: int, sLo: int, f: int -> int) returns (root: int)
    requires lo < hi && sLo == f(lo)
    requires (f(lo) < 0 && f(hi) > 0) || (f(lo) > 0 && f(hi) < 0)
    ensures lo <= root <= hi
    ensures hi - lo <= Pow2(ITERATION_CAP - 1) ==> IsRoot(f, lo, hi, root)
  {
    var a, b, sa := lo, hi, sLo;
    for i := 0 to ITERATION_CAP
      invariant lo <= a < b <= hi
      invariant sa == f(a)
      invariant (sa < 0 && f(b) > 0) || (sa > 0 && f(b) < 0)
      invariant (b - a - 1) * Pow2(i) <= hi - lo - 1
      invariant hi - lo <= Pow2(ITERATION_CAP - 1) ==> i < ITERATION_CAP
    {
      if b - a <= 1 { return if sa < 0 then b else a; }
      var mid := TruncDiv(a + b, 2);
      Halving(a, b, mid, Pow2(i), hi - lo - 1);
      MulOrder(1, b - a - 1, Pow2(i));
      var sm := f(mid);
      if sm == 0 { return mid; }
      if (sa < 0 && sm < 0) || (sa > 0 && sm > 0) {
        a, sa := mid, sm;
      } else {
        b := mid;
      }
    }
    return a;
  }

  function Closer(prev: Option<int>, candidate: int, isDown: bool): int {
    match prev
    case None => candidate
    case Some(p) =>
      if isDown then (if candidate > p then candidate else p)
      else (if candidate < p then candidate else p)
  }

  /** Where the search drops a root because it coincides with spot. */
  ghost predicate DroppedBelow(f: int -> int, currentPrice: int) {
    f(currentPrice) == 0 || (f(currentPrice) > 0 && f(currentPrice - 1) < 0)
  }

  ghost predicate DroppedAbove(f: int -> int, currentPrice: int) {
    f(currentPrice) == 0 || (f(currentPrice) > 0 && f(currentPrice + 1) < 0)
  }

  /**
   What the search promises of an arbitrary f. Each threshold is a root on its side of
   spot; and unless the root sits on spot itself, f keeps one strict sign from spot to
   every boundary nearer than the threshold, so a side without a threshold has a floor
   (or cap) on the same side of zero as spot.
   */
  ghost predicate ClosestRoots(f: int -> int, boundaries: seq<int>, floor: int, cap: int, currentPrice: int,
                               down: Option<int>, up: Option<int>) {
    && (down.Some? ==> down.value < currentPrice && IsRoot(f, floor, currentPrice, down.value))
    && (up.Some? ==> currentPrice < up.value && IsRoot(f, currentPrice, cap, up.value))
    && (!DroppedBelow(f, currentPrice) ==>
          forall b :: (b == floor || b in boundaries) && b < currentPrice && (down.None? || down.value < b) ==>
            !Crosses(f, b, currentPrice))
    && (!DroppedAbove(f, currentPrice) ==>
          forall b :: (b == cap || b in boundaries) && currentPrice < b && (up.None? || b < up.value) ==>
            !Crosses(f, currentPrice, b))
    && BeyondNearest(f, boundaries, floor, cap, currentPrice, down, up)
  }

  /** An end of an interval: a boundary, or the given end of the range. */
  ghost predicate IsSearched(b: int, edge: int, boundaries: seq<int>) {
    b == edge || b in boundaries
  }

  /**
   The part of the promise that survives a root on spot: the intervals that do not end at
   spot are searched all the same, and with a zero on spot the two that do yield nothing
   strictly inside.
   */
  ghost predicate BeyondNearest(f: int -> int, boundaries: seq<int>, floor: int, cap: int, currentPrice: int,
                                down: Option<int>, up: Option<int>) {
    && (forall b, c ::
          && (b == floor || b in boundaries) && c in boundaries
          && b < c < currentPrice && (down.None? || down.value < b) ==>
          !Crosses(f, b, c))
    && (forall b, c ::
          && b in boundaries && (c == cap || c in boundaries)
          && currentPrice < b < c && (up.None? || c < up.value) ==>
          !Crosses(f, b, c))
    && (down.Some? && f(currentPrice) == 0 ==>
        exists b :: IsSearched(b, floor, boundaries) && down.value <= b < currentPrice)
    && (up.Some? && f(currentPrice) == 0 ==> exists b :: IsSearched(b, cap, boundaries) && currentPrice < b <= up.value)
  }

  lemma IntervalsAreOrdered(intervals: seq<(int, int)>, floor: int, cap: int, i: nat, j: nat)
    requires Chain(intervals, floor, cap) && i <= j < |intervals|
    ensures intervals[i].0 <= intervals[j].0 && intervals[i].1 <= intervals[j].1
    ensures i < j ==> intervals[i].1 <= intervals[j].0
    decreases j - i
  {
    if i < j {
      IntervalsAreOrdered(intervals, floor, cap, i, j - 1);
    }
  }

  /** If no interval from i to j crosses, neither do the outer ends. */
  lemma {:induction false} NoCrossingAcross(f: int -> int, intervals: seq<(int, int)>, floor: int, cap: int, i: nat,
                                            j: nat)
    requires Chain(intervals, floor, cap) && i <= j < |intervals|
    requires forall m :: i <= m <= j ==> !Crosses(f, intervals[m].0, intervals[m].1)
    ensures !Crosses(f, intervals[i].0, intervals[j].1)
    decreases j - i
  {
    if i < j {
      NoCrossingAcross(f, intervals, floor, cap, i, j - 1);
    }
  }

  ghost predicate DownFound(f: int -> int, interval: (int, int), currentPrice: int, down: Option<int>) {
    interval.1 <= currentPrice && Crosses(f, interval.0, interval.1) ==>
      (down.Some? && interval.0 <= down.value) || (interval.1 == currentPrice && DroppedBelow(f, currentPrice))
  }

  ghost predicate UpFound(f: int -> int, interval: (int, int), currentPrice: int, up: Option<int>) {
    currentPrice <= interval.0 && Crosses(f, interval.0, interval.1) ==>
      (up.Some? && up.value <= interval.1) || (interval.0 == currentPrice && DroppedAbove(f, currentPrice))
  }

  lemma BoundaryIndices(intervals: seq<(int, int)>, floor: int, cap: int, lo: int, hi: int) returns (i: nat, j: nat)
    requires Chain(intervals, floor, cap) && IsBoundary(intervals, lo) && IsBoundary(intervals, hi) && lo < hi
    ensures i <= j < |intervals| && intervals[i].0 == lo && intervals[j].1 == hi
  {
    var m :| 0 <= m < |intervals| && (intervals[m].0 == lo || intervals[m].1 == lo);
    var n :| 0 <= n < |intervals| && (intervals[n].0 == hi || intervals[n].1 == hi);
    if m <= n { IntervalsAreOrdered(intervals, floor, cap, m, n); }
      else { IntervalsAreOrdered(intervals, floor, cap, n, m); }
    IntervalsAreOrdered(intervals, floor, cap, m, |intervals| - 1);
    IntervalsAreOrdered(intervals, floor, cap, 0, n);
    i := if intervals[m].0 == lo then m else m + 1;
    j := if intervals[n].1 == hi then n else n - 1;
    if i > j { IntervalsAreOrdered(intervals, floor, cap, j, i); }
  }

  /**
   No crossing below the threshold was missed between two boundaries short of spot, or at spot
   when nothing is dropped.
   */
  lemma NothingMissedBelow(f: int -> int, intervals: seq<(int, int)>, floor: int, cap: int, currentPrice: int,
                           down: Option<int>, b: int, c: int)
    requires Chain(intervals, floor, cap) && IsBoundary(intervals, b) && IsBoundary(intervals, c)
    requires forall i :: 0 <= i < |intervals| ==> DownFound(f, intervals[i], currentPrice, down)
    requires b < c <= currentPrice && (down.None? || down.value < b) &&
             (c < currentPrice || !DroppedBelow(f, currentPrice))
    ensures !Crosses(f, b, c)
  {
    var i, j := BoundaryIndices(intervals, floor, cap, b, c);
    forall m | i <= m <= j ensures !Crosses(f, intervals[m].0, intervals[m].1) {
      IntervalsAreOrdered(intervals, floor, cap, i, m);
      IntervalsAreOrdered(intervals, floor, cap, m, j);
      assert DownFound(f, intervals[m], currentPrice, down);
    }
    NoCrossingAcross(f, intervals, floor, cap, i, j);
  }

  lemma NothingMissedAbove(f: int -> int, intervals: seq<(int, int)>, floor: int, cap: int, currentPrice: int,
                           up: Option<int>, b: int, c: int)
    requires Chain(intervals, floor, cap) && IsBoundary(intervals, b) && IsBoundary(intervals, c)
    requires forall i :: 0 <= i < |intervals| ==> UpFound(f, intervals[i], currentPrice, up)
    requires currentPrice <= b < c && (up.None? || c < up.value) && (currentPrice < b || !DroppedAbove(f, currentPrice))
    ensures !Crosses(f, b, c)
  {
    var i, j := BoundaryIndices(intervals, floor, cap, b, c);
    forall m | i <= m <= j ensures !Crosses(f, intervals[m].0, intervals[m].1) {
      IntervalsAreOrdered(intervals, floor, cap, i, m);
      IntervalsAreOrdered(intervals, floor, cap, m, j);
      assert UpFound(f, intervals[m], currentPrice, up);
    }
    NoCrossingAcross(f, intervals, floor, cap, i, j);
  }

  ghost predicate EndsAreBoundaries(intervals: seq<(int, int)>, boundaries: seq<int>, floor: int, cap: int) {
    && (forall b :: b in boundaries ==> IsBoundary(intervals, b))
    && (forall b :: IsBoundary(intervals, b) ==> b == floor || b == cap || b in boundaries)
  }

  lemma SearchIsComplete(f: int -> int, intervals: seq<(int, int)>, boundaries: seq<int>, floor: int, cap: int,
                         currentPrice: int, down: Option<int>, up: Option<int>)
    requires Chain(intervals, floor, cap) && currentPrice < cap
    requires IsBoundary(intervals, currentPrice) && EndsAreBoundaries(intervals, boundaries, floor, cap)
    requires Searched(f, intervals, floor, cap, currentPrice, |intervals|, down, up)
    ensures ClosestRoots(f, boundaries, floor, cap, currentPrice, down, up)
  {
    hide IsBoundary, Crosses, IsRoot, DroppedBelow, DroppedAbove, DownFound, UpFound;
    EndsOfChain(intervals, floor, cap);
    if down.Some? && f(currentPrice) == 0 {
      var b :| IsBoundary(intervals, b) && down.value <= b < currentPrice;
      assert IsSearched(b, floor, boundaries);
    }
    if up.Some? && f(currentPrice) == 0 {
      var b :| IsBoundary(intervals, b) && currentPrice < b <= up.value;
      assert IsSearched(b, cap, boundaries);
    }
    forall b, c | (b == floor || b in boundaries) && (c == currentPrice || c in boundaries) && b < c <= currentPrice
                  && (down.None? || down.value < b) && (c < currentPrice || !DroppedBelow(f, currentPrice))
      ensures !Crosses(f, b, c)
    {
      NothingMissedBelow(f, intervals, floor, cap, currentPrice, down, b, c);
    }
    forall b, c | (b == currentPrice || b in boundaries) && (c == cap || c in boundaries) && currentPrice <= b < c
                  && (up.None? || c < up.value) && (currentPrice < b || !DroppedAbove(f, currentPrice))
      ensures !Crosses(f, b, c)
    {
      NothingMissedAbove(f, intervals, floor, cap, currentPrice, up, b, c);
    }
  }

  lemma EndsOfChain(intervals: seq<(int, int)>, floor: int, cap: int)
    requires Chain(intervals, floor, cap)
    ensures IsBoundary(intervals, floor) && IsBoundary(intervals, cap)
    ensures forall b :: IsBoundary(intervals, b) ==> floor <= b <= cap
  {
    assert intervals[0].0 == floor && intervals[|intervals| - 1].1 == cap;
    forall b | IsBoundary(intervals, b) ensures floor <= b <= cap {
      var m :| 0 <= m < |intervals| && (intervals[m].0 == b || intervals[m].1 == b);
      IntervalsAreOrdered(intervals, floor, cap, 0, m);
      IntervalsAreOrdered(intervals, floor, cap, m, |intervals| - 1);
    }
  }

  /** A root of one interval, seen from the whole range on its side of spot. */
  lemma RootOfInterval(f: int -> int, interval: (int, int), floor: int, cap: int, currentPrice: int, r: int)
    requires floor <= interval.0 < interval.1 <= cap
    requires interval.1 <= currentPrice || currentPrice <= interval.0
    requires IsRoot(f, interval.0, interval.1, r)
    ensures r < currentPrice ==> IsRoot(f, floor, currentPrice, r)
    ensures r > currentPrice ==> IsRoot(f, currentPrice, cap, r)
    ensures r == currentPrice && interval.1 <= currentPrice ==> DroppedBelow(f, currentPrice)
    ensures r == currentPrice && currentPrice <= interval.0 ==> DroppedAbove(f, currentPrice)
  {
  }

  lemma SpotSplits(intervals: seq<(int, int)>, floor: int, cap: int, currentPrice: int, n: nat)
    requires Chain(intervals, floor, cap) && IsBoundary(intervals, currentPrice) && n < |intervals|
    ensures floor <= intervals[n].0 && intervals[n].1 <= cap
    ensures intervals[n].1 <= currentPrice || currentPrice <= intervals[n].0
  {
    IntervalsAreOrdered(intervals, floor, cap, 0, n);
    IntervalsAreOrdered(intervals, floor, cap, n, |intervals| - 1);
    var m :| 0 <= m < |intervals| && (intervals[m].0 == currentPrice || intervals[m].1 == currentPrice);
    if m <= n { IntervalsAreOrdered(intervals, floor, cap, m, n); }
      else { IntervalsAreOrdered(intervals, floor, cap, n, m); }
  }

  /** What the search has established once it has walked the first n intervals. */
  ghost predicate Searched(f: int -> int, intervals: seq<(int, int)>, floor: int, cap: int, currentPrice: int,
                           n: nat, down: Option<int>, up: Option<int>)
    requires n <= |intervals|
  {
    && (down.Some? ==> down.value < currentPrice && IsRoot(f, floor, currentPrice, down.value))
    && (up.Some? ==> currentPrice < up.value && IsRoot(f, currentPrice, cap, up.value))
    && (forall i :: 0 <= i < n ==> DownFound(f, intervals[i], currentPrice, down))
    && (forall i :: 0 <= i < n ==> UpFound(f, intervals[i], currentPrice, up))
    && (down.Some? && f(currentPrice) == 0 ==> exists b :: IsBoundary(intervals, b) && down.value <= b < currentPrice)
    && (up.Some? && f(currentPrice) == 0 ==> exists b :: IsBoundary(intervals, b) && currentPrice < b <= up.value)
  }

  lemma RootRegistered(f: int -> int, intervals: seq<(int, int)>, floor: int, cap: int, currentPrice: int, n: nat,
                       down: Option<int>, up: Option<int>, root: int)
    requires Chain(intervals, floor, cap) && IsBoundary(intervals, currentPrice) && n < |intervals|
    requires Searched(f, intervals, floor, cap, currentPrice, n, down, up)
    requires IsRoot(f, intervals[n].0, intervals[n].1, root)
    requires if f(intervals[n].0) == 0 then root == intervals[n].0 else f(intervals[n].1) == 0 ==>
             root == intervals[n].1
    ensures Searched(f, intervals, floor, cap, currentPrice, n + 1,
                     if root < currentPrice then Some(Closer(down, root, true)) else down,
                     if root > currentPrice then Some(Closer(up, root, false)) else up)
  {
    SpotSplits(intervals, floor, cap, currentPrice, n);
    RootOfInterval(f, intervals[n], floor, cap, currentPrice, root);
    assert IsBoundary(intervals, intervals[n].0) && IsBoundary(intervals, intervals[n].1);
    var down' := if root < currentPrice then Some(Closer(down, root, true)) else down;
    var up' := if root > currentPrice then Some(Closer(up, root, false)) else up;
    forall i | 0 <= i <= n ensures DownFound(f, intervals[i], currentPrice, down') &&
      UpFound(f, intervals[i], currentPrice, up') {
      if i < n {
        assert DownFound(f, intervals[i], currentPrice, down) && UpFound(f, intervals[i], currentPrice, up);
      }
    }
  }

  lemma NoRootRegistered(f: int -> int, intervals: seq<(int, int)>, floor: int, cap: int, currentPrice: int, n: nat,
                         down: Option<int>, up: Option<int>)
    requires n < |intervals| && !Crosses(f, intervals[n].0, intervals[n].1)
    requires Searched(f, intervals, floor, cap, currentPrice, n, down, up)
    ensures Searched(f, intervals, floor, cap, currentPrice, n + 1, down, up)
  {
    forall i | 0 <= i <= n ensures DownFound(f, intervals[i], currentPrice, down) &&
      UpFound(f, intervals[i], currentPrice, up) {
    }
  }

  method CrossingOf(f: int -> int, lo: int, hi: int) returns (root: Option<int>)
    requires lo < hi
    ensures root.None? <==> !Crosses(f, lo, hi)
    ensures root.Some? && hi - lo <= Pow2(ITERATION_CAP - 1) ==> IsRoot(f, lo, hi, root.value)
    ensures root.Some? ==> if f(lo) == 0 then root.value == lo else f(hi) == 0 ==> root.value == hi
  {
    var sLo, sHi := f(lo), f(hi);
    if (sLo > 0 && sHi > 0) || (sLo < 0 && sHi < 0) { return None; }
    if sLo == 0 { return Some(lo); }
    if sHi == 0 { return Some(hi); }
    var r := Bisect(lo, hi, sLo, f);
    return Some(r);
  }

  /** Walk the intervals, keeping the closest root on each side of spot. */
  method ClosestOver(intervals: seq<(int, int)>, ghost floor: int, ghost cap: int, currentPrice: int, f: int -> int)
    returns (down: Option<int>, up: Option<int>)
    requires Chain(intervals, floor, cap) && IsBoundary(intervals, currentPrice)
    ensures cap - floor <= Pow2(ITERATION_CAP - 1) ==>
            Searched(f, intervals, floor, cap, currentPrice, |intervals|, down, up)
  {
    ghost var reach := cap - floor <= Pow2(ITERATION_CAP - 1);
    down, up := None, None;
    assert Searched(f, intervals, floor, cap, currentPrice, 0, down, up);
    hide Searched, IsBoundary, IsRoot, Crosses;
    for n := 0 to |intervals|
      invariant reach ==> Searched(f, intervals, floor, cap, currentPrice, n, down, up)
    {
      SpotSplits(intervals, floor, cap, currentPrice, n);
      var root := CrossingOf(f, intervals[n].0, intervals[n].1);
      if root.None? {
        if reach {
          NoRootRegistered(f, intervals, floor, cap, currentPrice, n, down, up);
        }
        continue;
      }
      if reach {
        RootRegistered(f, intervals, floor, cap, currentPrice, n, down, up, root.value);
      }
      if root.value < currentPrice {
        down := Some(Closer(down, root.value, true));
      } else if root.value > currentPrice {
        up := Some(Closer(up, root.value, false));
      }
    }
  }

  method FindClosestCrossings(snap: AccountSnapshot, params: MMParams, currentPrice: int, f: int -> int,
                              requirement: MarginRequirement)
    returns (down: Option<int>, up: Option<int>)
    requires currentPrice >= 0
    ensures var kinks := Kinks(snap, params, currentPrice, requirement);
            SearchCap(kinks) - SearchFloor(kinks) <= Pow2(ITERATION_CAP - 1) ==>
              ClosestRoots(f, kinks, SearchFloor(kinks), SearchCap(kinks), currentPrice, down, up)
  {
    var kinks := Kinks(snap, params, currentPrice, requirement);
    var intervals := SearchIntervals(kinks);
    down, up := ClosestOver(intervals, SearchFloor(kinks), SearchCap(kinks), currentPrice, f);
    if SearchCap(kinks) - SearchFloor(kinks) <= Pow2(ITERATION_CAP - 1) {
      SearchIsComplete(f, intervals, kinks, SearchFloor(kinks), SearchCap(kinks), currentPrice, down, up);
    }
  }

  function MmSurplusAt(snap: AccountSnapshot, params: MMParams): int -> int {
    price => MmSurplus(snap, params, price)
  }

  function ImExcessAt(snap: AccountSnapshot, params: MMParams, target: int): int -> int {
    price => Required(snap, params, price, IM) - target
  }

  /** The range a search at `currentPrice` covers. */
  ghost function Floor(snap: AccountSnapshot, params: MMParams, currentPrice: int,
                       requirement: MarginRequirement): int {
    SearchFloor(Kinks(snap, params, currentPrice, requirement))
  }

  ghost function Cap(snap: AccountSnapshot, params: MMParams, currentPrice: int, requirement: MarginRequirement): int {
    SearchCap(Kinks(snap, params, currentPrice, requirement))
  }

  /** The bisection cap cannot cut a search of this range short. */
  ghost predicate WithinReach(snap: AccountSnapshot, params: MMParams, currentPrice: int,
                              requirement: MarginRequirement) {
    Cap(snap, params, currentPrice, requirement) - Floor(snap, params, currentPrice, requirement)
      <= Pow2(ITERATION_CAP - 1)
  }

  ghost predicate Closest(snap: AccountSnapshot, params: MMParams, currentPrice: int, requirement: MarginRequirement,
                          f: int -> int, down: Option<int>, up: Option<int>) {
    ClosestRoots(f, Kinks(snap, params, currentPrice, requirement), Floor(snap, params, currentPrice, requirement),
                 Cap(snap, params, currentPrice, requirement), currentPrice, down, up)
  }

  method SolveLiquidationThresholds(snap: AccountSnapshot, params: MMParams, currentPrice: int)
    returns (thresholds: PriceThresholds)
    requires currentPrice >= 0
    ensures thresholds.user == snap.user
    ensures MmSurplus(snap, params, currentPrice) < 0 ==> thresholds.liqDown == thresholds.liqUp == None
    ensures MmSurplus(snap, params, currentPrice) >= 0 && WithinReach(snap, params, currentPrice, MM) ==>
              Closest(snap, params, currentPrice, MM, MmSurplusAt(snap, params), thresholds.liqDown, thresholds.liqUp)
  {
    if MmSurplus(snap, params, currentPrice) < 0 {
      return PriceThresholds(snap.user, None, None);
    }
    var down, up := FindClosestCrossings(snap, params, currentPrice, MmSurplusAt(snap, params), MM);
    return PriceThresholds(snap.user, down, up);
  }

  const PPM: int := 1_000_000

  function AlertTarget(snap: AccountSnapshot, utilizationPpm: int): int {
    TruncDiv(utilizationPpm * snap.balance, PPM)
  }

  /** What one alert level promises: nothing when already breached, else the closest crossings of its target. */
  ghost predicate AlertSolved(snap: AccountSnapshot, params: MMParams, currentPrice: int, target: int,
                              down: Option<int>, up: Option<int>) {
    if Required(snap, params, currentPrice, IM) >= target then
      down == up == None
    else
      WithinReach(snap, params, currentPrice, IM) ==>
        Closest(snap, params, currentPrice, IM, ImExcessAt(snap, params, target), down, up)
  }

  method SolveAlertThresholds(snap: AccountSnapshot, params: MMParams, currentPrice: int, warnUtilizationPpm: int,
                              criticalUtilizationPpm: int)
    returns (alerts: AlertThresholds)
    requires currentPrice >= 0
    ensures alerts.user == snap.user
    ensures snap.balance <= 0 ==> alerts == AlertThresholds(snap.user, None, None, None, None)
    ensures snap.balance > 0 ==>
              && AlertSolved(snap, params, currentPrice, AlertTarget(snap, warnUtilizationPpm), alerts.warnDown,
                             alerts.warnUp)
              && AlertSolved(snap, params, currentPrice, AlertTarget(snap, criticalUtilizationPpm), alerts.critDown,
                             alerts.critUp)
  {
    if snap.balance <= 0 {
      return AlertThresholds(snap.user, None, None, None, None);
    }
    var warnTarget := AlertTarget(snap, warnUtilizationPpm);
    var critTarget := AlertTarget(snap, criticalUtilizationPpm);
    var warnDown, warnUp, critDown, critUp := None, None, None, None;
    if Required(snap, params, currentPrice, IM) < warnTarget {
      warnDown, warnUp := FindClosestCrossings(snap, params, currentPrice, ImExcessAt(snap, params, warnTarget), IM);
    }
    if Required(snap, params, currentPrice, IM) < critTarget {
      critDown, critUp := FindClosestCrossings(snap, params, currentPrice, ImExcessAt(snap, params, critTarget), IM);
    }
    return AlertThresholds(snap.user, warnDown, warnUp, critDown, critUp);
  }
}
