/**
 Choosing a batch: rank the expiries, interleave unit closes fairly, and scan every
 prefix against the real requirement (portfolio-margin/src/solve.ts).
 */
module FuturesSizing {
  import opened Arithmetic
  import opened FuturesClose
  import opened Margin
  import opened Thresholds

  function Count(s: seq<int>, x: int): nat {
    if s == [] then 0 else Count(s[..|s| - 1], x) + (if s[|s| - 1] == x then 1 else 0)
  }

  lemma CountAppend(s: seq<int>, y: int, x: int)
    ensures Count(s + [y], x) == Count(s, x) + (if y == x then 1 else 0)
  {
    assert (s + [y])[..|s|] == s;
  }

  lemma {:induction false} CountOfPrefix(s: seq<int>, k: nat, x: int)
    requires k <= |s|
    ensures Count(s[..k], x) <= Count(s, x)
    decreases |s| - k
  {
    if k < |s| {
      assert s[..k + 1] == s[..k] + [s[k]];
      CountAppend(s[..k], s[k], x);
      CountOfPrefix(s, k + 1, x);
    } else {
      assert s[..k] == s;
    }
  }

  // ── Unit legs and their coalesced form ───────────────────────────────────

  function UnitLegs(sequence: seq<int>): seq<CloseLeg> {
    if sequence == [] then [] else UnitLegs(sequence[..|sequence| - 1]) + [CloseLeg(sequence[|sequence| - 1], 1)]
  }

  lemma CloseTotalAppend(closes: seq<CloseLeg>, leg: CloseLeg, e: int)
    ensures CloseTotal(closes + [leg], e) == CloseTotal(closes, e) + (if leg.expirationAt == e then leg.closeQty else 0)
  {
    assert (closes + [leg])[..|closes|] == closes;
  }

  lemma {:induction false} UnitLegsTotal(sequence: seq<int>, e: int)
    ensures CloseTotal(UnitLegs(sequence), e) == Count(sequence, e)
  {
    if sequence != [] {
      var init := sequence[..|sequence| - 1];
      UnitLegsTotal(init, e);
      CloseTotalAppend(UnitLegs(init), CloseLeg(sequence[|sequence| - 1], 1), e);
    }
  }

  function Tally(counts: map<int, int>, e: int): int {
    if e in counts then counts[e] else 0
  }

  method TallyPrefix(unitSequence: seq<int>, prefixLen: nat) returns (counts: map<int, int>, entries: seq<int>)
    requires prefixLen <= |unitSequence|
    ensures forall e :: Tally(counts, e) == Count(unitSequence[..prefixLen], e)
    ensures forall e :: e in entries <==> e in counts
    ensures forall e :: e in counts ==> counts[e] >= 1
  {
    counts, entries := map[], [];
    for i := 0 to prefixLen
      invariant forall e :: Tally(counts, e) == Count(unitSequence[..i], e)
      invariant forall e :: e in entries <==> e in counts
      invariant forall e :: e in counts ==> counts[e] >= 1
    {
      var d := unitSequence[i];
      assert unitSequence[..i + 1] == unitSequence[..i] + [d];
      forall e ensures Count(unitSequence[..i + 1], e) == Count(unitSequence[..i], e) + (if d == e then 1 else 0) {
        CountAppend(unitSequence[..i], d, e);
      }
      if d !in counts { entries := entries + [d]; }
      counts := counts[d := Tally(counts, d) + 1];
    }
  }

  /** One leg per expiry, in ascending order, closing as many contracts as the prefix names it. */
  method CoalesceUnitPrefix(unitSequence: seq<int>, prefixLen: nat) returns (legs: seq<CloseLeg>)
    requires prefixLen <= |unitSequence|
    ensures forall e :: CloseTotal(legs, e) == Count(unitSequence[..prefixLen], e)
    ensures forall i, j :: 0 <= i < j < |legs| ==> legs[i].expirationAt < legs[j].expirationAt
    ensures forall i :: 0 <= i < |legs| ==>
            legs[i].closeQty == Count(unitSequence[..prefixLen], legs[i].expirationAt) >= 1
  {
    hide Count, CloseTotal, Tally, StrictlyIncreasing;
    var counts, entries := TallyPrefix(unitSequence, prefixLen);
    var sorted := SortDistinct(entries);
    legs := [];
    for i := 0 to |sorted|
      invariant legs == LegsOf(sorted[..i], counts)
    {
      assert sorted[..i + 1][..i] == sorted[..i];
      legs := legs + [CloseLeg(sorted[i], Tally(counts, sorted[i]))];
    }
    assert sorted[..|sorted|] == sorted;
    Coalesced(sorted, counts, unitSequence[..prefixLen]);
  }

  lemma Coalesced(keys: seq<int>, counts: map<int, int>, prefix: seq<int>)
    requires StrictlyIncreasing(keys) && forall e :: e in keys <==> e in counts
    requires forall e :: Tally(counts, e) == Count(prefix, e)
    requires forall e :: e in counts ==> counts[e] >= 1
    ensures var legs := LegsOf(keys, counts);
            && (forall e :: CloseTotal(legs, e) == Count(prefix, e))
            && (forall i, j :: 0 <= i < j < |legs| ==> legs[i].expirationAt < legs[j].expirationAt)
            && (forall i :: 0 <= i < |legs| ==> legs[i].closeQty == Count(prefix, legs[i].expirationAt) >= 1)
  {
    var legs := LegsOf(keys, counts);
    forall e ensures CloseTotal(legs, e) == Tally(counts, e) { LegsTotal(keys, counts, e); }
    forall j | 0 <= j < |keys| ensures legs[j].closeQty == Tally(counts, keys[j]) >= 1 { assert keys[j] in keys; }
  }

  function LegsOf(keys: seq<int>, counts: map<int, int>): (legs: seq<CloseLeg>)
    ensures |legs| == |keys|
    ensures forall j :: 0 <= j < |keys| ==> legs[j] == CloseLeg(keys[j], Tally(counts, keys[j]))
  {
    if keys == [] then []
    else LegsOf(keys[..|keys| - 1], counts) + [CloseLeg(keys[|keys| - 1], Tally(counts, keys[|keys| - 1]))]
  }

  lemma {:induction false} LegsTotal(keys: seq<int>, counts: map<int, int>, e: int)
    requires StrictlyIncreasing(keys)
    ensures CloseTotal(LegsOf(keys, counts), e) == if e in keys then Tally(counts, e) else 0
  {
    if keys != [] {
      var init, last := keys[..|keys| - 1], keys[|keys| - 1];
      LegsTotal(init, counts, e);
      CloseTotalAppend(LegsOf(init, counts), CloseLeg(last, Tally(counts, last)), e);
      assert keys == init + [last] && last !in init;
    }
  }

  /** Simulating the emitted unit legs is simulating the coalesced batch that was scanned. */
  lemma UnitsSimulateAsCoalesced(snap: AccountSnapshot, prefix: seq<int>, legs: seq<CloseLeg>, currentPrice: int,
                                 liquidationFee: int)
    requires forall e :: CloseTotal(legs, e) == Count(prefix, e)
    ensures Simulated(snap, UnitLegs(prefix), currentPrice, liquidationFee)
            == Simulated(snap, legs, currentPrice, liquidationFee)
  {
    forall e ensures CloseTotal(UnitLegs(prefix), e) == CloseTotal(legs, e) { UnitLegsTotal(prefix, e); }
    SimulationSeesTotals(snap.futures.positions, UnitLegs(prefix), legs, currentPrice, liquidationFee);
  }

  // ── Ranking ──────────────────────────────────────────────────────────────

  /** The requirement drop from closing one contract of a leg. */
  function DropOf(snap: AccountSnapshot, params: MMParams, pos: FuturesPosition, currentPrice: int,
                  liquidationFee: int): int {
    Required(snap, params, currentPrice, MM) -
    Required(Simulated(snap, [CloseLeg(pos.expirationAt, 1)], currentPrice, liquidationFee), params, currentPrice, MM)
  }

  function Notional(pos: FuturesPosition): int {
    Abs(pos.netQuantity) * AvgEntry(pos)
  }

  /** What an expiry is ranked by. */
  datatype RankKey = RankKey(drop: int, notional: int, expirationAt: int)

  function KeyOf(drops: map<int, int>): FuturesPosition -> RankKey {
    (p: FuturesPosition) => RankKey(if p.expirationAt in drops then drops[p.expirationAt] else 0, Notional(p),
                                    p.expirationAt)
  }

  /** `a` sorts strictly before `b`: larger drop, then larger notional, then earlier expiry. */
  predicate Precedes(a: RankKey, b: RankKey) {
    if a.drop != b.drop then a.drop > b.drop
    else if a.notional != b.notional then a.notional > b.notional
    else a.expirationAt < b.expirationAt
  }

  ghost predicate Ranked(key: FuturesPosition -> RankKey, s: seq<FuturesPosition>) {
    forall i, j :: 0 <= i < j < |s| ==> !Precedes(key(s[j]), key(s[i]))
  }

  lemma RankedAppend(key: FuturesPosition -> RankKey, s: seq<FuturesPosition>, x: FuturesPosition)
    requires Ranked(key, s) && forall y :: y in s ==> !Precedes(key(x), key(y))
    ensures Ranked(key, s + [x])
  {
    assert forall i :: 0 <= i < |s| ==> s[i] in s;
  }

  lemma RankedSplit(key: FuturesPosition -> RankKey, s: seq<FuturesPosition>)
    requires Ranked(key, s) && s != []
    ensures Ranked(key, s[..|s| - 1]) && s == s[..|s| - 1] + [s[|s| - 1]]
    ensures forall y :: y in s ==> !Precedes(key(s[|s| - 1]), key(y))
  {
  }

  lemma ComesFrom(front: seq<FuturesPosition>, init: seq<FuturesPosition>, x: FuturesPosition)
    requires multiset(front) == multiset(init) + multiset{x}
    ensures forall y :: y in front ==> y == x || y in init
  {
    assert forall y :: y in front <==> y in multiset(front);
  }

  /** Insert after everything that does not sort after it, as a stable sort does. */
  function InsertRanked(key: FuturesPosition -> RankKey, s: seq<FuturesPosition>,
                        x: FuturesPosition): (r: seq<FuturesPosition>)
    requires Ranked(key, s)
    ensures Ranked(key, r) && multiset(r) == multiset(s) + multiset{x}
  {
    if s == [] then [x]
    else
      var last := s[|s| - 1];
      RankedSplit(key, s);
      if Precedes(key(x), key(last)) then
        var front := InsertRanked(key, s[..|s| - 1], x);
        ComesFrom(front, s[..|s| - 1], x);
        RankedAppend(key, front, last);
        front + [last]
      else
        RankedAppend(key, s, x);
        s + [x]
  }

  function SortRanked(key: FuturesPosition -> RankKey, s: seq<FuturesPosition>): (r: seq<FuturesPosition>)
    ensures Ranked(key, r) && multiset(r) == multiset(s)
  {
    if s == [] then []
    else
      assert s == s[..|s| - 1] + [s[|s| - 1]];
      InsertRanked(key, SortRanked(key, s[..|s| - 1]), s[|s| - 1])
  }

  function OpenLegs(positions: seq<FuturesPosition>): (r: seq<FuturesPosition>)
    ensures forall p :: p in r <==> p in positions && p.netQuantity != 0
    ensures |r| <= |positions|
  {
    if positions == [] then []
    else
      var last := positions[|positions| - 1];
      assert positions == positions[..|positions| - 1] + [last];
      OpenLegs(positions[..|positions| - 1]) + (if last.netQuantity != 0 then [last] else [])
  }

  lemma {:induction false} OpenLegsAreDistinct(positions: seq<FuturesPosition>)
    requires DistinctExpiries(positions)
    ensures DistinctExpiries(OpenLegs(positions))
  {
    if positions != [] {
      var init := positions[..|positions| - 1];
      OpenLegsAreDistinct(init);
      var open := OpenLegs(init);
      forall i | 0 <= i < |open| ensures open[i].expirationAt != positions[|positions| - 1].expirationAt {
        assert open[i] in open;
        var k :| 0 <= k < |init| && init[k] == open[i];
        assert positions[k] == init[k];
      }
    }
  }

  lemma PermutationIsDistinct(s: seq<FuturesPosition>, r: seq<FuturesPosition>)
    requires DistinctExpiries(s) && multiset(s) == multiset(r)
    ensures DistinctExpiries(r)
    ensures forall p :: p in r <==> p in s
  {
    assert forall p :: p in r <==> p in multiset(r);
    forall i, j | 0 <= i < j < |r| ensures r[i].expirationAt != r[j].expirationAt {
      if r[i].expirationAt == r[j].expirationAt {
        assert r[i] in multiset(s) && r[j] in multiset(s);
        var m :| 0 <= m < |s| && s[m] == r[i];
        var n :| 0 <= n < |s| && s[n] == r[j];
        assert m == n;
        TwiceIn(r, i, j);
        OnceIn(s, m);
        assert false;
      }
    }
  }

  lemma TwiceIn(r: seq<FuturesPosition>, i: nat, j: nat)
    requires i < j < |r| && r[i] == r[j]
    ensures multiset(r)[r[i]] >= 2
  {
    assert r == r[..i] + [r[i]] + r[i + 1..j] + [r[j]] + r[j + 1..];
  }

  lemma OnceIn(s: seq<FuturesPosition>, m: nat)
    requires m < |s| && DistinctExpiries(s)
    ensures multiset(s)[s[m]] == 1
  {
    assert s == s[..m] + [s[m]] + s[m + 1..];
    assert s[m] !in s[..m] && s[m] !in s[m + 1..];
  }

  // ── The fair interleaving ────────────────────────────────────────────────

  /** No expiry is more than one unit ahead of another that still has contracts left. */
  ghost predicate Fair(ordered: seq<FuturesPosition>, prefix: seq<int>) {
    forall i, j ::
      && 0 <= i < |ordered| && 0 <= j < |ordered|
      && Count(prefix, ordered[j].expirationAt) < Abs(ordered[j].netQuantity) ==>
      Count(prefix, ordered[i].expirationAt) <= Count(prefix, ordered[j].expirationAt) + 1
  }

  ghost predicate FairInterleaving(ordered: seq<FuturesPosition>, sequence: seq<int>) {
    && (forall i :: 0 <= i < |ordered| ==> Count(sequence, ordered[i].expirationAt) == Abs(ordered[i].netQuantity))
    && (forall e :: (forall p :: p in ordered ==> p.expirationAt != e) ==> Count(sequence, e) == 0)
    && AllFair(ordered, sequence)
  }

  function Smaller(x: int, y: int): int {
    if x < y then x else y
  }

  function Longest(ordered: seq<FuturesPosition>): (r: nat)
    ensures forall p :: p in ordered ==> Abs(p.netQuantity) <= r
  {
    if ordered == [] then 0
    else
      var rest := Longest(ordered[1..]);
      assert forall p :: p in ordered ==> p == ordered[0] || p in ordered[1..];
      if Abs(ordered[0].netQuantity) > rest then Abs(ordered[0].netQuantity) else rest
  }

  /** The counts after `round` full passes and the first `i` legs of the next. */
  ghost predicate PassCounts(ordered: seq<FuturesPosition>, result: seq<int>, round: nat, i: nat) {
    && (forall m :: 0 <= m < |ordered| ==>
        Count(result, ordered[m].expirationAt)
        == Smaller(Abs(ordered[m].netQuantity), if m < i then round + 1 else round))
    && (forall e :: (forall p :: p in ordered ==> p.expirationAt != e) ==> Count(result, e) == 0)
  }

  /** The unit after a prefix goes to the first leg, in rank order, among those with contracts left and fewest taken. */
  ghost predicate NextInTurn(ordered: seq<FuturesPosition>, prefix: seq<int>, e: int) {
    exists i :: 0 <= i < |ordered| && ordered[i].expirationAt == e && TakesTurn(ordered, prefix, i)
  }

  ghost predicate TakesTurn(ordered: seq<FuturesPosition>, prefix: seq<int>, i: nat)
    requires i < |ordered|
  {
    && Count(prefix, ordered[i].expirationAt) < Abs(ordered[i].netQuantity)
    && forall j :: 0 <= j < |ordered| && Count(prefix, ordered[j].expirationAt) < Abs(ordered[j].netQuantity) ==>
         if j < i then Count(prefix, ordered[i].expirationAt) < Count(prefix, ordered[j].expirationAt)
         else Count(prefix, ordered[i].expirationAt) <= Count(prefix, ordered[j].expirationAt)
  }

  ghost predicate AllFair(ordered: seq<FuturesPosition>, result: seq<int>) {
    && (forall k :: 0 <= k <= |result| ==> Fair(ordered, result[..k]))
    && (forall k :: 0 <= k < |result| ==> NextInTurn(ordered, result[..k], result[k]))
  }

  lemma CountsAreFair(ordered: seq<FuturesPosition>, result: seq<int>, round: nat, i: nat)
    requires PassCounts(ordered, result, round, i)
    ensures Fair(ordered, result)
  {
  }

  lemma TurnIsNext(ordered: seq<FuturesPosition>, result: seq<int>, round: nat, i: nat)
    requires i < |ordered| && PassCounts(ordered, result, round, i) && Abs(ordered[i].netQuantity) > round
    ensures NextInTurn(ordered, result, ordered[i].expirationAt)
  {
    assert TakesTurn(ordered, result, i);
  }

  lemma FairAppended(ordered: seq<FuturesPosition>, result: seq<int>, e: int)
    requires AllFair(ordered, result) && Fair(ordered, result + [e]) && NextInTurn(ordered, result, e)
    ensures AllFair(ordered, result + [e])
  {
    hide Fair, NextInTurn;
    var longer := result + [e];
    forall k | 0 <= k <= |longer| ensures Fair(ordered, longer[..k]) {
      if k <= |result| { assert longer[..k] == result[..k]; } else { assert longer[..k] == longer; }
    }
    forall k | 0 <= k < |longer| ensures NextInTurn(ordered, longer[..k], longer[k]) {
      assert longer[..k] == result[..k];
      assert k == |result| ==> result[..k] == result;
    }
  }

  lemma CountsAppended(ordered: seq<FuturesPosition>, result: seq<int>, round: nat, i: nat)
    requires DistinctExpiries(ordered) && i < |ordered|
    requires PassCounts(ordered, result, round, i) && Abs(ordered[i].netQuantity) > round
    ensures PassCounts(ordered, result + [ordered[i].expirationAt], round, i + 1)
  {
    var e := ordered[i].expirationAt;
    forall x ensures Count(result + [e], x) == Count(result, x) +
      (if e == x then 1 else 0) { CountAppend(result, e, x); }
    forall m | 0 <= m < |ordered| ensures ordered[m].expirationAt == e <==> m == i {}
    assert ordered[i] in ordered;
  }

  lemma UnitAppended(ordered: seq<FuturesPosition>, result: seq<int>, round: nat, i: nat)
    requires DistinctExpiries(ordered) && i < |ordered|
    requires PassCounts(ordered, result, round, i) && AllFair(ordered, result) && Abs(ordered[i].netQuantity) > round
    ensures PassCounts(ordered, result + [ordered[i].expirationAt], round, i + 1)
    ensures AllFair(ordered, result + [ordered[i].expirationAt])
  {
    hide PassCounts, AllFair, Fair, NextInTurn;
    CountsAppended(ordered, result, round, i);
    CountsAreFair(ordered, result + [ordered[i].expirationAt], round, i + 1);
    TurnIsNext(ordered, result, round, i);
    FairAppended(ordered, result, ordered[i].expirationAt);
  }

  /** Round-robin: one unit of each leg with contracts left, until a pass makes no progress. */
  method Interleave(ordered: seq<FuturesPosition>) returns (result: seq<int>)
    requires DistinctExpiries(ordered)
    ensures FairInterleaving(ordered, result)
  {
    hide PassCounts, AllFair, FairInterleaving, Longest;
    var remaining := seq(|ordered|, i requires 0 <= i < |ordered| => Abs(ordered[i].netQuantity));
    result := [];
    NothingTaken(ordered);
    var progress := true;
    ghost var round := 0;
    while progress
      invariant |remaining| == |ordered|
      invariant PassCounts(ordered, result, round, 0) && AllFair(ordered, result)
      invariant forall m :: 0 <= m < |ordered| ==>
                remaining[m] == Abs(ordered[m].netQuantity) - Smaller(Abs(ordered[m].netQuantity), round)
      invariant progress ==> round <= Longest(ordered)
      invariant !progress ==> forall m :: 0 <= m < |ordered| ==> Abs(ordered[m].netQuantity) <= round
      decreases Longest(ordered) - round, progress
    {
      progress, remaining, result := OnePass(ordered, remaining, result, round);
      round := round + 1;
    }
    AllTaken(ordered, result, round);
  }

  lemma NothingTaken(ordered: seq<FuturesPosition>)
    ensures PassCounts(ordered, [], 0, 0) && AllFair(ordered, [])
  {
  }

  lemma AllTaken(ordered: seq<FuturesPosition>, result: seq<int>, round: nat)
    requires PassCounts(ordered, result, round, 0) && AllFair(ordered, result)
    requires forall m :: 0 <= m < |ordered| ==> Abs(ordered[m].netQuantity) <= round
    ensures FairInterleaving(ordered, result)
  {
    hide AllFair;
  }

  lemma LegSkipped(ordered: seq<FuturesPosition>, result: seq<int>, round: nat, i: nat)
    requires i < |ordered| && PassCounts(ordered, result, round, i) && Abs(ordered[i].netQuantity) <= round
    ensures PassCounts(ordered, result, round, i + 1)
  {
  }

  lemma PassEnds(ordered: seq<FuturesPosition>, result: seq<int>, round: nat)
    requires PassCounts(ordered, result, round, |ordered|)
    ensures PassCounts(ordered, result, round + 1, 0)
  {
  }

  /** One pass of the round-robin over all legs. */
  method OnePass(ordered: seq<FuturesPosition>, remaining0: seq<int>, result0: seq<int>, ghost round: nat)
    returns (progress: bool, remaining: seq<int>, result: seq<int>)
    requires DistinctExpiries(ordered) && |remaining0| == |ordered|
    requires PassCounts(ordered, result0, round, 0) && AllFair(ordered, result0)
    requires forall m :: 0 <= m < |ordered| ==>
             remaining0[m] == Abs(ordered[m].netQuantity) - Smaller(Abs(ordered[m].netQuantity), round)
    ensures |remaining| == |ordered|
    ensures PassCounts(ordered, result, round + 1, 0) && AllFair(ordered, result)
    ensures forall m :: 0 <= m < |ordered| ==>
            remaining[m] == Abs(ordered[m].netQuantity) - Smaller(Abs(ordered[m].netQuantity), round + 1)
    ensures progress ==> round + 1 <= Longest(ordered)
    ensures !progress ==> forall m :: 0 <= m < |ordered| ==> Abs(ordered[m].netQuantity) <= round
  {
    hide AllFair, PassCounts, Longest;
    progress, remaining, result := false, remaining0, result0;
    for i := 0 to |ordered|
      invariant |remaining| == |ordered|
      invariant PassCounts(ordered, result, round, i) && AllFair(ordered, result)
      invariant forall m :: 0 <= m < |ordered| ==>
                remaining[m] == Abs(ordered[m].netQuantity)
                - Smaller(Abs(ordered[m].netQuantity), if m < i then round + 1 else round)
      invariant progress ==> round + 1 <= Longest(ordered)
      invariant !progress ==> forall m :: 0 <= m < i ==> Abs(ordered[m].netQuantity) <= round
    {
      var left := remaining[i];
      assert ordered[i] in ordered;
      if left <= 0 {
        LegSkipped(ordered, result, round, i);
        continue;
      }
      UnitAppended(ordered, result, round, i);
      remaining := remaining[i := left - 1];
      result := result + [ordered[i].expirationAt];
      progress := true;
    }
    PassEnds(ordered, result, round);
  }

  /** Each open leg appears as often as it has contracts, nothing else appears, and every prefix is fair. */
  method RankUnitCloses(snap: AccountSnapshot, params: MMParams, currentPrice: int, liquidationFee: int)
    returns (sequence: seq<int>, ghost ordered: seq<FuturesPosition>, ghost drops: map<int, int>)
    requires DistinctExpiries(snap.futures.positions)
    ensures multiset(ordered) == multiset(OpenLegs(snap.futures.positions)) && DistinctExpiries(ordered)
    ensures forall p :: p in ordered <==> p in snap.futures.positions && p.netQuantity != 0
    ensures Ranked(KeyOf(drops), ordered)
    ensures forall p :: p in ordered ==>
            p.expirationAt in drops && drops[p.expirationAt] == DropOf(snap, params, p, currentPrice, liquidationFee)
    ensures FairInterleaving(ordered, sequence)
  {
    var positions := snap.futures.positions;
    var before := Required(snap, params, currentPrice, MM);
    var table: map<int, int> := map[];
    for i := 0 to |positions|
      invariant forall m :: 0 <= m < i && positions[m].netQuantity != 0 ==>
                  positions[m].expirationAt in table && table[positions[m].expirationAt]
                    == DropOf(snap, params, positions[m], currentPrice, liquidationFee)
    {
      var p := positions[i];
      if p.netQuantity != 0 {
        var closed := SimulateFuturesClose(snap, [CloseLeg(p.expirationAt, 1)], currentPrice, liquidationFee);
        var drop := before - Required(closed, params, currentPrice, MM);
        table := table[p.expirationAt := drop];
      }
    }
    var open := OpenLegs(positions);
    var sorted := SortRanked(KeyOf(table), open);
    OpenLegsAreDistinct(positions);
    PermutationIsDistinct(open, sorted);
    ordered, drops := sorted, table;
    sequence := Interleave(sorted);
  }

  /** The order, on the numbers: the larger drop first, then the larger position, then the earlier expiry. */
  lemma RankOrder(drops: map<int, int>, ordered: seq<FuturesPosition>, i: nat, j: nat)
    requires DistinctExpiries(ordered) && Ranked(KeyOf(drops), ordered) && i < j < |ordered|
    requires forall p :: p in ordered ==> p.expirationAt in drops
    ensures var p, q := ordered[i], ordered[j];
            var d, c := drops[p.expirationAt], drops[q.expirationAt];
            var m, n := Abs(p.netQuantity) * AvgEntry(p), Abs(q.netQuantity) * AvgEntry(q);
            d > c || (d == c && (m > n || (m == n && p.expirationAt < q.expirationAt)))
  {
    hide AvgEntry;
    assert ordered[i] in ordered && ordered[j] in ordered;
    assert !Precedes(KeyOf(drops)(ordered[j]), KeyOf(drops)(ordered[i]));
  }

  /** The first contract closed is one whose closing alone leaves the lowest maintenance requirement. */
  lemma FirstUnitHelpsMost(snap: AccountSnapshot, params: MMParams, currentPrice: int, liquidationFee: int,
                           drops: map<int, int>, ordered: seq<FuturesPosition>, sequence: seq<int>, p: FuturesPosition)
    requires DistinctExpiries(ordered) && Ranked(KeyOf(drops), ordered) && FairInterleaving(ordered, sequence)
    requires forall q :: q in ordered ==>
             && q.netQuantity != 0 && q.expirationAt in drops
             && drops[q.expirationAt] == DropOf(snap, params, q, currentPrice, liquidationFee)
    requires p in ordered
    ensures sequence != []
    ensures var first := Simulated(snap, [CloseLeg(sequence[0], 1)], currentPrice, liquidationFee);
            var other := Simulated(snap, [CloseLeg(p.expirationAt, 1)], currentPrice, liquidationFee);
            Required(first, params, currentPrice, MM) <= Required(other, params, currentPrice, MM)
  {
    hide Ranked, Fair, Required, Simulated;
    assert ordered[0] in ordered && Count(sequence, ordered[0].expirationAt) > 0;
    assert NextInTurn(ordered, sequence[..0], sequence[0]);
    var i :| 0 <= i < |ordered| && ordered[i].expirationAt == sequence[0] && TakesTurn(ordered, sequence[..0], i);
    assert i == 0;
    var m :| 0 <= m < |ordered| && ordered[m] == p;
    if m > 0 { RankOrder(drops, ordered, 0, m); }
  }

  // ── Scanning the prefixes ────────────────────────────────────────────────

  function AfterUnits(snap: AccountSnapshot, units: seq<int>, currentPrice: int, liquidationFee: int): AccountSnapshot {
    Simulated(snap, UnitLegs(units), currentPrice, liquidationFee)
  }

  /** Whether closing the first k units leaves the account where the solver wants it. */
  predicate Acceptable(snap: AccountSnapshot, params: MMParams, units: seq<int>, k: nat, currentPrice: int,
                       liquidationFee: int)
    requires k <= |units|
  {
    var after := AfterUnits(snap, units[..k], currentPrice, liquidationFee);
    && MmSurplus(after, params, currentPrice) >= 0
    && (params.imSpotShock > params.mmSpotShock ==> ImSurplus(after, params, currentPrice) <= 0)
  }

  function FullClose(positions: seq<FuturesPosition>): (legs: seq<CloseLeg>)
    ensures |legs| == |positions|
    ensures forall i :: 0 <= i < |legs| ==>
            legs[i] == CloseLeg(positions[i].expirationAt, Abs(positions[i].netQuantity))
  {
    if positions == [] then []
    else
      var last := positions[|positions| - 1];
      FullClose(positions[..|positions| - 1]) + [CloseLeg(last.expirationAt, Abs(last.netQuantity))]
  }

  /**
   The chosen batch: with an IM buffer the deepest acceptable prefix, without one the
   shallowest, as unit legs in their fair order; everything when no prefix is acceptable.
   */
  ghost predicate Chosen(snap: AccountSnapshot, params: MMParams, units: seq<int>, currentPrice: int,
                         liquidationFee: int, legs: seq<CloseLeg>) {
    if exists k :: 1 <= k <= |units| && Acceptable(snap, params, units, k, currentPrice, liquidationFee) then
      exists k :: 1 <= k <= |units| && Acceptable(snap, params, units, k, currentPrice, liquidationFee) &&
        legs == UnitLegs(units[..k]) &&
        (if params.imSpotShock > params.mmSpotShock
         then forall j :: k < j <= |units| ==> !Acceptable(snap, params, units, j, currentPrice, liquidationFee)
         else forall j :: 1 <= j < k ==> !Acceptable(snap, params, units, j, currentPrice, liquidationFee))
    else
      legs == FullClose(snap.futures.positions)
  }

  /** Solvent at MM and, when IM asks for more than MM, with nothing left over IM. */
  ghost predicate InBand(after: AccountSnapshot, params: MMParams, currentPrice: int) {
    && Required(after, params, currentPrice, MM) <= after.balance
    && (params.imSpotShock > params.mmSpotShock ==> after.balance <= Required(after, params, currentPrice, IM))
  }

  ghost predicate PrefixInBand(snap: AccountSnapshot, params: MMParams, units: seq<int>, k: int, currentPrice: int,
                               liquidationFee: int) {
    1 <= k <= |units| && InBand(Simulated(snap, UnitLegs(units[..k]), currentPrice, liquidationFee), params,
                                currentPrice)
  }

  /**
   A chosen partial batch lands in the band, and no deeper prefix does (or, without a buffer
   between IM and MM, no shallower one). Everything is closed only when no prefix lands there.
   */
  lemma ChosenLandsInBand(snap: AccountSnapshot, params: MMParams, units: seq<int>, currentPrice: int,
                          liquidationFee: int, legs: seq<CloseLeg>)
    requires Chosen(snap, params, units, currentPrice, liquidationFee, legs)
    ensures if exists k :: PrefixInBand(snap, params, units, k, currentPrice, liquidationFee) then
              && InBand(Simulated(snap, legs, currentPrice, liquidationFee), params, currentPrice)
              && exists k :: PrefixInBand(snap, params, units, k, currentPrice, liquidationFee)
                             && legs == UnitLegs(units[..k])
                             && forall j :: (if params.imSpotShock > params.mmSpotShock then k < j else j < k) ==>
                                  !PrefixInBand(snap, params, units, j, currentPrice, liquidationFee)
            else
              legs == FullClose(snap.futures.positions)
  {
    forall k: nat | 1 <= k <= |units|
      ensures Acceptable(snap, params, units, k, currentPrice, liquidationFee)
         <==> PrefixInBand(snap, params, units, k, currentPrice, liquidationFee)
    {
      hide Required, Simulated, UnitLegs;
    }
    hide Acceptable, InBand, Simulated, UnitLegs, FullClose;
  }

  method SolveFuturesClosesToTarget(snap: AccountSnapshot, params: MMParams, currentPrice: int, liquidationFee: int)
    returns (legs: seq<CloseLeg>, ghost units: seq<int>, ghost ordered: seq<FuturesPosition>,
             ghost drops: map<int, int>)
    requires DistinctExpiries(snap.futures.positions)
    ensures MmSurplus(snap, params, currentPrice) >= 0 || OpenLegs(snap.futures.positions) == [] ==> legs == []
    ensures MmSurplus(snap, params, currentPrice) < 0 && OpenLegs(snap.futures.positions) != [] ==>
              && (forall p :: p in ordered <==> p in snap.futures.positions && p.netQuantity != 0)
              && (forall p :: p in ordered ==>
                  p.expirationAt in drops && drops[p.expirationAt]
                  == DropOf(snap, params, p, currentPrice, liquidationFee))
              && Ranked(KeyOf(drops), ordered)
              && FairInterleaving(ordered, units)
              && Chosen(snap, params, units, currentPrice, liquidationFee, legs)
    ensures forall p :: p in snap.futures.positions ==> 0 <= CloseTotal(legs, p.expirationAt) <= Abs(p.netQuantity)
  {
    NothingOvercloses(snap.futures.positions);
    hide Scanned, Chosen, Acceptable, FairInterleaving, CloseTotal, Count, UnitLegs, FullClose, MmSurplus, OpenLegs,
      DistinctExpiries, Ranked, DropOf;
    units, ordered, drops := [], [], map[];
    var positions := snap.futures.positions;
    if |positions| == 0 { return [], [], [], map[]; }
    if MmSurplus(snap, params, currentPrice) >= 0 { return [], [], [], map[]; }
    var hasBuffer := params.imSpotShock > params.mmSpotShock;
    var sequence: seq<int>;
    sequence, ordered, drops := RankUnitCloses(snap, params, currentPrice, liquidationFee);
    units := sequence;
    NoUnitsWithoutOpenLegs(positions, ordered, sequence);
    var n := |sequence|;
    if n == 0 { return [], units, ordered, drops; }
    var bestPrefix, foundInBand := BestPrefix(snap, params, sequence, currentPrice, liquidationFee, hasBuffer);
    ScanChooses(snap, params, sequence, currentPrice, liquidationFee, bestPrefix, foundInBand);
    if !foundInBand {
      FullCloseTotals(positions);
      return FullClose(positions), units, ordered, drops;
    }
    PrefixNeverOvercloses(positions, ordered, sequence, bestPrefix);
    return UnitLegs(sequence[..bestPrefix]), units, ordered, drops;
  }

  /** The outcome of scanning every prefix length. */
  ghost predicate Scanned(snap: AccountSnapshot, params: MMParams, units: seq<int>, currentPrice: int,
                          liquidationFee: int, bestPrefix: nat, foundInBand: bool) {
    && bestPrefix <= |units|
    && (foundInBand <==>
        exists k :: 1 <= k <= |units| && Acceptable(snap, params, units, k, currentPrice, liquidationFee))
    && (foundInBand ==> 1 <= bestPrefix && Acceptable(snap, params, units, bestPrefix, currentPrice, liquidationFee))
    && (foundInBand && params.imSpotShock > params.mmSpotShock ==> forall j :: bestPrefix < j <= |units| ==>
        !Acceptable(snap, params, units, j, currentPrice, liquidationFee))
    && (foundInBand && params.imSpotShock <= params.mmSpotShock ==> forall j :: 1 <= j < bestPrefix ==>
        !Acceptable(snap, params, units, j, currentPrice, liquidationFee))
  }

  lemma ScanChooses(snap: AccountSnapshot, params: MMParams, units: seq<int>, currentPrice: int, liquidationFee: int,
                    bestPrefix: nat, foundInBand: bool)
    requires Scanned(snap, params, units, currentPrice, liquidationFee, bestPrefix, foundInBand)
    ensures bestPrefix <= |units|
    ensures Chosen(snap, params, units, currentPrice, liquidationFee,
                   if foundInBand then UnitLegs(units[..bestPrefix]) else FullClose(snap.futures.positions))
  {
    hide Acceptable, UnitLegs, FullClose;
  }

  /** The scan over prefix lengths. */
  method BestPrefix(snap: AccountSnapshot, params: MMParams, units: seq<int>, currentPrice: int, liquidationFee: int,
                    hasBuffer: bool)
    returns (bestPrefix: nat, foundInBand: bool)
    requires hasBuffer == (params.imSpotShock > params.mmSpotShock)
    ensures Scanned(snap, params, units, currentPrice, liquidationFee, bestPrefix, foundInBand)
  {
    hide Acceptable;
    bestPrefix, foundInBand := 0, false;
    for k := 1 to |units| + 1
      invariant bestPrefix < k
      invariant foundInBand ==>
                && hasBuffer && 1 <= bestPrefix
                && Acceptable(snap, params, units, bestPrefix, currentPrice, liquidationFee)
      invariant forall j :: (if foundInBand then bestPrefix else 0) < j < k ==>
                !Acceptable(snap, params, units, j, currentPrice, liquidationFee)
    {
      var ok := Scan(snap, params, units, k, currentPrice, liquidationFee, hasBuffer);
      if !hasBuffer {
        if ok { return k, true; }
        continue;
      }
      if ok { bestPrefix, foundInBand := k, true; }
    }
  }

  /** Coalesce, simulate, and test one prefix. */
  method Scan(snap: AccountSnapshot, params: MMParams, units: seq<int>, k: nat, currentPrice: int,
              liquidationFee: int, hasBuffer: bool) returns (ok: bool)
    requires k <= |units| && hasBuffer == (params.imSpotShock > params.mmSpotShock)
    ensures ok <==> Acceptable(snap, params, units, k, currentPrice, liquidationFee)
  {
    var closes := CoalesceUnitPrefix(units, k);
    var after := SimulateFuturesClose(snap, closes, currentPrice, liquidationFee);
    UnitsSimulateAsCoalesced(snap, units[..k], closes, currentPrice, liquidationFee);
    var mmS := MmSurplus(after, params, currentPrice);
    var imS := ImSurplus(after, params, currentPrice);
    ok := if hasBuffer then mmS >= 0 && imS <= 0 else mmS >= 0;
  }

  lemma CountIn(s: seq<int>, x: int)
    ensures x in s <==> Count(s, x) > 0
  {
    if s != [] {
      CountIn(s[..|s| - 1], x);
      assert s == s[..|s| - 1] + [s[|s| - 1]];
    }
  }

  lemma NoUnitsWithoutOpenLegs(positions: seq<FuturesPosition>, ordered: seq<FuturesPosition>, units: seq<int>)
    requires multiset(ordered) == multiset(OpenLegs(positions)) && FairInterleaving(ordered, units)
    ensures units == [] <==> OpenLegs(positions) == []
  {
    assert |multiset(ordered)| == |ordered| && |multiset(OpenLegs(positions))| == |OpenLegs(positions)|;
    if ordered == [] && units != [] {
      CountIn(units, units[0]);
    }
    if ordered != [] {
      assert ordered[0] in multiset(OpenLegs(positions));
      assert Abs(ordered[0].netQuantity) > 0;
    }
  }

  lemma CountBounded(positions: seq<FuturesPosition>, ordered: seq<FuturesPosition>, units: seq<int>,
                     p: FuturesPosition)
    requires DistinctExpiries(positions) && FairInterleaving(ordered, units) && p in positions
    requires forall q :: q in ordered <==> q in positions && q.netQuantity != 0
    ensures Count(units, p.expirationAt) == Abs(p.netQuantity)
  {
    if p.netQuantity != 0 {
      var i :| 0 <= i < |ordered| && ordered[i] == p;
    } else {
      var m :| 0 <= m < |positions| && positions[m] == p;
      forall q | q in ordered ensures q.expirationAt != p.expirationAt {
        var k :| 0 <= k < |positions| && positions[k] == q;
        assert k != m;
      }
    }
  }

  lemma NothingOvercloses(positions: seq<FuturesPosition>)
    ensures forall p :: p in positions ==> 0 <= CloseTotal([], p.expirationAt) <= Abs(p.netQuantity)
  {
  }

  lemma PrefixNeverOvercloses(positions: seq<FuturesPosition>, ordered: seq<FuturesPosition>, units: seq<int>, k: nat)
    requires DistinctExpiries(positions) && FairInterleaving(ordered, units) && k <= |units|
    requires forall q :: q in ordered <==> q in positions && q.netQuantity != 0
    ensures forall p :: p in positions ==> 0 <= CloseTotal(UnitLegs(units[..k]), p.expirationAt) <= Abs(p.netQuantity)
  {
    forall p | p in positions ensures 0 <= CloseTotal(UnitLegs(units[..k]), p.expirationAt) <= Abs(p.netQuantity) {
      UnitLegsTotal(units[..k], p.expirationAt);
      CountOfPrefix(units, k, p.expirationAt);
      CountBounded(positions, ordered, units, p);
    }
  }

  lemma {:induction false} FullCloseTotal(positions: seq<FuturesPosition>, p: FuturesPosition)
    requires DistinctExpiries(positions)
    ensures p in positions ==> CloseTotal(FullClose(positions), p.expirationAt) == Abs(p.netQuantity)
    ensures (forall q :: q in positions ==> q.expirationAt != p.expirationAt) ==>
            CloseTotal(FullClose(positions), p.expirationAt) == 0
  {
    if positions != [] {
      var init, last := positions[..|positions| - 1], positions[|positions| - 1];
      LastIsDistinct(positions);
      FullCloseTotal(init, p);
      CloseTotalAppend(FullClose(init), CloseLeg(last.expirationAt, Abs(last.netQuantity)), p.expirationAt);
      hide DistinctExpiries, CloseTotal;
    }
  }

  lemma LastIsDistinct(positions: seq<FuturesPosition>)
    requires DistinctExpiries(positions) && positions != []
    ensures var init, last := positions[..|positions| - 1], positions[|positions| - 1];
            && DistinctExpiries(init)
            && (forall q :: q in positions <==> q in init || q == last)
            && (forall q :: q in init ==> q.expirationAt != last.expirationAt)
  {
    var init, last := positions[..|positions| - 1], positions[|positions| - 1];
    assert positions == init + [last];
    forall q | q in init ensures q.expirationAt != last.expirationAt {
      var k :| 0 <= k < |init| && init[k] == q;
      assert positions[k] == q;
    }
  }

  lemma FullCloseTotals(positions: seq<FuturesPosition>)
    requires DistinctExpiries(positions)
    ensures forall p :: p in positions ==> CloseTotal(FullClose(positions), p.expirationAt) == Abs(p.netQuantity)
  {
    forall p | p in positions ensures CloseTotal(FullClose(positions), p.expirationAt) == Abs(p.netQuantity) {
      FullCloseTotal(positions, p);
    }
  }
}
