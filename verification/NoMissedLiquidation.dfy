/**
 Solver and index together: whatever run of prices follows, an account that has
 become insolvent has been reported by then.
 */
module NoMissedLiquidation {
  import opened Arithmetic
  import opened Margin
  import opened MarginShape
  import opened Optional
  import opened PredictiveIndexing
  import opened Thresholds
  import opened ThresholdGuarantees

  /** Price ticks that stay positive and within 1024 times the first one. */
  ghost predicate InRange(ticks: seq<int>) {
    && ticks != [] && ticks[0] >= 0
    && (forall i :: 0 < i < |ticks| ==> 1 <= ticks[i] <= 1024 * ticks[0])
  }

  /** The user's own thresholds are what the solver found at the first tick. */
  ghost predicate SolvedAtFirstTick(snap: AccountSnapshot, params: MMParams, ticks: seq<int>, t: PriceThresholds)
    requires ticks != []
  {
    t.user == snap.user && Closest(snap, params, ticks[0], MM, MmSurplusAt(snap, params), t.liqDown, t.liqUp)
  }

  ghost predicate ReportedBetween(byUser: map<Address, PriceThresholds>, user: Address, prev: int, next: int) {
    exists c: Crossing :: c.user == user && IsCrossed(byUser, prev, next, c)
  }

  /** A run that starts between two thresholds and ends outside them crosses one of them on the way. */
  lemma {:induction false} PathCrosses(byUser: map<Address, PriceThresholds>, user: Address, ticks: seq<int>, k: nat)
    requires 0 < k < |ticks| && user in byUser
    requires !Outside(ticks[0], byUser[user].liqDown, byUser[user].liqUp)
    requires Outside(ticks[k], byUser[user].liqDown, byUser[user].liqUp)
    ensures exists i :: 0 <= i < k && ReportedBetween(byUser, user, ticks[i], ticks[i + 1])
    decreases k
  {
    var t := byUser[user];
    if Outside(ticks[k - 1], t.liqDown, t.liqUp) {
      PathCrosses(byUser, user, ticks, k - 1);
    } else {
      var c := if t.liqDown.Some? && ticks[k] < t.liqDown.value then Crossing(user, t.liqDown.value, Down)
        else Crossing(user, t.liqUp.value, Up);
      assert IsCrossed(byUser, ticks[k - 1], ticks[k], c);
      assert ReportedBetween(byUser, user, ticks[k - 1], ticks[k - 1 + 1]);
    }
  }

  /** At or past one of the user's thresholds. */
  ghost predicate Reaches(price: int, t: PriceThresholds) {
    (t.liqDown.Some? && price <= t.liqDown.value) || (t.liqUp.Some? && price >= t.liqUp.value)
  }

  /** A move from strictly between a user's thresholds reports the user exactly when it reaches one of them. */
  lemma ReportedExactly(byUser: map<Address, PriceThresholds>, user: Address, prev: int, next: int)
    requires user in byUser && !Reaches(prev, byUser[user])
    ensures ReportedBetween(byUser, user, prev, next) <==> Reaches(next, byUser[user])
  {
    var t := byUser[user];
    if t.liqDown.Some? && next <= t.liqDown.value {
      assert IsCrossed(byUser, prev, next, Crossing(user, t.liqDown.value, Down));
    } else if t.liqUp.Some? && next >= t.liqUp.value {
      assert IsCrossed(byUser, prev, next, Crossing(user, t.liqUp.value, Up));
    }
  }

  /** So along a run the user is first reported by the very move that first reaches a threshold. */
  lemma {:induction false} FirstReportIsFirstReach(byUser: map<Address, PriceThresholds>, user: Address,
                                                   ticks: seq<int>, k: nat)
    requires k < |ticks| && user in byUser && !Reaches(ticks[0], byUser[user])
    ensures (forall i, j :: 0 <= i < k && j == i + 1 ==> !ReportedBetween(byUser, user, ticks[i], ticks[j]))
       <==> (forall j :: 0 <= j <= k ==> !Reaches(ticks[j], byUser[user]))
    decreases k
  {
    hide Reaches, ReportedBetween;
    if k > 0 {
      FirstReportIsFirstReach(byUser, user, ticks, k - 1);
      if forall j :: 0 <= j < k ==> !Reaches(ticks[j], byUser[user]) {
        ReportedExactly(byUser, user, ticks[k - 1], ticks[k]);
      }
    }
  }

  /**
   No missed liquidation. Solve at a solvent spot, with a margin towards each side that gets
   no threshold, and store the result in any consistent index; then by the first tick whose
   surplus is below zero by more than the slack (zero for whole-contract accounts), some move
   of the run reported the user.
   */
  lemma NoMissedLiquidationInAnyRun(snap: AccountSnapshot, params: MMParams, ticks: seq<int>, t: PriceThresholds,
                                    before: IndexState, k: nat)
    requires WellFormed(snap, params) && InRange(ticks)
    requires SolvedAtFirstTick(snap, params, ticks, t)
    requires Guarded(snap, params, ticks[0], t.liqDown, t.liqUp)
    requires Consistent(before)
    requires k < |ticks| && MmSurplus(snap, params, ticks[k]) < -Slack(snap, params)
    ensures exists i :: 0 <= i < k && ReportedBetween(Upserted(before, t).byUser, snap.user, ticks[i], ticks[i + 1])
  {
    hide ClosestRoots, Required, WellFormed, WholeContract;
    SearchRange(snap, params, ticks[0], MM);
    SearchReaches(snap, params, ticks[0], MM);
    InsolventPricesAreOutside(snap, params, ticks[0], t.liqDown, t.liqUp, ticks[k]);
    SpotIsInside(snap, params, ticks[0], t.liqDown, t.liqUp);
    PathCrosses(Upserted(before, t).byUser, snap.user, ticks, k);
  }

  lemma SpotIsInside(snap: AccountSnapshot, params: MMParams, currentPrice: int, down: Option<int>, up: Option<int>)
    requires Closest(snap, params, currentPrice, MM, MmSurplusAt(snap, params), down, up)
    ensures !Outside(currentPrice, down, up)
  {
  }

  /**
   The premises can be met and the conclusion can bite: the account of one long contract
   from 100, solved at 95, is insolvent when the price reaches 89.
   */
  lemma ARunThatEndsInsolvent()
    ensures var (snap, params) := OnTheThreshold();
            && WellFormed(snap, params) && InRange([95, 89])
            && ClearlySolvent(snap, params, 95) && WithinReach(snap, params, 95, MM)
            && MmSurplus(snap, params, 89) < -Slack(snap, params)
  {
    hide MmSurplus, Cap, Floor, WithinReach, WholeContract, WellFormed, Slack;
    var (snap, params) := OnTheThreshold();
    OnTheThresholdSurplus(94);
    OnTheThresholdSurplus(95);
    OnTheThresholdSurplus(96);
    OnTheThresholdSurplus(89);
    NoSlack(snap, params);
    CapIsLow(snap, params);
  }

  lemma CapIsLow(snap: AccountSnapshot, params: MMParams)
    requires (snap, params) == OnTheThreshold() && WellFormed(snap, params)
    ensures WithinReach(snap, params, 95, MM) && 95 < Cap(snap, params, 95, MM)
  {
    SearchRange(snap, params, 95, MM);
    KinksAreLow(snap, params);
    hide Kinks, WellFormed, Pow2;
    var kinks := Kinks(snap, params, 95, MM);
    assert Greatest(kinks) in kinks;
    PowerIsLarge(ITERATION_CAP - 1);
  }

  lemma KinksAreLow(snap: AccountSnapshot, params: MMParams)
    requires (snap, params) == OnTheThreshold()
    ensures forall k :: k in Kinks(snap, params, 95, MM) ==> k <= 101
  {
    var positions := snap.futures.positions;
    assert positions[|positions| - 1] == FuturesPosition(1, 1, 100, 0) && positions[..|positions| - 1] == [];
    assert UnsettledQuantity([]) == 0 == FrozenValue([]);
    assert UnsettledQuantity(positions) == 1 && FrozenValue(positions) == 100;
    var scale := params.QtyScale();
    assert FloorDiv(scale * 100, scale) == 100 by { ExactDiv(100, scale); }
  }

  lemma PowerIsLarge(n: nat)
    requires n >= 20
    ensures Pow2(n) >= 1_000_000
  {
    if n > 20 {
      PowerIsLarge(n - 1);
    } else {
      assert Pow2(4) == 16 by { assert Pow2(2) == 4; }
      assert Pow2(8) == 256 by { assert Pow2(6) == 64; }
      assert Pow2(12) == 4096 by { assert Pow2(10) == 1024; }
      assert Pow2(16) == 65536 by { assert Pow2(14) == 16384; }
      assert Pow2(18) == 262144;
    }
  }

  /**
   The same end to end: solve at the first tick, store, and replay the ticks through the
   index. Entry i says whether the move to tick i + 1 reported the user.
   */
  method WatchRun(snap: AccountSnapshot, params: MMParams, ticks: seq<int>, index: PredictiveIndex)
    returns (thresholds: PriceThresholds, reported: seq<bool>)
    requires WellFormed(snap, params) && InRange(ticks)
    requires WithinReach(snap, params, ticks[0], MM)
    requires Consistent(index.State())
    modifies index
    ensures index.State() == Upserted(old(index.State()), thresholds) && Consistent(index.State())
    ensures MmSurplus(snap, params, ticks[0]) >= 0 ==> SolvedAtFirstTick(snap, params, ticks, thresholds)
    ensures |reported| == |ticks| - 1
    ensures Guarded(snap, params, ticks[0], thresholds.liqDown, thresholds.liqUp) ==>
              forall k :: 0 <= k < |ticks| && MmSurplus(snap, params, ticks[k]) < -Slack(snap, params) ==>
                exists i :: 0 <= i < k && reported[i]
  {
    hide Required, WellFormed, WithinReach, ClosestRoots, Slack, MmSurplus, Cap;
    ghost var before := index.State();
    thresholds := SolveLiquidationThresholds(snap, params, ticks[0]);
    var watched := index.UpsertUser(thresholds);
    reported := ReplayTicks(snap.user, ticks, index);
    if Guarded(snap, params, ticks[0], thresholds.liqDown, thresholds.liqUp) {
      forall k | 0 <= k < |ticks| && MmSurplus(snap, params, ticks[k]) < -Slack(snap, params)
        ensures exists i :: 0 <= i < k && reported[i]
      {
        NoMissedLiquidationInAnyRun(snap, params, ticks, thresholds, before, k);
      }
    }
  }

  /** Query the index for every move of the run. */
  method ReplayTicks(user: Address, ticks: seq<int>, index: PredictiveIndex) returns (reported: seq<bool>)
    requires ticks != [] && Consistent(index.State())
    ensures |reported| == |ticks| - 1
    ensures forall i :: 0 <= i < |reported| ==>
            (reported[i] <==> ReportedBetween(index.byUser, user, ticks[i], ticks[i + 1]))
  {
    reported := [];
    for i := 1 to |ticks|
      invariant |reported| == i - 1
      invariant forall j :: 0 <= j < i - 1 ==>
                (reported[j] <==> ReportedBetween(index.byUser, user, ticks[j], ticks[j + 1]))
    {
      var crossings := index.Crossings(Some(ticks[i - 1]), ticks[i]);
      var hit := exists c | c in crossings :: c.user == user;
      assert hit <==> ReportedBetween(index.byUser, user, ticks[i - 1], ticks[i]);
      reported := reported + [hit];
    }
  }
}
