/**
 Exactly when the search leaves an insolvent price unwatched. A root that falls on spot is
 dropped, and so is the interval it ends: these lemmas say what that costs a whole-contract
 account, on each side of spot.
 */
module MissedThresholds {
  import opened Margin
  import opened MarginShape
  import opened Optional
  import opened Thresholds
  import opened ThresholdGuarantees

  /** The greatest boundary of the search below spot. */
  function NearestBelow(kinks: seq<int>, floor: int, spot: int): (b: int)
    ensures b == floor || b in kinks
    ensures floor <= b && (floor < spot ==> b < spot)
    ensures forall k :: k in kinks && k < spot ==> k <= b
  {
    if kinks == [] then floor
    else
      var rest := NearestBelow(kinks[1..], floor, spot);
      assert forall k :: k in kinks <==> k == kinks[0] || k in kinks[1..];
      if rest < kinks[0] < spot then kinks[0] else rest
  }

  /** The least boundary of the search above spot. */
  function NearestAbove(kinks: seq<int>, cap: int, spot: int): (b: int)
    ensures b == cap || b in kinks
    ensures b <= cap && (spot < cap ==> spot < b)
    ensures forall k :: k in kinks && spot < k ==> b <= k
  {
    if kinks == [] then cap
    else
      var rest := NearestAbove(kinks[1..], cap, spot);
      assert forall k :: k in kinks <==> k == kinks[0] || k in kinks[1..];
      if spot < kinks[0] < rest then kinks[0] else rest
  }

  /** Some price of the range below spot is negative and not under the threshold. */
  ghost predicate EscapesBelow(f: int -> int, floor: int, spot: int, down: Option<int>) {
    exists p :: floor <= p < spot && f(p) < 0 && !(down.Some? && p < down.value)
  }

  ghost predicate EscapesAbove(f: int -> int, spot: int, cap: int, up: Option<int>) {
    exists p :: spot < p <= cap && f(p) < 0 && !(up.Some? && p > up.value)
  }

  lemma NonnegativeBetween(f: int -> int, a: int, b: int)
    requires Peaked(f, 0) && 0 <= a
    ensures f(a) >= 0 && f(b) >= 0 ==> forall p :: a <= p <= b ==> f(p) >= 0
  {
  }

  lemma PositiveSpotBelow(f: int -> int, boundaries: seq<int>, floor: int, cap: int, spot: int, down: Option<int>,
                          up: Option<int>)
    requires Peaked(f, 0) && 0 <= floor < spot < cap && f(spot) > 0
    requires ClosestRoots(f, boundaries, floor, cap, spot, down, up)
    ensures EscapesBelow(f, floor, spot, down) <==> f(spot - 1) < 0
  {
    LowerRootExactly(f, boundaries, floor, cap, spot, down, up);
    NonnegativeBetween(f, floor, spot);
    hide Peaked, ClosestRoots;
    assert f(spot - 1) < 0 ==> EscapesBelow(f, floor, spot, down);
  }

  lemma PositiveSpotAbove(f: int -> int, boundaries: seq<int>, floor: int, cap: int, spot: int, down: Option<int>,
                          up: Option<int>)
    requires Peaked(f, 0) && 0 <= floor <= spot < cap && f(spot) > 0
    requires ClosestRoots(f, boundaries, floor, cap, spot, down, up)
    ensures EscapesAbove(f, spot, cap, up) <==> f(spot + 1) < 0
  {
    UpperRootExactly(f, boundaries, floor, cap, spot, down, up);
    NonnegativeBetween(f, spot, cap);
    hide Peaked, ClosestRoots;
    assert f(spot + 1) < 0 ==> EscapesAbove(f, spot, cap, up);
  }

  lemma ZeroSpotBelow(f: int -> int, boundaries: seq<int>, floor: int, cap: int, spot: int, down: Option<int>,
                      up: Option<int>)
    requires Peaked(f, 0) && 0 <= floor < spot < cap && f(spot) == 0
    requires ClosestRoots(f, boundaries, floor, cap, spot, down, up)
    ensures EscapesBelow(f, floor, spot, down) <==> f(NearestBelow(boundaries, floor, spot)) < 0
  {
    var b := NearestBelow(boundaries, floor, spot);
    assert down.Some? ==> down.value <= b;
    assert f(b) < 0 ==> EscapesBelow(f, floor, spot, down);
    var d := if down.Some? then down.value else spot;
    NonnegativeBetween(f, b, spot);
    NonnegativeBetween(f, d, spot);
    NonnegativeBetween(f, floor, spot);
    assert floor < b ==> b in boundaries;
    assert floor < b && down.None? ==> !Crosses(f, floor, b);
  }

  lemma ZeroSpotAbove(f: int -> int, boundaries: seq<int>, floor: int, cap: int, spot: int, down: Option<int>,
                      up: Option<int>)
    requires Peaked(f, 0) && 0 <= floor <= spot < cap && f(spot) == 0
    requires ClosestRoots(f, boundaries, floor, cap, spot, down, up)
    ensures EscapesAbove(f, spot, cap, up) <==> f(NearestAbove(boundaries, cap, spot)) < 0
  {
    var b := NearestAbove(boundaries, cap, spot);
    assert up.Some? ==> b <= up.value;
    assert f(b) < 0 ==> EscapesAbove(f, spot, cap, up);
    var u := if up.Some? then up.value else spot;
    NonnegativeBetween(f, spot, b);
    NonnegativeBetween(f, spot, u);
    NonnegativeBetween(f, spot, cap);
    assert b < cap ==> b in boundaries;
    assert b < cap && up.None? ==> !Crosses(f, b, cap);
  }

  /**
   For a whole-contract account solvent at spot, some insolvent searched price below spot
   escapes the lower threshold if and only if, with a positive surplus at spot, the price
   one below is already insolvent; with a zero surplus, the nearest boundary below spot is.
   */
  lemma MissedBelowExactly(snap: AccountSnapshot, params: MMParams, currentPrice: int, down: Option<int>,
                           up: Option<int>)
    requires WholeContract(snap, params) && currentPrice >= 0
    requires MmSurplus(snap, params, currentPrice) >= 0
    requires Closest(snap, params, currentPrice, MM, MmSurplusAt(snap, params), down, up)
    ensures var floor := Floor(snap, params, currentPrice, MM);
            var nearest := NearestBelow(Kinks(snap, params, currentPrice, MM), floor, currentPrice);
            EscapesBelow(MmSurplusAt(snap, params), floor, currentPrice, down) <==>
            && floor < currentPrice
            && (if MmSurplus(snap, params, currentPrice) > 0 then MmSurplus(snap, params, currentPrice - 1) < 0
                else MmSurplus(snap, params, nearest) < 0)
  {
    hide Peaked, ClosestRoots, Required, Kinks, WholeContract;
    NoSlack(snap, params);
    SearchRange(snap, params, currentPrice, MM);
    SurplusIsPeaked(snap, params);
    var f, kinks := MmSurplusAt(snap, params), Kinks(snap, params, currentPrice, MM);
    var floor, cap := Floor(snap, params, currentPrice, MM), Cap(snap, params, currentPrice, MM);
    if floor < currentPrice {
      if f(currentPrice) > 0 {
        PositiveSpotBelow(f, kinks, floor, cap, currentPrice, down, up);
      } else {
        ZeroSpotBelow(f, kinks, floor, cap, currentPrice, down, up);
      }
    }
  }

  /** The mirror image above spot, up to the search cap. */
  lemma MissedAboveExactly(snap: AccountSnapshot, params: MMParams, currentPrice: int, down: Option<int>,
                           up: Option<int>)
    requires WholeContract(snap, params) && currentPrice >= 0
    requires MmSurplus(snap, params, currentPrice) >= 0
    requires Closest(snap, params, currentPrice, MM, MmSurplusAt(snap, params), down, up)
    ensures var cap := Cap(snap, params, currentPrice, MM);
            var nearest := NearestAbove(Kinks(snap, params, currentPrice, MM), cap, currentPrice);
            EscapesAbove(MmSurplusAt(snap, params), currentPrice, cap, up)
            <==> if MmSurplus(snap, params, currentPrice) > 0 then MmSurplus(snap, params, currentPrice + 1) < 0
                 else MmSurplus(snap, params, nearest) < 0
  {
    hide Peaked, ClosestRoots, Required, Kinks, WholeContract;
    NoSlack(snap, params);
    SearchRange(snap, params, currentPrice, MM);
    SurplusIsPeaked(snap, params);
    var f, kinks := MmSurplusAt(snap, params), Kinks(snap, params, currentPrice, MM);
    var floor, cap := Floor(snap, params, currentPrice, MM), Cap(snap, params, currentPrice, MM);
    if f(currentPrice) > 0 {
      PositiveSpotAbove(f, kinks, floor, cap, currentPrice, down, up);
    } else {
      ZeroSpotAbove(f, kinks, floor, cap, currentPrice, down, up);
    }
  }
}
