/**
 The predictive index (keeper/src/predict/predictiveIndex.ts): one map and two arrays
 kept sorted by threshold. The class is proved against `IndexState`, and the lemmas
 show that the arrays and the map never disagree and that a crossing query is the
 plain filter of the map.
 */
module PredictiveIndexing {
  import opened Margin
  import opened Optional
  import opened Thresholds

  datatype Entry = Entry(threshold: int, user: Address)

  datatype Direction = Down | Up

  datatype Crossing = Crossing(user: Address, threshold: int, direction: Direction)

  datatype IndexState = IndexState(byUser: map<Address, PriceThresholds>, down: seq<Entry>, up: seq<Entry>)

  const EMPTY: IndexState := IndexState(map[], [], [])

  // ── The specification ────────────────────────────────────────────────────

  function ThresholdOf(t: PriceThresholds, direction: Direction): Option<int> {
    if direction == Down then t.liqDown else t.liqUp
  }

  ghost predicate SortedEntries(entries: seq<Entry>) {
    forall i, j :: 0 <= i < j < |entries| ==> entries[i].threshold <= entries[j].threshold
  }

  ghost predicate OnePerUser(entries: seq<Entry>) {
    forall i, j :: 0 <= i < j < |entries| ==> entries[i].user != entries[j].user
  }

  /** The array holds exactly the defined thresholds of the map, sorted, one entry each. */
  ghost predicate Mirrors(byUser: map<Address, PriceThresholds>, entries: seq<Entry>, direction: Direction) {
    && SortedEntries(entries)
    && OnePerUser(entries)
    && (forall e :: e in entries <==> e.user in byUser && ThresholdOf(byUser[e.user], direction) == Some(e.threshold))
  }

  ghost predicate Consistent(s: IndexState) {
    && Mirrors(s.byUser, s.down, Down)
    && Mirrors(s.byUser, s.up, Up)
    && (forall u :: u in s.byUser ==> s.byUser[u].user == u && (s.byUser[u].liqDown.Some? || s.byUser[u].liqUp.Some?))
  }

  function Without(entries: seq<Entry>, user: Address): (r: seq<Entry>)
    ensures forall e :: e in r <==> e in entries && e.user != user
  {
    if entries == [] then []
    else (if entries[0].user != user then [entries[0]] else []) + Without(entries[1..], user)
  }

  /** The number of leading entries below `target` (`strict`) or not above it. */
  function Rank(entries: seq<Entry>, target: int, strict: bool): (n: nat)
    ensures n <= |entries|
  {
    if entries == [] || (if strict then entries[0].threshold >= target else entries[0].threshold > target) then 0
    else 1 + Rank(entries[1..], target, strict)
  }

  function Inserted(entries: seq<Entry>, entry: Entry): seq<Entry> {
    var i := Rank(entries, entry.threshold, true);
    entries[..i] + [entry] + entries[i..]
  }

  function InsertedIfDefined(entries: seq<Entry>, user: Address, threshold: Option<int>): seq<Entry> {
    match threshold
    case None => entries
    case Some(t) => Inserted(entries, Entry(t, user))
  }

  function Removed(s: IndexState, user: Address): IndexState {
    if user !in s.byUser then s
    else IndexState(s.byUser - {user}, Without(s.down, user), Without(s.up, user))
  }

  function Upserted(s: IndexState, t: PriceThresholds): IndexState {
    var r := Removed(s, t.user);
    if t.liqDown.None? && t.liqUp.None? then r
    else IndexState(r.byUser[t.user := t], InsertedIfDefined(r.down, t.user, t.liqDown),
                    InsertedIfDefined(r.up, t.user, t.liqUp))
  }

  function AsCrossings(entries: seq<Entry>, direction: Direction): (r: seq<Crossing>)
    ensures |r| == |entries|
    ensures forall i :: 0 <= i < |r| ==> r[i] == Crossing(entries[i].user, entries[i].threshold, direction)
  {
    if entries == [] then []
    else [Crossing(entries[0].user, entries[0].threshold, direction)] + AsCrossings(entries[1..], direction)
  }

  // ── The arrays never disagree with the map ───────────────────────────────

  lemma FirstAgainstRest(entries: seq<Entry>)
    requires entries != [] && SortedEntries(entries) && OnePerUser(entries)
    ensures SortedEntries(entries[1..]) && OnePerUser(entries[1..])
    ensures forall e :: e in entries[1..] ==> entries[0].threshold <= e.threshold && entries[0].user != e.user
  {
    var rest := entries[1..];
    assert forall i :: 0 <= i < |rest| ==> rest[i] == entries[i + 1];
  }

  lemma Prepended(first: Entry, rest: seq<Entry>)
    requires SortedEntries(rest) && OnePerUser(rest)
    requires forall e :: e in rest ==> first.threshold <= e.threshold && first.user != e.user
    ensures SortedEntries([first] + rest) && OnePerUser([first] + rest)
  {
    assert forall i :: 0 <= i < |rest| ==> rest[i] in rest;
  }

  lemma {:induction false} WithoutKeepsOrder(entries: seq<Entry>, user: Address)
    requires SortedEntries(entries) && OnePerUser(entries)
    ensures SortedEntries(Without(entries, user)) && OnePerUser(Without(entries, user))
  {
    if entries != [] {
      FirstAgainstRest(entries);
      WithoutKeepsOrder(entries[1..], user);
      Prepended(entries[0], Without(entries[1..], user));
      assert [] + Without(entries[1..], user) == Without(entries[1..], user);
    }
  }

  lemma {:induction false} RankSplits(entries: seq<Entry>, target: int, strict: bool)
    requires SortedEntries(entries)
    ensures forall i :: 0 <= i < Rank(entries, target, strict) ==>
            (if strict then entries[i].threshold < target else entries[i].threshold <= target)
    ensures forall i :: Rank(entries, target, strict) <= i < |entries| ==>
            (if strict then entries[i].threshold >= target else entries[i].threshold > target)
  {
    if entries != [] && (if strict then entries[0].threshold < target else entries[0].threshold <= target) {
      RankSplits(entries[1..], target, strict);
      forall i | 1 <= i < |entries| ensures entries[i] == entries[1..][i - 1] {}
    }
  }

  lemma InsertedKeepsOrder(entries: seq<Entry>, entry: Entry)
    requires SortedEntries(entries) && OnePerUser(entries)
    requires forall e :: e in entries ==> e.user != entry.user
    ensures SortedEntries(Inserted(entries, entry)) && OnePerUser(Inserted(entries, entry))
    ensures forall e :: e in Inserted(entries, entry) <==> e in entries || e == entry
  {
    RankSplits(entries, entry.threshold, true);
    var i := Rank(entries, entry.threshold, true);
    SplicedKeepsOrder(entries, entry, i);
  }

  ghost predicate Before(x: Entry, y: Entry) {
    x.threshold <= y.threshold && x.user != y.user
  }

  lemma Joined(xs: seq<Entry>, ys: seq<Entry>)
    requires SortedEntries(xs) && OnePerUser(xs) && SortedEntries(ys) && OnePerUser(ys)
    requires forall i, j :: 0 <= i < |xs| && 0 <= j < |ys| ==> Before(xs[i], ys[j])
    ensures SortedEntries(xs + ys) && OnePerUser(xs + ys)
  {
    forall i, j | 0 <= i < j < |xs + ys| ensures Before((xs + ys)[i], (xs + ys)[j]) {
      if i < |xs| <= j {
        assert Before(xs[i], ys[j - |xs|]);
      }
    }
  }

  lemma Halves(entries: seq<Entry>, i: nat)
    requires SortedEntries(entries) && OnePerUser(entries) && i <= |entries|
    ensures SortedEntries(entries[..i]) && OnePerUser(entries[..i])
    ensures SortedEntries(entries[i..]) && OnePerUser(entries[i..])
    ensures forall k, j :: 0 <= k < i && 0 <= j < |entries| - i ==> Before(entries[..i][k], entries[i..][j])
  {
  }

  lemma SplicedKeepsOrder(entries: seq<Entry>, entry: Entry, i: nat)
    requires SortedEntries(entries) && OnePerUser(entries) && i <= |entries|
    requires forall e :: e in entries ==> e.user != entry.user
    requires forall k :: 0 <= k < i ==> entries[k].threshold < entry.threshold
    requires forall k :: i <= k < |entries| ==> entries[k].threshold >= entry.threshold
    ensures SortedEntries(entries[..i] + [entry] + entries[i..]) && OnePerUser(entries[..i] + [entry] + entries[i..])
    ensures forall e :: e in entries[..i] + [entry] + entries[i..] <==> e in entries || e == entry
  {
    Halves(entries, i);
    assert entries == entries[..i] + entries[i..];
    var left, right := entries[..i], entries[i..];
    forall k | 0 <= k < |left| ensures Before(left[k], entry) { assert left[k] in entries; }
    forall j | 0 <= j < |right| ensures Before(entry, right[j]) { assert right[j] in entries; }
    Joined(left, [entry]);
    forall k, j | 0 <= k < |left + [entry]| && 0 <= j < |right| ensures Before((left + [entry])[k], right[j]) {
      if k < |left| { assert Before(left[k], right[j]); }
    }
    Joined(left + [entry], right);
  }

  lemma RemovedMirrors(byUser: map<Address, PriceThresholds>, entries: seq<Entry>, direction: Direction, user: Address)
    requires Mirrors(byUser, entries, direction)
    ensures Mirrors(byUser - {user}, Without(entries, user), direction)
  {
    WithoutKeepsOrder(entries, user);
  }

  lemma InsertedMirrors(byUser: map<Address, PriceThresholds>, entries: seq<Entry>, direction: Direction,
                        t: PriceThresholds)
    requires Mirrors(byUser, entries, direction) && t.user !in byUser
    ensures Mirrors(byUser[t.user := t], InsertedIfDefined(entries, t.user, ThresholdOf(t, direction)), direction)
  {
    match ThresholdOf(t, direction)
    case None =>
    case Some(v) => InsertedKeepsOrder(entries, Entry(v, t.user));
  }

  lemma RemovedKeepsConsistent(s: IndexState, user: Address)
    requires Consistent(s)
    ensures Consistent(Removed(s, user)) && user !in Removed(s, user).byUser
  {
    RemovedMirrors(s.byUser, s.down, Down, user);
    RemovedMirrors(s.byUser, s.up, Up, user);
  }

  lemma UpsertedKeepsConsistent(s: IndexState, t: PriceThresholds)
    requires Consistent(s)
    ensures Consistent(Upserted(s, t))
  {
    RemovedKeepsConsistent(s, t.user);
    var r := Removed(s, t.user);
    InsertedMirrors(r.byUser, r.down, Down, t);
    InsertedMirrors(r.byUser, r.up, Up, t);
  }

  datatype IndexOp = Upsert(thresholds: PriceThresholds) | Invalidate(user: Address)

  function Apply(s: IndexState, op: IndexOp): IndexState {
    match op
    case Upsert(t) => Upserted(s, t)
    case Invalidate(u) => Removed(s, u)
  }

  function ApplyAll(ops: seq<IndexOp>): IndexState {
    if ops == [] then EMPTY else Apply(ApplyAll(ops[..|ops| - 1]), ops[|ops| - 1])
  }

  /** The last defined thresholds a run gave a user, if it left any. */
  function LastGiven(ops: seq<IndexOp>, user: Address): Option<PriceThresholds> {
    if ops == [] then None
    else
      match ops[|ops| - 1]
      case Upsert(t) =>
        if t.user != user then LastGiven(ops[..|ops| - 1], user)
        else if t.liqDown.None? && t.liqUp.None? then None else Some(t)
      case Invalidate(u) => if u == user then None else LastGiven(ops[..|ops| - 1], user)
  }

  function OpUser(op: IndexOp): Address {
    match op
    case Upsert(t) => t.user
    case Invalidate(u) => u
  }

  /** One operation keeps the index consistent and changes the map at one user only. */
  lemma StepIsConsistent(s: IndexState, op: IndexOp)
    requires Consistent(s)
    ensures var s' := Apply(s, op);
            && Consistent(s')
            && (OpUser(op) in s'.byUser <==> op.Upsert? && (op.thresholds.liqDown.Some? || op.thresholds.liqUp.Some?))
            && (OpUser(op) in s'.byUser ==> op.Upsert? && s'.byUser[OpUser(op)] == op.thresholds)
            && (forall u :: u != OpUser(op) ==>
                (u in s'.byUser <==> u in s.byUser) && (u in s.byUser ==> s'.byUser[u] == s.byUser[u]))
  {
    match op
    case Upsert(t) =>
      UpsertedKeepsConsistent(s, t);
      RemovedKeepsConsistent(s, t.user);
    case Invalidate(u) => RemovedKeepsConsistent(s, u);
  }

  /** After any run, the arrays mirror the map and the map holds what each user was last given. */
  lemma {:induction false} EveryRunIsConsistent(ops: seq<IndexOp>)
    ensures var s := ApplyAll(ops);
            && Consistent(s)
            && (forall u :: u in s.byUser <==> LastGiven(ops, u).Some?)
            && (forall u :: u in s.byUser ==> Some(s.byUser[u]) == LastGiven(ops, u))
  {
    if ops != [] {
      var before, op := ops[..|ops| - 1], ops[|ops| - 1];
      EveryRunIsConsistent(before);
      StepIsConsistent(ApplyAll(before), op);
      hide Consistent, Apply;
      forall u ensures u in Apply(ApplyAll(before), op).byUser <==> LastGiven(ops, u).Some? {}
      forall u | u in Apply(ApplyAll(before), op).byUser
        ensures Some(Apply(ApplyAll(before), op).byUser[u]) == LastGiven(ops, u) {}
    }
  }

  // ── A crossing query is a filter of the map ──────────────────────────────

  /** The thresholds a price move from `prev` to `next` crosses, both ends included. */
  ghost predicate IsCrossed(byUser: map<Address, PriceThresholds>, prev: int, next: int, c: Crossing) {
    && c.user in byUser
    && ThresholdOf(byUser[c.user], c.direction) == Some(c.threshold)
    && (if c.direction == Down then next < prev && next <= c.threshold <= prev
        else prev < next && prev <= c.threshold <= next)
  }

  ghost predicate ReportsExactly(byUser: map<Address, PriceThresholds>, prev: int, next: int, out: seq<Crossing>) {
    && (forall c :: c in out <==> IsCrossed(byUser, prev, next, c))
    && (forall i, j :: 0 <= i < j < |out| ==> out[i].user != out[j].user && out[i].threshold <= out[j].threshold)
  }

  lemma SliceOfRange(entries: seq<Entry>, from: int, to: int)
    requires SortedEntries(entries) && OnePerUser(entries) && from < to
    ensures Rank(entries, from, true) <= Rank(entries, to, false)
    ensures var slice := entries[Rank(entries, from, true)..Rank(entries, to, false)];
            && SortedEntries(slice) && OnePerUser(slice)
            && forall e :: e in slice <==> e in entries && from <= e.threshold <= to
  {
    RankSplits(entries, from, true);
    RankSplits(entries, to, false);
    SliceBetween(entries, from, to, Rank(entries, from, true), Rank(entries, to, false));
  }

  lemma SliceBetween(entries: seq<Entry>, from: int, to: int, lo: nat, hi: nat)
    requires SortedEntries(entries) && OnePerUser(entries) && from < to && lo <= |entries| && hi <= |entries|
    requires forall i :: 0 <= i < lo ==> entries[i].threshold < from
    requires forall i :: lo <= i < |entries| ==> entries[i].threshold >= from
    requires forall i :: 0 <= i < hi ==> entries[i].threshold <= to
    requires forall i :: hi <= i < |entries| ==> entries[i].threshold > to
    ensures lo <= hi
    ensures SortedEntries(entries[lo..hi]) && OnePerUser(entries[lo..hi])
    ensures forall e :: e in entries[lo..hi] <==> e in entries && from <= e.threshold <= to
  {
    var beyond := if hi < |entries| then entries[hi].threshold else to;
    assert hi < |entries| ==> beyond > to;
    var slice := entries[lo..hi];
    assert forall k :: 0 <= k < |slice| ==> slice[k] == entries[lo + k];
    forall e | e in entries && from <= e.threshold <= to ensures e in slice {
      var k :| 0 <= k < |entries| && entries[k] == e;
      assert slice[k - lo] == e;
    }
  }

  lemma SliceIsTheFilter(byUser: map<Address, PriceThresholds>, entries: seq<Entry>, direction: Direction, from: int,
                         to: int)
    requires Mirrors(byUser, entries, direction) && from < to
    ensures Rank(entries, from, true) <= Rank(entries, to, false)
    ensures var out := AsCrossings(entries[Rank(entries, from, true)..Rank(entries, to, false)], direction);
            if direction == Down then ReportsExactly(byUser, to, from, out) else ReportsExactly(byUser, from, to, out)
  {
    SliceOfRange(entries, from, to);
    var slice := entries[Rank(entries, from, true)..Rank(entries, to, false)];
    CrossingsOfSlice(slice, direction);
  }

  lemma CrossingsOfSlice(slice: seq<Entry>, direction: Direction)
    ensures forall c :: c in AsCrossings(slice, direction) <==>
            c.direction == direction && Entry(c.threshold, c.user) in slice
  {
    var out := AsCrossings(slice, direction);
    forall c ensures c in out <==> c.direction == direction && Entry(c.threshold, c.user) in slice {
      if c.direction == direction && Entry(c.threshold, c.user) in slice {
        var k :| 0 <= k < |slice| && slice[k] == Entry(c.threshold, c.user);
        assert out[k] == c;
      }
    }
  }

  // ── The class ────────────────────────────────────────────────────────────

  method LowerBound(entries: seq<Entry>, target: int) returns (lo: nat)
    requires SortedEntries(entries)
    ensures lo == Rank(entries, target, true)
  {
    lo := 0;
    var hi := |entries|;
    RankSplits(entries, target, true);
    while lo < hi
      invariant lo <= Rank(entries, target, true) <= hi <= |entries|
    {
      var mid := (lo + hi) / 2;
      if entries[mid].threshold < target { lo := mid + 1; } else { hi := mid; }
    }
  }

  method UpperBound(entries: seq<Entry>, target: int) returns (lo: nat)
    requires SortedEntries(entries)
    ensures lo == Rank(entries, target, false)
  {
    lo := 0;
    var hi := |entries|;
    RankSplits(entries, target, false);
    while lo < hi
      invariant lo <= Rank(entries, target, false) <= hi <= |entries|
    {
      var mid := (lo + hi) / 2;
      if entries[mid].threshold <= target { lo := mid + 1; } else { hi := mid; }
    }
  }

  method InsertSorted(entries: seq<Entry>, entry: Entry) returns (r: seq<Entry>)
    requires SortedEntries(entries)
    ensures r == Inserted(entries, entry)
  {
    var idx := LowerBound(entries, entry.threshold);
    r := entries[..idx] + [entry] + entries[idx..];
  }

  class PredictiveIndex {
    var byUser: map<Address, PriceThresholds>
    var downSorted: seq<Entry>
    var upSorted: seq<Entry>

    function State(): IndexState
      reads this
    {
      IndexState(byUser, downSorted, upSorted)
    }

    constructor ()
      ensures State() == EMPTY && Consistent(State())
    {
      byUser, downSorted, upSorted := map[], [], [];
    }

    method RemoveUser(user: Address)
      modifies this
      ensures State() == Removed(old(State()), user)
    {
      if user !in byUser { return; }
      byUser := byUser - {user};
      downSorted := Without(downSorted, user);
      upSorted := Without(upSorted, user);
    }

    method UpsertUser(thresholds: PriceThresholds) returns (watched: bool)
      requires Consistent(State())
      modifies this
      ensures State() == Upserted(old(State()), thresholds) && Consistent(State())
      ensures watched <==> thresholds.user in byUser
    {
      RemovedKeepsConsistent(State(), thresholds.user);
      UpsertedKeepsConsistent(State(), thresholds);
      RemoveUser(thresholds.user);
      if thresholds.liqDown.None? && thresholds.liqUp.None? { return false; }
      byUser := byUser[thresholds.user := thresholds];
      if thresholds.liqDown.Some? {
        downSorted := InsertSorted(downSorted, Entry(thresholds.liqDown.value, thresholds.user));
      }
      if thresholds.liqUp.Some? {
        upSorted := InsertSorted(upSorted, Entry(thresholds.liqUp.value, thresholds.user));
      }
      return true;
    }

    method InvalidateUser(user: Address)
      requires Consistent(State())
      modifies this
      ensures State() == Removed(old(State()), user) && Consistent(State())
    {
      RemovedKeepsConsistent(State(), user);
      RemoveUser(user);
    }

    /** No baseline, or no move: nothing. Otherwise exactly the thresholds the move crossed. */
    method Crossings(prev: Option<int>, next: int) returns (out: seq<Crossing>)
      requires Consistent(State())
      ensures prev.None? ==> out == []
      ensures prev.Some? ==> ReportsExactly(byUser, prev.value, next, out)
    {
      if prev.None? || next == prev.value { return []; }
      if next < prev.value {
        var lo := LowerBound(downSorted, next);
        var hi := UpperBound(downSorted, prev.value);
        SliceIsTheFilter(byUser, downSorted, Down, next, prev.value);
        out := Collect(downSorted, lo, hi, Down);
      } else {
        var lo := LowerBound(upSorted, prev.value);
        var hi := UpperBound(upSorted, next);
        SliceIsTheFilter(byUser, upSorted, Up, prev.value, next);
        out := Collect(upSorted, lo, hi, Up);
      }
    }
  }

  method Collect(entries: seq<Entry>, lo: nat, hi: nat, direction: Direction) returns (out: seq<Crossing>)
    requires lo <= hi <= |entries|
    ensures out == AsCrossings(entries[lo..hi], direction)
  {
    out := [];
    for i := lo to hi
      invariant |out| == i - lo
      invariant forall k :: 0 <= k < |out| ==>
                out[k] == Crossing(entries[lo + k].user, entries[lo + k].threshold, direction)
    {
      out := out + [Crossing(entries[i].user, entries[i].threshold, direction)];
    }
  }
}
