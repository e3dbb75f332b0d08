/**
 The liquidation worker pool (keeper/src/coordinator/executor.ts) as an interleaving of
 steps. A step runs from one `await` to the next, so it is atomic; which step comes next,
 and whether a plan throws, is left open.
 */
module WorkerPool {
  import opened CoordinatorQueueing
  import opened Optional

  /** Where a worker loop stands: about to check `running`, awaiting a kick, awaiting its plan, or done. */
  datatype Worker = Top | Parked | Planning(health: Health) | Exited

  /** `wakeUp` is the chain of parked workers the next kick resolves, oldest first. */
  datatype Pool = Pool(running: bool, workers: seq<Worker>, inflight: set<User>, queue: seq<Health>, wakeUp: seq<nat>)

  const IDLE: Pool := Pool(false, [], {}, [], [])

  datatype Step =
    | Resume(w: nat)
    | Settle(w: nat, threw: bool)
    | Batch(healths: seq<Health>)
    | Remove(user: User)
    | Kick
    | Start(concurrency: int)
    | Stop

  // ── Taking the next account ──────────────────────────────────────────────

  function FirstFree(items: seq<Health>, inflight: set<User>): (i: nat)
    ensures i <= |items|
    ensures forall j :: 0 <= j < i ==> items[j].user in inflight
    ensures i < |items| ==> items[i].user !in inflight
  {
    if items == [] || items[0].user !in inflight then 0 else 1 + FirstFree(items[1..], inflight)
  }

  function Picked(items: seq<Health>, inflight: set<User>): Option<Health> {
    var i := FirstFree(items, inflight);
    if i < |items| then Some(items[i]) else None
  }

  /** The queue after a pick: the skipped entries go back in. */
  function LeftBy(items: seq<Health>, inflight: set<User>): seq<Health> {
    var i := FirstFree(items, inflight);
    UpsertedAll(if i < |items| then items[i + 1..] else [], items[..i])
  }

  lemma UserIdentifies(items: seq<Health>)
    requires OnePerUser(items)
    ensures forall a, b :: a in items && b in items && a.user == b.user ==> a == b
  {
  }

  /** The pick is the most underwater account nobody works on, and no other entry is lost. */
  lemma PickIsMostUnderwater(items: seq<Health>, inflight: set<User>)
    requires WellKept(items)
    ensures var r := Picked(items, inflight);
            && (r == None <==> forall h :: h in items ==> h.user in inflight)
            && (r.Some? ==> r.value in items && r.value.user !in inflight)
            && (r.Some? ==> forall h :: h in items && h.user !in inflight ==> r.value.mmSurplus <= h.mmSurplus)
  {
    var i := FirstFree(items, inflight);
    if i < |items| {
      assert items[i] in items;
      forall h | h in items && h.user !in inflight ensures items[i].mmSurplus <= h.mmSurplus {
        var j :| 0 <= j < |items| && items[j] == h;
      }
    }
  }

  lemma PickLosesNothing(items: seq<Health>, inflight: set<User>)
    requires WellKept(items)
    ensures WellKept(LeftBy(items, inflight))
    ensures forall h :: h in LeftBy(items, inflight) <==> h in items && Picked(items, inflight) != Some(h)
  {
    LeftByIsKept(items, inflight);
    hide WellKept, LeftBy, Picked;
    forall h ensures h in LeftBy(items, inflight) <==> h in items && Picked(items, inflight) != Some(h) {
      PickLeaves(items, inflight, h);
    }
  }

  lemma LeftByIsKept(items: seq<Health>, inflight: set<User>)
    requires WellKept(items)
    ensures WellKept(LeftBy(items, inflight))
  {
    hide WellKept, UpsertedAll, FirstFree;
    var i := FirstFree(items, inflight);
    PartsAreKept(items, i);
    UpsertAllKeeps(if i < |items| then items[i + 1..] else [], items[..i]);
  }

  lemma PickLeaves(items: seq<Health>, inflight: set<User>, h: Health)
    requires WellKept(items)
    ensures h in LeftBy(items, inflight) <==> h in items && Picked(items, inflight) != Some(h)
  {
    hide WellKept, UpsertedAll, LatestOf, FirstFree;
    var i := FirstFree(items, inflight);
    PartsAreKept(items, i);
    BatchKeepsLatest(if i < |items| then items[i + 1..] else [], items[..i], h);
    SkippedComeBack(items, i, h);
  }

  lemma PartsAreKept(items: seq<Health>, i: nat)
    requires WellKept(items) && i <= |items|
    ensures WellKept(if i < |items| then items[i + 1..] else [])
  {
  }

  lemma SkippedComeBack(items: seq<Health>, i: nat, h: Health)
    requires WellKept(items) && i <= |items|
    ensures var rest := if i < |items| then items[i + 1..] else [];
            (match LatestOf(items[..i], h.user) { case Some(k) => h == k && k.mmSurplus < 0 case None => h in rest })
            <==> h in items && (i < |items| ==> items[i] != h)
  {
    UserIdentifies(items);
    var skipped, rest := items[..i], if i < |items| then items[i + 1..] else [];
    LatestIsOfUser(skipped, h.user);
    assert items == skipped + (if i < |items| then [items[i]] else []) + rest;
    assert i < |items| ==> items[i] !in skipped && items[i] !in rest;
  }

  // ── The steps ────────────────────────────────────────────────────────────

  predicate Enabled(s: Pool, step: Step) {
    match step
    case Resume(w) => w < |s.workers| && s.workers[w].Top?
    case Settle(w, _) => w < |s.workers| && s.workers[w].Planning?
    case _ => true
  }

  function Woken(workers: seq<Worker>, wakeUp: seq<nat>): (r: seq<Worker>)
    ensures |r| == |workers|
    ensures forall w :: 0 <= w < |r| ==> r[w] == if w in wakeUp then Top else workers[w]
  {
    seq(|workers|, w requires 0 <= w < |workers| => if w in wakeUp then Top else workers[w])
  }

  function Kicked(s: Pool): Pool {
    s.(workers := Woken(s.workers, s.wakeUp), wakeUp := [])
  }

  predicate AnyUnderwater(healths: seq<Health>) {
    exists h :: h in healths && h.mmSurplus < 0
  }

  function Next(s: Pool, step: Step): Pool
    requires Enabled(s, step)
  {
    match step
    case Resume(w) =>
      if !s.running then s.(workers := s.workers[w := Exited])
      else
        var left := s.(queue := LeftBy(s.queue, s.inflight));
        (match Picked(s.queue, s.inflight)
         case None => left.(workers := s.workers[w := Parked], wakeUp := s.wakeUp + [w])
         case Some(h) => left.(workers := s.workers[w := Planning(h)], inflight := s.inflight + {h.user}))
    case Settle(w, threw) =>
      var h := s.workers[w].health;
      s.(workers := s.workers[w := Top], inflight := s.inflight - {h.user},
         queue := if threw then Upserted(s.queue, h) else s.queue)
    case Batch(healths) =>
      var filled := s.(queue := UpsertedAll(s.queue, healths));
      if AnyUnderwater(healths) then Kicked(filled) else filled
    case Remove(user) => s.(queue := Without(s.queue, user))
    case Kick => Kicked(s)
    case Start(concurrency) =>
      if s.running then s
      else s.(running := true, workers := s.workers + seq(if concurrency < 1 then 1 else concurrency, _ => Top))
    case Stop => Kicked(s.(running := false))
  }

  // ── The invariant ────────────────────────────────────────────────────────

  /** Queued accounts no worker is on. */
  function Open(s: Pool): set<User> {
    set h | h in s.queue && h.user !in s.inflight :: h.user
  }

  function Tops(workers: seq<Worker>): set<int> {
    set w | 0 <= w < |workers| && workers[w].Top?
  }

  /** The in-flight set is exactly the accounts being planned, each by one worker. */
  ghost predicate OnePlanPerUser(s: Pool) {
    && (forall w :: 0 <= w < |s.workers| && s.workers[w].Planning? ==> s.workers[w].health.user in s.inflight)
    && (forall u :: u in s.inflight ==> exists w ::
        0 <= w < |s.workers| && s.workers[w].Planning? && s.workers[w].health.user == u)
    && (forall v, w :: 0 <= v < w < |s.workers| && s.workers[v].Planning? && s.workers[w].Planning? ==>
        s.workers[v].health.user != s.workers[w].health.user)
  }

  /** Only underwater accounts are ever planned. */
  ghost predicate PlansUnderwater(s: Pool) {
    forall w :: 0 <= w < |s.workers| && s.workers[w].Planning? ==> s.workers[w].health.mmSurplus < 0
  }

  ghost predicate ChainIsParked(s: Pool) {
    forall w: int :: 0 <= w < |s.workers| ==> (s.workers[w].Parked? <==> w in s.wakeUp)
  }

  /** While anyone is parked, the workers on their way can take all the open work. */
  ghost predicate NoLostWakeUp(s: Pool) {
    && (!s.running ==> s.wakeUp == [])
    && (s.wakeUp != [] ==> |Open(s)| <= |Tops(s.workers)|)
  }

  ghost predicate Sound(s: Pool) {
    && WellKept(s.queue) && OnePlanPerUser(s) && PlansUnderwater(s)
    && ChainIsParked(s) && (forall w :: w in s.wakeUp ==> w < |s.workers|) && NoLostWakeUp(s)
  }

  lemma SubsetIsSmaller<T>(a: set<T>, b: set<T>)
    requires a <= b
    ensures |a| <= |b|
  {
    assert b == a + (b - a);
  }

  lemma KickKeeps(s: Pool)
    requires WellKept(s.queue) && OnePlanPerUser(s) && PlansUnderwater(s) && ChainIsParked(s)
    ensures Sound(Kicked(s))
  {
    var k := Kicked(s);
    assert forall w :: 0 <= w < |s.workers| && s.workers[w].Planning? ==> k.workers[w] == s.workers[w];
  }

  lemma QueuedIsUnderwater(items: seq<Health>)
    requires WellKept(items)
    ensures forall h :: h in items ==> h.mmSurplus < 0
  {
  }

  /** With nothing to pick, no open work is left and the worker joins the chain. */
  lemma ParkKeeps(s: Pool, w: nat)
    requires Sound(s) && s.running && Enabled(s, Resume(w)) && Picked(s.queue, s.inflight) == None
    ensures Sound(Next(s, Resume(w)))
  {
    hide WellKept, LeftBy, Picked;
    PickIsMostUnderwater(s.queue, s.inflight);
    PickLosesNothing(s.queue, s.inflight);
    var t := Next(s, Resume(w));
    assert Open(t) == {};
    PlansStay(s, t, w, Parked);
    hide OnePlanPerUser, Open, Tops;
  }

  /** One open account fewer for one worker fewer on its way. */
  lemma PickKeeps(s: Pool, w: nat, h: Health)
    requires Sound(s) && s.running && Enabled(s, Resume(w)) && Picked(s.queue, s.inflight) == Some(h)
    ensures Sound(Next(s, Resume(w)))
  {
    hide WellKept, LeftBy, Picked;
    PickIsMostUnderwater(s.queue, s.inflight);
    PickLosesNothing(s.queue, s.inflight);
    QueuedIsUnderwater(s.queue);
    var t := Next(s, Resume(w));
    PlanAdded(s, t, w, h);
    assert Open(t) == Open(s) - {h.user} && h.user in Open(s);
    TopLeaves(s.workers, w, Planning(h));
    hide OnePlanPerUser, Open, Tops;
  }

  lemma TopLeaves(workers: seq<Worker>, w: nat, to: Worker)
    requires w < |workers| && workers[w].Top? && !to.Top?
    ensures |Tops(workers[w := to])| == |Tops(workers)| - 1
  {
    assert Tops(workers[w := to]) == Tops(workers) - {w} && w in Tops(workers);
  }

  lemma TopArrives(workers: seq<Worker>, w: nat)
    requires w < |workers| && !workers[w].Top?
    ensures |Tops(workers[w := Top])| == |Tops(workers)| + 1
  {
    assert Tops(workers[w := Top]) == Tops(workers) + {w} && w !in Tops(workers);
  }

  lemma ResumeKeeps(s: Pool, w: nat)
    requires Sound(s) && s.running && Enabled(s, Resume(w))
    ensures Sound(Next(s, Resume(w)))
  {
    hide Sound, Next, Picked;
    match Picked(s.queue, s.inflight)
    case None => ParkKeeps(s, w);
    case Some(h) => PickKeeps(s, w, h);
  }

  /** A worker that is not planning moves to another place where it is not planning. */
  lemma PlansStay(s: Pool, t: Pool, w: nat, to: Worker)
    requires OnePlanPerUser(s) && w < |s.workers| && !s.workers[w].Planning? && t.inflight == s.inflight
    requires !to.Planning? && t.workers == s.workers[w := to]
    ensures OnePlanPerUser(t)
  {
    forall u | u in t.inflight ensures exists v ::
      0 <= v < |t.workers| && t.workers[v].Planning? && t.workers[v].health.user == u {
      var v :| 0 <= v < |s.workers| && s.workers[v].Planning? && s.workers[v].health.user == u;
      assert t.workers[v] == s.workers[v];
    }
  }

  lemma PlanAdded(s: Pool, t: Pool, w: nat, h: Health)
    requires OnePlanPerUser(s) && w < |s.workers| && !s.workers[w].Planning? && h.user !in s.inflight
    requires t.workers == s.workers[w := Planning(h)] && t.inflight == s.inflight + {h.user}
    ensures OnePlanPerUser(t)
  {
    forall u | u in t.inflight ensures exists v ::
      0 <= v < |t.workers| && t.workers[v].Planning? && t.workers[v].health.user == u {
      if u == h.user {
        assert t.workers[w].Planning?;
      } else {
        var v :| 0 <= v < |s.workers| && s.workers[v].Planning? && s.workers[v].health.user == u;
        assert t.workers[v] == s.workers[v];
      }
    }
  }

  lemma PlanDropped(s: Pool, t: Pool, w: nat)
    requires OnePlanPerUser(s) && w < |s.workers| && s.workers[w].Planning?
    requires t.workers == s.workers[w := Top] && t.inflight == s.inflight - {s.workers[w].health.user}
    ensures OnePlanPerUser(t)
  {
    forall u | u in t.inflight ensures exists v ::
      0 <= v < |t.workers| && t.workers[v].Planning? && t.workers[v].health.user == u {
      var v :| 0 <= v < |s.workers| && s.workers[v].Planning? && s.workers[v].health.user == u;
      assert t.workers[v] == s.workers[v];
    }
  }

  lemma ExitKeeps(s: Pool, w: nat)
    requires Sound(s) && !s.running && Enabled(s, Resume(w))
    ensures Sound(Next(s, Resume(w)))
  {
    hide WellKept;
    PlansStay(s, Next(s, Resume(w)), w, Exited);
  }

  lemma SettleKeeps(s: Pool, w: nat, threw: bool)
    requires Sound(s) && Enabled(s, Settle(w, threw))
    ensures Sound(Next(s, Settle(w, threw)))
  {
    hide WellKept, Upserted;
    var t, h := Next(s, Settle(w, threw)), s.workers[w].health;
    UpsertKeeps(s.queue, h);
    PlanDropped(s, t, w);
    assert Open(t) <= Open(s) + {h.user};
    SubsetIsSmaller(Open(t), Open(s) + {h.user});
    TopArrives(s.workers, w);
    hide OnePlanPerUser, Open, Tops;
  }

  /** A batch of healthy snapshots can only take entries out. */
  lemma HealthyBatchShrinks(items: seq<Health>, healths: seq<Health>)
    requires WellKept(items) && !AnyUnderwater(healths)
    ensures forall h :: h in UpsertedAll(items, healths) ==> h in items
  {
    hide WellKept;
    forall h | h in UpsertedAll(items, healths) ensures h in items {
      BatchKeepsLatest(items, healths, h);
      LatestIsOfUser(healths, h.user);
    }
  }

  lemma BatchKeeps(s: Pool, healths: seq<Health>)
    requires Sound(s)
    ensures Sound(Next(s, Batch(healths)))
  {
    hide WellKept, UpsertedAll;
    UpsertAllKeeps(s.queue, healths);
    var filled := s.(queue := UpsertedAll(s.queue, healths));
    if AnyUnderwater(healths) {
      KickKeeps(filled);
    } else {
      HealthyBatchShrinks(s.queue, healths);
      assert Open(filled) <= Open(s);
      SubsetIsSmaller(Open(filled), Open(s));
    }
  }

  lemma RemoveKeeps(s: Pool, user: User)
    requires Sound(s)
    ensures Sound(Next(s, Remove(user)))
  {
    hide WellKept, Without;
    WithoutKeeps(s.queue, user);
    var t := Next(s, Remove(user));
    assert Open(t) <= Open(s);
    SubsetIsSmaller(Open(t), Open(s));
  }

  lemma StartKeeps(s: Pool, concurrency: int)
    requires Sound(s) && !s.running
    ensures Sound(Next(s, Start(concurrency)))
  {
    hide WellKept;
    var t := Next(s, Start(concurrency));
    assert forall w :: 0 <= w < |s.workers| ==> t.workers[w] == s.workers[w];
    assert forall w :: |s.workers| <= w < |t.workers| ==> t.workers[w] == Top;
  }

  lemma StepKeeps(s: Pool, step: Step)
    requires Sound(s) && Enabled(s, step)
    ensures Sound(Next(s, step))
  {
    hide Sound, Next;
    match step
    case Resume(w) => if s.running { ResumeKeeps(s, w); } else { ExitKeeps(s, w); }
    case Settle(w, threw) => SettleKeeps(s, w, threw);
    case Batch(healths) => BatchKeeps(s, healths);
    case Remove(user) => RemoveKeeps(s, user);
    case Kick => KickFrom(s);
    case Start(concurrency) => StartFrom(s, concurrency);
    case Stop => StopFrom(s);
  }

  lemma KickFrom(s: Pool)
    requires Sound(s)
    ensures Sound(Next(s, Kick))
  {
    KickKeeps(s);
  }

  lemma StartFrom(s: Pool, concurrency: int)
    requires Sound(s)
    ensures Sound(Next(s, Start(concurrency)))
  {
    if !s.running { StartKeeps(s, concurrency); }
  }

  lemma StopFrom(s: Pool)
    requires Sound(s)
    ensures Sound(Next(s, Stop))
  {
    KickKeeps(s.(running := false));
  }

  // ── Every run ────────────────────────────────────────────────────────────

  ghost predicate IsRun(states: seq<Pool>, steps: seq<Step>) {
    && |states| == |steps| + 1 && states[0] == IDLE
    && forall i :: 0 <= i < |steps| ==> Enabled(states[i], steps[i]) && states[i + 1] == Next(states[i], steps[i])
  }

  lemma {:induction false} EveryRunIsSound(states: seq<Pool>, steps: seq<Step>, n: nat)
    requires IsRun(states, steps) && n < |states|
    ensures Sound(states[n])
  {
    hide Sound, Next;
    if n == 0 {
      IdleIsSound();
    } else {
      EveryRunIsSound(states, steps, n - 1);
      StepKeeps(states[n - 1], steps[n - 1]);
    }
  }

  lemma IdleIsSound()
    ensures Sound(IDLE)
  {
  }

  /** Across all interleavings no account is planned by two workers at once. */
  lemma NoUserIsPlannedTwice(states: seq<Pool>, steps: seq<Step>, n: nat, v: nat, w: nat)
    requires IsRun(states, steps) && n < |states| && v < w < |states[n].workers|
    requires states[n].workers[v].Planning? && states[n].workers[w].Planning?
    ensures states[n].workers[v].health.user != states[n].workers[w].health.user
  {
    hide Next;
    EveryRunIsSound(states, steps, n);
  }

  /** While the pool runs, open work never sits behind parked workers only. */
  lemma OpenWorkIsPickedUp(states: seq<Pool>, steps: seq<Step>, n: nat, v: nat, h: Health)
    requires IsRun(states, steps) && n < |states| && v < |states[n].workers| && states[n].workers[v].Parked?
    requires h in states[n].queue && h.user !in states[n].inflight
    ensures exists w :: 0 <= w < |states[n].workers| && states[n].workers[w].Top?
  {
    hide Next;
    EveryRunIsSound(states, steps, n);
    var s := states[n];
    assert h.user in Open(s);
    assert v in s.wakeUp;
    if Tops(s.workers) == {} {
      assert false;
    }
    var w :| w in Tops(s.workers);
  }

  /** Once stopped, no worker parks or stays parked. */
  lemma NobodyParksAfterStop(states: seq<Pool>, steps: seq<Step>, n: nat, w: nat)
    requires IsRun(states, steps) && n < |states| && !states[n].running && w < |states[n].workers|
    ensures !states[n].workers[w].Parked?
  {
    hide Next;
    EveryRunIsSound(states, steps, n);
  }

  /** A kick releases every parked worker and moves no other. */
  lemma KickReleasesAll(s: Pool)
    requires Sound(s)
    ensures var t := Next(s, Kick);
            && |t.workers| == |s.workers| && t.wakeUp == [] && t.queue == s.queue && t.inflight == s.inflight
            && forall w :: 0 <= w < |s.workers| ==> t.workers[w] == if s.workers[w].Parked? then Top else s.workers[w]
  {
  }

  // ── No account falls out ─────────────────────────────────────────────────

  predicate IsQueued(s: Pool, user: User) {
    exists h :: h in s.queue && h.user == user
  }

  predicate IsPlanned(s: Pool, user: User) {
    exists w :: 0 <= w < |s.workers| && s.workers[w].Planning? && s.workers[w].health.user == user
  }

  /** A queued account stays queued or goes to a worker, until a caller removes it or its latest snapshot is healthy. */
  lemma NoAccountIsLost(s: Pool, step: Step, user: User)
    requires Sound(s) && Enabled(s, step) && IsQueued(s, user)
    requires step != Remove(user)
    requires step.Batch? && LatestOf(step.healths, user).Some? ==> LatestOf(step.healths, user).value.mmSurplus < 0
    ensures IsQueued(Next(s, step), user) || IsPlanned(Next(s, step), user)
  {
    hide WellKept, LeftBy, Picked, Upserted, UpsertedAll, Without, AnyUnderwater;
    var h :| h in s.queue && h.user == user;
    match step
    case Resume(w) =>
      PickLosesNothing(s.queue, s.inflight);
      if s.running && Picked(s.queue, s.inflight) == Some(h) {
        assert Next(s, step).workers[w] == Planning(h);
      }
    case Settle(w, threw) =>
      UpsertKeeps(s.queue, s.workers[w].health);
      assert s.workers[w].health.user == user && threw ==> s.workers[w].health in Next(s, step).queue;
    case Batch(healths) =>
      LatestIsOfUser(healths, user);
      var kept := if LatestOf(healths, user).Some? then LatestOf(healths, user).value else h;
      BatchKeepsLatest(s.queue, healths, kept);
      assert kept in Next(s, step).queue;
    case Remove(other) =>
      WithoutKeeps(s.queue, other);
    case _ =>
      assert Next(s, step).queue == s.queue;
  }

  /** A plan that throws puts its own snapshot back, over any newer one of that account. */
  lemma FailedPlanIsRequeued(s: Pool, w: nat)
    requires Sound(s) && Enabled(s, Settle(w, true))
    ensures var t, h := Next(s, Settle(w, true)), s.workers[w].health;
            && h in t.queue && h.user !in t.inflight
            && forall k :: k in t.queue && k.user == h.user ==> k == h
  {
    UpsertKeeps(s.queue, s.workers[w].health);
  }

  // ── What may be queued ───────────────────────────────────────────────────

  /** What a step does to the queue, entry by entry. */
  ghost predicate StaysOrEnters(s: Pool, step: Step, h: Health)
    requires Enabled(s, step)
  {
    match step
    case Resume(_) => h in s.queue && (s.running ==> Picked(s.queue, s.inflight) != Some(h))
    case Settle(w, threw) =>
      if threw then h == s.workers[w].health || (h in s.queue && h.user != s.workers[w].health.user) else h in s.queue
    case Batch(healths) =>
      (match LatestOf(healths, h.user) { case Some(k) => h == k && h.mmSurplus < 0 case None => h in s.queue })
    case Remove(user) => h in s.queue && h.user != user
    case _ => h in s.queue
  }

  /**
   Exactly which entries the queue holds after a step: a pick takes one out, a plan that threw
   puts its snapshot back, a batch puts in the latest underwater snapshots and takes out the
   healthy, a removal takes out its user, and nothing else moves. A plan that returned queues nothing.
   */
  lemma QueueEntriesExactly(s: Pool, step: Step, h: Health)
    requires Sound(s) && Enabled(s, step)
    ensures h in Next(s, step).queue <==> StaysOrEnters(s, step, h)
  {
    hide WellKept, LeftBy, Picked, Upserted, UpsertedAll, Without, AnyUnderwater, LatestOf;
    match step
    case Resume(_) => PickLosesNothing(s.queue, s.inflight);
    case Settle(w, threw) => UpsertKeeps(s.queue, s.workers[w].health);
    case Batch(healths) => BatchKeepsLatest(s.queue, healths, h);
    case Remove(user) => WithoutKeeps(s.queue, user);
    case _ =>
  }

  /** Some batch of the run reported this very snapshot, underwater. */
  ghost predicate WasReported(steps: seq<Step>, h: Health) {
    h.mmSurplus < 0 && exists i :: 0 <= i < |steps| && steps[i].Batch? && h in steps[i].healths
  }

  ghost predicate Reported(s: Pool, steps: seq<Step>) {
    && (forall h :: h in s.queue ==> WasReported(steps, h))
    && (forall w :: 0 <= w < |s.workers| && s.workers[w].Planning? ==> WasReported(steps, s.workers[w].health))
  }

  lemma ReportsStay(steps: seq<Step>, step: Step)
    ensures forall h :: WasReported(steps, h) ==> WasReported(steps + [step], h)
    ensures step.Batch? ==> forall h :: h in step.healths && h.mmSurplus < 0 ==> WasReported(steps + [step], h)
  {
    var longer := steps + [step];
    forall h | WasReported(steps, h) ensures WasReported(longer, h) {
      var i :| 0 <= i < |steps| && steps[i].Batch? && h in steps[i].healths;
      assert longer[i] == steps[i];
    }
    assert longer[|steps|] == step;
  }

  lemma EntriesWereReported(s: Pool, steps: seq<Step>, step: Step, h: Health)
    requires Sound(s) && Enabled(s, step) && Reported(s, steps) && h in Next(s, step).queue
    ensures WasReported(steps + [step], h)
  {
    QueueEntriesExactly(s, step, h);
    ReportsStay(steps, step);
    hide WasReported, WellKept, OnePlanPerUser, Next, Picked, LatestOf;
    if step.Batch? {
      LatestIsOfUser(step.healths, h.user);
    }
  }

  lemma PlansWereReported(s: Pool, steps: seq<Step>, step: Step, w: nat)
    requires Sound(s) && Enabled(s, step) && Reported(s, steps)
    requires w < |Next(s, step).workers| && Next(s, step).workers[w].Planning?
    ensures WasReported(steps + [step], Next(s, step).workers[w].health)
  {
    ReportsStay(steps, step);
    PickIsMostUnderwater(s.queue, s.inflight);
    hide WasReported, WellKept, OnePlanPerUser, Picked, LeftBy, Upserted, UpsertedAll, Without, AnyUnderwater;
    if step.Resume? && step.w != w { assert Next(s, step).workers[w] == s.workers[w]; }
  }

  /** In every run, whatever is queued or planned is a snapshot that a batch reported underwater. */
  lemma {:induction false} NothingIsInvented(states: seq<Pool>, steps: seq<Step>, n: nat)
    requires IsRun(states, steps) && n < |states|
    ensures Reported(states[n], steps[..n])
  {
    hide Sound, Next, WasReported;
    if n > 0 {
      var s, step := states[n - 1], steps[n - 1];
      NothingIsInvented(states, steps, n - 1);
      EveryRunIsSound(states, steps, n - 1);
      assert steps[..n] == steps[..n - 1] + [step];
      forall h | h in states[n].queue ensures WasReported(steps[..n], h) {
        EntriesWereReported(s, steps[..n - 1], step, h);
      }
      forall w | 0 <= w < |states[n].workers| && states[n].workers[w].Planning?
        ensures WasReported(steps[..n], states[n].workers[w].health)
      {
        PlansWereReported(s, steps[..n - 1], step, w);
      }
    }
  }

  predicate Wakes(step: Step) {
    step.Kick? || step.Stop? || (step.Batch? && exists h :: h in step.healths && h.mmSurplus < 0)
  }

  /**
   Where a step leaves each worker. At its turn it exits if the pool has stopped, plans if some
   queued account is free, and parks only if none is; its plan coming back brings it to the top
   of its loop; waiting ends at a kick, a stop or a batch with an underwater account; nothing
   else moves it.
   */
  lemma WorkerMovesExactly(s: Pool, step: Step, w: nat)
    requires Sound(s) && Enabled(s, step) && w < |s.workers|
    ensures var before, after := s.workers[w], Next(s, step).workers[w];
            var free := exists h :: h in s.queue && h.user !in s.inflight;
            if step == Resume(w) then
              if !s.running then after == Exited else if free then after.Planning? else after == Parked
            else if step.Settle? && step.w == w then after == Top
            else if before.Parked? && Wakes(step) then after == Top
            else after == before
  {
    hide WellKept, OnePlanPerUser, LeftBy, Picked, Upserted, UpsertedAll, Without;
    PickIsMostUnderwater(s.queue, s.inflight);
  }

  /** Starting spawns as many loops as asked for, at least one, and none while running. */
  lemma StartSpawns(s: Pool, concurrency: int)
    ensures var t := Next(s, Start(concurrency));
            && t.running && t.queue == s.queue && t.inflight == s.inflight && t.wakeUp == s.wakeUp
            && t.workers[..|s.workers|] == s.workers
            && (forall w :: |s.workers| <= w < |t.workers| ==> t.workers[w] == Top)
            && |t.workers| - |s.workers| == if s.running then 0 else if concurrency > 1 then concurrency else 1
  {
    var t := Next(s, Start(concurrency));
    assert t.workers[..|s.workers|] == s.workers;
  }

  // ── Draining ─────────────────────────────────────────────────────────────

  /** Steps a worker has left once the pool is stopped, unless it is kicked again. */
  function StepsLeft(w: Worker): nat {
    match w case Planning(_) => 2 case Exited => 0 case _ => 1
  }

  function Rank(workers: seq<Worker>): nat {
    if workers == [] then 0 else Rank(workers[..|workers| - 1]) + StepsLeft(workers[|workers| - 1])
  }

  lemma {:induction false} RankUpdate(workers: seq<Worker>, w: nat, to: Worker)
    requires w < |workers|
    ensures Rank(workers[w := to]) == Rank(workers) - StepsLeft(workers[w]) + StepsLeft(to)
  {
    var n := |workers| - 1;
    if w < n {
      RankUpdate(workers[..n], w, to);
      assert workers[w := to][..n] == workers[..n][w := to];
    } else {
      assert workers[w := to][..n] == workers[..n];
    }
  }

  predicate CanStep(s: Pool, w: nat) {
    Enabled(s, Resume(w)) || Enabled(s, Settle(w, false))
  }

  /**
   After `stop` every worker step brings the pool nearer to drained, and nothing but a new
   start moves it back.
   */
  lemma StopDrains(s: Pool, step: Step)
    requires Sound(s) && !s.running && Enabled(s, step) && !step.Start?
    ensures var t := Next(s, step);
            && !t.running && t.inflight <= s.inflight
            && (if step.Resume? || step.Settle? then Rank(t.workers) < Rank(s.workers) else t.workers == s.workers)
  {
    hide WellKept, OnePlanPerUser;
    match step
    case Resume(w) => RankUpdate(s.workers, w, Exited);
    case Settle(w, _) => RankUpdate(s.workers, w, Top);
    case Kick => assert Woken(s.workers, s.wakeUp) == s.workers;
    case Stop => assert Woken(s.workers, s.wakeUp) == s.workers;
    case Batch(_) => assert Woken(s.workers, s.wakeUp) == s.workers;
    case Remove(_) =>
  }

  /** Until every worker has exited, one of them can step: a stopped pool never waits for a kick. */
  lemma StoppedPoolCanStep(s: Pool)
    requires Sound(s) && !s.running
    ensures (forall w :: 0 <= w < |s.workers| ==> s.workers[w].Exited?) || exists w :: CanStep(s, w)
  {
    hide WellKept, OnePlanPerUser;
    if w: nat :| w < |s.workers| && !s.workers[w].Exited? {
      assert CanStep(s, w);
    }
  }

  // ── The executor ─────────────────────────────────────────────────────────

  /** `workers` holds where each spawned loop stands, which the runtime keeps for it. */
  class CoordinatorExecutor {
    const queue: CoordinatorQueue
    var running: bool
    var inflight: set<User>
    var wakeUp: seq<nat>
    var workers: seq<Worker>

    ghost predicate Valid()
      reads this, queue
    {
      queue.Valid()
    }

    function State(): Pool
      reads this, queue
    {
      Pool(running, workers, inflight, queue.items, wakeUp)
    }

    constructor (queue: CoordinatorQueue)
      requires queue.Valid()
      ensures Valid() && this.queue == queue && State() == IDLE.(queue := queue.items)
    {
      this.queue := queue;
      running, inflight, wakeUp, workers := false, {}, [], [];
    }

    method PopNonInflight() returns (next: Option<Health>)
      requires Valid()
      modifies queue
      ensures Valid()
      ensures next == Picked(old(queue.items), inflight) && queue.items == LeftBy(old(queue.items), inflight)
    {
      hide UpsertedAll, Picked, LeftBy, WellKept;
      ghost var before := queue.items;
      var skipped: seq<Health> := [];
      next := queue.Pop();
      while next.Some? && next.value.user in inflight
        invariant queue.Valid()
        invariant before == skipped + (if next.Some? then [next.value] else []) + queue.items
        invariant next == None ==> queue.items == []
        invariant forall h :: h in skipped ==> h.user in inflight
        decreases |queue.items|, next.Some?
      {
        skipped := skipped + [next.value];
        next := queue.Pop();
      }
      PickFound(before, skipped, next, queue.items, inflight);
      ghost var rest := queue.items;
      for i := 0 to |skipped|
        invariant queue.Valid()
        invariant UpsertedAll(rest, skipped) == UpsertedAll(queue.items, skipped[i..])
      {
        UpsertsOne(queue.items, skipped, i);
        var _ := queue.Upsert(skipped[i]);
      }
      assert skipped[|skipped|..] == [];
      UpsertsNone(queue.items);
    }

    /** Parks the worker at the end of the chain the next kick resolves. */
    method WaitForKick(w: nat)
      requires w < |workers|
      modifies this
      ensures workers == old(workers)[w := Parked] && wakeUp == old(wakeUp) + [w]
      ensures running == old(running) && inflight == old(inflight)
    {
      wakeUp := wakeUp + [w];
      workers := workers[w := Parked];
    }

    method KickAll()
      modifies this
      ensures State() == Kicked(old(State()))
    {
      var i := 0;
      while i < |wakeUp|
        invariant 0 <= i <= |wakeUp|
        invariant wakeUp == old(wakeUp) && running == old(running) && inflight == old(inflight) &&
                  queue.items == old(queue.items)
        invariant workers == Woken(old(workers), wakeUp[..i])
      {
        var w := wakeUp[i];
        if w < |workers| { workers := workers[w := Top]; }
        i := i + 1;
      }
      assert wakeUp[..i] == wakeUp;
      wakeUp := [];
    }

    /** One turn of the worker loop, from its check of `running` to its next `await`. */
    method ResumeWorker(w: nat)
      requires Valid() && Enabled(State(), Resume(w))
      modifies this, queue
      ensures Valid() && State() == Next(old(State()), Resume(w))
    {
      if !running {
        workers := workers[w := Exited];
        return;
      }
      var next := PopNonInflight();
      if next == None {
        WaitForKick(w);
        return;
      }
      inflight := inflight + {next.value.user};
      workers := workers[w := Planning(next.value)];
    }

    /** The plan of a worker comes back, or throws. */
    method SettlePlan(w: nat, threw: bool)
      requires Valid() && Enabled(State(), Settle(w, threw))
      modifies this, queue
      ensures Valid() && State() == Next(old(State()), Settle(w, threw))
    {
      var next := workers[w].health;
      if threw {
        var _ := queue.Upsert(next);
      }
      inflight := inflight - {next.user};
      workers := workers[w := Top];
    }

    method StartAll(maxConcurrentAccounts: int)
      modifies this
      ensures State() == Next(old(State()), Start(maxConcurrentAccounts))
    {
      if running { return; }
      running := true;
      var concurrency := if maxConcurrentAccounts > 1 then maxConcurrentAccounts else 1;
      workers := workers + seq(concurrency, _ => Top);
    }

    method StopAll()
      modifies this
      ensures State() == Next(old(State()), Stop)
    {
      running := false;
      KickAll();
    }

    /** A sweep: upsert every snapshot, then kick if any was underwater. */
    method Sweep(healths: seq<Health>)
      requires Valid()
      modifies this, queue
      ensures Valid() && State() == Next(old(State()), Batch(healths))
    {
      hide UpsertedAll;
      var underwater := 0;
      for i := 0 to |healths|
        invariant queue.Valid() && underwater >= 0
        invariant running == old(running) && inflight == old(inflight) && wakeUp == old(wakeUp) &&
                  workers == old(workers)
        invariant UpsertedAll(old(queue.items), healths) == UpsertedAll(queue.items, healths[i..])
        invariant underwater > 0 <==> AnyUnderwater(healths[..i])
      {
        UpsertsOne(queue.items, healths, i);
        assert healths[..i + 1] == healths[..i] + [healths[i]];
        var _ := queue.Upsert(healths[i]);
        if healths[i].mmSurplus < 0 { underwater := underwater + 1; }
      }
      assert healths[..|healths|] == healths;
      assert healths[|healths|..] == [];
      UpsertsNone(queue.items);
      if underwater > 0 { KickAll(); }
    }
  }

  lemma UpsertsOne(items: seq<Health>, hs: seq<Health>, i: nat)
    requires i < |hs|
    ensures UpsertedAll(items, hs[i..]) == UpsertedAll(Upserted(items, hs[i]), hs[i + 1..])
  {
    assert hs[i..][1..] == hs[i + 1..];
  }

  lemma UpsertsNone(items: seq<Health>)
    ensures UpsertedAll(items, []) == items
  {
  }

  lemma {:induction false} PickFound(items: seq<Health>, skipped: seq<Health>, next: Option<Health>,
                                     rest: seq<Health>, inflight: set<User>)
    requires items == skipped + (if next.Some? then [next.value] else []) + rest
    requires next == None ==> rest == []
    requires next.Some? ==> next.value.user !in inflight
    requires forall h :: h in skipped ==> h.user in inflight
    ensures next == Picked(items, inflight)
    ensures LeftBy(items, inflight) == UpsertedAll(rest, skipped)
  {
    var i := FirstFree(items, inflight);
    assert forall j :: 0 <= j < |skipped| ==> items[j] == skipped[j] && skipped[j] in skipped;
    assert next.Some? ==> items[|skipped|] == next.value;
    assert i == |skipped|;
    assert items[..i] == skipped;
    assert (if i < |items| then items[i + 1..] else []) == rest;
  }
}
