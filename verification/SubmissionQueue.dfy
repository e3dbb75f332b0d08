/**
 The promise chain behind `submit` (market-maker/src/core/nonceManager.ts): a submission
 begins when the one enqueued before it has settled, whichever way it settled.
 */
module SubmissionQueue {
  datatype Turn = Waiting | Running | Settled(ok: bool)

  datatype Step = Enqueue | Begin(i: nat) | Settle(i: nat, ok: bool)

  predicate Enabled(turns: seq<Turn>, step: Step) {
    match step
    case Enqueue => true
    case Begin(i) => i < |turns| && turns[i].Waiting? && (i == 0 || turns[i - 1].Settled?)
    case Settle(i, _) => i < |turns| && turns[i].Running?
  }

  function Next(turns: seq<Turn>, step: Step): seq<Turn>
    requires Enabled(turns, step)
  {
    match step
    case Enqueue => turns + [Waiting]
    case Begin(i) => turns[i := Running]
    case Settle(i, ok) => turns[i := Settled(ok)]
  }

  /** Whoever has begun came after everyone before it had settled. */
  ghost predicate InOrder(turns: seq<Turn>) {
    forall i, j :: 0 <= i < j < |turns| && !turns[j].Waiting? ==> turns[i].Settled?
  }

  ghost predicate IsRun(states: seq<seq<Turn>>, steps: seq<Step>) {
    && |states| == |steps| + 1 && states[0] == []
    && forall i :: 0 <= i < |steps| ==> Enabled(states[i], steps[i]) && states[i + 1] == Next(states[i], steps[i])
  }

  /** In every run submissions start in the order they were enqueued, never two at once. */
  lemma {:induction false} SubmissionsAreSerial(states: seq<seq<Turn>>, steps: seq<Step>, n: nat)
    requires IsRun(states, steps) && n < |states|
    ensures InOrder(states[n])
    ensures forall i, j ::
            0 <= i < |states[n]| && 0 <= j < |states[n]| && states[n][i].Running? && states[n][j].Running? ==> i == j
  {
    if n > 0 {
      SubmissionsAreSerial(states, steps, n - 1);
      var before := states[n - 1];
      match steps[n - 1]
      case Begin(i) => assert i > 0 ==> !before[i - 1].Waiting?;
      case _ =>
    }
  }

  /** A failed submission blocks nobody: with none running, the first one waiting may begin. */
  lemma QueueNeverBlocks(turns: seq<Turn>, j: nat)
    requires InOrder(turns) && j < |turns| && turns[j].Waiting?
    requires forall i :: 0 <= i < |turns| ==> !turns[i].Running?
    ensures exists i: nat :: i <= j && Enabled(turns, Begin(i))
  {
    if j == 0 || turns[j - 1].Settled? {
      assert Enabled(turns, Begin(j));
    } else {
      QueueNeverBlocks(turns, j - 1);
    }
  }
}
