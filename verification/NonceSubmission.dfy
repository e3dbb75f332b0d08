/**
 The nonce submission loop (market-maker/src/core/nonceManager.ts). What the node answers
 to each broadcast and to each nonce read is left open.
 */
module NonceSubmission {
  import opened Arithmetic
  import opened Optional

  datatype Config = Config(maxReplacements: int, replacementFeeBumpPct: int, maxNonceResyncs: int)

  /** A receipt in time, none in time, a spent or skipped nonce, or any other submission error. */
  datatype Reply = Receipt(gasUsed: int, effectiveGasPrice: int) | TimedOut | Desync | Failed

  datatype Sent = Sent(nonce: int, fee: int, reply: Reply)

  datatype CancelTx = CancelTx(nonce: int, fee: int)

  datatype Outcome =
    | Landed(gasUsed: int, effectiveGasPrice: int)
    | NonceTaken
    | SubmissionFailed
    | Stuck
    | NonceUnreadable

  /** One logical transaction, with the node's answers to its broadcasts and nonce reads in order. */
  datatype Job = Job(maxFeePerGas: int, replies: nat -> Reply, counts: nat -> Option<int>)

  function Bump(fee: int, pct: int): int {
    TruncDiv(fee * (100 + pct), 100)
  }

  function Raised(fee: int, pct: int, times: nat): int {
    if times == 0 then fee else Bump(Raised(fee, pct, times - 1), pct)
  }

  // ── What a trace of broadcasts must look like ────────────────────────────

  /** How often the trace lost its nonce. */
  function Resyncs(sent: seq<Sent>): nat {
    if sent == [] then 0
    else Resyncs(sent[..|sent| - 1]) + (if sent[|sent| - 1].reply.Desync? then 1 else 0)
  }

  /** How many broadcasts the trace made at its current nonce. */
  function Rung(sent: seq<Sent>): nat {
    if sent == [] || sent[|sent| - 1].reply.Desync? then 0 else Rung(sent[..|sent| - 1]) + 1
  }

  /** The nonce after `k` resyncs: the cached one first, then whatever the chain says. */
  function NonceAt(next: Option<int>, job: Job, k: nat): Option<int> {
    if next.None? then job.counts(k) else if k == 0 then next else job.counts(k - 1)
  }

  /** No further broadcast follows. */
  predicate Over(cfg: Config, sent: seq<Sent>)
    requires sent != []
  {
    match sent[|sent| - 1].reply
    case Receipt(_, _) => true
    case Desync => Resyncs(sent) > cfg.maxNonceResyncs
    case _ => Rung(sent) > cfg.maxReplacements
  }

  /** The broadcast that may follow a trace: base fee at a fresh nonce, else the same nonce at a raised fee. */
  ghost predicate MayFollow(cfg: Config, next: Option<int>, job: Job, sent: seq<Sent>, x: Sent) {
    && cfg.maxReplacements >= 0 && (sent != [] ==> !Over(cfg, sent))
    && NonceAt(next, job, Resyncs(sent)) == Some(x.nonce)
    && x.fee == Raised(job.maxFeePerGas, cfg.replacementFeeBumpPct, Rung(sent))
    && x.reply == job.replies(|sent|)
  }

  ghost predicate Protocol(cfg: Config, next: Option<int>, job: Job, sent: seq<Sent>) {
    forall i :: 0 <= i < |sent| ==> MayFollow(cfg, next, job, sent[..i], sent[i])
  }

  lemma {:induction false} ProtocolExtends(cfg: Config, next: Option<int>, job: Job, sent: seq<Sent>, x: Sent)
    requires Protocol(cfg, next, job, sent) && MayFollow(cfg, next, job, sent, x)
    ensures Protocol(cfg, next, job, sent + [x])
    ensures Resyncs(sent + [x]) == Resyncs(sent) + (if x.reply.Desync? then 1 else 0)
    ensures Rung(sent + [x]) == if x.reply.Desync? then 0 else Rung(sent) + 1
  {
    hide MayFollow;
    var longer := sent + [x];
    assert longer[..|sent|] == sent;
    forall i | 0 <= i < |longer| ensures MayFollow(cfg, next, job, longer[..i], longer[i]) {
      if i < |sent| {
        assert longer[..i] == sent[..i];
      }
    }
  }

  // ── Properties of every trace ────────────────────────────────────────────

  /** Before its last broadcast a trace had an attempt and a resync left. */
  lemma LastHadBudget(cfg: Config, next: Option<int>, job: Job, sent: seq<Sent>)
    requires Protocol(cfg, next, job, sent) && sent != []
    ensures var init := sent[..|sent| - 1];
            Protocol(cfg, next, job, init) && cfg.maxReplacements >= 0 && (init != [] ==> !Over(cfg, init))
  {
    var init, last := sent[..|sent| - 1], sent[|sent| - 1];
    assert forall i :: 0 <= i < |init| ==> init[..i] == sent[..i] && init[i] == sent[i];
    assert MayFollow(cfg, next, job, init, last);
  }

  /** Each resync costs at most a full round of attempts. */
  lemma {:induction false} TraceFits(cfg: Config, next: Option<int>, job: Job, sent: seq<Sent>)
    requires Protocol(cfg, next, job, sent) && cfg.maxReplacements >= 0
    ensures |sent| <= Resyncs(sent) * (cfg.maxReplacements + 1) + Rung(sent)
    ensures Rung(sent) <= cfg.maxReplacements + 1
    ensures Resyncs(sent) <= Max(0, cfg.maxNonceResyncs) + 1
    ensures sent != [] && !sent[|sent| - 1].reply.Desync? ==> Resyncs(sent) <= Max(0, cfg.maxNonceResyncs)
  {
    if sent != [] {
      hide Protocol;
      var init := sent[..|sent| - 1];
      LastHadBudget(cfg, next, job, sent);
      TraceFits(cfg, next, job, init);
      MulSum(Resyncs(init), 1, cfg.maxReplacements + 1);
    }
  }

  /** The most broadcasts one submission makes. */
  function Budget(cfg: Config): int {
    (Max(0, cfg.maxNonceResyncs) + 1) * Max(0, cfg.maxReplacements + 1)
  }

  /** Although a resync restarts the attempt counter, a submission stays within its budget. */
  lemma BroadcastsAreBounded(cfg: Config, next: Option<int>, job: Job, sent: seq<Sent>)
    requires Protocol(cfg, next, job, sent)
    ensures |sent| <= Budget(cfg)
  {
    hide Protocol;
    var resyncs, tries := Max(0, cfg.maxNonceResyncs), cfg.maxReplacements + 1;
    if sent == [] {
      MulOrder(0, resyncs + 1, Max(0, tries));
    } else {
      LastHadBudget(cfg, next, job, sent);
      TraceFits(cfg, next, job, sent);
      MulSum(resyncs, 1, tries);
      if Resyncs(sent) == resyncs + 1 {
        assert Rung(sent) == 0;
      } else {
        MulOrder(Resyncs(sent), resyncs, tries);
      }
    }
  }

  /** A bump never lowers a fee, and raises it exactly when the percentage is worth one unit. */
  lemma BumpRaises(fee: int, pct: int)
    requires fee >= 0 && pct >= 0
    ensures Bump(fee, pct) >= fee
    ensures Bump(fee, pct) > fee <==> fee * pct >= 100
  {
    MulOrder(0, fee, pct);
    MulSum(100, pct, fee);
    var x := fee * (100 + pct);
    assert x == fee * 100 + fee * pct;
    DivMod(x, 100);
  }

  lemma {:induction false} RaisedGrows(fee: int, pct: int, i: nat, j: nat)
    requires fee >= 0 && pct >= 0 && i <= j
    ensures fee <= Raised(fee, pct, i) <= Raised(fee, pct, j)
    decreases j
  {
    if i < j {
      RaisedGrows(fee, pct, i, j - 1);
      BumpRaises(Raised(fee, pct, j - 1), pct);
    } else if i > 0 {
      RaisedGrows(fee, pct, i - 1, i - 1);
      BumpRaises(Raised(fee, pct, i - 1), pct);
    }
  }

  lemma {:induction false} RungsCount(sent: seq<Sent>, i: nat, j: nat)
    requires i <= j <= |sent|
    ensures Resyncs(sent[..i]) <= Resyncs(sent[..j])
    ensures Resyncs(sent[..i]) == Resyncs(sent[..j]) ==> Rung(sent[..j]) == Rung(sent[..i]) + (j - i)
    decreases j
  {
    if i < j {
      RungsCount(sent, i, j - 1);
      assert sent[..j][..j - 1] == sent[..j - 1];
      assert sent[..j][j - 1] == sent[j - 1];
    }
  }

  /** Between resyncs the nonce stays and fees never drop. */
  lemma ReplacementsKeepNonce(cfg: Config, next: Option<int>, job: Job, sent: seq<Sent>, i: nat, j: nat)
    requires Protocol(cfg, next, job, sent) && i < j < |sent| && Resyncs(sent[..i]) == Resyncs(sent[..j])
    requires job.maxFeePerGas >= 0 && cfg.replacementFeeBumpPct >= 0
    ensures sent[i].nonce == sent[j].nonce && sent[i].fee <= sent[j].fee
    ensures sent[j].fee == Raised(job.maxFeePerGas, cfg.replacementFeeBumpPct, Rung(sent[..i]) + (j - i))
  {
    assert MayFollow(cfg, next, job, sent[..i], sent[i]) && MayFollow(cfg, next, job, sent[..j], sent[j]);
    RungsCount(sent, i, j);
    RaisedGrows(job.maxFeePerGas, cfg.replacementFeeBumpPct, Rung(sent[..i]), Rung(sent[..j]));
  }

  // ── Which broadcasts can land ────────────────────────────────────────────

  /**
   The broadcasts of one job that the chain may end up with: a refused nonce never lands, a
   receipt has landed, one that timed out or failed may have, and each nonce is spent once.
   */
  ghost predicate CouldLand(sent: seq<Sent>, landed: set<nat>) {
    && (forall i :: i in landed ==> i < |sent| && !sent[i].reply.Desync?)
    && (forall i :: 0 <= i < |sent| && sent[i].reply.Receipt? ==> i in landed)
    && (forall i, j :: i in landed && j in landed && i != j ==> sent[i].nonce != sent[j].nonce)
  }

  /**
   The nonce is given up at k although an earlier broadcast is still in doubt, and the job is
   sent again at another.
   */
  ghost predicate ResentInDoubt(sent: seq<Sent>, i: nat, k: nat, j: nat) {
    && i < k < j < |sent|
    && (sent[i].reply.TimedOut? || sent[i].reply.Failed?)
    && sent[k].reply.Desync? && !sent[j].reply.Desync?
    && sent[i].nonce != sent[j].nonce
  }

  lemma {:induction false} ResyncBetween(sent: seq<Sent>, i: nat, j: nat)
    requires i <= j <= |sent| && Resyncs(sent[..i]) != Resyncs(sent[..j])
    ensures exists k :: i <= k < j && sent[k].reply.Desync?
    decreases j
  {
    assert sent[..j][..j - 1] == sent[..j - 1];
    if !sent[j - 1].reply.Desync? {
      ResyncBetween(sent, i, j - 1);
    }
  }

  lemma OnlyTheLastConfirms(cfg: Config, next: Option<int>, job: Job, sent: seq<Sent>, i: nat)
    requires Protocol(cfg, next, job, sent) && i + 1 < |sent|
    ensures !sent[i].reply.Receipt?
  {
    assert MayFollow(cfg, next, job, sent[..i + 1], sent[i + 1]);
  }

  /** Two broadcasts at different nonces, the earlier one not refused, are apart by a resync. */
  lemma DifferentNonces(cfg: Config, next: Option<int>, job: Job, sent: seq<Sent>, i: nat, j: nat)
    requires Protocol(cfg, next, job, sent) && i < j < |sent|
    requires !sent[i].reply.Desync? && !sent[j].reply.Desync? && sent[i].nonce != sent[j].nonce
    ensures exists k :: ResentInDoubt(sent, i, k, j)
  {
    assert MayFollow(cfg, next, job, sent[..i], sent[i]) && MayFollow(cfg, next, job, sent[..j], sent[j]);
    ResyncBetween(sent, i, j);
    var k :| i <= k < j && sent[k].reply.Desync?;
    OnlyTheLastConfirms(cfg, next, job, sent, i);
    assert ResentInDoubt(sent, i, k, j);
  }

  /** Both can land; with a receipt at the end, that one and whichever of the two has another nonce. */
  lemma BothCanLand(cfg: Config, next: Option<int>, job: Job, sent: seq<Sent>, i: nat, k: nat, j: nat)
    returns (landed: set<nat>)
    requires Protocol(cfg, next, job, sent) && ResentInDoubt(sent, i, k, j)
    ensures CouldLand(sent, landed) && |landed| == 2
  {
    hide Protocol;
    var n := |sent| - 1;
    forall r | 0 <= r < n ensures !sent[r].reply.Receipt? {
      OnlyTheLastConfirms(cfg, next, job, sent, r);
    }
    if sent[n].reply.Receipt? && sent[n].nonce != sent[i].nonce {
      landed := {i, n};
    } else if sent[n].reply.Receipt? {
      landed := {j, n};
    } else {
      landed := {i, j};
    }
  }

  lemma TwoOf(landed: set<nat>) returns (i: nat, j: nat)
    requires |landed| > 1
    ensures i in landed && j in landed && i < j
  {
    var x :| x in landed;
    var rest := landed - {x};
    assert |rest| > 0;
    var y :| y in rest;
    i, j := if x < y then x else y, if x < y then y else x;
  }

  /**
   At most one broadcast of a job lands, whatever the chain does, if and only if no resync
   gives up a nonce whose broadcast is still in doubt and sends the job again at another one.
   */
  lemma LandsOnceExactly(cfg: Config, next: Option<int>, job: Job, sent: seq<Sent>)
    requires Protocol(cfg, next, job, sent)
    ensures (forall landed :: CouldLand(sent, landed) ==> |landed| <= 1) <==>
            !exists i, k, j :: ResentInDoubt(sent, i, k, j)
  {
    hide Protocol;
    if i: nat, k: nat, j: nat :| ResentInDoubt(sent, i, k, j) {
      var landed := BothCanLand(cfg, next, job, sent, i, k, j);
    } else {
      forall landed | CouldLand(sent, landed) ensures |landed| <= 1 {
        if |landed| > 1 {
          var i, j := TwoOf(landed);
          DifferentNonces(cfg, next, job, sent, i, j);
        }
      }
    }
  }

  /** A first broadcast that times out, a replacement whose nonce is spent, and a third confirmed. */
  ghost function LateJob(): Job {
    Job(100, i => if i == 0 then TimedOut else if i == 1 then Desync else Receipt(21_000, 7), i => Some(6))
  }

  ghost function LateTrace(): seq<Sent> {
    [Sent(5, 100, TimedOut), Sent(5, 115, Desync), Sent(6, 100, Receipt(21_000, 7))]
  }

  /**
   With the default limits: the first broadcast times out and lands late, its replacement finds
   the nonce spent, and the job is confirmed a second time at the next nonce.
   */
  lemma AJobThatLandsTwice()
    ensures var cfg := Config(2, 15, 5);
            && Protocol(cfg, Some(5), LateJob(), LateTrace())
            && Ends(cfg, Some(5), LateJob(), LateTrace(), Landed(21_000, 7), None, Some(7))
            && CouldLand(LateTrace(), {0, 2}) && |{0, 2}| == 2
  {
    hide Protocol;
    LateTraceFollows(Config(2, 15, 5), LateJob());
  }

  lemma LateTraceFollows(cfg: Config, job: Job)
    requires cfg == Config(2, 15, 5) && job.maxFeePerGas == 100 && job.counts(0) == Some(6)
    requires job.replies(0) == TimedOut && job.replies(1) == Desync && job.replies(2) == Receipt(21_000, 7)
    ensures Protocol(cfg, Some(5), job, LateTrace())
  {
    hide Protocol, MayFollow, Resyncs, Rung, Raised;
    var a, b, c := Sent(5, 100, TimedOut), Sent(5, 115, Desync), Sent(6, 100, Receipt(21_000, 7));
    FirstRaise();
    EmptyProtocol(cfg, Some(5), job);
    FollowsHere(cfg, Some(5), job, [], a);
    ProtocolExtends(cfg, Some(5), job, [], a);
    assert [] + [a] == [a];
    FollowsHere(cfg, Some(5), job, [a], b);
    ProtocolExtends(cfg, Some(5), job, [a], b);
    assert [a] + [b] == [a, b];
    FollowsHere(cfg, Some(5), job, [a, b], c);
    ProtocolExtends(cfg, Some(5), job, [a, b], c);
    assert [a, b] + [c] == LateTrace();
  }

  lemma FirstRaise()
    ensures Raised(100, 15, 0) == 100 && Raised(100, 15, 1) == 115
  {
    RaisedOnce(100, 15, 0);
    assert Bump(100, 15) == 115;
  }

  // ── The manager ──────────────────────────────────────────────────────────

  /** How a finished submission leaves the cached nonce and the cancel transaction. */
  ghost predicate Ends(cfg: Config, start: Option<int>, job: Job, sent: seq<Sent>, outcome: Outcome,
                       cancel: Option<CancelTx>, next: Option<int>) {
    match outcome
    case Landed(gas, price) =>
      sent != [] && sent[|sent| - 1].reply == Receipt(gas, price) && next == Some(sent[|sent| - 1].nonce + 1) &&
        cancel == None
    case NonceTaken =>
      sent != [] && sent[|sent| - 1].reply == Desync && Over(cfg, sent) && next == None && cancel == None
    case SubmissionFailed =>
      sent != [] && sent[|sent| - 1].reply == Failed && Over(cfg, sent) && next == None &&
      cancel == Some(CancelTx(sent[|sent| - 1].nonce, Bump(sent[|sent| - 1].fee, cfg.replacementFeeBumpPct)))
    case Stuck =>
      && (if sent == [] then cfg.maxReplacements < 0 else sent[|sent| - 1].reply == TimedOut && Over(cfg, sent))
      && var nonce := NonceAt(start, job, Resyncs(sent));
         nonce.Some? && next == Some(nonce.value + 1) &&
         cancel == Some(CancelTx(nonce.value, Raised(job.maxFeePerGas, cfg.replacementFeeBumpPct, Rung(sent) + 1)))
    case NonceUnreadable =>
      && (sent != [] ==> sent[|sent| - 1].reply == Desync && !Over(cfg, sent))
      && NonceAt(start, job, Resyncs(sent)) == None && next == None && cancel == None
  }

  /** The job after one that landed or stuck takes the next nonce; after any other end it reads the chain. */
  lemma NextJobStartsAt(cfg: Config, start: Option<int>, job: Job, sent: seq<Sent>, outcome: Outcome,
                        cancel: Option<CancelTx>, next: Option<int>, job': Job, sent': seq<Sent>)
    requires Protocol(cfg, start, job, sent) && Ends(cfg, start, job, sent, outcome, cancel, next) && sent != []
    requires Protocol(cfg, next, job', sent') && sent' != []
    ensures if outcome.Landed? || outcome.Stuck? then sent'[0].nonce == sent[|sent| - 1].nonce + 1
            else job'.counts(0) == Some(sent'[0].nonce)
    ensures sent'[0].fee == job'.maxFeePerGas
  {
    hide Bump;
    var n := |sent| - 1;
    SentAs(cfg, next, job', sent', 0);
    SentAs(cfg, start, job, sent, n);
    EmptyProtocol(cfg, next, job');
    assert sent'[..0] == [];
  }

  /** The broadcasts since the last resync, counted from the end. */
  lemma {:induction false} RungIsTail(sent: seq<Sent>)
    ensures Rung(sent) <= |sent|
    ensures forall i :: |sent| - Rung(sent) <= i < |sent| ==>
              !sent[i].reply.Desync? && Resyncs(sent[..i]) == Resyncs(sent)
    ensures Rung(sent) < |sent| ==> sent[|sent| - Rung(sent) - 1].reply.Desync?
  {
    if sent != [] && !sent[|sent| - 1].reply.Desync? {
      var init := sent[..|sent| - 1];
      RungIsTail(init);
      assert Rung(sent) == Rung(init) + 1 && Resyncs(sent) == Resyncs(init);
      hide Rung, Resyncs;
      forall i | |sent| - Rung(sent) <= i < |sent|
        ensures !sent[i].reply.Desync? && Resyncs(sent[..i]) == Resyncs(sent)
      {
        if i < |init| { assert sent[..i] == init[..i] && sent[i] == init[i]; }
      }
    }
  }

  /** How a job ends is the node's last answer: confirmed only by a receipt, cancelled only when stuck or failed. */
  lemma OutcomeIsLastReply(cfg: Config, start: Option<int>, job: Job, sent: seq<Sent>, outcome: Outcome,
                           cancel: Option<CancelTx>, next: Option<int>)
    requires Protocol(cfg, start, job, sent) && Ends(cfg, start, job, sent, outcome, cancel, next) && sent != []
    ensures match sent[|sent| - 1].reply
            case Receipt(gasUsed, price) => outcome == Landed(gasUsed, price) && cancel == None
            case TimedOut => outcome == Stuck && cancel.Some?
            case Failed => outcome == SubmissionFailed && cancel.Some?
            case Desync => (outcome == NonceTaken || outcome == NonceUnreadable) && cancel == None
  {
    hide Protocol, MayFollow, Resyncs, Rung, NonceAt, Raised, Bump;
  }

  /** How many broadcasts, at most, are made at one nonce. */
  function Attempts(cfg: Config): int {
    cfg.maxReplacements + 1
  }

  /**
   Nothing is given up early. A job that ends stuck or failed made every attempt it is allowed at
   its last nonce, right after a resync or from the start; one whose nonce is taken lost it once
   more than the resyncs allowed.
   */
  lemma GivesUpOnlyWhenSpent(cfg: Config, start: Option<int>, job: Job, sent: seq<Sent>, outcome: Outcome,
                             cancel: Option<CancelTx>, next: Option<int>)
    requires Protocol(cfg, start, job, sent) && Ends(cfg, start, job, sent, outcome, cancel, next)
    requires cfg.maxReplacements >= 0
    ensures outcome.NonceTaken? ==> Resyncs(sent) == Max(0, cfg.maxNonceResyncs) + 1
    ensures outcome.Stuck? || outcome.SubmissionFailed? ==>
              && Attempts(cfg) <= |sent|
              && (forall i :: |sent| - Attempts(cfg) <= i < |sent| ==>
                  !sent[i].reply.Desync? && sent[i].nonce == sent[|sent| - 1].nonce)
              && (Attempts(cfg) < |sent| ==> sent[|sent| - Attempts(cfg) - 1].reply.Desync?)
  {
    hide Protocol, Ends, MayFollow, Resyncs, Rung, NonceAt;
    SpentAtTheEnd(cfg, start, job, sent, outcome, cancel, next);
    RungIsTail(sent);
    if outcome.Stuck? || outcome.SubmissionFailed? {
      SentAs(cfg, start, job, sent, |sent| - 1);
      forall i | |sent| - Attempts(cfg) <= i < |sent| ensures sent[i].nonce == sent[|sent| - 1].nonce {
        SentAs(cfg, start, job, sent, i);
      }
    }
  }

  lemma SpentAtTheEnd(cfg: Config, start: Option<int>, job: Job, sent: seq<Sent>, outcome: Outcome,
                      cancel: Option<CancelTx>, next: Option<int>)
    requires Protocol(cfg, start, job, sent) && Ends(cfg, start, job, sent, outcome, cancel, next)
    requires cfg.maxReplacements >= 0
    ensures outcome.NonceTaken? ==> Resyncs(sent) == Max(0, cfg.maxNonceResyncs) + 1
    ensures outcome.Stuck? || outcome.SubmissionFailed? ==> sent != [] && Rung(sent) == Attempts(cfg)
  {
    hide Protocol, Rung, NonceAt, Raised, Bump;
    TraceFits(cfg, start, job, sent);
  }

  lemma SentAs(cfg: Config, start: Option<int>, job: Job, sent: seq<Sent>, i: nat)
    requires Protocol(cfg, start, job, sent) && i < |sent|
    ensures NonceAt(start, job, Resyncs(sent[..i])) == Some(sent[i].nonce)
    ensures sent[i].fee == Raised(job.maxFeePerGas, cfg.replacementFeeBumpPct, Rung(sent[..i]))
  {
    assert MayFollow(cfg, start, job, sent[..i], sent[i]);
  }

  /** The cancel transaction takes the last nonce, at a fee no broadcast there exceeded. */
  lemma CancelOutbids(cfg: Config, start: Option<int>, job: Job, sent: seq<Sent>, outcome: Outcome,
                      cancel: Option<CancelTx>, next: Option<int>, i: nat)
    requires Protocol(cfg, start, job, sent) && Ends(cfg, start, job, sent, outcome, cancel, next)
    requires cfg.maxReplacements >= 0 && job.maxFeePerGas >= 0 && cfg.replacementFeeBumpPct >= 0
    requires i < |sent| && Resyncs(sent[..i]) == Resyncs(sent) && (outcome.Stuck? || outcome.SubmissionFailed?)
    ensures cancel.Some? && cancel.value.nonce == sent[i].nonce
    ensures sent[i].fee <= Bump(sent[i].fee, cfg.replacementFeeBumpPct) <= cancel.value.fee
  {
    hide Protocol, Ends, MayFollow, Resyncs, Rung, NonceAt, Raised;
    var base, pct := job.maxFeePerGas, cfg.replacementFeeBumpPct;
    CancelIs(cfg, start, job, sent, outcome, cancel, next);
    SentAs(cfg, start, job, sent, i);
    assert sent[..|sent|] == sent;
    RungsCount(sent, i, |sent|);
    RaisedGrows(base, pct, 0, Rung(sent[..i]));
    BumpRaises(sent[i].fee, pct);
    RaisedOnce(base, pct, Rung(sent[..i]));
    RaisedGrows(base, pct, Rung(sent[..i]) + 1, Rung(sent));
    RaisedGrows(base, pct, Rung(sent), Rung(sent) + 1);
  }

  lemma CancelIs(cfg: Config, start: Option<int>, job: Job, sent: seq<Sent>, outcome: Outcome,
                 cancel: Option<CancelTx>, next: Option<int>)
    requires Protocol(cfg, start, job, sent) && Ends(cfg, start, job, sent, outcome, cancel, next)
    requires sent != [] && (outcome.Stuck? || outcome.SubmissionFailed?)
    ensures cancel.Some? && NonceAt(start, job, Resyncs(sent)) == Some(cancel.value.nonce)
    ensures var times := Rung(sent) + (if outcome.Stuck? then 1 else 0);
            cancel.value.fee == Raised(job.maxFeePerGas, cfg.replacementFeeBumpPct, times)
  {
    hide Protocol, MayFollow, NonceAt, Raised;
    var n := |sent| - 1;
    SentAs(cfg, start, job, sent, n);
    RaisedOnce(job.maxFeePerGas, cfg.replacementFeeBumpPct, Rung(sent[..n]));
  }

  /** Two traces of one job agree as far as both go. */
  lemma {:induction false} TracesAgree(cfg: Config, start: Option<int>, job: Job, a: seq<Sent>, b: seq<Sent>, n: nat)
    requires Protocol(cfg, start, job, a) && Protocol(cfg, start, job, b) && n <= |a| && n <= |b|
    ensures a[..n] == b[..n]
  {
    if n > 0 {
      hide MayFollow, Protocol, Resyncs, Rung;
      TracesAgree(cfg, start, job, a, b, n - 1);
      PrefixFollows(cfg, start, job, a, n - 1);
      PrefixFollows(cfg, start, job, b, n - 1);
      OneFollower(cfg, start, job, a[..n - 1], a[n - 1], b[n - 1]);
      PrefixGrows(a, n - 1);
      PrefixGrows(b, n - 1);
    }
  }

  lemma PrefixGrows(sent: seq<Sent>, i: nat)
    requires i < |sent|
    ensures sent[..i + 1] == sent[..i] + [sent[i]]
  {
  }

  lemma PrefixFollows(cfg: Config, start: Option<int>, job: Job, sent: seq<Sent>, i: nat)
    requires Protocol(cfg, start, job, sent) && i < |sent|
    ensures MayFollow(cfg, start, job, sent[..i], sent[i])
  {
    hide MayFollow;
  }

  lemma OneFollower(cfg: Config, start: Option<int>, job: Job, sent: seq<Sent>, x: Sent, y: Sent)
    requires MayFollow(cfg, start, job, sent, x) && MayFollow(cfg, start, job, sent, y)
    ensures x == y
  {
    hide Over, Resyncs, Rung, Raised, NonceAt;
  }

  lemma NothingFollowsTheEnd(cfg: Config, start: Option<int>, job: Job, a: seq<Sent>, outcome: Outcome,
                             cancel: Option<CancelTx>, next: Option<int>, x: Sent)
    requires Ends(cfg, start, job, a, outcome, cancel, next)
    ensures !MayFollow(cfg, start, job, a, x)
  {
  }

  lemma NoTraceIsLonger(cfg: Config, start: Option<int>, job: Job, a: seq<Sent>, outcome: Outcome,
                        cancel: Option<CancelTx>, next: Option<int>, b: seq<Sent>)
    requires Protocol(cfg, start, job, a) && Protocol(cfg, start, job, b)
    requires Ends(cfg, start, job, a, outcome, cancel, next)
    ensures |b| <= |a|
  {
    hide MayFollow, Ends;
    if |a| < |b| {
      NothingFollowsTheEnd(cfg, start, job, a, outcome, cancel, next, b[|a|]);
      assert a[..|a|] == a;
      TracesAgree(cfg, start, job, a, b, |a|);
    }
  }

  /**
   The rules leave nothing open: the node's answers determine the trace, the outcome, the
   cancel and the next nonce.
   */
  lemma SubmissionIsDetermined(cfg: Config, start: Option<int>, job: Job,
                               a: seq<Sent>, outcomeA: Outcome, cancelA: Option<CancelTx>, nextA: Option<int>,
                               b: seq<Sent>, outcomeB: Outcome, cancelB: Option<CancelTx>, nextB: Option<int>)
    requires Protocol(cfg, start, job, a) && Ends(cfg, start, job, a, outcomeA, cancelA, nextA)
    requires Protocol(cfg, start, job, b) && Ends(cfg, start, job, b, outcomeB, cancelB, nextB)
    ensures a == b && outcomeA == outcomeB && cancelA == cancelB && nextA == nextB
  {
    hide Protocol, Ends, MayFollow;
    NoTraceIsLonger(cfg, start, job, a, outcomeA, cancelA, nextA, b);
    NoTraceIsLonger(cfg, start, job, b, outcomeB, cancelB, nextB, a);
    TracesAgree(cfg, start, job, a, b, |a|);
    assert a == a[..|a|] && b == b[..|a|];
    SameTraceSameEnd(cfg, start, job, a, outcomeA, cancelA, nextA, outcomeB, cancelB, nextB);
  }

  lemma SameTraceSameEnd(cfg: Config, start: Option<int>, job: Job, sent: seq<Sent>,
                         outcomeA: Outcome, cancelA: Option<CancelTx>, nextA: Option<int>,
                         outcomeB: Outcome, cancelB: Option<CancelTx>, nextB: Option<int>)
    requires Ends(cfg, start, job, sent, outcomeA, cancelA, nextA) &&
             Ends(cfg, start, job, sent, outcomeB, cancelB, nextB)
    ensures outcomeA == outcomeB && cancelA == cancelB && nextA == nextB
  {
    hide Resyncs, Rung, Raised, NonceAt, Bump;
  }

  class NonceManager {
    const cfg: Config
    var next: Option<int>

    constructor (cfg: Config)
      ensures this.cfg == cfg && next == None
    {
      this.cfg := cfg;
      next := None;
    }

    method NextNonce(job: Job, used: nat) returns (nonce: Option<int>, used': nat)
      modifies this
      ensures nonce == next && next == (if old(next).None? then job.counts(used) else old(next))
      ensures used' == if old(next).None? then used + 1 else used
    {
      used' := used;
      if next == None {
        next := job.counts(used);
        used' := used + 1;
      }
      nonce := next;
    }

    method SubmitInner(job: Job) returns (outcome: Outcome, sent: seq<Sent>, cancel: Option<CancelTx>)
      modifies this
      ensures Protocol(cfg, old(next), job, sent)
      ensures Ends(cfg, old(next), job, sent, outcome, cancel, next)
      ensures |sent| <= Budget(cfg)
    {
      hide MayFollow, Protocol, Budget, Bump, Rung, Resyncs, Raised;
      ghost var start := next;
      sent, cancel := [], None;
      EmptyProtocol(cfg, start, job);
      var nonce, used := NextNonce(job, 0);
      if nonce == None {
        BroadcastsAreBounded(cfg, start, job, sent);
        return NonceUnreadable, sent, cancel;
      }
      var fee, resyncs, attempt := job.maxFeePerGas, 0, 0;
      while attempt <= cfg.maxReplacements
        invariant attempt == Rung(sent) && resyncs == Resyncs(sent) <= Max(0, cfg.maxNonceResyncs)
        invariant Protocol(cfg, start, job, sent)
        invariant nonce.Some? && nonce == NonceAt(start, job, resyncs) && next == nonce && cancel == None
        invariant used == resyncs + (if start.None? then 1 else 0)
        invariant fee == Raised(job.maxFeePerGas, cfg.replacementFeeBumpPct, attempt)
        invariant sent == [] || (if Over(cfg, sent) then sent[|sent| - 1].reply == TimedOut
                                 else attempt <= cfg.maxReplacements)
        invariant sent == [] ==> attempt == 0
        decreases Max(0, cfg.maxNonceResyncs) - resyncs, cfg.maxReplacements + 1 - attempt
      {
        var reply := job.replies(|sent|);
        ghost var before := sent;
        FollowsHere(cfg, start, job, sent, Sent(nonce.value, fee, reply));
        sent := sent + [Sent(nonce.value, fee, reply)];
        ProtocolExtends(cfg, start, job, before, Sent(nonce.value, fee, reply));
        RaisedOnce(job.maxFeePerGas, cfg.replacementFeeBumpPct, attempt);
        match reply {
          case Receipt(gasUsed, effectiveGasPrice) =>
            next := Some(nonce.value + 1);
            BroadcastsAreBounded(cfg, start, job, sent);
            return Landed(gasUsed, effectiveGasPrice), sent, cancel;
          case TimedOut =>
            fee := Bump(fee, cfg.replacementFeeBumpPct);
            attempt := attempt + 1;
          case Desync =>
            if resyncs >= cfg.maxNonceResyncs {
              next := None;
              BroadcastsAreBounded(cfg, start, job, sent);
              return NonceTaken, sent, cancel;
            }
            resyncs := resyncs + 1;
            next := None;
            nonce, used := NextNonce(job, used);
            if nonce == None {
              BroadcastsAreBounded(cfg, start, job, sent);
              return NonceUnreadable, sent, cancel;
            }
            fee := job.maxFeePerGas;
            attempt := 0;
          case Failed =>
            if attempt >= cfg.maxReplacements {
              cancel := Some(CancelTx(nonce.value, Bump(fee, cfg.replacementFeeBumpPct)));
              next := None;
              BroadcastsAreBounded(cfg, start, job, sent);
              return SubmissionFailed, sent, cancel;
            }
            fee := Bump(fee, cfg.replacementFeeBumpPct);
            attempt := attempt + 1;
        }
      }
      RaisedOnce(job.maxFeePerGas, cfg.replacementFeeBumpPct, attempt);
      cancel := Some(CancelTx(nonce.value, Bump(fee, cfg.replacementFeeBumpPct)));
      next := Some(nonce.value + 1);
      BroadcastsAreBounded(cfg, start, job, sent);
      outcome := Stuck;
    }

    /** The submissions of one queue, each started when the one before has settled. */
    method SubmitInTurn(jobs: seq<Job>) returns (outcomes: seq<Outcome>, traces: seq<seq<Sent>>)
      modifies this
      ensures |outcomes| == |traces| == |jobs|
      ensures cfg.maxReplacements >= 0 && old(next).Some? && (forall j :: j in jobs ==> NeverThrows(j)) ==>
                && next == Some(old(next).value + |jobs|)
                && forall i, x :: 0 <= i < |jobs| && x in traces[i] ==> x.nonce == old(next).value + i
    {
      outcomes, traces := [], [];
      for i := 0 to |jobs|
        invariant |outcomes| == |traces| == i
        invariant cfg.maxReplacements >= 0 && old(next).Some? && (forall j :: j in jobs ==> NeverThrows(j)) ==>
                    && next == Some(old(next).value + i)
                    && forall k, x :: 0 <= k < i && x in traces[k] ==> x.nonce == old(next).value + k
      {
        ghost var start := next;
        var outcome, sent, cancel := SubmitInner(jobs[i]);
        if cfg.maxReplacements >= 0 && start.Some? && NeverThrows(jobs[i]) {
          QuietJobKeepsNonce(cfg, start, jobs[i], sent, outcome, cancel, next);
        }
        outcomes, traces := outcomes + [outcome], traces + [sent];
      }
    }
  }

  lemma EmptyProtocol(cfg: Config, next: Option<int>, job: Job)
    ensures Protocol(cfg, next, job, []) && Rung([]) == 0 && Resyncs([]) == 0
    ensures forall fee, pct :: Raised(fee, pct, 0) == fee
  {
  }

  lemma RaisedOnce(fee: int, pct: int, times: nat)
    ensures Raised(fee, pct, times + 1) == Bump(Raised(fee, pct, times), pct)
  {
  }

  lemma FollowsHere(cfg: Config, next: Option<int>, job: Job, sent: seq<Sent>, x: Sent)
    requires cfg.maxReplacements >= 0 && (sent != [] ==> !Over(cfg, sent))
    requires NonceAt(next, job, Resyncs(sent)) == Some(x.nonce)
    requires x.fee == Raised(job.maxFeePerGas, cfg.replacementFeeBumpPct, Rung(sent)) && x.reply == job.replies(|sent|)
    ensures MayFollow(cfg, next, job, sent, x)
  {
  }

  /** The node takes every broadcast: it is confirmed or times out. */
  ghost predicate NeverThrows(job: Job) {
    forall i: nat :: job.replies(i).Receipt? || job.replies(i).TimedOut?
  }

  lemma {:induction false} NoResyncs(sent: seq<Sent>)
    requires forall x :: x in sent ==> !x.reply.Desync?
    ensures Resyncs(sent) == 0
  {
    if sent != [] {
      assert forall x :: x in sent[..|sent| - 1] ==> x in sent;
      assert sent[|sent| - 1] in sent;
      NoResyncs(sent[..|sent| - 1]);
    }
  }

  /** A job whose broadcasts are all taken uses the cached nonce alone and advances it by one, landed or stuck. */
  lemma QuietJobKeepsNonce(cfg: Config, start: Option<int>, job: Job, sent: seq<Sent>, outcome: Outcome,
                           cancel: Option<CancelTx>, next: Option<int>)
    requires cfg.maxReplacements >= 0 && start.Some? && NeverThrows(job)
    requires Protocol(cfg, start, job, sent) && Ends(cfg, start, job, sent, outcome, cancel, next)
    ensures forall x :: x in sent ==> x.nonce == start.value
    ensures next == Some(start.value + 1) && (outcome.Landed? || outcome.Stuck?)
  {
    forall i | 0 <= i < |sent| ensures !sent[i].reply.Desync? && !sent[i].reply.Failed? &&
      sent[i].nonce == start.value {
      assert MayFollow(cfg, start, job, sent[..i], sent[i]);
      forall x | x in sent[..i] ensures !x.reply.Desync? {
        var k :| 0 <= k < i && sent[k] == x;
        assert MayFollow(cfg, start, job, sent[..k], sent[k]);
      }
      NoResyncs(sent[..i]);
    }
    NoResyncs(sent);
  }
}
