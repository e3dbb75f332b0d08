/**
 Every counter of the vault indexer accounted for: after any run of events it is the sum of
 what those events carry, stated on the events alone.
 */
module VaultTotals {
  import opened Optional
  import opened VaultConservation
  import opened VaultLedger

  // ── Sums over the events ─────────────────────────────────────────────────

  function Total(events: seq<Event>, f: Event -> int): int {
    if events == [] then 0 else Total(events[..|events| - 1], f) + f(events[|events| - 1])
  }

  lemma TotalAppends(events: seq<Event>, e: Event, f: Event -> int)
    ensures Total(events + [e], f) == Total(events, f) + f(e)
  {
    assert (events + [e])[..|events|] == events;
  }

  function Deposit(e: Event): int {
    if e.Deposited? && e.user != FUND then e.amount else 0
  }

  function Deposits(e: Event): int {
    if e.Deposited? && e.user != FUND then 1 else 0
  }

  function Withdrawal(e: Event): int {
    if e.Withdrawn? && e.user != FUND && e.user != BACKSTOP then e.amount else 0
  }

  function Withdrawals(e: Event): int {
    if e.Withdrawn? && e.user != FUND && e.user != BACKSTOP then 1 else 0
  }

  function FundDeposit(e: Event): int {
    if e.InsuranceFundDeposited? then e.amount else 0
  }

  function FundWithdrawal(e: Event): int {
    if e.InsuranceFundWithdrawn? then e.amount else 0
  }

  function BackstopWithdrawal(e: Event): int {
    if e.BackstopWithdrawn? then e.amount else 0
  }

  /** Minted less burned. */
  function Supplied(e: Event): int {
    if !e.Transfer? then 0 else (if e.from == ZERO then e.value else 0) - (if e.to == ZERO then e.value else 0)
  }

  function InternalTransfers(e: Event): int {
    if e.Transfer? && e.from != ZERO && e.to != ZERO then 1 else 0
  }

  /** A loss the reserve takes: the fund is the one paid. */
  function ReserveLoss(e: Event): int {
    if e.BadDebt? && e.receiver == FUND then e.amount else 0
  }

  function BackstopLoss(e: Event): int {
    if e.BadDebt? && e.receiver == FUND && e.payer == BACKSTOP then e.amount else 0
  }

  /** A fee left unpaid: anybody but the fund is the one paid. */
  function FeeLoss(e: Event): int {
    if e.BadDebt? && e.receiver != FUND then e.amount else 0
  }

  // ── The vault row ────────────────────────────────────────────────────────

  ghost predicate VaultAddsUp(v: Vault, events: seq<Event>) {
    && v.totalDeposited == Total(events, Deposit) && v.depositCount == Total(events, Deposits)
    && v.totalWithdrawn == Total(events, Withdrawal) && v.withdrawalCount == Total(events, Withdrawals)
    && v.insuranceFundDeposited == Total(events, FundDeposit)
    && v.insuranceFundWithdrawn == Total(events, FundWithdrawal)
    && v.backstopWithdrawn == Total(events, BackstopWithdrawal)
    && v.totalSupply == Total(events, Supplied) && v.internalTransferCount == Total(events, InternalTransfers)
    && v.traderBadDebtTotal == Total(events, ReserveLoss) && v.backstopBadDebtTotal == Total(events, BackstopLoss)
  }

  lemma VaultStepAdds(l: Ledger, engines: Engines, e: Event)
    ensures var v, m := l.vault, Step(l, engines, e).vault;
            && m.totalDeposited == v.totalDeposited + Deposit(e) && m.depositCount == v.depositCount + Deposits(e)
            && m.totalWithdrawn == v.totalWithdrawn + Withdrawal(e)
            && m.withdrawalCount == v.withdrawalCount + Withdrawals(e)
            && m.insuranceFundDeposited == v.insuranceFundDeposited + FundDeposit(e)
            && m.insuranceFundWithdrawn == v.insuranceFundWithdrawn + FundWithdrawal(e)
            && m.backstopWithdrawn == v.backstopWithdrawn + BackstopWithdrawal(e)
            && m.totalSupply == v.totalSupply + Supplied(e)
            && m.internalTransferCount == v.internalTransferCount + InternalTransfers(e)
            && m.traderBadDebtTotal == v.traderBadDebtTotal + ReserveLoss(e)
            && m.backstopBadDebtTotal == v.backstopBadDebtTotal + BackstopLoss(e)
  {
    hide TransferredUsers, NewRows, IsMarked, Uncovered;
  }

  /** After every run each total on the vault row is the sum of the amounts of its events, and of no others. */
  lemma {:induction false} EveryTotalIsItsEvents(engines: Engines, events: seq<Event>)
    ensures VaultAddsUp(Run(EMPTY, engines, events).vault, events)
  {
    if events != [] {
      hide Step;
      var init, e := events[..|events| - 1], events[|events| - 1];
      EveryTotalIsItsEvents(engines, init);
      VaultStepAdds(Run(EMPTY, engines, init), engines, e);
    }
  }

  // ── Insurance capital ────────────────────────────────────────────────────

  /** Version 2 reads the capital from the contract, unless the read reverts. */
  predicate IsSeed(e: Event) {
    e.Initialized? && e.version == 2 && e.capital.Some?
  }

  lemma CapitalSteps(l: Ledger, engines: Engines, e: Event)
    ensures Step(l, engines, e).vault.insuranceCapital
         == if IsSeed(e) then e.capital.value else l.vault.insuranceCapital + FundDeposit(e) - FundWithdrawal(e)
  {
    hide TransferredUsers, NewRows, IsMarked, Uncovered;
  }

  /** The capital is the last seed, or nothing, plus what the fund put in since and minus what it took out. */
  lemma {:induction false} CapitalSinceSeed(engines: Engines, events: seq<Event>, k: nat)
    requires k <= |events| && forall j :: k <= j < |events| ==> !IsSeed(events[j])
    requires k > 0 ==> IsSeed(events[k - 1])
    ensures Run(EMPTY, engines, events).vault.insuranceCapital
         == (if k > 0 then events[k - 1].capital.value else 0)
            + Total(events[k..], FundDeposit) - Total(events[k..], FundWithdrawal)
  {
    hide Step, IsSeed;
    if |events| > 0 {
      var init, e := events[..|events| - 1], events[|events| - 1];
      CapitalSteps(Run(EMPTY, engines, init), engines, e);
      if k < |events| {
        CapitalSinceSeed(engines, init, k);
        assert events[k..] == init[k..] + [e];
        TotalAppends(init[k..], e, FundDeposit);
        TotalAppends(init[k..], e, FundWithdrawal);
      }
    }
  }

  // ── The venue rows ───────────────────────────────────────────────────────

  /** The part of a total that falls to one venue. */
  function AtVenue(f: Event -> int, venue: Address): Event -> int {
    (e: Event) => if e.BadDebt? && e.venue == venue then f(e) else 0
  }

  const TRADER: VaultVenue -> int := (r: VaultVenue) => r.traderBadDebtTotal
  const FEES: VaultVenue -> int := (r: VaultVenue) => r.feeBadDebtTotal

  ghost predicate VenuesAddUp(venues: map<Address, VaultVenue>, events: seq<Event>) {
    forall a :: VenueAt(venues, a)
             == VaultVenue(Total(events, AtVenue(ReserveLoss, a)), Total(events, AtVenue(BackstopLoss, a)),
                           Total(events, AtVenue(FeeLoss, a)))
  }

  lemma VenueSteps(l: Ledger, engines: Engines, e: Event, a: Address)
    ensures var was, row := VenueAt(l.venues, a), VenueAt(Step(l, engines, e).venues, a);
            && row.traderBadDebtTotal == was.traderBadDebtTotal + AtVenue(ReserveLoss, a)(e)
            && row.backstopBadDebtTotal == was.backstopBadDebtTotal + AtVenue(BackstopLoss, a)(e)
            && row.feeBadDebtTotal == was.feeBadDebtTotal + AtVenue(FeeLoss, a)(e)
  {
    hide TransferredUsers, TransferredVault, Resplit;
    var m := Step(l, engines, e);
    if e.BadDebt? {
      assert m.venues == l.venues[e.venue := m.venues[e.venue]];
    } else {
      assert m.venues == l.venues;
    }
    Applies(ReserveLoss, e, a);
    Applies(BackstopLoss, e, a);
    Applies(FeeLoss, e, a);
  }

  lemma Applies(f: Event -> int, e: Event, a: Address)
    ensures AtVenue(f, a)(e) == if e.BadDebt? && e.venue == a then f(e) else 0
  {
  }

  /** Each venue row holds the reserve losses, backstop losses and unpaid fees of its own venue. */
  lemma {:induction false} EveryVenueIsItsEvents(engines: Engines, events: seq<Event>)
    ensures VenuesAddUp(Run(EMPTY, engines, events).venues, events)
  {
    if events != [] {
      hide Step, AtVenue;
      var init, e := events[..|events| - 1], events[|events| - 1];
      EveryVenueIsItsEvents(engines, init);
      forall a ensures VenueAt(Run(EMPTY, engines, events).venues, a)
                    == VaultVenue(Total(events, AtVenue(ReserveLoss, a)), Total(events, AtVenue(BackstopLoss, a)),
                                  Total(events, AtVenue(FeeLoss, a))) {
        VenueSteps(Run(EMPTY, engines, init), engines, e, a);
      }
    }
  }

  lemma VenueSumsStep(l: Ledger, engines: Engines, e: Event)
    ensures SumOf(Step(l, engines, e).venues, TRADER) == SumOf(l.venues, TRADER) + ReserveLoss(e)
    ensures SumOf(Step(l, engines, e).venues, FEES) == SumOf(l.venues, FEES) + FeeLoss(e)
  {
    hide SumOf, TransferredUsers, TransferredVault, Resplit;
    if e.BadDebt? {
      var row := Step(l, engines, e).venues[e.venue];
      SumUpdates(l.venues, TRADER, e.venue, row);
      SumUpdates(l.venues, FEES, e.venue, row);
    }
  }

  /** Over the venues the trader losses sum to the vault's own total, and the fees to all other bad debt. */
  lemma {:induction false} VenuesSumToVault(engines: Engines, events: seq<Event>)
    ensures var l := Run(EMPTY, engines, events);
            && SumOf(l.venues, TRADER) == l.vault.traderBadDebtTotal == Total(events, ReserveLoss)
            && SumOf(l.venues, FEES) == Total(events, FeeLoss)
  {
    hide Step, SumOf;
    EveryTotalIsItsEvents(engines, events);
    if events == [] {
      SumOfNothing(EMPTY.venues, TRADER);
      SumOfNothing(EMPTY.venues, FEES);
    } else {
      var init, e := events[..|events| - 1], events[|events| - 1];
      VenuesSumToVault(engines, init);
      VenueSumsStep(Run(EMPTY, engines, init), engines, e);
    }
  }

  // ── The user rows ────────────────────────────────────────────────────────

  function DepositOf(a: Address): Event -> int {
    (e: Event) => if e.Deposited? && e.user == a then e.amount else 0
  }

  function DepositsOf(a: Address): Event -> int {
    (e: Event) => if e.Deposited? && e.user == a then 1 else 0
  }

  function WithdrawalOf(a: Address): Event -> int {
    (e: Event) => if e.Withdrawn? && e.user == a then e.amount else 0
  }

  function WithdrawalsOf(a: Address): Event -> int {
    (e: Event) => if e.Withdrawn? && e.user == a then 1 else 0
  }

  /** What a transfer brings an account; the zero address has none. */
  function Received(a: Address): Event -> int {
    (e: Event) =>
      if !e.Transfer? || a == ZERO then 0 else (if e.to == a then e.value else 0) - (if e.from == a then e.value else 0)
  }

  ghost predicate UserAddsUp(u: VaultUser, a: Address, events: seq<Event>) {
    && u.balance == Total(events, Received(a))
    && u.totalDeposited == Total(events, DepositOf(a)) && u.depositCount == Total(events, DepositsOf(a))
    && u.totalWithdrawn == Total(events, WithdrawalOf(a)) && u.withdrawalCount == Total(events, WithdrawalsOf(a))
  }

  ghost predicate SameCounters(u: VaultUser, was: VaultUser) {
    && u.totalDeposited == was.totalDeposited && u.depositCount == was.depositCount
    && u.totalWithdrawn == was.totalWithdrawn && u.withdrawalCount == was.withdrawalCount
  }

  /** Which engine's transaction an event belongs to, on the fields. */
  predicate Targets(engines: Engines, e: Event, c: Category) {
    var perps := engines.perps != ZERO && e.meta.txTo == Some(engines.perps);
    var options := engines.options != ZERO && e.meta.txTo == Some(engines.options);
    match c case Perps => perps case Options => options && !perps case Other => !perps && !options
  }

  /**
   Internal inflow: both ends of a transfer between accounts, or a mint to anyone but the fund
   that is not the deposit just marked, by transaction, recipient and amount.
   */
  function InflowTo(v: Vault, e: Event, a: Address): int {
    if !e.Transfer? then 0
    else if e.from != ZERO && e.to != ZERO then (if e.to == a then e.value else 0)
      - (if e.from == a then e.value else 0)
    else if Borrows(v, e) && e.to == a then e.value
    else 0
  }

  predicate Borrows(v: Vault, e: Event) {
    e.Transfer? && e.from == ZERO && e.to != FUND
    && !(v.pendingDepositTx != "" && v.pendingDepositTx == e.meta.txHash && v.pendingDepositUser == e.to
         && v.pendingDepositAmount == e.value)
  }

  ghost predicate InflowMoved(u: VaultUser, was: VaultUser, engines: Engines, e: Event, inflow: int) {
    && u.netInternalIn == was.netInternalIn + inflow
    && u.netFromPerps == was.netFromPerps + (if Targets(engines, e, Perps) then inflow else 0)
    && u.netFromOptions == was.netFromOptions + (if Targets(engines, e, Options) then inflow else 0)
    && u.netFromOther == was.netFromOther + (if Targets(engines, e, Other) then inflow else 0)
  }

  lemma LegRow(users: map<Address, VaultUser>, x: Address, amount: int, ts: int, a: Address)
    ensures var was, u := UserAt(users, a, 0), UserAt(Leg(users, x, amount, ts), a, 0);
            && SameCounters(u, was) && u.balance == was.balance + (if x == a && a != ZERO then amount else 0)
            && u.netInternalIn == was.netInternalIn && u.netFromPerps == was.netFromPerps
            && u.netFromOptions == was.netFromOptions && u.netFromOther == was.netFromOther
    ensures a in users ==> a in Leg(users, x, amount, ts)
    ensures x != ZERO ==> x in Leg(users, x, amount, ts)
  {
  }

  lemma BumpedRow(users: map<Address, VaultUser>, x: Address, engines: Engines, e: Event, delta: int, a: Address)
    requires x in users
    ensures var users' := Bumped(users, x, CategoryOf(engines, e.meta.txTo), delta);
            var was, u := UserAt(users, a, 0), UserAt(users', a, 0);
            && SameCounters(u, was) && u.balance == was.balance && users'.Keys == users.Keys
            && InflowMoved(u, was, engines, e, if x == a then delta else 0)
  {
  }

  /** A transfer on any account: its balance, its inflow and the one bucket the transaction's target names. */
  lemma TransferRow(l: Ledger, engines: Engines, e: Event, a: Address)
    requires e.Transfer? && Emittable(e)
    ensures var was, u := UserAt(l.users, a, 0), UserAt(TransferredUsers(l, engines, e), a, 0);
            && SameCounters(u, was) && u.balance == was.balance + Received(a)(e)
            && InflowMoved(u, was, engines, e, InflowTo(l.vault, e, a))
  {
    hide Leg, Bumped, CategoryOf, SameCounters, UserAt, Targets;
    var ts, category := e.meta.timestamp, CategoryOf(engines, e.meta.txTo);
    var debited := Leg(l.users, e.from, -e.value, ts);
    var moved := Leg(debited, e.to, e.value, ts);
    LegRow(l.users, e.from, -e.value, ts, a);
    LegRow(l.users, e.from, -e.value, ts, e.from);
    LegRow(debited, e.to, e.value, ts, a);
    LegRow(debited, e.to, e.value, ts, e.from);
    CountersChain(UserAt(l.users, a, 0), UserAt(debited, a, 0), UserAt(moved, a, 0));
    if e.from != ZERO && e.to != ZERO {
      var bumped := Bumped(moved, e.from, category, -e.value);
      BumpedRow(moved, e.from, engines, e, -e.value, a);
      BumpedRow(bumped, e.to, engines, e, e.value, a);
      CountersChain(UserAt(moved, a, 0), UserAt(bumped, a, 0), UserAt(TransferredUsers(l, engines, e), a, 0));
      CountersChain(UserAt(l.users, a, 0), UserAt(moved, a, 0), UserAt(TransferredUsers(l, engines, e), a, 0));
    } else if IsBorrow(l.vault, e) {
      BumpedRow(moved, e.to, engines, e, e.value, a);
      CountersChain(UserAt(l.users, a, 0), UserAt(moved, a, 0), UserAt(TransferredUsers(l, engines, e), a, 0));
    }
  }

  lemma CountersChain(u: VaultUser, v: VaultUser, w: VaultUser)
    requires SameCounters(v, u) && SameCounters(w, v)
    ensures SameCounters(w, u)
  {
  }

  lemma UserSteps(l: Ledger, engines: Engines, e: Event, a: Address)
    requires Emittable(e)
    ensures var was, u := UserAt(l.users, a, 0), UserAt(Step(l, engines, e).users, a, 0);
            && u.balance == was.balance + Received(a)(e)
            && u.totalDeposited == was.totalDeposited + DepositOf(a)(e)
            && u.depositCount == was.depositCount + DepositsOf(a)(e)
            && u.totalWithdrawn == was.totalWithdrawn + WithdrawalOf(a)(e)
            && u.withdrawalCount == was.withdrawalCount + WithdrawalsOf(a)(e)
            && InflowMoved(u, was, engines, e, InflowTo(l.vault, e, a))
  {
    hide TransferredUsers, TransferredVault, Resplit;
    if e.Transfer? { TransferRow(l, engines, e, a); }
  }

  /** After every run each account's balance is its transfers, and its totals are its own deposits and withdrawals. */
  lemma {:induction false} EveryUserIsItsEvents(engines: Engines, events: seq<Event>, a: Address)
    requires forall e :: e in events ==> Emittable(e)
    ensures UserAddsUp(UserAt(Run(EMPTY, engines, events).users, a, 0), a, events)
  {
    if events != [] {
      hide Step, UserAt, Received, DepositOf, DepositsOf, WithdrawalOf, WithdrawalsOf, InflowMoved;
      var init, e := events[..|events| - 1], events[|events| - 1];
      EveryUserIsItsEvents(engines, init, a);
      UserSteps(Run(EMPTY, engines, init), engines, e, a);
    }
  }

  /** The inflow a run brings an account through transactions of one category. */
  function Inflow(engines: Engines, events: seq<Event>, a: Address, c: Category): int {
    if events == [] then 0
    else
      var init, e := events[..|events| - 1], events[|events| - 1];
      Inflow(engines, init, a, c)
      + (if Targets(engines, e, c) then InflowTo(Run(EMPTY, engines, init).vault, e, a) else 0)
  }

  /** Each bucket of every account holds exactly the inflow of its own engine's transactions. */
  lemma {:induction false} EveryBucketIsItsEngine(engines: Engines, events: seq<Event>, a: Address)
    requires forall e :: e in events ==> Emittable(e)
    ensures var u := UserAt(Run(EMPTY, engines, events).users, a, 0);
            && u.netFromPerps == Inflow(engines, events, a, Perps)
            && u.netFromOptions == Inflow(engines, events, a, Options)
            && u.netFromOther == Inflow(engines, events, a, Other)
  {
    if events != [] {
      hide Step, UserAt, InflowTo, Targets;
      var init, e := events[..|events| - 1], events[|events| - 1];
      EveryBucketIsItsEngine(engines, init, a);
      UserSteps(Run(EMPTY, engines, init), engines, e, a);
    }
  }

  // ── When rows were touched ───────────────────────────────────────────────

  /** An event that loads and saves the account's row. */
  predicate Touches(e: Event, a: Address) {
    match e
    case Transfer(_, from, to, _) => a != ZERO && (a == from || a == to)
    case Deposited(_, user, _) => a == user
    case Withdrawn(_, user, _) => a == user
    case BadDebt(_, payer, _, _, _) => a == payer
    case _ => false
  }

  function LastTouch(events: seq<Event>, a: Address): Option<int> {
    if events == [] then None
    else
      var init, e := events[..|events| - 1], events[|events| - 1];
      if Touches(e, a) then Some(e.meta.timestamp) else LastTouch(init, a)
  }

  function FirstTouch(events: seq<Event>, a: Address): Option<int> {
    if events == [] then None
    else
      var init, e := events[..|events| - 1], events[|events| - 1];
      var before := FirstTouch(init, a);
      if before.None? && Touches(e, a) then Some(e.meta.timestamp) else before
  }

  lemma LegStamps(users: map<Address, VaultUser>, x: Address, amount: int, ts: int, a: Address)
    ensures var users' := Leg(users, x, amount, ts);
            && (a in users' <==> a in users || (a == x && a != ZERO))
            && (a in users' ==>
                && users'[a].lastActivityAt == (if a == x && a != ZERO then ts else users[a].lastActivityAt)
                && users'[a].createdAt == (if a in users then users[a].createdAt else ts))
  {
  }

  lemma BumpedStamps(users: map<Address, VaultUser>, x: Address, c: Category, delta: int, a: Address)
    ensures var users' := Bumped(users, x, c, delta);
            && (a in users' <==> a in users)
            && (a in users' ==>
                users'[a].lastActivityAt == users[a].lastActivityAt && users'[a].createdAt == users[a].createdAt)
  {
  }

  lemma StampSteps(l: Ledger, engines: Engines, e: Event, a: Address)
    ensures var users' := Step(l, engines, e).users;
            && (a in users' <==> a in l.users || Touches(e, a))
            && (a in users' ==>
                && users'[a].lastActivityAt
                   == (if Touches(e, a) then e.meta.timestamp else l.users[a].lastActivityAt)
                && users'[a].createdAt == (if a in l.users then l.users[a].createdAt else e.meta.timestamp))
  {
    hide Leg, Bumped, CategoryOf, TransferredVault, Resplit;
    if e.Transfer? {
      var ts, c := e.meta.timestamp, CategoryOf(engines, e.meta.txTo);
      var debited := Leg(l.users, e.from, -e.value, ts);
      var moved := Leg(debited, e.to, e.value, ts);
      LegStamps(l.users, e.from, -e.value, ts, a);
      LegStamps(debited, e.to, e.value, ts, a);
      BumpedStamps(moved, e.from, c, -e.value, a);
      BumpedStamps(moved, e.to, c, e.value, a);
      BumpedStamps(Bumped(moved, e.from, c, -e.value), e.to, c, e.value, a);
    }
  }

  /** An account has a row exactly if an event touched it; the row carries the first and the last such time. */
  lemma {:induction false} RowsAreStamped(engines: Engines, events: seq<Event>, a: Address)
    ensures var users := Run(EMPTY, engines, events).users;
            && (a in users <==> LastTouch(events, a).Some?) && (a in users <==> FirstTouch(events, a).Some?)
            && (a in users ==> Some(users[a].lastActivityAt) == LastTouch(events, a)
                               && Some(users[a].createdAt) == FirstTouch(events, a))
  {
    if events != [] {
      hide Step, Touches;
      var init, e := events[..|events| - 1], events[|events| - 1];
      RowsAreStamped(engines, init, a);
      StampSteps(Run(EMPTY, engines, init), engines, e, a);
    }
  }

  lemma VaultStampSteps(l: Ledger, engines: Engines, e: Event)
    ensures Step(l, engines, e).vault.lastUpdatedAt == e.meta.timestamp
    ensures Step(l, engines, e).vault.initializedAt
         == if e.Initialized? then e.meta.timestamp else l.vault.initializedAt
  {
    hide TransferredUsers, NewRows, IsMarked, Uncovered;
  }

  /** The vault row carries the time of the last event, and of the last initialization. */
  lemma {:induction false} VaultIsStamped(engines: Engines, events: seq<Event>, k: nat)
    requires k < |events| && events[k].Initialized? && forall j :: k < j < |events| ==> !events[j].Initialized?
    ensures var v := Run(EMPTY, engines, events).vault;
            v.lastUpdatedAt == events[|events| - 1].meta.timestamp && v.initializedAt == events[k].meta.timestamp
  {
    hide Step;
    var init, e := events[..|events| - 1], events[|events| - 1];
    VaultStampSteps(Run(EMPTY, engines, init), engines, e);
    if k < |init| {
      VaultIsStamped(engines, init, k);
    }
  }

  // ── The insurance debt ───────────────────────────────────────────────────

  /** A burn from the fund no larger than the open debt. */
  predicate Repays(v: Vault, e: Event) {
    e.Transfer? && e.from == FUND && e.to == ZERO && e.value <= v.insuranceDebt && v.insuranceDebt != 0
  }

  /** The debt moves with borrows and repayments and nothing else, and its opening is stamped. */
  lemma DebtMovesExactly(l: Ledger, engines: Engines, e: Event)
    requires Emittable(e)
    ensures var v, m := l.vault, Step(l, engines, e).vault;
            var borrowed, repaid := if Borrows(v, e) then e.value else 0, if Repays(v, e) then e.value else 0;
            && m.insuranceDebtBorrowedTotal == v.insuranceDebtBorrowedTotal + borrowed
            && m.insuranceDebtRepaidTotal == v.insuranceDebtRepaidTotal + repaid
            && m.insuranceDebt == v.insuranceDebt + borrowed - repaid
            && (v.insuranceDebt != 0 && m.insuranceDebt != 0 ==> m.insuranceDebtSince == v.insuranceDebtSince)
            && (v.insuranceDebt == 0 && m.insuranceDebt > 0 ==> m.insuranceDebtSince == e.meta.timestamp)
  {
    hide TransferredUsers, NewRows, Uncovered;
  }

  ghost predicate OpenSince(engines: Engines, events: seq<Event>, i: nat) {
    && i < |events|
    && Run(EMPTY, engines, events[..i]).vault.insuranceDebt == 0
    && (forall j :: i < j <= |events| ==> Run(EMPTY, engines, events[..j]).vault.insuranceDebt > 0)
    && Run(EMPTY, engines, events).vault.insuranceDebtSince == events[i].meta.timestamp
  }

  /** An open debt carries the time of the event that opened it, and has been open without a break since. */
  lemma {:induction false} DebtSinceItOpened(engines: Engines, events: seq<Event>)
    requires forall e :: e in events ==> Emittable(e)
    requires Run(EMPTY, engines, events).vault.insuranceDebt > 0
    ensures exists i :: OpenSince(engines, events, i)
  {
    hide Step, OpenSince, Conserved, DebtAdds;
    if events != [] {
      var init, e := events[..|events| - 1], events[|events| - 1];
      NeverNegative(engines, init);
      if Run(EMPTY, engines, init).vault.insuranceDebt == 0 {
        OpensNow(engines, init, e);
        assert events == init + [e];
      } else {
        DebtSinceItOpened(engines, init);
        var i :| OpenSince(engines, init, i);
        StaysOpen(engines, init, e, i);
        assert events == init + [e];
      }
    }
  }

  lemma NeverNegative(engines: Engines, events: seq<Event>)
    requires forall e :: e in events ==> Emittable(e)
    ensures Run(EMPTY, engines, events).vault.insuranceDebt >= 0
  {
    hide Run, BalancesAdd, InflowsAdd;
    EveryRunIsConserved(engines, events);
  }

  lemma RunAppends(engines: Engines, events: seq<Event>, e: Event)
    ensures Run(EMPTY, engines, events + [e]) == Step(Run(EMPTY, engines, events), engines, e)
  {
    hide Step;
    assert (events + [e])[..|events|] == events;
  }

  lemma OpensNow(engines: Engines, events: seq<Event>, e: Event)
    requires Emittable(e) && Run(EMPTY, engines, events).vault.insuranceDebt == 0
    requires Run(EMPTY, engines, events + [e]).vault.insuranceDebt > 0
    ensures OpenSince(engines, events + [e], |events|)
  {
    hide Step, Run;
    RunAppends(engines, events, e);
    DebtMovesExactly(Run(EMPTY, engines, events), engines, e);
    assert (events + [e])[..|events|] == events && (events + [e])[..|events| + 1] == events + [e];
  }

  lemma StaysOpen(engines: Engines, events: seq<Event>, e: Event, i: nat)
    requires Emittable(e) && OpenSince(engines, events, i)
    requires Run(EMPTY, engines, events + [e]).vault.insuranceDebt > 0
    ensures OpenSince(engines, events + [e], i)
  {
    hide Step, Run;
    RunAppends(engines, events, e);
    DebtMovesExactly(Run(EMPTY, engines, events), engines, e);
    var longer := events + [e];
    assert events[..|events|] == events && longer[..|longer|] == longer;
    assert forall j :: 0 <= j <= |events| ==> longer[..j] == events[..j];
  }

  // ── Runs of the contract's shape ─────────────────────────────────────────

  function ActionTotal(actions: seq<Action>, f: Action -> int): int {
    if actions == [] then 0 else ActionTotal(actions[..|actions| - 1], f) + f(actions[|actions| - 1])
  }

  function Borrowed(a: Action): int {
    if a.Borrow? then a.amount else 0
  }

  lemma ActionBorrows(l: Ledger, engines: Engines, a: Action)
    requires Performable(a) && l.vault.pendingDepositTx == ""
    ensures Perform(l, engines, a).vault.insuranceDebtBorrowedTotal == l.vault.insuranceDebtBorrowedTotal + Borrowed(a)
  {
    hide Step;
    var events := EventsOf(a);
    DebtMovesExactly(l, engines, events[0]);
    if |events| == 1 {
      assert events == [events[0]];
      RunOne(l, engines, events[0]);
    } else {
      assert events == [events[0], events[1]];
      RunTwo(l, engines, events[0], events[1]);
      DebtMovesExactly(Step(l, engines, events[0]), engines, events[1]);
      if a.Deposit? { MarkersExplain(l, engines, events[0]); }
    }
  }

  /** Over every run of contract actions the borrowed total is what was borrowed: no deposit is taken for a borrow. */
  lemma {:induction false} OnlyBorrowsAreBorrowed(engines: Engines, actions: seq<Action>)
    requires forall a :: a in actions ==> Performable(a)
    ensures PerformAll(engines, actions).vault.insuranceDebtBorrowedTotal == ActionTotal(actions, Borrowed)
  {
    if actions != [] {
      hide Step, Perform;
      var init, a := actions[..|actions| - 1], actions[|actions| - 1];
      OnlyBorrowsAreBorrowed(engines, init);
      EveryContractRunIsExplained(engines, init);
      ActionBorrows(PerformAll(engines, init), engines, a);
    }
  }
}
