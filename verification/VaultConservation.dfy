/**
 What the vault ledger keeps over every run of events, and over every run of the
 contract's actions.
 */
module VaultConservation {
  import opened VaultLedger

  // ── Sums over the rows of a table ────────────────────────────────────────

  ghost function SumOf<T>(rows: map<Address, T>, f: T -> int): int
    decreases |rows|
  {
    if rows == map[] then 0
    else
      var a :| a in rows;
      f(rows[a]) + SumOf(rows - {a}, f)
  }

  /** The sum does not depend on which row is taken out first. */
  lemma {:induction false} SumTakesOut<T>(rows: map<Address, T>, f: T -> int, a: Address)
    requires a in rows
    ensures SumOf(rows, f) == f(rows[a]) + SumOf(rows - {a}, f)
    decreases |rows|
  {
    var b :| b in rows && SumOf(rows, f) == f(rows[b]) + SumOf(rows - {b}, f);
    if a != b {
      SumTakesOut(rows - {b}, f, a);
      SumTakesOut(rows - {a}, f, b);
      assert rows - {b} - {a} == rows - {a} - {b};
    }
  }

  lemma {:induction false} SumUpdates<T>(rows: map<Address, T>, f: T -> int, a: Address, row: T)
    ensures SumOf(rows[a := row], f) == SumOf(rows, f) + f(row) - (if a in rows then f(rows[a]) else 0)
  {
    SumTakesOut(rows[a := row], f, a);
    assert rows[a := row] - {a} == rows - {a};
    if a in rows {
      SumTakesOut(rows, f, a);
    } else {
      assert rows - {a} == rows;
    }
  }

  const BALANCE: VaultUser -> int := (u: VaultUser) => u.balance
  const NET: VaultUser -> int := (u: VaultUser) => u.netInternalIn

  // ── The ledger invariant ─────────────────────────────────────────────────

  ghost predicate BucketsAdd(u: VaultUser) {
    u.netInternalIn == u.netFromPerps + u.netFromOptions + u.netFromOther
  }

  ghost predicate AllBucketsAdd(users: map<Address, VaultUser>) {
    forall a :: a in users ==> BucketsAdd(users[a])
  }

  ghost predicate BalancesAdd(v: Vault, users: map<Address, VaultUser>) {
    && v.totalSupply == SumOf(users, BALANCE)
    && v.insuranceFundBalance == BalanceOf(users, FUND)
    && v.backstopBalance == BalanceOf(users, BACKSTOP)
    && v.totalUsers == |users|
  }

  ghost predicate InflowsAdd(v: Vault, users: map<Address, VaultUser>) {
    && AllBucketsAdd(users)
    && v.insuranceDebtBorrowedTotal == SumOf(users, NET)
  }

  /** The debt is what was borrowed and not repaid, and its split is never stale. */
  ghost predicate DebtAdds(v: Vault) {
    && v.insuranceDebt == v.insuranceDebtBorrowedTotal - v.insuranceDebtRepaidTotal >= 0
    && v.traderBadDebtTotal >= 0
    && v.uncoveredLoss == Max0(v.traderBadDebtTotal - v.insuranceCapital)
    && v.timingDebt == Max0(v.insuranceDebt - v.uncoveredLoss)
    && (v.insuranceDebt == 0 ==> v.insuranceDebtSince == 0)
  }

  ghost predicate Conserved(l: Ledger) {
    BalancesAdd(l.vault, l.users) && InflowsAdd(l.vault, l.users) && DebtAdds(l.vault)
  }

  /** Token amounts are unsigned, and no transfer runs from the zero address to itself. */
  ghost predicate Emittable(e: Event) {
    match e
    case Transfer(_, from, to, value) => value >= 0 && !(from == ZERO && to == ZERO)
    case Deposited(_, _, amount) => amount >= 0
    case Withdrawn(_, _, amount) => amount >= 0
    case InsuranceFundDeposited(_, amount) => amount >= 0
    case InsuranceFundWithdrawn(_, amount) => amount >= 0
    case BadDebt(_, _, _, amount, _) => amount >= 0
    case BackstopWithdrawn(_, amount) => amount >= 0
    case Initialized(_, _, _) => true
  }

  // ── Each piece of a step ─────────────────────────────────────────────────

  /** Balances agree everywhere but at one address. */
  ghost predicate BalancesShift(users: map<Address, VaultUser>, after: map<Address, VaultUser>, a: Address,
                                amount: int) {
    forall x :: BalanceOf(after, x) == BalanceOf(users, x) + (if x == a then amount else 0)
  }

  lemma {:induction false} CreditedSums(users: map<Address, VaultUser>, a: Address, amount: int, ts: int)
    requires AllBucketsAdd(users)
    ensures var after := Credited(users, a, amount, ts);
            && SumOf(after, BALANCE) == SumOf(users, BALANCE) + amount
            && SumOf(after, NET) == SumOf(users, NET)
            && |after| == |users| + (if a in users then 0 else 1)
            && AllBucketsAdd(after)
            && a in after && after.Keys == users.Keys + {a}
  {
    hide SumOf, BalancesShift, AllBucketsAdd, UserAt, Paid, BucketsAdd;
    var u := UserAt(users, a, ts);
    UserAtAdds(users, a, ts);
    PaidAdds(u, amount, ts);
    RowReplaced(users, a, u, Paid(u, amount, ts), ts);
  }

  lemma {:induction false} PaidAdds(u: VaultUser, amount: int, ts: int)
    requires BucketsAdd(u)
    ensures var r := Paid(u, amount, ts);
            BucketsAdd(r) && r.balance == u.balance + amount && r.netInternalIn == u.netInternalIn
  {
  }

  lemma {:induction false} UserAtAdds(users: map<Address, VaultUser>, a: Address, ts: int)
    requires AllBucketsAdd(users)
    ensures BucketsAdd(UserAt(users, a, ts))
  {
  }

  /** The one row that changes is the only term of either sum that changes. */
  lemma {:induction false} RowReplaced(users: map<Address, VaultUser>, a: Address, u: VaultUser, u': VaultUser, ts: int)
    requires u == UserAt(users, a, ts) && BucketsAdd(u') && AllBucketsAdd(users)
    ensures var after := users[a := u'];
            && SumOf(after, BALANCE) == SumOf(users, BALANCE) + u'.balance - u.balance
            && SumOf(after, NET) == SumOf(users, NET) + u'.netInternalIn - u.netInternalIn
            && |after| == |users| + (if a in users then 0 else 1)
            && AllBucketsAdd(after)
            && BalancesShift(users, after, a, u'.balance - u.balance)
            && a in after && after.Keys == users.Keys + {a}
  {
    hide SumOf, BucketsAdd;
    SumUpdates(users, BALANCE, a, u');
    SumUpdates(users, NET, a, u');
    RowsAfter(users, a, u');
  }

  lemma {:induction false} RowsAfter(users: map<Address, VaultUser>, a: Address, u: VaultUser)
    ensures |users[a := u]| == |users| + (if a in users then 0 else 1)
    ensures users[a := u].Keys == users.Keys + {a}
  {
    var after := users[a := u];
    assert after.Keys == users.Keys + {a};
    assert |after| == |after.Keys| && |users| == |users.Keys|;
    if a !in users {
      assert |users.Keys + {a}| == |users.Keys| + 1;
    } else {
      assert users.Keys + {a} == users.Keys;
    }
  }

  lemma {:induction false} BumpedSums(users: map<Address, VaultUser>, a: Address, category: Category, delta: int)
    requires AllBucketsAdd(users)
    ensures var after := Bumped(users, a, category, delta);
            && SumOf(after, BALANCE) == SumOf(users, BALANCE)
            && SumOf(after, NET) == SumOf(users, NET) + (if a in users then delta else 0)
            && after.Keys == users.Keys && |after| == |users|
            && AllBucketsAdd(after)
            && BalancesShift(users, after, a, 0)
  {
    hide SumOf, BalanceOf, AllBucketsAdd;
    if a in users {
      var after := Bumped(users, a, category, delta);
      assert after == users[a := after[a]];
      assert users.Keys + {a} == users.Keys;
      UserAtAdds(users, a, 0);
      RowReplaced(users, a, users[a], after[a], 0);
    }
  }

  /** A row replaced without touching balance or inflow. */
  lemma {:induction false} TouchedSums(users: map<Address, VaultUser>, a: Address, u: VaultUser, ts: int)
    requires AllBucketsAdd(users)
    requires var was := UserAt(users, a, ts);
             u.balance == was.balance && u.netInternalIn == was.netInternalIn && u.netFromPerps == was.netFromPerps
             && u.netFromOptions == was.netFromOptions && u.netFromOther == was.netFromOther
    ensures var after := users[a := u];
            && SumOf(after, BALANCE) == SumOf(users, BALANCE) && SumOf(after, NET) == SumOf(users, NET)
            && |after| == |users| + (if a in users then 0 else 1)
            && AllBucketsAdd(after)
            && BalancesShift(users, after, a, 0)
  {
    hide SumOf, BalanceOf, AllBucketsAdd;
    UserAtAdds(users, a, ts);
    RowReplaced(users, a, UserAt(users, a, ts), u, ts);
  }

  // ── Transfers ────────────────────────────────────────────────────────────

  /** The balance legs, before any inflow is booked. */
  function Moved(users: map<Address, VaultUser>, e: Event): map<Address, VaultUser>
    requires e.Transfer?
  {
    Leg(Leg(users, e.from, -e.value, e.meta.timestamp), e.to, e.value, e.meta.timestamp)
  }

  lemma {:induction false} LegSums(users: map<Address, VaultUser>, a: Address, amount: int, ts: int, other: Address)
    requires AllBucketsAdd(users)
    ensures var after := Leg(users, a, amount, ts);
            && SumOf(after, BALANCE) == SumOf(users, BALANCE) + Delta(a != ZERO, amount)
            && SumOf(after, NET) == SumOf(users, NET)
            && |after| == |users| + Delta(a != ZERO && a !in users, 1)
            && AllBucketsAdd(after)
            && (a != ZERO ==> a in after)
            && (other in users ==> other in after)
  {
    hide SumOf, Credited, AllBucketsAdd;
    if a != ZERO { CreditedSums(users, a, amount, ts); }
  }

  lemma {:induction false} MovedSums(users: map<Address, VaultUser>, e: Event)
    requires e.Transfer? && AllBucketsAdd(users)
    ensures var after := Moved(users, e);
            && SumOf(after, BALANCE) == SumOf(users, BALANCE) + Delta(e.from == ZERO, e.value)
               - Delta(e.to == ZERO, e.value)
            && SumOf(after, NET) == SumOf(users, NET)
            && |after| == |users| + |NewRows(users, e.from, e.to)|
            && AllBucketsAdd(after)
            && (e.from != ZERO ==> e.from in after) && (e.to != ZERO ==> e.to in after)
            && (e.from == ZERO && e.to == ZERO ==> after == users)
  {
    hide SumOf, Credited, AllBucketsAdd, NewRows, Leg;
    var debited := Leg(users, e.from, -e.value, e.meta.timestamp);
    CountNewRows(users, e.from, e.to, -e.value, e.meta.timestamp);
    LegSums(users, e.from, -e.value, e.meta.timestamp, ZERO);
    LegSums(debited, e.to, e.value, e.meta.timestamp, e.from);
    BothZero(users, e);
  }

  lemma {:induction false} BothZero(users: map<Address, VaultUser>, e: Event)
    requires e.Transfer?
    ensures e.from == ZERO && e.to == ZERO ==> Moved(users, e) == users
  {
  }

  lemma {:induction false} MovedBalances(users: map<Address, VaultUser>, e: Event, x: Address)
    requires e.Transfer?
    ensures BalanceOf(Moved(users, e), x) == BalanceOf(users, x)
            - (if x == e.from && e.from != ZERO then e.value else 0) +
            (if x == e.to && e.to != ZERO then e.value else 0)
  {
  }

  /** What an arbitrary transfer does to the inflow sums. */
  lemma {:induction false} TransferredSums(l: Ledger, engines: Engines, e: Event)
    requires e.Transfer? && AllBucketsAdd(l.users)
    ensures var after, moved := TransferredUsers(l, engines, e), Moved(l.users, e);
            && SumOf(after, BALANCE) == SumOf(moved, BALANCE)
            && SumOf(after, NET) == SumOf(l.users, NET) +
               Delta(IsBorrow(l.vault, e) && (e.to != ZERO || ZERO in l.users), e.value)
            && |after| == |moved|
            && AllBucketsAdd(after)
            && BalancesShift(moved, after, ZERO, 0)
  {
    hide SumOf, Credited, BalanceOf, NewRows, AllBucketsAdd, Bumped, CategoryOf, IsMarked;
    MovedSums(l.users, e);
    var moved, category := Moved(l.users, e), CategoryOf(engines, e.meta.txTo);
    if e.from != ZERO && e.to != ZERO {
      BumpedSums(moved, e.from, category, -e.value);
      BumpedSums(Bumped(moved, e.from, category, -e.value), e.to, category, e.value);
    } else if IsBorrow(l.vault, e) {
      BumpedSums(moved, e.to, category, e.value);
    }
  }

  lemma {:induction false} TransferKeepsDebt(l: Ledger, e: Event)
    requires e.Transfer? && e.value >= 0 && DebtAdds(l.vault)
    ensures var v := TransferredVault(l, e);
            && DebtAdds(v)
            && v.insuranceDebtBorrowedTotal == l.vault.insuranceDebtBorrowedTotal + Delta(IsBorrow(l.vault, e), e.value)
  {
    hide IsMarked, NewRows;
  }

  lemma {:induction false} TransferKeepsVault(l: Ledger, e: Event)
    requires e.Transfer?
    ensures var v, w := TransferredVault(l, e), l.vault;
            && v.totalSupply == w.totalSupply + Delta(e.from == ZERO, e.value) - Delta(e.to == ZERO, e.value)
            && v.insuranceFundBalance == w.insuranceFundBalance - Delta(e.from == FUND, e.value) +
               Delta(e.to == FUND, e.value)
            && v.backstopBalance == w.backstopBalance - Delta(e.from == BACKSTOP, e.value) +
               Delta(e.to == BACKSTOP, e.value)
            && v.totalUsers == w.totalUsers + |NewRows(l.users, e.from, e.to)|
  {
    hide IsMarked, NewRows;
  }

  /** Transfers between real accounts, mints and burns all keep the ledger. */
  lemma {:induction false} TransferKeeps(l: Ledger, engines: Engines, e: Event)
    requires e.Transfer? && Emittable(e) && Conserved(l)
    ensures Conserved(Step(l, engines, e))
  {
    hide SumOf, BalanceOf, Credited, Bumped, NewRows, IsMarked, CategoryOf, TransferredVault, TransferredUsers,
      DebtAdds, AllBucketsAdd, Moved;
    MovedSums(l.users, e);
    MovedBalances(l.users, e, FUND);
    MovedBalances(l.users, e, BACKSTOP);
    TransferredSums(l, engines, e);
    TransferKeepsDebt(l, e);
    TransferKeepsVault(l, e);
  }

  /**
   The excluded transfer: from the zero address to itself the ledger survives exactly when
   nothing moves, a deposit had marked it, or the zero address happens to have a row.
   */
  lemma {:induction false} ZeroToZeroExactly(l: Ledger, engines: Engines, e: Event)
    requires e.Transfer? && e.from == ZERO && e.to == ZERO && e.value >= 0 && Conserved(l)
    ensures Conserved(Step(l, engines, e)) <==>
            e.value == 0 || IsMarked(l.vault, e.meta, ZERO, e.value) || ZERO in l.users
  {
    hide SumOf, BalanceOf, Credited, Bumped, NewRows, IsMarked, CategoryOf, TransferredVault, TransferredUsers,
      DebtAdds, AllBucketsAdd, Moved;
    MovedSums(l.users, e);
    MovedBalances(l.users, e, FUND);
    MovedBalances(l.users, e, BACKSTOP);
    TransferredSums(l, engines, e);
    TransferKeepsDebt(l, e);
    TransferKeepsVault(l, e);
  }

  // ── Every run ────────────────────────────────────────────────────────────

  /** A handler that only touches a row, and counts it when new, keeps the sums. */
  lemma {:induction false} TouchKeepsSums(v: Vault, v': Vault, users: map<Address, VaultUser>, a: Address,
                                          u: VaultUser, ts: int)
    requires BalancesAdd(v, users) && InflowsAdd(v, users)
    requires var was := UserAt(users, a, ts);
             u.balance == was.balance && u.netInternalIn == was.netInternalIn && u.netFromPerps == was.netFromPerps
             && u.netFromOptions == was.netFromOptions && u.netFromOther == was.netFromOther
    requires v'.totalSupply == v.totalSupply && v'.insuranceFundBalance == v.insuranceFundBalance &&
             v'.backstopBalance == v.backstopBalance
    requires v'.insuranceDebtBorrowedTotal == v.insuranceDebtBorrowedTotal &&
             v'.totalUsers == v.totalUsers + Delta(a !in users, 1)
    ensures BalancesAdd(v', users[a := u]) && InflowsAdd(v', users[a := u])
  {
    hide SumOf, BalanceOf, AllBucketsAdd, UserAt;
    TouchedSums(users, a, u, ts);
  }

  /** Every other handler leaves the sums alone: it rewrites one row without moving balance or inflow. */
  lemma {:induction false} OthersKeepSums(l: Ledger, engines: Engines, e: Event)
    requires !e.Transfer? && Conserved(l)
    ensures var m := Step(l, engines, e); BalancesAdd(m.vault, m.users) && InflowsAdd(m.vault, m.users)
  {
    hide SumOf, BalanceOf, BucketsAdd, AllBucketsAdd;
    var ts, v' := e.meta.timestamp, Step(l, engines, e).vault;
    match e
    case Deposited(_, user, amount) =>
      var u := UserAt(l.users, user, ts);
      TouchKeepsSums(l.vault, v', l.users, user,
                     u.(totalDeposited := u.totalDeposited + amount, depositCount := u.depositCount + 1,
                        lastActivityAt := ts), ts);
    case Withdrawn(_, user, amount) =>
      var u := UserAt(l.users, user, ts);
      TouchKeepsSums(l.vault, v', l.users, user,
                     u.(totalWithdrawn := u.totalWithdrawn + amount, withdrawalCount := u.withdrawalCount + 1,
                        lastActivityAt := ts), ts);
    case BadDebt(_, payer, _, _, _) =>
      TouchKeepsSums(l.vault, v', l.users, payer, UserAt(l.users, payer, ts).(lastActivityAt := ts), ts);
    case _ =>
  }

  lemma {:induction false} OthersKeepDebt(l: Ledger, engines: Engines, e: Event)
    requires !e.Transfer? && Emittable(e) && DebtAdds(l.vault)
    ensures DebtAdds(Step(l, engines, e).vault)
  {
  }

  lemma {:induction false} OthersKeep(l: Ledger, engines: Engines, e: Event)
    requires !e.Transfer? && Emittable(e) && Conserved(l)
    ensures Conserved(Step(l, engines, e))
  {
    hide Step, BalancesAdd, InflowsAdd, DebtAdds;
    OthersKeepSums(l, engines, e);
    OthersKeepDebt(l, engines, e);
  }

  lemma {:induction false} StepKeeps(l: Ledger, engines: Engines, e: Event)
    requires Emittable(e) && Conserved(l)
    ensures Conserved(Step(l, engines, e))
  {
    if e.Transfer? {
      TransferKeeps(l, engines, e);
    } else {
      OthersKeep(l, engines, e);
    }
  }

  function Run(l: Ledger, engines: Engines, events: seq<Event>): Ledger {
    if events == [] then l else Step(Run(l, engines, events[..|events| - 1]), engines, events[|events| - 1])
  }

  lemma {:induction false} SumOfNothing<T>(rows: map<Address, T>, f: T -> int)
    requires rows == map[]
    ensures SumOf(rows, f) == 0
  {
  }

  lemma {:induction false} EmptyIsConserved(l: Ledger)
    requires l.vault == NEW_VAULT && l.users == map[]
    ensures Conserved(l)
  {
    hide SumOf;
    SumOfNothing(l.users, BALANCE);
    SumOfNothing(l.users, NET);
  }

  /** Over every run of events from the empty store. */
  lemma {:induction false} EveryRunIsConserved(engines: Engines, events: seq<Event>)
    requires forall e :: e in events ==> Emittable(e)
    ensures Conserved(Run(EMPTY, engines, events))
  {
    hide Conserved, Step;
    if events == [] {
      EmptyIsConserved(EMPTY);
    } else {
      EveryRunIsConserved(engines, events[..|events| - 1]);
      StepKeeps(Run(EMPTY, engines, events[..|events| - 1]), engines, events[|events| - 1]);
    }
  }

  // ── Runs of the contract's shape ─────────────────────────────────────────

  /** One action of the vault contract, and the events it emits together. */
  datatype Action =
    | Deposit(meta: Meta, user: Address, amount: int)
    | Withdraw(meta: Meta, user: Address, amount: int)
    | Borrow(meta: Meta, user: Address, amount: int)
    | Internal(meta: Meta, from: Address, to: Address, amount: int)
    | FundBurn(meta: Meta, amount: int)
    | Notice(event: Event)

  function EventsOf(a: Action): seq<Event> {
    match a
    case Deposit(m, user, amount) => [Deposited(m, user, amount), Transfer(m, ZERO, user, amount)]
    case Withdraw(m, user, amount) => [Transfer(m, user, ZERO, amount), Withdrawn(m, user, amount)]
    case Borrow(m, user, amount) => [Transfer(m, ZERO, user, amount)]
    case Internal(m, from, to, amount) => [Transfer(m, from, to, amount)]
    case FundBurn(m, amount) => [Transfer(m, FUND, ZERO, amount)]
    case Notice(e) => [e]
  }

  ghost predicate Performable(a: Action) {
    match a
    case Deposit(m, user, amount) => m.txHash != "" && user != ZERO && amount >= 0
    case Withdraw(_, user, amount) => user != ZERO && amount >= 0
    case Borrow(_, user, amount) => user != ZERO && user != FUND && amount >= 0
    case Internal(_, from, to, amount) => from != ZERO && to != ZERO && amount >= 0
    case FundBurn(_, amount) => amount >= 0
    case Notice(e) => !e.Transfer? && !e.Deposited? && !e.Withdrawn? && Emittable(e)
  }

  /** Balance explained by deposits, withdrawals and internal inflow. */
  ghost predicate Explained(u: VaultUser) {
    u.balance == u.totalDeposited - u.totalWithdrawn + u.netInternalIn
  }

  /** Between transactions: no deposit mark is open, and every account but the fund is explained. */
  ghost predicate AtBoundary(l: Ledger) {
    && l.vault.pendingDepositTx == ""
    && (forall a :: a in l.users && a != FUND ==> Explained(l.users[a]))
  }

  /** How far the account is from being explained. */
  function Unexplained(users: map<Address, VaultUser>, a: Address): int {
    if a in users then users[a].balance - users[a].totalDeposited + users[a].totalWithdrawn - users[a].netInternalIn
      else 0
  }

  lemma {:induction false} CreditedExplains(users: map<Address, VaultUser>, a: Address, amount: int, ts: int)
    ensures forall x ::
            Unexplained(Credited(users, a, amount, ts), x) == Unexplained(users, x) + (if x == a then amount else 0)
  {
  }

  lemma {:induction false} BumpedExplains(users: map<Address, VaultUser>, a: Address, category: Category, delta: int)
    ensures forall x ::
            Unexplained(Bumped(users, a, category, delta), x)
            == Unexplained(users, x) - (if x == a && a in users then delta else 0)
  {
  }

  /** A transfer leaves both ends explained unless it mints a marked deposit or burns. */
  lemma {:induction false} TransferExplains(l: Ledger, engines: Engines, e: Event)
    requires e.Transfer? && Emittable(e)
    ensures forall x :: Unexplained(TransferredUsers(l, engines, e), x) == Unexplained(l.users, x)
              - (if e.to == ZERO && x == e.from then e.value else 0)
              + (if e.from == ZERO && x == e.to && !IsBorrow(l.vault, e) then e.value else 0)
    ensures TransferredVault(l, e).pendingDepositTx == if e.from == ZERO &&
            IsMarked(l.vault, e.meta, e.to, e.value) then "" else l.vault.pendingDepositTx
  {
    hide Unexplained, Credited, Bumped, CategoryOf, NewRows, IsMarked;
    var ts, category := e.meta.timestamp, CategoryOf(engines, e.meta.txTo);
    CreditedIn(l.users, e.from, -e.value, ts);
    CreditedExplains(l.users, e.from, -e.value, ts);
    var debited := Leg(l.users, e.from, -e.value, ts);
    CreditedIn(debited, e.to, e.value, ts);
    CreditedExplains(debited, e.to, e.value, ts);
    var moved := Leg(debited, e.to, e.value, ts);
    BumpedExplains(moved, e.from, category, -e.value);
    BumpedIn(moved, e.from, category, -e.value);
    BumpedExplains(moved, e.to, category, e.value);
    BumpedExplains(Bumped(moved, e.from, category, -e.value), e.to, category, e.value);
  }

  lemma {:induction false} CreditedIn(users: map<Address, VaultUser>, a: Address, amount: int, ts: int)
    ensures a in Credited(users, a, amount, ts) && forall x :: x in users ==> x in Credited(users, a, amount, ts)
  {
  }

  lemma {:induction false} BumpedIn(users: map<Address, VaultUser>, a: Address, category: Category, delta: int)
    ensures Bumped(users, a, category, delta).Keys == users.Keys
  {
  }

  function Perform(l: Ledger, engines: Engines, a: Action): Ledger {
    Run(l, engines, EventsOf(a))
  }

  lemma {:induction false} BoundaryIs(l: Ledger)
    ensures AtBoundary(l) <==> l.vault.pendingDepositTx == "" && forall a :: a != FUND ==> Unexplained(l.users, a) == 0
  {
    if l.vault.pendingDepositTx == "" && forall a :: a != FUND ==> Unexplained(l.users, a) == 0 {
      forall a | a in l.users && a != FUND ensures Explained(l.users[a]) {
        assert Unexplained(l.users, a) == 0;
      }
    }
  }

  lemma {:induction false} RunOne(l: Ledger, engines: Engines, e: Event)
    ensures Run(l, engines, [e]) == Step(l, engines, e)
  {
    assert [e][..0] == [];
    assert Run(l, engines, []) == l;
  }

  lemma {:induction false} RunTwo(l: Ledger, engines: Engines, e: Event, f: Event)
    ensures Run(l, engines, [e, f]) == Step(Step(l, engines, e), engines, f)
  {
    assert [e, f][..1] == [e];
    RunOne(l, engines, e);
  }

  lemma {:induction false} NoticeExplains(l: Ledger, engines: Engines, e: Event)
    requires !e.Transfer? && !e.Deposited? && !e.Withdrawn?
    ensures forall x :: Unexplained(Step(l, engines, e).users, x) == Unexplained(l.users, x)
    ensures Step(l, engines, e).vault.pendingDepositTx == l.vault.pendingDepositTx
  {
  }

  lemma {:induction false} MarkersExplain(l: Ledger, engines: Engines, e: Event)
    requires e.Deposited? || e.Withdrawn?
    ensures forall x ::
            Unexplained(Step(l, engines, e).users, x)
            == Unexplained(l.users, x) + (if x == e.user then if e.Deposited? then -e.amount else e.amount else 0)
    ensures var v := Step(l, engines, e).vault;
            if e.Deposited? then v.pendingDepositTx == e.meta.txHash && v.pendingDepositUser == e.user &&
              v.pendingDepositAmount == e.amount
            else v.pendingDepositTx == l.vault.pendingDepositTx
  {
  }

  /** Every action of the contract leads from one boundary to the next. */
  lemma {:induction false} ActionKeepsBoundary(l: Ledger, engines: Engines, a: Action)
    requires Performable(a) && AtBoundary(l)
    ensures AtBoundary(Perform(l, engines, a))
  {
    hide Unexplained, Step, AtBoundary;
    BoundaryIs(l);
    BoundaryIs(Perform(l, engines, a));
    var events := EventsOf(a);
    if |events| == 1 {
      assert events == [events[0]];
      RunOne(l, engines, events[0]);
      if a.Notice? {
        NoticeExplains(l, engines, events[0]);
      } else {
        StepOfTransfer(l, engines, events[0]);
        TransferExplains(l, engines, events[0]);
      }
    } else {
      assert events == [events[0], events[1]];
      RunTwo(l, engines, events[0], events[1]);
      var middle := Step(l, engines, events[0]);
      if a.Deposit? {
        MarkersExplain(l, engines, events[0]);
        StepOfTransfer(middle, engines, events[1]);
        TransferExplains(middle, engines, events[1]);
      } else {
        StepOfTransfer(l, engines, events[0]);
        TransferExplains(l, engines, events[0]);
        MarkersExplain(middle, engines, events[1]);
      }
    }
  }

  lemma {:induction false} StepOfTransfer(l: Ledger, engines: Engines, e: Event)
    requires e.Transfer?
    ensures Step(l, engines, e) == Ledger(TransferredVault(l, e), TransferredUsers(l, engines, e), l.venues)
  {
  }

  function PerformAll(engines: Engines, actions: seq<Action>): Ledger {
    if actions == [] then EMPTY else Perform(PerformAll(engines, actions[..|actions| - 1]), engines,
                                             actions[|actions| - 1])
  }

  /** After every run of contract actions: all conservation laws, and every account but the fund explained. */
  lemma {:induction false} EveryContractRunIsExplained(engines: Engines, actions: seq<Action>)
    requires forall a :: a in actions ==> Performable(a)
    ensures Conserved(PerformAll(engines, actions)) && AtBoundary(PerformAll(engines, actions))
  {
    hide Conserved, AtBoundary, Step;
    if actions == [] {
      EmptyIsConserved(EMPTY);
      BoundaryIs(EMPTY);
    } else {
      var before, a := PerformAll(engines, actions[..|actions| - 1]), actions[|actions| - 1];
      EveryContractRunIsExplained(engines, actions[..|actions| - 1]);
      ActionKeepsBoundary(before, engines, a);
      ActionKeepsConserved(before, engines, a);
    }
  }

  lemma {:induction false} ActionKeepsConserved(l: Ledger, engines: Engines, a: Action)
    requires Performable(a) && Conserved(l)
    ensures Conserved(Perform(l, engines, a))
  {
    hide Conserved, Step;
    var events := EventsOf(a);
    StepKeeps(l, engines, events[0]);
    if |events| == 1 {
      assert events == [events[0]];
      RunOne(l, engines, events[0]);
    } else {
      assert events == [events[0], events[1]];
      RunTwo(l, engines, events[0], events[1]);
      StepKeeps(Step(l, engines, events[0]), engines, events[1]);
    }
  }
}
