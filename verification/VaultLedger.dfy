/**
 The vault indexer (indexer/src/vault.ts): event handlers that load, change and save the
 vault, user and venue entities. `Step` is the specification of one event; the class
 computes it field by field.
 */
module VaultLedger {
  import opened Optional

  type Address = nat
  type Hash = string

  const ZERO: Address := 0
  const FUND: Address := 0xaaaaaaaaaaaaaaaaaaaaaaaaaaaaaaaaaaaaaaaa
  const BACKSTOP: Address := 0xbbbbbbbbbbbbbbbbbbbbbbbbbbbbbbbbbbbbbbbb

  datatype Category = Perps | Options | Other

  datatype Engines = Engines(perps: Address, options: Address)

  datatype VaultUser = VaultUser(
    balance: int, totalDeposited: int, totalWithdrawn: int,
    netInternalIn: int, netFromPerps: int, netFromOptions: int, netFromOther: int,
    depositCount: int, withdrawalCount: int, createdAt: int, lastActivityAt: int)

  datatype VaultVenue = VaultVenue(traderBadDebtTotal: int, backstopBadDebtTotal: int, feeBadDebtTotal: int)

  datatype Vault = Vault(
    totalDeposited: int, totalWithdrawn: int, depositCount: int, withdrawalCount: int,
    insuranceFundDeposited: int, insuranceFundWithdrawn: int,
    totalSupply: int, insuranceFundBalance: int, backstopBalance: int, backstopWithdrawn: int,
    totalUsers: int, internalTransferCount: int,
    insuranceDebt: int, insuranceDebtBorrowedTotal: int, insuranceDebtRepaidTotal: int, insuranceDebtSince: int,
    traderBadDebtTotal: int, backstopBadDebtTotal: int, insuranceCapital: int,
    uncoveredLoss: int, timingDebt: int,
    pendingDepositTx: Hash, pendingDepositUser: Address, pendingDepositAmount: int,
    initializedAt: int, lastUpdatedAt: int)

  const NEW_VAULT: Vault := Vault(0, 0, 0, 0, 0, 0, 0, 0, 0, 0, 0, 0, 0, 0, 0, 0, 0, 0, 0, 0, 0, "", ZERO, 0, 0, 0)

  datatype Ledger = Ledger(vault: Vault, users: map<Address, VaultUser>, venues: map<Address, VaultVenue>)

  const EMPTY: Ledger := Ledger(NEW_VAULT, map[], map[])

  /** The transaction an event belongs to. */
  datatype Meta = Meta(txHash: Hash, txTo: Option<Address>, timestamp: int)

  datatype Event =
    | Transfer(meta: Meta, from: Address, to: Address, value: int)
    | Deposited(meta: Meta, user: Address, amount: int)
    | Withdrawn(meta: Meta, user: Address, amount: int)
    | InsuranceFundDeposited(meta: Meta, amount: int)
    | InsuranceFundWithdrawn(meta: Meta, amount: int)
    | BadDebt(meta: Meta, payer: Address, receiver: Address, amount: int, venue: Address)
    | BackstopWithdrawn(meta: Meta, amount: int)
    | Initialized(meta: Meta, version: int, capital: Option<int>)

  // ── Specification ────────────────────────────────────────────────────────

  function Max0(x: int): int {
    if x < 0 then 0 else x
  }

  function CategoryOf(engines: Engines, txTo: Option<Address>): Category {
    if txTo.None? then Other
    else if engines.perps != ZERO && txTo.value == engines.perps then Perps
    else if engines.options != ZERO && txTo.value == engines.options then Options
    else Other
  }

  function UserAt(users: map<Address, VaultUser>, a: Address, timestamp: int): VaultUser {
    if a in users then users[a] else VaultUser(0, 0, 0, 0, 0, 0, 0, 0, 0, timestamp, timestamp)
  }

  function BalanceOf(users: map<Address, VaultUser>, a: Address): int {
    if a in users then users[a].balance else 0
  }

  function Paid(u: VaultUser, amount: int, timestamp: int): VaultUser {
    u.(balance := u.balance + amount, lastActivityAt := timestamp)
  }

  function Credited(users: map<Address, VaultUser>, a: Address, amount: int, timestamp: int): map<Address, VaultUser> {
    users[a := Paid(UserAt(users, a, timestamp), amount, timestamp)]
  }

  /** One leg of a transfer: the zero address has no row to credit. */
  function Leg(users: map<Address, VaultUser>, a: Address, amount: int, ts: int): map<Address, VaultUser> {
    if a == ZERO then users else Credited(users, a, amount, ts)
  }

  /** Move the combined inflow and the bucket of its category; skip unknown users. */
  function Bumped(users: map<Address, VaultUser>, a: Address, category: Category, delta: int): map<Address, VaultUser> {
    if a !in users then users
    else
      var u := users[a].(netInternalIn := users[a].netInternalIn + delta);
      users[a := match category
                 case Perps => u.(netFromPerps := u.netFromPerps + delta)
                 case Options => u.(netFromOptions := u.netFromOptions + delta)
                 case Other => u.(netFromOther := u.netFromOther + delta)]
  }

  /** The loss capital cannot cover; negative capital adds to it, unclamped. */
  function Uncovered(v: Vault): int {
    var gap := v.traderBadDebtTotal - v.insuranceCapital;
    if v.insuranceCapital < 0 then gap else Max0(gap)
  }

  function Resplit(v: Vault): Vault {
    v.(uncoveredLoss := Uncovered(v), timingDebt := Max0(v.insuranceDebt - Uncovered(v)))
  }

  function WithDebt(v: Vault, debtAfter: int, timestamp: int): Vault {
    var since := if debtAfter == 0 then 0 else if v.insuranceDebt == 0 &&
      debtAfter > 0 then timestamp else v.insuranceDebtSince;
    Resplit(v.(insuranceDebt := debtAfter, insuranceDebtSince := since))
  }

  predicate IsMarked(v: Vault, meta: Meta, recipient: Address, amount: int) {
    v.pendingDepositTx != "" && v.pendingDepositTx == meta.txHash && v.pendingDepositUser == recipient &&
      v.pendingDepositAmount == amount
  }

  /** A mint no deposit marked, to anyone but the fund. */
  predicate IsBorrow(v: Vault, e: Event)
    requires e.Transfer?
  {
    e.from == ZERO && !IsMarked(v, e.meta, e.to, e.value) && e.to != FUND
  }

  /** A burn from the fund, up to the open debt. */
  predicate IsRepay(v: Vault, e: Event)
    requires e.Transfer?
  {
    e.from == FUND && e.to == ZERO && v.insuranceDebt != 0 && e.value <= v.insuranceDebt
  }

  function TransferredUsers(l: Ledger, engines: Engines, e: Event): map<Address, VaultUser>
    requires e.Transfer?
  {
    var ts := e.meta.timestamp;
    var credited := Leg(Leg(l.users, e.from, -e.value, ts), e.to, e.value, ts);
    var category := CategoryOf(engines, e.meta.txTo);
    if e.from != ZERO && e.to != ZERO then Bumped(Bumped(credited, e.from, category, -e.value), e.to, category, e.value)
    else if IsBorrow(l.vault, e) then Bumped(credited, e.to, category, e.value)
    else credited
  }

  function Delta(cond: bool, amount: int): int {
    if cond then amount else 0
  }

  /** The real accounts a transfer sees for the first time. */
  function NewRows(users: map<Address, VaultUser>, from: Address, to: Address): set<Address> {
    set a | a in {from, to} && a != ZERO && a !in users
  }

  function TransferredVault(l: Ledger, e: Event): Vault
    requires e.Transfer?
  {
    var v := l.vault;
    var moved := v.(
      totalSupply := v.totalSupply + Delta(e.from == ZERO, e.value) - Delta(e.to == ZERO, e.value),
      insuranceFundBalance := v.insuranceFundBalance - Delta(e.from == FUND, e.value) + Delta(e.to == FUND, e.value),
      backstopBalance := v.backstopBalance - Delta(e.from == BACKSTOP, e.value) + Delta(e.to == BACKSTOP, e.value),
      totalUsers := v.totalUsers + |NewRows(l.users, e.from, e.to)|,
      internalTransferCount := v.internalTransferCount + Delta(e.from != ZERO && e.to != ZERO, 1));
    var cleared := if e.from == ZERO && IsMarked(v, e.meta, e.to, e.value)
                   then moved.(pendingDepositTx := "", pendingDepositUser := ZERO, pendingDepositAmount := 0)
                     else moved;
    var settled :=
      if IsBorrow(v, e) then
        WithDebt(cleared.(insuranceDebtBorrowedTotal := v.insuranceDebtBorrowedTotal + e.value),
                 v.insuranceDebt + e.value, e.meta.timestamp)
      else if IsRepay(v, e) then
        WithDebt(cleared.(insuranceDebtRepaidTotal := v.insuranceDebtRepaidTotal + e.value),
                 v.insuranceDebt - e.value, e.meta.timestamp)
      else cleared;
    settled.(lastUpdatedAt := e.meta.timestamp)
  }

  function VenueAt(venues: map<Address, VaultVenue>, a: Address): VaultVenue {
    if a in venues then venues[a] else VaultVenue(0, 0, 0)
  }

  function Step(l: Ledger, engines: Engines, e: Event): Ledger {
    var v, ts := l.vault.(lastUpdatedAt := e.meta.timestamp), e.meta.timestamp;
    match e
    case Transfer(_, _, _, _) =>
      Ledger(TransferredVault(l, e), TransferredUsers(l, engines, e), l.venues)
    case Deposited(_, user, amount) =>
      var u := UserAt(l.users, user, ts);
      l.(users := l.users[user := u.(totalDeposited := u.totalDeposited + amount, depositCount := u.depositCount + 1,
                                     lastActivityAt := ts)],
         vault := v.(totalDeposited := v.totalDeposited + Delta(user != FUND, amount),
                     depositCount := v.depositCount + Delta(user != FUND, 1),
                     totalUsers := v.totalUsers + Delta(user !in l.users, 1),
                     pendingDepositTx := e.meta.txHash, pendingDepositUser := user, pendingDepositAmount := amount))
    case Withdrawn(_, user, amount) =>
      var u := UserAt(l.users, user, ts);
      var ordinary := user != FUND && user != BACKSTOP;
      l.(users := l.users[user := u.(totalWithdrawn := u.totalWithdrawn + amount,
                                     withdrawalCount := u.withdrawalCount + 1, lastActivityAt := ts)],
         vault := v.(totalWithdrawn := v.totalWithdrawn + Delta(ordinary, amount),
                     withdrawalCount := v.withdrawalCount + Delta(ordinary, 1),
                     totalUsers := v.totalUsers + Delta(user !in l.users, 1)))
    case InsuranceFundDeposited(_, amount) =>
      l.(vault := Resplit(v.(insuranceFundDeposited := v.insuranceFundDeposited + amount,
                             insuranceCapital := v.insuranceCapital + amount)))
    case InsuranceFundWithdrawn(_, amount) =>
      l.(vault := Resplit(v.(insuranceFundWithdrawn := v.insuranceFundWithdrawn + amount,
                             insuranceCapital := v.insuranceCapital - amount)))
    case BadDebt(_, payer, receiver, amount, venue) =>
      var reserve, backstop := receiver == FUND, payer == BACKSTOP;
      var row := VenueAt(l.venues, venue);
      var v' := v.(totalUsers := v.totalUsers + Delta(payer !in l.users, 1));
      Ledger(
        if reserve then Resplit(v'.(traderBadDebtTotal := v.traderBadDebtTotal + amount,
                                    backstopBadDebtTotal := v.backstopBadDebtTotal + Delta(backstop, amount))) else v',
        l.users[payer := UserAt(l.users, payer, ts).(lastActivityAt := ts)],
        l.venues[venue := row.(traderBadDebtTotal := row.traderBadDebtTotal + Delta(reserve, amount),
                               backstopBadDebtTotal := row.backstopBadDebtTotal + Delta(reserve && backstop, amount),
                               feeBadDebtTotal := row.feeBadDebtTotal + Delta(!reserve, amount))])
    case BackstopWithdrawn(_, amount) =>
      l.(vault := v.(backstopWithdrawn := v.backstopWithdrawn + amount))
    case Initialized(_, version, capital) =>
      var started := v.(initializedAt := ts);
      l.(vault := if version == 2 && capital.Some? then Resplit(started.(insuranceCapital := capital.value))
         else started)
  }

  // ── The handlers ─────────────────────────────────────────────────────────

  class Indexer {
    const engines: Engines
    var vault: Vault
    var users: map<Address, VaultUser>
    var venues: map<Address, VaultVenue>

    function State(): Ledger
      reads this
    {
      Ledger(vault, users, venues)
    }

    constructor (engines: Engines)
      ensures State() == EMPTY && this.engines == engines
    {
      this.engines := engines;
      vault, users, venues := NEW_VAULT, map[], map[];
    }

    /** Case by case, on the entity it is handed. */
    static method RecomputeDebtSplit(v: Vault) returns (r: Vault)
      ensures r == Resplit(v)
    {
      var uncovered: int;
      if v.insuranceCapital < 0 {
        uncovered := v.traderBadDebtTotal + -v.insuranceCapital;
      } else if v.traderBadDebtTotal <= v.insuranceCapital {
        uncovered := 0;
      } else {
        uncovered := v.traderBadDebtTotal - v.insuranceCapital;
      }
      r := v.(uncoveredLoss := uncovered);
      if r.insuranceDebt <= uncovered {
        r := r.(timingDebt := 0);
      } else {
        r := r.(timingDebt := r.insuranceDebt - uncovered);
      }
    }

    static method NoteDebtOpened(v: Vault, previous: int, debtAfter: int, timestamp: int) returns (r: Vault)
      ensures r == v.(insuranceDebtSince := if debtAfter == 0 then 0 else if previous == 0 &&
                      debtAfter > 0 then timestamp else v.insuranceDebtSince)
    {
      r := v;
      if previous == 0 && debtAfter > 0 { r := r.(insuranceDebtSince := timestamp); }
      if debtAfter == 0 { r := r.(insuranceDebtSince := 0); }
    }

    method BumpCategoryNet(a: Address, category: Category, delta: int)
      modifies this`users
      ensures users == Bumped(old(users), a, category, delta)
    {
      if a !in users { return; }
      var user := users[a];
      user := user.(netInternalIn := user.netInternalIn + delta);
      match category {
        case Perps => user := user.(netFromPerps := user.netFromPerps + delta);
        case Options => user := user.(netFromOptions := user.netFromOptions + delta);
        case Other => user := user.(netFromOther := user.netFromOther + delta);
      }
      users := users[a := user];
    }

    method NoteBorrow(v: Vault, meta: Meta, recipient: Address, amount: int) returns (r: Vault)
      modifies this`users
      ensures r == WithDebt(v.(insuranceDebtBorrowedTotal := v.insuranceDebtBorrowedTotal + amount),
                            v.insuranceDebt + amount, meta.timestamp)
      ensures users == Bumped(old(users), recipient, CategoryOf(engines, meta.txTo), amount)
    {
      var previous := v.insuranceDebt;
      var debtAfter := previous + amount;
      r := v.(insuranceDebt := debtAfter, insuranceDebtBorrowedTotal := v.insuranceDebtBorrowedTotal + amount);
      r := NoteDebtOpened(r, previous, debtAfter, meta.timestamp);
      r := RecomputeDebtSplit(r);
      BumpCategoryNet(recipient, CategoryOf(engines, meta.txTo), amount);
    }

    static method NoteRepay(v: Vault, meta: Meta, amount: int) returns (r: Vault)
      ensures r == if v.insuranceDebt == 0 || amount > v.insuranceDebt then v
                   else WithDebt(v.(insuranceDebtRepaidTotal := v.insuranceDebtRepaidTotal + amount),
                                 v.insuranceDebt - amount, meta.timestamp)
    {
      var previous := v.insuranceDebt;
      if previous == 0 || amount > previous { return v; }
      var debtAfter := previous - amount;
      r := v.(insuranceDebt := debtAfter, insuranceDebtRepaidTotal := v.insuranceDebtRepaidTotal + amount);
      r := NoteDebtOpened(r, previous, debtAfter, meta.timestamp);
      r := RecomputeDebtSplit(r);
    }

    static method ConsumePendingDeposit(v: Vault, meta: Meta, recipient: Address, amount: int)
      returns (r: Vault, matched: bool)
      ensures matched <==> IsMarked(v, meta, recipient, amount)
      ensures r == if matched then v.(pendingDepositTx := "", pendingDepositUser := ZERO, pendingDepositAmount := 0)
              else v
    {
      if |v.pendingDepositTx| == 0 { return v, false; }
      if !(v.pendingDepositTx == meta.txHash && v.pendingDepositUser == recipient &&
           v.pendingDepositAmount == amount) { return v, false; }
      return v.(pendingDepositTx := "", pendingDepositUser := ZERO, pendingDepositAmount := 0), true;
    }

    /** Load or create a row, add to its balance, save it, and count it if new. */
    method MoveBalance(v: Vault, a: Address, amount: int, timestamp: int) returns (r: Vault)
      modifies this`users
      ensures users == Credited(old(users), a, amount, timestamp)
      ensures r == v.(totalUsers := v.totalUsers + Delta(a !in old(users), 1))
    {
      var isNew := a !in users;
      var user := UserAt(users, a, timestamp);
      user := user.(balance := user.balance + amount);
      user := user.(lastActivityAt := timestamp);
      users := users[a := user];
      r := if isNew then v.(totalUsers := v.totalUsers + 1) else v;
    }

    /** The balance legs of a transfer: a mint has no sender row, a burn no recipient row. */
    method MoveBalances(v0: Vault, from: Address, to: Address, amount: int, ts: int) returns (v: Vault)
      modifies this`users
      ensures users == Leg(Leg(old(users), from, -amount, ts), to, amount, ts)
      ensures v == v0.(totalSupply := v0.totalSupply + Delta(from == ZERO, amount) - Delta(to == ZERO, amount),
                       totalUsers := v0.totalUsers + |NewRows(old(users), from, to)|)
    {
      ghost var before := users;
      v := v0;
      if from != ZERO {
        v := MoveBalance(v, from, -amount, ts);
      } else {
        v := v.(totalSupply := v.totalSupply + amount);
      }
      if to != ZERO {
        v := MoveBalance(v, to, amount, ts);
      } else {
        v := v.(totalSupply := v.totalSupply - amount);
      }
      CountNewRows(before, from, to, -amount, ts);
    }

    /** The fund's and the backstop's own balances, kept on the vault row. */
    static method MirrorProtocolBalances(v0: Vault, from: Address, to: Address, amount: int) returns (v: Vault)
      ensures v == v0.(insuranceFundBalance := v0.insuranceFundBalance - Delta(from == FUND, amount) +
                       Delta(to == FUND, amount),
                       backstopBalance := v0.backstopBalance - Delta(from == BACKSTOP, amount) +
                         Delta(to == BACKSTOP, amount))
    {
      v := v0;
      if from == FUND { v := v.(insuranceFundBalance := v.insuranceFundBalance - amount); }
      if to == FUND { v := v.(insuranceFundBalance := v.insuranceFundBalance + amount); }
      if from == BACKSTOP { v := v.(backstopBalance := v.backstopBalance - amount); }
      if to == BACKSTOP { v := v.(backstopBalance := v.backstopBalance + amount); }
    }

    method HandleTransfer(e: Event)
      requires e.Transfer?
      modifies this
      ensures State() == Step(old(State()), engines, e)
    {
      hide NewRows, Leg, Bumped, WithDebt, CategoryOf;
      var from, to, amount, ts := e.from, e.to, e.value, e.meta.timestamp;
      var isMint, isBurn := from == ZERO, to == ZERO;
      var v := MoveBalances(vault, from, to, amount, ts);
      v := MirrorProtocolBalances(v, from, to, amount);
      if !isMint && !isBurn {
        var category := CategoryOf(engines, e.meta.txTo);
        BumpCategoryNet(from, category, -amount);
        BumpCategoryNet(to, category, amount);
        v := v.(internalTransferCount := v.internalTransferCount + 1);
      }
      if isMint {
        var matched: bool;
        v, matched := ConsumePendingDeposit(v, e.meta, to, amount);
        if !matched && to != FUND {
          v := NoteBorrow(v, e.meta, to, amount);
        }
      }
      if from == FUND && isBurn {
        v := NoteRepay(v, e.meta, amount);
      }
      vault := v.(lastUpdatedAt := ts);
    }

    method HandleDeposited(e: Event)
      requires e.Deposited?
      modifies this
      ensures State() == Step(old(State()), engines, e)
    {
      var recipient, amount, ts := e.user, e.amount, e.meta.timestamp;
      var isInsuranceFund := recipient == FUND;
      var isNewUser := recipient !in users;
      var user := UserAt(users, recipient, ts);
      user := user.(totalDeposited := user.totalDeposited + amount);
      user := user.(depositCount := user.depositCount + 1);
      user := user.(lastActivityAt := ts);
      users := users[recipient := user];
      var v := vault;
      if !isInsuranceFund {
        v := v.(totalDeposited := v.totalDeposited + amount, depositCount := v.depositCount + 1);
      }
      if isNewUser { v := v.(totalUsers := v.totalUsers + 1); }
      v := v.(pendingDepositTx := e.meta.txHash, pendingDepositUser := recipient, pendingDepositAmount := amount,
              lastUpdatedAt := ts);
      vault := v;
    }

    method HandleWithdrawn(e: Event)
      requires e.Withdrawn?
      modifies this
      ensures State() == Step(old(State()), engines, e)
    {
      var owner, amount, ts := e.user, e.amount, e.meta.timestamp;
      var isInsuranceFund, isBackstop := owner == FUND, owner == BACKSTOP;
      var isNewUser := owner !in users;
      var user := UserAt(users, owner, ts);
      user := user.(totalWithdrawn := user.totalWithdrawn + amount);
      user := user.(withdrawalCount := user.withdrawalCount + 1);
      user := user.(lastActivityAt := ts);
      users := users[owner := user];
      var v := vault;
      if !isInsuranceFund && !isBackstop {
        v := v.(totalWithdrawn := v.totalWithdrawn + amount, withdrawalCount := v.withdrawalCount + 1);
      }
      if isNewUser { v := v.(totalUsers := v.totalUsers + 1); }
      vault := v.(lastUpdatedAt := ts);
    }

    method HandleInsuranceFundDeposited(e: Event)
      requires e.InsuranceFundDeposited?
      modifies this
      ensures State() == Step(old(State()), engines, e)
    {
      var v := vault;
      v := v.(insuranceFundDeposited := v.insuranceFundDeposited + e.amount);
      v := v.(insuranceCapital := v.insuranceCapital + e.amount);
      v := RecomputeDebtSplit(v);
      vault := v.(lastUpdatedAt := e.meta.timestamp);
    }

    method HandleInsuranceFundWithdrawn(e: Event)
      requires e.InsuranceFundWithdrawn?
      modifies this
      ensures State() == Step(old(State()), engines, e)
    {
      var v := vault;
      v := v.(insuranceFundWithdrawn := v.insuranceFundWithdrawn + e.amount);
      v := v.(insuranceCapital := v.insuranceCapital - e.amount);
      v := RecomputeDebtSplit(v);
      vault := v.(lastUpdatedAt := e.meta.timestamp);
    }

    method HandleBadDebt(e: Event)
      requires e.BadDebt?
      modifies this
      ensures State() == Step(old(State()), engines, e)
    {
      var payer, amount, ts := e.payer, e.amount, e.meta.timestamp;
      var isReserveLoss, isBackstop := e.receiver == FUND, payer == BACKSTOP;
      var isNewUser := payer !in users;
      users := users[payer := UserAt(users, payer, ts).(lastActivityAt := ts)];
      var venue := VenueAt(venues, e.venue);
      if isReserveLoss {
        venue := venue.(traderBadDebtTotal := venue.traderBadDebtTotal + amount);
        if isBackstop { venue := venue.(backstopBadDebtTotal := venue.backstopBadDebtTotal + amount); }
      } else {
        venue := venue.(feeBadDebtTotal := venue.feeBadDebtTotal + amount);
      }
      venues := venues[e.venue := venue];
      var v := vault;
      if isReserveLoss {
        v := v.(traderBadDebtTotal := v.traderBadDebtTotal + amount);
        if isBackstop { v := v.(backstopBadDebtTotal := v.backstopBadDebtTotal + amount); }
        v := RecomputeDebtSplit(v);
      }
      if isNewUser { v := v.(totalUsers := v.totalUsers + 1); }
      vault := v.(lastUpdatedAt := ts);
    }

    method HandleBackstopWithdrawn(e: Event)
      requires e.BackstopWithdrawn?
      modifies this
      ensures State() == Step(old(State()), engines, e)
    {
      vault := vault.(backstopWithdrawn := vault.backstopWithdrawn + e.amount, lastUpdatedAt := e.meta.timestamp);
    }

    /** An initialization; version 2 reads protocol capital from the contract, unless the read reverts. */
    method HandleInitialized(e: Event)
      requires e.Initialized?
      modifies this
      ensures State() == Step(old(State()), engines, e)
    {
      var v := vault.(initializedAt := e.meta.timestamp, lastUpdatedAt := e.meta.timestamp);
      if e.version == 2 && e.capital.Some? {
        v := v.(insuranceCapital := e.capital.value);
        v := RecomputeDebtSplit(v);
      }
      vault := v;
    }
  }

  lemma CountNewRows(users: map<Address, VaultUser>, from: Address, to: Address, amount: int, ts: int)
    ensures |NewRows(users, from, to)| == Delta(from != ZERO && from !in users, 1) +
            Delta(to != ZERO && to !in Leg(users, from, amount, ts), 1)
  {
    var first: set<Address> := if from != ZERO && from !in users then {from} else {};
    var second: set<Address> := if to != ZERO && to !in users && to != from then {to} else {};
    assert NewRows(users, from, to) == first + second && first !! second;
    assert |NewRows(users, from, to)| == |first| + |second|;
  }
}
