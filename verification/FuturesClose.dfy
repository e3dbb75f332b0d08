/**
 Simulating a batched futures close (simulateFuturesClose in portfolio-margin/src/solve.ts)
 and what it does to the account's equity.
 */
module FuturesClose {
  import opened Arithmetic
  import opened Margin

  datatype CloseLeg = CloseLeg(expirationAt: int, closeQty: int)

  ghost predicate DistinctExpiries(positions: seq<FuturesPosition>) {
    forall i, j :: 0 <= i < j < |positions| ==> positions[i].expirationAt != positions[j].expirationAt
  }

  // ── Simulating a close ───────────────────────────────────────────────────

  function AvgEntry(pos: FuturesPosition): int {
    var absNet := Abs(pos.netQuantity);
    if absNet == 0 then 0 else TruncDiv(Abs(pos.netEntryValue), absNet)
  }

  /** What a batch asks to close at one expiry, whatever the number of its legs. */
  function CloseTotal(closes: seq<CloseLeg>, expirationAt: int): int {
    if closes == [] then 0
    else
      var last := closes[|closes| - 1];
      CloseTotal(closes[..|closes| - 1], expirationAt) +
        (if last.expirationAt == expirationAt then last.closeQty else 0)
  }

  /** How many contracts of a leg a request really closes. */
  function Closing(pos: FuturesPosition, want: int): int {
    if want <= 0 then 0 else if want < Abs(pos.netQuantity) then want else Abs(pos.netQuantity)
  }

  /** The balance change of closing `closeAbs` contracts of a leg. */
  function LegProceeds(pos: FuturesPosition, closeAbs: int, currentPrice: int, liquidationFee: int): int {
    if closeAbs <= 0 then 0
    else
      (pos.Mark(currentPrice) - AvgEntry(pos)) * (if pos.netQuantity > 0 then closeAbs else -closeAbs) - liquidationFee
  }

  /** What is left of a leg, as zero or one positions. */
  function LegRemainder(pos: FuturesPosition, closeAbs: int): seq<FuturesPosition> {
    if closeAbs <= 0 then [pos]
    else if closeAbs >= Abs(pos.netQuantity) then []
    else
      var newAbs := Abs(pos.netQuantity) - closeAbs;
      [pos.(netQuantity := if pos.netQuantity > 0 then newAbs else -newAbs,
            netEntryValue := TruncDiv(pos.netEntryValue * newAbs, Abs(pos.netQuantity)))]
  }

  function Remaining(positions: seq<FuturesPosition>, closes: seq<CloseLeg>): seq<FuturesPosition> {
    if positions == [] then []
    else
      var last := positions[|positions| - 1];
      Remaining(positions[..|positions| - 1], closes) +
        LegRemainder(last, Closing(last, CloseTotal(closes, last.expirationAt)))
  }

  function Proceeds(positions: seq<FuturesPosition>, closes: seq<CloseLeg>, currentPrice: int,
                    liquidationFee: int): int {
    if positions == [] then 0
    else
      var last := positions[|positions| - 1];
      Proceeds(positions[..|positions| - 1], closes, currentPrice, liquidationFee) +
      LegProceeds(last, Closing(last, CloseTotal(closes, last.expirationAt)), currentPrice, liquidationFee)
  }

  function Simulated(snap: AccountSnapshot, closes: seq<CloseLeg>, currentPrice: int,
                     liquidationFee: int): AccountSnapshot {
    snap.(balance := snap.balance + Proceeds(snap.futures.positions, closes, currentPrice, liquidationFee),
          futures := snap.futures.(positions := Remaining(snap.futures.positions, closes)))
  }

  lemma NoLegs(closes: seq<CloseLeg>, currentPrice: int, liquidationFee: int)
    ensures Remaining([], closes) == [] && Proceeds([], closes, currentPrice, liquidationFee) == 0
  {
  }

  lemma OneMoreLeg(positions: seq<FuturesPosition>, i: nat, closes: seq<CloseLeg>, currentPrice: int,
                   liquidationFee: int)
    requires i < |positions|
    ensures var closing := Closing(positions[i], CloseTotal(closes, positions[i].expirationAt));
            && Remaining(positions[..i + 1], closes) == Remaining(positions[..i], closes) +
               LegRemainder(positions[i], closing)
            && Proceeds(positions[..i + 1], closes, currentPrice, liquidationFee)
            == Proceeds(positions[..i], closes, currentPrice, liquidationFee) +
              LegProceeds(positions[i], closing, currentPrice, liquidationFee)
  {
    assert positions[..i + 1][..i] == positions[..i];
  }

  /** The contracts asked for at each expiry. */
  method SumCloses(closes: seq<CloseLeg>) returns (closeByExpiry: map<int, int>)
    ensures forall e :: (if e in closeByExpiry then closeByExpiry[e] else 0) == CloseTotal(closes, e)
  {
    closeByExpiry := map[];
    for i := 0 to |closes|
      invariant forall e :: (if e in closeByExpiry then closeByExpiry[e] else 0) == CloseTotal(closes[..i], e)
    {
      assert closes[..i + 1][..i] == closes[..i];
      var c := closes[i];
      var sofar := if c.expirationAt in closeByExpiry then closeByExpiry[c.expirationAt] else 0;
      closeByExpiry := closeByExpiry[c.expirationAt := sofar + c.closeQty];
    }
    assert closes[..|closes|] == closes;
  }

  /** One leg: what is left of it, and what the balance gains. */
  method CloseLegOf(pos: FuturesPosition, want: int, currentPrice: int, liquidationFee: int)
    returns (left: seq<FuturesPosition>, gain: int)
    ensures left == LegRemainder(pos, Closing(pos, want))
    ensures gain == LegProceeds(pos, Closing(pos, want), currentPrice, liquidationFee)
  {
    if want <= 0 { return [pos], 0; }
    var absNet := Abs(pos.netQuantity);
    var closeAbs := if want < absNet then want else absNet;
    if closeAbs <= 0 { return [pos], 0; }
    var entry := AvgEntry(pos);
    var signedClose := if pos.netQuantity > 0 then closeAbs else -closeAbs;
    var pnl := (pos.Mark(currentPrice) - entry) * signedClose;
    gain := pnl - liquidationFee;
    if closeAbs >= absNet { return [], gain; }
    var newAbs := absNet - closeAbs;
    left := [FuturesPosition(pos.expirationAt, if pos.netQuantity > 0 then newAbs else -newAbs,
                             TruncDiv(pos.netEntryValue * newAbs, absNet), pos.settlementPrice)];
  }

  method SimulateFuturesClose(snap: AccountSnapshot, closes: seq<CloseLeg>, currentPrice: int, liquidationFee: int)
    returns (after: AccountSnapshot)
    ensures after == Simulated(snap, closes, currentPrice, liquidationFee)
  {
    hide CloseTotal, Remaining, Proceeds, Closing, LegRemainder, LegProceeds;
    var closeByExpiry := SumCloses(closes);
    var positions := snap.futures.positions;
    var remaining: seq<FuturesPosition> := [];
    var balanceDelta := 0;
    NoLegs(closes, currentPrice, liquidationFee);
    for i := 0 to |positions|
      invariant remaining == Remaining(positions[..i], closes)
      invariant balanceDelta == Proceeds(positions[..i], closes, currentPrice, liquidationFee)
    {
      OneMoreLeg(positions, i, closes, currentPrice, liquidationFee);
      var pos := positions[i];
      var want := if pos.expirationAt in closeByExpiry then closeByExpiry[pos.expirationAt] else 0;
      var left, gain := CloseLegOf(pos, want, currentPrice, liquidationFee);
      remaining, balanceDelta := remaining + left, balanceDelta + gain;
    }
    assert positions[..|positions|] == positions;
    after := snap.(balance := snap.balance + balanceDelta, futures := snap.futures.(positions := remaining));
  }

  /** A simulated close looks only at the total asked for at each expiry. */
  lemma {:induction false} SimulationSeesTotals(positions: seq<FuturesPosition>, closes: seq<CloseLeg>,
        closes': seq<CloseLeg>, currentPrice: int, liquidationFee: int)
    requires forall e :: CloseTotal(closes, e) == CloseTotal(closes', e)
    ensures Remaining(positions, closes) == Remaining(positions, closes')
    ensures Proceeds(positions, closes, currentPrice, liquidationFee)
            == Proceeds(positions, closes', currentPrice, liquidationFee)
  {
    if positions != [] {
      SimulationSeesTotals(positions[..|positions| - 1], closes, closes', currentPrice, liquidationFee);
    }
  }

  // ── What is left open ────────────────────────────────────────────────────

  /** The contracts open at one expiry. */
  function OpenAt(positions: seq<FuturesPosition>, expirationAt: int): int {
    if positions == [] then 0
    else
      var last := positions[|positions| - 1];
      OpenAt(positions[..|positions| - 1], expirationAt) +
        (if last.expirationAt == expirationAt then last.netQuantity else 0)
  }

  lemma {:induction false} OpenAtAppends(xs: seq<FuturesPosition>, ys: seq<FuturesPosition>, e: int)
    ensures OpenAt(xs + ys, e) == OpenAt(xs, e) + OpenAt(ys, e)
  {
    if ys == [] {
      assert xs + ys == xs;
    } else {
      OpenAtAppends(xs, ys[..|ys| - 1], e);
      assert (xs + ys)[..|xs + ys| - 1] == xs + ys[..|ys| - 1];
    }
  }

  lemma OpenAfter(pos: FuturesPosition, want: int)
    ensures OpenAt(LegRemainder(pos, Closing(pos, want)), pos.expirationAt)
         == if want <= 0 then pos.netQuantity
            else if want >= Abs(pos.netQuantity) then 0
            else if pos.netQuantity > 0 then pos.netQuantity - want else pos.netQuantity + want
    ensures forall e :: e != pos.expirationAt ==> OpenAt(LegRemainder(pos, Closing(pos, want)), e) == 0
  {
    var left := LegRemainder(pos, Closing(pos, want));
    if left != [] {
      assert left == [left[0]] && left[..0] == [] && OpenAt([], pos.expirationAt) == 0;
      assert forall e :: OpenAt(left[..0], e) == 0;
    }
  }

  lemma {:induction false} NothingOpensAt(positions: seq<FuturesPosition>, closes: seq<CloseLeg>, e: int)
    requires forall p :: p in positions ==> p.expirationAt != e
    ensures OpenAt(Remaining(positions, closes), e) == 0
  {
    if positions != [] {
      hide Closing, LegRemainder, CloseTotal;
      var last, init := positions[|positions| - 1], positions[..|positions| - 1];
      NothingOpensAt(init, closes, e);
      OpenAfter(last, CloseTotal(closes, last.expirationAt));
      OpenAtAppends(Remaining(init, closes), LegRemainder(last, Closing(last, CloseTotal(closes, last.expirationAt))),
                    e);
    }
  }

  /**
   A batch closes at each expiry what it asks for and no more: the leg keeps its side, less
   the contracts asked for, down to nothing; a leg it does not ask for stays as it is.
   */
  lemma {:induction false} ClosesWhatIsAsked(positions: seq<FuturesPosition>, closes: seq<CloseLeg>, p: FuturesPosition)
    requires DistinctExpiries(positions) && p in positions
    ensures var want := CloseTotal(closes, p.expirationAt);
            OpenAt(Remaining(positions, closes), p.expirationAt)
            == if want <= 0 then p.netQuantity
               else if want >= Abs(p.netQuantity) then 0
               else if p.netQuantity > 0 then p.netQuantity - want else p.netQuantity + want
  {
    hide Closing, LegRemainder, CloseTotal;
    var last, init := positions[|positions| - 1], positions[..|positions| - 1];
    assert positions == init + [last];
    OpenAfter(last, CloseTotal(closes, last.expirationAt));
    OpenAtAppends(Remaining(init, closes), LegRemainder(last, Closing(last, CloseTotal(closes, last.expirationAt))),
                  p.expirationAt);
    if p == last {
      NothingOpensAt(init, closes, p.expirationAt);
    } else {
      var m :| 0 <= m < |positions| && positions[m] == p;
      assert init[m] == p;
      ClosesWhatIsAsked(init, closes, p);
    }
  }

  // ── A close conserves equity ─────────────────────────────────────────────

  /** The entry value has the sign of the position. */
  ghost predicate EntrySigned(pos: FuturesPosition) {
    (pos.netQuantity > 0 ==> pos.netEntryValue >= 0) && (pos.netQuantity < 0 ==> pos.netEntryValue <= 0)
  }

  function LegValue(pos: FuturesPosition, price: int): int {
    pos.Mark(price) * pos.netQuantity - pos.netEntryValue
  }

  /** The entry value that averaging loses: never negative, at most one unit per contract closed. */
  lemma AveragingLoss(value: int, n: int, c: int)
    requires value >= 0 && 0 < c <= n
    ensures 0 <= value - c * (value / n) - (value * (n - c)) / n <= c
  {
    var e, r := value / n, value % n;
    DivMod(value, n);
    MulSum(n * e, r, n - c);
    MulAssoc(n, e, n - c);
    ShiftedFloor(e * (n - c), r * (n - c), n, value * (n - c));
    RemainderShare(r, c, n);
    MulSum(n, c, e);
  }

  lemma ShiftedFloor(k: int, r: int, n: int, x: int)
    requires n > 0 && x == n * k + r
    ensures x / n == k + r / n
  {
    DivMod(r, n);
    MulSum(k, r / n, n);
    FloorUnique(x, n, k + r / n);
  }

  /** The part of a remainder that stays with the open contracts. */
  lemma RemainderShare(r: int, c: int, n: int)
    requires 0 <= r < n && 0 < c <= n
    ensures 0 <= r - (r * (n - c)) / n <= c
  {
    var x := r * (n - c);
    var k := x / n;
    DivMod(x, n);
    MulSum(n, c, r);
    MulSum(r, c, n);
    MulOrder(0, c, r);
    MulOrder(r, n, c);
    assert x == n * r - c * r && 0 <= c * r <= n * c;
    assert n * (r - c) == n * r - n * c;
    LeastAbove(r, k, n);
    LeastAbove(k, r - c, n);
  }

  /** The entry either has the position's sign or averages to nothing. */
  ghost predicate EntryConserves(pos: FuturesPosition) {
    EntrySigned(pos) || Abs(pos.netEntryValue) < Abs(pos.netQuantity)
  }

  /**
   Closing part of a leg costs the fee, and rounding moves the equity by at most one unit
   per contract closed, if and only if the entry value has the position's sign or is
   smaller than one unit per contract: averaging drops its sign.
   */
  lemma LegConservesEquityExactly(pos: FuturesPosition, closeAbs: int, price: int, fee: int)
    requires 0 < closeAbs <= Abs(pos.netQuantity)
    ensures var left := LegRemainder(pos, closeAbs);
            var change := LegProceeds(pos, closeAbs, price, fee) + FuturesPnl(left, price) - LegValue(pos, price);
            -fee - closeAbs <= change <= -fee + closeAbs <==> EntryConserves(pos)
  {
    var n, v := Abs(pos.netQuantity), Abs(pos.netEntryValue);
    TruncDivNonneg(v, n);
    var mark, e := pos.Mark(price), AvgEntry(pos);
    var kept := if closeAbs == n then 0 else TruncDiv(pos.netEntryValue * (n - closeAbs), n);
    RemainderValue(pos, closeAbs, price);
    LossBySide(pos.netQuantity, mark, e, pos.netEntryValue, closeAbs, kept);
    hide LegProceeds, LegRemainder, FuturesPnl, LegValue, TruncDiv, AvgEntry;
    KeptEntry(pos, closeAbs, kept);
  }

  lemma LossBySide(q: int, mark: int, e: int, value: int, c: int, kept: int)
    requires q != 0
    ensures var signed := if q > 0 then c else -c;
            (mark - e) * signed + (mark * (q - signed) - kept) - (mark * q - value) == value - kept - e * signed
  {
    var signed := if q > 0 then c else -c;
    MulSum(mark, e, signed);
    MulSum(q, signed, mark);
  }

  /** What rounding moves: the averaging loss, plus the closed entry twice over when the signs differ. */
  lemma KeptEntry(pos: FuturesPosition, c: int, kept: int)
    requires 0 < c <= Abs(pos.netQuantity)
    requires kept == if c == Abs(pos.netQuantity) then 0
             else TruncDiv(pos.netEntryValue * (Abs(pos.netQuantity) - c), Abs(pos.netQuantity))
    ensures -c <= pos.netEntryValue - kept - AvgEntry(pos) * (if pos.netQuantity > 0 then c else -c) <= c <==>
            EntryConserves(pos)
  {
    var n, v := Abs(pos.netQuantity), Abs(pos.netEntryValue);
    AverageOf(pos);
    KeptIsSigned(pos, c, kept);
    SignedProduct(v / n, c, pos.netQuantity);
    hide TruncDiv, AvgEntry, EntryConserves;
    AveragingLoss(v, n, c);
    AverageIsZero(v, n, c);
    SignedMove(pos, c, kept, c * (v / n), (v * (n - c)) / n);
  }

  lemma AverageOf(pos: FuturesPosition)
    requires pos.netQuantity != 0
    ensures AvgEntry(pos) == Abs(pos.netEntryValue) / Abs(pos.netQuantity)
  {
    TruncDivNonneg(Abs(pos.netEntryValue), Abs(pos.netQuantity));
  }

  lemma KeptIsSigned(pos: FuturesPosition, c: int, kept: int)
    requires 0 < c <= Abs(pos.netQuantity)
    requires kept == if c == Abs(pos.netQuantity) then 0
             else TruncDiv(pos.netEntryValue * (Abs(pos.netQuantity) - c), Abs(pos.netQuantity))
    ensures var k := (Abs(pos.netEntryValue) * (Abs(pos.netQuantity) - c)) / Abs(pos.netQuantity);
            kept == if pos.netEntryValue >= 0 then k else -k
  {
    TruncOfSigned(pos.netEntryValue, Abs(pos.netQuantity) - c, Abs(pos.netQuantity));
    assert Abs(pos.netEntryValue) * 0 == 0 && 0 / Abs(pos.netQuantity) == 0;
  }

  lemma SignedProduct(e: int, c: int, q: int)
    ensures e * (if q > 0 then c else -c) == if q > 0 then c * e else -(c * e)
  {
  }

  lemma SignedMove(pos: FuturesPosition, c: int, kept: int, closed: int, k: int)
    requires pos.netQuantity != 0 && c > 0
    requires kept == if pos.netEntryValue >= 0 then k else -k
    requires 0 <= Abs(pos.netEntryValue) - closed - k <= c
    requires if Abs(pos.netEntryValue) < Abs(pos.netQuantity) then closed == 0 else closed >= c
    ensures -c <= pos.netEntryValue - kept - (if pos.netQuantity > 0 then closed else -closed) <= c <==>
            EntryConserves(pos)
  {
  }

  lemma AverageIsZero(v: int, n: int, c: int)
    requires v >= 0 && 0 < c <= n
    ensures if v < n then c * (v / n) == 0 else c * (v / n) >= c
  {
    DivMod(v, n);
    LeastAbove(v / n, if v < n then 0 else 1, n);
    LeastAbove(if v < n then 0 else v / n, v / n, n);
    MulOrder(1, if v < n then 1 else v / n, c);
  }

  lemma TruncOfSigned(x: int, k: int, d: int)
    requires k >= 0 && d > 0
    ensures x >= 0 ==> TruncDiv(x * k, d) == (Abs(x) * k) / d
    ensures x <= 0 ==> TruncDiv(x * k, d) == -((Abs(x) * k) / d)
  {
    if x >= 0 { MulOrder(0, x, k); } else { MulOrder(x, 0, k); assert Abs(x * k) == Abs(x) * k; }
  }

  lemma RemainderValue(pos: FuturesPosition, c: int, price: int)
    requires 0 < c <= Abs(pos.netQuantity)
    ensures var signed := if pos.netQuantity > 0 then c else -c;
            var kept := if c == Abs(pos.netQuantity) then 0
              else TruncDiv(pos.netEntryValue * (Abs(pos.netQuantity) - c), Abs(pos.netQuantity));
            FuturesPnl(LegRemainder(pos, c), price) == pos.Mark(price) * (pos.netQuantity - signed) - kept
  {
    var left := LegRemainder(pos, c);
    if c == Abs(pos.netQuantity) {
      assert left == [];
      assert pos.netQuantity - (if pos.netQuantity > 0 then c else -c) == 0;
      assert pos.Mark(price) * 0 == 0;
    } else {
      PnlOfOne(left[0], price);
      assert left == [left[0]];
    }
  }

  lemma PnlOfOne(pos: FuturesPosition, price: int)
    ensures FuturesPnl([pos], price) == LegValue(pos, price)
  {
    assert [pos][..0] == [];
    assert FuturesPnl([], price) == 0;
  }

  lemma {:induction false} PnlAppends(xs: seq<FuturesPosition>, ys: seq<FuturesPosition>, price: int)
    ensures FuturesPnl(xs + ys, price) == FuturesPnl(xs, price) + FuturesPnl(ys, price)
  {
    if ys == [] {
      assert xs + ys == xs;
    } else {
      var init := ys[..|ys| - 1];
      PnlAppends(xs, init, price);
      assert (xs + ys)[..|xs + ys| - 1] == xs + init;
      assert (xs + ys)[|xs + ys| - 1] == ys[|ys| - 1];
    }
  }

  /** Legs a batch touches, and contracts it closes. */
  function LegsClosed(positions: seq<FuturesPosition>, closes: seq<CloseLeg>): nat {
    if positions == [] then 0
    else
      var last := positions[|positions| - 1];
      LegsClosed(positions[..|positions| - 1], closes) +
        (if Closing(last, CloseTotal(closes, last.expirationAt)) > 0 then 1 else 0)
  }

  function ContractsClosed(positions: seq<FuturesPosition>, closes: seq<CloseLeg>): nat {
    if positions == [] then 0
    else
      var last := positions[|positions| - 1];
      ContractsClosed(positions[..|positions| - 1], closes) + Closing(last, CloseTotal(closes, last.expirationAt))
  }

  /**
   A batched close costs the account the fee for each leg touched, and rounding moves its
   equity (balance plus futures PnL) by at most one unit for each contract closed, provided
   every leg it touches conserves.
   */
  lemma {:induction false} FuturesCloseConservesEquity(positions: seq<FuturesPosition>, closes: seq<CloseLeg>,
        price: int, fee: int)
    requires forall p :: p in positions && Closing(p, CloseTotal(closes, p.expirationAt)) > 0 ==> EntryConserves(p)
    ensures var change := Proceeds(positions, closes, price, fee) + FuturesPnl(Remaining(positions, closes), price)
            - FuturesPnl(positions, price);
            var fees := fee * LegsClosed(positions, closes);
            -fees - ContractsClosed(positions, closes) <= change <= -fees + ContractsClosed(positions, closes)
  {
    hide FuturesPnl, Closing, CloseTotal, LegProceeds, LegRemainder, EntryConserves;
    hide Proceeds, Remaining, LegsClosed, ContractsClosed;
    if positions == [] {
      NothingClosed(closes, price, fee);
    } else {
      var last, init := positions[|positions| - 1], positions[..|positions| - 1];
      assert forall p :: p in init ==> p in positions;
      FuturesCloseConservesEquity(init, closes, price, fee);
      OneMoreClosed(positions, closes, price, fee);
      MulSum(LegsClosed(init, closes), 1, fee);
      LegConserves(last, CloseTotal(closes, last.expirationAt), price, fee);
    }
  }

  lemma NothingClosed(closes: seq<CloseLeg>, price: int, fee: int)
    ensures Proceeds([], closes, price, fee) == 0 && FuturesPnl(Remaining([], closes), price) == FuturesPnl([], price)
    ensures ContractsClosed([], closes) == 0 && fee * LegsClosed([], closes) == 0
  {
  }

  /** What the last leg adds to each side of the balance. */
  lemma OneMoreClosed(positions: seq<FuturesPosition>, closes: seq<CloseLeg>, price: int, fee: int)
    requires positions != []
    ensures var last, init := positions[|positions| - 1], positions[..|positions| - 1];
            var closing := Closing(last, CloseTotal(closes, last.expirationAt));
            && Proceeds(positions, closes, price, fee) == Proceeds(init, closes, price, fee) +
               LegProceeds(last, closing, price, fee)
            && FuturesPnl(Remaining(positions, closes), price)
            == FuturesPnl(Remaining(init, closes), price) + FuturesPnl(LegRemainder(last, closing), price)
            && FuturesPnl(positions, price) == FuturesPnl(init, price) + FuturesPnl([last], price)
            && LegsClosed(positions, closes) == LegsClosed(init, closes) + (if closing > 0 then 1 else 0)
            && ContractsClosed(positions, closes) == ContractsClosed(init, closes) + closing
  {
    hide FuturesPnl, Closing, CloseTotal, LegProceeds, LegRemainder;
    var last, init := positions[|positions| - 1], positions[..|positions| - 1];
    var closing := Closing(last, CloseTotal(closes, last.expirationAt));
    PnlAppends(Remaining(init, closes), LegRemainder(last, closing), price);
    PnlAppends(init, [last], price);
    assert init + [last] == positions;
  }

  /** One leg of the batch, touched or not. */
  lemma LegConserves(pos: FuturesPosition, want: int, price: int, fee: int)
    requires Closing(pos, want) > 0 ==> EntryConserves(pos)
    ensures var closing := Closing(pos, want);
            var change := LegProceeds(pos, closing, price, fee) + FuturesPnl(LegRemainder(pos, closing), price)
              - FuturesPnl([pos], price);
            var charged := if closing > 0 then fee else 0;
            closing >= 0 && -charged - closing <= change <= -charged + closing
  {
    hide FuturesPnl, LegValue, EntryConserves;
    PnlOfOne(pos, price);
    var closing := Closing(pos, want);
    if closing > 0 {
      hide LegProceeds, LegRemainder;
      LegConservesEquityExactly(pos, closing, price, fee);
    }
  }

  /**
   A leg that does not conserve. Buying 2 at 100 and selling 1 at 300 leaves one long
   contract with entry value -100; closing it at 250 with no fee books 150 where the leg
   was worth 350.
   */
  lemma WrongSignedEntryLosesEquity()
    ensures var pos := FuturesPosition(1, 1, -100, 0);
            !EntryConserves(pos) && LegValue(pos, 250) == 350
            && Simulated(AccountSnapshot("a", 0, PerpPosition(0, 0, RestingOrders(0, 0, 0, 0), 0),
                                         FuturesBook([pos], RestingOrders(0, 0, 0, 0))),
                         [CloseLeg(1, 1)], 250, 0).balance == 150
  {
    var pos := FuturesPosition(1, 1, -100, 0);
    var closes := [CloseLeg(1, 1)];
    assert closes[..0] == [] && CloseTotal([], 1) == 0 && CloseTotal(closes, 1) == 1;
    assert [pos][..0] == [] && Proceeds([], closes, 250, 0) == 0;
    assert Proceeds([pos], closes, 250, 0) == LegProceeds(pos, 1, 250, 0);
  }
}
