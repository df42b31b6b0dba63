/**
 The live netting session (src/netting.ts `InstanceSession`): accept screen, journal batches, the
 chunk and replay loops of settle, reservation release and crash recovery, over the session's own
 mutable fields. Each method is proved against the functions of module Settlement or states its
 promise outright.
 */
module NettingSession {
  import opened Accounts
  import opened Ledger
  import opened Money
  import opened Recovery
  import opened Screening
  import opened SessionHost
  import opened Settlement
  import opened SettlementNet
  import opened SettlementProof
  import opened Text
  import LS = LedgerStore
  import SettleReport

  datatype Reason = InsufficientFunds | LedgerRefused(fault: Fault)

  datatype MovementOutcome = Accepted(seq_: nat) | Rejected(reason: Reason)

  datatype Screen = Reserved | Insufficient | Malformed | NotBalanced | Overflowed

  datatype Recorded = Answered(outcome: MovementOutcome) | SessionSettled | BadMovement(screen: Screen) | JournalRefused

  datatype SettleResult = Ran(outcome: Outcome) | ChainBroken | FlushRefused

  // ---- The session chain --------------------------------------------------------------

  function PrevOf(rows: seq<Movement>, k: nat): SessionHash
    requires k <= |rows|
  {
    if k == 0 then SessionGenesis else rows[k - 1].hash
  }

  predicate RowDerives(rows: seq<Movement>, k: nat)
    requires k < |rows|
  {
    rows[k].prevHash == PrevOf(rows, k) && rows[k].hash == Chained(PrevOf(rows, k), rows[k].key, rows[k].legs)
  }

  /** The journal re-derives from genesis. */
  ghost predicate ChainHolds(rows: seq<Movement>) {
    forall k :: 0 <= k < |rows| ==> RowDerives(rows, k)
  }

  lemma ChainSnoc(rows: seq<Movement>, m: Movement)
    requires ChainHolds(rows)
    requires m.prevHash == JournalHead(rows) && m.hash == Chained(JournalHead(rows), m.key, m.legs)
    ensures ChainHolds(rows + [m])
  {
    forall k | 0 <= k < |rows + [m]| ensures RowDerives(rows + [m], k) {
      if k < |rows| {
        assert RowDerives(rows, k);
      }
    }
  }

  function SessionDepth(h: SessionHash): nat {
    match h
    case SessionGenesis => 0
    case Chained(prev, _, _) => SessionDepth(prev) + 1
  }

  lemma {:induction false} ChainDepth(rows: seq<Movement>, k: nat)
    requires ChainHolds(rows) && k <= |rows|
    ensures SessionDepth(PrevOf(rows, k)) == k
  {
    if k > 0 {
      ChainDepth(rows, k - 1);
      assert RowDerives(rows, k - 1);
    }
  }

  lemma RowDepth(rows: seq<Movement>, k: nat)
    requires ChainHolds(rows) && k < |rows|
    ensures SessionDepth(rows[k].prevHash) == k
  {
    ChainDepth(rows, k);
    assert RowDerives(rows, k);
  }

  lemma ChainPrefix(rows: seq<Movement>, n: nat)
    requires ChainHolds(rows) && n <= |rows|
    ensures ChainHolds(rows[..n])
  {
    forall k | 0 <= k < n ensures RowDerives(rows[..n], k) {
      assert RowDerives(rows, k);
    }
  }

  /** In a chain drawn from another one, every row stands where it stood there. */
  lemma SurvivorAt(accepted: seq<Movement>, kept: seq<Movement>, k: nat)
    requires ChainHolds(accepted) && ChainHolds(kept) && k < |kept| && kept[k] in accepted
    ensures k < |accepted| && kept[k] == accepted[k]
  {
    var i :| 0 <= i < |accepted| && accepted[i] == kept[k];
    RowDepth(kept, k);
    RowDepth(accepted, i);
  }

  /** Of a chain's rows, those that are left re-derive if and only if they are a prefix of it. */
  lemma SurvivorsChain(accepted: seq<Movement>, kept: seq<Movement>)
    requires ChainHolds(accepted) && forall m :: m in kept ==> m in accepted
    ensures ChainHolds(kept) <==> kept <= accepted
  {
    hide ChainHolds;
    if kept <= accepted {
      ChainPrefix(accepted, |kept|);
      assert accepted[..|kept|] == kept;
    }
    if ChainHolds(kept) && kept != [] {
      SurvivorAt(accepted, kept, |kept| - 1);
      forall k | 0 <= k < |kept| ensures kept[k] == accepted[k] {
        SurvivorAt(accepted, kept, k);
      }
    }
  }

  /**
   A flush that the journal refuses has already emptied the batch. Whatever the session accepts and
   journals after that links to the lost rows: the journal re-derives again exactly if the lost batch
   or what was journaled after it is empty.
   */
  lemma LostBatchBreaksChain(rows: seq<Movement>, lost: seq<Movement>, later: seq<Movement>)
    requires ChainHolds(rows + lost + later)
    ensures ChainHolds(rows + later) <==> lost == [] || later == []
  {
    var all := rows + lost + later;
    if later == [] {
      ChainPrefix(all, |rows|);
      assert all[..|rows|] == rows + later;
    } else if lost == [] {
      assert rows + later == all;
    } else {
      RowDepth(all, |rows| + |lost|);
      if ChainHolds(rows + later) {
        RowDepth(rows + later, |rows|);
      }
    }
  }

  // ---- Movements the journal never got ----------------------------------------------------

  /** What the journal checks of a row is its key and its position, never its legs. */
  lemma AppendableByKeys(rows: seq<Movement>, keys: set<string>, pending: seq<Movement>, m: Movement, n: Movement)
    requires m.key == n.key && m.seq_ == n.seq_
    ensures Appendable(rows, keys, pending + [m]) <==> Appendable(rows, keys, pending + [n])
  {
    var ms, ns := pending + [m], pending + [n];
    assert forall i :: 0 <= i < |ms| ==> ms[i].key == ns[i].key && ms[i].seq_ == ns[i].seq_;
  }

  lemma RefusedBatch(rows: seq<Movement>, keys: set<string>, pending: seq<Movement>, m: Movement, maxBatch: nat,
      refused: bool, rows': seq<Movement>, keys': set<string>, pending': seq<Movement>)
    requires Batched(rows, keys, pending, m, maxBatch, refused, rows', keys', pending')
    ensures refused <==> |pending| + 1 >= maxBatch && !Appendable(rows, keys, pending + [m])
  {
  }

  lemma {:induction false} RejectedAreMovements(sid: string, movements: seq<Movement>, k: nat, w: World, key: string)
    requires k <= |movements| && IsRejected(Settlement.Replay(sid, movements, k, w).rejected, key)
    ensures exists q :: 0 <= q < k && movements[q].key == key
  {
    hide Settlement.Transact;
    if k > 0 {
      var r := Settlement.Replay(sid, movements, k - 1, w);
      if IsRejected(r.rejected, key) {
        RejectedAreMovements(sid, movements, k - 1, w, key);
      } else {
        var f :| Settlement.Replay(sid, movements, k, w).rejected == r.rejected + [Rejection(movements[k - 1].key, f)];
        RejectedSnoc(r.rejected, Rejection(movements[k - 1].key, f), key);
      }
    }
  }

  lemma RejectedWereJournaled(sid: string, movements: seq<Movement>, width: nat, forced: bool, w: World, key: string)
    requires width > 0
    requires var o := Settlement.Settle(sid, movements, width, forced, w).outcome;
      o.Returned? && IsRejected(o.report.rejected, key)
    ensures exists q :: 0 <= q < |movements| && movements[q].key == key
  {
    hide Settlement.PostChunks, Settlement.Compensate, Settlement.Replay;
    var o := Settlement.Settle(sid, movements, width, forced, w).outcome;
    if v :| o.report.rejected == Settlement.Replay(sid, movements, |movements|, v).rejected {
      RejectedAreMovements(sid, movements, |movements|, v, key);
    }
  }

  lemma OnlyJournaledIsPosted(s: State, sid: string, chunks: seq<Chunk>, movements: seq<Movement>, k: nat)
    requires Inv(s, sid, chunks, movements) && Posted(s, ReplayTxn(sid, k))
    ensures k < |movements|
  {
    var i := PostedIsLogged(s.log, ReplayTxn(sid, k));
    assert EntryTagged(s.log[i], sid, chunks, movements);
  }

  lemma RejectedIsInPrefix(sid: string, accepted: seq<Movement>, rows: seq<Movement>, width: nat, w: World, k: nat)
    requires WellFormed(accepted, width) && rows <= accepted && k < |accepted|
    requires var o := Settlement.Settle(sid, rows, width, false, w).outcome;
      o.Returned? && IsRejected(o.report.rejected, accepted[k].key)
    ensures k < |rows|
  {
    hide Settlement.Settle;
    RejectedWereJournaled(sid, rows, width, false, w, accepted[k].key);
    var q :| 0 <= q < |rows| && rows[q].key == accepted[k].key;
    assert accepted[q] == rows[q];
  }

  /** Movement k is in memory but not journaled: it is neither on the ledger nor reported. */
  ghost predicate Nowhere(r: Settled, sid: string, accepted: seq<Movement>, k: nat)
    requires k < |accepted|
  {
    && !Posted(r.world.ledger, ReplayTxn(sid, k))
    && (r.outcome.Returned? ==> !IsRejected(r.outcome.report.rejected, accepted[k].key))
  }

  /**
   When only a prefix of the accepted movements is journaled, a first settle is exact for that prefix
   alone: the others are posted nowhere and reported nowhere.
   */
  lemma LostMovementsAreNowhere(sid: string, accepted: seq<Movement>, rows: seq<Movement>, width: nat, w: World)
    requires WellFormed(accepted, width) && rows <= accepted && Fresh(w.ledger, sid) && OthersForeign(w.others, sid)
    ensures var r := Settlement.Settle(sid, rows, width, false, w);
      && (r.outcome.Returned? ==> Exact(r.world.ledger, sid, rows, r.outcome.report.rejected))
      && forall k :: |rows| <= k < |accepted| ==> Nowhere(r, sid, accepted, k)
  {
    hide Settlement.Settle, Fresh, Inv, Resumable, Exact;
    PrefixIsWellFormed(accepted, rows);
    FirstSettleIsExact(sid, rows, width, w);
    FreshIsResumable(w.ledger, sid, rows, width);
    assert Ready(w, sid, Chunks(rows, width), rows);
    SettleIsExactWhen(sid, rows, width, false, w);
    var r := Settlement.Settle(sid, rows, width, false, w);
    forall k | |rows| <= k < |accepted| ensures Nowhere(r, sid, accepted, k) {
      if Posted(r.world.ledger, ReplayTxn(sid, k)) {
        OnlyJournaledIsPosted(r.world.ledger, sid, Chunks(rows, width), rows, k);
      }
      if r.outcome.Returned? && IsRejected(r.outcome.report.rejected, accepted[k].key) {
        RejectedIsInPrefix(sid, accepted, rows, width, w, k);
      }
    }
  }

  /** And what it reports is true of the ledger. */
  lemma FirstReportIsTrue(sid: string, accepted: seq<Movement>, rows: seq<Movement>, width: nat, w: World)
    requires WellFormed(accepted, width) && rows <= accepted && Fresh(w.ledger, sid) && OthersForeign(w.others, sid)
    ensures var r := Settlement.Settle(sid, rows, width, false, w);
      r.outcome.Returned? ==> SettleReport.ReportIsTrue(r.outcome.report, r.world.ledger, sid, rows)
  {
    hide Settlement.Settle, Fresh, Inv, Resumable, SettleReport.ReportIsTrue;
    PrefixIsWellFormed(accepted, rows);
    FreshIsResumable(w.ledger, sid, rows, width);
    SettleReport.SettleReportsTrue(sid, rows, width, false, w);
  }

  lemma ReportsWholeJournal(sid: string, movements: seq<Movement>, width: nat, forced: bool, w: World)
    requires width > 0
    ensures var r := Settlement.Settle(sid, movements, width, forced, w);
      r.outcome.Returned? ==>
        && r.outcome.report.netted == |movements|
        && r.outcome.report.journalHead == if movements == [] then SessionGenesis else movements[|movements| - 1].hash
  {
    hide PostChunks, Settlement.Replay, Settlement.Compensate;
  }

  lemma PrefixIsWellFormed(accepted: seq<Movement>, rows: seq<Movement>)
    requires WellFormedJournal(accepted) && rows <= accepted
    ensures WellFormedJournal(rows)
  {
    assert forall k :: 0 <= k < |rows| ==> rows[k] == accepted[k];
  }

  lemma {:induction false} RenounceOther(outcomes: map<string, MovementOutcome>, rejected: seq<Rejection>, key: string)
    requires !IsRejected(rejected, key) && key in outcomes
    ensures key in Renounce(outcomes, rejected) && Renounce(outcomes, rejected)[key] == outcomes[key]
  {
    if rejected != [] {
      var n := |rejected| - 1;
      assert rejected[n].key != key;
      assert forall i :: 0 <= i < n ==> rejected[..n][i] == rejected[i];
      RenounceOther(outcomes, rejected[..n], key);
    }
  }

  lemma {:induction false} RenounceKeys(outcomes: map<string, MovementOutcome>, rejected: seq<Rejection>)
    ensures outcomes.Keys <= Renounce(outcomes, rejected).Keys
    ensures forall key :: key in Renounce(outcomes, rejected) && Renounce(outcomes, rejected)[key].Accepted? ==>
      key in outcomes && Renounce(outcomes, rejected)[key] == outcomes[key]
  {
    if rejected != [] {
      RenounceKeys(outcomes, rejected[..|rejected| - 1]);
    }
  }

  lemma NothingToSettle(sid: string, width: nat, forced: bool, w: World)
    requires width > 0
    ensures Settlement.Settle(sid, [], width, forced, w) ==
      Settled(w, Returned(Report(Mode.Netted, 0, [], SessionGenesis, 0)))
  {
  }

  /** What becomes of a batch that movement m has joined: kept, journaled whole, or lost whole. */
  ghost predicate Batched(rows: seq<Movement>, keys: set<string>, pending: seq<Movement>, m: Movement, maxBatch: nat,
                          refused: bool, rows': seq<Movement>, keys': set<string>, pending': seq<Movement>)
  {
    var batch := pending + [m];
    if |batch| < maxBatch then !refused && rows' == rows && keys' == keys && pending' == batch
    else
      && pending' == []
      && (refused <==> !Appendable(rows, keys, batch))
      && rows' == (if refused then rows else rows + batch)
      && keys' == (if refused then keys else keys + KeysOf(batch))
  }

  // ---- The accept screen --------------------------------------------------------------

  /** The delta of a wallet leg is an amount of its own, so its negation must be storable. */
  predicate DeltaFits(leg: Leg) {
    IsWalletAccount(leg.account) ==> InI64(BalanceDelta(leg))
  }

  lemma {:induction false} MovementTotalSnoc(rows: seq<Movement>, m: Movement, n: nat, a: AccountRef)
    requires n <= |rows|
    ensures MovementTotal(rows + [m], n, a) == MovementTotal(rows, n, a)
  {
    if n > 0 {
      MovementTotalSnoc(rows, m, n - 1, a);
    }
  }

  /** Leg i, if it takes from a wallet, is covered by `base` and the movement up to and including it. */
  ghost predicate LegCovered(legs: seq<Leg>, base: AccountRef -> int, i: nat)
    requires i < |legs|
  {
    IsWalletAccount(legs[i].account) && BalanceDelta(legs[i]) < 0 ==>
      base(legs[i].account) + DeltaOf(legs[..i + 1], legs[i].account) >= 0
  }

  ghost predicate LegPasses(legs: seq<Leg>, base: AccountRef -> int, i: nat)
    requires i < |legs|
  {
    DeltaFits(legs[i]) && LegCovered(legs, base, i)
  }

  ghost predicate AllPass(legs: seq<Leg>, base: AccountRef -> int) {
    forall i :: 0 <= i < |legs| ==> LegPasses(legs, base, i)
  }

  /** The screen's answer when legs ..i pass and leg i does not. */
  ghost predicate StopsAt(legs: seq<Leg>, base: AccountRef -> int, i: nat, screen: Screen) {
    && i < |legs| && (forall j :: 0 <= j < i ==> LegPasses(legs, base, j)) && !LegPasses(legs, base, i)
    && screen == if DeltaFits(legs[i]) then Insufficient else Overflowed
  }

  /** A covered account stays covered through a movement whose debits all passed. */
  lemma {:induction false} PassingKeepsCover(legs: seq<Leg>, base: AccountRef -> int, n: nat, a: AccountRef)
    requires n <= |legs| && IsWalletAccount(a) && base(a) >= 0
    requires forall i :: 0 <= i < n ==> LegPasses(legs, base, i)
    ensures base(a) + DeltaOf(legs[..n], a) >= 0
  {
    if n > 0 {
      PassingKeepsCover(legs, base, n - 1, a);
      PrefixStep(legs, n - 1);
      assert LegPasses(legs, base, n - 1);
    }
  }

  function WalletPart(legs: seq<Leg>, a: AccountRef): int {
    if IsWalletAccount(a) then DeltaOf(legs, a) else 0
  }

  function WalletLeg(leg: Leg, a: AccountRef): int {
    if IsWalletAccount(a) && a == leg.account then BalanceDelta(leg) else 0
  }

  lemma WalletPartStep(legs: seq<Leg>, k: nat)
    requires k < |legs|
    ensures forall a :: WalletPart(legs[..k + 1], a) == WalletPart(legs[..k], a) + WalletLeg(legs[k], a)
  {
    LS.DeltaStep(legs, k);
  }

  datatype Applied = Applied(account: AccountRef, delta: int)

  function AppliedSum(applied: seq<Applied>, a: AccountRef): int {
    if applied == [] then 0
    else
      var last := applied[|applied| - 1];
      AppliedSum(applied[..|applied| - 1], a) + if last.account == a then last.delta else 0
  }

  lemma AppliedSnoc(applied: seq<Applied>, x: Applied)
    ensures forall a :: AppliedSum(applied + [x], a) == AppliedSum(applied, a) + if x.account == a then x.delta else 0
  {
    assert (applied + [x])[..|applied|] == applied;
  }

  lemma NothingApplied(legs: seq<Leg>)
    ensures forall a :: AppliedSum([], a) == 0 && WalletPart(legs[..0], a) == 0
  {
  }

  /** What the screen compares at leg k: the balance it works from, the legs before, and this one. */
  lemma LegVerdict(legs: seq<Leg>, base: AccountRef -> int, k: nat)
    requires k < |legs|
    ensures !IsWalletAccount(legs[k].account) ==> LegPasses(legs, base, k)
    ensures IsWalletAccount(legs[k].account) ==>
      (LegPasses(legs, base, k) <==>
       var delta := BalanceDelta(legs[k]);
       InI64(delta) && (delta < 0 ==> base(legs[k].account) + WalletPart(legs[..k], legs[k].account) + delta >= 0))
  {
    LS.DeltaStep(legs, k);
  }

  lemma ScreenStops(legs: seq<Leg>, base: AccountRef -> int, k: nat, screen: Screen)
    requires k < |legs| && IsWalletAccount(legs[k].account) && !LegPasses(legs, base, k)
    requires forall i :: 0 <= i < k ==> LegPasses(legs, base, i)
    requires screen == if InI64(BalanceDelta(legs[k])) then Insufficient else Overflowed
    ensures StopsAt(legs, base, k, screen)
  {
  }

  predicate WellTyped(legs: seq<Leg>) {
    forall i :: 0 <= i < |legs| ==> legs[i].currency == CREDIT && legs[i].minor != 0
  }

  /** The sum of a movement's legs, unless one of them is not a nonzero CREDIT amount. */
  method SumLegs(legs: seq<Leg>) returns (typed: bool, sum: int)
    ensures typed <==> WellTyped(legs)
    ensures typed ==> sum == CurrencySum(legs, CREDIT)
  {
    sum := 0;
    for k := 0 to |legs|
      invariant WellTyped(legs[..k])
      invariant sum == CurrencySum(legs[..k], CREDIT)
    {
      PrefixStep(legs, k);
      if legs[k].currency != CREDIT || legs[k].minor == 0 {
        return false, sum;
      }
      sum := sum + legs[k].minor;
    }
    assert legs[..|legs|] == legs;
    return true, sum;
  }

  /** Nothing about the movement itself is wrong: what is left to decide is whether it is covered. */
  ghost predicate FitMovement(legs: seq<Leg>) {
    WellTyped(legs) && CurrencySum(legs, CREDIT) == 0 && legs != [] && forall i :: 0 <= i < |legs| ==>
      DeltaFits(legs[i])
  }

  lemma OverflowIsUnfit(legs: seq<Leg>, base: AccountRef -> int)
    ensures (exists i :: StopsAt(legs, base, i, Overflowed)) ==> !FitMovement(legs)
  {
  }

  ghost predicate Acceptable(legs: seq<Leg>, base: AccountRef -> int) {
    WellTyped(legs) && CurrencySum(legs, CREDIT) == 0 && legs != [] && AllPass(legs, base)
  }

  lemma ReservedIsAcceptable(legs: seq<Leg>, base: AccountRef -> int)
    requires LegsFit(legs) && WellTyped(legs) && CurrencySum(legs, CREDIT) == 0 && legs != [] && AllPass(legs, base)
    ensures Acceptable(legs, base) && WellFormedMovement(legs)
  {
  }

  lemma NotAcceptable(legs: seq<Leg>, base: AccountRef -> int)
    requires !(WellTyped(legs) && CurrencySum(legs, CREDIT) == 0 && legs != [] && AllPass(legs, base))
    ensures !Acceptable(legs, base)
  {
  }

  lemma AcceptablePasses(legs: seq<Leg>, base: AccountRef -> int)
    requires Acceptable(legs, base)
    ensures AllPass(legs, base)
  {
  }

  /** The answer admits the movement, even when the journal then refuses the batch it completed. */
  predicate Admitted(r: Recorded) {
    r.JournalRefused? || (r.Answered? && r.outcome.Accepted?)
  }

  ghost predicate Offered(r: Recorded, acceptable: bool, next: nat) {
    && (acceptable <==> Admitted(r))
    && (r.Answered? ==> r.outcome == if acceptable then Accepted(next) else Rejected(InsufficientFunds))
  }

  /** Accepting one more movement over an unchanged ledger keeps every prefix of the journal covered. */
  lemma ScreenedSnoc(s: State, rows: seq<Movement>, m: Movement, base: AccountRef -> int)
    requires Screened(s, rows) && AllPass(m.legs, base)
    requires forall a :: IsWalletAccount(a) ==> base(a) == BalanceOf(s, a) + MovementTotal(rows, |rows|, a)
    ensures Screened(s, rows + [m])
  {
    hide Covered, AllPass;
    var all := rows + [m];
    forall k: nat, a | k <= |all| && IsWalletAccount(a) ensures Covered(s, all, k, a) {
      if k <= |rows| {
        assert Covered(s, rows, k, a);
        CoverStays(s, rows, m, k, a);
      } else {
        assert Covered(s, rows, |rows|, a);
        CoverGoesOn(s, rows, m, base, a);
      }
    }
  }

  lemma CoverStays(s: State, rows: seq<Movement>, m: Movement, k: nat, a: AccountRef)
    requires k <= |rows| && Covered(s, rows, k, a)
    ensures Covered(s, rows + [m], k, a)
  {
    MovementTotalSnoc(rows, m, k, a);
  }

  lemma CoverGoesOn(s: State, rows: seq<Movement>, m: Movement, base: AccountRef -> int, a: AccountRef)
    requires Covered(s, rows, |rows|, a) && AllPass(m.legs, base) && IsWalletAccount(a)
    requires base(a) == BalanceOf(s, a) + MovementTotal(rows, |rows|, a)
    ensures Covered(s, rows + [m], |rows| + 1, a)
  {
    MovementTotalSnoc(rows, m, |rows|, a);
    PassingKeepsCover(m.legs, base, |m.legs|, a);
    assert m.legs[..|m.legs|] == m.legs;
  }

  /** The screen works from the ledger's balances plus exactly what this journal reserved. */
  ghost predicate SoleOn(s: State, base: AccountRef -> int, rows: seq<Movement>) {
    && (forall a :: IsWalletAccount(a) ==> base(a) == BalanceOf(s, a) + MovementTotal(rows, |rows|, a))
    && Screened(s, rows)
  }

  lemma SoleSnoc(s: State, base: AccountRef -> int, base': AccountRef -> int, rows: seq<Movement>, m: Movement)
    requires SoleOn(s, base, rows) && AllPass(m.legs, base)
    requires forall a :: base'(a) == base(a) + WalletPart(m.legs, a)
    ensures SoleOn(s, base', rows + [m])
  {
    ScreenedSnoc(s, rows, m, base);
    forall a | IsWalletAccount(a) ensures base'(a) == BalanceOf(s, a) + MovementTotal(rows + [m], |rows + [m]|, a) {
      MovementTotalSnoc(rows, m, |rows|, a);
    }
  }

  lemma SoleIsScreened(s: State, base: AccountRef -> int, rows: seq<Movement>)
    requires SoleOn(s, base, rows)
    ensures Screened(s, rows)
  {
  }

  lemma SoleSame(s: State, base: AccountRef -> int, base': AccountRef -> int, rows: seq<Movement>)
    requires SoleOn(s, base, rows) && forall a :: base'(a) == base(a)
    ensures SoleOn(s, base', rows)
  {
  }

  lemma JournalSnoc(rows: seq<Movement>, m: Movement)
    requires WellFormedJournal(rows) && m.seq_ == |rows| && WellFormedMovement(m.legs)
    requires forall k :: 0 <= k < |rows| ==> rows[k].key != m.key
    ensures WellFormedJournal(rows + [m])
  {
    var all := rows + [m];
    forall i, j | 0 <= i < j < |all| ensures all[i].key != all[j].key {
      if j == |rows| {
        assert rows[i].key != m.key;
      } else {
        assert all[j] == rows[j];
      }
    }
  }

  // ---- Settle, stepwise ----------------------------------------------------------------

  lemma UnfitParticipant(chunk: Chunk, compensate: bool, k: nat)
    requires k < |chunk| && !InI64(Side(chunk[k].minor, compensate))
    ensures !LegsFit(ChunkLegs(chunk, compensate))
  {
    ParticipantAt(chunk, compensate, k);
    assert ChunkLegs(chunk, compensate)[k] == ParticipantLegs(chunk, compensate)[k];
  }

  lemma UnfitClearing(chunk: Chunk, compensate: bool)
    requires SumOf(chunk) != 0 && !InI64(Side(-SumOf(chunk), compensate))
    ensures !LegsFit(ChunkLegs(chunk, compensate))
  {
    var legs := ChunkLegs(chunk, compensate);
    assert legs[|legs| - 1].minor == Side(-SumOf(chunk), compensate);
  }

  lemma {:induction false} DeadStaysDead(sid: string, movements: seq<Movement>, k: nat, w: World)
    requires k <= |movements| && Settlement.Replay(sid, movements, k, w).died
    ensures Settlement.Replay(sid, movements, |movements|, w) == Settlement.Replay(sid, movements, k, w)
    decreases |movements| - k
  {
    hide Settlement.Transact;
    if k < |movements| {
      DeadStaysDead(sid, movements, k + 1, w);
    }
  }

  /** What the session answers for a key once replay has refused its movement. */
  function Renounce(outcomes: map<string, MovementOutcome>, rejected: seq<Rejection>): map<string, MovementOutcome> {
    if rejected == [] then outcomes
    else
      var last := rejected[|rejected| - 1];
      Renounce(outcomes, rejected[..|rejected| - 1])[last.key := Rejected(LedgerRefused(last.fault))]
  }

  lemma RenounceSnoc(outcomes: map<string, MovementOutcome>, rejected: seq<Rejection>, r: Rejection)
    ensures Renounce(outcomes, rejected + [r]) ==
      Renounce(outcomes, rejected)[r.key := Rejected(LedgerRefused(r.fault))]
  {
    assert (rejected + [r])[..|rejected|] == rejected;
  }

  predicate KeysDiffer(rejected: seq<Rejection>) {
    forall i, j :: 0 <= i < j < |rejected| ==> rejected[i].key != rejected[j].key
  }

  /** From then on a refused movement is answered with the fault the ledger gave it, and any other as before. */
  lemma {:induction false} RenounceSays(outcomes: map<string, MovementOutcome>, rejected: seq<Rejection>, key: string)
    requires KeysDiffer(rejected)
    ensures key in Renounce(outcomes, rejected) <==> key in outcomes || IsRejected(rejected, key)
    ensures !IsRejected(rejected, key) && key in outcomes ==> Renounce(outcomes, rejected)[key] == outcomes[key]
    ensures forall i :: 0 <= i < |rejected| ==>
      && rejected[i].key in Renounce(outcomes, rejected)
      && Renounce(outcomes, rejected)[rejected[i].key] == Rejected(LedgerRefused(rejected[i].fault))
  {
    if rejected != [] {
      var n := |rejected| - 1;
      assert rejected == rejected[..n] + [rejected[n]];
      assert forall i :: 0 <= i < n ==> rejected[..n][i] == rejected[i];
      RenounceSays(outcomes, rejected[..n], key);
      RejectedSnoc(rejected[..n], rejected[n], key);
      forall i | 0 <= i < n
        ensures rejected[i].key in Renounce(outcomes, rejected[..n])
        ensures Renounce(outcomes, rejected[..n])[rejected[i].key] == Rejected(LedgerRefused(rejected[i].fault))
        ensures rejected[i].key != rejected[n].key
      {
        assert rejected[..n][i] == rejected[i];
      }
    }
  }

  /** Nets the journal per account, in first-touch order, and drops what cancels. */
  method NetPositions(movements: seq<Movement>) returns (positions: seq<Position>)
    ensures positions == Positions(movements)
  {
    var order, net := NetOf(movements);
    ghost var all := AllLegs(movements);
    positions := [];
    for k := 0 to |order|
      invariant positions == PositionsOf(all, order[..k])
    {
      PrefixStep(order, k);
      if net[order[k]] != 0 {
        positions := positions + [Position(order[k], net[order[k]])];
      }
    }
    assert order[..|order|] == order;
  }

  method NetOf(movements: seq<Movement>) returns (order: seq<AccountRef>, net: map<AccountRef, int>)
    ensures order == DistinctAccounts(AllLegs(movements))
    ensures forall a :: a in order ==> a in net && net[a] == RawOf(AllLegs(movements), a)
  {
    hide DistinctAccounts, RawOf;
    order, net := [], map[];
    NothingNetted();
    for k := 0 to |movements|
      invariant Netted(order, net, AllLegs(movements[..k]))
    {
      PrefixStep(movements, k);
      var legs := movements[k].legs;
      assert AllLegs(movements[..k]) + legs[..0] == AllLegs(movements[..k]);
      for i := 0 to |legs|
        invariant Netted(order, net, AllLegs(movements[..k]) + legs[..i])
      {
        NettedSnoc(order, net, AllLegs(movements[..k]) + legs[..i], legs[i]);
        assert AllLegs(movements[..k]) + legs[..i + 1] == AllLegs(movements[..k]) + legs[..i] + [legs[i]];
        var a := legs[i].account;
        if a !in net {
          order := order + [a];
        }
        net := net[a := (if a in net then net[a] else 0) + legs[i].minor];
      }
      assert legs[..|legs|] == legs;
    }
    assert movements[..|movements|] == movements;
  }

  /** `order` and `net` are an insertion-ordered map of the net of `legs`. */
  ghost predicate Netted(order: seq<AccountRef>, net: map<AccountRef, int>, legs: seq<Leg>) {
    && order == DistinctAccounts(legs)
    && (forall a :: a in net <==> a in order)
    && forall a :: a in net ==> net[a] == RawOf(legs, a)
  }

  lemma NothingNetted()
    ensures Netted([], map[], [])
  {
  }

  lemma NettedSnoc(order: seq<AccountRef>, net: map<AccountRef, int>, legs: seq<Leg>, leg: Leg)
    requires Netted(order, net, legs)
    ensures var a := leg.account;
      Netted(if a in net then order else order + [a], net[a := (if a in net then net[a] else 0) + leg.minor],
        legs + [leg])
  {
    DistinctSnoc(legs, leg);
    forall a ensures RawOf(legs + [leg], a) == RawOf(legs, a) + if leg.account == a then leg.minor else 0 {
      RawSnoc(legs, leg, a);
    }
    if leg.account !in net {
      RawOutside(legs, leg.account);
    }
  }

  lemma CutOne(positions: seq<Position>, i: nat, width: nat)
    requires width > 0 && i < |positions|
    ensures ChunksOf(positions[i..], width) ==
      if i + width < |positions| then [positions[i..i + width]]
        + ChunksOf(positions[i + width..], width) else [positions[i..|positions|]]
  {
    var rest := positions[i..];
    if i + width < |positions| {
      assert rest[..width] == positions[i..i + width];
      assert rest[width..] == positions[i + width..];
    } else {
      assert rest == positions[i..|positions|];
    }
  }

  lemma NoChunks(width: nat)
    requires width > 0
    ensures ChunksOf([], width) == []
  {
  }

  method CutChunks(positions: seq<Position>, width: nat) returns (chunks: seq<Chunk>)
    requires width > 0
    ensures chunks == ChunksOf(positions, width)
  {
    hide ChunksOf;
    chunks := [];
    var i := 0;
    NoChunks(width);
    assert positions[0..] == positions;
    while i < |positions|
      invariant 0 <= i
      invariant ChunksOf(positions, width) == chunks + if i < |positions| then ChunksOf(positions[i..], width) else []
      decreases |positions| - i
    {
      var end := if i + width < |positions| then i + width else |positions|;
      CutOne(positions, i, width);
      chunks := chunks + [positions[i..end]];
      i := i + width;
    }
  }

  lemma {:induction false} CountChunks(positions: seq<Position>, width: nat)
    requires width > 0
    ensures |ChunksOf(positions, width)| == (|positions| + width - 1) / width
    decreases |positions|
  {
    if |positions| > width {
      CountChunks(positions[width..], width);
      OneMoreChunk(|positions|, width);
    } else if positions != [] {
      CeilingOfOne(|positions|, width);
    } else {
      CeilingOfNone(width);
    }
  }

  lemma OneMoreChunk(n: nat, width: nat)
    requires 0 < width < n
    ensures (n + width - 1) / width == (n - width + width - 1) / width + 1
  {
    assert (n - 1) / width + 1 == (n - 1 + width) / width by {
      var q, r := (n - 1) / width, (n - 1) % width;
      assert n - 1 == q * width + r;
      assert n - 1 + width == (q + 1) * width + r;
      QuotientIs(n - 1 + width, width, q + 1, r);
    }
  }

  lemma MultipleAtLeast(k: int, width: nat)
    requires k >= 1
    ensures k * width >= width
  {
  }

  lemma QuotientIs(x: int, width: nat, q: int, r: int)
    requires 0 <= r < width && x == q * width + r
    ensures x / width == q
  {
    var p := x / width;
    if p < q {
      MultipleAtLeast(q - p, width);
    } else if p > q {
      MultipleAtLeast(p - q, width);
    }
  }

  lemma CeilingOfOne(n: nat, width: nat)
    requires 0 < n <= width
    ensures (n + width - 1) / width == 1
  {
    QuotientIs(n + width - 1, width, 1, n - 1);
  }

  lemma CeilingOfNone(width: nat)
    requires width > 0
    ensures (0 + width - 1) / width == 0
  {
    QuotientIs(width - 1, width, 0, width - 1);
  }

  function Unreleased(released: bool, rows: seq<Movement>, a: AccountRef): int {
    if released then 0 else WalletTotal(rows, |rows|, a)
  }

  function WalletTotal(rows: seq<Movement>, n: nat, a: AccountRef): int
    requires n <= |rows|
  {
    if IsWalletAccount(a) then MovementTotal(rows, n, a) else 0
  }

  // ---- The session --------------------------------------------------------------------

  class InstanceSession {
    const host: Host
    const journal: MovementStore
    const reservations: Reservations
    const sessionId: string
    const maxBatch: nat
    const chunkWidth: nat

    var outcomes: map<string, MovementOutcome>
    var settled: bool
    var replayForced: bool
    var released: bool
    var accepted: seq<Movement>
    var pending: seq<Movement>
    var opening: map<AccountRef, int>
    var head: SessionHash
    var seq_: nat

    constructor (host: Host, journal: MovementStore, reservations: Reservations, sessionId: string, maxBatch: nat,
        chunkWidth: nat)
      requires chunkWidth > 0
      ensures this.host == host && this.journal == journal && this.reservations == reservations
      ensures this.sessionId == sessionId && this.maxBatch == maxBatch && this.chunkWidth == chunkWidth
      ensures Untouched() && Valid()
    {
      this.host, this.journal, this.reservations := host, journal, reservations;
      this.sessionId, this.maxBatch, this.chunkWidth := sessionId, maxBatch, chunkWidth;
      outcomes, settled, replayForced, released := map[], false, false, false;
      accepted, pending, opening, head, seq_ := [], [], map[], SessionGenesis, 0;
    }

    predicate Untouched()
      reads this
    {
      && outcomes == map[] && !settled && !replayForced && !released
      && accepted == [] && pending == [] && opening == map[] && head == SessionGenesis && seq_ == 0
    }

    ghost predicate OutcomesTrue()
      reads this`outcomes, this`accepted
    {
      && (forall key :: key in outcomes && outcomes[key].Accepted? ==>
            outcomes[key].seq_ < |accepted| && accepted[outcomes[key].seq_].key == key)
      && forall k :: 0 <= k < |accepted| ==> accepted[k].key in outcomes
    }

    /** The accepted movements are a well-formed, chained journal. */
    ghost predicate AcceptedOk()
      reads this`accepted, this`head, this`seq_
    {
      && chunkWidth > 0 && WellFormedJournal(accepted) && ChainHolds(accepted)
      && head == JournalHead(accepted) && seq_ == |accepted|
    }

    /** The accepted movements are a well-formed, chained journal that the outcomes answer for. */
    ghost predicate Valid()
      reads this`outcomes, this`accepted, this`head, this`seq_
    {
      AcceptedOk() && OutcomesTrue()
    }

    function Rows(): seq<Movement>
      reads journal
    {
      journal.BySession(sessionId)
    }

    /** The journal and the batch in memory together hold every accepted movement. */
    ghost predicate Journaled()
      reads this`accepted, this`pending, journal
    {
      Rows() + pending == accepted
    }

    /** What the journal holds of every other session. */
    ghost function OthersJournals(): map<string, seq<Movement>>
      reads journal
    {
      map sid | sid in journal.rows && sid != sessionId :: journal.rows[sid]
    }

    /** Whatever was lost on the way, only accepted movements are journaled or waiting to be. */
    ghost predicate Drawn()
      reads this`accepted, this`pending, journal
    {
      forall m :: m in Rows() || m in pending ==> m in accepted
    }

    /** The balance the screen works from: the first read of an account, kept. */
    ghost function OpeningOf(a: AccountRef): int
      reads this`opening, host, host.ledger
    {
      if a in opening then opening[a] else BalanceOf(host.ledger.View(), a)
    }

    ghost function ScreenBase(): (base: AccountRef -> int)
      reads this`opening, host, host.ledger, reservations
      ensures forall a :: base(a) == OpeningOf(a) + reservations.Total(a)
    {
      var openings, balances, totals := opening, host.ledger.balances, reservations.pending;
      a => (if a in openings then openings[a] else if a in balances then balances[a] else 0)
        + if a in totals then totals[a] else 0
    }

    method OpeningBalance(a: AccountRef) returns (minor: int)
      modifies this`opening
      ensures minor == old(OpeningOf(a)) && opening == old(opening)[a := minor]
      ensures a in old(opening) ==> minor == old(opening)[a]
      ensures a !in old(opening) && a in host.ledger.balances ==> minor == host.ledger.balances[a]
      ensures forall b :: OpeningOf(b) == old(OpeningOf(b))
    {
      if a in opening {
        minor := opening[a];
        assert opening == opening[a := minor];
        return;
      }
      minor := host.ledger.Balance(a);
      opening := opening[a := minor];
    }

    /** Backs out what a failed movement applied, newest first. */
    method Unwind(applied: seq<Applied>)
      modifies reservations
      ensures forall a :: reservations.Total(a) == old(reservations.Total(a)) - AppliedSum(applied, a)
    {
      var k := |applied|;
      assert applied[..k] == applied;
      while k > 0
        invariant 0 <= k <= |applied|
        invariant forall a ::
          reservations.Total(a) == old(reservations.Total(a)) - AppliedSum(applied, a) + AppliedSum(applied[..k], a)
      {
        k := k - 1;
        PrefixStep(applied, k);
        var total := reservations.Add(applied[k].account, -applied[k].delta);
      }
    }

    /** Adds one wallet leg to the registry and checks a debit against the total that comes back. */
    method ReserveLeg(leg: Leg) returns (r: Screen)
      requires IsWalletAccount(leg.account)
      modifies this`opening, reservations
      ensures r.Reserved? || r.Insufficient? || r.Overflowed?
      ensures r.Overflowed? <==> !InI64(BalanceDelta(leg))
      ensures r.Insufficient? <==>
        InI64(BalanceDelta(leg)) && BalanceDelta(leg) < 0
        && OpeningOf(leg.account) + old(reservations.Total(leg.account)) + BalanceDelta(leg) < 0
      ensures forall a ::
        reservations.Total(a) == old(reservations.Total(a))
        + if a == leg.account && !r.Overflowed? then BalanceDelta(leg) else 0
      ensures forall a :: OpeningOf(a) == old(OpeningOf(a))
    {
      var delta := BalanceDelta(leg);
      if !InI64(delta) {
        return Overflowed;
      }
      var total := reservations.Add(leg.account, delta);
      if delta < 0 {
        var first := OpeningBalance(leg.account);
        if first + total < 0 {
          return Insufficient;
        }
      }
      return Reserved;
    }

    /**
     Add, then check, per wallet leg. A movement that fails leaves every pending total as if it had
     never run; one that passes had each of its debits covered at that point.
     */
    method ReserveLegs(legs: seq<Leg>) returns (r: Screen)
      modifies this`opening, reservations
      ensures r.Reserved? || r.Insufficient? || r.Overflowed?
      ensures r.Reserved? <==> AllPass(legs, old(ScreenBase()))
      ensures r.Insufficient? || r.Overflowed? ==> exists i :: StopsAt(legs, old(ScreenBase()), i, r)
      ensures forall a ::
        reservations.Total(a) == old(reservations.Total(a)) + if r.Reserved? then WalletPart(legs, a) else 0
      ensures forall a :: OpeningOf(a) == old(OpeningOf(a))
    {
      ghost var base := ScreenBase();
      hide ScreenBase, LegPasses, WalletPart, AppliedSum, BalanceDelta, StopsAt;
      NothingApplied(legs);
      var applied: seq<Applied> := [];
      for k := 0 to |legs|
        invariant forall a :: AppliedSum(applied, a) == WalletPart(legs[..k], a)
        invariant forall a :: reservations.Total(a) == old(reservations.Total(a)) + WalletPart(legs[..k], a)
        invariant forall a :: OpeningOf(a) == old(OpeningOf(a))
        invariant forall i :: 0 <= i < k ==> LegPasses(legs, base, i)
      {
        WalletPartStep(legs, k);
        LegVerdict(legs, base, k);
        if IsWalletAccount(legs[k].account) {
          r := ReserveLeg(legs[k]);
          if r.Overflowed? {
            ScreenStops(legs, base, k, r);
            Unwind(applied);
            return;
          }
          AppliedSnoc(applied, Applied(legs[k].account, BalanceDelta(legs[k])));
          applied := applied + [Applied(legs[k].account, BalanceDelta(legs[k]))];
          if r.Insufficient? {
            ScreenStops(legs, base, k, r);
            Unwind(applied);
            return;
          }
        }
      }
      assert legs[..|legs|] == legs;
      return Reserved;
    }

    /** Structural wrongness is reported before anything is reserved. */
    method Reserve(legs: seq<Leg>) returns (r: Screen)
      modifies this`opening, reservations
      ensures r.Malformed? <==> !WellTyped(legs)
      ensures r.NotBalanced? <==> WellTyped(legs) && (CurrencySum(legs, CREDIT) != 0 || legs == [])
      ensures r.Reserved? <==>
        WellTyped(legs) && CurrencySum(legs, CREDIT) == 0 && legs != [] && AllPass(legs, old(ScreenBase()))
      ensures r.Insufficient? || r.Overflowed? ==> exists i :: StopsAt(legs, old(ScreenBase()), i, r)
      ensures forall a ::
        reservations.Total(a) == old(reservations.Total(a)) + if r.Reserved? then WalletPart(legs, a) else 0
      ensures forall a :: OpeningOf(a) == old(OpeningOf(a))
    {
      hide AllPass, StopsAt, CurrencySum;
      var typed, sum := SumLegs(legs);
      if !typed {
        return Malformed;
      }
      if sum != 0 || legs == [] {
        return NotBalanced;
      }
      r := ReserveLegs(legs);
    }

    /** Commits the pending batch: one append, and the batch is gone from memory either way. */
    method Flush() returns (ok: bool)
      modifies this`pending, journal
      ensures pending == [] && (old(Drawn()) ==> Drawn())
      ensures ok <==> old(pending) == [] || Appendable(old(Rows()), old(journal.keys), old(pending))
      ensures Rows() == if ok then old(Rows()) + old(pending) else old(Rows())
      ensures journal.keys == if ok then old(journal.keys) + KeysOf(old(pending)) else old(journal.keys)
      ensures OthersJournals() == old(OthersJournals())
    {
      if pending == [] {
        return true;
      }
      var batch := pending;
      pending := [];
      ok := journal.Append(sessionId, batch);
    }

    /** Nothing but this session moves the registry, and the ledger is what the screen first read. */
    ghost predicate Sole()
      reads this`opening, this`accepted, host, host.ledger, reservations
    {
      SoleOn(host.ledger.View(), ScreenBase(), accepted)
    }

    function NextMovement(key: string, legs: seq<Leg>): Movement
      reads this`head, this`seq_
    {
      Movement(seq_, key, legs, head, Chained(head, key, legs))
    }

    /** A movement under this key would complete a batch that the journal refuses. */
    ghost predicate BatchWouldFail(key: string)
      reads this`pending, this`head, this`seq_, journal
    {
      |pending| + 1 >= maxBatch && !Appendable(Rows(), journal.keys, pending + [NextMovement(key, [])])
    }

    /** Chains an admitted movement onto the session. */
    method Admit(key: string, legs: seq<Leg>)
      requires Valid() && WellFormedMovement(legs) && key !in outcomes
      modifies this`outcomes, this`accepted, this`pending, this`head, this`seq_
      ensures Valid()
      ensures accepted == old(accepted) + [old(NextMovement(key, legs))]
      ensures pending == old(pending) + [old(NextMovement(key, legs))]
      ensures outcomes == old(outcomes)[key := Accepted(old(seq_))]
    {
      var movement := NextMovement(key, legs);
      ChainSnoc(accepted, movement);
      JournalSnoc(accepted, movement);
      seq_ := seq_ + 1;
      head := movement.hash;
      accepted := accepted + [movement];
      pending := pending + [movement];
      outcomes := outcomes[key := Accepted(movement.seq_)];
    }

    /** Chains a reserved movement and, when the batch is full, journals it. */
    method Enqueue(key: string, legs: seq<Leg>) returns (r: Recorded)
      requires Valid() && WellFormedMovement(legs) && key !in outcomes
      modifies this`outcomes, this`accepted, this`pending, this`head, this`seq_, journal
      ensures Valid()
      ensures accepted == old(accepted) + [old(NextMovement(key, legs))]
      ensures r == Answered(Accepted(old(seq_))) || r.JournalRefused?
      ensures outcomes == old(outcomes)[key := Accepted(old(seq_))]
      ensures Batched(old(Rows()), old(journal.keys), old(pending), old(NextMovement(key, legs)), maxBatch,
        r.JournalRefused?, Rows(), journal.keys, pending)
      ensures old(Journaled()) && !r.JournalRefused? ==> Journaled()
      ensures old(Drawn()) ==> Drawn()
      ensures OthersJournals() == old(OthersJournals())
    {
      hide WellFormedJournal, ChainHolds, CurrencySum;
      var answer := Answered(Accepted(seq_));
      Admit(key, legs);
      if |pending| >= maxBatch {
        var ok := Flush();
        if !ok {
          return JournalRefused;
        }
      }
      return answer;
    }

    method Deny(key: string)
      requires Valid() && key !in outcomes
      modifies this`outcomes
      ensures Valid() && outcomes == old(outcomes)[key := Rejected(InsufficientFunds)]
    {
      outcomes := outcomes[key := Rejected(InsufficientFunds)];
    }

    /** A key not seen before: accepted exactly when the screen covers it. */
    method Offer(key: string, legs: seq<Leg>) returns (r: Recorded)
      requires Valid() && LegsFit(legs) && key !in outcomes
      modifies this`outcomes, this`accepted, this`pending, this`opening, this`head, this`seq_, reservations, journal
      ensures Valid() && !r.SessionSettled? && forall a :: OpeningOf(a) == old(OpeningOf(a))
      ensures Offered(r, Acceptable(legs, old(ScreenBase())), old(seq_))
      ensures accepted == old(accepted) + if Admitted(r) then [old(NextMovement(key, legs))] else []
      ensures forall a :: ScreenBase()(a) == old(ScreenBase())(a) + if Admitted(r) then WalletPart(legs, a) else 0
      ensures r == Answered(Rejected(InsufficientFunds)) ==>
        exists i :: StopsAt(legs, old(ScreenBase()), i, Insufficient)
      ensures Admitted(r) ==>
        Batched(old(Rows()), old(journal.keys), old(pending), old(NextMovement(key, legs)), maxBatch,
        r.JournalRefused?, Rows(), journal.keys, pending)
      ensures !Admitted(r) ==> pending == old(pending) && Rows() == old(Rows()) && journal.keys == old(journal.keys)
      ensures Admitted(r) ==> key in outcomes && outcomes[key] == Accepted(old(seq_))
      ensures old(Journaled()) && !r.JournalRefused? ==> Journaled()
      ensures old(Drawn()) ==> Drawn()
      ensures OthersJournals() == old(OthersJournals())
      ensures outcomes.Keys == if r.BadMovement? then old(outcomes).Keys else old(outcomes).Keys + {key}
      ensures outcomes == if r.BadMovement? then old(outcomes)
        else old(outcomes)[key := if Admitted(r) then Accepted(old(seq_)) else Rejected(InsufficientFunds)]
      ensures r == BadMovement(Malformed) <==> !WellTyped(legs)
      ensures r == BadMovement(NotBalanced) <==> WellTyped(legs) && (CurrencySum(legs, CREDIT) != 0 || legs == [])
      ensures r.BadMovement? ==> !FitMovement(legs)
    {
      hide Acceptable, AllPass, StopsAt, Valid, CurrencySum, Batched, WalletPart, WellTyped, LegsFit, Drawn;
      ghost var base := ScreenBase();
      var screen := Reserve(legs);
      match screen {
        case Reserved =>
          ReservedIsAcceptable(legs, base);
          r := Enqueue(key, legs);
        case Insufficient =>
          NotAcceptable(legs, base);
          Deny(key);
          r := Answered(Rejected(InsufficientFunds));
        case _ =>
          NotAcceptable(legs, base);
          OverflowIsUnfit(legs, base);
          r := BadMovement(screen);
      }
    }

    /**
     Accepts or rejects one movement. A settled session refuses, a seen key replays its answer, and
     neither changes anything.
     */
    method Record(key: string, legs: seq<Leg>) returns (r: Recorded)
      requires Valid() && LegsFit(legs)
      modifies this`outcomes, this`accepted, this`pending, this`opening, this`head, this`seq_, reservations, journal
      ensures Valid() && forall a :: OpeningOf(a) == old(OpeningOf(a))
      ensures settled <==> r.SessionSettled?
      ensures !settled && key in old(outcomes) ==> r == Answered(old(outcomes)[key])
      ensures settled || key in old(outcomes) ==> accepted == old(accepted) && ScreenBase() == old(ScreenBase())
      ensures settled || key in old(outcomes) || !Admitted(r) ==>
        pending == old(pending) && Rows() == old(Rows()) && journal.keys == old(journal.keys)
      ensures !settled && key !in old(outcomes) && Admitted(r) ==>
        && Batched(old(Rows()), old(journal.keys), old(pending), old(NextMovement(key, legs)), maxBatch,
          r.JournalRefused?, Rows(), journal.keys, pending)
        && key in outcomes && outcomes[key] == Accepted(old(seq_))
      ensures !settled && key !in old(outcomes) ==> Offered(r, Acceptable(legs, old(ScreenBase())), old(seq_))
      ensures !settled && key !in old(outcomes) ==>
        && accepted == old(accepted) + (if Admitted(r) then [old(NextMovement(key, legs))] else [])
        && forall a :: ScreenBase()(a) == old(ScreenBase())(a) + if Admitted(r) then WalletPart(legs, a) else 0
      ensures !settled && key !in old(outcomes) ==>
        (r.JournalRefused? <==> Acceptable(legs, old(ScreenBase())) && old(BatchWouldFail(key)))
      ensures old(Journaled()) && !r.JournalRefused? ==> Journaled()
      ensures old(Drawn()) ==> Drawn()
      ensures OthersJournals() == old(OthersJournals())
      ensures old(Sole()) ==> Sole()
      ensures outcomes.Keys == if r.BadMovement? || settled then old(outcomes).Keys else old(outcomes).Keys + {key}
      ensures settled || key in old(outcomes) || r.BadMovement? ==> outcomes == old(outcomes)
      ensures !settled && key !in old(outcomes) && !r.BadMovement? ==>
        outcomes == old(outcomes)[key := if Admitted(r) then Accepted(old(seq_)) else Rejected(InsufficientFunds)]
      ensures !settled && key !in old(outcomes) ==>
        && (r == BadMovement(Malformed) <==> !WellTyped(legs))
        && (r == BadMovement(NotBalanced) <==> WellTyped(legs) && (CurrencySum(legs, CREDIT) != 0 || legs == []))
        && (r.BadMovement? ==> !FitMovement(legs))
    {
      hide Acceptable, Valid, Drawn, CurrencySum, SoleOn, Batched, WalletPart, LegsFit;
      if settled {
        return SessionSettled;
      }
      if key in outcomes {
        return Answered(outcomes[key]);
      }
      ghost var base, before, movement := ScreenBase(), accepted, NextMovement(key, legs);
      ghost var rows, keys, batch := Rows(), journal.keys, pending;
      AppendableByKeys(rows, keys, batch, movement, NextMovement(key, []));
      r := Offer(key, legs);
      if Admitted(r) {
        RefusedBatch(rows, keys, batch, movement, maxBatch, r.JournalRefused?, Rows(), journal.keys, pending);
      }
      if old(Sole()) {
        if Admitted(r) {
          AcceptablePasses(legs, base);
          SoleSnoc(host.ledger.View(), base, ScreenBase(), before, movement);
        } else {
          assert accepted == before;
          SoleSame(host.ledger.View(), base, ScreenBase(), before);
        }
      }
    }

    /** Reads the journal back and re-derives its chain. */
    method ReadJournal() returns (ok: bool, movements: seq<Movement>)
      ensures movements == Rows()
      ensures ok <==> ChainHolds(movements)
    {
      movements := journal.BySession(sessionId);
      var prev := SessionGenesis;
      for k := 0 to |movements|
        invariant prev == PrevOf(movements, k)
        invariant forall i :: 0 <= i < k ==> RowDerives(movements, i)
      {
        var recomputed := Chained(prev, movements[k].key, movements[k].legs);
        if movements[k].prevHash != prev || movements[k].hash != recomputed {
          assert !RowDerives(movements, k);
          return false, movements;
        }
        prev := movements[k].hash;
      }
      return true, movements;
    }

    // ---- Settle -----------------------------------------------------------------------

    method PostChunk(chunk: Chunk, i: nat, compensate: bool) returns (v: Verdict)
      modifies host, host.ledger
      ensures Step(host.World(), v) == Settlement.PostChunk(sessionId, chunk, i, compensate, old(host.World()))
    {
      hide Settlement.Transact;
      var clearing, legs: seq<Leg> := 0, [];
      for k := 0 to |chunk|
        invariant legs == ParticipantLegs(chunk[..k], compensate) && LegsFit(legs)
        invariant clearing == Side(-SumOf(chunk[..k]), compensate)
        invariant host.World() == old(host.World())
      {
        PrefixStep(chunk, k);
        var minor := Side(chunk[k].minor, compensate);
        clearing := clearing - minor;
        if !InI64(minor) {
          UnfitParticipant(chunk, compensate, k);
          return Refused(AmountOverflow);
        }
        legs := legs + [Leg(chunk[k].account, CREDIT, minor)];
      }
      assert chunk[..|chunk|] == chunk;
      if clearing != 0 {
        legs := legs + [Leg(NETTING_CLEARING, CREDIT, clearing)];
        if !InI64(clearing) {
          UnfitClearing(chunk, compensate);
          return Refused(AmountOverflow);
        }
      }
      assert legs == ChunkLegs(chunk, compensate);
      v := host.Transact(Posting(ChunkId(sessionId, i, compensate), legs, "instance_settlement"));
    }

    /** The fallback: every movement its own posting, with its own outcome. */
    method Replay(movements: seq<Movement>) returns (died: bool, postings: nat, rejected: seq<Rejection>)
      modifies this`outcomes, host, host.ledger
      ensures ReplayState(host.World(), postings, rejected, died) ==
        Settlement.Replay(sessionId, movements, |movements|, old(host.World()))
      ensures outcomes == Renounce(old(outcomes), rejected)
      ensures old(OutcomesTrue()) ==> OutcomesTrue()
    {
      ghost var before, wereTrue := outcomes, OutcomesTrue();
      hide Settlement.Transact;
      died, postings, rejected := false, 0, [];
      for k := 0 to |movements|
        invariant ReplayState(host.World(), postings, rejected, died) ==
          Settlement.Replay(sessionId, movements, k, old(host.World()))
        invariant !died && outcomes == Renounce(old(outcomes), rejected)
      {
        var v := host.Transact(MovementPosting(sessionId, movements[k]));
        match v {
          case Done => postings := postings + 1;
          case Refused(f) =>
            RenounceSnoc(old(outcomes), rejected, Rejection(movements[k].key, f));
            rejected := rejected + [Rejection(movements[k].key, f)];
            outcomes := outcomes[movements[k].key := Rejected(LedgerRefused(f))];
          case Crashed =>
            died := true;
            if wereTrue {
              RenouncedIsTrue(before, rejected);
            }
            DeadStaysDead(sessionId, movements, k + 1, old(host.World()));
            return;
        }
      }
      if wereTrue {
        RenouncedIsTrue(before, rejected);
      }
    }

    /** Gives back what the accepted movements reserved, once. */
    method ReleaseReservations()
      modifies this`released, reservations
      ensures released
      ensures forall a :: reservations.Total(a) == old(reservations.Total(a)) - Unreleased(old(released), accepted, a)
    {
      if released {
        return;
      }
      for k := 0 to |accepted|
        invariant forall a :: reservations.Total(a) == old(reservations.Total(a)) - WalletTotal(accepted, k, a)
      {
        var legs := accepted[k].legs;
        for i := 0 to |legs|
          invariant forall a ::
            reservations.Total(a) == old(reservations.Total(a)) - WalletTotal(accepted, k, a) - WalletPart(legs[..i], a)
        {
          WalletPartStep(legs, i);
          if IsWalletAccount(legs[i].account) {
            var total := reservations.Add(legs[i].account, -BalanceDelta(legs[i]));
          }
        }
        assert legs[..|legs|] == legs;
      }
      released := true;
    }

    method ReplayAll(movements: seq<Movement>) returns (o: Outcome)
      modifies this`outcomes, this`released, reservations, host, host.ledger
      ensures Settled(host.World(), o) == Settlement.ReplayAll(sessionId, movements, old(host.World()))
      ensures o.Returned? ==> outcomes == Renounce(old(outcomes), o.report.rejected)
      ensures old(OutcomesTrue()) ==> OutcomesTrue()
      ensures released == (old(released) || o.Returned?)
      ensures forall a ::
        reservations.Total(a) == old(reservations.Total(a))
        - if o.Returned? then Unreleased(old(released), accepted, a) else 0
    {
      hide Settlement.Replay;
      var died, postings, rejected := Replay(movements);
      if died {
        return Died;
      }
      ReleaseReservations();
      return Returned(Report(Replayed, postings, rejected, JournalHead(movements), |movements|));
    }

    /** Posts the chunks in order and lists the ones that went in. */
    method PostChunks(chunks: seq<Chunk>) returns (progress: Progress, posted: seq<nat>)
      modifies host, host.ledger
      ensures Pass(host.World(), progress) == Settlement.PostChunks(sessionId, chunks, 0, old(host.World()))
      ensures progress.RefusedAt? ==> |posted| == progress.index
      ensures |posted| <= |chunks| && forall k :: 0 <= k < |posted| ==> posted[k] == k
    {
      hide Settlement.PostChunk;
      posted := [];
      var i := 0;
      while i < |chunks|
        invariant 0 <= i <= |chunks| && |posted| == i
        invariant forall k :: 0 <= k < i ==> posted[k] == k
        invariant Settlement.PostChunks(sessionId, chunks, 0, old(host.World())) ==
          Settlement.PostChunks(sessionId, chunks, i, host.World())
      {
        var v := PostChunk(chunks[i], i, false);
        if !v.Done? {
          return if v.Refused? then RefusedAt(i, v.fault) else DiedAt(i), posted;
        }
        posted := posted + [i];
        i := i + 1;
      }
      return Finished, posted;
    }

    /** Undoes the posted chunks in reverse. */
    method Compensate(chunks: seq<Chunk>, posted: seq<nat>) returns (progress: Progress)
      requires |posted| <= |chunks| && forall k :: 0 <= k < |posted| ==> posted[k] == k
      modifies host, host.ledger
      ensures Pass(host.World(), progress) == Settlement.Compensate(sessionId, chunks, |posted|, old(host.World()))
    {
      hide Settlement.PostChunk;
      var j := |posted|;
      while j > 0
        invariant 0 <= j <= |posted|
        invariant Settlement.Compensate(sessionId, chunks, |posted|, old(host.World())) ==
          Settlement.Compensate(sessionId, chunks, j, host.World())
      {
        var v := PostChunk(chunks[posted[j - 1]], posted[j - 1], true);
        if !v.Done? {
          return if v.Refused? then RefusedAt(j, v.fault) else DiedAt(j);
        }
        j := j - 1;
      }
      return Finished;
    }

    /** The netted path, failing over to replay when a chunk is refused. */
    method SettleNetted(movements: seq<Movement>, chunks: seq<Chunk>) returns (o: Outcome)
      modifies this`outcomes, this`settled, this`released, reservations, host, host.ledger
      ensures Settled(host.World(), o) == Settlement.SettleNetted(sessionId, movements, chunks, old(host.World()))
      ensures o.Returned? ==> outcomes == Renounce(old(outcomes), o.report.rejected)
      ensures old(OutcomesTrue()) ==> OutcomesTrue()
      ensures released == (old(released) || o.Returned?)
      ensures o.Returned? || old(settled) ==> settled
      ensures forall a ::
        reservations.Total(a) == old(reservations.Total(a))
        - if o.Returned? then Unreleased(old(released), accepted, a) else 0
    {
      hide Settlement.PostChunks, Settlement.Compensate, Settlement.ReplayAll;
      var progress, posted := PostChunks(chunks);
      match progress {
        case DiedAt(_) => return Died;
        case RefusedAt(_, _) =>
          var undone := Compensate(chunks, posted);
          match undone {
            case DiedAt(_) => return Died;
            case RefusedAt(_, f) => return Threw(f);
            case Finished =>
              settled := true;
              o := ReplayAll(movements);
          }
        case Finished =>
          ReleaseReservations();
          settled := true;
          o := Returned(Report(Netted, |chunks|, [], JournalHead(movements), |movements|));
      }
    }

    /** Settles an authenticated journal. */
    method SettleRows(movements: seq<Movement>) returns (o: Outcome)
      requires chunkWidth > 0
      modifies this`outcomes, this`settled, this`released, reservations, host, host.ledger
      ensures Settled(host.World(), o) ==
        Settlement.Settle(sessionId, movements, chunkWidth, replayForced, old(host.World()))
      ensures o.Returned? ==>
        && o.report.netted == |movements|
        && o.report.journalHead == if movements == [] then SessionGenesis else movements[|movements| - 1].hash
      ensures o.Returned? ==> outcomes == Renounce(old(outcomes), o.report.rejected)
      ensures old(OutcomesTrue()) ==> OutcomesTrue()
      ensures released == (old(released) || (o.Returned? && movements != []))
      ensures if movements == [] then settled == old(settled) else o.Returned? ==> settled
      ensures old(settled) ==> settled
      ensures forall a ::
        reservations.Total(a) == old(reservations.Total(a))
        - if o.Returned? && movements != [] then Unreleased(old(released), accepted, a) else 0
    {
      hide Settlement.SettleNetted, Settlement.ReplayAll;
      ReportsWholeJournal(sessionId, movements, chunkWidth, replayForced, host.World());
      if movements == [] {
        return Returned(Report(Netted, 0, [], SessionGenesis, 0));
      }
      if replayForced {
        settled := true;
        o := ReplayAll(movements);
        return;
      }
      var positions := NetPositions(movements);
      var chunks := CutChunks(positions, chunkWidth);
      o := SettleNetted(movements, chunks);
    }

    /** About to settle for the first time; batches may have been lost on the way. */
    ghost predicate LossySettle()
      reads this, host, host.ledger, journal
    {
      && Valid() && Drawn() && !replayForced
      && Fresh(host.ledger.View(), sessionId) && OthersForeign(host.others, sessionId)
    }

    /** The same with nothing lost, whatever others post meanwhile. */
    ghost predicate FirstSettle()
      reads this, host, host.ledger, journal
    {
      LossySettle() && Journaled()
    }

    /** Accepted movements beyond the journal: still answered as before, posted and reported nowhere. */
    ghost predicate Forgotten(r: Settled, before: map<string, MovementOutcome>)
      reads this, journal
    {
      forall k :: |Rows()| <= k < |accepted| ==>
        && Nowhere(r, sessionId, accepted, k)
        && (accepted[k].key in before ==>
          accepted[k].key in outcomes && outcomes[accepted[k].key] == before[accepted[k].key])
    }

    /** And nobody else posts or reserves, and the process lives. */
    ghost predicate QuietSettle()
      reads this, host, host.ledger, journal, reservations
    {
      var s := host.ledger.View();
      && FirstSettle() && Sole() && Ledger.Valid(s) && host.others == []
      && OpenJournal(accepted)
      && host.lives >= 2 * |Chunks(accepted, chunkWidth)| + |accepted|
    }

    /** Remembering rejections takes nothing back from the session's answers. */
    lemma RenouncedIsTrue(before: map<string, MovementOutcome>, rejected: seq<Rejection>)
      requires outcomes == Renounce(before, rejected)
      requires forall key :: key in before && before[key].Accepted? ==>
        before[key].seq_ < |accepted| && accepted[before[key].seq_].key == key
      requires forall k :: 0 <= k < |accepted| ==> accepted[k].key in before
      ensures OutcomesTrue()
    {
      RenounceKeys(before, rejected);
    }

    lemma AnswersAreTrue()
      requires Valid()
      ensures OutcomesTrue() && AcceptedOk()
    {
    }

    lemma StaysValid()
      requires AcceptedOk() && OutcomesTrue()
      ensures Valid()
    {
    }

    lemma DrawnRowsChain()
      requires Valid() && Drawn()
      ensures WellFormed(accepted, chunkWidth) && ChainHolds(accepted)
      ensures ChainHolds(Rows()) <==> Rows() <= accepted
    {
      SurvivorsChain(accepted, Rows());
    }

    lemma LostStayAnswered(r: Settled, before: map<string, MovementOutcome>)
      requires forall k :: |Rows()| <= k < |accepted| ==> Nowhere(r, sessionId, accepted, k)
      requires r.outcome.Returned? ==> outcomes == Renounce(before, r.outcome.report.rejected)
      ensures r.outcome.Returned? ==> Forgotten(r, before)
    {
      if r.outcome.Returned? {
        forall k | |Rows()| <= k < |accepted| && accepted[k].key in before
          ensures accepted[k].key in outcomes && outcomes[accepted[k].key] == before[accepted[k].key]
        {
          assert Nowhere(r, sessionId, accepted, k);
          RenounceOther(before, r.outcome.report.rejected, accepted[k].key);
        }
      }
    }

    /**
     Settles the whole session from its journal, never from memory: a journal that does not re-derive
     touches no ledger, and otherwise the ledger and the report are what module Settlement says.
     */
    method Settle() returns (r: SettleResult)
      requires chunkWidth > 0
      modifies this`outcomes, this`settled, this`released, this`pending, journal, reservations, host, host.ledger
      ensures r.FlushRefused? <==> old(pending) != [] && !Appendable(old(Rows()), old(journal.keys), old(pending))
      ensures pending == [] && Rows() == if r.FlushRefused? then old(Rows()) else old(Rows()) + old(pending)
      ensures r.ChainBroken? <==> !r.FlushRefused? && !ChainHolds(Rows())
      ensures OthersJournals() == old(OthersJournals())
      ensures old(Valid()) ==> Valid()
      ensures r.Ran? && Rows() == [] ==>
        && host.World() == old(host.World()) && settled == old(settled)
        && r.outcome.Returned? && r.outcome.report.rejected == []
      ensures !r.Ran? ==> host.World() == old(host.World()) && settled == old(settled) && outcomes == old(outcomes)
      ensures r.Ran? ==>
        Settled(host.World(), r.outcome) ==
        Settlement.Settle(sessionId, Rows(), chunkWidth, replayForced, old(host.World()))
      ensures r.Ran? && r.outcome.Returned? ==> outcomes == Renounce(old(outcomes), r.outcome.report.rejected)
      ensures r.Ran? && r.outcome.Returned? ==>
        && r.outcome.report.netted == |Rows()|
        && r.outcome.report.journalHead == if Rows() == [] then SessionGenesis else Rows()[|Rows()| - 1].hash
      ensures var finished := r.Ran? && r.outcome.Returned? && Rows() != [];
        && released == (old(released) || finished) && (finished || old(settled) ==> settled)
        && forall a ::
          reservations.Total(a) == old(reservations.Total(a))
          - if finished then Unreleased(old(released), accepted, a) else 0
      ensures old(FirstSettle()) && !r.FlushRefused? ==> r.Ran? && Rows() == accepted
      ensures old(FirstSettle()) && r.Ran? && r.outcome.Returned? ==>
        Exact(host.ledger.View(), sessionId, accepted, r.outcome.report.rejected)
      ensures old(LossySettle()) && !r.FlushRefused? ==> (r.ChainBroken? <==> !(Rows() <= accepted))
      ensures old(LossySettle()) && r.Ran? && r.outcome.Returned? ==>
        && Exact(host.ledger.View(), sessionId, Rows(), r.outcome.report.rejected)
        && SettleReport.ReportIsTrue(r.outcome.report, host.ledger.View(), sessionId, Rows())
        && Forgotten(Settled(host.World(), r.outcome), old(outcomes))
      ensures old(QuietSettle()) && r.Ran? ==>
        AcceptedWhen(old(host.ledger.View()), Settled(host.World(), r.outcome), accepted, chunkWidth)
    {
      hide Settlement.Settle, Fresh, OthersForeign, Exact, WellFormedJournal, ChainHolds, AcceptedWhen, Ledger.Valid,
        SoleOn, OpenJournal, SettleReport.ReportIsTrue;
      hide Valid, OutcomesTrue, AcceptedOk, Drawn, Forgotten, Nowhere, Unreleased, Appendable, OthersJournals;
      ghost var w := host.World();
      ghost var lossy, valid := LossySettle(), Valid();
      ghost var before := outcomes;
      if valid {
        AnswersAreTrue();
      }
      var flushed := Flush();
      if !flushed {
        return FlushRefused;
      }
      if lossy {
        DrawnRowsChain();
      }
      var ok, movements := ReadJournal();
      if !ok {
        return ChainBroken;
      }
      var o := SettleRows(movements);
      if valid {
        StaysValid();
      }
      NothingToSettle(sessionId, chunkWidth, replayForced, w);
      if lossy {
        LostMovementsAreNowhere(sessionId, accepted, movements, chunkWidth, w);
        FirstReportIsTrue(sessionId, accepted, movements, chunkWidth, w);
        LostStayAnswered(Settled(host.World(), o), before);
      }
      if old(QuietSettle()) {
        SoleIsScreened(w.ledger, old(ScreenBase()), movements);
        ScreenedJournalIsRejectedWhen(sessionId, movements, chunkWidth, w.ledger, w.lives);
      }
      return Ran(o);
    }

    // ---- Recovery ---------------------------------------------------------------------

    /** How many chunks the journaled net splits into: a count and a ceiling division. */
    method ChunkCount() returns (n: nat)
      requires chunkWidth > 0
      ensures n == |ChunksOf(Positions(accepted), chunkWidth)|
    {
      var positions := NetPositions(accepted);
      CountChunks(positions, chunkWidth);
      n := (|positions| + chunkWidth - 1) / chunkWidth;
    }

    /** A journal that `record` wrote reloads to a session that could have written it. */
    method Restore(movements: seq<Movement>)
      requires Untouched() && chunkWidth > 0 && ChainHolds(movements)
      modifies this`accepted, this`outcomes, this`head, this`seq_, reservations
      ensures accepted == movements
      ensures WellFormedJournal(movements) ==> Valid()
      ensures forall a :: reservations.Total(a) == old(reservations.Total(a)) + WalletTotal(movements, |movements|, a)
    {
      hide WellFormedMovement, ChainHolds, WalletTotal;
      Reload(movements);
      if WellFormedJournal(movements) && movements != [] {
        assert movements[|movements| - 1].seq_ == |movements| - 1;
      }
    }

    /** Rebuilds outcomes, chain head and reservations from the journal. */
    method Reload(movements: seq<Movement>)
      requires Untouched()
      modifies this`accepted, this`outcomes, this`head, this`seq_, reservations
      ensures accepted == movements && head == JournalHead(movements)
      ensures movements != [] ==> seq_ == movements[|movements| - 1].seq_ + 1
      ensures movements == [] ==> seq_ == 0
      ensures forall key :: key in outcomes <==> exists k :: 0 <= k < |movements| && movements[k].key == key
      ensures forall key :: key in outcomes ==>
        exists k :: 0 <= k < |movements| && movements[k].key == key && outcomes[key] == Accepted(movements[k].seq_)
      ensures forall a :: reservations.Total(a) == old(reservations.Total(a)) + WalletTotal(movements, |movements|, a)
    {
      for k := 0 to |movements|
        invariant accepted == movements[..k] && head == JournalHead(movements[..k])
        invariant seq_ == if k == 0 then 0 else movements[k - 1].seq_ + 1
        invariant forall key :: key in outcomes <==> exists i :: 0 <= i < k && movements[i].key == key
        invariant forall key :: key in outcomes ==>
          exists i :: 0 <= i < k && movements[i].key == key && outcomes[key] == Accepted(movements[i].seq_)
        invariant forall a :: reservations.Total(a) == old(reservations.Total(a)) + WalletTotal(movements, k, a)
      {
        PrefixStep(movements, k);
        Rereserve(movements[k].legs);
        accepted := accepted + [movements[k]];
        outcomes := outcomes[movements[k].key := Accepted(movements[k].seq_)];
        head := movements[k].hash;
        seq_ := movements[k].seq_ + 1;
      }
      assert movements[..|movements|] == movements;
    }

    method Rereserve(legs: seq<Leg>)
      modifies reservations
      ensures forall a :: reservations.Total(a) == old(reservations.Total(a)) + WalletPart(legs, a)
    {
      for i := 0 to |legs|
        invariant forall a :: reservations.Total(a) == old(reservations.Total(a)) + WalletPart(legs[..i], a)
      {
        WalletPartStep(legs, i);
        if IsWalletAccount(legs[i].account) {
          var total := reservations.Add(legs[i].account, BalanceDelta(legs[i]));
        }
      }
      assert legs[..|legs|] == legs;
    }

    method IsPosted(id: TxnId) returns (found: bool)
      ensures found <==> Posted(host.ledger.View(), id)
    {
      PostedIffStored(host.ledger.View(), id);
      found := host.ledger.HasPosting(id);
    }

    /** Any compensation or replayed movement on the ledger means the netted attempt failed over. */
    method FailedOver() returns (forced: bool)
      requires chunkWidth > 0
      ensures forced <==> ReplayForced(host.ledger.View(), sessionId, accepted, chunkWidth)
    {
      hide Posted;
      var n := ChunkCount();
      for i := 0 to n
        invariant forall j :: 0 <= j < i ==> !Posted(host.ledger.View(), CompTxn(sessionId, j))
      {
        forced := IsPosted(CompTxn(sessionId, i));
        if forced {
          return;
        }
      }
      for k := 0 to |accepted|
        invariant forall j :: 0 <= j < k ==> !Posted(host.ledger.View(), ReplayTxn(sessionId, accepted[j].seq_))
      {
        forced := IsPosted(ReplayTxn(sessionId, accepted[k].seq_));
        if forced {
          return;
        }
      }
      forced := false;
    }

    /**
     Rebuilds a session after a crash from the journal and the ledger alone: which settle path is
     safe, and whether the epoch is closed, are read off which transaction ids exist.
     */
    method Recover() returns (ok: bool)
      requires Untouched() && chunkWidth > 0
      modifies this`accepted, this`outcomes, this`head, this`seq_, this`settled, this`replayForced, reservations
      ensures ok <==> ChainHolds(Rows())
      ensures ok ==>
        accepted == Rows() && replayForced == ReplayForced(host.ledger.View(), sessionId, Rows(), chunkWidth)
      ensures ok ==> (settled <==> replayForced || Posted(host.ledger.View(), ChunkTxn(sessionId, 0)))
      ensures forall a ::
        reservations.Total(a) == old(reservations.Total(a)) + if ok then WalletTotal(Rows(), |Rows()|, a) else 0
      ensures ok && WellFormedJournal(Rows()) ==> Valid() && Journaled()
    {
      hide ReplayForced, Posted, WellFormedJournal, ChainHolds, WalletTotal;
      var holds, movements := ReadJournal();
      if !holds {
        return false;
      }
      Restore(movements);
      var forced := FailedOver();
      if forced {
        settled, replayForced := true, true;
        return true;
      }
      settled := IsPosted(ChunkTxn(sessionId, 0));
      return true;
    }
  }
}
