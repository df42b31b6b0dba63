/**
 A concrete run in which the crash point between two compensations is reached: two of four chunks
 go in, the third is refused because its payer has nothing, the process dies after undoing one of
 the two, and recovery reports a replay whose session effect is not what the report says.
 */
module HalfUndoneRun {
  import opened Accounts
  import opened Ledger
  import opened Money
  import opened Recovery
  import opened Screening
  import opened Settlement
  import opened SettlementNet
  import opened SettlementProof
  import opened Text

  const ALICE := Wallet("alice", Spendable)
  const CAROL := Wallet("carol", Spendable)
  const DAVE := Wallet("dave", Spendable)
  const BOB := Wallet("bob", Earned)
  const BANK := Platform(StoredValue, 0)

  /** Alice and Carol are funded, Dave is not. */
  const FUNDING := Posting(OtherTxn("fund"),
    [Leg(ALICE, CREDIT, -10), Leg(CAROL, CREDIT, -5), Leg(BANK, CREDIT, 15)], "")

  const SALE_LEGS := [Leg(ALICE, CREDIT, 10), Leg(CAROL, CREDIT, 5), Leg(DAVE, CREDIT, 5), Leg(BOB, CREDIT, -20)]

  const SALE := Movement(0, "sale", SALE_LEGS, SessionGenesis, Chained(SessionGenesis, "sale", SALE_LEGS))

  const JOURNAL := [SALE]

  const SID := "s"

  /** One wallet's position against clearing: refused exactly when either side would go negative. */
  lemma WalletAgainstClearing(s: State, id: TxnId, w: AccountRef, minor: int, meta: string)
    requires IsWalletAccount(w) && minor != 0 && -1000 <= minor <= 1000
    requires 0 <= BalanceOf(s, w) <= 1000 && 0 <= BalanceOf(s, NETTING_CLEARING) <= 1000
    ensures var p := Posting(id, [Leg(w, CREDIT, minor), Leg(NETTING_CLEARING, CREDIT, -minor)], meta);
      PostEntry(s, p).Ok? <==> BalanceOf(s, w) - minor >= 0 && BalanceOf(s, NETTING_CLEARING) + minor >= 0
  {
    hide PostEntry;
    var x, y := Leg(w, CREDIT, minor), Leg(NETTING_CLEARING, CREDIT, -minor);
    var p := Posting(id, [x, y], meta);
    TwoLegs(p.legs, x, y, w);
    TwoLegs(p.legs, x, y, NETTING_CLEARING);
    assert p.legs[..2] == p.legs;
    assert AccountsIn(p.legs) == {w, NETTING_CLEARING} by {
      assert p.legs[0].account == w && p.legs[1].account == NETTING_CLEARING;
    }
    forall i | 0 <= i < 2 ensures LegFits(s, p.legs, i) {
      if i == 0 { assert p.legs[..0 + 1] == p.legs[..1]; }
    }
    if BalanceOf(s, w) - minor >= 0 && BalanceOf(s, NETTING_CLEARING) + minor >= 0 {
      PostingGoesIn(s, p);
    } else if BalanceOf(s, w) - minor < 0 {
      OverdrawnIsRefused(s, p, w);
    } else {
      OverdrawnIsRefused(s, p, NETTING_CLEARING);
    }
  }

  /** `s` with the posting in it. */
  function With(s: State, p: Posting): State {
    match PostEntry(s, p)
    case Ok(t) => t
    case Err(_) => s
  }

  lemma WithAccepted(s: State, p: Posting)
    requires PostEntry(s, p).Ok?
    ensures With(s, p) == PostEntry(s, p).value
  {
  }

  function Funded(): State {
    With(EMPTY, FUNDING)
  }

  lemma FundingDelta(a: AccountRef)
    ensures DeltaOf(FUNDING.legs, a) == if a == ALICE then 10 else if a == CAROL then 5 else if a == BANK then 15 else 0
    ensures DeltaOf(FUNDING.legs[..2], a) == if a == ALICE then 10 else if a == CAROL then 5 else 0
    ensures DeltaOf(FUNDING.legs[..1], a) == if a == ALICE then 10 else 0
    ensures Balanced(FUNDING.legs)
  {
    var legs := FUNDING.legs;
    ThreeLegs(legs, legs[0], legs[1], legs[2], a);
    TwoLegs([legs[0], legs[1]], legs[0], legs[1], a);
  }

  lemma FundingFits()
    ensures CommitFits(EMPTY, FUNDING.legs)
  {
    var legs := FUNDING.legs;
    FundingDelta(ALICE);
    FundingDelta(CAROL);
    FundingDelta(BANK);
    assert legs[..0 + 1] == legs[..1] && legs[..1 + 1] == legs[..2] && legs[..2 + 1] == legs;
    forall i | 0 <= i < 3 ensures LegFits(EMPTY, legs, i) {
      if i == 0 {
        assert LegFits(EMPTY, legs, 0);
      } else if i == 1 {
        assert LegFits(EMPTY, legs, 1);
      } else {
        assert LegFits(EMPTY, legs, 2);
      }
    }
  }

  lemma FundingIsAccepted()
    ensures PostEntry(EMPTY, FUNDING).Ok? && forall a :: BalanceOf(EMPTY, a) == 0
  {
    hide PostEntry, CommitFits, Balanced;
    FundingFits();
    FundingDelta(ALICE);
    forall a | a in AccountsIn(FUNDING.legs) && IsUserGuarded(a) ensures DeltaOf(FUNDING.legs, a) >= 0 {
      FundingDelta(a);
    }
    PostingGoesIn(EMPTY, FUNDING);
  }

  lemma FundingGoesIn()
    ensures PostEntry(EMPTY, FUNDING).Ok?
    ensures BalanceOf(Funded(), ALICE) == 10 && BalanceOf(Funded(), CAROL) == 5
    ensures BalanceOf(Funded(), DAVE) == 0 && BalanceOf(Funded(), NETTING_CLEARING) == 0
    ensures Fresh(Funded(), SID)
  {
    hide PostEntry, CommitFits, Balanced, BalanceOf, DeltaOf, Fresh;
    FundingIsAccepted();
    PostEntryEffect(EMPTY, FUNDING);
    FundingDelta(ALICE);
    FundingDelta(CAROL);
    FundingDelta(DAVE);
    FundingDelta(NETTING_CLEARING);
    EmptyIsFresh();
    OthersKeepFresh(EMPTY, FUNDING);
  }

  lemma OthersKeepFresh(s: State, p: Posting)
    requires PostEntry(s, p).Ok? && Fresh(s, SID) && !OfSession(p.txnId, SID)
    ensures Fresh(With(s, p), SID)
  {
    hide PostEntry;
    PostedEntry(s, p);
    forall id | OfSession(id, SID) ensures CountId(With(s, p).log, id) == 0 {
      CountSnoc(s.log, With(s, p).log[|s.log|], id);
      assert !Posted(s, id);
    }
  }

  lemma EmptyIsFresh()
    ensures Fresh(EMPTY, SID)
  {
  }

  const P0 := Position(ALICE, 10)
  const P1 := Position(CAROL, 5)
  const P2 := Position(DAVE, 5)
  const P3 := Position(BOB, -20)

  lemma SaleRaw(a: AccountRef)
    ensures RawOf(SALE_LEGS, a) ==
      if a == ALICE then 10 else if a == CAROL then 5 else if a == DAVE then 5 else if a == BOB then -20 else 0
  {
    var l := SALE_LEGS;
    RawSnoc([], l[0], a);
    RawSnoc([] + [l[0]], l[1], a);
    RawSnoc([] + [l[0]] + [l[1]], l[2], a);
    RawSnoc([] + [l[0]] + [l[1]] + [l[2]], l[3], a);
    assert l == [] + [l[0]] + [l[1]] + [l[2]] + [l[3]];
  }

  lemma NewAccount(legs: seq<Leg>, leg: Leg, order: seq<AccountRef>)
    requires DistinctAccounts(legs) == order && leg.account !in order
    ensures DistinctAccounts(legs + [leg]) == order + [leg.account]
  {
    DistinctSnoc(legs, leg);
  }

  lemma SaleAccounts()
    ensures DistinctAccounts(SALE_LEGS) == [ALICE, CAROL, DAVE, BOB]
  {
    hide DistinctAccounts;
    var l := SALE_LEGS;
    NoAccounts();
    NewAccount([], l[0], []);
    NewAccount([] + [l[0]], l[1], [] + [ALICE]);
    NewAccount([] + [l[0]] + [l[1]], l[2], [] + [ALICE] + [CAROL]);
    NewAccount([] + [l[0]] + [l[1]] + [l[2]], l[3], [] + [ALICE] + [CAROL] + [DAVE]);
    assert l == [] + [l[0]] + [l[1]] + [l[2]] + [l[3]];
  }

  lemma NoAccounts()
    ensures DistinctAccounts([]) == []
  {
  }

  lemma JournalPositions()
    ensures Positions(JOURNAL) == [P0, P1, P2, P3]
    ensures AllLegs(JOURNAL) == SALE_LEGS
  {
    hide RawOf, DistinctAccounts;
    var l := SALE_LEGS;
    assert JOURNAL[..0] == [];
    assert AllLegs(JOURNAL) == [] + l;
    SaleAccounts();
    SaleRaw(ALICE);
    SaleRaw(CAROL);
    SaleRaw(DAVE);
    SaleRaw(BOB);
    PositionSnoc(l, [], ALICE);
    PositionSnoc(l, [] + [ALICE], CAROL);
    PositionSnoc(l, [] + [ALICE] + [CAROL], DAVE);
    PositionSnoc(l, [] + [ALICE] + [CAROL] + [DAVE], BOB);
    assert [ALICE, CAROL, DAVE, BOB] == [] + [ALICE] + [CAROL] + [DAVE] + [BOB];
    assert [] + l == l;
    assert PositionsOf(l, []) == [];
    assert PositionsOf(l, DistinctAccounts(l)) == [] + [P0] + [P1] + [P2] + [P3];
  }

  lemma JournalChunks()
    ensures Chunks(JOURNAL, 1) == [[P0], [P1], [P2], [P3]]
  {
    JournalPositions();
    var ps := [P0, P1, P2, P3];
    assert ps[..1] == [P0] && ps[1..] == [P1, P2, P3];
    assert [P1, P2, P3][..1] == [P1] && [P1, P2, P3][1..] == [P2, P3];
    assert [P2, P3][..1] == [P2] && [P2, P3][1..] == [P3];
    assert ChunksOf([P3], 1) == [[P3]];
    assert ChunksOf([P2, P3], 1) == [[P2], [P3]];
    assert ChunksOf([P1, P2, P3], 1) == [[P1], [P2], [P3]];
  }

  lemma JournalWellFormed()
    ensures WellFormed(JOURNAL, 1) && NETTING_CLEARING !in AccountsIn(AllLegs(JOURNAL))
  {
    hide CurrencySum, AllLegs;
    JournalPositions();
    SaleBalances();
    assert WellFormedMovement(SALE_LEGS);
  }

  lemma SaleBalances()
    ensures CurrencySum(SALE_LEGS, CREDIT) == 0
  {
    var l := SALE_LEGS;
    assert l[..3] == [l[0], l[1], l[2]] && l[..3][..2] == [l[0], l[1]];
    TwoLegs([l[0], l[1]], l[0], l[1], ALICE);
    ThreeLegs(l[..3], l[0], l[1], l[2], ALICE);
  }

  lemma SinglePosition(p: Position, compensate: bool)
    requires p.minor != 0
    ensures ChunkLegs([p], compensate) ==
      [Leg(p.account, CREDIT, Side(p.minor, compensate)), Leg(NETTING_CLEARING, CREDIT, Side(-p.minor, compensate))]
  {
    assert [p][..0] == [];
    assert SumOf([p]) == p.minor;
    assert ParticipantLegs([p], compensate) == [Leg(p.account, CREDIT, Side(p.minor, compensate))];
  }

  function Moved(account: AccountRef, m: int, a: AccountRef): int {
    (if a == NETTING_CLEARING then m else 0) - (if a == account then m else 0)
  }

  /** One step of the run: what a single-position chunk does to the two balances it touches. */
  lemma ChunkStep(w: World, p: Position, i: nat, compensate: bool)
    requires w.others == [] && w.lives > 0 && !Posted(w.ledger, ChunkId(SID, i, compensate))
    requires IsWalletAccount(p.account) && p.minor != 0 && -1000 <= p.minor <= 1000
    requires 0 <= BalanceOf(w.ledger, p.account) <= 1000 && 0 <= BalanceOf(w.ledger, NETTING_CLEARING) <= 1000
    ensures var s := PostChunk(SID, [p], i, compensate, w);
      var m := Side(p.minor, compensate);
      && s.world.others == [] && s.world.lives == w.lives - 1
      && (s.verdict.Done? <==>
        BalanceOf(w.ledger, p.account) - m >= 0 && BalanceOf(w.ledger, NETTING_CLEARING) + m >= 0)
      && !s.verdict.Crashed?
      && (s.verdict.Refused? ==> s.world.ledger == w.ledger)
      && (s.verdict.Done? ==>
        forall a :: BalanceOf(s.world.ledger, a) == BalanceOf(w.ledger, a) + Moved(p.account, m, a))
  {
    hide PostEntry, Posted, BalanceOf, DeltaOf, Valid, CommitFits;
    SinglePosition(p, compensate);
    var q := ChunkPosting(SID, [p], i, compensate);
    var m := Side(p.minor, compensate);
    assert q.legs == [Leg(p.account, CREDIT, m), Leg(NETTING_CLEARING, CREDIT, -m)];
    WalletAgainstClearing(w.ledger, q.txnId, p.account, m, q.meta);
    AloneTransact(w, q);
    if PostEntry(w.ledger, q).Ok? {
      PostEntryEffect(w.ledger, q);
      forall a ensures DeltaOf(q.legs, a) == Moved(p.account, m, a) {
        TwoLegs(q.legs, q.legs[0], q.legs[1], a);
      }
    }
  }

  const FIRST_LIFE := Life([], 4)
  const SECOND_LIFE := Life([], 1)

  /** Only the first k of four chunks are on the ledger, and the process has `lives` left. */
  ghost predicate InFlight(w: World, k: nat, lives: nat) {
    && w.others == [] && w.lives == lives && Ready(w, SID, Chunks(JOURNAL, 1), JOURNAL)
    && ForwardTo(w.ledger, SID, 4, 1, k)
  }

  lemma OneMoreIn(w: World, i: nat, lives: nat)
    requires InFlight(w, i, lives + 1) && i < 4 && |Chunks(JOURNAL, 1)| == 4
    requires PostChunk(SID, Chunks(JOURNAL, 1)[i], i, false, w).verdict.Done?
    requires var t := PostChunk(SID, Chunks(JOURNAL, 1)[i], i, false, w).world; t.others == [] && t.lives == lives
    ensures InFlight(PostChunk(SID, Chunks(JOURNAL, 1)[i], i, false, w).world, i + 1, lives)
  {
    hide PostChunk, Chunks;
    PostChunkStep(w, i, false, SID, Chunks(JOURNAL, 1), JOURNAL);
    var t := PostChunk(SID, Chunks(JOURNAL, 1)[i], i, false, w).world;
    forall x | 0 <= x < 4
      ensures Posted(t.ledger, ChunkTxn(SID, x)) <==> x < i + 1
      ensures !Posted(t.ledger, CompTxn(SID, x))
    {
      assert OfSession(ChunkTxn(SID, x), SID) && OfSession(CompTxn(SID, x), SID);
    }
    assert OfSession(ReplayTxn(SID, 0), SID);
  }

  lemma AffordableGoesIn(w: World, p: Position, i: nat, lives: nat)
    requires InFlight(w, i, lives + 1) && i < 4 && |Chunks(JOURNAL, 1)| == 4 && Chunks(JOURNAL, 1)[i] == [p]
    requires IsWalletAccount(p.account) && 0 < p.minor <= BalanceOf(w.ledger, p.account) <= 1000
    requires 0 <= BalanceOf(w.ledger, NETTING_CLEARING) <= 100
    ensures var s := PostChunk(SID, [p], i, false, w);
      && s.verdict.Done? && InFlight(s.world, i + 1, lives)
      && forall a :: BalanceOf(s.world.ledger, a) == BalanceOf(w.ledger, a) + Moved(p.account, p.minor, a)
  {
    hide PostChunk, Chunks;
    ChunkStep(w, p, i, false);
    OneMoreIn(w, i, lives);
  }

  lemma ShortIsRefused(w: World, p: Position, i: nat, lives: nat)
    requires InFlight(w, i, lives + 1) && i < 4 && |Chunks(JOURNAL, 1)| == 4 && Chunks(JOURNAL, 1)[i] == [p]
    requires IsWalletAccount(p.account) && 0 <= BalanceOf(w.ledger, p.account) < p.minor <= 1000
    requires 0 <= BalanceOf(w.ledger, NETTING_CLEARING) <= 100
    ensures var s := PostChunk(SID, [p], i, false, w);
      s.verdict.Refused? && s.world.ledger == w.ledger && InFlight(s.world, i, lives)
  {
    hide PostChunk, Chunks;
    ChunkStep(w, p, i, false);
    PostChunkStep(w, i, false, SID, Chunks(JOURNAL, 1), JOURNAL);
  }

  /** Alice's and Carol's chunks go in; Dave's is refused. */
  lemma ThirdChunkRefused() returns (w: World)
    ensures PostChunks(SID, Chunks(JOURNAL, 1), 0, World(Funded(), [], 4)).world == w
    ensures var p := PostChunks(SID, Chunks(JOURNAL, 1), 0, World(Funded(), [], 4)).progress;
      p.RefusedAt? && p.index == 2
    ensures InFlight(w, 2, 1)
    ensures BalanceOf(w.ledger, CAROL) == 0 && BalanceOf(w.ledger, NETTING_CLEARING) == 15
  {
    hide PostChunk, Funded, Chunks, InFlight;
    JournalChunks();
    var cs := Chunks(JOURNAL, 1);
    var w0 := StartsInFlight();
    AffordableGoesIn(w0, P0, 0, 3);
    var w1 := PostChunk(SID, cs[0], 0, false, w0).world;
    AffordableGoesIn(w1, P1, 1, 2);
    var w2 := PostChunk(SID, cs[1], 1, false, w1).world;
    ShortIsRefused(w2, P2, 2, 1);
    var s := PostChunk(SID, cs[2], 2, false, w2);
    w := s.world;
    assert PostChunks(SID, cs, 2, w2) == StoppedAt(s, 2);
    assert PostChunks(SID, cs, 1, w1) == StoppedAt(s, 2);
  }

  lemma StartsInFlight() returns (w: World)
    ensures w == World(Funded(), [], 4) && InFlight(w, 0, 4)
    ensures BalanceOf(w.ledger, ALICE) == 10 && BalanceOf(w.ledger, CAROL) == 5
    ensures BalanceOf(w.ledger, DAVE) == 0 && BalanceOf(w.ledger, NETTING_CLEARING) == 0
  {
    hide Funded;
    w := World(Funded(), [], 4);
    FundingGoesIn();
    JournalChunks();
    JournalWellFormed();
    FreshIsResumable(Funded(), SID, JOURNAL, 1);
  }

  /** Carol's chunk is undone, then the process is dead. */
  lemma OneUndoneThenDead(w: World)
    requires InFlight(w, 2, 1) && |Chunks(JOURNAL, 1)| == 4
    requires BalanceOf(w.ledger, CAROL) == 0 && BalanceOf(w.ledger, NETTING_CLEARING) == 15
    ensures var c := Compensate(SID, Chunks(JOURNAL, 1), 2, w);
      c.progress.DiedAt? && HalfUndone(c.world.ledger, SID, 4, 1, 2)
  {
    hide PostChunk, Chunks;
    JournalChunks();
    var cs := Chunks(JOURNAL, 1);
    ChunkStep(w, P1, 1, true);
    PostChunkStep(w, 1, true, SID, cs, JOURNAL);
    var w4 := PostChunk(SID, cs[1], 1, true, w).world;
    DeadChunk(w4, P0);
    assert Compensate(SID, cs, 1, w4) == StoppedAt(Step(w4, Crashed), 1);
    forall i | 0 <= i < 4
      ensures Posted(w4.ledger, ChunkTxn(SID, i)) <==> i < 2
      ensures Posted(w4.ledger, CompTxn(SID, i)) <==> 1 <= i < 2
    {
      assert OfSession(ChunkTxn(SID, i), SID) && OfSession(CompTxn(SID, i), SID);
    }
  }

  /** Two chunks in, the third refused, one compensation, dead. */
  lemma FirstLifeEndsHalfUndone()
    ensures var r := Settle(SID, JOURNAL, 1, false, World(Funded(), [], 4));
      r.outcome.Died? && HalfUndone(r.world.ledger, SID, 4, 1, 2)
  {
    hide PostChunks, Compensate, Funded;
    JournalChunks();
    var w := ThirdChunkRefused();
    OneUndoneThenDead(w);
  }

  lemma DeadChunk(w: World, p: Position)
    requires w.lives == 0 && p.minor != 0 && -1000 <= p.minor <= 1000
    ensures PostChunk(SID, [p], 0, true, w) == Step(w, Crashed)
  {
    SinglePosition(p, true);
  }

  /** Alive, a one-movement replay returns. */
  lemma SecondLifeReturns(s: State)
    ensures ReplayAll(SID, JOURNAL, World(s, [], 1)).outcome.Returned?
  {
    hide PostEntry;
    assert Replay(SID, JOURNAL, 0, World(s, [], 1)) == ReplayState(World(s, [], 1), 0, [], false);
  }

  lemma HalfUndoneIsStranded(s: State)
    requires HalfUndone(s, SID, 4, 1, 2)
    ensures Stranded(s, SID, JOURNAL, 1)
  {
    hide Posted, Chunks;
    JournalChunks();
    HalfUndoneIsForced(s, SID, JOURNAL, 1, 1, 2);
    assert Standing(s, SID, 0) && Chunks(JOURNAL, 1)[0] == [P0];
    assert [P0][0].account != NETTING_CLEARING;
  }

  /** The counterexample: from a fresh, funded ledger, two lives, and a report that is not exact. */
  lemma CrashBetweenCompensationsBreaksRecovery()
    ensures Fresh(Funded(), SID) && WellFormed(JOURNAL, 1)
    ensures var r := Recover(SID, JOURNAL, 1, Funded(), [FIRST_LIFE, SECOND_LIFE]);
      r.outcome.Returned? && !Exact(r.world.ledger, SID, JOURNAL, r.outcome.report.rejected)
  {
    hide Settle, Funded, ReplayAll, Stranded, Exact, Resumable, HalfUndone;
    FundingGoesIn();
    JournalWellFormed();
    FreshIsResumable(Funded(), SID, JOURNAL, 1);
    FirstLifeEndsHalfUndone();
    var r1 := OneLife(SID, JOURNAL, 1, Funded(), FIRST_LIFE);
    HalfUndoneIsStranded(r1.world.ledger);
    HalfUndoneIsForced(r1.world.ledger, SID, JOURNAL, 1, 1, 2) by { JournalChunks(); }
    SecondLifeReturns(r1.world.ledger);
    SettleForced(World(r1.world.ledger, [], 1));
    assert [FIRST_LIFE, SECOND_LIFE][1..] == [SECOND_LIFE];
    assert SomeLifeStranded(SID, JOURNAL, 1, r1.world.ledger, [SECOND_LIFE]);
    assert Recover(SID, JOURNAL, 1, r1.world.ledger, [SECOND_LIFE]).outcome.Returned?;
    RecoveryIsExactUnlessStranded(SID, JOURNAL, 1, Funded(), [FIRST_LIFE, SECOND_LIFE]);
  }

  lemma SettleForced(w: World)
    ensures Settle(SID, JOURNAL, 1, true, w) == ReplayAll(SID, JOURNAL, w)
  {
    hide ReplayAll, SettleNetted;
  }
}
