/**
 A concrete pair of settles on one live session: the payer has spent her credits when the chunk is
 tried, is funded again before the movement is replayed, and can pay once more when the session is
 settled again. The second report nets the movement that the first one already replayed.
 */
module SecondSettleRun {
  import opened Accounts
  import opened HalfUndoneRun
  import opened Ledger
  import opened Money
  import opened Recovery
  import opened Screening
  import opened Settlement
  import opened SettlementNet
  import opened SettlementProof
  import opened Text

  /** A transfer out of Alice's wallet, or into it when m is negative. */
  function TransferLegs(to: AccountRef, m: int): seq<Leg> {
    [Leg(ALICE, CREDIT, m), Leg(to, CREDIT, -m)]
  }

  const BUY := Posting(OtherTxn("buy"), TransferLegs(BANK, -10), "")
  const SPEND := Posting(OtherTxn("spend"), TransferLegs(BANK, 10), "")
  const TOP_UP := Posting(OtherTxn("top_up"), TransferLegs(BANK, -20), "")

  const GIFT :=
    Movement(0, "gift", TransferLegs(BOB, 10), SessionGenesis, Chained(SessionGenesis, "gift", TransferLegs(BOB, 10)))

  const GIFTS := [GIFT]

  /** Alice spends before the chunk is tried, and tops up before the replay. */
  const MEANWHILE := [[SPEND], [TOP_UP]]

  ghost predicate Within(s: State, n: int) {
    forall a :: -n <= BalanceOf(s, a) <= n
  }

  lemma TransferDelta(to: AccountRef, m: int, a: AccountRef)
    requires to != ALICE
    ensures DeltaOf(TransferLegs(to, m), a) ==
      if a == ALICE then -m else if a == to then BalanceDelta(Leg(to, CREDIT, -m)) else 0
    ensures DeltaOf(TransferLegs(to, m)[..1], a) == if a == ALICE then -m else 0
    ensures CurrencySum(TransferLegs(to, m), CREDIT) == 0 && CurrencySum(TransferLegs(to, m), USD) == 0
  {
    TwoLegs(TransferLegs(to, m), Leg(ALICE, CREDIT, m), Leg(to, CREDIT, -m), a);
  }

  lemma TransferFits(s: State, to: AccountRef, m: int)
    requires to != ALICE && -100 <= m <= 100 && Within(s, 1000)
    ensures CommitFits(s, TransferLegs(to, m))
  {
    var legs := TransferLegs(to, m);
    TransferDelta(to, m, ALICE);
    TransferDelta(to, m, to);
    assert legs[..2] == legs;
    forall i | 0 <= i < 2 ensures LegFits(s, legs, i) {
      if i == 0 { assert legs[..0 + 1] == legs[..1]; }
    }
  }

  /** Such a transfer goes in exactly when Alice can pay it. */
  lemma Transfer(s: State, p: Posting, to: AccountRef, m: int)
    requires p.legs == TransferLegs(to, m) && (to == BANK || (to == BOB && m > 0))
    requires m != 0 && -100 <= m <= 100 && Within(s, 900) && BalanceOf(s, ALICE) >= 0 && BalanceOf(s, BOB) >= 0
    ensures PostEntry(s, p).Ok? <==> BalanceOf(s, ALICE) >= m
  {
    hide PostEntry, CommitFits, CurrencySum, BalanceOf;
    TransferFits(s, to, m);
    TransferDelta(to, m, ALICE);
    TransferDelta(to, m, to);
    assert AccountsIn(p.legs) == {ALICE, to} by {
      assert p.legs[0].account == ALICE && p.legs[1].account == to;
    }
    if BalanceOf(s, ALICE) >= m {
      PostingGoesIn(s, p);
    } else {
      OverdrawnIsRefused(s, p, ALICE);
    }
  }

  lemma TransferMoves(s: State, p: Posting, to: AccountRef, m: int, n: int, bound: nat)
    requires p.legs == TransferLegs(to, m) && (to == BANK || (to == BOB && m > 0))
    requires m != 0 && -100 <= m <= 100 && bound <= 800
    requires BalanceOf(s, ALICE) == n >= 0 && n >= m && BalanceOf(s, BOB) >= 0 && Within(s, bound)
    ensures PostEntry(s, p).Ok?
    ensures var t := With(s, p); BalanceOf(t, ALICE) == n - m && BalanceOf(t, BOB) >= 0 && Within(t, bound + 100)
  {
    hide PostEntry, BalanceOf, DeltaOf;
    Transfer(s, p, to, m);
    PostEntryEffect(s, p);
    TransferDelta(to, m, ALICE);
    TransferDelta(to, m, BOB);
    forall a ensures -100 <= DeltaOf(p.legs, a) <= 100 {
      TransferDelta(to, m, a);
    }
  }

  /** What the run follows: Alice's balance, and bounds that keep every posting inside its column. */
  ghost predicate AliceHas(s: State, n: int) {
    BalanceOf(s, ALICE) == n && BalanceOf(s, BOB) >= 0 && Within(s, 900)
  }

  function Bought(): State { With(EMPTY, BUY) }
  function Spent(): State { With(Bought(), SPEND) }
  function ToppedUp(): State { With(Spent(), TOP_UP) }
  function Gifted(): State { With(ToppedUp(), MovementPosting(SID, GIFT)) }

  lemma EmptyHasNothing()
    ensures forall a :: BalanceOf(EMPTY, a) == 0
  {
  }

  lemma BalancesOfTheRun()
    ensures PostEntry(EMPTY, BUY).Ok? && AliceHas(Bought(), 10)
    ensures PostEntry(Bought(), SPEND).Ok? && AliceHas(Spent(), 0)
    ensures PostEntry(Spent(), TOP_UP).Ok? && AliceHas(ToppedUp(), 20)
    ensures PostEntry(ToppedUp(), MovementPosting(SID, GIFT)).Ok? && AliceHas(Gifted(), 10)
  {
    hide PostEntry, BalanceOf, With;
    EmptyHasNothing();
    TransferMoves(EMPTY, BUY, BANK, -10, 0, 0);
    TransferMoves(Bought(), SPEND, BANK, 10, 10, 100);
    TransferMoves(Spent(), TOP_UP, BANK, -20, 0, 200);
    TransferMoves(ToppedUp(), MovementPosting(SID, GIFT), BOB, 10, 20, 300);
  }

  // ---- Which ids are on the ledger ----------------------------------------------------

  lemma OwnIsPosted(s: State, p: Posting)
    requires PostEntry(s, p).Ok? && Fresh(s, SID) && OfSession(p.txnId, SID)
    ensures forall id :: OfSession(id, SID) ==> (Posted(With(s, p), id) <==> id == p.txnId)
  {
    hide PostEntry;
    PostedEntry(s, p);
    forall id | OfSession(id, SID) ensures Posted(With(s, p), id) <==> id == p.txnId {
      CountSnoc(s.log, With(s, p).log[|s.log|], id);
      assert !Posted(s, id);
    }
  }

  lemma IdsOfTheRun()
    ensures Fresh(Bought(), SID) && Fresh(Spent(), SID) && Fresh(ToppedUp(), SID)
    ensures forall id :: OfSession(id, SID) ==> (Posted(Gifted(), id) <==> id == ReplayTxn(SID, 0))
  {
    hide PostEntry, With, Fresh, AliceHas;
    BalancesOfTheRun();
    EmptyIsFresh();
    OthersKeepFresh(EMPTY, BUY);
    OthersKeepFresh(Bought(), SPEND);
    OthersKeepFresh(Spent(), TOP_UP);
    OwnIsPosted(ToppedUp(), MovementPosting(SID, GIFT));
  }

  // ---- The journal --------------------------------------------------------------------

  lemma GiftNets()
    ensures AllLegs(GIFTS) == GIFT.legs && DistinctAccounts(GIFT.legs) == [ALICE, BOB]
    ensures RawOf(GIFT.legs, ALICE) == 10 && RawOf(GIFT.legs, BOB) == -10
  {
    var l := GIFT.legs;
    assert GIFTS[..0] == [] && [] + l == l;
    assert l == [] + [l[0]] + [l[1]];
    DistinctSnoc([], l[0]);
    DistinctSnoc([] + [l[0]], l[1]);
    forall a ensures RawOf(l, a) == if a == ALICE then 10 else if a == BOB then -10 else 0 {
      RawSnoc([], l[0], a);
      RawSnoc([] + [l[0]], l[1], a);
    }
  }

  const TAKE := Position(ALICE, 10)
  const GIVE := Position(BOB, -10)

  lemma FirstPosition(legs: seq<Leg>, a: AccountRef)
    requires RawOf(legs, a) != 0
    ensures PositionsOf(legs, [a]) == [Position(a, RawOf(legs, a))]
  {
    assert [a][..0] == [];
  }

  lemma GiftPositions()
    ensures Positions(GIFTS) == [TAKE, GIVE]
  {
    hide RawOf, DistinctAccounts, AllLegs, PositionsOf;
    GiftNets();
    FirstPosition(GIFT.legs, ALICE);
    PositionSnoc(GIFT.legs, [ALICE], BOB);
    assert [ALICE] + [BOB] == [ALICE, BOB];
  }

  lemma GiftIsWellFormed()
    ensures WellFormed(GIFTS, 2)
  {
    TransferDelta(BOB, 10, ALICE);
  }

  lemma GiftChunks()
    ensures WellFormed(GIFTS, 2) && Chunks(GIFTS, 2) == [[TAKE, GIVE]]
    ensures ChunkLegs(Chunks(GIFTS, 2)[0], false) == GIFT.legs
  {
    hide Positions, WellFormed;
    GiftPositions();
    GiftIsWellFormed();
    PairLegs(TAKE, GIVE);
  }

  lemma PairLegs(p: Position, q: Position)
    requires p.minor + q.minor == 0
    ensures ChunkLegs([p, q], false) == [Leg(p.account, CREDIT, p.minor), Leg(q.account, CREDIT, q.minor)]
  {
    assert [p, q][..1] == [p] && [p][..0] == [];
    assert SumOf([p]) == p.minor && SumOf([p, q]) == 0;
    assert ParticipantLegs([p], false) == [Leg(p.account, CREDIT, p.minor)];
    assert ParticipantLegs([p, q], false) == [Leg(p.account, CREDIT, p.minor)] + [Leg(q.account, CREDIT, q.minor)];
  }

  // ---- The two settles ----------------------------------------------------------------

  lemma BeginAfter(w: World, p: Posting)
    requires w.lives > 0 && w.others != [] && w.others[0] == [p] && PostEntry(w.ledger, p).Ok?
    ensures Begin(w) == World(With(w.ledger, p), w.others[1..], w.lives - 1)
  {
    hide PostEntry;
    assert [p][..0] == [];
    assert PostOthers(w.ledger, []) == w.ledger;
  }

  const CHUNK := ChunkPosting(SID, [TAKE, GIVE], 0, false)

  lemma FreshHasNot(s: State, id: TxnId)
    requires Fresh(s, SID) && OfSession(id, SID)
    ensures !Posted(s, id)
  {
  }

  /** Alice has just spent what the chunk would take. */
  lemma ChunkRefused()
    ensures var s := Transact(World(Bought(), MEANWHILE, 2), CHUNK);
      s.verdict.Refused? && s.world == World(Spent(), [[TOP_UP]], 1)
  {
    hide PostEntry, With, Fresh, BalanceOf;
    BalancesOfTheRun();
    IdsOfTheRun();
    PairLegs(TAKE, GIVE);
    BeginAfter(World(Bought(), MEANWHILE, 2), SPEND);
    FreshHasNot(Spent(), CHUNK.txnId);
    Transfer(Spent(), CHUNK, BOB, 10);
  }

  /** Funded again, she can pay for the movement. */
  lemma MovementReplayed()
    ensures Transact(World(Spent(), [[TOP_UP]], 1), MovementPosting(SID, GIFT)) == Step(World(Gifted(), [], 0), Done)
  {
    hide PostEntry, Fresh, BalanceOf;
    BalancesOfTheRun();
    IdsOfTheRun();
    var p := MovementPosting(SID, GIFT);
    BeginAfter(World(Spent(), [[TOP_UP]], 1), TOP_UP);
    FreshHasNot(ToppedUp(), p.txnId);
  }

  /** The chunk now goes in on top of the replay. */
  lemma ChunkGoesIn()
    ensures Transact(World(Gifted(), [], 1), CHUNK).verdict.Done?
  {
    hide PostEntry, With, BalanceOf;
    BalancesOfTheRun();
    IdsOfTheRun();
    PairLegs(TAKE, GIVE);
    assert !Posted(Gifted(), CHUNK.txnId) by { assert OfSession(CHUNK.txnId, SID); }
    Transfer(Gifted(), CHUNK, BOB, 10);
    AloneTransact(World(Gifted(), [], 1), CHUNK);
  }

  lemma FirstReplays()
    ensures var r := Settle(SID, GIFTS, 2, false, World(Bought(), MEANWHILE, 2));
      r.outcome.Returned? && r.outcome.report.mode.Replayed? && r.outcome.report.rejected == []
        && r.world.ledger == Gifted()
  {
    hide Transact, With, Positions, ChunksOf;
    GiftChunks();
    ChunkRefused();
    MovementReplayed();
    var cs := Chunks(GIFTS, 2);
    var w0, w1 := World(Bought(), MEANWHILE, 2), World(Spent(), [[TOP_UP]], 1);
    assert PostChunks(SID, cs, 0, w0) == StoppedAt(Transact(w0, CHUNK), 0);
    assert FailOver(SID, GIFTS, cs, 0, w1) == ReplayAll(SID, GIFTS, w1);
    assert Replay(SID, GIFTS, 0, w1) == ReplayState(w1, 0, [], false);
    assert Replay(SID, GIFTS, 1, w1) == ReplayState(World(Gifted(), [], 0), 1, [], false);
  }

  lemma SecondNets()
    ensures var r := Settle(SID, GIFTS, 2, false, World(Gifted(), [], 1));
      r.outcome.Returned? && r.outcome.report.mode.Netted?
  {
    hide Transact, With, Positions, ChunksOf;
    GiftChunks();
    ChunkGoesIn();
    var cs := Chunks(GIFTS, 2);
    var w := World(Gifted(), [], 1);
    var t := Transact(w, CHUNK).world;
    assert PostChunks(SID, cs, 1, t) == Pass(t, Finished);
    assert PostChunks(SID, cs, 0, w) == Pass(t, Finished);
  }

  /** Nothing was undone, and Alice's gift was replayed. */
  lemma GiftIsNotMadeGood()
    ensures !UndoneIsReplayed(Gifted(), SID, GIFTS, 2)
  {
    hide With;
    IdsOfTheRun();
    GiftChunks();
    TransferDelta(BOB, 10, ALICE);
    assert OfSession(CompTxn(SID, 0), SID) && OfSession(ReplayTxn(SID, 0), SID);
    assert ReplayTally(Gifted().log, SID, GIFTS, 0, ALICE) == 0;
    assert ReplayTally(Gifted().log, SID, GIFTS, 1, ALICE) == -10;
    TallyOfNone(Gifted(), SID, Chunks(GIFTS, 2), true, 1, ALICE);
    assert !UndoneMatches(Gifted(), SID, GIFTS, Chunks(GIFTS, 2), ALICE);
  }

  /**
   From a fresh, funded ledger: the first settle replays and reports nothing rejected; the same live
   session, settled again, nets, reports nothing rejected, and has moved Alice twice.
   */
  lemma SecondSettleDoubleCounts()
    ensures Fresh(Bought(), SID) && WellFormed(GIFTS, 2) && OthersForeign(MEANWHILE, SID)
    ensures var first := Settle(SID, GIFTS, 2, false, World(Bought(), MEANWHILE, 2));
      && first.outcome.Returned? && first.outcome.report.mode.Replayed? && first.outcome.report.rejected == []
      && var second := Settle(SID, GIFTS, 2, false, World(first.world.ledger, [], 1));
      && second.outcome.Returned? && second.outcome.report.mode.Netted? && second.outcome.report.rejected == []
      && !Exact(second.world.ledger, SID, GIFTS, [])
  {
    hide Settle, With, Fresh, Exact, UndoneIsReplayed;
    GiftChunks();
    IdsOfTheRun();
    FirstReplays();
    SecondNets();
    GiftIsNotMadeGood();
    SecondSettleIsExactWhen(SID, GIFTS, 2, World(Bought(), MEANWHILE, 2), [], 1);
  }
}
