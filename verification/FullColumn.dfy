/**
 A screened movement that settle rejects: the seller's balance is the largest an i64 column holds. The
 accept screen works on unbounded integers and looks at debits only; the ledger refuses the credit.
 */
module FullColumnRun {
  import opened Accounts
  import opened HalfUndoneRun
  import opened Ledger
  import opened Money
  import opened Recovery
  import opened Screening
  import opened SecondSettleRun
  import opened Settlement
  import opened SettlementNet
  import opened SettlementProof
  import opened Text

  const EQUITY := Platform(OpeningEquity, 0)

  const FILL := Posting(OtherTxn("fill"), [Leg(BOB, CREDIT, -I64_MAX), Leg(BANK, CREDIT, I64_MAX)], "")
  const PAY := Posting(OtherTxn("pay"), TransferLegs(EQUITY, -10), "")

  function Full(): State { With(With(EMPTY, FILL), PAY) }

  lemma FillGoesIn()
    ensures PostEntry(EMPTY, FILL).Ok?
    ensures forall a :: BalanceOf(With(EMPTY, FILL), a) == if a == BOB || a == BANK then I64_MAX else 0
  {
    hide PostEntry;
    var legs := FILL.legs;
    forall a ensures DeltaOf(legs, a) == if a == BOB || a == BANK then I64_MAX else 0 {
      TwoLegs(legs, legs[0], legs[1], a);
    }
    TwoLegs(legs, legs[0], legs[1], BOB);
    assert legs[..2] == legs;
    forall i | 0 <= i < 2 ensures LegFits(EMPTY, legs, i) {
      if i == 0 { assert legs[..0 + 1] == legs[..1]; }
    }
    PostingGoesIn(EMPTY, FILL);
    PostEntryEffect(EMPTY, FILL);
  }

  lemma PayGoesIn()
    ensures PostEntry(With(EMPTY, FILL), PAY).Ok?
    ensures BalanceOf(Full(), ALICE) == 10 && BalanceOf(Full(), BOB) == I64_MAX
    ensures forall a :: IsWalletAccount(a) ==> BalanceOf(Full(), a) >= 0
  {
    hide PostEntry, BalanceOf, With;
    FillGoesIn();
    var s, legs := With(EMPTY, FILL), PAY.legs;
    forall a ensures DeltaOf(legs, a) == if a == ALICE then 10 else if a == EQUITY then 10 else 0 {
      TransferDelta(EQUITY, -10, a);
    }
    TransferDelta(EQUITY, -10, ALICE);
    TransferDelta(EQUITY, -10, EQUITY);
    assert legs[..2] == legs;
    forall i | 0 <= i < 2 ensures LegFits(s, legs, i) {
      if i == 0 { assert legs[..0 + 1] == legs[..1]; }
    }
    PostingGoesIn(s, PAY);
    PostEntryEffect(s, PAY);
    WithAccepted(s, PAY);
  }

  lemma FullIsFresh()
    ensures Valid(Full()) && Fresh(Full(), SID)
  {
    hide PostEntry, With, Fresh, Valid;
    FillGoesIn();
    PayGoesIn();
    EmptyIsFresh();
    OthersKeepFresh(EMPTY, FILL);
    OthersKeepFresh(With(EMPTY, FILL), PAY);
    EmptyIsValid();
    WithAccepted(EMPTY, FILL);
    PostEntryKeepsValid(EMPTY, FILL);
    var s := With(EMPTY, FILL);
    WithAccepted(s, PAY);
    PostEntryKeepsValid(s, PAY);
  }

  /** The screen has nothing against it: Alice can pay. */
  lemma GiftIsScreened()
    ensures Screened(Full(), GIFTS)
  {
    hide BalanceOf, With, Covered, DeltaOf, Full;
    PayGoesIn();
    forall k: nat, a | k <= 1 && IsWalletAccount(a) ensures Covered(Full(), GIFTS, k, a) {
      GiftIsCovered(Full(), k, a);
    }
  }

  lemma GiftIsCovered(s: State, k: nat, a: AccountRef)
    requires k <= 1 && BalanceOf(s, a) >= 0 && BalanceOf(s, ALICE) == 10
    ensures Covered(s, GIFTS, k, a)
  {
    hide BalanceOf;
    TransferDelta(BOB, 10, a);
    assert MovementTotal(GIFTS, 0, a) == 0;
    assert MovementTotal(GIFTS, 1, a) == DeltaOf(GIFTS[0].legs, a);
  }

  /** Ten more than the column holds. */
  lemma GiftDoesNotFit(p: Posting)
    requires p.legs == GIFT.legs
    ensures PostEntry(Full(), p).Err?
  {
    hide PostEntry, BalanceOf, With;
    PayGoesIn();
    TransferDelta(BOB, 10, BOB);
    assert p.legs[..1 + 1] == p.legs;
    assert !LegFits(Full(), p.legs, 1);
    if PostEntry(Full(), p).Ok? {
      GoesInFits(Full(), p);
    }
  }

  lemma Refused(p: Posting, lives: nat)
    requires p.legs == GIFT.legs && OfSession(p.txnId, SID) && lives > 0
    ensures var s := Transact(World(Full(), [], lives), p);
      s.verdict.Refused? && s.world == World(Full(), [], lives - 1)
  {
    hide PostEntry, With;
    FullIsFresh();
    GiftDoesNotFit(p);
    assert !Posted(Full(), p.txnId);
    AloneTransact(World(Full(), [], lives), p);
  }

  /** Accepted by the screen, refused as a chunk, and rejected by the replay. */
  lemma ScreenedGiftIsRejected()
    ensures Valid(Full()) && Fresh(Full(), SID) && WellFormed(GIFTS, 2) && Screened(Full(), GIFTS)
    ensures var r := Settle(SID, GIFTS, 2, false, World(Full(), [], 2));
      r.outcome.Returned? && |r.outcome.report.rejected| == 1 && r.outcome.report.rejected[0].key == "gift"
  {
    hide Transact, With, Positions, ChunksOf, Valid, Fresh, Screened;
    FullIsFresh();
    GiftIsScreened();
    GiftChunks();
    PairLegs(TAKE, GIVE);
    Refused(CHUNK, 2);
    Refused(MovementPosting(SID, GIFT), 1);
    var cs := Chunks(GIFTS, 2);
    var w0, w1 := World(Full(), [], 2), World(Full(), [], 1);
    assert PostChunks(SID, cs, 0, w0) == StoppedAt(Transact(w0, CHUNK), 0);
    assert FailOver(SID, GIFTS, cs, 0, w1) == ReplayAll(SID, GIFTS, w1);
    assert Replay(SID, GIFTS, 0, w1) == ReplayState(w1, 0, [], false);
    var s := Transact(w1, MovementPosting(SID, GIFT));
    assert Replay(SID, GIFTS, 1, w1) == ReplayState(s.world, 0, [] + [Rejection("gift", s.verdict.fault)], false);
  }
}
