/**
 Two runs of a lane (src/instance.ts `runSettle`, `runPurchase`). A purchase after a settle that found
 nothing journaled: the session is still open and accepts it, and no later settle asks the session again.
 And an order tried again whose batch the journal refused: the session remembers it as accepted.
 */
module LateSaleRun {
  import opened Accounts
  import opened HalfUndoneRun
  import opened Lane
  import opened Ledger
  import opened Money
  import opened NettingSession
  import opened Pricing
  import opened Recovery
  import opened SecondSettleRun
  import opened SessionHost
  import opened Settlement
  import opened SettlementProof
  import opened Text
  import LS = LedgerStore
  import Maturity
  import SettlementNet

  const LOTS := [Maturity.Lot(10, "card", 0)]

  const ORDER := Purchase(None, "alice", 10, [Recipient("bob", BPS_TOTAL)])

  /** All ten of Alice's credits are mature. */
  lemma AllMature()
    ensures Maturity.AllPositive(LOTS) && Maturity.MaturedOf(LOTS, 10, 0, map[]) == 10
  {
    assert Maturity.Reversed(LOTS) == LOTS;
    var s := Maturity.SliceOf(LOTS[0], 10, map[]);
    assert Maturity.Slices(LOTS, 10, map[]) == [s] + Maturity.Slices(LOTS[1..], 0, map[]);
    assert Maturity.MaturedSum([s], 0) == 10;
  }

  lemma OrderIsValid(lane: InstanceEconomy)
    ensures lane.InputValid(ORDER)
  {
  }

  /** Nothing has been offered to the lane or its session yet, and the ledger is the funded one. */
  ghost predicate Idle(lane: InstanceEconomy, maxBatch: nat)
    reads lane, lane.session, lane.reservations, lane.session.host, lane.session.host.ledger
  {
    var x := lane.session;
    && lane.Valid() && lane.outcomes == map[] && lane.immatureHeld == map[] && lane.capMinor == None
    && !x.settled && !x.released && x.outcomes == map[] && x.accepted == [] && x.pending == [] && x.opening == map[]
    && x.maxBatch == maxBatch && x.sessionId == SID && x.host.ledger.View() == SecondSettleRun.Bought()
    && forall a :: lane.before(a) == 0
  }

  /** A lane on a session of its own, over a ledger on which Alice has ten credits. */
  method OpenLane() returns (lane: InstanceEconomy)
    ensures Idle(lane, 64) && lane.session.FirstSettle() && lane.settleReport == None && lane.session.Rows() == []
    ensures fresh(lane) && fresh(lane.session) && fresh(lane.reservations) && fresh(lane.session.journal)
    ensures fresh(lane.session.host) && fresh(lane.session.host.ledger)
  {
    hide SecondSettleRun.Bought, Fresh, InstanceSession.Valid, With;
    var session := OpenSession(64);
    lane := new InstanceEconomy(session, None, 0);
  }

  method OpenSession(maxBatch: nat) returns (session: InstanceSession)
    ensures session.Untouched() && session.FirstSettle() && session.Rows() == [] && session.journal.keys == {}
    ensures session.maxBatch == maxBatch && session.sessionId == SID
      && session.host.ledger.View() == SecondSettleRun.Bought()
    ensures forall a :: session.reservations.Total(a) == 0
    ensures fresh(session) && fresh(session.reservations) && fresh(session.journal)
    ensures fresh(session.host) && fresh(session.host.ledger)
  {
    hide PostEntry, With, AliceHas, Fresh;
    var ledger := new LS.LedgerStore();
    BalancesOfTheRun();
    WithAccepted(EMPTY, BUY);
    var fault := ledger.PostEntry(BUY);
    IdsOfTheRun();
    var host := new Host(ledger, [], 9);
    var journal := new MovementStore();
    var registry := new Reservations();
    session := new InstanceSession(host, journal, registry, SID, maxBatch, 8);
  }

  /** Settling such a lane keeps an empty report, and leaves the lane and its session as they were. */
  method SettleIdle(lane: InstanceEconomy) returns (r: LaneReport)
    requires Idle(lane, 64) && lane.session.FirstSettle() && lane.settleReport == None && lane.session.Rows() == []
    modifies lane, lane.session, lane.session.journal, lane.reservations, lane.session.host, lane.session.host.ledger
    ensures Idle(lane, 64) && lane.KeptExactly() && lane.reported == []
    ensures r.LaneReport? && r.report.rejected == [] && lane.settleReport == Some(r.report)
  {
    hide Recovery.Exact, InstanceSession.FirstSettle, InstanceSession.Valid, BookedOn, AllSales, SecondSettleRun.Bought;
    r := lane.RunSettle();
  }

  /** Such a lane still sells. */
  method BuyLate(lane: InstanceEconomy) returns (r: Purchased)
    requires Idle(lane, 64) && lane.KeptExactly()
    modifies lane, lane.session, lane.session.journal, lane.reservations
    ensures IsBought(r) && lane.Valid() && lane.KeptExactly() && !lane.session.released
    ensures |lane.session.accepted| == 1 && PurchaseLegs(lane.session.accepted[0].legs, "alice", 10)
    ensures lane.settleReport == old(lane.settleReport) && lane.reported == old(lane.reported)
  {
    hide Recovery.Exact, InstanceSession.Valid, BookedOn, AllSales, BoundedBy, Maturity.MaturedOf, SessionPrefix,
      KeptOn,
      SecondSettleRun.Bought, PurchaseLegs, InstanceEconomy.BalancesStand;
    AllMature();
    OrderIsValid(lane);
    assert lane.LiveOf("alice") == 10 by {
      BalancesOfTheRun();
    }
    NoneHeld(lane, 64);
    ghost var id: string;
    r, id := lane.RunPurchase(ORDER, LOTS, 0, map[]);
  }

  lemma NoneHeld(lane: InstanceEconomy, maxBatch: nat)
    requires Idle(lane, maxBatch)
    ensures forall a :: PendingIn(lane.reservations.pending, a) == 0
  {
  }

  lemma OnlySale(rows: seq<Movement>)
    requires |rows| == 1 && PurchaseLegs(rows[0].legs, "alice", 10)
    ensures Unreleased(false, rows, ALICE) == -10
  {
    assert rows[..0] + [rows[0]] == rows;
    MovedSnoc([], rows[0], "alice", 10);
    assert [] + [rows[0]] == rows;
    assert MovedOn([], "alice") == 0;
  }

  /**
   Settled empty, then bought, then settled again: the same report, with nothing rejected; the movement is
   not on the ledger, and ten credits stay reserved that were not before.
   */
  method SettleThenBuy() returns (first: LaneReport, bought: Purchased, second: LaneReport, pending: int, posted: bool)
    ensures first.LaneReport? && first.report.rejected == [] && second == first
    ensures IsBought(bought) && pending == -10 && !posted
  {
    hide InstanceSession.Valid, BookedOn, AllSales, BoundedBy, Unreleased, KeptOn, Recovery.Exact,
      SecondSettleRun.Bought, PurchaseLegs, Fresh;
    var lane := OpenLane();
    first := SettleIdle(lane);
    bought := BuyLate(lane);
    OnlySale(lane.session.accepted);
    second := lane.RunSettle();
    pending := lane.reservations.Total(ALICE);
    IdsOfTheRun();
    FreshHasNot(lane.session.host.ledger.View(), ReplayTxn(SID, 0));
    posted := lane.session.IsPosted(ReplayTxn(SID, 0));
  }

  // ---- An order tried again ---------------------------------------------------------------

  const NAMED := Purchase(Some("sess:s:1"), "alice", 10, [Recipient("bob", BPS_TOTAL)])

  lemma NameIsFitting(lane: InstanceEconomy)
    ensures lane.InputValid(NAMED) && SessionPrefix(SID) <= "sess:s:1"
  {
    assert SessionPrefix(SID) == "sess:" + "s" + ":" == "sess:s:";
    assert "sess:s:1"[..7] == "sess:s:";
  }

  /** A lane in batches of one, on a session id whose first position an earlier process has journaled. */
  method OpenCrowdedLane() returns (lane: InstanceEconomy)
    ensures Idle(lane, 1) && lane.session.Rows() == GIFTS
    ensures fresh(lane) && fresh(lane.session) && fresh(lane.reservations) && fresh(lane.session.journal)
    ensures fresh(lane.session.host) && fresh(lane.session.host.ledger)
  {
    hide SecondSettleRun.Bought, Fresh, InstanceSession.Valid, With;
    var session := OpenSession(1);
    var ok := session.journal.Append(SID, GIFTS);
    assert [] + GIFTS == GIFTS;
    lane := new InstanceEconomy(session, None, 0);
  }

  lemma PositionIsTaken(x: InstanceSession, key: string)
    requires x.maxBatch == 1 && x.pending == [] && x.seq_ == 0 && x.Rows() == GIFTS
    ensures x.BatchWouldFail(key)
  {
    var m := x.NextMovement(key, []);
    assert ([] + [m])[0] == m && GIFTS[0].seq_ == m.seq_;
  }

  /** The order's batch is refused, and lost. */
  method LoseOrder(lane: InstanceEconomy) returns (r: Purchased)
    requires Idle(lane, 1) && lane.session.Rows() == GIFTS
    modifies lane, lane.session, lane.session.journal, lane.reservations
    ensures IsLost(r) && lane.Valid() && !lane.session.settled && lane.outcomes == map[] && lane.Remembers("sess:s:1")
    ensures lane.session.Rows() == GIFTS
  {
    hide Recovery.Exact, InstanceSession.Valid, BookedOn, AllSales, BoundedBy, Maturity.MaturedOf, SessionPrefix,
      KeptOn, SecondSettleRun.Bought, PurchaseLegs, InstanceEconomy.BalancesStand, InstanceSession.BatchWouldFail,
      SoldOne;
    AllMature();
    NameIsFitting(lane);
    assert lane.LiveOf("alice") == 10 by {
      BalancesOfTheRun();
    }
    NoneHeld(lane, 1);
    Unnumbered(lane.session);
    PositionIsTaken(lane.session, "sess:s:1");
    ghost var id: string;
    r, id := lane.RunPurchase(NAMED, LOTS, 0, map[]);
  }

  /** Tried again, the order is bought, and still nothing of it is journaled. */
  method LoseThenBuy() returns (lost: Purchased, again: Purchased, rows: nat)
    ensures IsLost(lost) && IsBought(again) && rows == |GIFTS|
  {
    hide Recovery.Exact, InstanceSession.Valid, BookedOn, AllSales, BoundedBy, Maturity.MaturedOf, SessionPrefix,
      KeptOn, SecondSettleRun.Bought, PurchaseLegs, InstanceEconomy.BalancesStand, SoldOne;
    var lane := OpenCrowdedLane();
    lost := LoseOrder(lane);
    AllMature();
    NameIsFitting(lane);
    ghost var id: string;
    again, id := lane.RunPurchase(NAMED, LOTS, 0, map[]);
    rows := |lane.session.Rows()|;
  }

  lemma Unnumbered(x: InstanceSession)
    requires x.Valid() && x.accepted == []
    ensures x.seq_ == 0
  {
  }
}
