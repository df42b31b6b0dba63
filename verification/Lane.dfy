/**
 The instance fast lane (src/instance.ts `InstanceEconomy`), flat fee and no prefund: a purchase parks
 the buyer's immature funds, checks the cap, and records the sale's movement with the session; settle
 asks the session once, keeps its report and gives back what was held.
 */
module Lane {
  import opened Accounts
  import opened Ledger
  import opened Money
  import opened NettingSession
  import opened Pricing
  import opened SessionHost
  import opened SettlementProof
  import opened Text
  import ConcurrentScreen
  import Maturity
  import Recovery
  import Screening
  import Settlement
  import SettlementNet
  import SharedLanes

  datatype Purchase = Purchase(orderId: Option<string>, buyerId: string, price: int, recipients: seq<Recipient>)

  datatype Refusal = RiskDenied | SessionRefused(reason: Reason)

  datatype PurchaseOutcome = Bought(orderId: string, seq_: nat) | Denied(orderId: string, why: Refusal)

  datatype Purchased = Answer(outcome: PurchaseOutcome) | BadInput | SessionThrew(recorded: Recorded)

  datatype LaneReport = LaneReport(report: Settlement.Report) | SettleThrew(result: SettleResult)

  function SessionPrefix(sessionId: string): string {
    "sess:" + sessionId + ":"
  }

  /** At least one recipient, none the buyer, none twice, each with a share, shares summing to the whole. */
  predicate RecipientsValid(recipients: seq<Recipient>, buyer: string) {
    && recipients != [] && ShareTotal(recipients) == BPS_TOTAL
    && (forall i :: 0 <= i < |recipients| ==>
      recipients[i].sellerId != buyer && 0 < recipients[i].shareBps <= BPS_TOTAL)
    && forall i, j :: 0 <= i < j < |recipients| ==> recipients[i].sellerId != recipients[j].sellerId
  }

  lemma ValidRecipientsAreWhole(recipients: seq<Recipient>, buyer: string)
    requires RecipientsValid(recipients, buyer)
    ensures SharesValid(recipients) && SharesWhole(recipients)
  {
  }

  /** The journal gained exactly this order's movement: the buyer's debit, then the sale's credits. */
  predicate SoldOne(was: seq<Settlement.Movement>, rows: seq<Settlement.Movement>, orderId: string, buyer: string,
      price: int)
  {
    && |rows| == |was| + 1 && rows[..|was|] == was
    && rows[|was|].key == orderId && PurchaseLegs(rows[|was|].legs, buyer, price)
  }

  /** What came of an order: bought, or admitted by the session and then lost with its batch. */
  predicate IsBought(r: Purchased) {
    r.Answer? && r.outcome.Bought?
  }

  predicate IsLost(r: Purchased) {
    r.SessionThrew? && r.recorded.JournalRefused?
  }

  /** The lane's own books: what the session has accepted, the answers given, and the spend counted. */
  datatype Books = Books(rows: seq<Settlement.Movement>, outcomes: map<string, PurchaseOutcome>, spent: map<string,
    int>)

  /**
   Whether the session takes an order's movement, answers it as accepted, would lose its batch, or is closed;
   what it has answered for the order before, and the position its next movement gets.
   */
  datatype Decision = Decision(takes: bool, accepts: bool, batchFails: bool, settled: bool,
    known: Option<MovementOutcome>, next: nat)

  /** The answer that goes with it. */
  function AnswerTo(orderId: string, d: Decision): Purchased {
    if d.settled then SessionThrew(SessionSettled)
    else
      match d.known
      case Some(Accepted(q)) => Answer(Bought(orderId, q))
      case Some(Rejected(reason)) => Answer(Denied(orderId, SessionRefused(reason)))
      case None =>
        if !d.takes then Answer(Denied(orderId, SessionRefused(InsufficientFunds)))
        else if d.batchFails then SessionThrew(JournalRefused)
        else Answer(Bought(orderId, d.next))
  }

  /** The answer to an order that reached the session, and what it does to the books. */
  predicate AnsweredAs(r: Purchased, orderId: string, buyer: string, price: int, d: Decision, was: Books, now: Books) {
    && !r.BadInput? && (r.Answer? ==> r.outcome.orderId == orderId)
    && (IsBought(r) <==> d.accepts) && (IsLost(r) <==> d.takes && d.batchFails)
    && r == AnswerTo(orderId, d)
    && (if d.takes then SoldOne(was.rows, now.rows, orderId, buyer, price) else now.rows == was.rows)
    && now.outcomes == (if r.Answer? then was.outcomes[orderId := r.outcome] else was.outcomes)
    && now.spent == (if IsBought(r) then was.spent[buyer := price + if buyer in was.spent then was.spent[buyer] else 0]
                     else was.spent)
  }

  lemma SoldByAnswer(rows: seq<Settlement.Movement>, m: Settlement.Movement, orderId: string, buyer: string, price: int)
    requires m.key == orderId && PurchaseLegs(m.legs, buyer, price)
    ensures SoldOne(rows, rows + [m], orderId, buyer, price)
  {
  }

  /** The loop over the recipients of an order, one check after another. */
  method CheckRecipients(recipients: seq<Recipient>, buyer: string) returns (ok: bool)
    ensures ok <==> RecipientsValid(recipients, buyer)
    ensures ok <==>
      && recipients != [] && ShareTotal(recipients) == 10_000
      && (forall i :: 0 <= i < |recipients| ==> recipients[i].sellerId != buyer)
      && (forall i, j :: 0 <= i < j < |recipients| ==> recipients[i].sellerId != recipients[j].sellerId)
      && (forall i :: 0 <= i < |recipients| ==> 0 < recipients[i].shareBps <= 10_000)
  {
    if |recipients| == 0 {
      return false;
    }
    var total := 0;
    var seen: set<string> := {};
    for k := 0 to |recipients|
      invariant total == ShareTotal(recipients[..k])
      invariant forall u :: u in seen <==> exists i :: 0 <= i < k && recipients[i].sellerId == u
      invariant forall i :: 0 <= i < k ==> recipients[i].sellerId != buyer && 0 < recipients[i].shareBps <= BPS_TOTAL
      invariant forall i, j :: 0 <= i < j < k ==> recipients[i].sellerId != recipients[j].sellerId
    {
      PrefixStep(recipients, k);
      var r := recipients[k];
      if r.sellerId == buyer || r.sellerId in seen || r.shareBps <= 0 || r.shareBps > BPS_TOTAL {
        return false;
      }
      seen := seen + {r.sellerId};
      total := total + r.shareBps;
    }
    assert recipients[..|recipients|] == recipients;
    return total == BPS_TOTAL;
  }

  /** No buyer's counted spend passes the cap, where there is one. */
  ghost predicate CapOn(spent: map<string, int>, cap: Option<int>) {
    cap.Some? ==> forall u :: u in spent ==> spent[u] <= cap.value
  }

  lemma AnsweredWithinCap(r: Purchased, orderId: string, buyer: string, price: int, d: Decision, was: Books, now: Books,
      cap: Option<int>)
    requires AnsweredAs(r, orderId, buyer, price, d, was, now) && CapOn(was.spent, cap)
    requires cap.Some? ==> SpentIn(was.spent, buyer) + price <= cap.value
    ensures CapOn(now.spent, cap)
  {
  }

  /** Whatever was journaled on top moves these legs. */
  predicate AddedWith(was: seq<Settlement.Movement>, rows: seq<Settlement.Movement>, legs: seq<Leg>) {
    forall k :: |was| <= k < |rows| ==> rows[k].legs == legs
  }

  // ---- What a purchase moves -------------------------------------------------------------

  lemma PurchaseIsMovement(legs: seq<Leg>, buyer: string, price: int)
    requires PurchaseLegs(legs, buyer, price) && 0 < price <= I64_MAX
    ensures WellFormedMovement(legs) && Settlement.LegsFit(legs) && FitMovement(legs)
  {
    forall i | 0 <= i < |legs| ensures InI64(legs[i].minor) && legs[i].currency == CREDIT && legs[i].minor != 0 {
      assert i > 0 ==> CreditLine(legs[i]);
    }
  }

  /** Of all spendable balances, it moves the buyer's alone, by exactly the price. */
  lemma {:induction false} SpendableMoved(legs: seq<Leg>, n: nat, buyer: string, price: int, u: string)
    requires PurchaseLegs(legs, buyer, price) && 0 < n <= |legs|
    ensures DeltaOf(legs[..n], SpendableOf(u)) == if u == buyer then -price else 0
  {
    hide DeltaOf, CurrencySum;
    PrefixStep(legs, n - 1);
    DeltaSnoc(legs[..n - 1], legs[n - 1], SpendableOf(u));
    if n > 1 {
      SpendableMoved(legs, n - 1, buyer, price, u);
      assert CreditLine(legs[n - 1]);
    } else {
      NothingMoved(legs, u);
    }
  }

  lemma NothingMoved(legs: seq<Leg>, u: string)
    ensures DeltaOf(legs[..0], SpendableOf(u)) == 0
  {
  }

  lemma PurchaseDelta(legs: seq<Leg>, buyer: string, price: int)
    requires PurchaseLegs(legs, buyer, price)
    ensures forall u :: DeltaOf(legs, SpendableOf(u)) == if u == buyer then -price else 0
  {
    forall u ensures DeltaOf(legs, SpendableOf(u)) == if u == buyer then -price else 0 {
      SpendableMoved(legs, |legs|, buyer, price, u);
      assert legs[..|legs|] == legs;
    }
  }

  /** The screen's first comparison is the buyer's: what is left after the price is not negative. */
  lemma BuyerWasCovered(legs: seq<Leg>, buyer: string, price: int, base: AccountRef -> int)
    requires PurchaseLegs(legs, buyer, price) && 0 < price && Acceptable(legs, base)
    ensures base(SpendableOf(buyer)) - price >= 0
  {
    assert LegPasses(legs, base, 0);
    SpendableMoved(legs, 1, buyer, price, buyer);
  }

  /** A purchase is acceptable exactly when the buyer's spendable balance covers the price. */
  lemma PurchaseIsAcceptableWhen(legs: seq<Leg>, buyer: string, price: int, base: AccountRef -> int)
    requires PurchaseLegs(legs, buyer, price) && 0 < price <= I64_MAX
    ensures Acceptable(legs, base) <==> base(SpendableOf(buyer)) >= price
  {
    PurchaseIsMovement(legs, buyer, price);
    SpendableMoved(legs, 1, buyer, price, buyer);
    assert LegPasses(legs, base, 0) <==> base(SpendableOf(buyer)) >= price;
    forall i | 0 < i < |legs| ensures LegPasses(legs, base, i) {
      assert CreditLine(legs[i]);
    }
  }

  lemma {:induction false} PurchaseParts(legs: seq<Leg>, n: nat, buyer: string, price: int)
    requires PurchaseLegs(legs, buyer, price) && 0 < price && 0 < n <= |legs|
    ensures var parts := ConcurrentScreen.PartsOf(legs[..n]);
      && |parts| > 0 && parts[0] == ConcurrentScreen.Part(SpendableOf(buyer), -price)
      && forall i :: 0 < i < |parts| ==> parts[i].delta > 0
  {
    PrefixStep(legs, n - 1);
    if n > 1 {
      PurchaseParts(legs, n - 1, buyer, price);
      assert CreditLine(legs[n - 1]);
    } else {
      assert legs[..0] == [];
    }
  }

  /** So a purchase is a movement the concurrent accept screens are sound for. */
  lemma PurchaseIsDebitsFirst(legs: seq<Leg>, buyer: string, price: int)
    requires PurchaseLegs(legs, buyer, price) && 0 < price
    ensures ConcurrentScreen.DebitsFirst(ConcurrentScreen.PartsOf(legs))
  {
    PurchaseParts(legs, |legs|, buyer, price);
    assert legs[..|legs|] == legs;
  }

  /** And it is one that a lane may start among others, once it has touched the buyer. */
  lemma PurchaseIsLaneStart(legs: seq<Leg>, buyer: string, price: int, held: map<AccountRef, nat>)
    requires PurchaseLegs(legs, buyer, price) && 0 < price && SpendableOf(buyer) in held
    ensures SharedLanes.DebitsHeld(ConcurrentScreen.PartsOf(legs), held)
  {
    PurchaseParts(legs, |legs|, buyer, price);
    assert legs[..|legs|] == legs;
  }

  function HoldIn(held: map<string, int>, a: AccountRef): nat {
    if a.Wallet? && a.kind.Spendable? && a.owner in held && held[a.owner] > 0 then held[a.owner] else 0
  }

  lemma OneMoreHold(held: map<string, int>, u: string, immature: int)
    ensures HoldIn(held[u := immature], SpendableOf(u)) == if immature > 0 then immature else 0
    ensures u !in held ==> HoldIn(held, SpendableOf(u)) == 0
    ensures forall a :: a != SpendableOf(u) ==> HoldIn(held[u := immature], a) == HoldIn(held, a)
  {
  }

  // ---- The lane's books, as values ---------------------------------------------------------

  function PendingIn(totals: map<AccountRef, int>, a: AccountRef): int {
    if a in totals then totals[a] else 0
  }

  /** The registry is what it was before the lane, less the holds, plus the accepted movements. */
  ghost predicate BookedOn(totals: map<AccountRef, int>, before: AccountRef -> int, held: map<string, int>,
      rows: seq<Settlement.Movement>, released: bool)
  {
    forall a :: PendingIn(totals, a) == before(a) - HoldIn(held, a) + Unreleased(released, rows, a)
  }

  function MovedOn(rows: seq<Settlement.Movement>, u: string): int {
    SettlementNet.MovementTotal(rows, |rows|, SpendableOf(u))
  }

  function SpentIn(spent: map<string, int>, u: string): int {
    if u in spent then spent[u] else 0
  }

  /** What others had reserved into a buyer's balance before the lane opened; lanes never do. */
  function Ahead(before: AccountRef -> int, u: string): nat {
    if before(SpendableOf(u)) > 0 then before(SpendableOf(u)) else 0
  }

  /** The most that was mature of a buyer's balance whenever the lane first touched it. */
  function MostOf(most: map<string, nat>, u: string): nat {
    if u in most then most[u] else 0
  }

  /** No buyer's accepted total passes what was mature at a touch and reserved into the balance before the lane. */
  ghost predicate BoundedBy(most: map<string, nat>, before: AccountRef -> int, rows: seq<Settlement.Movement>) {
    forall u :: -MovedOn(rows, u) <= MostOf(most, u) + Ahead(before, u)
  }

  /** No buyer's counted spend passes what the accepted movements took. */
  ghost predicate CoveredBy(spent: map<string, int>, rows: seq<Settlement.Movement>) {
    forall u :: SpentIn(spent, u) <= -MovedOn(rows, u)
  }

  /** A purchase's legs, the buyer and the price read off the first of them. */
  predicate IsSale(legs: seq<Leg>) {
    && |legs| > 0 && legs[0].account.Wallet? && legs[0].minor > 0
    && PurchaseLegs(legs, legs[0].account.owner, legs[0].minor)
  }

  predicate AllSales(rows: seq<Settlement.Movement>) {
    forall k :: 0 <= k < |rows| ==> IsSale(rows[k].legs)
  }

  /** Purchases only ever take from buyers' spendable balances. */
  lemma {:induction false} SalesTake(rows: seq<Settlement.Movement>, n: nat, u: string)
    requires AllSales(rows) && n <= |rows|
    ensures SettlementNet.MovementTotal(rows, n, SpendableOf(u)) <= 0
    ensures n > 0 && u == rows[0].legs[0].account.owner ==> SettlementNet.MovementTotal(rows, n, SpendableOf(u)) < 0
  {
    if n > 0 {
      SalesTake(rows, n - 1, u);
      var legs := rows[n - 1].legs;
      PurchaseDelta(legs, legs[0].account.owner, legs[0].minor);
    }
  }

  /** So accepted purchases always show on some buyer's balance. */
  lemma SalesShow(rows: seq<Settlement.Movement>)
    requires AllSales(rows) && rows != []
    ensures MovedOn(rows, rows[0].legs[0].account.owner) < 0
  {
    SalesTake(rows, |rows|, rows[0].legs[0].account.owner);
  }

  lemma HoldKeepsBooks(totals: map<AccountRef, int>, totals': map<AccountRef, int>, before: AccountRef -> int,
      held: map<string, int>, rows: seq<Settlement.Movement>, released: bool, u: string, immature: int)
    requires BookedOn(totals, before, held, rows, released) && u !in held
    requires forall a ::
      PendingIn(totals', a) == PendingIn(totals, a) - if a == SpendableOf(u) && immature > 0 then immature else 0
    ensures BookedOn(totals', before, held[u := immature], rows, released)
  {
    hide HoldIn, Unreleased;
    OneMoreHold(held, u, immature);
  }

  lemma MovementKeepsBooks(totals: map<AccountRef, int>, totals': map<AccountRef, int>, before: AccountRef -> int,
      held: map<string, int>, rows: seq<Settlement.Movement>, m: Settlement.Movement)
    requires BookedOn(totals, before, held, rows, false)
    requires forall a :: PendingIn(totals', a) == PendingIn(totals, a) + WalletPart(m.legs, a)
    ensures BookedOn(totals', before, held, rows + [m], false)
  {
    hide HoldIn;
    forall a ensures PendingIn(totals', a) == before(a) - HoldIn(held, a) + Unreleased(false, rows + [m], a) {
      MovementTotalSnoc(rows, m, |rows|, a);
    }
  }

  lemma SamePendingKeepsBooks(totals: map<AccountRef, int>, totals': map<AccountRef, int>, before: AccountRef -> int,
      held: map<string, int>, rows: seq<Settlement.Movement>, released: bool)
    requires BookedOn(totals, before, held, rows, released) && forall a :: PendingIn(totals', a) == PendingIn(totals, a)
    ensures BookedOn(totals', before, held, rows, released)
  {
  }

  lemma MovedSnoc(rows: seq<Settlement.Movement>, m: Settlement.Movement, buyer: string, price: int)
    requires PurchaseLegs(m.legs, buyer, price)
    ensures forall u :: MovedOn(rows + [m], u) == MovedOn(rows, u) - if u == buyer then price else 0
  {
    PurchaseDelta(m.legs, buyer, price);
    forall u ensures MovedOn(rows + [m], u) == MovedOn(rows, u) - if u == buyer then price else 0 {
      MovementTotalSnoc(rows, m, |rows|, SpendableOf(u));
    }
  }

  /**
   What the screen compared bounds the buyer's new total by the balance that was mature at first touch,
   plus what others had reserved into it before the lane.
   */
  lemma SpendWithinMatured(base: AccountRef -> int, totals: map<AccountRef, int>, before: AccountRef -> int,
      held: map<string, int>, rows: seq<Settlement.Movement>, matured: int, buyer: string, price: int)
    requires BookedOn(totals, before, held, rows, false) && buyer in held && base(SpendableOf(buyer)) >= price
    requires base(SpendableOf(buyer)) == matured + held[buyer] + PendingIn(totals, SpendableOf(buyer))
    ensures -MovedOn(rows, buyer) + price <= matured + Ahead(before, buyer)
  {
  }

  lemma SaleKeepsBounds(most: map<string, nat>, before: AccountRef -> int, rows: seq<Settlement.Movement>,
      m: Settlement.Movement, buyer: string, price: int)
    requires BoundedBy(most, before, rows) && PurchaseLegs(m.legs, buyer, price)
    requires -MovedOn(rows, buyer) + price <= MostOf(most, buyer) + Ahead(before, buyer)
    ensures BoundedBy(most, before, rows + [m])
  {
    hide MovedOn;
    MovedSnoc(rows, m, buyer, price);
  }

  lemma SaleKeepsCover(spent: map<string, int>, rows: seq<Settlement.Movement>, m: Settlement.Movement, buyer: string,
      price: int)
    requires CoveredBy(spent, rows) && PurchaseLegs(m.legs, buyer, price) && price > 0
    ensures CoveredBy(spent, rows + [m])
    ensures CoveredBy(spent[buyer := SpentIn(spent, buyer) + price], rows + [m])
  {
    hide MovedOn;
    MovedSnoc(rows, m, buyer, price);
  }

  lemma SaleIsSale(rows: seq<Settlement.Movement>, m: Settlement.Movement, buyer: string, price: int)
    requires AllSales(rows) && PurchaseLegs(m.legs, buyer, price) && price > 0
    ensures AllSales(rows + [m])
  {
  }

  lemma ReleaseKeepsBooks(totals: map<AccountRef, int>, totals': map<AccountRef, int>, before: AccountRef -> int,
      held: map<string, int>, rows: seq<Settlement.Movement>, released: bool, u: string)
    requires BookedOn(totals, before, held, rows, released) && u in held
    requires forall a ::
      PendingIn(totals', a) == PendingIn(totals, a) + if a == SpendableOf(u) && held[u] > 0 then held[u] else 0
    ensures BookedOn(totals', before, held - {u}, rows, released)
  {
    hide Unreleased;
  }

  lemma BooksClosed(totals: map<AccountRef, int>, before: AccountRef -> int, rows: seq<Settlement.Movement>,
      released: bool)
    requires BookedOn(totals, before, map[], rows, released)
    ensures released || rows == [] ==> forall a :: PendingIn(totals, a) == before(a)
  {
  }

  /** The session gives back what the accepted movements reserved. */
  lemma SettleKeepsBooks(totals: map<AccountRef, int>, totals': map<AccountRef, int>, before: AccountRef -> int,
      held: map<string, int>, rows: seq<Settlement.Movement>, released: bool, finished: bool)
    requires BookedOn(totals, before, held, rows, released)
    requires forall a ::
      PendingIn(totals', a) == PendingIn(totals, a) - if finished then Unreleased(released, rows, a) else 0
    ensures BookedOn(totals', before, held, rows, released || finished)
  {
    hide HoldIn, WalletTotal;
  }

  // ---- A kept report -----------------------------------------------------------------------

  /**
   A report that was exact when it was kept: the session then had either released what it accepted, and
   is closed, or accepted nothing.
   */
  ghost predicate KeptOn(s: State, sid: string, report: Settlement.Report, reported: seq<Settlement.Movement>,
      rows: seq<Settlement.Movement>, released: bool)
  {
    && reported <= rows && (released ==> rows == reported) && (!released ==> reported == [] && report.rejected == [])
    && Recovery.Exact(s, sid, reported, report.rejected)
  }

  lemma {:induction false} NothingRejectedTotal(rows: seq<Settlement.Movement>, n: nat, a: AccountRef)
    requires n <= |rows|
    ensures Recovery.AcceptedTotal(rows, [], n, a) == SettlementNet.MovementTotal(rows, n, a)
  {
    Recovery.NothingRejected(rows, n, a);
  }

  /** It is exact for what the session has accepted by now if and only if nothing came after it. */
  lemma KeptReportIsExactWhen(s: State, sid: string, report: Settlement.Report, reported: seq<Settlement.Movement>,
      rows: seq<Settlement.Movement>, released: bool)
    requires KeptOn(s, sid, report, reported, rows, released) && AllSales(rows)
    ensures Recovery.Exact(s, sid, rows, report.rejected) <==> rows == reported
  {
    if rows != reported {
      SalesShow(rows);
      var a := SpendableOf(rows[0].legs[0].account.owner);
      NothingRejectedTotal(rows, |rows|, a);
      assert Recovery.AcceptedTotal([], report.rejected, 0, a) == 0;
    }
  }

  /** Nothing held, the registry is back where it was if and only if all that was accepted is released. */
  lemma RestoredWhen(totals: map<AccountRef, int>, before: AccountRef -> int, rows: seq<Settlement.Movement>,
      released: bool)
    requires BookedOn(totals, before, map[], rows, released) && AllSales(rows)
    ensures (forall a :: PendingIn(totals, a) == before(a)) <==> released || rows == []
  {
    if !released && rows != [] {
      SalesShow(rows);
      var a := SpendableOf(rows[0].legs[0].account.owner);
      assert Unreleased(released, rows, a) == MovedOn(rows, rows[0].legs[0].account.owner);
      assert PendingIn(totals, a) != before(a);
    }
  }

  // ---- The lane --------------------------------------------------------------------------

  class InstanceEconomy {
    const session: InstanceSession
    const reservations: Reservations
    const capMinor: Option<int>
    const feeBps: int

    var outcomes: map<string, PurchaseOutcome>
    var spent: map<string, int>
    var immatureHeld: map<string, int>
    var orderSeq: nat
    var settleReport: Option<Settlement.Report>

    /** For each hold, what was mature when it was parked; and per buyer the most that ever was. */
    ghost var maturedAtTouch: map<string, int>
    ghost var maturedMost: map<string, nat>
    /** What the session had accepted when the report was kept. */
    ghost var reported: seq<Settlement.Movement>
    ghost const before: AccountRef -> int

    constructor (session: InstanceSession, capMinor: Option<int>, feeBps: int)
      requires session.Valid() && session.Untouched() && 0 <= feeBps <= BPS_TOTAL
      ensures this.session == session && this.capMinor == capMinor && this.feeBps == feeBps
      ensures Valid() && Bounded() && Covered() && settleReport == None
      ensures outcomes == map[] && immatureHeld == map[] && maturedAtTouch == map[] && orderSeq == 0
      ensures reservations == session.reservations && forall a :: before(a) == session.reservations.Total(a)
    {
      this.session, this.reservations, this.capMinor, this.feeBps := session, session.reservations, capMinor, feeBps;
      outcomes, spent, immatureHeld, orderSeq, settleReport := map[], map[], map[], 0, None;
      maturedAtTouch, maturedMost, reported := map[], map[], [];
      var totals := session.reservations.pending;
      before := a => if a in totals then totals[a] else 0;
    }

    function SpentOf(u: string): int
      reads this`spent
    {
      SpentIn(spent, u)
    }

    ghost predicate Booked()
      reads this`immatureHeld, session, reservations
    {
      BookedOn(reservations.pending, before, immatureHeld, session.accepted, session.released)
    }

    ghost predicate Frame()
      reads session
    {
      && session.Valid() && session.reservations == reservations && 0 <= feeBps <= BPS_TOTAL
      && (session.released ==> session.settled) && AllSales(session.accepted)
    }

    ghost predicate Valid()
      reads this`immatureHeld, session, reservations
    {
      Frame() && Booked()
    }

    ghost predicate Bounded()
      reads this`maturedMost, session
    {
      BoundedBy(maturedMost, before, session.accepted)
    }

    ghost predicate Covered()
      reads this`spent, session
    {
      CoveredBy(spent, session.accepted)
    }

    /** Nobody has moved a balance since it was read: each hold is still the one its balance would give. */
    ghost predicate BalancesStand()
      reads this`immatureHeld, this`maturedAtTouch, this`maturedMost, session, session.host, session.host.ledger
    {
      && (forall u :: u in immatureHeld ==> HoldStands(u))
      && forall a :: session.OpeningOf(a) == BalanceOf(session.host.ledger.View(), a)
    }

    ghost predicate HoldStands(u: string)
      requires u in immatureHeld
      reads this`immatureHeld, this`maturedAtTouch, this`maturedMost, session, session.host, session.host.ledger
    {
      && u in maturedAtTouch && maturedAtTouch[u] <= MostOf(maturedMost, u)
      && maturedAtTouch[u] + immatureHeld[u] == session.OpeningOf(SpendableOf(u))
    }

    ghost predicate KeptExactly()
      reads this`settleReport, this`reported, session, session.host, session.host.ledger
    {
      settleReport.Some? &&
      KeptOn(session.host.ledger.View(), session.sessionId, settleReport.value, reported, session.accepted,
        session.released)
    }

    /** Every account's pending total is what it was before the lane. */
    ghost predicate Restored()
      reads reservations
    {
      forall a :: reservations.Total(a) == before(a)
    }

    // ---- A purchase ----------------------------------------------------------------------

    method Park(buyer: string, live: int, matured: int)
      modifies this`immatureHeld, this`maturedAtTouch, this`maturedMost, reservations
      ensures immatureHeld == old(immatureHeld)[buyer := live - matured]
      ensures maturedAtTouch == old(maturedAtTouch)[buyer := matured]
      ensures forall u :: MostOf(maturedMost, u) >= MostOf(old(maturedMost), u)
      ensures MostOf(maturedMost, buyer) >= matured
      ensures forall a ::
        PendingIn(reservations.pending, a) == PendingIn(old(reservations.pending), a)
        - if a == SpendableOf(buyer) && live > matured then live - matured else 0
    {
      var immature := live - matured;
      immatureHeld := immatureHeld[buyer := immature];
      maturedAtTouch := maturedAtTouch[buyer := matured];
      if matured > MostOf(maturedMost, buyer) {
        maturedMost := maturedMost[buyer := matured];
      }
      if immature > 0 {
        var total := reservations.Add(SpendableOf(buyer), -immature);
        assert forall a :: old(reservations.Total(a)) == PendingIn(old(reservations.pending), a);
        assert forall a :: reservations.Total(a) == PendingIn(reservations.pending, a);
      }
    }

    ghost function LiveOf(buyer: string): int
      reads session, session.host, session.host.ledger
    {
      BalanceOf(session.host.ledger.View(), SpendableOf(buyer))
    }

    method ReadMatured(buyer: string, lots: seq<Maturity.Lot>, now: int, config: Maturity.Horizons)
        returns (live: int, matured: int)
      requires Maturity.AllPositive(lots)
      ensures live == LiveOf(buyer) && matured == Maturity.MaturedOf(lots, live, now, config)
    {
      live := session.host.ledger.Balance(SpendableOf(buyer));
      matured := Maturity.MaturedBalance(lots, live, now, config);
    }

    /** The holds once the buyer has been touched: the immature part of the live balance, parked once. */
    ghost function HeldAfter(buyer: string, lots: seq<Maturity.Lot>, now: int, config: Maturity.Horizons): map<string,
        int>
      reads this`immatureHeld, session, session.host, session.host.ledger
    {
      if buyer in immatureHeld then immatureHeld
      else immatureHeld[buyer := LiveOf(buyer) - Maturity.MaturedOf(lots, LiveOf(buyer), now, config)]
    }

    /** What a buyer can spend: the screen's balance and the registry, less what a first touch would park. */
    ghost function SpendableNow(buyer: string, lots: seq<Maturity.Lot>, now: int, config: Maturity.Horizons): int
      reads this`immatureHeld, session, session.host, session.host.ledger, reservations
    {
      var a := SpendableOf(buyer);
      var immature := if buyer in immatureHeld then 0 else HeldAfter(buyer, lots, now, config)[buyer];
      session.OpeningOf(a) + PendingIn(reservations.pending, a) - if immature > 0 then immature else 0
    }

    /** At first touch that is what is mature of the balance, less whatever is already taken from it. */
    lemma FirstTouchSpends(buyer: string, lots: seq<Maturity.Lot>, now: int, config: Maturity.Horizons)
      requires Maturity.AllPositive(lots) && buyer !in immatureHeld
      requires session.OpeningOf(SpendableOf(buyer)) == LiveOf(buyer) >= 0
      ensures SpendableNow(buyer, lots, now, config) ==
        Maturity.MaturedOf(lots, LiveOf(buyer), now, config) + reservations.Total(SpendableOf(buyer))
    {
      hide Maturity.MaturedOf;
      Maturity.MaturedWithinLive(lots, LiveOf(buyer), now, config);
    }

    /** Parks the immature slice of a buyer's balance at first touch, whatever has become of the session. */
    method HoldImmature(buyer: string, lots: seq<Maturity.Lot>, now: int, config: Maturity.Horizons)
      requires Valid() && Maturity.AllPositive(lots)
      modifies this`immatureHeld, this`maturedAtTouch, this`maturedMost, reservations
      ensures Valid() && buyer in immatureHeld && immatureHeld == old(HeldAfter(buyer, lots, now, config))
      ensures session.ScreenBase()(SpendableOf(buyer)) == old(SpendableNow(buyer, lots, now, config))
      ensures old(BalancesStand()) ==> BalancesStand()
      ensures old(Bounded()) ==> Bounded()
    {
      hide InstanceSession.Valid, InstanceSession.OpeningOf, InstanceSession.ScreenBase, Maturity.MaturedOf,
        Maturity.AllPositive, BookedOn, MovedOn, HoldIn, WalletPart, AllSales, MostOf;
      if buyer in immatureHeld {
        return;
      }
      var live, matured := ReadMatured(buyer, lots, now, config);
      ghost var totals, held := reservations.pending, immatureHeld;
      Park(buyer, live, matured);
      HoldKeepsBooks(totals, reservations.pending, before, held, session.accepted, session.released, buyer,
        live - matured);
    }

    /** The caller's order id, which must carry the session prefix, or the next minted one; None throws. */
    method OrderIdOf(requested: Option<string>) returns (orderId: Option<string>)
      modifies this`orderSeq
      ensures requested == None ==>
        orderId == Some(SessionPrefix(session.sessionId) + Digits(old(orderSeq))) && orderSeq == old(orderSeq) + 1
      ensures requested.Some? ==> orderSeq == old(orderSeq)
      ensures requested.Some? ==>
        orderId == if SessionPrefix(session.sessionId) <= requested.value then requested else None
    {
      var prefix := SessionPrefix(session.sessionId);
      if requested == None {
        orderId := Some(prefix + Digits(orderSeq));
        orderSeq := orderSeq + 1;
      } else {
        orderId := if prefix <= requested.value then requested else None;
      }
    }

    predicate OverCap(buyer: string, price: int)
      reads this`spent
    {
      capMinor.Some? && SpentOf(buyer) + price > capMinor.value
    }

    /** The session would take a movement under this key: it is open, does not know it, and the screen covers it. */
    ghost predicate Takes(orderId: string, covered: bool)
      reads session
    {
      !session.settled && orderId !in session.outcomes && covered
    }

    /** The session answers that the order's movement is accepted, now or because it already was. */
    ghost predicate Accepts(orderId: string, covered: bool)
      reads session, session.journal
    {
      && !session.settled
      && if orderId in session.outcomes then Remembers(orderId) else covered && !session.BatchWouldFail(orderId)
    }

    /** The session knows the order's movement as accepted. */
    predicate Remembers(orderId: string)
      reads session
    {
      orderId in session.outcomes && session.outcomes[orderId].Accepted?
    }

    /** What the session says to a movement that has nothing wrong with it. */
    ghost function RecordedAs(orderId: string, covered: bool): Recorded
      reads session, session.journal
    {
      if session.settled then SessionSettled
      else if orderId in session.outcomes then Answered(session.outcomes[orderId])
      else if !covered then Answered(Rejected(InsufficientFunds))
      else if session.BatchWouldFail(orderId) then JournalRefused
      else Answered(Accepted(session.seq_))
    }

    /** The session's answer, in the lane's terms: what became of the registry and the journal. */
    method Ask(orderId: string, legs: seq<Leg>) returns (recorded: Recorded)
      requires session.Valid() && session.reservations == reservations && Settlement.LegsFit(legs)
      modifies session, reservations, session.journal
      ensures session.Valid() && session.settled == old(session.settled) && session.released == old(session.released)
      ensures session.settled ==> recorded == SessionSettled
      ensures FitMovement(legs) ==>
        recorded == old(RecordedAs(orderId, Acceptable(legs, session.ScreenBase())))
      ensures (recorded.Answered? && recorded.outcome.Accepted?) <==>
        old(Accepts(orderId, Acceptable(legs, session.ScreenBase())))
      ensures recorded.JournalRefused? <==>
        old(Takes(orderId, Acceptable(legs, session.ScreenBase())) && session.BatchWouldFail(orderId))
      ensures var taken := old(Takes(orderId, Acceptable(legs, session.ScreenBase())));
        && session.accepted ==
          old(session.accepted) + (if taken then [old(session.NextMovement(orderId, legs))] else [])
        && forall a ::
          PendingIn(reservations.pending, a) == PendingIn(old(reservations.pending), a)
          + if taken then WalletPart(legs, a) else 0
      ensures old(Takes(orderId, Acceptable(legs, session.ScreenBase()))) ==> Remembers(orderId)
      ensures !old(Takes(orderId, Acceptable(legs, session.ScreenBase()))) || recorded.JournalRefused? ==>
        session.Rows() == old(session.Rows())
      ensures forall a :: session.OpeningOf(a) == old(session.OpeningOf(a))
    {
      hide InstanceSession.Valid, InstanceSession.Sole, InstanceSession.Journaled, Acceptable, StopsAt,
        InstanceSession.OpeningOf, InstanceSession.BatchWouldFail, WalletPart;
      ghost var base := session.ScreenBase();
      assert forall a :: base(a) == session.OpeningOf(a) + PendingIn(reservations.pending, a);
      recorded := session.Record(orderId, legs);
      assert forall a :: session.ScreenBase()(a) == session.OpeningOf(a) + PendingIn(reservations.pending, a);
    }

    /** Offers the sale's movement to the session; an admitted one stays within what was mature. */
    method OfferSale(orderId: string, buyer: string, price: int, legs: seq<Leg>) returns (recorded: Recorded)
      requires Valid() && buyer in immatureHeld && 0 < price <= I64_MAX && PurchaseLegs(legs, buyer, price)
      modifies session, reservations, session.journal
      ensures Valid() && session.settled == old(session.settled) && session.released == old(session.released)
      ensures session.settled ==> recorded == SessionSettled
      ensures recorded == old(RecordedAs(orderId, session.ScreenBase()(SpendableOf(buyer)) >= price))
      ensures var covered := old(session.ScreenBase())(SpendableOf(buyer)) >= price;
        && ((recorded.Answered? && recorded.outcome.Accepted?) <==> old(Accepts(orderId, covered)))
        && (recorded.JournalRefused? <==> old(Takes(orderId, covered) && session.BatchWouldFail(orderId)))
        && (if old(Takes(orderId, covered)) then SoldOne(old(session.accepted), session.accepted, orderId, buyer, price)
            else session.accepted == old(session.accepted))
        && (old(Takes(orderId, covered)) ==> Remembers(orderId))
        && (!old(Takes(orderId, covered)) || recorded.JournalRefused? ==> session.Rows() == old(session.Rows()))
        && (old(Covered()) ==> Covered())
        && (old(Covered() && Takes(orderId, covered)) ==>
              CoveredBy(spent[buyer := SpentOf(buyer) + price], session.accepted))
      ensures AddedWith(old(session.accepted), session.accepted, legs)
      ensures old(BalancesStand()) ==> BalancesStand() && (old(Bounded()) ==> Bounded())
      ensures session.accepted == old(session.accepted) && old(Bounded()) ==> Bounded()
    {
      hide InstanceSession.Valid, Acceptable, PurchaseLegs, BookedOn, InstanceSession.OpeningOf, BoundedBy, CoveredBy,
        InstanceSession.ScreenBase, InstanceSession.BatchWouldFail, SoldOne, WalletPart, Unreleased, HoldIn, MovedOn,
        WellFormedMovement, AllSales, MostOf;
      PurchaseIsMovement(legs, buyer, price);
      PurchaseIsAcceptableWhen(legs, buyer, price, session.ScreenBase());
      ghost var totals, rows, base := reservations.pending, session.accepted, session.ScreenBase();
      ghost var movement, stood := session.NextMovement(orderId, legs), BalancesStand();
      ghost var taken := Takes(orderId, Acceptable(legs, base));
      assert base(SpendableOf(buyer)) == session.OpeningOf(SpendableOf(buyer)) + PendingIn(totals, SpendableOf(buyer));
      recorded := Ask(orderId, legs);
      SoldByAnswer(rows, movement, orderId, buyer, price);
      if taken {
        MovementKeepsBooks(totals, reservations.pending, before, immatureHeld, rows, movement);
        SaleIsSale(rows, movement, buyer, price);
        if stood {
          SpendWithinMatured(base, totals, before, immatureHeld, rows, maturedAtTouch[buyer], buyer, price);
        }
        KeepBounds(rows, movement, buyer, price, stood);
      } else {
        assert rows + [] == rows;
        SamePendingKeepsBooks(totals, reservations.pending, before, immatureHeld, rows, session.released);
      }
    }

    lemma KeepBounds(rows: seq<Settlement.Movement>, m: Settlement.Movement, buyer: string, price: int, stood: bool)
      requires PurchaseLegs(m.legs, buyer, price) && price > 0
      requires stood ==> -MovedOn(rows, buyer) + price <= MostOf(maturedMost, buyer) + Ahead(before, buyer)
      ensures stood && BoundedBy(maturedMost, before, rows) ==> BoundedBy(maturedMost, before, rows + [m])
      ensures CoveredBy(spent, rows) ==>
        CoveredBy(spent, rows + [m]) && CoveredBy(spent[buyer := SpentOf(buyer) + price], rows + [m])
    {
      hide BoundedBy, CoveredBy, MovedOn, MostOf, PurchaseLegs;
      if stood && BoundedBy(maturedMost, before, rows) {
        SaleKeepsBounds(maturedMost, before, rows, m, buyer, price);
      }
      if CoveredBy(spent, rows) {
        SaleKeepsCover(spent, rows, m, buyer, price);
      }
    }

    method Book(orderId: string, buyer: string, price: int, recorded: Recorded) returns (r: Purchased)
      modifies this`outcomes, this`spent
      ensures r == (match recorded
        case Answered(Accepted(q)) => Answer(Bought(orderId, q))
        case Answered(Rejected(reason)) => Answer(Denied(orderId, SessionRefused(reason)))
        case _ => SessionThrew(recorded))
      ensures outcomes == if r.Answer? then old(outcomes)[orderId := r.outcome] else old(outcomes)
      ensures spent == if IsBought(r) then old(spent)[buyer := old(SpentOf(buyer)) + price] else old(spent)
    {
      match recorded {
        case Answered(Accepted(q)) =>
          spent := spent[buyer := SpentOf(buyer) + price];
          r := Answer(Bought(orderId, q));
          outcomes := outcomes[orderId := r.outcome];
        case Answered(Rejected(reason)) =>
          r := Answer(Denied(orderId, SessionRefused(reason)));
          outcomes := outcomes[orderId := r.outcome];
        case _ => r := SessionThrew(recorded);
      }
    }

    ghost function LaneBooks(): Books
      reads this`outcomes, this`spent, session
    {
      Books(session.accepted, outcomes, spent)
    }

    /** What deciding an order on the session's books comes to, once it is known whether the price is covered. */
    ghost function DecisionOn(orderId: string, covered: bool): Decision
      reads session, session.journal
    {
      Decision(Takes(orderId, covered), Accepts(orderId, covered), session.BatchWouldFail(orderId), session.settled,
        if orderId in session.outcomes then Some(session.outcomes[orderId]) else None, session.seq_)
    }

    /** Offers the sale's movement to the session and books what came of it. */
    method Sell(orderId: string, buyer: string, price: int, legs: seq<Leg>) returns (r: Purchased)
      requires Valid() && buyer in immatureHeld && 0 < price <= I64_MAX && PurchaseLegs(legs, buyer, price)
      modifies this`outcomes, this`spent, session, reservations, session.journal
      ensures Valid() && session.settled == old(session.settled) && session.released == old(session.released)
      ensures var d := old(DecisionOn(orderId, session.ScreenBase()(SpendableOf(buyer)) >= price));
        && AnsweredAs(r, orderId, buyer, price, d, old(LaneBooks()), LaneBooks())
        && (d.takes ==> Remembers(orderId)) && (!d.takes || d.batchFails ==> session.Rows() == old(session.Rows()))
        && (old(Covered()) && (d.takes || !d.accepts) ==> Covered())
      ensures !r.BadInput? && AddedWith(old(session.accepted), session.accepted, legs)
      ensures old(BalancesStand()) ==> BalancesStand() && (old(Bounded()) ==> Bounded())
      ensures session.accepted == old(session.accepted) && old(Bounded()) ==> Bounded()
      ensures old(session.settled) ==> session.accepted == old(session.accepted)
      ensures old(KeptExactly()) ==> KeptExactly()
    {
      hide InstanceSession.Valid, InstanceEconomy.BalancesStand, InstanceEconomy.Booked, PurchaseLegs, CoveredBy,
        BoundedBy, InstanceSession.ScreenBase, InstanceSession.BatchWouldFail, SoldOne, AllSales, Recovery.Exact;
      var recorded := OfferSale(orderId, buyer, price, legs);
      r := Book(orderId, buyer, price, recorded);
    }

    predicate InputValid(input: Purchase)
    {
      0 < input.price <= I64_MAX && RecipientsValid(input.recipients, input.buyerId)
    }

    method Validate(input: Purchase) returns (ok: bool)
      ensures ok <==> InputValid(input)
      ensures ok <==> 0 < input.price <= I64_MAX && RecipientsValid(input.recipients, input.buyerId)
    {
      hide RecipientsValid;
      ok := CheckRecipients(input.recipients, input.buyerId);
      ok := ok && 0 < input.price <= I64_MAX;
    }

    /** A valid order the lane has no answer for. */
    method NewPurchase(orderId: string, input: Purchase, lots: seq<Maturity.Lot>, now: int, config: Maturity.Horizons)
        returns (r: Purchased)
      requires Valid() && Maturity.AllPositive(lots) && InputValid(input)
      modifies this`outcomes, this`spent, this`immatureHeld, this`maturedAtTouch, this`maturedMost, session,
        reservations,
        session.journal
      ensures Valid() && session.settled == old(session.settled) && session.released == old(session.released)
      ensures !r.BadInput?
      ensures immatureHeld == old(HeldAfter(input.buyerId, lots, now, config))
      ensures old(OverCap(input.buyerId, input.price)) ==>
        && r == Answer(Denied(orderId, RiskDenied))
        && LaneBooks() == old(LaneBooks()).(outcomes := old(outcomes)[orderId := r.outcome])
        && session.Rows() == old(session.Rows())
      ensures !old(OverCap(input.buyerId, input.price)) ==>
        var d := old(DecisionOn(orderId, SpendableNow(input.buyerId, lots, now, config) >= input.price));
        && AnsweredAs(r, orderId, input.buyerId, input.price, d, old(LaneBooks()), LaneBooks())
        && (d.takes ==> Remembers(orderId)) && (!d.takes || d.batchFails ==> session.Rows() == old(session.Rows()))
        && (old(Covered()) && (d.takes || !d.accepts) ==> Covered())
      ensures forall k :: |old(session.accepted)| <= k < |session.accepted| ==>
        IsPurchaseOf(session.accepted[k].legs, input.buyerId, input.price, input.recipients, feeBps)
      ensures old(CapOn(spent, capMinor)) ==> CapOn(spent, capMinor)
      ensures old(BalancesStand()) ==> BalancesStand() && (old(Bounded()) ==> Bounded())
      ensures session.accepted == old(session.accepted) && old(Bounded()) ==> Bounded()
      ensures old(session.settled) ==> session.accepted == old(session.accepted)
      ensures old(KeptExactly()) ==> KeptExactly()
    {
      hide InstanceSession.Valid, InstanceEconomy.Booked, InstanceEconomy.BalancesStand, Acceptable, PurchaseLegs,
        AllSales, InstanceSession.OpeningOf, InstanceSession.ScreenBase, InstanceSession.BatchWouldFail,
        RecipientsValid, SaleLegs, Maturity.MaturedOf, Maturity.AllPositive, DropZero, SoldOne, BoundedBy, CoveredBy,
        AnsweredAs, KeptOn, IsPurchaseOf, CapOn, InstanceEconomy.DecisionOn, InstanceEconomy.SpendableNow,
        InstanceEconomy.HeldAfter;
      HoldImmature(input.buyerId, lots, now, config);
      if OverCap(input.buyerId, input.price) {
        r := Answer(Denied(orderId, RiskDenied));
        outcomes := outcomes[orderId := r.outcome];
        return;
      }
      ValidRecipientsAreWhole(input.recipients, input.buyerId);
      var legs := LegsOf(input.buyerId, input.price, input.recipients, feeBps);
      ghost var was := LaneBooks();
      ghost var d := DecisionOn(orderId, session.ScreenBase()(SpendableOf(input.buyerId)) >= input.price);
      r := Sell(orderId, input.buyerId, input.price, legs.value);
      if CapOn(was.spent, capMinor) {
        AnsweredWithinCap(r, orderId, input.buyerId, input.price, d, was, LaneBooks(), capMinor);
      }
    }

    /** The order is one the lane has to decide: valid, properly named, and not answered before. */
    ghost predicate Decides(r: Purchased, id: string)
      reads this`outcomes
    {
      !r.BadInput? && id !in outcomes
    }

    /**
     One purchase, on a lane in any state. A known order replays its answer. Any other valid one first holds
     the buyer's immature funds, once. It is then denied over the cap, and otherwise bought exactly if the
     session is open and either holds its movement as accepted already, or is covered by what the buyer can
     spend and does not complete a batch that the journal refuses. While nobody moves balances, no buyer's
     accepted total passes what was mature at a touch, or reserved into the balance before the lane.
     */
    method RunPurchase(input: Purchase, lots: seq<Maturity.Lot>, now: int, config: Maturity.Horizons)
        returns (r: Purchased, ghost id: string)
      requires Valid() && Maturity.AllPositive(lots)
      modifies this`outcomes, this`spent, this`immatureHeld, this`maturedAtTouch, this`maturedMost, this`orderSeq,
        session,
        reservations, session.journal
      ensures Valid() && session.settled == old(session.settled) && session.released == old(session.released)
      ensures r.BadInput? <==>
        !(0 < input.price <= I64_MAX && RecipientsValid(input.recipients, input.buyerId))
          || (input.orderId.Some? && !(SessionPrefix(session.sessionId) <= input.orderId.value))
      ensures !r.BadInput? ==>
        id ==
          if input.orderId.Some? then input.orderId.value
          else SessionPrefix(session.sessionId) + Digits(old(orderSeq))
      ensures !r.BadInput? && id in old(outcomes) ==> r == Answer(old(outcomes)[id])
      ensures !old(Decides(r, id)) ==>
        LaneBooks() == old(LaneBooks()) && immatureHeld == old(immatureHeld) && session.Rows() == old(session.Rows())
      ensures old(Decides(r, id)) ==> immatureHeld == old(HeldAfter(input.buyerId, lots, now, config))
      ensures old(OverCap(input.buyerId, input.price)) <==>
        && capMinor.Some?
        && (if input.buyerId in old(spent) then old(spent)[input.buyerId] else 0) + input.price > capMinor.value
      ensures old(Decides(r, id)) && old(OverCap(input.buyerId, input.price)) ==>
        && r == Answer(Denied(id, RiskDenied))
        && LaneBooks() == old(LaneBooks()).(outcomes := old(outcomes)[id := r.outcome])
        && session.Rows() == old(session.Rows())
      ensures old(Decides(r, id)) && !old(OverCap(input.buyerId, input.price)) ==>
        var d := old(DecisionOn(id, SpendableNow(input.buyerId, lots, now, config) >= input.price));
        && AnsweredAs(r, id, input.buyerId, input.price, d, old(LaneBooks()), LaneBooks())
        && (d.takes ==> Remembers(id)) && (!d.takes || d.batchFails ==> session.Rows() == old(session.Rows()))
        && (old(Covered()) && (d.takes || !d.accepts) ==> Covered())
      ensures forall k :: |old(session.accepted)| <= k < |session.accepted| ==>
        IsPurchaseOf(session.accepted[k].legs, input.buyerId, input.price, input.recipients, feeBps)
      ensures old(CapOn(spent, capMinor)) ==> CapOn(spent, capMinor)
      ensures old(BalancesStand()) ==> BalancesStand() && (old(Bounded()) ==> Bounded())
      ensures old(session.settled) ==> session.accepted == old(session.accepted) && (old(Bounded()) ==> Bounded())
      ensures old(KeptExactly()) ==> KeptExactly()
    {
      hide InstanceSession.Valid, BookedOn, AllSales, BoundedBy, CoveredBy, InstanceSession.OpeningOf, RecipientsValid,
        SoldOne, Maturity.AllPositive, Maturity.MaturedOf, SessionPrefix, InstanceEconomy.BalancesStand,
        InstanceSession.BatchWouldFail, KeptOn, AnsweredAs, IsPurchaseOf, CapOn,
        InstanceEconomy.DecisionOn, InstanceEconomy.SpendableNow, InstanceEconomy.HeldAfter;
      id := "";
      var ok := Validate(input);
      if !ok {
        r := BadInput;
        return;
      }
      var orderId := OrderIdOf(input.orderId);
      if orderId == None {
        r := BadInput;
        return;
      }
      id := orderId.value;
      if orderId.value in outcomes {
        r := Answer(outcomes[orderId.value]);
        return;
      }
      r := NewPurchase(orderId.value, input, lots, now, config);
    }

    // ---- Settling ------------------------------------------------------------------------

    /** Returns every hold still parked; each leaves the map as it goes back. */
    method ReleaseImmatureHolds()
      requires session.reservations == reservations && Booked()
      modifies this`immatureHeld, reservations
      ensures immatureHeld == map[] && Booked()
    {
      hide BookedOn, HoldIn, Unreleased;
      while immatureHeld.Keys != {}
        invariant Booked()
        decreases |immatureHeld.Keys|
      {
        var u :| u in immatureHeld;
        ghost var totals, held := reservations.pending, immatureHeld;
        GiveBack(u);
        ReleaseKeepsBooks(totals, reservations.pending, before, held, session.accepted, session.released, u);
        assert immatureHeld.Keys < held.Keys;
      }
    }

    method GiveBack(u: string)
      requires u in immatureHeld
      modifies this`immatureHeld, reservations
      ensures immatureHeld == old(immatureHeld) - {u}
      ensures forall a ::
        PendingIn(reservations.pending, a) == PendingIn(old(reservations.pending), a)
        + if a == SpendableOf(u) && old(immatureHeld)[u] > 0 then old(immatureHeld)[u] else 0
    {
      if immatureHeld[u] > 0 {
        var total := reservations.Add(SpendableOf(u), immatureHeld[u]);
        assert forall a :: old(reservations.Total(a)) == PendingIn(old(reservations.pending), a);
        assert forall a :: reservations.Total(a) == PendingIn(reservations.pending, a);
      }
      immatureHeld := immatureHeld - {u};
    }

    lemma NothingChained()
      ensures ChainHolds([]) && forall outcomes :: Renounce(outcomes, []) == outcomes
    {
    }

    /** The session's settle, once, in the lane's terms. */
    method AskSettle() returns (r: SettleResult)
      requires Valid()
      modifies session, session.journal, reservations, session.host, session.host.ledger
      ensures Valid() && session.accepted == old(session.accepted) && session.opening == old(session.opening)
      ensures old(session.Rows() + session.pending) == [] ==>
        && r.Ran? && r.outcome.Returned? && session.host.World() == old(session.host.World())
        && session.settled == old(session.settled) && session.outcomes == old(session.outcomes) && session.pending == []
      ensures old(session.FirstSettle()) && r.Ran? && r.outcome.Returned? ==>
        KeptOn(session.host.ledger.View(), session.sessionId, r.outcome.report, session.accepted, session.accepted,
          session.released)
    {
      hide BookedOn, HoldIn, Unreleased, Recovery.Exact, InstanceSession.QuietSettle, Settlement.Settle, AllSales,
        InstanceSession.LossySettle, InstanceSession.Valid, ChainHolds, Appendable, Screening.AcceptedWhen;
      ghost var totals, released := reservations.pending, session.released;
      session.AnswersAreTrue();
      NothingChained();
      r := session.Settle();
      assert forall a :: old(reservations.Total(a)) == PendingIn(totals, a);
      assert forall a :: reservations.Total(a) == PendingIn(reservations.pending, a);
      SettleKeepsBooks(totals, reservations.pending, before, immatureHeld, session.accepted, released,
        r.Ran? && r.outcome.Returned? && session.Rows() != []);
    }

    /**
     Settles the lane. The session is asked once and its report kept, so a retry touches neither ledger nor
     journal, and nothing accepted since is ever settled or released. Once a report is back, every pending
     total is what it was before the lane if and only if what the session has accepted is released, or is
     nothing; and under a kept report that is so, and the report exact, if and only if no purchase was
     admitted since it was kept.
     */
    method RunSettle() returns (r: LaneReport)
      requires Valid()
      modifies this`settleReport, this`immatureHeld, this`reported, session, session.journal, reservations,
        session.host,
        session.host.ledger
      ensures Valid() && session.accepted == old(session.accepted)
      ensures r.LaneReport? ==> settleReport == Some(r.report) && immatureHeld == map[]
      ensures r.SettleThrew? ==> settleReport == old(settleReport) == None && immatureHeld == old(immatureHeld)
      ensures old(settleReport).Some? ==>
        && r.LaneReport? && settleReport == old(settleReport) && reported == old(reported)
        && session.host.World() == old(session.host.World()) && session.Rows() == old(session.Rows())
        && session.pending == old(session.pending) && session.released == old(session.released)
      ensures r.LaneReport? ==>
        && (forall a :: reservations.Total(a) == before(a) + Unreleased(session.released, session.accepted, a))
        && (Restored() <==> session.released || session.accepted == [])
      ensures old(settleReport) == None && old(session.FirstSettle()) && r.LaneReport? ==>
        KeptExactly() && reported == session.accepted && Restored()
      ensures old(KeptExactly()) ==>
        && KeptExactly() && (Restored() <==> session.accepted == reported)
        && (Recovery.Exact(session.host.ledger.View(), session.sessionId, session.accepted, r.report.rejected) <==>
            session.accepted == reported)
      ensures old(Bounded()) ==> Bounded()
      ensures old(settleReport).Some? || old(session.Rows() + session.pending) == [] ==>
        && r.LaneReport? && session.host.World() == old(session.host.World())
        && session.settled == old(session.settled) && session.outcomes == old(session.outcomes)
        && session.opening == old(session.opening) && session.pending == old(session.pending)
        && (old(BalancesStand()) ==> BalancesStand())
    {
      hide BookedOn, HoldIn, Unreleased, Recovery.Exact, InstanceSession.FirstSettle, InstanceSession.Valid, AllSales,
        BoundedBy;
      if settleReport == None {
        var asked := AskSettle();
        if !asked.Ran? || !asked.outcome.Returned? {
          return SettleThrew(asked);
        }
        settleReport := Some(asked.outcome.report);
        reported := session.accepted;
      }
      ReleaseImmatureHolds();
      assert forall a :: reservations.Total(a) == PendingIn(reservations.pending, a);
      TotalsNow();
      RestoredWhen(reservations.pending, before, session.accepted, session.released);
      if KeptExactly() {
        KeptReportIsExactWhen(session.host.ledger.View(), session.sessionId, settleReport.value, reported,
          session.accepted,
          session.released);
      }
      return LaneReport(settleReport.value);
    }

    lemma TotalsNow()
      requires Booked() && immatureHeld == map[]
      ensures forall a ::
        PendingIn(reservations.pending, a) == before(a) + Unreleased(session.released, session.accepted, a)
    {
    }
  }
}
