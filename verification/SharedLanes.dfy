/**
 Many lanes on one registry (src/instance.ts `holdImmature`, `releaseImmatureHolds`, over src/netting.ts
 `reserve`): each lane parks the immature part of a buyer's balance when it first touches the buyer, and
 every add, unwind, hold and release of every lane may interleave. The registry is what the sessions
 reserved less the holds, so a debit is checked against the balance less all of them.
 */
module SharedLanes {
  import opened Accounts
  import opened ConcurrentScreen
  import opened Ledger
  import opened Money
  import opened Text

  /** The sessions' registry without the holds; each lane's holds; and the most mature at any touch. */
  datatype Lanes = Lanes(sessions: Shared, held: seq<map<AccountRef, nat>>, most: map<AccountRef, nat>)

  datatype LaneEvent =
    | Touch(lane: nat, account: AccountRef, immature: nat)
    | Free(lane: nat, account: AccountRef)
    | Do(event: Event)

  function HeldBy(held: map<AccountRef, nat>, a: AccountRef): nat {
    if a in held then held[a] else 0
  }

  function HeldByAll(held: seq<map<AccountRef, nat>>, a: AccountRef): nat {
    if held == [] then 0 else HeldByAll(held[..|held| - 1], a) + HeldBy(held[|held| - 1], a)
  }

  /** What the shared registry reads. */
  function Pending(l: Lanes, a: AccountRef): int {
    Total(l.sessions, a) - HeldByAll(l.held, a)
  }

  /** What is left of a balance once every lane's holds are taken off. */
  function Unheld(l: Lanes, balance: AccountRef -> int): AccountRef -> int {
    a => balance(a) - HeldByAll(l.held, a)
  }

  function MostOf(l: Lanes, a: AccountRef): nat {
    if a in l.most then l.most[a] else 0
  }

  /**
   A lane serialises its own calls, so it holds and releases only between purchases; a buyer already
   touched is not touched again. Comparing a debit with the balance less the holds plus what sessions
   reserved is comparing it with the balance plus what the registry reads.
   */
  function Step(l: Lanes, balance: AccountRef -> int, e: LaneEvent): Lanes {
    match e
    case Touch(i, a, immature) =>
      if i >= |l.held| || i >= |l.sessions.stages| || !l.sessions.stages[i].Idle? || a in l.held[i] then l
      else
        var mine: map<AccountRef, nat> := l.held[i][a := immature];
        var matured := balance(a) - immature;
        Lanes(l.sessions, l.held[i := mine], if matured > MostOf(l, a) then l.most[a := matured] else l.most)
    case Free(i, a) =>
      if i >= |l.held| || i >= |l.sessions.stages| || !l.sessions.stages[i].Idle? then l
      else l.(held := l.held[i := l.held[i] - {a}])
    case Do(event) => l.(sessions := Take(l.sessions, Unheld(l, balance), event))
  }

  function RunLanes(l: Lanes, balance: AccountRef -> int, events: seq<LaneEvent>): Lanes {
    if events == [] then l
    else Step(RunLanes(l, balance, events[..|events| - 1]), balance, events[|events| - 1])
  }

  function NoLanes(n: nat): Lanes {
    Lanes(Opened(n), seq(n, i => map[]), map[])
  }

  /** Every wallet these parts take from has been touched by the lane. */
  ghost predicate DebitsHeld(parts: seq<Part>, held: map<AccountRef, nat>) {
    forall k :: 0 <= k < |parts| && parts[k].delta < 0 ==> parts[k].account in held
  }

  /** What a lane starts is a debits-first movement on buyers it has touched. */
  ghost predicate LaneStarts(l: Lanes, e: LaneEvent) {
    e.Do? && e.event.Start? && e.event.session < |l.held| ==>
      DebitsFirst(PartsOf(e.event.legs)) && DebitsHeld(PartsOf(e.event.legs), l.held[e.event.session])
  }

  ghost predicate LaneRun(l: Lanes, balance: AccountRef -> int, events: seq<LaneEvent>) {
    forall k :: 0 <= k < |events| ==> LaneStarts(RunLanes(l, balance, events[..k]), events[k])
  }

  // ---- The invariant ------------------------------------------------------------------

  function PartsIn(g: Stage): seq<Part> {
    match g
    case Idle => []
    case Reserving(parts, _) => parts
    case Unwinding(parts, _, _) => parts
  }

  ghost predicate AllDebitsHeld(l: Lanes) {
    && |l.held| == |l.sessions.stages|
    && forall i :: 0 <= i < |l.held| ==> DebitsHeld(PartsIn(l.sessions.stages[i]), l.held[i])
  }

  /** What all lanes together have taken from an account, accepted or checked and in flight. */
  function Taken(x: Shared, a: AccountRef): int
    requires AllInBounds(x.stages)
  {
    -(AcceptedSum(x.accepted, a) + CheckedByAll(x.stages, a))
  }

  predicate HoldIsCounted(l: Lanes, balance: AccountRef -> int, i: nat, a: AccountRef)
    requires i < |l.held|
  {
    a in l.held[i] ==> balance(a) - l.held[i][a] <= MostOf(l, a)
  }

  ghost predicate HoldsCounted(l: Lanes, balance: AccountRef -> int) {
    forall i, a :: 0 <= i < |l.held| ==> HoldIsCounted(l, balance, i, a)
  }

  predicate TakenWithin(l: Lanes, a: AccountRef) {
    AllInBounds(l.sessions.stages) && Taken(l.sessions, a) <= MostOf(l, a)
  }

  ghost predicate Matured(l: Lanes) {
    forall a :: IsWalletAccount(a) ==> TakenWithin(l, a)
  }

  ghost predicate LanesOk(l: Lanes, balance: AccountRef -> int) {
    && StagesOk(l.sessions) && Accounted(l.sessions) && Screened(l.sessions, balance)
    && AllDebitsHeld(l) && HoldsCounted(l, balance) && Matured(l)
  }

  lemma {:induction false} OneHoldIsPart(held: seq<map<AccountRef, nat>>, i: nat, a: AccountRef)
    requires i < |held|
    ensures HeldBy(held[i], a) <= HeldByAll(held, a)
  {
    var n := |held| - 1;
    if i < n {
      OneHoldIsPart(held[..n], i, a);
    }
  }

  /** The step on which more is taken from an account is a debit of it, and the screen let it through. */
  ghost predicate DebitPassed(x: Shared, limit: AccountRef -> int, e: Event, a: AccountRef)
    requires AllInBounds(Take(x, limit, e).stages)
  {
    && e.Add? && e.session < |x.stages| && x.stages[e.session].Reserving?
    && var Reserving(parts, next) := x.stages[e.session];
    next < |parts| && parts[next].delta < 0 && parts[next].account == a && Taken(Take(x, limit, e), a) <= limit(a)
  }

  lemma UndoneIsDebit(parts: seq<Part>, at: nat, left: nat)
    requires DebitsFirst(parts) && at < |parts| && parts[at].delta < 0 && 0 < left <= at + 1
    ensures parts[left - 1].delta < 0
  {
  }

  lemma OnlyPassedDebitsTake(x: Shared, limit: AccountRef -> int, e: Event, a: AccountRef)
    requires StagesOk(x) && Accounted(x) && (e.Start? ==> DebitsFirst(PartsOf(e.legs)))
    ensures AllInBounds(x.stages) && AllInBounds(Take(x, limit, e).stages)
    ensures Taken(Take(x, limit, e), a) <= Taken(x, a) || DebitPassed(x, limit, e, a)
  {
    hide AppliedByAll, CheckedByAll, AcceptedSum, DebitsFirst, Sum, PartsOf;
    var y := Take(x, limit, e);
    NothingSummed();
    TakeKeepsStages(x, limit, e);
    TakeKeepsAccounts(x, limit, e, a);
    if y != x {
      var s := e.session;
      var g := x.stages[s];
      assert StageOk(g) && StageOk(y.stages[s]);
      SwapStage(x.stages, s, y.stages[s], a);
      match (e, g) {
        case (Add(_), Reserving(parts, next)) =>
          SumStep(parts, next);
          if parts[next].delta < 0 && parts[next].account == a && y.stages[s].Reserving? {
            AllAppliedAtMostChecked(y.stages, a);
          }
        case (Undo(_), Unwinding(parts, at, left)) =>
          SumStep(parts, left - 1);
          UndoneIsDebit(parts, at, left);
        case (Finish(_), Reserving(parts, next)) =>
          AcceptedSnoc(x.accepted, parts, a);
          assert parts[..next] == parts;
        case _ =>
      }
    }
  }

  lemma TakeKeepsDebitsHeld(l: Lanes, limit: AccountRef -> int, e: Event)
    requires AllDebitsHeld(l) && LaneStarts(l, Do(e))
    ensures AllDebitsHeld(l.(sessions := Take(l.sessions, limit, e)))
  {
    hide DebitsHeld, DebitsFirst, PartsOf;
    var y := Take(l.sessions, limit, e);
    NothingHeld();
    forall i | 0 <= i < |l.held| ensures DebitsHeld(PartsIn(y.stages[i]), l.held[i]) {
      assert DebitsHeld(PartsIn(l.sessions.stages[i]), l.held[i]);
    }
  }

  lemma NothingHeld()
    ensures forall held :: DebitsHeld([], held)
  {
  }

  /** A session's step keeps every lane within what was mature. */
  lemma DoKeepsMatured(l: Lanes, balance: AccountRef -> int, e: Event, a: AccountRef)
    requires LanesOk(l, balance) && IsWalletAccount(a) && LaneStarts(l, Do(e))
    requires e.session < |l.held|
    ensures TakenWithin(Step(l, balance, Do(e)), a)
  {
    hide Take, Taken, StagesOk, Accounted, Screened, PartsOf, DebitsFirst;
    var limit := Unheld(l, balance);
    OnlyPassedDebitsTake(l.sessions, limit, e, a);
    assert TakenWithin(l, a);
    if DebitPassed(l.sessions, limit, e, a) {
      var s := e.session;
      assert DebitsHeld(PartsIn(l.sessions.stages[s]), l.held[s]);
      assert HoldIsCounted(l, balance, s, a);
      OneHoldIsPart(l.held, s, a);
    }
  }

  lemma DoKeepsLanes(l: Lanes, balance: AccountRef -> int, e: Event)
    requires LanesOk(l, balance) && LaneStarts(l, Do(e)) && e.session < |l.held|
    ensures LanesOk(Step(l, balance, Do(e)), balance) && |Step(l, balance, Do(e)).held| == |l.held|
  {
    hide Take, StagesOk, Accounted, Screened, DebitsFirst, PartsOf, TakenWithin, DebitsHeld, HeldByAll;
    var limit := Unheld(l, balance);
    OneStepIsScreened(l.sessions, balance, limit, e);
    TakeKeepsDebitsHeld(l, limit, e);
    forall a | IsWalletAccount(a) ensures TakenWithin(Step(l, balance, Do(e)), a) {
      DoKeepsMatured(l, balance, e, a);
    }
    var m := Step(l, balance, Do(e));
    forall i, a | 0 <= i < |m.held| ensures HoldIsCounted(m, balance, i, a) {
      assert HoldIsCounted(l, balance, i, a);
    }
  }

  /** A touch or a release leaves the sessions alone, and counts the new hold. */
  lemma HoldKeepsLanes(l: Lanes, balance: AccountRef -> int, e: LaneEvent)
    requires LanesOk(l, balance) && !e.Do?
    ensures LanesOk(Step(l, balance, e), balance) && |Step(l, balance, e).held| == |l.held|
  {
    hide StagesOk, Accounted, Screened, Taken, DebitsHeld;
    var m := Step(l, balance, e);
    assert forall a :: MostOf(m, a) >= MostOf(l, a);
    forall a | IsWalletAccount(a) ensures TakenWithin(m, a) {
      assert TakenWithin(l, a);
    }
    forall i, a | 0 <= i < |m.held| ensures HoldIsCounted(m, balance, i, a) {
      assert HoldIsCounted(l, balance, i, a);
    }
    NothingHeld();
    forall i | 0 <= i < |m.held| ensures DebitsHeld(PartsIn(m.sessions.stages[i]), m.held[i]) {
      assert DebitsHeld(PartsIn(l.sessions.stages[i]), l.held[i]);
    }
  }

  lemma StepKeepsLanes(l: Lanes, balance: AccountRef -> int, e: LaneEvent)
    requires LanesOk(l, balance) && LaneStarts(l, e)
    ensures LanesOk(Step(l, balance, e), balance) && |Step(l, balance, e).held| == |l.held|
  {
    hide LanesOk;
    if !e.Do? {
      HoldKeepsLanes(l, balance, e);
    } else if e.event.session < |l.held| {
      DoKeepsLanes(l, balance, e.event);
    } else {
      StrangerChangesNothing(l, balance, e.event);
    }
  }

  lemma StrangerChangesNothing(l: Lanes, balance: AccountRef -> int, e: Event)
    requires LanesOk(l, balance) && e.session >= |l.held|
    ensures Step(l, balance, Do(e)) == l
  {
  }

  lemma StartsOk(n: nat, balance: AccountRef -> int)
    requires forall a :: IsWalletAccount(a) ==> balance(a) >= 0
    ensures LanesOk(NoLanes(n), balance)
  {
    EveryInterleavingIsScreened(n, balance, []);
    forall a ensures Taken(Opened(n), a) == 0 {
      NothingInFlight(n, a);
    }
  }

  /**
   Over an unchanging ledger, in every interleaving of every lane's touches, adds, unwinds and releases:
   what all lanes together have taken from a buyer never passes the most that was mature of the balance
   when some lane touched it, and the registry is what was accepted and is in flight, less the holds.
   */
  lemma {:induction false} LanesStayWithinMatured(n: nat, balance: AccountRef -> int, events: seq<LaneEvent>)
    requires (forall a :: IsWalletAccount(a) ==> balance(a) >= 0) && LaneRun(NoLanes(n), balance, events)
    ensures var l := RunLanes(NoLanes(n), balance, events);
      && LanesOk(l, balance)
      && (forall a :: IsWalletAccount(a) ==> Taken(l.sessions, a) <= MostOf(l, a))
      && forall a :: Pending(l, a) ==
           AcceptedSum(l.sessions.accepted, a) + AppliedByAll(l.sessions.stages, a) - HeldByAll(l.held, a)
  {
    hide Step, LaneStarts, HeldByAll, AppliedByAll, AcceptedSum, CheckedByAll;
    if events == [] {
      StartsOk(n, balance);
    } else {
      var k := |events| - 1;
      assert forall j :: 0 <= j < k ==> events[..k][..j] == events[..j] && events[..k][j] == events[j];
      LanesStayWithinMatured(n, balance, events[..k]);
      assert LaneStarts(RunLanes(NoLanes(n), balance, events[..k]), events[k]);
      StepKeepsLanes(RunLanes(NoLanes(n), balance, events[..k]), balance, events[k]);
    }
    var l := RunLanes(NoLanes(n), balance, events);
    assert forall a :: IsWalletAccount(a) ==> TakenWithin(l, a);
  }

  /** What counts as mature of a buyer is what some touch left after its hold, and nothing else. */
  lemma {:induction false} MostIsSomeTouch(n: nat, balance: AccountRef -> int, events: seq<LaneEvent>, a: AccountRef)
    ensures var most := MostOf(RunLanes(NoLanes(n), balance, events), a);
      most == 0 || exists k ::
        0 <= k < |events| && events[k].Touch? && events[k].account == a
        && most == balance(a) - events[k].immature
  {
    hide Take;
    if events != [] {
      var k := |events| - 1;
      MostIsSomeTouch(n, balance, events[..k], a);
      assert forall j :: 0 <= j < k ==> events[..k][j] == events[j];
      var before := RunLanes(NoLanes(n), balance, events[..k]);
      TouchMoves(before, balance, events[k], a);
    }
  }

  lemma TouchMoves(l: Lanes, balance: AccountRef -> int, e: LaneEvent, a: AccountRef)
    ensures var most := MostOf(Step(l, balance, e), a);
      most == MostOf(l, a) || (e.Touch? && e.account == a && most == balance(a) - e.immature)
  {
    hide Take;
  }

  /**
   A lane's next leg is compared with the balance and what the registry reads, holds of all lanes
   included: a debit they do not cover turns the lane back, anything else is reserved.
   */
  lemma AddIsCompared(l: Lanes, balance: AccountRef -> int, s: nat)
    requires s < |l.sessions.stages| && l.sessions.stages[s].Reserving?
    requires l.sessions.stages[s].next < |l.sessions.stages[s].parts|
    ensures var Reserving(parts, next) := l.sessions.stages[s];
      var p, m := parts[next], Step(l, balance, Do(Add(s)));
      && m.held == l.held && m.most == l.most
      && (forall a :: Pending(m, a) == Pending(l, a) + if a == p.account then p.delta else 0)
      && m.sessions.stages[s] ==
        if p.delta >= 0 || balance(p.account) + Pending(l, p.account) + p.delta >= 0 then Reserving(parts, next + 1)
        else Unwinding(parts, next, next + 1)
  {
    hide HeldByAll;
  }

  /** A touch parks what is immature of a buyer's balance with the registry, and a release gives it back. */
  lemma {:induction false} TouchParks(l: Lanes, balance: AccountRef -> int, i: nat, a: AccountRef, immature: nat)
    requires i < |l.held| && i < |l.sessions.stages| && l.sessions.stages[i].Idle? && a !in l.held[i]
    ensures var m := Step(l, balance, Touch(i, a, immature));
      && (forall b :: Pending(m, b) == Pending(l, b) - if b == a then immature else 0)
      && m.sessions == l.sessions && (balance(a) >= immature ==> MostOf(m, a) >= balance(a) - immature)
      && forall b :: Pending(Step(m, balance, Free(i, a)), b) == Pending(l, b)
  {
    hide HeldByAll;
    var mine: map<AccountRef, nat> := l.held[i][a := immature];
    var back: map<AccountRef, nat> := mine - {a};
    forall b ensures HeldByAll(l.held[i := mine], b) == HeldByAll(l.held, b) + if b == a then immature else 0 {
      SwapHold(l.held, i, mine, b);
    }
    assert back == l.held[i] && l.held[i := mine][i := back] == l.held;
  }

  lemma {:induction false} SwapHold(held: seq<map<AccountRef, nat>>, i: nat, mine: map<AccountRef, nat>, a: AccountRef)
    requires i < |held|
    ensures HeldByAll(held[i := mine], a) == HeldByAll(held, a) - HeldBy(held[i], a) + HeldBy(mine, a)
  {
    var n := |held| - 1;
    if i < n {
      SwapHold(held[..n], i, mine, a);
      assert held[i := mine][..n] == held[..n][i := mine];
    } else {
      assert held[i := mine][..n] == held[..n];
    }
  }
}
