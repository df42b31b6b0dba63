/**
 Many sessions screening against one registry at once (src/netting.ts `reserve`, `unwind`,
 `createReservations`): each `add` is atomic and everything else may interleave. What a debit is
 checked against is the total its own `add` returned, so the check belongs to that step.
 */
module ConcurrentScreen {
  import opened Accounts
  import opened Ledger
  import opened Money
  import opened Text

  /** What one wallet leg does to the registry. */
  datatype Part = Part(account: AccountRef, delta: int)

  function PartsOf(legs: seq<Leg>): seq<Part> {
    if legs == [] then []
    else
      var last := legs[|legs| - 1];
      PartsOf(legs[..|legs| - 1])
        + if IsWalletAccount(last.account) then [Part(last.account, BalanceDelta(last))] else []
  }

  function Sum(parts: seq<Part>, a: AccountRef): int {
    if parts == [] then 0
    else
      var last := parts[|parts| - 1];
      Sum(parts[..|parts| - 1], a) + if last.account == a then last.delta else 0
  }

  /** Every debit comes before every credit, as a lane builds its movements. */
  ghost predicate DebitsFirst(parts: seq<Part>) {
    forall i, j :: 0 <= i < j < |parts| && parts[j].delta < 0 ==> parts[i].delta < 0
  }

  /**
   Where one session's `record` stands: `next` parts applied; or backing out after part `at` failed,
   with `left` parts still applied.
   */
  datatype Stage =
    | Idle
    | Reserving(parts: seq<Part>, next: nat)
    | Unwinding(parts: seq<Part>, at: nat, left: nat)

  ghost predicate StageOk(g: Stage) {
    match g
    case Idle => true
    case Reserving(parts, next) => next <= |parts| && DebitsFirst(parts)
    case Unwinding(parts, at, left) => at < |parts| && left <= at + 1 && DebitsFirst(parts) && parts[at].delta < 0
  }

  predicate InBounds(g: Stage) {
    match g
    case Idle => true
    case Reserving(parts, next) => next <= |parts|
    case Unwinding(parts, at, left) => at < |parts| && left <= at + 1
  }

  function Min(x: nat, y: nat): nat {
    if x < y then x else y
  }

  /** What the registry holds of a session's movement in flight. */
  function AppliedBy(g: Stage, a: AccountRef): int
    requires InBounds(g)
  {
    match g
    case Idle => 0
    case Reserving(parts, next) => Sum(parts[..next], a)
    case Unwinding(parts, _, left) => Sum(parts[..left], a)
  }

  /** The share of it whose check passed: everything but the part that failed. */
  function CheckedBy(g: Stage, a: AccountRef): int
    requires InBounds(g)
  {
    match g
    case Idle => 0
    case Reserving(parts, next) => Sum(parts[..next], a)
    case Unwinding(parts, at, left) => Sum(parts[..Min(at, left)], a)
  }

  predicate AllInBounds(stages: seq<Stage>) {
    forall s :: 0 <= s < |stages| ==> InBounds(stages[s])
  }

  function AppliedByAll(stages: seq<Stage>, a: AccountRef): int
    requires AllInBounds(stages)
  {
    if stages == [] then 0
    else AppliedByAll(stages[..|stages| - 1], a) + AppliedBy(stages[|stages| - 1], a)
  }

  function CheckedByAll(stages: seq<Stage>, a: AccountRef): int
    requires AllInBounds(stages)
  {
    if stages == [] then 0
    else CheckedByAll(stages[..|stages| - 1], a) + CheckedBy(stages[|stages| - 1], a)
  }

  function AcceptedSum(accepted: seq<seq<Part>>, a: AccountRef): int {
    if accepted == [] then 0
    else AcceptedSum(accepted[..|accepted| - 1], a) + Sum(accepted[|accepted| - 1], a)
  }

  /** The registry, each session's stage, and, in the order they finished, the accepted movements. */
  datatype Shared = Shared(pending: map<AccountRef, int>, stages: seq<Stage>, accepted: seq<seq<Part>>)

  function Total(x: Shared, a: AccountRef): int {
    if a in x.pending then x.pending[a] else 0
  }

  datatype Event =
    | Start(session: nat, legs: seq<Leg>)
    | Add(session: nat)
    | Undo(session: nat)
    | Finish(session: nat)

  function Bump(x: Shared, p: Part, delta: int): map<AccountRef, int> {
    x.pending[p.account := Total(x, p.account) + delta]
  }

  /** One atomic step of one session; a step that does not apply to its stage changes nothing. */
  function Take(x: Shared, balance: AccountRef -> int, e: Event): Shared {
    if e.session >= |x.stages| then x
    else
      match (e, x.stages[e.session])
      case (Start(s, legs), Idle) => x.(stages := x.stages[s := Reserving(PartsOf(legs), 0)])
      case (Add(s), Reserving(parts, next)) =>
        if next >= |parts| then x
        else
          var p := parts[next];
          var pending := Bump(x, p, p.delta);
          var refused := p.delta < 0 && balance(p.account) + pending[p.account] < 0;
          Shared(pending,
            x.stages[s := if refused then Unwinding(parts, next, next + 1) else Reserving(parts, next + 1)], x.accepted)
      case (Undo(s), Unwinding(parts, at, left)) =>
        if left == 0 || left > |parts| then x
        else Shared(Bump(x, parts[left - 1], -parts[left - 1].delta), x.stages[s := Unwinding(parts, at, left - 1)],
          x.accepted)
      case (Finish(s), Reserving(parts, next)) =>
        if next < |parts| then x else Shared(x.pending, x.stages[s := Idle], x.accepted + [parts])
      case (Finish(s), Unwinding(_, _, left)) =>
        if left > 0 then x else x.(stages := x.stages[s := Idle])
      case _ => x
  }

  function Run(x: Shared, balance: AccountRef -> int, events: seq<Event>): Shared {
    if events == [] then x
    else Take(Run(x, balance, events[..|events| - 1]), balance, events[|events| - 1])
  }

  function Opened(sessions: nat): Shared {
    Shared(map[], seq(sessions, i => Idle), [])
  }

  ghost predicate LaneEvents(events: seq<Event>) {
    forall k :: 0 <= k < |events| && events[k].Start? ==> DebitsFirst(PartsOf(events[k].legs))
  }

  // ---- The invariant ------------------------------------------------------------------

  ghost predicate StagesOk(x: Shared) {
    forall s :: 0 <= s < |x.stages| ==> StageOk(x.stages[s])
  }

  /** The registry is exactly what finished movements reserved plus what is in flight. */
  ghost predicate Accounted(x: Shared) {
    AllInBounds(x.stages) && forall a :: Total(x, a) == AcceptedSum(x.accepted, a) + AppliedByAll(x.stages, a)
  }

  /** Balance plus everything checked and not unwound covers the account. */
  predicate CoveredNow(x: Shared, balance: AccountRef -> int, a: AccountRef)
    requires AllInBounds(x.stages)
  {
    balance(a) + AcceptedSum(x.accepted, a) + CheckedByAll(x.stages, a) >= 0
  }

  ghost predicate Screened(x: Shared, balance: AccountRef -> int) {
    AllInBounds(x.stages) && forall a :: IsWalletAccount(a) ==> CoveredNow(x, balance, a)
  }

  lemma {:induction false} SwapStage(stages: seq<Stage>, s: nat, g: Stage, a: AccountRef)
    requires AllInBounds(stages) && s < |stages| && InBounds(g)
    ensures AllInBounds(stages[s := g])
    ensures AppliedByAll(stages[s := g], a) == AppliedByAll(stages, a) - AppliedBy(stages[s], a) + AppliedBy(g, a)
    ensures CheckedByAll(stages[s := g], a) == CheckedByAll(stages, a) - CheckedBy(stages[s], a) + CheckedBy(g, a)
  {
    hide AppliedBy, CheckedBy;
    var n, after := |stages| - 1, stages[s := g];
    if s < n {
      SwapStage(stages[..n], s, g, a);
      assert after[..n] == stages[..n][s := g];
    } else {
      assert after[..n] == stages[..n];
    }
  }

  lemma SumStep(parts: seq<Part>, k: nat)
    requires k < |parts|
    ensures forall a ::
      Sum(parts[..k + 1], a) == Sum(parts[..k], a) + if parts[k].account == a then parts[k].delta else 0
  {
    PrefixStep(parts, k);
  }

  lemma NothingSummed()
    ensures forall parts: seq<Part>, a :: Sum(parts[..0], a) == 0
  {
  }

  /** The failed part is a debit, so what the registry holds never exceeds what was checked. */
  lemma AppliedAtMostChecked(g: Stage, a: AccountRef)
    requires StageOk(g)
    ensures InBounds(g) && AppliedBy(g, a) <= CheckedBy(g, a)
  {
    if g.Unwinding? && g.left == g.at + 1 {
      SumStep(g.parts, g.at);
    }
  }

  lemma {:induction false} AllAppliedAtMostChecked(stages: seq<Stage>, a: AccountRef)
    requires forall s :: 0 <= s < |stages| ==> StageOk(stages[s])
    ensures AllInBounds(stages) && AppliedByAll(stages, a) <= CheckedByAll(stages, a)
  {
    if stages != [] {
      AllAppliedAtMostChecked(stages[..|stages| - 1], a);
      AppliedAtMostChecked(stages[|stages| - 1], a);
    }
  }

  lemma AcceptedSnoc(accepted: seq<seq<Part>>, parts: seq<Part>, a: AccountRef)
    ensures AcceptedSum(accepted + [parts], a) == AcceptedSum(accepted, a) + Sum(parts, a)
  {
    assert (accepted + [parts])[..|accepted|] == accepted;
  }

  /** The stage `Take` moves one session to. */
  lemma TakeKeepsStages(x: Shared, balance: AccountRef -> int, e: Event)
    requires StagesOk(x) && (e.Start? ==> DebitsFirst(PartsOf(e.legs)))
    ensures StagesOk(Take(x, balance, e)) && |Take(x, balance, e).stages| == |x.stages|
  {
    hide DebitsFirst, Sum;
    if e.session < |x.stages| {
      assert StageOk(x.stages[e.session]);
    }
  }

  lemma TakeKeepsAccounts(x: Shared, balance: AccountRef -> int, e: Event, a: AccountRef)
    requires StagesOk(x) && Accounted(x)
    ensures AllInBounds(Take(x, balance, e).stages)
    ensures Total(Take(x, balance, e), a) == AcceptedSum(Take(x, balance, e).accepted, a)
      + AppliedByAll(Take(x, balance, e).stages, a)
  {
    hide DebitsFirst, AppliedByAll, AcceptedSum, PartsOf, Sum;
    NothingSummed();
    var y := Take(x, balance, e);
    if y != x {
      var s := e.session;
      var g := x.stages[s];
      assert StageOk(g);
      match (e, g) {
        case (Start(_, legs), Idle) => SwapStage(x.stages, s, y.stages[s], a);
        case (Add(_), Reserving(parts, next)) =>
          SumStep(parts, next);
          SwapStage(x.stages, s, y.stages[s], a);
        case (Undo(_), Unwinding(parts, at, left)) =>
          SumStep(parts, left - 1);
          SwapStage(x.stages, s, y.stages[s], a);
        case (Finish(_), Reserving(parts, next)) =>
          AcceptedSnoc(x.accepted, parts, a);
          assert parts[..next] == parts;
          SwapStage(x.stages, s, Idle, a);
        case (Finish(_), Unwinding(_, _, left)) => SwapStage(x.stages, s, Idle, a);
        case _ =>
      }
    }
  }

  /** A screen that works from less than the balance keeps what the balance covers. */
  lemma TakeKeepsCover(x: Shared, balance: AccountRef -> int, limit: AccountRef -> int, e: Event, a: AccountRef)
    requires StagesOk(x) && Accounted(x) && Screened(x, balance) && IsWalletAccount(a) && limit(a) <= balance(a)
    requires e.Start? ==> DebitsFirst(PartsOf(e.legs))
    ensures AllInBounds(Take(x, limit, e).stages) && CoveredNow(Take(x, limit, e), balance, a)
  {
    hide AppliedByAll, CheckedByAll, AcceptedSum;
    var y := Take(x, limit, e);
    TakeKeepsStages(x, limit, e);
    TakeKeepsAccounts(x, limit, e, a);
    assert CoveredNow(x, balance, a);
    if y != x {
      var s := e.session;
      var g := x.stages[s];
      assert StageOk(g) && StageOk(y.stages[s]);
      SwapStage(x.stages, s, y.stages[s], a);
      match (e, g) {
        case (Add(_), Reserving(parts, next)) =>
          SumStep(parts, next);
          if parts[next].delta < 0 && parts[next].account == a && y.stages[s].Reserving? {
            AllAppliedAtMostChecked(y.stages, a);
          }
        case (Undo(_), Unwinding(parts, at, left)) => SumStep(parts, left - 1);
        case (Finish(_), Reserving(parts, next)) =>
          AcceptedSnoc(x.accepted, parts, a);
          assert parts[..next] == parts;
        case _ =>
      }
    }
  }

  lemma {:induction false} NothingInFlight(n: nat, a: AccountRef)
    ensures var stages := Opened(n).stages;
      AllInBounds(stages) && AppliedByAll(stages, a) == 0 && CheckedByAll(stages, a) == 0
  {
    if n > 0 {
      NothingInFlight(n - 1, a);
      assert Opened(n).stages[..n - 1] == Opened(n - 1).stages;
    }
  }

  /**
   Over an unchanging ledger, in every interleaving of every session's adds and unwinds, each wallet's
   balance plus everything checked and not unwound stays non-negative; and the registry is exactly
   what finished movements reserved plus what is in flight - so a rejected movement, once unwound,
   leaves it as if it had never run.
   */
  lemma {:induction false} EveryInterleavingIsScreened(sessions: nat, balance: AccountRef -> int, events: seq<Event>)
    requires (forall a :: IsWalletAccount(a) ==> balance(a) >= 0) && LaneEvents(events)
    ensures var x := Run(Opened(sessions), balance, events);
      |x.stages| == sessions && StagesOk(x) && Accounted(x) && Screened(x, balance)
  {
    if events == [] {
      forall a ensures AppliedByAll(Opened(sessions).stages, a) == 0 && CheckedByAll(Opened(sessions).stages, a) == 0 {
        NothingInFlight(sessions, a);
      }
    } else {
      var n := |events| - 1;
      assert forall k :: 0 <= k < n ==> events[..n][k] == events[k];
      EveryInterleavingIsScreened(sessions, balance, events[..n]);
      OneStepIsScreened(Run(Opened(sessions), balance, events[..n]), balance, balance, events[n]);
    }
  }

  lemma OneStepIsScreened(x: Shared, balance: AccountRef -> int, limit: AccountRef -> int, e: Event)
    requires StagesOk(x) && Accounted(x) && Screened(x, balance) && forall a :: limit(a) <= balance(a)
    requires e.Start? ==> DebitsFirst(PartsOf(e.legs))
    ensures var y := Take(x, limit, e);
      |y.stages| == |x.stages| && StagesOk(y) && Accounted(y) && Screened(y, balance)
  {
    hide Take, AppliedByAll, CheckedByAll, AcceptedSum, StageOk;
    var y := Take(x, limit, e);
    TakeKeepsStages(x, limit, e);
    TakeKeepsAccounts(x, limit, e, REVENUE);
    forall a ensures Total(y, a) == AcceptedSum(y.accepted, a) + AppliedByAll(y.stages, a) {
      TakeKeepsAccounts(x, limit, e, a);
    }
    forall a | IsWalletAccount(a) ensures CoveredNow(y, balance, a) {
      TakeKeepsCover(x, balance, limit, e, a);
    }
  }

  /** Once every session is idle, the accepted movements alone are covered and alone in the registry. */
  lemma QuietRegistryHoldsAccepted(sessions: nat, balance: AccountRef -> int, events: seq<Event>, a: AccountRef)
    requires (forall b :: IsWalletAccount(b) ==> balance(b) >= 0) && LaneEvents(events) && IsWalletAccount(a)
    requires Run(Opened(sessions), balance, events).stages == Opened(sessions).stages
    ensures var x := Run(Opened(sessions), balance, events);
      Total(x, a) == AcceptedSum(x.accepted, a) && balance(a) + AcceptedSum(x.accepted, a) >= 0
  {
    EveryInterleavingIsScreened(sessions, balance, events);
    NothingInFlight(sessions, a);
    assert CoveredNow(Run(Opened(sessions), balance, events), balance, a);
  }

  // ---- Why the order matters ----------------------------------------------------------

  ghost predicate NonZero(parts: seq<Part>) {
    forall k :: 0 <= k < |parts| ==> parts[k].delta != 0
  }

  /** Debits up to i, credits from there to j, and then a debit. */
  ghost predicate Misplaced(parts: seq<Part>, i: nat, j: nat) {
    && i < j < |parts| && parts[j].delta < 0
    && (forall k :: 0 <= k < i ==> parts[k].delta < 0)
    && forall k :: i <= k < j ==> parts[k].delta > 0
  }

  lemma MisplacedInRange(parts: seq<Part>, i: nat, j: nat)
    requires Misplaced(parts, i, j)
    ensures i < j < |parts|
  {
  }

  lemma FirstMisplaced(parts: seq<Part>) returns (i: nat, j: nat)
    requires NonZero(parts) && !DebitsFirst(parts)
    ensures Misplaced(parts, i, j)
  {
    var p, q :| 0 <= p < q < |parts| && parts[q].delta < 0 && !(parts[p].delta < 0);
    i := 0;
    while parts[i].delta < 0
      invariant i <= p && forall k :: 0 <= k < i ==> parts[k].delta < 0
      decreases p - i
    {
      i := i + 1;
    }
    j := i + 1;
    while parts[j].delta > 0
      invariant i < j <= q && forall k :: i <= k < j ==> parts[k].delta > 0
      decreases q - j
    {
      j := j + 1;
    }
  }

  lemma {:induction false} DebitsShrink(parts: seq<Part>, m: nat, n: nat, a: AccountRef)
    requires m <= n <= |parts| && forall k :: m <= k < n ==> parts[k].delta < 0
    ensures Sum(parts[..n], a) <= Sum(parts[..m], a)
  {
    if m < n {
      DebitsShrink(parts, m, n - 1, a);
      SumStep(parts, n - 1);
    }
  }

  lemma {:induction false} CreditsGrow(parts: seq<Part>, m: nat, n: nat, a: AccountRef)
    requires m <= n <= |parts| && forall k :: m <= k < n ==> parts[k].delta > 0
    ensures Sum(parts[..n], a) >= Sum(parts[..m], a)
    ensures m < n && parts[m].account == a ==> Sum(parts[..n], a) > Sum(parts[..m], a)
  {
    if m < n {
      CreditsGrow(parts, m, n - 1, a);
      SumStep(parts, n - 1);
    }
  }

  /** Balances that the leading debits spend to the last unit. */
  function JustEnough(parts: seq<Part>, i: nat): AccountRef -> int
    requires i <= |parts|
  {
    a => -Sum(parts[..i], a)
  }

  lemma JustEnoughIsNotNegative(parts: seq<Part>, i: nat, j: nat)
    requires Misplaced(parts, i, j)
    ensures forall a :: JustEnough(parts, i)(a) >= 0
  {
    NothingSummed();
    forall a ensures JustEnough(parts, i)(a) >= 0 {
      DebitsShrink(parts, 0, i, a);
    }
  }

  function Times(e: Event, n: nat): seq<Event> {
    if n == 0 then [] else Times(e, n - 1) + [e]
  }

  lemma {:induction false} RunConcat(x: Shared, balance: AccountRef -> int, es: seq<Event>, fs: seq<Event>)
    ensures Run(x, balance, es + fs) == Run(Run(x, balance, es), balance, fs)
  {
    hide Take;
    if fs == [] {
      assert es + fs == es;
    } else {
      var n := |fs| - 1;
      RunConcat(x, balance, es, fs[..n]);
      assert (es + fs)[..|es + fs| - 1] == es + fs[..n];
    }
  }

  lemma RunOne(x: Shared, balance: AccountRef -> int, e: Event)
    ensures Run(x, balance, [e]) == Take(x, balance, e)
  {
    hide Take;
    assert [e][..0] == [];
    assert Run(x, balance, []) == x;
  }

  /** Session 0 has its first k parts in the registry, session 1 is idle. */
  ghost predicate Holding(x: Shared, parts: seq<Part>, k: nat) {
    && k <= |parts| && x.stages == [Reserving(parts, k), Idle] && x.accepted == []
    && forall a :: Total(x, a) == Sum(parts[..k], a)
  }

  lemma OneMoreHeld(x: Shared, parts: seq<Part>, i: nat, j: nat, k: nat)
    requires Misplaced(parts, i, j) && Holding(x, parts, k) && k < j
    ensures Holding(Take(x, JustEnough(parts, i), Add(0)), parts, k + 1)
  {
    hide Sum;
    var p, balance := parts[k], JustEnough(parts, i);
    SumStep(parts, k);
    assert Total(x, p.account) == Sum(parts[..k], p.account);
    assert p.delta < 0 ==> balance(p.account) + Sum(parts[..k + 1], p.account) >= 0 by {
      if k < i {
        DebitsShrink(parts, k + 1, i, p.account);
      }
    }
    var y := Take(x, balance, Add(0));
    assert y.stages == [Reserving(parts, k + 1), Idle] && y.accepted == [];
    assert forall a :: Total(y, a) == Total(x, a) + if a == p.account then p.delta else 0;
  }

  lemma {:induction false} CreditsHeld(legs: seq<Leg>, i: nat, j: nat, k: nat)
    requires Misplaced(PartsOf(legs), i, j) && k <= j
    ensures Holding(Run(Opened(2), JustEnough(PartsOf(legs), i), [Start(0, legs)] + Times(Add(0), k)), PartsOf(legs), k)
  {
    hide Take, Run, PartsOf, Holding;
    var parts, b := PartsOf(legs), JustEnough(PartsOf(legs), i);
    if k == 0 {
      assert [Start(0, legs)] + Times(Add(0), 0) == [Start(0, legs)];
      RunOne(Opened(2), b, Start(0, legs));
      Started(legs, b);
    } else {
      CreditsHeld(legs, i, j, k - 1);
      var es := [Start(0, legs)] + Times(Add(0), k - 1);
      assert [Start(0, legs)] + Times(Add(0), k) == es + [Add(0)];
      RunConcat(Opened(2), b, es, [Add(0)]);
      RunOne(Run(Opened(2), b, es), b, Add(0));
      OneMoreHeld(Run(Opened(2), b, es), parts, i, j, k - 1);
    }
  }

  lemma Started(legs: seq<Leg>, balance: AccountRef -> int)
    ensures Holding(Take(Opened(2), balance, Start(0, legs)), PartsOf(legs), 0)
  {
    NothingSummed();
  }

  lemma TwoParts(a: AccountRef, u: AccountRef, d: int)
    requires IsWalletAccount(a) && IsWalletAccount(u)
    ensures PartsOf([Leg(a, CREDIT, d), Leg(u, CREDIT, -d)]) == [Part(a, -d), Part(u, d)]
  {
    var legs := [Leg(a, CREDIT, d), Leg(u, CREDIT, -d)];
    assert legs[..1] == [legs[0]] && legs[..1][..0] == [];
    assert PartsOf(legs[..1]) == [Part(a, -d)];
  }

  /** Session 1's movement: d out of `a`, into a wallet the other movement's failing part is not on. */
  function Drain(a: AccountRef, u: AccountRef, d: int): seq<Leg> {
    [Leg(a, CREDIT, d), Leg(u, CREDIT, -d)]
  }

  function DrainEvents(a: AccountRef, u: AccountRef, d: int): seq<Event> {
    [Start(1, Drain(a, u, d))] + [Add(1)] + [Add(1)] + [Finish(1)]
  }

  /** Session 1 has taken d from `a`, and is done. */
  ghost predicate Spent(x: Shared, parts: seq<Part>, k: nat, a: AccountRef, u: AccountRef, d: int) {
    && k <= |parts| && x.stages == [Reserving(parts, k), Idle] && x.accepted == [[Part(a, -d), Part(u, d)]]
    && forall c :: c != u ==> Total(x, c) == Sum(parts[..k], c) - if c == a then d else 0
  }

  lemma CreditSpent(x: Shared, balance: AccountRef -> int, parts: seq<Part>, k: nat, a: AccountRef, u: AccountRef,
      d: int)
    requires Holding(x, parts, k) && IsWalletAccount(a) && IsWalletAccount(u) && u != a
    requires d > 0 && balance(a) + Sum(parts[..k], a) - d >= 0
    ensures Spent(Run(x, balance, DrainEvents(a, u, d)), parts, k, a, u, d)
  {
    hide Sum;
    TwoParts(a, u, d);
    var x1 := Take(x, balance, Start(1, Drain(a, u, d)));
    assert x1.stages == [Reserving(parts, k), Reserving([Part(a, -d), Part(u, d)], 0)];
    var x2 := Take(x1, balance, Add(1));
    assert x2.stages == [Reserving(parts, k), Reserving([Part(a, -d), Part(u, d)], 1)];
    var x3 := Take(x2, balance, Add(1));
    assert x3.stages == [Reserving(parts, k), Reserving([Part(a, -d), Part(u, d)], 2)];
    var x4 := Take(x3, balance, Finish(1));
    assert [] + [[Part(a, -d), Part(u, d)]] == [[Part(a, -d), Part(u, d)]];
    FourSteps(x, balance, Start(1, Drain(a, u, d)), Add(1), Add(1), Finish(1));
  }

  lemma FourSteps(x: Shared, balance: AccountRef -> int, e: Event, f: Event, g: Event, h: Event)
    ensures Run(x, balance, [e] + [f] + [g] + [h]) ==
      Take(Take(Take(Take(x, balance, e), balance, f), balance, g), balance, h)
  {
    hide Take;
    RunOne(x, balance, e);
    RunConcat(x, balance, [e], [f]);
    RunOne(Take(x, balance, e), balance, f);
    RunConcat(x, balance, [e] + [f], [g]);
    RunOne(Take(Take(x, balance, e), balance, f), balance, g);
    RunConcat(x, balance, [e] + [f] + [g], [h]);
    RunOne(Take(Take(Take(x, balance, e), balance, f), balance, g), balance, h);
  }

  /** Session 0 is backing out and has k parts left; session 1 keeps what it took. */
  ghost predicate BackingOut(x: Shared, parts: seq<Part>, j: nat, left: nat, a: AccountRef, u: AccountRef, d: int) {
    && j < |parts| && left <= j + 1 && x.stages == [Unwinding(parts, j, left), Idle]
      && x.accepted == [[Part(a, -d), Part(u, d)]]
  }

  lemma {:induction false} BacksOut(x: Shared, balance: AccountRef -> int, parts: seq<Part>, j: nat, a: AccountRef,
      u: AccountRef, d: int, n: nat)
    requires BackingOut(x, parts, j, j + 1, a, u, d) && n <= j + 1
    ensures BackingOut(Run(x, balance, Times(Undo(0), n)), parts, j, j + 1 - n, a, u, d)
  {
    if n > 0 {
      BacksOut(x, balance, parts, j, a, u, d, n - 1);
      RunConcat(x, balance, Times(Undo(0), n - 1), [Undo(0)]);
      RunOne(Run(x, balance, Times(Undo(0), n - 1)), balance, Undo(0));
    }
  }

  lemma SpentOnce(a: AccountRef, u: AccountRef, d: int)
    requires u != a
    ensures AcceptedSum([[Part(a, -d), Part(u, d)]], a) == -d
  {
    var parts := [Part(a, -d), Part(u, d)];
    assert parts[..1] == [Part(a, -d)] && parts[..1][..0] == [];
    assert Sum(parts[..1], a) == -d;
    AcceptedSnoc([], parts, a);
    assert [] + [parts] == [parts];
  }

  /** With the credits backed out, what session 1 took is no longer there. */
  lemma Overspent(x: Shared, parts: seq<Part>, i: nat, j: nat, a: AccountRef, u: AccountRef, d: int)
    requires Misplaced(parts, i, j) && BackingOut(x, parts, j, i, a, u, d) && u != a && d > 0 && IsWalletAccount(a)
    ensures !Screened(x, JustEnough(parts, i))
    ensures i == 0 ==> !Screened(Take(x, JustEnough(parts, i), Finish(0)), JustEnough(parts, i))
    ensures i == 0 ==> Take(x, JustEnough(parts, i), Finish(0)).stages == [Idle, Idle]
  {
    hide Sum, AcceptedSum;
    SpentOnce(a, u, d);
    NothingSummed();
    var g := Unwinding(parts, j, i);
    assert [g, Idle][..1] == [g] && [g][..0] == [];
    assert CheckedByAll([g], a) == CheckedBy(g, a);
    assert CheckedByAll([g, Idle], a) == Sum(parts[..i], a);
    assert !CoveredNow(x, JustEnough(parts, i), a);
    if i == 0 {
      var y := Take(x, JustEnough(parts, i), Finish(0));
      assert y.stages == [Idle, Idle] && y.accepted == x.accepted;
      assert [Idle, Idle][..1] == [Idle] && [Idle][..0] == [];
      assert CheckedByAll([Idle], a) == 0;
      assert !CoveredNow(y, JustEnough(parts, i), a);
    }
  }

  /** A wallet that is neither of two. */
  function Third(a: AccountRef, b: AccountRef): (u: AccountRef)
    ensures IsWalletAccount(u) && u != a && u != b
  {
    var x, y, z := Wallet("x", Earned), Wallet("y", Earned), Wallet("z", Earned);
    if x != a && x != b then x else if y != a && y != b then y else z
  }

  lemma {:induction false} PartsAreWallets(legs: seq<Leg>)
    ensures forall k :: 0 <= k < |PartsOf(legs)| ==> IsWalletAccount(PartsOf(legs)[k].account)
  {
    if legs != [] {
      PartsAreWallets(legs[..|legs| - 1]);
    }
  }

  /** All starts but those of one movement are lane movements. */
  ghost predicate Among(events: seq<Event>, legs: seq<Leg>) {
    forall k :: 0 <= k < |events| && events[k].Start? ==> events[k].legs == legs || DebitsFirst(PartsOf(events[k].legs))
  }

  /** What session 1 drains: the account of the part that is to fail, if it was credited, or the first credit's. */
  function Target(parts: seq<Part>, i: nat, j: nat): AccountRef
    requires i < j < |parts|
  {
    var b := parts[j].account;
    if Sum(parts[..j], b) > Sum(parts[..i], b) then b else parts[i].account
  }

  /** The failing part: once the target is drained, nothing is left on its account. */
  lemma DebitFails(x: Shared, parts: seq<Part>, i: nat, j: nat, u: AccountRef)
    requires Misplaced(parts, i, j) && u != parts[j].account
    requires var a := Target(parts, i, j); Spent(x, parts, j, a, u, Sum(parts[..j], a) - Sum(parts[..i], a))
    ensures var a := Target(parts, i, j);
      BackingOut(Take(x, JustEnough(parts, i), Add(0)), parts, j, j + 1, a, u, Sum(parts[..j], a) - Sum(parts[..i], a))
  {
    hide Sum;
    var b := parts[j].account;
    CreditsGrow(parts, i, j, b);
    assert Total(x, b) == Sum(parts[..i], b);
  }

  function OverspendingRun(legs: seq<Leg>, i: nat, j: nat): seq<Event>
    requires i < j < |PartsOf(legs)|
  {
    var parts := PartsOf(legs);
    var a := Target(parts, i, j);
    var d := Sum(parts[..j], a) - Sum(parts[..i], a);
    [Start(0, legs)] + Times(Add(0), j) + DrainEvents(a, Third(a, parts[j].account), d) + [Add(0)]
      + Times(Undo(0), j + 1 - i)
  }

  lemma {:induction false} TimesAmong(e: Event, n: nat, legs: seq<Leg>)
    requires !e.Start?
    ensures Among(Times(e, n), legs)
  {
    if n > 0 {
      TimesAmong(e, n - 1, legs);
    }
  }

  lemma AmongConcat(es: seq<Event>, fs: seq<Event>, legs: seq<Leg>)
    requires Among(es, legs) && Among(fs, legs)
    ensures Among(es + fs, legs)
  {
  }

  lemma PiecesAreAmong(legs: seq<Leg>, a: AccountRef, u: AccountRef, d: int)
    requires d > 0 && PartsOf(Drain(a, u, d)) == [Part(a, -d), Part(u, d)]
    ensures Among([Start(0, legs)], legs) && Among(DrainEvents(a, u, d), legs) && Among([Add(0)], legs)
  {
  }

  lemma OverspendingIsAmong(legs: seq<Leg>, i: nat, j: nat)
    requires Misplaced(PartsOf(legs), i, j)
    ensures Among(OverspendingRun(legs, i, j), legs)
  {
    hide Among, Sum, PartsOf;
    var parts := PartsOf(legs);
    var a := Target(parts, i, j);
    var u := Third(a, parts[j].account);
    var d := Sum(parts[..j], a) - Sum(parts[..i], a);
    PartsAreWallets(legs);
    TargetIsCredited(parts, i, j);
    TwoParts(a, u, d);
    PiecesAreAmong(legs, a, u, d);
    TimesAmong(Add(0), j, legs);
    TimesAmong(Undo(0), j + 1 - i, legs);
    var hold := [Start(0, legs)] + Times(Add(0), j);
    AmongConcat([Start(0, legs)], Times(Add(0), j), legs);
    AmongConcat(hold, DrainEvents(a, u, d), legs);
    AmongConcat(hold + DrainEvents(a, u, d), [Add(0)], legs);
    AmongConcat(hold + DrainEvents(a, u, d) + [Add(0)], Times(Undo(0), j + 1 - i), legs);
  }

  lemma TargetIsCredited(parts: seq<Part>, i: nat, j: nat)
    requires Misplaced(parts, i, j)
    ensures var a := Target(parts, i, j); Sum(parts[..j], a) > Sum(parts[..i], a)
  {
    CreditsGrow(parts, i, j, parts[i].account);
  }

  /** The credit is reserved, another session spends it, the later debit fails and the credit is unwound. */
  lemma OverspendingRunOverspends(legs: seq<Leg>, i: nat, j: nat)
    requires Misplaced(PartsOf(legs), i, j)
    ensures var balance := JustEnough(PartsOf(legs), i);
      var x := Run(Opened(2), balance, OverspendingRun(legs, i, j));
      !Screened(x, balance)
      && (i == 0 ==>
        !Screened(Take(x, balance, Finish(0)), balance) && Take(x, balance, Finish(0)).stages == [Idle, Idle])
  {
    hide Take, Run, Misplaced, Sum, Screened;
    MisplacedInRange(PartsOf(legs), i, j);
    var parts, b := PartsOf(legs), JustEnough(PartsOf(legs), i);
    var a := Target(parts, i, j);
    var u, d := Third(a, parts[j].account), Sum(parts[..j], a) - Sum(parts[..i], a);
    PartsAreWallets(legs);
    TargetIsCredited(parts, i, j);
    CreditsHeld(legs, i, j, j);
    var x0, hold, drain, undo :=
      Opened(2), [Start(0, legs)] + Times(Add(0), j), DrainEvents(a, u, d), Times(Undo(0), j + 1 - i);
    var x1 := Run(x0, b, hold);
    CreditSpent(x1, b, parts, j, a, u, d);
    var x2 := Run(x1, b, drain);
    DebitFails(x2, parts, i, j, u);
    var x3 := Take(x2, b, Add(0));
    BacksOut(x3, b, parts, j, a, u, d, j + 1 - i);
    Overspent(Run(x3, b, undo), parts, i, j, a, u, d);
    RunConcat(x0, b, hold, drain);
    RunConcat(x0, b, hold + drain, [Add(0)]);
    RunOne(x2, b, Add(0));
    RunConcat(x0, b, hold + drain + [Add(0)], undo);
  }

  /** Every run in which this movement meets nothing but lane movements stays covered. */
  ghost predicate SafeAmongLanes(legs: seq<Leg>) {
    forall sessions: nat, balance: AccountRef -> int, events: seq<Event> ::
      (forall a :: balance(a) >= 0) && Among(events, legs) ==> Screened(Run(Opened(sessions), balance, events), balance)
  }

  /**
   Debits first is exactly what the concurrent screens need. A movement of nonzero wallet legs is safe
   among lane movements if and only if no debit of it comes after a credit; otherwise two sessions are
   enough to overspend, and if it opens with a credit they end idle and overspent.
   */
  lemma DebitsFirstIsExact(legs: seq<Leg>)
    requires NonZero(PartsOf(legs))
    ensures SafeAmongLanes(legs) <==> DebitsFirst(PartsOf(legs))
  {
    hide Run, Screened, Misplaced;
    if DebitsFirst(PartsOf(legs)) {
      forall sessions: nat, balance: AccountRef -> int, events: seq<Event> |
        (forall a :: balance(a) >= 0) && Among(events, legs)
        ensures Screened(Run(Opened(sessions), balance, events), balance)
      {
        EveryInterleavingIsScreened(sessions, balance, events);
      }
    } else {
      var i, j := FirstMisplaced(PartsOf(legs));
      MisplacedInRange(PartsOf(legs), i, j);
      JustEnoughIsNotNegative(PartsOf(legs), i, j);
      OverspendingIsAmong(legs, i, j);
      OverspendingRunOverspends(legs, i, j);
    }
  }

  /** Such a movement that opens with a credit leaves, once everyone is idle, a wallet overspent for good. */
  lemma CreditsFirstOverspend(legs: seq<Leg>) returns (balance: AccountRef -> int, events: seq<Event>)
    requires NonZero(PartsOf(legs)) && !DebitsFirst(PartsOf(legs)) && PartsOf(legs)[0].delta > 0
    ensures (forall a :: balance(a) >= 0) && Among(events, legs)
    ensures var x := Run(Opened(2), balance, events);
      x.stages == [Idle, Idle] && !Screened(x, balance)
  {
    hide Run, Screened, Take;
    var i, j := FirstMisplaced(PartsOf(legs));
    balance := JustEnough(PartsOf(legs), i);
    JustEnoughIsNotNegative(PartsOf(legs), i, j);
    OverspendingIsAmong(legs, i, j);
    OverspendingRunOverspends(legs, i, j);
    events := OverspendingRun(legs, i, j) + [Finish(0)];
    RunConcat(Opened(2), balance, OverspendingRun(legs, i, j), [Finish(0)]);
    RunOne(Run(Opened(2), balance, OverspendingRun(legs, i, j)), balance, Finish(0));
  }
}
