/**
 The submit coalescer (src/batching.ts): a shared queue, a `scheduled` flag, and flushes that may
 overlap, each parked on the batch it has submitted. Between two awaits the code runs undisturbed, so
 its steps are: a submit, a flush starting, and a parked flush waking with its batch's result.
 */
module Batching {
  import opened Text

  datatype Waiter = Waiter(id: nat, operation: string)

  datatype Slot = Accepted(outcome: string) | Faulted(error: string)

  /** What `submitBatch` comes back with: one slot per operation, or one error for all. */
  datatype BatchResult = Slots(slots: seq<Slot>) | Failed(error: string)

  datatype Settlement = Resolved(outcome: string) | Rejected(error: string)

  /**
   `deferred` counts flushes handed to the scheduler and not yet fired; `flights` holds the batch each
   running flush is waiting on.
   */
  datatype State = State(
    queue: seq<Waiter>, scheduled: bool, deferred: nat, flights: seq<seq<Waiter>>,
    settled: map<nat, Settlement>, next: nat)

  const IDLE := State([], false, 0, [], map[], 0)

  datatype Event = Submit(operation: string) | Fire | FlushNow | Wake(flight: nat, result: BatchResult)

  function BatchSize(queue: seq<Waiter>, maxBatch: nat): nat {
    if |queue| < maxBatch then |queue| else maxBatch
  }

  function StartFlush(x: State, maxBatch: nat): State {
    if x.queue == [] then x.(scheduled := false)
    else
      var n := BatchSize(x.queue, maxBatch);
      x.(scheduled := false, queue := x.queue[n..], flights := x.flights + [x.queue[..n]])
  }

  function OnSubmit(x: State, operation: string, maxBatch: nat): State {
    var y := x.(queue := x.queue + [Waiter(x.next, operation)], next := x.next + 1);
    if |y.queue| >= maxBatch then StartFlush(y, maxBatch)
    else if y.scheduled then y
    else y.(scheduled := true, deferred := y.deferred + 1)
  }

  function SettlementOf(result: BatchResult, i: nat): Settlement
    requires result.Slots? ==> i < |result.slots|
  {
    match result
    case Failed(error) => Rejected(error)
    case Slots(slots) => if slots[i].Accepted? then Resolved(slots[i].outcome) else Rejected(slots[i].error)
  }

  predicate Answers(result: BatchResult, batch: seq<Waiter>) {
    result.Slots? ==> |result.slots| == |batch|
  }

  function SettleAll(settled: map<nat, Settlement>, batch: seq<Waiter>, result: BatchResult): map<nat, Settlement>
    requires result.Slots? ==> |batch| <= |result.slots|
  {
    if batch == [] then settled
    else
      var n := |batch| - 1;
      SettleAll(settled, batch[..n], result)[batch[n].id := SettlementOf(result, n)]
  }

  /** The woken flush settles its batch, then takes the next one or ends. */
  function OnWake(x: State, f: nat, result: BatchResult, maxBatch: nat): State
    requires f < |x.flights| && Answers(result, x.flights[f])
  {
    var settled := SettleAll(x.settled, x.flights[f], result);
    if x.queue == [] then x.(settled := settled, flights := x.flights[..f] + x.flights[f + 1..])
    else
      var n := BatchSize(x.queue, maxBatch);
      x.(settled := settled, queue := x.queue[n..], flights := x.flights[f := x.queue[..n]])
  }

  predicate Enabled(x: State, e: Event) {
    match e
    case Submit(_) => true
    case FlushNow => true
    case Fire => x.deferred > 0
    case Wake(f, result) => f < |x.flights| && Answers(result, x.flights[f])
  }

  function Step(x: State, e: Event, maxBatch: nat): State {
    if !Enabled(x, e) then x
    else
      match e
      case Submit(operation) => OnSubmit(x, operation, maxBatch)
      case FlushNow => StartFlush(x, maxBatch)
      case Fire => StartFlush(x.(deferred := x.deferred - 1), maxBatch)
      case Wake(f, result) => OnWake(x, f, result, maxBatch)
  }

  function Run(events: seq<Event>, maxBatch: nat): State {
    if events == [] then IDLE else Step(Run(events[..|events| - 1], maxBatch), events[|events| - 1], maxBatch)
  }

  // ---- The code's own object -------------------------------------------------------------

  class SubmitCoalescer {
    const maxBatch: nat
    var queue: seq<Waiter>
    var scheduled: bool
    var deferred: nat
    var flights: seq<seq<Waiter>>
    var settled: map<nat, Settlement>
    var next: nat

    constructor (maxBatch: nat)
      ensures this.maxBatch == maxBatch && View() == IDLE
    {
      this.maxBatch := maxBatch;
      queue, scheduled, deferred, flights, settled, next := [], false, 0, [], map[], 0;
    }

    ghost function View(): State
      reads this
    {
      State(queue, scheduled, deferred, flights, settled, next)
    }

    /** A flush up to its first await: clear the flag, splice a batch off the front, submit it. */
    method Flush()
      modifies this
      ensures View() == StartFlush(old(View()), maxBatch)
    {
      scheduled := false;
      if |queue| > 0 {
        var batch := Splice();
        flights := flights + [batch];
      }
    }

    method Splice() returns (batch: seq<Waiter>)
      requires |queue| > 0
      modifies this`queue
      ensures batch == old(queue)[..BatchSize(old(queue), maxBatch)]
        && queue == old(queue)[BatchSize(old(queue), maxBatch)..]
    {
      var n := if |queue| < maxBatch then |queue| else maxBatch;
      batch := queue[..n];
      queue := queue[n..];
    }

    method Submit(operation: string) returns (id: nat)
      modifies this
      ensures id == old(next) && View() == OnSubmit(old(View()), operation, maxBatch)
    {
      id := next;
      next := next + 1;
      queue := queue + [Waiter(id, operation)];
      if |queue| >= maxBatch {
        Flush();
        return;
      }
      if !scheduled {
        scheduled := true;
        deferred := deferred + 1;
      }
    }

    /** The scheduler runs one deferred flush. */
    method Fire()
      requires deferred > 0
      modifies this
      ensures View() == Step(old(View()), Event.Fire, maxBatch)
    {
      deferred := deferred - 1;
      Flush();
    }

    /** A parked flush resumes: every waiter of its batch is settled, then the loop goes round. */
    method Wake(f: nat, result: BatchResult)
      requires f < |flights| && Answers(result, flights[f])
      modifies this
      ensures View() == OnWake(old(View()), f, result, maxBatch)
    {
      var batch := flights[f];
      for i := 0 to |batch|
        invariant settled == SettleAll(old(settled), batch[..i], result)
        invariant queue == old(queue) && scheduled == old(scheduled) && deferred == old(deferred)
        invariant flights == old(flights) && next == old(next)
      {
        PrefixStep(batch, i);
        settled := settled[batch[i].id := SettlementOf(result, i)];
      }
      assert batch[..|batch|] == batch;
      if |queue| > 0 {
        var following := Splice();
        flights := flights[f := following];
      } else {
        flights := flights[..f] + flights[f + 1..];
      }
    }
  }

  // ---- Every waiter is somewhere, once -----------------------------------------------------

  function CountIn(waiters: seq<Waiter>, id: nat): nat {
    if waiters == [] then 0 else CountIn(waiters[..|waiters| - 1], id) + if waiters[|waiters| - 1].id == id then 1
      else 0
  }

  function CountInFlights(flights: seq<seq<Waiter>>, id: nat): nat {
    if flights == [] then 0 else CountInFlights(flights[..|flights| - 1], id) + CountIn(flights[|flights| - 1], id)
  }

  /** How many times a waiter is queued, in flight or settled. */
  function Places(x: State, id: nat): nat {
    CountIn(x.queue, id) + CountInFlights(x.flights, id) + if id in x.settled then 1 else 0
  }

  ghost predicate EachOnce(x: State) {
    forall id: nat :: Places(x, id) == if id < x.next then 1 else 0
  }

  ghost predicate FlightsBounded(x: State, maxBatch: nat) {
    forall f :: 0 <= f < |x.flights| ==> 0 < |x.flights[f]| <= maxBatch
  }

  /** A waiting queue is never stranded, and never holds a full batch. */
  predicate Tended(x: State, maxBatch: nat) {
    && |x.queue| < maxBatch
    && (x.queue != [] ==> x.scheduled || x.flights != [])
    && (x.scheduled ==> x.deferred > 0)
  }

  ghost predicate Good(x: State, maxBatch: nat) {
    EachOnce(x) && FlightsBounded(x, maxBatch) && Tended(x, maxBatch)
  }

  lemma {:induction false} CountConcat(xs: seq<Waiter>, ys: seq<Waiter>, id: nat)
    ensures CountIn(xs + ys, id) == CountIn(xs, id) + CountIn(ys, id)
  {
    if ys == [] {
      assert xs + ys == xs;
    } else {
      CountConcat(xs, ys[..|ys| - 1], id);
      assert (xs + ys)[..|xs + ys| - 1] == xs + ys[..|ys| - 1];
    }
  }

  lemma CountSplit(xs: seq<Waiter>, n: nat, id: nat)
    requires n <= |xs|
    ensures CountIn(xs, id) == CountIn(xs[..n], id) + CountIn(xs[n..], id)
  {
    CountConcat(xs[..n], xs[n..], id);
    assert xs[..n] + xs[n..] == xs;
  }

  lemma {:induction false} FlightsConcat(fs: seq<seq<Waiter>>, gs: seq<seq<Waiter>>, id: nat)
    ensures CountInFlights(fs + gs, id) == CountInFlights(fs, id) + CountInFlights(gs, id)
  {
    if gs == [] {
      assert fs + gs == fs;
    } else {
      FlightsConcat(fs, gs[..|gs| - 1], id);
      assert (fs + gs)[..|fs + gs| - 1] == fs + gs[..|gs| - 1];
    }
  }

  lemma OneFlight(b: seq<Waiter>, id: nat)
    ensures CountInFlights([b], id) == CountIn(b, id)
  {
    assert [b][..0] == [];
  }

  /** Taking flight f out, and putting `b` in its place. */
  lemma ReplaceFlight(fs: seq<seq<Waiter>>, f: nat, b: seq<Waiter>, id: nat)
    requires f < |fs|
    ensures CountInFlights(fs[..f] + fs[f + 1..], id) == CountInFlights(fs, id) - CountIn(fs[f], id)
    ensures CountInFlights(fs[f := b], id) == CountInFlights(fs, id) - CountIn(fs[f], id) + CountIn(b, id)
  {
    var before, after := fs[..f], fs[f + 1..];
    assert fs == before + [fs[f]] + after && fs[f := b] == before + [b] + after;
    FlightsConcat(before, after, id);
    FlightsConcat(before + [fs[f]], after, id);
    FlightsConcat(before, [fs[f]], id);
    FlightsConcat(before + [b], after, id);
    FlightsConcat(before, [b], id);
    OneFlight(fs[f], id);
    OneFlight(b, id);
  }

  lemma {:induction false} SettledKeys(settled: map<nat, Settlement>, batch: seq<Waiter>, result: BatchResult, id: nat)
    requires result.Slots? ==> |batch| <= |result.slots|
    ensures id in SettleAll(settled, batch, result) <==> id in settled || CountIn(batch, id) > 0
    ensures CountIn(batch, id) == 0 && id in settled ==> SettleAll(settled, batch, result)[id] == settled[id]
  {
    if batch != [] {
      SettledKeys(settled, batch[..|batch| - 1], result, id);
    }
  }

  lemma SubmitPlaces(x: State, operation: string, id: nat)
    ensures Places(x.(queue := x.queue + [Waiter(x.next, operation)], next := x.next + 1), id) ==
      Places(x, id) + if id == x.next then 1 else 0
  {
    assert (x.queue + [Waiter(x.next, operation)])[..|x.queue|] == x.queue;
  }

  lemma FlushPlaces(x: State, maxBatch: nat, id: nat)
    ensures Places(StartFlush(x, maxBatch), id) == Places(x, id)
  {
    if x.queue != [] {
      var n := BatchSize(x.queue, maxBatch);
      CountSplit(x.queue, n, id);
      FlightsConcat(x.flights, [x.queue[..n]], id);
      OneFlight(x.queue[..n], id);
    }
  }

  lemma WakePlaces(x: State, f: nat, result: BatchResult, maxBatch: nat, id: nat)
    requires f < |x.flights| && Answers(result, x.flights[f]) && Places(x, id) <= 1
    ensures Places(OnWake(x, f, result, maxBatch), id) == Places(x, id)
  {
    hide CountIn, CountInFlights, SettleAll;
    var n := BatchSize(x.queue, maxBatch);
    SettledKeys(x.settled, x.flights[f], result, id);
    ReplaceFlight(x.flights, f, x.queue[..n], id);
    CountSplit(x.queue, n, id);
  }

  lemma StepKeepsPlaces(x: State, e: Event, maxBatch: nat)
    requires EachOnce(x)
    ensures EachOnce(Step(x, e, maxBatch))
  {
    hide Places, SettleAll, StartFlush, OnWake;
    if Enabled(x, e) {
      forall id: nat ensures Places(Step(x, e, maxBatch), id) == if id < Step(x, e, maxBatch).next then 1 else 0 {
        assert Places(x, id) == if id < x.next then 1 else 0;
        match e
        case Submit(operation) => SubmitKeepsPlaces(x, operation, maxBatch, id);
        case FlushNow =>
          FlushPlaces(x, maxBatch, id);
          FlushKeepsNext(x, maxBatch);
        case Fire =>
          FirePlaces(x, id);
          FlushPlaces(x.(deferred := x.deferred - 1), maxBatch, id);
          FlushKeepsNext(x.(deferred := x.deferred - 1), maxBatch);
        case Wake(f, result) =>
          WakePlaces(x, f, result, maxBatch, id);
          WakeKeepsNext(x, f, result, maxBatch);
      }
    }
  }

  lemma SubmitKeepsPlaces(x: State, operation: string, maxBatch: nat, id: nat)
    ensures Places(OnSubmit(x, operation, maxBatch), id) == Places(x, id) + if id == x.next then 1 else 0
    ensures OnSubmit(x, operation, maxBatch).next == x.next + 1
  {
    hide CountIn, CountInFlights, StartFlush;
    var y := x.(queue := x.queue + [Waiter(x.next, operation)], next := x.next + 1);
    SubmitPlaces(x, operation, id);
    FlushPlaces(y, maxBatch, id);
    FlushKeepsNext(y, maxBatch);
  }

  lemma FirePlaces(x: State, id: nat)
    requires x.deferred > 0
    ensures Places(x.(deferred := x.deferred - 1), id) == Places(x, id)
  {
  }

  lemma FlushKeepsNext(x: State, maxBatch: nat)
    ensures StartFlush(x, maxBatch).next == x.next
  {
  }

  lemma WakeKeepsNext(x: State, f: nat, result: BatchResult, maxBatch: nat)
    requires f < |x.flights| && Answers(result, x.flights[f])
    ensures OnWake(x, f, result, maxBatch).next == x.next
  {
  }

  lemma StepKeepsFlow(x: State, e: Event, maxBatch: nat)
    requires maxBatch >= 1 && FlightsBounded(x, maxBatch) && Tended(x, maxBatch)
    ensures FlightsBounded(Step(x, e, maxBatch), maxBatch) && Tended(Step(x, e, maxBatch), maxBatch)
  {
    hide SettleAll;
  }

  /**
   In every interleaving of submits, deferred and explicit flushes and batch results: a non-empty queue
   has a flush scheduled or running, no batch exceeds the maximum, and every submitted waiter is in
   exactly one place - queued, in flight, or settled.
   */
  lemma {:induction false} EveryRunIsGood(events: seq<Event>, maxBatch: nat)
    requires maxBatch >= 1
    ensures Good(Run(events, maxBatch), maxBatch)
  {
    hide Step, EachOnce;
    if events == [] {
      NobodyYet();
    } else {
      var n := |events| - 1;
      EveryRunIsGood(events[..n], maxBatch);
      StepKeepsPlaces(Run(events[..n], maxBatch), events[n], maxBatch);
      StepKeepsFlow(Run(events[..n], maxBatch), events[n], maxBatch);
    }
  }

  lemma NobodyYet()
    ensures EachOnce(IDLE)
  {
  }

  // ---- Each waiter gets its own answer, once -----------------------------------------------

  lemma {:induction false} OwnSlot(settled: map<nat, Settlement>, batch: seq<Waiter>, result: BatchResult, i: nat)
    requires i < |batch| && (result.Slots? ==> |batch| <= |result.slots|)
    requires CountIn(batch, batch[i].id) <= 1
    ensures batch[i].id in SettleAll(settled, batch, result)
      && SettleAll(settled, batch, result)[batch[i].id] == SettlementOf(result, i)
  {
    var n := |batch| - 1;
    if i < n {
      MemberCounts(batch[..n], i);
      OwnSlot(settled, batch[..n], result, i);
    }
  }

  lemma {:induction false} MemberCounts(batch: seq<Waiter>, i: nat)
    requires i < |batch|
    ensures CountIn(batch, batch[i].id) >= 1
  {
    if i < |batch| - 1 {
      MemberCounts(batch[..|batch| - 1], i);
    }
  }

  lemma FlightCounts(x: State, f: nat, id: nat)
    requires f < |x.flights|
    ensures CountIn(x.flights[f], id) <= CountInFlights(x.flights, id) <= Places(x, id)
  {
    ReplaceFlight(x.flights, f, [], id);
  }

  /**
   A waking flush gives each waiter of its batch the slot of its own index, or the batch's error; no
   settlement made before is ever changed.
   */
  lemma WakeSettlesOwnSlots(x: State, f: nat, result: BatchResult, maxBatch: nat)
    requires EachOnce(x) && f < |x.flights| && Answers(result, x.flights[f])
    ensures var y := OnWake(x, f, result, maxBatch);
      && (forall i: nat :: i < |x.flights[f]| ==>
            x.flights[f][i].id !in x.settled && x.flights[f][i].id in y.settled
            && (result.Failed? ==> y.settled[x.flights[f][i].id] == Rejected(result.error))
            && (result.Slots? && result.slots[i].Accepted? ==>
                  y.settled[x.flights[f][i].id] == Resolved(result.slots[i].outcome))
            && (result.Slots? && result.slots[i].Faulted? ==>
                  y.settled[x.flights[f][i].id] == Rejected(result.slots[i].error)))
      && (forall id :: id in x.settled ==> id in y.settled && y.settled[id] == x.settled[id])
      && (forall id :: id in y.settled ==> id in x.settled || CountIn(x.flights[f], id) > 0)
  {
    hide CountIn, CountInFlights, SettleAll;
    var batch := x.flights[f];
    forall i: nat | i < |batch|
      ensures batch[i].id !in x.settled && batch[i].id in SettleAll(x.settled, batch, result)
      ensures SettleAll(x.settled, batch, result)[batch[i].id] == SettlementOf(result, i)
    {
      FlightCounts(x, f, batch[i].id);
      assert Places(x, batch[i].id) <= 1;
      MemberCounts(batch, i);
      OwnSlot(x.settled, batch, result, i);
    }
    forall id: nat
      ensures id in SettleAll(x.settled, batch, result) <==> id in x.settled || CountIn(batch, id) > 0
      ensures id in x.settled ==> SettleAll(x.settled, batch, result)[id] == x.settled[id]
    {
      SettledKeys(x.settled, batch, result, id);
      FlightCounts(x, f, id);
      assert Places(x, id) <= 1;
    }
  }

  /** By quiescence - nothing deferred, nothing in flight - every waiter ever submitted has its answer. */
  lemma QuietMeansAllSettled(events: seq<Event>, maxBatch: nat)
    requires maxBatch >= 1
    requires Run(events, maxBatch).deferred == 0 && Run(events, maxBatch).flights == []
    ensures var x := Run(events, maxBatch);
      x.queue == [] && forall id: nat :: id in x.settled <==> id < x.next
  {
    EveryRunIsGood(events, maxBatch);
    var x := Run(events, maxBatch);
    forall id: nat ensures id in x.settled <==> id < x.next {
      assert Places(x, id) == if id < x.next then 1 else 0;
    }
  }

  // ---- What each step does -----------------------------------------------------------------

  /**
   A submit queues its operation last. A full queue is flushed at once; otherwise one flush is handed to
   the scheduler unless one is scheduled already.
   */
  lemma SubmitSays(x: State, operation: string, maxBatch: nat)
    ensures var y := OnSubmit(x, operation, maxBatch);
      && y.next == x.next + 1 && y.settled == x.settled
      && (|x.queue| + 1 < maxBatch ==>
            && y.queue == x.queue + [Waiter(x.next, operation)] && y.flights == x.flights && y.scheduled
            && y.deferred == if x.scheduled then x.deferred else x.deferred + 1)
      && (|x.queue| + 1 >= maxBatch > 0 ==>
            && !y.scheduled && y.deferred == x.deferred && |y.flights| == |x.flights| + 1
            && y.flights[..|x.flights|] == x.flights
            && y.flights[|x.flights|] + y.queue == x.queue + [Waiter(x.next, operation)]
            && |y.flights[|x.flights|]| == maxBatch)
  {
  }

  /** A deferred flush runs whenever one is due, and takes the oldest waiters, a batch of them at most. */
  lemma FireSays(x: State, maxBatch: nat)
    requires x.deferred > 0
    ensures var y := Step(x, Fire, maxBatch);
      && y.deferred == x.deferred - 1 && !y.scheduled && y.settled == x.settled && y.next == x.next
      && (x.queue == [] ==> y.flights == x.flights && y.queue == [])
      && (x.queue != [] ==>
            && |y.flights| == |x.flights| + 1 && y.flights[..|x.flights|] == x.flights
            && y.flights[|x.flights|] + y.queue == x.queue && |y.flights[|x.flights|]| <= maxBatch
            && (y.queue != [] ==> |y.flights[|x.flights|]| == maxBatch))
  {
  }

  /** A woken flush takes the next batch into its own place, or ends when nothing is queued. */
  lemma WakeSays(x: State, f: nat, result: BatchResult, maxBatch: nat)
    requires f < |x.flights| && Answers(result, x.flights[f])
    ensures var y := Step(x, Wake(f, result), maxBatch);
      && y.scheduled == x.scheduled && y.deferred == x.deferred && y.next == x.next
      && (x.queue == [] ==> y.queue == [] && y.flights == x.flights[..f] + x.flights[f + 1..])
      && (x.queue != [] ==>
            && |y.flights| == |x.flights|
              && (forall g :: 0 <= g < |x.flights| && g != f ==> y.flights[g] == x.flights[g])
            && y.flights[f] + y.queue == x.queue && |y.flights[f]| <= maxBatch
            && (y.queue != [] ==> |y.flights[f]| == maxBatch))
  {
  }

  /** Any good state leads to good ones only, and a run is longer by one step than the run before it. */
  lemma StepKeepsGood(events: seq<Event>, e: Event, x: State, maxBatch: nat)
    requires maxBatch >= 1 && Good(x, maxBatch)
    ensures Good(Step(x, e, maxBatch), maxBatch)
    ensures Run(events + [e], maxBatch) == Step(Run(events, maxBatch), e, maxBatch)
  {
    hide EachOnce, FlightsBounded, Tended, Step;
    StepKeepsPlaces(x, e, maxBatch);
    StepKeepsFlow(x, e, maxBatch);
    assert (events + [e])[..|events|] == events;
  }
}
