/**
 Credit maturity (src/maturity.ts): which part of a balance has outlived its settlement wait. Spends
 drain oldest-first, so what is left is the newest lots; the code walks them newest-first a page at a
 time, and here that walk is compared with the whole-history scan and with the spending itself.
 */
module Maturity {
  import opened Text

  /** One balance increase: how much, from which funding source, and when. */
  datatype Lot = Lot(minor: int, source: string, toppedUpAt: int)

  type Horizons = map<string, int>

  const TAIL_PAGE: nat := 64

  /** The wait of a source; an unknown one takes the default, then the card wait, then none. */
  function HorizonMs(source: string, config: Horizons): int {
    if source in config then config[source]
    else if "default" in config then config["default"]
    else if "card" in config then config["card"]
    else 0
  }

  function LotMaturesAt(lot: Lot, config: Horizons): int {
    lot.toppedUpAt + HorizonMs(lot.source, config)
  }

  /** The ledger only turns balance-increasing entries into lots. */
  predicate AllPositive(lots: seq<Lot>) {
    forall i :: 0 <= i < |lots| ==> lots[i].minor > 0
  }

  function Total(lots: seq<Lot>): int {
    if lots == [] then 0 else lots[0].minor + Total(lots[1..])
  }

  function Reversed<T>(xs: seq<T>): (r: seq<T>)
    ensures |r| == |xs|
  {
    if xs == [] then [] else Reversed(xs[1..]) + [xs[0]]
  }

  // ---- The paged walk ------------------------------------------------------------------

  /** How much of the live balance a lot covers, and when that part matures. */
  datatype Slice = Slice(take: int, maturesAt: int)

  function SliceOf(lot: Lot, remaining: int, config: Horizons): Slice {
    Slice(if lot.minor < remaining then lot.minor else remaining, LotMaturesAt(lot, config))
  }

  /** Newest-first lots until they cover `remaining`. */
  function Slices(newest: seq<Lot>, remaining: int, config: Horizons): seq<Slice> {
    if newest == [] || remaining <= 0 then []
    else
      var s := SliceOf(newest[0], remaining, config);
      [s] + Slices(newest[1..], remaining - s.take, config)
  }

  /** The newest-first timeline read, bounded by an offset and a limit. */
  function Page(lots: seq<Lot>, offset: nat, limit: nat): seq<Lot> {
    var newest := Reversed(lots);
    if offset >= |newest| then []
    else newest[offset..if offset + limit < |newest| then offset + limit else |newest|]
  }

  lemma PageAt(lots: seq<Lot>, offset: nat, i: nat)
    requires i < |Page(lots, offset, TAIL_PAGE)|
    ensures offset + i < |lots| && Page(lots, offset, TAIL_PAGE)[i] == Reversed(lots)[offset + i]
  {
  }

  lemma PageSize(lots: seq<Lot>, offset: nat)
    ensures var n := |Page(lots, offset, TAIL_PAGE)|;
      n == if offset >= |lots| then 0 else if offset + TAIL_PAGE < |lots| then TAIL_PAGE else |lots| - offset
  {
  }

  lemma TakeOne(newest: seq<Lot>, k: nat, remaining: int, config: Horizons)
    requires k < |newest| && remaining > 0
    ensures var s := SliceOf(newest[k], remaining, config);
      Slices(newest[k..], remaining, config) == [s] + Slices(newest[k + 1..], remaining - s.take, config)
  {
    assert newest[k..][0] == newest[k] && newest[k..][1..] == newest[k + 1..];
  }

  function RestFrom(newest: seq<Lot>, at: nat, remaining: int, config: Horizons): seq<Slice> {
    if at <= |newest| then Slices(newest[at..], remaining, config) else []
  }

  lemma RestStep(newest: seq<Lot>, at: nat, remaining: int, config: Horizons, before: seq<Slice>)
    requires at < |newest| && remaining > 0
    ensures var s := SliceOf(newest[at], remaining, config);
      before + RestFrom(newest, at, remaining, config) ==
        before + [s] + RestFrom(newest, at + 1, remaining - s.take, config)
  {
    TakeOne(newest, at, remaining, config);
  }

  lemma RestDone(newest: seq<Lot>, at: nat, remaining: int, config: Horizons)
    ensures at >= |newest| || remaining <= 0 ==> RestFrom(newest, at, remaining, config) == []
  {
  }

  lemma RestWhole(newest: seq<Lot>, remaining: int, config: Horizons)
    ensures RestFrom(newest, 0, remaining, config) == Slices(newest, remaining, config)
  {
    assert newest[0..] == newest;
  }

  /** Page after page of the newest lots, stopping the moment the balance is covered or history ends. */
  method TailSlices(lots: seq<Lot>, live: int, config: Horizons) returns (slices: seq<Slice>)
    requires AllPositive(lots)
    ensures slices == Slices(Reversed(lots), live, config)
  {
    hide Page, RestFrom, Slices;
    ghost var newest := Reversed(lots);
    slices := [];
    var remaining, offset := live, 0;
    RestWhole(newest, live, config);
    while remaining > 0
      invariant 0 <= offset
      invariant Slices(newest, live, config) == slices + RestFrom(newest, offset, remaining, config)
      decreases |lots| + TAIL_PAGE - offset
    {
      var page := Page(lots, offset, TAIL_PAGE);
      PageSize(lots, offset);
      var drained := 0;
      while drained < |page| && remaining > 0
        invariant 0 <= drained <= |page|
        invariant Slices(newest, live, config) == slices + RestFrom(newest, offset + drained, remaining, config)
      {
        PageAt(lots, offset, drained);
        RestStep(newest, offset + drained, remaining, config, slices);
        var slice := SliceOf(page[drained], remaining, config);
        slices := slices + [slice];
        remaining := remaining - slice.take;
        drained := drained + 1;
      }
      RestDone(newest, offset + drained, remaining, config);
      if remaining <= 0 || |page| == 0 {
        return;
      }
      offset := offset + TAIL_PAGE;
      RestDone(newest, offset, remaining, config);
    }
    RestDone(newest, offset, remaining, config);
  }

  // ---- The reads over the walk ----------------------------------------------------------

  function MaturedSum(slices: seq<Slice>, now: int): int {
    if slices == [] then 0
    else (if slices[0].maturesAt <= now then slices[0].take else 0) + MaturedSum(slices[1..], now)
  }

  /** The matured part of a balance, by the newest-first walk. */
  function MaturedOf(lots: seq<Lot>, live: int, now: int, config: Horizons): int {
    MaturedSum(Slices(Reversed(lots), live, config), now)
  }

  lemma {:induction false} MaturedConcat(xs: seq<Slice>, ys: seq<Slice>, now: int)
    ensures MaturedSum(xs + ys, now) == MaturedSum(xs, now) + MaturedSum(ys, now)
  {
    if xs == [] {
      assert xs + ys == ys;
    } else {
      MaturedConcat(xs[1..], ys, now);
      assert (xs + ys)[1..] == xs[1..] + ys;
    }
  }

  lemma MaturedStep(slices: seq<Slice>, k: nat, now: int)
    requires k < |slices|
    ensures MaturedSum(slices[..k + 1], now) == MaturedSum(slices[..k], now)
      + if slices[k].maturesAt <= now then slices[k].take else 0
  {
    PrefixStep(slices, k);
    MaturedConcat(slices[..k], [slices[k]], now);
  }

  method MaturedBalance(lots: seq<Lot>, live: int, now: int, config: Horizons) returns (matured: int)
    requires AllPositive(lots)
    ensures matured == MaturedOf(lots, live, now, config)
  {
    if live <= 0 {
      return 0;
    }
    var slices := TailSlices(lots, live, config);
    matured := 0;
    for k := 0 to |slices|
      invariant matured == MaturedSum(slices[..k], now)
    {
      MaturedStep(slices, k, now);
      if slices[k].maturesAt <= now {
        matured := matured + slices[k].take;
      }
    }
    assert slices[..|slices|] == slices;
  }

  predicate TakesPositive(slices: seq<Slice>) {
    forall i :: 0 <= i < |slices| ==> slices[i].take > 0
  }

  lemma {:induction false} SlicesArePositive(newest: seq<Lot>, remaining: int, config: Horizons)
    requires AllPositive(newest)
    ensures TakesPositive(Slices(newest, remaining, config))
  {
    if newest != [] && remaining > 0 {
      SlicesArePositive(newest[1..], remaining - SliceOf(newest[0], remaining, config).take, config);
    }
  }

  lemma {:induction false} MaturedPrefixAtMost(slices: seq<Slice>, k: nat, now: int)
    requires TakesPositive(slices) && k <= |slices|
    ensures 0 <= MaturedSum(slices[..k], now) <= MaturedSum(slices, now)
    decreases |slices| - k
  {
    if k < |slices| {
      MaturedPrefixAtMost(slices, k + 1, now);
      MaturedStep(slices, k, now);
      MaturedNonNegative(slices[..k], now);
    } else {
      assert slices[..k] == slices;
      MaturedNonNegative(slices, now);
    }
  }

  lemma {:induction false} MaturedNonNegative(slices: seq<Slice>, now: int)
    requires TakesPositive(slices)
    ensures MaturedSum(slices, now) >= 0
  {
    if slices != [] {
      MaturedNonNegative(slices[1..], now);
    }
  }

  lemma ReversedPositive(lots: seq<Lot>)
    requires AllPositive(lots)
    ensures AllPositive(Reversed(lots))
  {
    if lots != [] {
      ReversedPositive(lots[1..]);
    }
  }

  /** Stops as soon as the matured run covers the need; the answer is the full comparison all the same. */
  method MaturedAtLeast(lots: seq<Lot>, live: int, now: int, need: int, config: Horizons) returns (enough: bool)
    requires AllPositive(lots)
    ensures enough <==> need <= 0 || MaturedOf(lots, live, now, config) >= need
  {
    if need <= 0 {
      return true;
    }
    if live <= 0 {
      return false;
    }
    var slices := TailSlices(lots, live, config);
    ReversedPositive(lots);
    SlicesArePositive(Reversed(lots), live, config);
    var matured := 0;
    for k := 0 to |slices|
      invariant matured == MaturedSum(slices[..k], now) < need
    {
      MaturedStep(slices, k, now);
      if slices[k].maturesAt <= now {
        matured := matured + slices[k].take;
        if matured >= need {
          MaturedPrefixAtMost(slices, k + 1, now);
          return true;
        }
      }
    }
    assert slices[..|slices|] == slices;
    return false;
  }

  // ---- The oldest-first scan ------------------------------------------------------------

  /** A lot that spending has partly or not at all drained. */
  datatype Settled = Settled(minor: int, maturesAt: int)

  function Settle(lots: seq<Lot>, config: Horizons): seq<Settled> {
    if lots == [] then [] else [Settled(lots[0].minor, LotMaturesAt(lots[0], config))] + Settle(lots[1..], config)
  }

  function SettledTotal(lots: seq<Settled>): int {
    if lots == [] then 0 else lots[0].minor + SettledTotal(lots[1..])
  }

  predicate SettledPositive(lots: seq<Settled>) {
    forall i :: 0 <= i < |lots| ==> lots[i].minor > 0
  }

  /** Spending `amount` oldest-first: whole lots go, and the one it stops in is split. */
  function Drain(lots: seq<Settled>, amount: int): seq<Settled> {
    if lots == [] || amount <= 0 then lots
    else if amount >= lots[0].minor then Drain(lots[1..], amount - lots[0].minor)
    else [Settled(lots[0].minor - amount, lots[0].maturesAt)] + lots[1..]
  }

  function FifoTailOf(lots: seq<Settled>, balance: int): seq<Settled> {
    Drain(lots, SettledTotal(lots) - balance)
  }

  lemma DrainOne(lots: seq<Settled>, k: nat, amount: int)
    requires k < |lots| && amount > 0
    ensures Drain(lots[k..], amount) ==
      if amount >= lots[k].minor then Drain(lots[k + 1..], amount - lots[k].minor)
      else [Settled(lots[k].minor - amount, lots[k].maturesAt)] + lots[k + 1..]
  {
    assert lots[k..][0] == lots[k] && lots[k..][1..] == lots[k + 1..];
  }

  lemma {:induction false} SettledTotalSnoc(lots: seq<Settled>, l: Settled)
    ensures SettledTotal(lots + [l]) == SettledTotal(lots) + l.minor
  {
    if lots != [] {
      SettledTotalSnoc(lots[1..], l);
      assert (lots + [l])[1..] == lots[1..] + [l];
    } else {
      assert lots + [l] == [l];
    }
  }

  method FifoTail(lots: seq<Settled>, balance: int) returns (tail: seq<Settled>)
    requires SettledPositive(lots)
    ensures tail == FifoTailOf(lots, balance)
  {
    var total := 0;
    for k := 0 to |lots|
      invariant total == SettledTotal(lots[..k])
    {
      PrefixStep(lots, k);
      SettledTotalSnoc(lots[..k], lots[k]);
      total := total + lots[k].minor;
    }
    assert lots[..|lots|] == lots;
    var toDrain := total - balance;
    if toDrain <= 0 {
      return lots;
    }
    tail := [];
    assert lots[0..] == lots;
    for k := 0 to |lots|
      invariant toDrain > 0 ==> tail == [] && FifoTailOf(lots, balance) == Drain(lots[k..], toDrain)
      invariant toDrain <= 0 ==> FifoTailOf(lots, balance) == tail + lots[k..]
    {
      if toDrain <= 0 {
        tail := tail + [lots[k]];
        continue;
      }
      DrainOne(lots, k, toDrain);
      if toDrain >= lots[k].minor {
        toDrain := toDrain - lots[k].minor;
        continue;
      }
      tail := tail + [Settled(lots[k].minor - toDrain, lots[k].maturesAt)];
      toDrain := 0;
    }
  }

  function SettledMatured(tail: seq<Settled>, now: int): int {
    if tail == [] then 0
    else (if tail[0].maturesAt <= now then tail[0].minor else 0) + SettledMatured(tail[1..], now)
  }

  lemma {:induction false} SettledMaturedConcat(xs: seq<Settled>, ys: seq<Settled>, now: int)
    ensures SettledMatured(xs + ys, now) == SettledMatured(xs, now) + SettledMatured(ys, now)
  {
    if xs == [] {
      assert xs + ys == ys;
    } else {
      SettledMaturedConcat(xs[1..], ys, now);
      assert (xs + ys)[1..] == xs[1..] + ys;
    }
  }

  method SumMatured(tail: seq<Settled>, now: int) returns (matured: int)
    ensures matured == SettledMatured(tail, now)
  {
    matured := 0;
    for k := 0 to |tail|
      invariant matured == SettledMatured(tail[..k], now)
    {
      PrefixStep(tail, k);
      SettledMaturedConcat(tail[..k], [tail[k]], now);
      if tail[k].maturesAt <= now {
        matured := matured + tail[k].minor;
      }
    }
    assert tail[..|tail|] == tail;
  }

  // ---- The walk is the scan -------------------------------------------------------------

  lemma {:induction false} SlicesSnoc(newest: seq<Lot>, l: Lot, remaining: int, config: Horizons)
    requires AllPositive(newest)
    ensures Slices(newest + [l], remaining, config) ==
      Slices(newest, remaining, config)
        + if remaining > Total(newest) then [SliceOf(l, remaining - Total(newest), config)] else []
  {
    if newest == [] {
      assert newest + [l] == [l];
      assert remaining > 0 ==> Slices([l], remaining, config) == [SliceOf(l, remaining, config)];
    } else if remaining > 0 {
      var s := SliceOf(newest[0], remaining, config);
      SlicesSnoc(newest[1..], l, remaining - s.take, config);
      assert (newest + [l])[1..] == newest[1..] + [l];
      PositiveTotal(newest[1..]);
    } else {
      PositiveTotal(newest);
    }
  }

  lemma {:induction false} PositiveTotal(lots: seq<Lot>)
    requires AllPositive(lots)
    ensures Total(lots) >= 0
  {
    if lots != [] {
      PositiveTotal(lots[1..]);
    }
  }

  lemma {:induction false} TotalSnoc(lots: seq<Lot>, l: Lot)
    ensures Total(lots + [l]) == Total(lots) + l.minor
  {
    if lots != [] {
      TotalSnoc(lots[1..], l);
      assert (lots + [l])[1..] == lots[1..] + [l];
    } else {
      assert lots + [l] == [l];
    }
  }

  lemma {:induction false} ReversedTotal(lots: seq<Lot>)
    ensures Total(Reversed(lots)) == Total(lots)
  {
    if lots != [] {
      ReversedTotal(lots[1..]);
      TotalSnoc(Reversed(lots[1..]), lots[0]);
    }
  }

  lemma {:induction false} SettleTotal(lots: seq<Lot>, config: Horizons)
    ensures SettledTotal(Settle(lots, config)) == Total(lots)
  {
    if lots != [] {
      SettleTotal(lots[1..], config);
      assert Settle(lots, config)[1..] == Settle(lots[1..], config);
    }
  }

  function Flip(tail: seq<Settled>): seq<Slice> {
    if tail == [] then [] else Flip(tail[1..]) + [Slice(tail[0].minor, tail[0].maturesAt)]
  }

  /** Lot by lot, the newest-first walk yields the oldest-first scan's tail, reversed. */
  lemma {:induction false} WalkIsScan(lots: seq<Lot>, live: int, config: Horizons)
    requires AllPositive(lots) && live > 0
    ensures Slices(Reversed(lots), live, config) == Flip(FifoTailOf(Settle(lots, config), live))
  {
    if lots != [] {
      var x, rest := lots[0], lots[1..];
      var settled := Settle(lots, config);
      WalkIsScan(rest, live, config);
      ReversedPositive(rest);
      SlicesSnoc(Reversed(rest), x, live, config);
      ReversedTotal(rest);
      SettleTotal(rest, config);
      assert settled[1..] == Settle(rest, config) && settled[0].minor == x.minor;
      FlipFront(settled[0], settled[1..]);
      if live >= Total(rest) + x.minor {
        assert FifoTailOf(Settle(rest, config), live) == Settle(rest, config);
      } else if live > Total(rest) {
        FlipFront(Settled(live - Total(rest), settled[0].maturesAt), settled[1..]);
        assert FifoTailOf(Settle(rest, config), live) == Settle(rest, config);
      }
    }
  }

  lemma FlipFront(s: Settled, rest: seq<Settled>)
    ensures Flip([s] + rest) == Flip(rest) + [Slice(s.minor, s.maturesAt)]
  {
    assert ([s] + rest)[1..] == rest;
  }

  lemma {:induction false} FlipMatured(tail: seq<Settled>, now: int)
    ensures MaturedSum(Flip(tail), now) == SettledMatured(tail, now)
  {
    if tail != [] {
      FlipMatured(tail[1..], now);
      MaturedConcat(Flip(tail[1..]), [Slice(tail[0].minor, tail[0].maturesAt)], now);
    }
  }

  /** The whole-history computation the bounded walk is checked against. */
  function FullScan(lots: seq<Lot>, live: int, now: int, config: Horizons): int {
    if live <= 0 then 0 else SettledMatured(FifoTailOf(Settle(lots, config), live), now)
  }

  lemma SettleKeepsPositive(lots: seq<Lot>, config: Horizons)
    requires AllPositive(lots)
    ensures SettledPositive(Settle(lots, config))
  {
    if lots != [] {
      SettleKeepsPositive(lots[1..], config);
    }
  }

  method MaturedBalanceFullScan(lots: seq<Lot>, live: int, now: int, config: Horizons) returns (matured: int)
    requires AllPositive(lots)
    ensures matured == FullScan(lots, live, now, config)
  {
    if live <= 0 {
      return 0;
    }
    SettleKeepsPositive(lots, config);
    var tail := FifoTail(Settle(lots, config), live);
    matured := SumMatured(tail, now);
  }

  /** For all positive lots and every live balance, the paged walk and the full scan agree. */
  lemma PagedWalkEqualsFullScan(lots: seq<Lot>, live: int, now: int, config: Horizons)
    requires AllPositive(lots)
    ensures MaturedOf(lots, live, now, config) == FullScan(lots, live, now, config)
  {
    if live > 0 {
      WalkIsScan(lots, live, config);
      FlipMatured(FifoTailOf(Settle(lots, config), live), now);
    }
  }

  // ---- The tail is what spending leaves ---------------------------------------------------

  datatype Event = Credit(lot: Settled) | Debit(amount: int)

  /** What is left of every credited lot after each debit has drained the oldest of them. */
  function Remaining(events: seq<Event>): seq<Settled> {
    if events == [] then []
    else
      var before := Remaining(events[..|events| - 1]);
      match events[|events| - 1]
      case Credit(lot) => before + [lot]
      case Debit(amount) => Drain(before, amount)
  }

  function Credited(events: seq<Event>): seq<Settled> {
    if events == [] then []
    else
      var before := Credited(events[..|events| - 1]);
      match events[|events| - 1]
      case Credit(lot) => before + [lot]
      case Debit(_) => before
  }

  function BalanceAfter(events: seq<Event>): int {
    if events == [] then 0
    else
      var before := BalanceAfter(events[..|events| - 1]);
      match events[|events| - 1]
      case Credit(lot) => before + lot.minor
      case Debit(amount) => before - amount
  }

  /** Credits are positive, debits are not negative, and no debit overdraws. */
  ghost predicate NeverOverdrawn(events: seq<Event>) {
    forall k :: 0 <= k < |events| ==> match events[k]
      case Credit(lot) => lot.minor > 0
      case Debit(amount) => 0 <= amount <= BalanceAfter(events[..k])
  }

  lemma NothingToDrain()
    ensures FifoTailOf([], 0) == []
  {
  }

  lemma {:induction false} DrainSnoc(lots: seq<Settled>, l: Settled, amount: int)
    requires SettledPositive(lots) && l.minor > 0 && amount <= SettledTotal(lots)
    ensures Drain(lots + [l], amount) == Drain(lots, amount) + [l]
  {
    if lots != [] && amount > 0 {
      assert (lots + [l])[1..] == lots[1..] + [l];
      if amount >= lots[0].minor {
        DrainSnoc(lots[1..], l, amount - lots[0].minor);
      }
    }
  }

  lemma {:induction false} DrainTwice(lots: seq<Settled>, first: int, second: int)
    requires SettledPositive(lots) && first >= 0 && second >= 0
    ensures Drain(Drain(lots, first), second) == Drain(lots, first + second)
  {
    if lots != [] && first > 0 {
      if first >= lots[0].minor {
        DrainTwice(lots[1..], first - lots[0].minor, second);
      } else {
        var left := [Settled(lots[0].minor - first, lots[0].maturesAt)] + lots[1..];
        assert left[1..] == lots[1..];
      }
    }
  }

  lemma {:induction false} CreditedFacts(events: seq<Event>)
    requires NeverOverdrawn(events)
    ensures SettledPositive(Credited(events)) && 0 <= BalanceAfter(events) <= SettledTotal(Credited(events))
  {
    if events != [] {
      var n := |events| - 1;
      NeverOverdrawnPrefix(events, n);
      CreditedFacts(events[..n]);
      if events[n].Credit? {
        SettledTotalSnoc(Credited(events[..n]), events[n].lot);
      }
    }
  }

  lemma NeverOverdrawnPrefix(events: seq<Event>, n: nat)
    requires NeverOverdrawn(events) && n <= |events|
    ensures NeverOverdrawn(events[..n])
  {
    forall k | 0 <= k < n ensures match events[..n][k] {
      case Credit(lot) => lot.minor > 0
      case Debit(amount) => 0 <= amount <= BalanceAfter(events[..n][..k]) } {
      assert events[..n][..k] == events[..k];
    }
  }

  /**
   The scan's tail is exactly what any never-overdrawn history of credits and oldest-first debits
   leaves: which lots, and how much of the one spending stopped in.
   */
  lemma {:induction false} FifoTailIsWhatSpendingLeaves(events: seq<Event>)
    requires NeverOverdrawn(events)
    ensures Remaining(events) == FifoTailOf(Credited(events), BalanceAfter(events))
  {
    hide Drain, SettledTotal, SettledPositive;
    if events == [] {
      NothingToDrain();
    } else {
      var n := |events| - 1;
      var lots, spent := Credited(events[..n]), SettledTotal(Credited(events[..n])) - BalanceAfter(events[..n]);
      NeverOverdrawnPrefix(events, n);
      FifoTailIsWhatSpendingLeaves(events[..n]);
      CreditedFacts(events[..n]);
      match events[n]
      case Credit(lot) =>
        DrainSnoc(lots, lot, spent);
        SettledTotalSnoc(lots, lot);
      case Debit(amount) =>
        DrainTwice(lots, spent, amount);
    }
  }

  // ---- When an amount will be mature ------------------------------------------------------

  function Insert(s: Slice, sorted: seq<Slice>): (r: seq<Slice>)
    ensures |r| == |sorted| + 1
  {
    if sorted == [] then [s]
    else if sorted[0].maturesAt <= s.maturesAt then [sorted[0]] + Insert(s, sorted[1..])
    else [s] + sorted
  }

  /** The runtime's stable sort by maturity time. */
  function SortedByTime(slices: seq<Slice>): (r: seq<Slice>)
    ensures |r| == |slices|
  {
    if slices == [] then [] else Insert(slices[|slices| - 1], SortedByTime(slices[..|slices| - 1]))
  }

  predicate InTimeOrder(slices: seq<Slice>) {
    forall i, j :: 0 <= i < j < |slices| ==> slices[i].maturesAt <= slices[j].maturesAt
  }

  lemma {:induction false} InsertFacts(s: Slice, sorted: seq<Slice>, now: int)
    requires InTimeOrder(sorted)
    ensures InTimeOrder(Insert(s, sorted))
    ensures MaturedSum(Insert(s, sorted), now) == MaturedSum([s], now) + MaturedSum(sorted, now)
    ensures forall x :: x in Insert(s, sorted) <==> x == s || x in sorted
  {
    if sorted != [] && sorted[0].maturesAt <= s.maturesAt {
      InsertFacts(s, sorted[1..], now);
      var rest := Insert(s, sorted[1..]);
      assert sorted == [sorted[0]] + sorted[1..];
      forall j | 0 <= j < |rest| ensures sorted[0].maturesAt <= rest[j].maturesAt {
        assert rest[j] in rest;
      }
    }
  }

  lemma {:induction false} SortFacts(slices: seq<Slice>, now: int)
    ensures InTimeOrder(SortedByTime(slices))
    ensures MaturedSum(SortedByTime(slices), now) == MaturedSum(slices, now)
    ensures forall x :: x in SortedByTime(slices) <==> x in slices
  {
    if slices != [] {
      var n := |slices| - 1;
      SortFacts(slices[..n], now);
      InsertFacts(slices[n], SortedByTime(slices[..n]), now);
      assert slices == slices[..n] + [slices[n]];
      MaturedConcat(slices[..n], [slices[n]], now);
    }
  }

  function TakeSum(slices: seq<Slice>): int {
    if slices == [] then 0 else TakeSum(slices[..|slices| - 1]) + slices[|slices| - 1].take
  }

  lemma {:induction false} AllMature(slices: seq<Slice>, now: int)
    requires forall i :: 0 <= i < |slices| ==> slices[i].maturesAt <= now
    ensures MaturedSum(slices, now) == TakeSum(slices)
  {
    if slices != [] {
      var n := |slices| - 1;
      AllMature(slices[..n], now);
      MaturedStep(slices, n, now);
      assert slices[..n + 1] == slices;
    }
  }

  lemma {:induction false} NoneMature(slices: seq<Slice>, now: int)
    requires forall i :: 0 <= i < |slices| ==> slices[i].maturesAt > now
    ensures MaturedSum(slices, now) == 0
  {
    if slices != [] {
      NoneMature(slices[1..], now);
    }
  }

  lemma {:induction false} MaturedAtMostTaken(slices: seq<Slice>, now: int)
    requires TakesPositive(slices)
    ensures MaturedSum(slices, now) <= TakeSum(slices)
  {
    if slices != [] {
      var n := |slices| - 1;
      MaturedAtMostTaken(slices[..n], now);
      MaturedStep(slices, n, now);
      assert slices[..n + 1] == slices;
    }
  }

  lemma LaterNotMature(sorted: seq<Slice>, k: nat, t: int)
    requires InTimeOrder(sorted) && k < |sorted| && t < sorted[k].maturesAt
    ensures MaturedSum(sorted[k..], t) == 0
  {
    hide MaturedSum;
    var after := sorted[k..];
    assert forall i :: 0 <= i < |after| ==> after[i] == sorted[k + i];
    NoneMature(after, t);
  }

  /** Before slice k matures, nothing from it on has. */
  lemma NotYetCovered(sorted: seq<Slice>, k: nat, t: int)
    requires InTimeOrder(sorted) && TakesPositive(sorted) && k < |sorted| && t < sorted[k].maturesAt
    ensures MaturedSum(sorted, t) <= TakeSum(sorted[..k])
  {
    hide MaturedSum, TakeSum, InTimeOrder;
    LaterNotMature(sorted, k, t);
    MaturedConcat(sorted[..k], sorted[k..], t);
    assert sorted[..k] + sorted[k..] == sorted;
    MaturedAtMostTaken(sorted[..k], t);
  }

  lemma CoveredByThen(sorted: seq<Slice>, k: nat)
    requires InTimeOrder(sorted) && TakesPositive(sorted) && k < |sorted|
    ensures MaturedSum(sorted, sorted[k].maturesAt) >= TakeSum(sorted[..k + 1])
  {
    var upTo := sorted[..k + 1];
    assert forall i :: 0 <= i < |upTo| ==> upTo[i] == sorted[i];
    AllMature(upTo, sorted[k].maturesAt);
    MaturedPrefixAtMost(sorted, k + 1, sorted[k].maturesAt);
  }

  /** `at` is the first moment the slices cover the need; none, when no moment does. */
  ghost predicate FirstCoveredAt(slices: seq<Slice>, need: int, at: Option<int>) {
    match at
    case Some(time) => MaturedSum(slices, time) >= need && forall t :: t < time ==> MaturedSum(slices, t) < need
    case None => forall t :: MaturedSum(slices, t) < need
  }

  method FirstCover(sorted: seq<Slice>, need: int) returns (at: Option<int>)
    requires InTimeOrder(sorted) && TakesPositive(sorted) && need > 0
    ensures FirstCoveredAt(sorted, need, at)
  {
    hide MaturedSum, InTimeOrder, TakesPositive;
    var covered := 0;
    for k := 0 to |sorted|
      invariant covered == TakeSum(sorted[..k]) < need
    {
      PrefixStep(sorted, k);
      covered := covered + sorted[k].take;
      if covered >= need {
        CoveredByThen(sorted, k);
        forall t | t < sorted[k].maturesAt ensures MaturedSum(sorted, t) < need {
          NotYetCovered(sorted, k, t);
        }
        return Some(sorted[k].maturesAt);
      }
    }
    assert sorted[..|sorted|] == sorted;
    forall t ensures MaturedSum(sorted, t) < need {
      MaturedAtMostTaken(sorted, t);
    }
    return None;
  }

  lemma SortKeepsCover(slices: seq<Slice>, need: int, at: Option<int>)
    requires FirstCoveredAt(SortedByTime(slices), need, at)
    ensures FirstCoveredAt(slices, need, at)
  {
    hide MaturedSum, SortedByTime, InTimeOrder;
    forall t ensures MaturedSum(SortedByTime(slices), t) == MaturedSum(slices, t) {
      SortFacts(slices, t);
    }
  }

  lemma SortKeepsPositive(slices: seq<Slice>)
    requires TakesPositive(slices)
    ensures InTimeOrder(SortedByTime(slices)) && TakesPositive(SortedByTime(slices))
  {
    SortFacts(slices, 0);
    var sorted := SortedByTime(slices);
    forall i | 0 <= i < |sorted| ensures sorted[i].take > 0 {
      assert sorted[i] in sorted;
    }
  }

  lemma ShortBalanceNeverCovers(slices: seq<Slice>, need: int)
    requires TakesPositive(slices) && TakeSum(slices) < need
    ensures FirstCoveredAt(slices, need, None)
  {
    forall t ensures MaturedSum(slices, t) < need {
      MaturedAtMostTaken(slices, t);
    }
  }

  /**
   With no further postings: the least time at which `MaturedAtLeast` turns true, and none exactly
   when no time ever makes it true.
   */
  method MaturedAvailableAt(lots: seq<Lot>, live: int, now: int, need: int, config: Horizons) returns (at: Option<int>)
    requires AllPositive(lots)
    ensures need <= 0 ==> at == Some(now)
    ensures need > 0 ==> FirstCoveredAt(Slices(Reversed(lots), live, config), need, at)
  {
    hide MaturedSum, SortedByTime, InTimeOrder, Slices, FirstCoveredAt;
    if need <= 0 {
      return Some(now);
    }
    ReversedPositive(lots);
    SlicesArePositive(Reversed(lots), live, config);
    if live < need {
      TakenAtMostLive(Reversed(lots), live, config);
      ShortBalanceNeverCovers(Slices(Reversed(lots), live, config), need);
      return None;
    }
    var slices := TailSlices(lots, live, config);
    SortKeepsPositive(slices);
    at := FirstCover(SortedByTime(slices), need);
    SortKeepsCover(slices, need, at);
  }

  /** In terms of the spend check: true from the answered time on, false before it; never true on none. */
  lemma AvailabilityAnswersTheSpendCheck(lots: seq<Lot>, live: int, need: int, config: Horizons, at: Option<int>)
    requires AllPositive(lots) && FirstCoveredAt(Slices(Reversed(lots), live, config), need, at)
    ensures forall t :: MaturedOf(lots, live, t, config) >= need <==> at.Some? && t >= at.value
  {
    ReversedPositive(lots);
    SlicesArePositive(Reversed(lots), live, config);
    forall t ensures MaturedOf(lots, live, t, config) >= need <==> at.Some? && t >= at.value {
      if at.Some? && t >= at.value {
        MaturedMonotone(Slices(Reversed(lots), live, config), at.value, t);
      }
    }
  }

  lemma {:induction false} MaturedMonotone(slices: seq<Slice>, t: int, u: int)
    requires TakesPositive(slices) && t <= u
    ensures MaturedSum(slices, t) <= MaturedSum(slices, u)
  {
    if slices != [] {
      MaturedMonotone(slices[1..], t, u);
    }
  }

  lemma {:induction false} TakenAtMostLive(newest: seq<Lot>, remaining: int, config: Horizons)
    requires AllPositive(newest)
    ensures TakeSum(Slices(newest, remaining, config)) <= if remaining > 0 then remaining else 0
  {
    if newest != [] && remaining > 0 {
      var s := SliceOf(newest[0], remaining, config);
      var rest := Slices(newest[1..], remaining - s.take, config);
      TakenAtMostLive(newest[1..], remaining - s.take, config);
      TakeSumFront(s, rest);
    }
  }

  /** What is mature of a balance is between nothing and all of it. */
  lemma MaturedWithinLive(lots: seq<Lot>, live: int, now: int, config: Horizons)
    requires AllPositive(lots) && live >= 0
    ensures 0 <= MaturedOf(lots, live, now, config) <= live
  {
    ReversedPositive(lots);
    SlicesArePositive(Reversed(lots), live, config);
    MaturedNonNegative(Slices(Reversed(lots), live, config), now);
    MaturedAtMostTaken(Slices(Reversed(lots), live, config), now);
    TakenAtMostLive(Reversed(lots), live, config);
  }

  lemma {:induction false} TakeSumFront(s: Slice, rest: seq<Slice>)
    ensures TakeSum([s] + rest) == s.take + TakeSum(rest)
  {
    var all := [s] + rest;
    if rest != [] {
      TakeSumFront(s, rest[..|rest| - 1]);
      assert all[..|all| - 1] == [s] + rest[..|rest| - 1];
    } else {
      assert all[..0] == [];
    }
  }

  // ---- What the walk is worth, lot by lot ------------------------------------------------

  /**
   Counting the oldest lot in adds the part of it that the newer lots leave uncovered, and only once its
   wait is over: its source's where that is configured, else the default one, else the card's, else none.
   */
  lemma OldestLotAdds(lots: seq<Lot>, live: int, now: int, config: Horizons)
    requires AllPositive(lots) && lots != []
    ensures var lot, uncovered := lots[0], live - Total(lots[1..]);
      var wait := if lot.source in config then config[lot.source] else if "default" in config then config["default"]
        else if "card" in config then config["card"] else 0;
      MaturedOf(lots, live, now, config) == MaturedOf(lots[1..], live, now, config)
        + if lot.toppedUpAt + wait > now || uncovered <= 0 then 0 else if uncovered < lot.minor then uncovered
          else lot.minor
  {
    hide Slices, MaturedSum;
    var newer := Reversed(lots[1..]);
    ReversedPositive(lots[1..]);
    ReversedTotal(lots[1..]);
    SlicesSnoc(newer, lots[0], live, config);
    if live > Total(newer) {
      var slice := SliceOf(lots[0], live - Total(newer), config);
      MaturedConcat(Slices(newer, live, config), [slice], now);
      OneSlice(slice, now);
    } else {
      assert Slices(newer, live, config) + [] == Slices(newer, live, config);
    }
  }

  lemma OneSlice(slice: Slice, now: int)
    ensures MaturedSum([slice], now) == if slice.maturesAt <= now then slice.take else 0
  {
    assert [slice][1..] == [];
  }

  lemma NoLotsNothingMature(live: int, now: int, config: Horizons)
    ensures MaturedOf([], live, now, config) == 0
  {
  }

  /** One lot over the whole balance: nothing of it is mature before its wait is over, and then all of it. */
  lemma OneLotMatures(lot: Lot, live: int, need: int, config: Horizons, at: Option<int>)
    requires 0 < need <= live <= lot.minor && FirstCoveredAt(Slices(Reversed([lot]), live, config), need, at)
    ensures var wait :=
      if lot.source in config then config[lot.source] else if "default" in config then config["default"]
        else if "card" in config then config["card"] else 0;
      && (forall now :: MaturedOf([lot], live, now, config) == if lot.toppedUpAt + wait <= now then live else 0)
      && at == Some(lot.toppedUpAt + wait)
  {
    hide Slices, MaturedSum, FirstCoveredAt;
    var wait := if lot.source in config then config[lot.source] else if "default" in config then config["default"]
      else if "card" in config then config["card"] else 0;
    assert [lot][1..] == [];
    assert Total([]) == 0;
    forall now ensures MaturedOf([lot], live, now, config) == if lot.toppedUpAt + wait <= now then live else 0 {
      OldestLotAdds([lot], live, now, config);
      NoLotsNothingMature(live, now, config);
    }
    AvailabilityAnswersTheSpendCheck([lot], live, need, config, at);
    assert MaturedOf([lot], live, lot.toppedUpAt + wait, config) >= need;
    assert MaturedOf([lot], live, at.value, config) >= need;
  }
}
