/**
 Double-entry postings and the rules every one of them passes (src/ledger.ts), over the state the
 in-memory adapter keeps (src/adapters/memory.ts): the log, the running balances and the chain
 heads. Leg amounts are debit-positive; an account's own balance moves by `BalanceDelta`.
 */
module Ledger {
  import opened Accounts
  import opened Money
  import opened Text

  datatype Leg = Leg(account: AccountRef, currency: Currency, minor: int)

  /** Transaction ids; the text each one renders to is in module TxnIds. */
  datatype TxnId =
    | ChunkTxn(session: string, index: nat)
    | CompTxn(session: string, index: nat)
    | ReplayTxn(session: string, seq_: nat)
    | OtherTxn(text: string)

  /** `meta` is the canonical metadata text, the form in which it enters a hash. */
  datatype Posting = Posting(txnId: TxnId, legs: seq<Leg>, meta: string)

  /**
   A digest that is injective and never yields genesis, which is what a constructor is. It holds
   what the hashed bytes stand for; module Preimage shows that the bytes determine exactly that.
   */
  datatype Hash = Genesis | Digest(prev: Hash, txnId: TxnId, own: multiset<Amount>, meta: string)

  datatype Link = Link(account: AccountRef, prevHash: Hash, hash: Hash)

  datatype Entry = Entry(posting: Posting, links: seq<Link>)

  datatype State = State(log: seq<Entry>, balances: map<AccountRef, int>, heads: map<AccountRef, Hash>)

  const EMPTY := State([], map[], map[])

  datatype Fault = CurrencyMismatch | Unbalanced | UnknownAccount | Overdraft | AmountOverflow

  datatype Result<+T> = Ok(value: T) | Err(fault: Fault)

  // ---- Sums over legs ------------------------------------------------------------

  function BalanceDelta(leg: Leg): int {
    if IsDebitNormal(leg.account) then leg.minor else -leg.minor
  }

  /** How much `legs` move account `a`, in its own sign. */
  function DeltaOf(legs: seq<Leg>, a: AccountRef): int {
    if legs == [] then 0
    else
      var last := legs[|legs| - 1];
      DeltaOf(legs[..|legs| - 1], a) + if last.account == a then BalanceDelta(last) else 0
  }

  /** The debit-positive total of `legs` on account `a`. */
  function RawOf(legs: seq<Leg>, a: AccountRef): int {
    if legs == [] then 0
    else
      var last := legs[|legs| - 1];
      RawOf(legs[..|legs| - 1], a) + if last.account == a then last.minor else 0
  }

  function CurrencySum(legs: seq<Leg>, c: Currency): int {
    if legs == [] then 0
    else
      var last := legs[|legs| - 1];
      CurrencySum(legs[..|legs| - 1], c) + if last.currency == c then last.minor else 0
  }

  function AccountsIn(legs: seq<Leg>): set<AccountRef> {
    set i | 0 <= i < |legs| :: legs[i].account
  }

  /** The accounts of `legs` in first-appearance order, each once. */
  function DistinctAccounts(legs: seq<Leg>): (order: seq<AccountRef>)
    ensures forall a :: a in order <==> a in AccountsIn(legs)
    ensures forall i, j :: 0 <= i < j < |order| ==> order[i] != order[j]
  {
    if legs == [] then []
    else
      var before := DistinctAccounts(legs[..|legs| - 1]);
      var a := legs[|legs| - 1].account;
      if a in before then before else before + [a]
  }

  // ---- The checks ----------------------------------------------------------------

  function DropZero(legs: seq<Leg>): (r: seq<Leg>)
    ensures forall i :: 0 <= i < |r| ==> r[i].minor != 0 && r[i] in legs
    ensures (forall i :: 0 <= i < |legs| ==> legs[i].minor != 0) ==> r == legs
  {
    if legs == [] then []
    else
      var last := legs[|legs| - 1];
      assert legs == legs[..|legs| - 1] + [last];
      DropZero(legs[..|legs| - 1]) + if last.minor == 0 then [] else [last]
  }

  function DropZeroLegs(p: Posting): Posting {
    p.(legs := DropZero(p.legs))
  }

  predicate SingleCurrency(legs: seq<Leg>) {
    forall i :: 0 <= i < |legs| ==> legs[i].currency == CurrencyFor(legs[i].account)
  }

  predicate Balanced(legs: seq<Leg>) {
    CurrencySum(legs, CREDIT) == 0 && CurrencySum(legs, USD) == 0
  }

  predicate KnownAccounts(legs: seq<Leg>) {
    forall i :: 0 <= i < |legs| ==> IsKnownAccount(legs[i].account)
  }

  function BalanceOf(s: State, a: AccountRef): int {
    if a in s.balances then s.balances[a] else 0
  }

  function OnlyGuarded(order: seq<AccountRef>): (r: seq<AccountRef>)
    ensures forall a :: a in r <==> a in order && IsUserGuarded(a)
  {
    if order == [] then []
    else
      var n := |order| - 1;
      assert order == order[..n] + [order[n]];
      OnlyGuarded(order[..n]) + if IsUserGuarded(order[n]) then [order[n]] else []
  }

  /** The guarded accounts of `legs` in first-appearance order: the keys of the guard's delta map. */
  function GuardedAccounts(legs: seq<Leg>): (order: seq<AccountRef>)
    ensures forall a :: a in order <==> a in AccountsIn(legs) && IsUserGuarded(a)
  {
    OnlyGuarded(DistinctAccounts(legs))
  }

  /** The first fault the overdraft guard meets, reading the guarded accounts in order. */
  function OverdraftFault(s: State, legs: seq<Leg>, order: seq<AccountRef>): Option<Fault> {
    if order == [] then None
    else
      var projected := BalanceOf(s, order[0]) + DeltaOf(legs, order[0]);
      if DeltaOf(legs, order[0]) < 0 && projected < 0 then
        Some(if InI64(projected) then Overdraft else AmountOverflow)
      else OverdraftFault(s, legs, order[1..])
  }

  predicate GuardedDeltasFit(legs: seq<Leg>) {
    forall i :: 0 <= i < |legs| && IsUserGuarded(legs[i].account) ==> InI64(BalanceDelta(legs[i]))
  }

  /** Every running balance the commit would store is a storable amount. */
  predicate CommitFits(s: State, legs: seq<Leg>) {
    forall i :: 0 <= i < |legs| ==> LegFits(s, legs, i)
  }

  predicate LegFits(s: State, legs: seq<Leg>, i: nat)
    requires i < |legs|
  {
    InI64(BalanceDelta(legs[i])) && InI64(BalanceOf(s, legs[i].account) + DeltaOf(legs[..i + 1], legs[i].account))
  }

  function Check(s: State, legs: seq<Leg>): Option<Fault> {
    if !SingleCurrency(legs) then Some(CurrencyMismatch)
    else if !Balanced(legs) then Some(Unbalanced)
    else if !KnownAccounts(legs) then Some(UnknownAccount)
    else if !GuardedDeltasFit(legs) then Some(AmountOverflow)
    else OverdraftFault(s, legs, GuardedAccounts(legs))
  }

  // ---- The chain and the commit --------------------------------------------------

  function HeadOf(s: State, a: AccountRef): Hash {
    if a in s.heads then s.heads[a] else Genesis
  }

  /** The amounts of one account's legs. */
  function OwnAmounts(legs: seq<Leg>, a: AccountRef): seq<Amount> {
    if legs == [] then []
    else
      var last := legs[|legs| - 1];
      OwnAmounts(legs[..|legs| - 1], a) + if last.account == a then [Amount(last.currency, last.minor)] else []
  }

  function ChainHash(prev: Hash, p: Posting, a: AccountRef): Hash {
    Digest(prev, p.txnId, multiset(OwnAmounts(p.legs, a)), p.meta)
  }

  function LinkFor(s: State, p: Posting, a: AccountRef): Link {
    Link(a, HeadOf(s, a), ChainHash(HeadOf(s, a), p, a))
  }

  /** One link per distinct account, in first-appearance order. */
  function LinksFor(s: State, p: Posting): seq<Link> {
    var order := DistinctAccounts(p.legs);
    seq(|order|, i requires 0 <= i < |order| => LinkFor(s, p, order[i]))
  }

  function NewBalances(s: State, legs: seq<Leg>): map<AccountRef, int> {
    map a | a in AccountsIn(legs) :: BalanceOf(s, a) + DeltaOf(legs, a)
  }

  function NewHeads(s: State, p: Posting, order: seq<AccountRef>): map<AccountRef, Hash> {
    map a | a in order :: ChainHash(HeadOf(s, a), p, a)
  }

  function Commit(s: State, p: Posting): State {
    State(
      s.log + [Entry(p, LinksFor(s, p))],
      s.balances + NewBalances(s, p.legs),
      s.heads + NewHeads(s, p, DistinctAccounts(p.legs)))
  }

  function Append(s: State, p: Posting): Result<State> {
    if CommitFits(s, p.legs) then Ok(Commit(s, p)) else Err(AmountOverflow)
  }

  function PostEntry(s: State, p: Posting): Result<State> {
    var cleaned := DropZeroLegs(p);
    match Check(s, cleaned.legs)
    case Some(fault) => Err(fault)
    case None => Append(s, cleaned)
  }

  // ---- What a valid ledger is ----------------------------------------------------

  /** The balance the log alone implies. */
  function LogDelta(log: seq<Entry>, a: AccountRef): int {
    if log == [] then 0
    else LogDelta(log[..|log| - 1], a) + DeltaOf(log[|log| - 1].posting.legs, a)
  }

  function LogAccounts(log: seq<Entry>): set<AccountRef> {
    if log == [] then {} else LogAccounts(log[..|log| - 1]) + AccountsIn(log[|log| - 1].posting.legs)
  }

  /** The chain head the log alone implies. */
  function LogHead(log: seq<Entry>, a: AccountRef): Hash {
    if log == [] then Genesis
    else
      var prev := LogHead(log[..|log| - 1], a);
      var p := log[|log| - 1].posting;
      if a in AccountsIn(p.legs) then ChainHash(prev, p, a) else prev
  }

  predicate WellFormedPosting(p: Posting) {
    && (forall i :: 0 <= i < |p.legs| ==> p.legs[i].minor != 0)
    && SingleCurrency(p.legs)
    && Balanced(p.legs)
    && KnownAccounts(p.legs)
  }

  /** Entry k is well formed and carries, per distinct account, the link the log before it implies. */
  ghost predicate LinksDeriveAt(log: seq<Entry>, k: nat)
    requires k < |log|
  {
    var e := log[k];
    var order := DistinctAccounts(e.posting.legs);
    && WellFormedPosting(e.posting)
    && |e.links| == |order|
    && forall i :: 0 <= i < |order| ==>
      var prev := LogHead(log[..k], order[i]);
      e.links[i] == Link(order[i], prev, ChainHash(prev, e.posting, order[i]))
  }

  ghost predicate LinksDerive(log: seq<Entry>) {
    forall k :: 0 <= k < |log| ==> LinksDeriveAt(log, k)
  }

  ghost predicate BalancesDerive(s: State) {
    s.balances.Keys == LogAccounts(s.log) && forall a :: BalanceOf(s, a) == LogDelta(s.log, a)
  }

  ghost predicate HeadsDerive(s: State) {
    s.heads.Keys == LogAccounts(s.log) && forall a :: HeadOf(s, a) == LogHead(s.log, a)
  }

  ghost predicate GuardHolds(s: State) {
    forall a :: IsUserGuarded(a) ==> BalanceOf(s, a) >= 0
  }

  /** Every running balance is an amount the i64 columns can store. */
  ghost predicate Storable(s: State) {
    forall a :: InI64(BalanceOf(s, a))
  }

  /** Everything the prover re-derives: balances, heads and links all follow from the log. */
  ghost predicate Valid(s: State) {
    BalancesDerive(s) && HeadsDerive(s) && GuardHolds(s) && Storable(s) && LinksDerive(s.log)
  }

  // ---- Posting keeps a ledger valid ----------------------------------------------

  lemma {:induction false} NoFaultNoOverdraft(s: State, legs: seq<Leg>, order: seq<AccountRef>)
    requires OverdraftFault(s, legs, order) == None
    ensures forall a :: a in order && DeltaOf(legs, a) < 0 ==> BalanceOf(s, a) + DeltaOf(legs, a) >= 0
  {
    if order != [] {
      NoFaultNoOverdraft(s, legs, order[1..]);
    }
  }

  lemma {:induction false} UntouchedDelta(legs: seq<Leg>, a: AccountRef)
    requires a !in AccountsIn(legs)
    ensures DeltaOf(legs, a) == 0
  {
    if legs != [] {
      var init := legs[..|legs| - 1];
      assert legs[|legs| - 1].account in AccountsIn(legs);
      assert forall i :: 0 <= i < |init| ==> init[i].account == legs[i].account;
      UntouchedDelta(init, a);
    }
  }

  /** What one posting does to every account at once. */
  lemma CommitEffect(s: State, p: Posting)
    ensures forall a :: BalanceOf(Commit(s, p), a) == BalanceOf(s, a) + DeltaOf(p.legs, a)
    ensures forall a ::
      HeadOf(Commit(s, p), a) == if a in AccountsIn(p.legs) then ChainHash(HeadOf(s, a), p, a) else HeadOf(s, a)
  {
    forall a ensures BalanceOf(Commit(s, p), a) == BalanceOf(s, a) + DeltaOf(p.legs, a) {
      if a !in AccountsIn(p.legs) {
        UntouchedDelta(p.legs, a);
      }
    }
  }

  lemma CommitKeepsGuard(s: State, p: Posting)
    requires GuardHolds(s)
    requires OverdraftFault(s, p.legs, GuardedAccounts(p.legs)) == None
    ensures GuardHolds(Commit(s, p))
  {
    CommitEffect(s, p);
    NoFaultNoOverdraft(s, p.legs, GuardedAccounts(p.legs));
    forall a | IsUserGuarded(a) ensures BalanceOf(Commit(s, p), a) >= 0 {
      if a !in AccountsIn(p.legs) {
        UntouchedDelta(p.legs, a);
      }
    }
  }

  /** The last running balance of an account is the one the commit stores. */
  lemma {:induction false} LastRunning(legs: seq<Leg>, a: AccountRef) returns (i: nat)
    requires a in AccountsIn(legs)
    ensures i < |legs| && legs[i].account == a && DeltaOf(legs[..i + 1], a) == DeltaOf(legs, a)
  {
    var n := |legs| - 1;
    if legs[n].account == a {
      i := n;
      assert legs[..n + 1] == legs;
    } else {
      assert a in AccountsIn(legs[..n]) by {
        var j :| 0 <= j < |legs| && legs[j].account == a;
        assert legs[..n][j].account == a;
      }
      i := LastRunning(legs[..n], a);
      assert legs[..n][..i + 1] == legs[..i + 1];
    }
  }

  lemma CommitKeepsStorable(s: State, p: Posting)
    requires Storable(s) && CommitFits(s, p.legs)
    ensures Storable(Commit(s, p))
  {
    CommitEffect(s, p);
    forall a ensures InI64(BalanceOf(Commit(s, p), a)) {
      if a in AccountsIn(p.legs) {
        var i := LastRunning(p.legs, a);
        assert LegFits(s, p.legs, i);
      } else {
        UntouchedDelta(p.legs, a);
      }
    }
  }

  lemma LogStep(log: seq<Entry>, e: Entry)
    ensures LogAccounts(log + [e]) == LogAccounts(log) + AccountsIn(e.posting.legs)
    ensures forall a :: LogDelta(log + [e], a) == LogDelta(log, a) + DeltaOf(e.posting.legs, a)
    ensures forall a :: a in AccountsIn(e.posting.legs) ==>
      LogHead(log + [e], a) == ChainHash(LogHead(log, a), e.posting, a)
    ensures forall a :: a !in AccountsIn(e.posting.legs) ==> LogHead(log + [e], a) == LogHead(log, a)
  {
    assert (log + [e])[..|log|] == log;
  }

  lemma CommitKeepsBalances(s: State, p: Posting)
    requires BalancesDerive(s)
    ensures BalancesDerive(Commit(s, p))
  {
    CommitEffect(s, p);
    LogStep(s.log, Entry(p, LinksFor(s, p)));
  }

  lemma CommitKeepsHeads(s: State, p: Posting)
    requires HeadsDerive(s)
    ensures HeadsDerive(Commit(s, p))
  {
    CommitEffect(s, p);
    LogStep(s.log, Entry(p, LinksFor(s, p)));
  }

  lemma CommitKeepsLinks(s: State, p: Posting)
    requires HeadsDerive(s) && LinksDerive(s.log) && WellFormedPosting(p)
    ensures LinksDerive(Commit(s, p).log)
  {
    var log := Commit(s, p).log;
    forall k | 0 <= k < |log|
      ensures LinksDeriveAt(log, k)
    {
      if k < |s.log| {
        assert log[..k] == s.log[..k] && log[k] == s.log[k];
        assert LinksDeriveAt(s.log, k);
      } else {
        assert log[..k] == s.log;
      }
    }
  }

  /** The central ledger invariant: a commit of a checked posting keeps the ledger valid. */
  lemma CommitKeepsValid(s: State, p: Posting)
    requires Valid(s) && WellFormedPosting(p)
    requires OverdraftFault(s, p.legs, GuardedAccounts(p.legs)) == None && CommitFits(s, p.legs)
    ensures Valid(Commit(s, p))
  {
    CommitKeepsStorable(s, p);
    CommitKeepsBalances(s, p);
    CommitKeepsHeads(s, p);
    CommitKeepsGuard(s, p);
    CommitKeepsLinks(s, p);
  }

  lemma PostEntryKeepsValid(s: State, p: Posting)
    requires Valid(s) && PostEntry(s, p).Ok?
    ensures Valid(PostEntry(s, p).value)
  {
    CommitKeepsValid(s, DropZeroLegs(p));
  }

  lemma EmptyIsValid()
    ensures Valid(EMPTY)
  {
  }

  lemma DeltaSnoc(legs: seq<Leg>, leg: Leg, a: AccountRef)
    ensures DeltaOf(legs + [leg], a) == DeltaOf(legs, a) + if leg.account == a then BalanceDelta(leg) else 0
  {
    assert (legs + [leg])[..|legs|] == legs;
  }

  lemma RawSnoc(legs: seq<Leg>, leg: Leg, a: AccountRef)
    ensures RawOf(legs + [leg], a) == RawOf(legs, a) + if leg.account == a then leg.minor else 0
  {
    assert (legs + [leg])[..|legs|] == legs;
  }

  lemma DistinctSnoc(legs: seq<Leg>, leg: Leg)
    ensures DistinctAccounts(legs + [leg]) ==
      if leg.account in DistinctAccounts(legs) then DistinctAccounts(legs) else DistinctAccounts(legs) + [leg.account]
  {
    assert (legs + [leg])[..|legs|] == legs;
  }

  lemma TwoLegs(legs: seq<Leg>, x: Leg, y: Leg, a: AccountRef)
    requires legs == [x, y]
    ensures DeltaOf(legs, a) == (if x.account == a then BalanceDelta(x) else 0)
      + (if y.account == a then BalanceDelta(y) else 0)
    ensures DeltaOf(legs[..1], a) == if x.account == a then BalanceDelta(x) else 0
    ensures CurrencySum(legs, CREDIT) == (if x.currency == CREDIT then x.minor else 0)
      + (if y.currency == CREDIT then y.minor else 0)
    ensures CurrencySum(legs, USD) == (if x.currency == USD then x.minor else 0)
      + (if y.currency == USD then y.minor else 0)
  {
    assert legs[..1] == [x] && [x][..0] == [];
    DeltaSnoc([], x, a);
    DeltaSnoc([x], y, a);
    assert [] + [x] == [x] && [x] + [y] == legs;
    assert CurrencySum([x], CREDIT) == if x.currency == CREDIT then x.minor else 0;
    assert CurrencySum([x], USD) == if x.currency == USD then x.minor else 0;
  }

  lemma ThreeLegs(legs: seq<Leg>, x: Leg, y: Leg, z: Leg, a: AccountRef)
    requires legs == [x, y, z]
    ensures DeltaOf(legs, a) == DeltaOf([x, y], a) + if z.account == a then BalanceDelta(z) else 0
    ensures legs[..2] == [x, y] && legs[..1] == [x, y][..1]
    ensures CurrencySum(legs, CREDIT) == CurrencySum([x, y], CREDIT) + (if z.currency == CREDIT then z.minor else 0)
    ensures CurrencySum(legs, USD) == CurrencySum([x, y], USD) + (if z.currency == USD then z.minor else 0)
  {
    assert legs[..2] == [x, y];
    assert [x, y] + [z] == legs;
    DeltaSnoc([x, y], z, a);
  }

  lemma {:induction false} DropZeroDelta(legs: seq<Leg>, a: AccountRef)
    ensures DeltaOf(DropZero(legs), a) == DeltaOf(legs, a)
  {
    if legs != [] {
      var init, last := legs[..|legs| - 1], legs[|legs| - 1];
      DropZeroDelta(init, a);
      DeltaSnoc(DropZero(init), last, a);
      assert last.minor == 0 ==> DropZero(legs) == DropZero(init);
    }
  }

  /** A posting that goes in moves every account by exactly its legs, and adds one log entry. */
  lemma PostEntryEffect(s: State, p: Posting)
    requires PostEntry(s, p).Ok?
    ensures var t := PostEntry(s, p).value;
      && |t.log| == |s.log| + 1 && t.log[..|s.log|] == s.log
      && t.log[|s.log|].posting == DropZeroLegs(p)
      && forall a :: BalanceOf(t, a) == BalanceOf(s, a) + DeltaOf(p.legs, a)
  {
    CommitEffect(s, DropZeroLegs(p));
    forall a ensures DeltaOf(DropZeroLegs(p).legs, a) == DeltaOf(p.legs, a) {
      DropZeroDelta(p.legs, a);
    }
  }

  /** Debits beyond what a guarded account holds. */
  predicate Overdraws(s: State, legs: seq<Leg>, a: AccountRef) {
    IsUserGuarded(a) && DeltaOf(legs, a) < 0 && BalanceOf(s, a) + DeltaOf(legs, a) < 0
  }

  /** Of one currency per account and balanced, over accounts that exist, with storable guarded amounts. */
  ghost predicate PassesShape(legs: seq<Leg>) {
    && (forall i :: 0 <= i < |legs| ==> legs[i].currency == CurrencyFor(legs[i].account) && !legs[i].account.Unknown?)
    && CurrencySum(legs, CREDIT) == 0 && CurrencySum(legs, USD) == 0
    && forall i :: 0 <= i < |legs| && IsUserGuarded(legs[i].account) ==> InI64(BalanceDelta(legs[i]))
  }

  lemma {:induction false} OverdraftMeans(s: State, legs: seq<Leg>, order: seq<AccountRef>)
    requires forall a :: a in order ==> IsUserGuarded(a)
    ensures OverdraftFault(s, legs, order) == None <==> forall a :: a in order ==> !Overdraws(s, legs, a)
    ensures OverdraftFault(s, legs, order) == Some(Overdraft) ==>
      exists a :: a in order && Overdraws(s, legs, a) && BalanceOf(s, a) + DeltaOf(legs, a) >= I64_MIN
    ensures OverdraftFault(s, legs, order) != None && OverdraftFault(s, legs, order) != Some(Overdraft) ==>
      && OverdraftFault(s, legs, order) == Some(AmountOverflow)
      && exists a :: a in order && Overdraws(s, legs, a) && BalanceOf(s, a) + DeltaOf(legs, a) < I64_MIN
  {
    hide DeltaOf, BalanceOf, IsUserGuarded;
    if order != [] {
      assert order == [order[0]] + order[1..] && order[0] in order;
      assert forall a :: a in order <==> a == order[0] || a in order[1..];
      OverdraftMeans(s, legs, order[1..]);
    }
  }

  lemma ShapeIs(legs: seq<Leg>)
    ensures PassesShape(legs) <==>
      SingleCurrency(legs) && Balanced(legs) && KnownAccounts(legs) && GuardedDeltasFit(legs)
  {
    hide CurrencySum, IsUserGuarded, BalanceDelta;
  }

  /**
   Exactly which postings go in: the legs that move something are well shaped, no guarded account they
   touch is overdrawn, and every running balance they store is storable.
   */
  lemma PostEntryAcceptsWhen(s: State, p: Posting)
    ensures var legs := DropZero(p.legs);
      PostEntry(s, p).Ok? <==>
        && PassesShape(legs) && (forall a :: a in AccountsIn(legs) ==> !Overdraws(s, legs, a))
        && forall i :: 0 <= i < |legs| ==> LegFits(s, legs, i)
  {
    hide PassesShape, SingleCurrency, Balanced, KnownAccounts, GuardedDeltasFit, OverdraftFault, LegFits, DropZero,
      IsUserGuarded, DeltaOf, BalanceOf;
    var legs := DropZero(p.legs);
    ShapeIs(legs);
    GuardMeans(s, legs);
  }

  lemma GuardMeans(s: State, legs: seq<Leg>)
    ensures OverdraftFault(s, legs, GuardedAccounts(legs)) == None <==>
      forall a :: a in AccountsIn(legs) ==> !Overdraws(s, legs, a)
  {
    hide OverdraftFault, DeltaOf, BalanceOf, IsUserGuarded;
    OverdraftMeans(s, legs, GuardedAccounts(legs));
  }

  /** And what a refusal says, check by check. */
  lemma RefusalSays(s: State, p: Posting)
    requires PostEntry(s, p).Err?
    ensures var legs, fault := DropZero(p.legs), PostEntry(s, p).fault;
      && (fault == CurrencyMismatch <==> !SingleCurrency(legs))
      && (fault == Unbalanced <==> SingleCurrency(legs) && !Balanced(legs))
      && (fault == UnknownAccount <==>
            SingleCurrency(legs) && Balanced(legs) && exists i :: 0 <= i < |legs| && legs[i].account.Unknown?)
      && (fault == Overdraft ==>
            && PassesShape(legs)
            && exists a ::
              a in AccountsIn(legs) && Overdraws(s, legs, a) && BalanceOf(s, a) + DeltaOf(legs, a) >= I64_MIN)
      && (fault == AmountOverflow ==>
            || (exists a ::
              a in AccountsIn(legs) && Overdraws(s, legs, a) && BalanceOf(s, a) + DeltaOf(legs, a) < I64_MIN)
            || (exists i :: 0 <= i < |legs| && IsUserGuarded(legs[i].account) && !InI64(BalanceDelta(legs[i])))
            || (exists i :: 0 <= i < |legs| && !LegFits(s, legs, i)))
  {
    hide DropZero, SingleCurrency, Balanced, KnownAccounts, GuardedDeltasFit, OverdraftFault, CommitFits, LegFits;
    hide Commit, PassesShape, Overdraws, DeltaOf, BalanceOf, GuardedAccounts;
    var legs := DropZero(p.legs);
    ShapeIs(legs);
    OverdraftSays(s, legs);
    NegationsMean(s, legs);
  }

  lemma OverdraftSays(s: State, legs: seq<Leg>)
    ensures var fault := OverdraftFault(s, legs, GuardedAccounts(legs));
      && (fault == Some(Overdraft) ==>
            exists a ::
              a in AccountsIn(legs) && Overdraws(s, legs, a) && BalanceOf(s, a) + DeltaOf(legs, a) >= I64_MIN)
      && (fault != None && fault != Some(Overdraft) ==>
            && fault == Some(AmountOverflow)
            && exists a ::
              a in AccountsIn(legs) && Overdraws(s, legs, a) && BalanceOf(s, a) + DeltaOf(legs, a) < I64_MIN)
  {
    hide OverdraftFault, DeltaOf, BalanceOf, IsUserGuarded, Overdraws;
    OverdraftMeans(s, legs, GuardedAccounts(legs));
  }

  lemma NegationsMean(s: State, legs: seq<Leg>)
    ensures !KnownAccounts(legs) <==> exists i :: 0 <= i < |legs| && legs[i].account.Unknown?
    ensures !GuardedDeltasFit(legs) <==>
      exists i :: 0 <= i < |legs| && IsUserGuarded(legs[i].account) && !InI64(BalanceDelta(legs[i]))
    ensures !CommitFits(s, legs) <==> exists i :: 0 <= i < |legs| && !LegFits(s, legs, i)
  {
    hide LegFits, BalanceDelta, IsUserGuarded;
  }

  // ---- Batches --------------------------------------------------------------------

  function PostSequentially(s: State, ps: seq<Posting>): Result<State> {
    if ps == [] then Ok(s)
    else
      match PostSequentially(s, ps[..|ps| - 1])
      case Err(f) => Err(f)
      case Ok(t) => PostEntry(t, ps[|ps| - 1])
  }

  function CleanAll(ps: seq<Posting>): seq<Posting> {
    seq(|ps|, i requires 0 <= i < |ps| => DropZeroLegs(ps[i]))
  }

  predicate Disjoint(ps: seq<Posting>) {
    forall i, j :: 0 <= i < j < |ps| ==> AccountsIn(ps[i].legs) !! AccountsIn(ps[j].legs)
  }

  /** Every check of the fused path reads the ledger as it was before the batch. */
  function CheckAll(s: State, ps: seq<Posting>): Option<Fault> {
    if ps == [] then None
    else
      match CheckAll(s, ps[..|ps| - 1])
      case Some(f) => Some(f)
      case None => Check(s, ps[|ps| - 1].legs)
  }

  function AppendAll(s: State, ps: seq<Posting>): Result<State> {
    if ps == [] then Ok(s)
    else
      match AppendAll(s, ps[..|ps| - 1])
      case Err(f) => Err(f)
      case Ok(t) => Append(t, ps[|ps| - 1])
  }

  /** `fused` says whether the engine offers `appendAll`. */
  function PostEntries(s: State, ps: seq<Posting>, fused: bool): Result<State> {
    var cleaned := CleanAll(ps);
    if !fused || !Disjoint(cleaned) then PostSequentially(s, ps)
    else
      match CheckAll(s, cleaned)
      case Some(f) => Err(f)
      case None => AppendAll(s, cleaned)
  }

  lemma {:induction false} CheckReadsOwnAccounts(s: State, t: State, legs: seq<Leg>, order: seq<AccountRef>)
    requires forall a :: a in order ==> BalanceOf(s, a) == BalanceOf(t, a)
    ensures OverdraftFault(s, legs, order) == OverdraftFault(t, legs, order)
  {
    if order != [] {
      CheckReadsOwnAccounts(s, t, legs, order[1..]);
    }
  }

  lemma SameCheck(s: State, t: State, legs: seq<Leg>)
    requires forall a :: a in AccountsIn(legs) ==> BalanceOf(s, a) == BalanceOf(t, a)
    ensures Check(s, legs) == Check(t, legs)
  {
    hide BalanceOf;
    CheckReadsOwnAccounts(s, t, legs, GuardedAccounts(legs));
  }

  lemma {:induction false} AppendAllElsewhere(s: State, ps: seq<Posting>, legs: seq<Leg>)
    requires AppendAll(s, ps).Ok?
    requires forall i :: 0 <= i < |ps| ==> AccountsIn(ps[i].legs) !! AccountsIn(legs)
    ensures forall a :: a in AccountsIn(legs) ==> BalanceOf(AppendAll(s, ps).value, a) == BalanceOf(s, a)
  {
    if ps != [] {
      AppendAllElsewhere(s, ps[..|ps| - 1], legs);
    }
  }

  /** Over postings that share no account, checking first and appending after is posting in sequence. */
  lemma {:induction false} FusedEqualsSequential(s: State, ps: seq<Posting>)
    requires Disjoint(CleanAll(ps))
    requires CheckAll(s, CleanAll(ps)) == None && AppendAll(s, CleanAll(ps)).Ok?
    ensures PostSequentially(s, ps) == AppendAll(s, CleanAll(ps))
  {
    hide Check, Append, BalanceOf, DropZero;
    if ps != [] {
      var n, c := |ps| - 1, CleanAll(ps);
      assert c[..n] == CleanAll(ps[..n]);
      FusedEqualsSequential(s, ps[..n]);
      var t := AppendAll(s, c[..n]).value;
      AppendAllElsewhere(s, c[..n], c[n].legs);
      SameCheck(s, t, c[n].legs);
    }
  }

  /** The other way round: what goes in sequentially passes every check on the ledger as it was. */
  lemma {:induction false} SequentialPassesFused(s: State, ps: seq<Posting>)
    requires Disjoint(CleanAll(ps)) && PostSequentially(s, ps).Ok?
    ensures CheckAll(s, CleanAll(ps)) == None && AppendAll(s, CleanAll(ps)) == PostSequentially(s, ps)
  {
    hide Check, Append, BalanceOf, DropZero;
    if ps != [] {
      var n, c := |ps| - 1, CleanAll(ps);
      assert c[..n] == CleanAll(ps[..n]);
      SequentialPassesFused(s, ps[..n]);
      var t := PostSequentially(s, ps[..n]).value;
      AppendAllElsewhere(s, c[..n], c[n].legs);
      SameCheck(s, t, c[n].legs);
    }
  }

  /**
   The fused path is only a faster way to the same ledger: it takes exactly the batches that go in one
   after another, and leaves what they leave.
   */
  lemma FusedPathRefinesSequence(s: State, ps: seq<Posting>, fused: bool)
    ensures PostEntries(s, ps, fused).Ok? <==> PostSequentially(s, ps).Ok?
    ensures PostEntries(s, ps, fused).Ok? ==> PostEntries(s, ps, fused) == PostSequentially(s, ps)
  {
    if fused && Disjoint(CleanAll(ps)) {
      if PostSequentially(s, ps).Ok? {
        SequentialPassesFused(s, ps);
      }
      if PostEntries(s, ps, fused).Ok? {
        FusedEqualsSequential(s, ps);
      }
    }
  }

  lemma {:induction false} AppendRefuses(s: State, ps: seq<Posting>)
    requires AppendAll(s, ps).Err?
    ensures AppendAll(s, ps).fault == AmountOverflow
  {
    if AppendAll(s, ps[..|ps| - 1]).Err? {
      AppendRefuses(s, ps[..|ps| - 1]);
    }
  }

  lemma {:induction false} FirstToFail(s: State, ps: seq<Posting>) returns (k: nat)
    requires CheckAll(s, ps) != None
    ensures k < |ps| && CheckAll(s, ps) == Check(s, ps[k].legs)
    ensures forall j :: 0 <= j < k ==> Check(s, ps[j].legs) == None
  {
    hide Check;
    k := |ps| - 1;
    if CheckAll(s, ps[..k]) != None {
      k := FirstToFail(s, ps[..k]);
    } else {
      AllChecked(s, ps[..k]);
    }
  }

  lemma {:induction false} AllChecked(s: State, ps: seq<Posting>)
    requires CheckAll(s, ps) == None
    ensures forall j :: 0 <= j < |ps| ==> Check(s, ps[j].legs) == None
  {
    hide Check;
    if ps != [] {
      AllChecked(s, ps[..|ps| - 1]);
    }
  }

  /**
   What the fused path says on refusing: the fault the ledger as it was gives the first posting to fail
   a check, and if none does, that a balance leaves the storable range.
   */
  lemma FusedFault(s: State, ps: seq<Posting>, fault: Fault)
    requires Disjoint(CleanAll(ps)) && PostEntries(s, ps, true) == Err(fault)
    ensures
      || (fault == AmountOverflow && forall j :: 0 <= j < |ps| ==> Check(s, DropZero(ps[j].legs)) == None)
      || exists k ::
        0 <= k < |ps| && Check(s, DropZero(ps[k].legs)) == Some(fault)
        && forall j :: 0 <= j < k ==> Check(s, DropZero(ps[j].legs)) == None
  {
    hide Check, DropZero;
    var c := CleanAll(ps);
    assert forall j :: 0 <= j < |ps| ==> c[j].legs == DropZero(ps[j].legs);
    if CheckAll(s, c) != None {
      var k := FirstToFail(s, c);
      assert Check(s, DropZero(ps[k].legs)) == Some(fault);
    } else {
      AllChecked(s, c);
      AppendRefuses(s, c);
    }
  }

  lemma {:induction false} SequenceKeepsValid(s: State, ps: seq<Posting>)
    requires Valid(s) && PostSequentially(s, ps).Ok?
    ensures Valid(PostSequentially(s, ps).value)
  {
    if ps != [] {
      SequenceKeepsValid(s, ps[..|ps| - 1]);
      PostEntryKeepsValid(PostSequentially(s, ps[..|ps| - 1]).value, ps[|ps| - 1]);
    }
  }
}
