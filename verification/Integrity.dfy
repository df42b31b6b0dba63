/**
 The independent prover (src/integrity.ts `proveEconomy`): it re-derives conservation, balances and
 chains from the legs and compares them with what is stored. The enforcer works posting by posting,
 the prover account by account; that they agree is an exchange of sums.
 */
module Integrity {
  import opened Accounts
  import opened Chain
  import opened Ledger
  import opened Money
  import opened Text

  // ---- Reads of the ledger -------------------------------------------------------

  function LinkIn(links: seq<Link>, a: AccountRef): Option<Link> {
    if links == [] then None
    else if links[0].account == a then Some(links[0])
    else LinkIn(links[1..], a)
  }

  /** Every posting that touched the account, in order, with its stored link. */
  function Lineage(log: seq<Entry>, a: AccountRef): seq<StoredLink> {
    if log == [] then []
    else
      var e := log[|log| - 1];
      Lineage(log[..|log| - 1], a) +
      match LinkIn(e.links, a)
      case Some(l) => [StoredLink(e.posting, l.prevHash, l.hash)]
      case None => []
  }

  function DeltaIn(legs: seq<Leg>, a: AccountRef, c: Currency): int {
    if legs == [] then 0
    else
      var last := legs[|legs| - 1];
      DeltaIn(legs[..|legs| - 1], a, c) + if last.account == a && last.currency == c then BalanceDelta(last) else 0
  }

  /** `derivedBalances`: one account's legs in one currency, signed as they moved the account. */
  function DerivedBalance(log: seq<Entry>, a: AccountRef, c: Currency): int {
    if log == [] then 0
    else DerivedBalance(log[..|log| - 1], a, c) + DeltaIn(log[|log| - 1].posting.legs, a, c)
  }

  function Derived(log: seq<Entry>, a: AccountRef): int {
    DerivedBalance(log, a, CREDIT) + DerivedBalance(log, a, USD)
  }

  function Sign(a: AccountRef): int {
    if IsDebitNormal(a) then 1 else -1
  }

  /** The prover's conservation total: derived balances put back into debit-positive sign. */
  function SignedTotal(log: seq<Entry>, accounts: seq<AccountRef>, c: Currency): int {
    if accounts == [] then 0
    else
      var a := accounts[|accounts| - 1];
      SignedTotal(log, accounts[..|accounts| - 1], c) + Sign(a) * DerivedBalance(log, a, c)
  }

  function Totals(log: seq<Entry>, accounts: seq<AccountRef>): map<Currency, int> {
    map[CREDIT := SignedTotal(log, accounts, CREDIT), USD := SignedTotal(log, accounts, USD)]
  }

  predicate Conserved(log: seq<Entry>, accounts: seq<AccountRef>) {
    SignedTotal(log, accounts, CREDIT) == 0 && SignedTotal(log, accounts, USD) == 0
  }

  ghost predicate Enumerates(xs: seq<AccountRef>, keys: set<AccountRef>) {
    Distinct(xs) && forall a :: a in xs <==> a in keys
  }

  // ---- The prover -----------------------------------------------------------------

  datatype Report = Report(conserved: bool, noOverdraft: bool, chainIntact: bool, drift: seq<AccountRef>)

  predicate Drifted(s: State, a: AccountRef) {
    BalanceOf(s, a) != if a in s.heads then Derived(s.log, a) else 0
  }

  /** What is stored of the balance is not what the legs of the account's postings add up to. */
  predicate StoredWrong(s: State, a: AccountRef) {
    (if a in s.balances then s.balances[a] else 0) != if a in s.heads then LogDelta(s.log, a) else 0
  }

  lemma DriftIsStoredWrong(s: State)
    ensures forall a :: Drifted(s, a) <==> StoredWrong(s, a)
  {
    hide Derived, LogDelta;
    forall a ensures Drifted(s, a) <==> StoredWrong(s, a) {
      DerivedIsLogDelta(s.log, a);
    }
  }

  lemma NoAccountsNoTotal(log: seq<Entry>, heads: seq<AccountRef>)
    ensures Totals(log, heads[..0]) == map[CREDIT := 0, USD := 0]
  {
  }

  lemma TotalsStep(log: seq<Entry>, heads: seq<AccountRef>, k: nat)
    requires k < |heads|
    ensures heads[..k + 1] == heads[..k] + [heads[k]]
    ensures Totals(log, heads[..k + 1])[CREDIT] == Totals(log, heads[..k])[CREDIT]
      + DerivedBalance(log, heads[k], CREDIT) * Sign(heads[k])
    ensures Totals(log, heads[..k + 1])[USD] == Totals(log, heads[..k])[USD]
      + DerivedBalance(log, heads[k], USD) * Sign(heads[k])
  {
    hide DerivedBalance;
    assert heads[..k + 1][..k] == heads[..k];
  }

  /** One pass over the accounts that have a chain, then one over the balance rows not yet seen. */
  method FoldLedger(s: State, heads: seq<AccountRef>, rows: seq<AccountRef>)
    returns (signed: map<Currency, int>, negative: bool, drift: seq<AccountRef>)
    requires Enumerates(heads, s.heads.Keys) && Enumerates(rows, s.balances.Keys)
    ensures signed == Totals(s.log, heads)
    ensures negative <==> exists a :: a in heads && IsWalletAccount(a) && BalanceOf(s, a) < 0
    ensures forall a :: a in drift <==> (a in heads || a in rows) && Drifted(s, a)
  {
    hide DerivedBalance, SignedTotal, IsWalletAccount;
    signed := map[CREDIT := 0, USD := 0];
    NoAccountsNoTotal(s.log, heads);
    negative, drift := false, [];
    for k := 0 to |heads|
      invariant signed == Totals(s.log, heads[..k])
      invariant negative <==> exists a :: a in heads[..k] && IsWalletAccount(a) && BalanceOf(s, a) < 0
      invariant forall a :: a in drift <==> a in heads[..k] && Drifted(s, a)
    {
      TotalsStep(s.log, heads, k);
      var a := heads[k];
      assert a in heads;
      var credit, usd := DerivedBalance(s.log, a, CREDIT), DerivedBalance(s.log, a, USD);
      signed := map[CREDIT := signed[CREDIT] + credit * Sign(a), USD := signed[USD] + usd * Sign(a)];
      var stored := BalanceOf(s, a);
      if stored != credit + usd {
        drift := drift + [a];
      }
      if IsWalletAccount(a) && stored < 0 {
        negative := true;
      }
    }
    assert heads[..|heads|] == heads;
    for k := 0 to |rows|
      invariant forall a :: a in drift <==> (a in heads || a in rows[..k]) && Drifted(s, a)
    {
      assert rows[..k + 1] == rows[..k] + [rows[k]];
      var a := rows[k];
      if a !in s.heads && BalanceOf(s, a) != 0 {
        drift := drift + [a];
      }
    }
    assert rows[..|rows|] == rows;
  }

  ghost predicate ChainsIntact(s: State) {
    forall a :: a in s.heads ==> WalkAccepts(a, None, Lineage(s.log, a))
  }

  method ProveChain(s: State, heads: seq<AccountRef>) returns (intact: bool)
    requires Enumerates(heads, s.heads.Keys)
    ensures intact <==> ChainsIntact(s)
  {
    for k := 0 to |heads|
      invariant forall i :: 0 <= i < k ==> WalkAccepts(heads[i], None, Lineage(s.log, heads[i]))
    {
      var broken := RecomputeAccount(heads[k], None, Lineage(s.log, heads[k]));
      if broken != None {
        assert heads[k] in heads;
        return false;
      }
    }
    forall a | a in s.heads ensures WalkAccepts(a, None, Lineage(s.log, a)) {
      assert a in heads;
      var i :| 0 <= i < |heads| && heads[i] == a;
    }
    return true;
  }

  method ProveEconomy(s: State, heads: seq<AccountRef>, rows: seq<AccountRef>) returns (r: Report)
    requires Enumerates(heads, s.heads.Keys) && Enumerates(rows, s.balances.Keys)
    ensures r.conserved <==> Conserved(s.log, heads)
    ensures r.noOverdraft <==> forall a :: a in heads && IsWalletAccount(a) ==> BalanceOf(s, a) >= 0
    ensures r.chainIntact <==> ChainsIntact(s)
    ensures r.drift == [] <==> forall a :: a in heads || a in rows ==> !Drifted(s, a)
    ensures forall a :: a in r.drift <==> (a in heads || a in rows) && StoredWrong(s, a)
    ensures (forall a :: a in LogAccounts(s.log) ==> a in heads) ==>
      (r.conserved <==> LogCurrencySum(s.log, CREDIT) == 0 && LogCurrencySum(s.log, USD) == 0)
  {
    hide StoredWrong, Drifted, SignedTotal;
    DriftIsStoredWrong(s);
    if forall a :: a in LogAccounts(s.log) ==> a in heads {
      ConservationExchange(s.log, heads, CREDIT);
      ConservationExchange(s.log, heads, USD);
    }
    var signed, negative, drift := FoldLedger(s, heads, rows);
    var intact := ProveChain(s, heads);
    assert drift != [] ==> drift[0] in drift;
    r := Report(signed[CREDIT] == 0 && signed[USD] == 0, !negative, intact, drift);
  }

  // ---- Exchange of sums -----------------------------------------------------------

  /** What one posting adds to the conservation total. */
  function PostingTotal(legs: seq<Leg>, accounts: seq<AccountRef>, c: Currency): int {
    if accounts == [] then 0
    else
      var a := accounts[|accounts| - 1];
      PostingTotal(legs, accounts[..|accounts| - 1], c) + Sign(a) * DeltaIn(legs, a, c)
  }

  function LogCurrencySum(log: seq<Entry>, c: Currency): int {
    if log == [] then 0
    else LogCurrencySum(log[..|log| - 1], c) + CurrencySum(log[|log| - 1].posting.legs, c)
  }

  lemma {:induction false} NothingPosted(accounts: seq<AccountRef>, c: Currency)
    ensures PostingTotal([], accounts, c) == 0 && SignedTotal([], accounts, c) == 0
  {
    if accounts != [] {
      NothingPosted(accounts[..|accounts| - 1], c);
    }
  }

  lemma DeltaInSnoc(legs: seq<Leg>, leg: Leg, a: AccountRef, c: Currency)
    ensures DeltaIn(legs + [leg], a, c) ==
      DeltaIn(legs, a, c) + if leg.account == a && leg.currency == c then BalanceDelta(leg) else 0
  {
    assert (legs + [leg])[..|legs|] == legs;
  }

  lemma OneLegOne(legs: seq<Leg>, leg: Leg, a: AccountRef, c: Currency)
    ensures Sign(a) * DeltaIn(legs + [leg], a, c) ==
      Sign(a) * DeltaIn(legs, a, c) + if leg.account == a && leg.currency == c then leg.minor else 0
  {
    hide DeltaIn;
    DeltaInSnoc(legs, leg, a, c);
  }

  /** One more leg moves the total of exactly one account of the enumeration. */
  lemma {:induction false} OneLegTotal(legs: seq<Leg>, leg: Leg, accounts: seq<AccountRef>, c: Currency)
    requires Distinct(accounts)
    ensures PostingTotal(legs + [leg], accounts, c) ==
      PostingTotal(legs, accounts, c) + if leg.account in accounts && leg.currency == c then leg.minor else 0
  {
    hide DeltaIn, BalanceDelta, Sign;
    if accounts != [] {
      var n := |accounts| - 1;
      OneLegTotal(legs, leg, accounts[..n], c);
      OneLegOne(legs, leg, accounts[n], c);
      assert accounts == accounts[..n] + [accounts[n]];
      assert accounts[n] !in accounts[..n];
    }
  }

  /** Summed over all accounts, a posting contributes its per-currency leg sum. */
  lemma {:induction false} PostingTotalIsCurrencySum(legs: seq<Leg>, accounts: seq<AccountRef>, c: Currency)
    requires Distinct(accounts) && forall i :: 0 <= i < |legs| ==> legs[i].account in accounts
    ensures PostingTotal(legs, accounts, c) == CurrencySum(legs, c)
  {
    if legs == [] {
      NothingPosted(accounts, c);
    } else {
      var init, last := legs[..|legs| - 1], legs[|legs| - 1];
      PostingTotalIsCurrencySum(init, accounts, c);
      OneLegTotal(init, last, accounts, c);
      assert legs == init + [last];
    }
  }

  lemma {:induction false} SignedTotalSnoc(log: seq<Entry>, e: Entry, accounts: seq<AccountRef>, c: Currency)
    ensures SignedTotal(log + [e], accounts, c) == SignedTotal(log, accounts, c)
      + PostingTotal(e.posting.legs, accounts, c)
  {
    if accounts != [] {
      var n := |accounts| - 1;
      SignedTotalSnoc(log, e, accounts[..n], c);
      assert (log + [e])[..|log|] == log;
      assert DerivedBalance(log + [e], accounts[n], c) == DerivedBalance(log, accounts[n], c)
        + DeltaIn(e.posting.legs, accounts[n], c);
      Distribute(Sign(accounts[n]), DerivedBalance(log, accounts[n], c), DeltaIn(e.posting.legs, accounts[n], c));
    }
  }

  lemma Distribute(k: int, x: int, y: int)
    ensures k * (x + y) == k * x + k * y
  {
  }

  /** The exchange of sums: per account over all postings, or per posting over all accounts. */
  lemma {:induction false} ConservationExchange(log: seq<Entry>, accounts: seq<AccountRef>, c: Currency)
    requires Distinct(accounts) && forall a :: a in LogAccounts(log) ==> a in accounts
    ensures SignedTotal(log, accounts, c) == LogCurrencySum(log, c)
  {
    if log == [] {
      NothingPosted(accounts, c);
    } else {
      var init, e := log[..|log| - 1], log[|log| - 1];
      ConservationExchange(init, accounts, c);
      SignedTotalSnoc(init, e, accounts, c);
      assert log == init + [e];
      forall i | 0 <= i < |e.posting.legs| ensures e.posting.legs[i].account in accounts {
        assert e.posting.legs[i].account in AccountsIn(e.posting.legs);
      }
      PostingTotalIsCurrencySum(e.posting.legs, accounts, c);
    }
  }

  // ---- A valid ledger passes ------------------------------------------------------

  lemma LinksDerivePrefix(log: seq<Entry>, k: nat)
    requires LinksDerive(log) && k <= |log|
    ensures LinksDerive(log[..k])
  {
    forall i | 0 <= i < k ensures LinksDeriveAt(log[..k], i) {
      assert LinksDeriveAt(log, i);
      assert log[..k][..i] == log[..i];
    }
  }

  lemma {:induction false} BalancedLogSumsToZero(log: seq<Entry>, c: Currency)
    requires LinksDerive(log)
    ensures LogCurrencySum(log, c) == 0
  {
    if log != [] {
      var n := |log| - 1;
      LinksDerivePrefix(log, n);
      BalancedLogSumsToZero(log[..n], c);
      assert LinksDeriveAt(log, n);
    }
  }

  lemma {:induction false} DeltaSplits(legs: seq<Leg>, a: AccountRef)
    ensures DeltaIn(legs, a, CREDIT) + DeltaIn(legs, a, USD) == DeltaOf(legs, a)
  {
    if legs != [] {
      DeltaSplits(legs[..|legs| - 1], a);
    }
  }

  lemma {:induction false} DerivedIsLogDelta(log: seq<Entry>, a: AccountRef)
    ensures Derived(log, a) == LogDelta(log, a)
  {
    if log != [] {
      DerivedIsLogDelta(log[..|log| - 1], a);
      DeltaSplits(log[|log| - 1].posting.legs, a);
    }
  }

  lemma {:induction false} FindLink(links: seq<Link>, order: seq<AccountRef>, a: AccountRef, i: nat)
    requires |links| == |order| && Distinct(order) && i < |order| && order[i] == a
    requires forall j :: 0 <= j < |links| ==> links[j].account == order[j]
    ensures LinkIn(links, a) == Some(links[i])
  {
    if i > 0 {
      assert links[0].account == order[0] != a;
      FindLink(links[1..], order[1..], a, i - 1);
    }
  }

  lemma {:induction false} MissLink(links: seq<Link>, a: AccountRef)
    requires forall j :: 0 <= j < |links| ==> links[j].account != a
    ensures LinkIn(links, a) == None
  {
    if links != [] {
      MissLink(links[1..], a);
    }
  }

  /** The one link an entry holds for an account it touches, and none for the others. */
  lemma EntryLink(log: seq<Entry>, k: nat, a: AccountRef)
    requires k < |log| && LinksDeriveAt(log, k)
    ensures LinkIn(log[k].links, a) ==
      if a in AccountsIn(log[k].posting.legs)
      then Some(Link(a, LogHead(log[..k], a), ChainHash(LogHead(log[..k], a), log[k].posting, a))) else None
  {
    var e := log[k];
    var order := DistinctAccounts(e.posting.legs);
    assert forall j :: 0 <= j < |order| ==> e.links[j].account == order[j];
    if a in AccountsIn(e.posting.legs) {
      assert a in order;
      var i :| 0 <= i < |order| && order[i] == a;
      FindLink(e.links, order, a, i);
    } else {
      forall j | 0 <= j < |e.links| ensures e.links[j].account != a {
        assert order[j] in order;
      }
      MissLink(e.links, a);
    }
  }

  /** Every account's stored chain re-derives from genesis and ends in its head. */
  lemma {:induction false} LineageIsLinked(log: seq<Entry>, a: AccountRef)
    requires LinksDerive(log)
    ensures Linked(a, Genesis, Lineage(log, a))
    ensures EndOf(Genesis, Lineage(log, a)) == LogHead(log, a)
  {
    if log != [] {
      var n := |log| - 1;
      LinksDerivePrefix(log, n);
      LineageIsLinked(log[..n], a);
      EntryLink(log, n, a);
      if a in AccountsIn(log[n].posting.legs) {
        var prev := LogHead(log[..n], a);
        var l := StoredLink(log[n].posting, prev, ChainHash(prev, log[n].posting, a));
        LinkedSnoc(a, Genesis, Lineage(log[..n], a), l);
        assert Lineage(log, a) == Lineage(log[..n], a) + [l];
      } else {
        assert Lineage(log, a) == Lineage(log[..n], a);
      }
    }
  }

  ghost predicate PassesProof(s: State, heads: seq<AccountRef>) {
    && Conserved(s.log, heads)
    && (forall a :: IsWalletAccount(a) ==> BalanceOf(s, a) >= 0)
    && ChainsIntact(s)
    && (forall a :: a in s.heads || a in s.balances ==> !Drifted(s, a))
  }

  /** The prover accepts every valid ledger: conserved, no overdraft, chains intact, consistent. */
  lemma ValidPassesProof(s: State, heads: seq<AccountRef>)
    requires Valid(s) && Enumerates(heads, s.heads.Keys)
    ensures PassesProof(s, heads)
  {
    ConservationExchange(s.log, heads, CREDIT);
    ConservationExchange(s.log, heads, USD);
    BalancedLogSumsToZero(s.log, CREDIT);
    BalancedLogSumsToZero(s.log, USD);
    forall a ensures WalkAccepts(a, None, Lineage(s.log, a)) {
      LineageIsLinked(s.log, a);
    }
    forall a | a in s.heads || a in s.balances ensures !Drifted(s, a) {
      DerivedIsLogDelta(s.log, a);
    }
  }

  // ---- Whole runs -----------------------------------------------------------------

  datatype Op = Single(posting: Posting) | Batch(postings: seq<Posting>, fused: bool)

  /** One transaction: a refused operation rolls back, leaving the ledger as it was. */
  function Apply(s: State, op: Op): State {
    var r := match op
      case Single(p) => PostEntry(s, p)
      case Batch(ps, fused) => PostEntries(s, ps, fused);
    if r.Ok? then r.value else s
  }

  function Run(ops: seq<Op>): State {
    if ops == [] then EMPTY else Apply(Run(ops[..|ops| - 1]), ops[|ops| - 1])
  }

  lemma ApplyKeepsValid(s: State, op: Op)
    requires Valid(s)
    ensures Valid(Apply(s, op))
  {
    match op
    case Single(p) =>
      if PostEntry(s, p).Ok? { PostEntryKeepsValid(s, p); }
    case Batch(ps, fused) =>
      if PostEntries(s, ps, fused).Ok? {
        FusedPathRefinesSequence(s, ps, fused);
        SequenceKeepsValid(s, ps);
      }
  }

  lemma {:induction false} RunIsValid(ops: seq<Op>)
    ensures Valid(Run(ops))
  {
    if ops == [] {
      EmptyIsValid();
    } else {
      RunIsValid(ops[..|ops| - 1]);
      ApplyKeepsValid(Run(ops[..|ops| - 1]), ops[|ops| - 1]);
    }
  }

  /** Every run of guarded postings from the empty ledger makes the prover's flags true. */
  lemma EveryRunPassesProof(ops: seq<Op>, heads: seq<AccountRef>)
    requires Enumerates(heads, Run(ops).heads.Keys)
    ensures PassesProof(Run(ops), heads)
  {
    RunIsValid(ops);
    ValidPassesProof(Run(ops), heads);
  }

  /** A run starts on the empty ledger and goes on from where it is, by what the next operation does there. */
  lemma RunGoesOn(ops: seq<Op>, p: Posting, ps: seq<Posting>, fused: bool)
    ensures Run([]) == EMPTY
    ensures var s := Run(ops);
      && Run(ops + [Single(p)]) == (if PostEntry(s, p).Ok? then PostEntry(s, p).value else s)
      && Run(ops + [Batch(ps, fused)]) ==
        if PostSequentially(s, ps).Ok? then PostSequentially(s, ps).value else s
  {
    hide PostEntry, PostSequentially, PostEntries;
    assert (ops + [Single(p)])[..|ops|] == ops && (ops + [Batch(ps, fused)])[..|ops|] == ops;
    FusedPathRefinesSequence(Run(ops), ps, fused);
  }
}
