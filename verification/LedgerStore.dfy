/**
 The ledger as the code runs it: the checks as loops over mutable maps (src/ledger.ts) and the
 in-memory commit that updates log, balances and heads in place (src/adapters/memory.ts). Every
 method is proved equal to its specification in module Ledger.
 */
module LedgerStore {
  import opened Accounts
  import opened Ledger
  import opened Money
  import opened Text

  method IsBalanced(legs: seq<Leg>) returns (ok: bool)
    ensures ok <==> Balanced(legs)
  {
    var sums: map<Currency, int> := map[];
    for k := 0 to |legs|
      invariant forall c :: (if c in sums then sums[c] else 0) == CurrencySum(legs[..k], c)
    {
      PrefixStep(legs, k);
      var c := legs[k].currency;
      sums := sums[c := (if c in sums then sums[c] else 0) + legs[k].minor];
    }
    assert legs[..|legs|] == legs;
    ok := forall c :: c in sums.Keys ==> sums[c] == 0;
    if ok {
      assert CREDIT in sums ==> sums[CREDIT] == 0;
      assert USD in sums ==> sums[USD] == 0;
    }
  }

  lemma GuardedStep(legs: seq<Leg>, k: nat)
    requires k < |legs|
    ensures GuardedAccounts(legs[..k + 1]) ==
      if IsUserGuarded(legs[k].account) && legs[k].account !in AccountsIn(legs[..k])
      then GuardedAccounts(legs[..k]) + [legs[k].account] else GuardedAccounts(legs[..k])
  {
    PrefixStep(legs, k);
    var before := DistinctAccounts(legs[..k]);
    var a := legs[k].account;
    if a !in before {
      assert DistinctAccounts(legs[..k + 1]) == before + [a];
      assert (before + [a])[..|before|] == before;
    }
  }

  lemma AccountsStep(legs: seq<Leg>, k: nat)
    requires k < |legs|
    ensures AccountsIn(legs[..k + 1]) == AccountsIn(legs[..k]) + {legs[k].account}
  {
    PrefixStep(legs, k);
    assert forall i :: 0 <= i < k ==> legs[..k + 1][i] == legs[..k][i];
    assert legs[..k + 1][k] == legs[k];
  }

  lemma DeltaStep(legs: seq<Leg>, k: nat)
    requires k < |legs|
    ensures DeltaOf(legs[..k + 1], legs[k].account) == DeltaOf(legs[..k], legs[k].account) + BalanceDelta(legs[k])
    ensures forall a :: a != legs[k].account ==> DeltaOf(legs[..k + 1], a) == DeltaOf(legs[..k], a)
  {
    PrefixStep(legs, k);
  }

  lemma NothingGuarded(legs: seq<Leg>)
    ensures GuardedAccounts(legs[..0]) == []
  {
  }

  /** Folds each guarded account's legs into one delta, keys in first-appearance order. */
  method FoldGuarded(legs: seq<Leg>) returns (order: seq<AccountRef>, deltas: map<AccountRef, int>)
    ensures order == GuardedAccounts(legs)
    ensures forall a :: a in order ==> a in deltas && deltas[a] == DeltaOf(legs, a)
  {
    hide GuardedAccounts, DeltaOf, IsUserGuarded, BalanceDelta;
    order, deltas := [], map[];
    NothingGuarded(legs);
    for k := 0 to |legs|
      invariant order == GuardedAccounts(legs[..k])
      invariant forall a :: a in deltas <==> a in order
      invariant forall a :: a in deltas ==> deltas[a] == DeltaOf(legs[..k], a)
    {
      DeltaStep(legs, k);
      GuardedStep(legs, k);
      AccountsStep(legs, k);
      var a := legs[k].account;
      if IsUserGuarded(a) {
        if a !in deltas {
          UntouchedDelta(legs[..k], a);
          order := order + [a];
        }
        deltas := deltas[a := (if a in deltas then deltas[a] else 0) + BalanceDelta(legs[k])];
      }
    }
    assert legs[..|legs|] == legs;
  }

  lemma OneMoreHead(s: State, p: Posting, order: seq<AccountRef>, k: nat, h: Hash)
    requires k < |order| && h == ChainHash(HeadOf(s, order[k]), p, order[k])
    ensures NewHeads(s, p, order[..k + 1]) == NewHeads(s, p, order[..k])[order[k] := h]
  {
    PrefixStep(order, k);
  }

  lemma PlusUpdate<K, V>(m: map<K, V>, n: map<K, V>, k: K, v: V)
    ensures m + n[k := v] == (m + n)[k := v]
  {
  }

  lemma LinkAt(s: State, p: Posting, k: nat)
    requires k < |LinksFor(s, p)|
    ensures |LinksFor(s, p)| == |DistinctAccounts(p.legs)| && LinksFor(s, p)[k].account == DistinctAccounts(p.legs)[k]
    ensures var a := DistinctAccounts(p.legs)[k]; LinksFor(s, p)[k].hash == ChainHash(HeadOf(s, a), p, a)
  {
  }

  lemma LinkCount(s: State, p: Posting)
    ensures |LinksFor(s, p)| == |DistinctAccounts(p.legs)|
  {
  }

  lemma NoNewHeads(s: State, p: Posting)
    ensures s.heads + NewHeads(s, p, []) == s.heads
  {
  }

  /** Moves every touched account's head to its new link. */
  method StoreHeads(ghost s: State, ghost p: Posting, links: seq<Link>, heads: map<AccountRef, Hash>)
      returns (r: map<AccountRef, Hash>)
    requires heads == s.heads && links == LinksFor(s, p)
    ensures r == s.heads + NewHeads(s, p, DistinctAccounts(p.legs))
  {
    hide NewHeads, LinksFor, DistinctAccounts, HeadOf;
    r := heads;
    ghost var order := DistinctAccounts(p.legs);
    LinkCount(s, p);
    NoNewHeads(s, p);
    assert order[..0] == [];
    var k := 0;
    while k < |links|
      invariant 0 <= k <= |links|
      invariant r == s.heads + NewHeads(s, p, order[..k])
    {
      LinkAt(s, p, k);
      OneMoreHead(s, p, order, k, links[k].hash);
      PlusUpdate(s.heads, NewHeads(s, p, order[..k]), order[k], links[k].hash);
      r := r[links[k].account := links[k].hash];
      k := k + 1;
    }
    assert order[..|links|] == order;
  }

  /** Range-checks every running balance before touching any state. */
  method NextBalances(ghost s: State, balances: map<AccountRef, int>, legs: seq<Leg>)
      returns (fits: bool, next: map<AccountRef, int>)
    requires balances == s.balances
    ensures fits <==> CommitFits(s, legs)
    ensures fits ==> next == NewBalances(s, legs)
  {
    hide DeltaOf, BalanceDelta;
    next := map[];
    for k := 0 to |legs|
      invariant forall i :: 0 <= i < k ==> LegFits(s, legs, i)
      invariant next.Keys == AccountsIn(legs[..k])
      invariant forall a :: a in next ==> next[a] == BalanceOf(s, a) + DeltaOf(legs[..k], a)
    {
      DeltaStep(legs, k);
      AccountsStep(legs, k);
      var a, delta := legs[k].account, BalanceDelta(legs[k]);
      if a !in next {
        UntouchedDelta(legs[..k], a);
      }
      var prior := if a in next then next[a] else if a in balances then balances[a] else 0;
      assert LegFits(s, legs, k) <==> InI64(delta) && InI64(prior + delta);
      if !InI64(delta) || !InI64(prior + delta) {
        return false, next;
      }
      next := next[a := prior + delta];
    }
    assert legs[..|legs|] == legs;
    return true, next;
  }

  /** Walks the postings with the set of accounts seen so far. */
  method ShareNoAccount(ps: seq<Posting>) returns (disjoint: bool)
    ensures disjoint <==> Disjoint(ps)
  {
    hide AccountsIn;
    var seen: set<AccountRef> := {};
    disjoint := true;
    for k := 0 to |ps|
      invariant seen == SeenIn(ps[..k])
      invariant disjoint <==> Disjoint(ps[..k])
    {
      SeenStep(ps, k);
      DisjointStep(ps, k);
      Overlap(seen, AccountsIn(ps[k].legs));
      if seen * AccountsIn(ps[k].legs) != {} {
        disjoint := false;
      }
      seen := seen + AccountsIn(ps[k].legs);
    }
    assert ps[..|ps|] == ps;
  }

  function SeenIn(ps: seq<Posting>): set<AccountRef> {
    if ps == [] then {} else SeenIn(ps[..|ps| - 1]) + AccountsIn(ps[|ps| - 1].legs)
  }

  lemma SeenStep(ps: seq<Posting>, k: nat)
    requires k < |ps|
    ensures SeenIn(ps[..k + 1]) == SeenIn(ps[..k]) + AccountsIn(ps[k].legs)
  {
    PrefixStep(ps, k);
  }

  lemma {:induction false} SeenSomewhere(ps: seq<Posting>, a: AccountRef)
    ensures a in SeenIn(ps) <==> exists i :: 0 <= i < |ps| && a in AccountsIn(ps[i].legs)
  {
    hide AccountsIn;
    if ps != [] {
      var n := |ps| - 1;
      SeenSomewhere(ps[..n], a);
      assert ps == ps[..n] + [ps[n]];
      if a in SeenIn(ps[..n]) {
        var i :| 0 <= i < n && a in AccountsIn(ps[..n][i].legs);
        assert ps[i] == ps[..n][i];
      }
      if i :| 0 <= i < |ps| && a in AccountsIn(ps[i].legs) {
        assert i < n ==> ps[..n][i] == ps[i];
      }
    }
  }

  lemma Overlap<T>(xs: set<T>, ys: set<T>)
    ensures xs * ys == {} <==> xs !! ys
  {
    if x :| x in xs && x in ys {
      assert x in xs * ys;
    }
  }

  lemma DisjointStep(ps: seq<Posting>, k: nat)
    requires k < |ps|
    ensures Disjoint(ps[..k + 1]) <==> Disjoint(ps[..k]) && SeenIn(ps[..k]) !! AccountsIn(ps[k].legs)
  {
    hide AccountsIn, SeenIn;
    var before := ps[..k];
    forall i | 0 <= i < k && SeenIn(before) !! AccountsIn(ps[k].legs)
      ensures AccountsIn(before[i].legs) !! AccountsIn(ps[k].legs)
    {
      forall a | a in AccountsIn(before[i].legs) ensures a !in AccountsIn(ps[k].legs) {
        SeenSomewhere(before, a);
      }
    }
    if Disjoint(ps[..k + 1]) {
      forall a | a in SeenIn(before) ensures a !in AccountsIn(ps[k].legs) {
        SeenSomewhere(before, a);
        var i :| 0 <= i < |before| && a in AccountsIn(before[i].legs);
        assert AccountsIn(ps[..k + 1][i].legs) !! AccountsIn(ps[..k + 1][k].legs);
      }
      forall i, j | 0 <= i < j < k ensures AccountsIn(before[i].legs) !! AccountsIn(before[j].legs) {
        assert before[i] == ps[..k + 1][i] && before[j] == ps[..k + 1][j];
      }
    }
  }

  // A prefix that fails decides the whole batch.

  lemma FailedPrefix(s: State, ps: seq<Posting>)
    requires |ps| > 0 && Ledger.PostSequentially(s, ps[..|ps| - 1]).Err?
    ensures Ledger.PostSequentially(s, ps) == Ledger.PostSequentially(s, ps[..|ps| - 1])
  {
  }

  lemma {:induction false} CheckStops(s: State, ps: seq<Posting>, k: nat)
    requires k <= |ps| && CheckAll(s, ps[..k]).Some?
    ensures CheckAll(s, ps) == CheckAll(s, ps[..k])
    decreases |ps|
  {
    var n := |ps| - 1;
    if k <= n {
      assert ps[..n][..k] == ps[..k];
      CheckStops(s, ps[..n], k);
    } else {
      assert ps[..k] == ps;
    }
  }

  lemma {:induction false} SequenceStops(s: State, ps: seq<Posting>, k: nat)
    requires k <= |ps| && Ledger.PostSequentially(s, ps[..k]).Err?
    ensures Ledger.PostSequentially(s, ps) == Ledger.PostSequentially(s, ps[..k])
    decreases |ps|
  {
    var n := |ps| - 1;
    if k <= n {
      assert ps[..n][..k] == ps[..k];
      SequenceStops(s, ps[..n], k);
      FailedPrefix(s, ps);
    } else {
      assert ps[..k] == ps;
    }
  }

  lemma {:induction false} AppendStops(s: State, ps: seq<Posting>, k: nat)
    requires k <= |ps| && AppendAll(s, ps[..k]).Err?
    ensures AppendAll(s, ps) == AppendAll(s, ps[..k])
    decreases |ps|
  {
    var n := |ps| - 1;
    if k <= n {
      assert ps[..n][..k] == ps[..k];
      AppendStops(s, ps[..n], k);
    } else {
      assert ps[..k] == ps;
    }
  }

  /** A batch that faults stops behind its first k postings; taking those back is the transaction's part. */
  ghost predicate GotTo(s: State, t: State, ps: seq<Posting>, fused: bool, k: nat)
    requires k <= |ps|
  {
    CleanLength(ps);
    if fused && Disjoint(CleanAll(ps)) then AppendAll(s, CleanAll(ps)[..k]) == Ok(t)
    else Ledger.PostSequentially(s, ps[..k]) == Ok(t)
  }

  lemma CleanLength(ps: seq<Posting>)
    ensures |CleanAll(ps)| == |ps|
  {
  }

  lemma NothingAppended(s: State, ps: seq<Posting>)
    requires Disjoint(CleanAll(ps))
    ensures GotTo(s, s, ps, true, 0)
  {
    assert CleanAll(ps)[..0] == [];
  }

  class LedgerStore {
    var log: seq<Entry>
    var balances: map<AccountRef, int>
    var heads: map<AccountRef, Hash>

    constructor ()
      ensures View() == EMPTY
    {
      log, balances, heads := [], map[], map[];
    }

    ghost function View(): State
      reads this
    {
      State(log, balances, heads)
    }

    method Balance(a: AccountRef) returns (minor: int)
      ensures minor == BalanceOf(View(), a)
    {
      minor := if a in balances then balances[a] else 0;
    }

    /** Whether a posting with this id is stored: `posting(txnId) !== null`. */
    method HasPosting(id: TxnId) returns (found: bool)
      ensures found <==> exists i :: 0 <= i < |log| && log[i].posting.txnId == id
    {
      found := false;
      for k := 0 to |log|
        invariant found <==> exists i :: 0 <= i < k && log[i].posting.txnId == id
      {
        if log[k].posting.txnId == id {
          found := true;
        }
      }
    }

    /** Reads the balance of each net debit, in map order, and stops at the first that falls short. */
    method OverdraftCheck(legs: seq<Leg>) returns (fault: Option<Fault>)
      ensures fault == OverdraftFault(View(), legs, GuardedAccounts(legs))
    {
      var order, deltas := FoldGuarded(legs);
      var i := 0;
      while i < |order|
        invariant 0 <= i <= |order|
        invariant OverdraftFault(View(), legs, order) == OverdraftFault(View(), legs, order[i..])
      {
        var a := order[i];
        assert order[i..][0] == a && order[i..][1..] == order[i + 1..];
        assert a in order;
        if deltas[a] < 0 {
          var current := Balance(a);
          var projected := current + deltas[a];
          if projected < 0 {
            return Some(if InI64(projected) then Overdraft else AmountOverflow);
          }
        }
        i := i + 1;
      }
      return None;
    }

    /** One link per distinct account, each on that account's own prior head. */
    method AdvanceHeads(p: Posting) returns (links: seq<Link>)
      ensures links == LinksFor(View(), p)
    {
      var order := DistinctAccounts(p.legs);
      links := [];
      for k := 0 to |order|
        invariant |links| == k
        invariant forall i :: 0 <= i < k ==> links[i] == LinkFor(View(), p, order[i])
      {
        var prev := if order[k] in heads then heads[order[k]] else Genesis;
        links := links + [Link(order[k], prev, ChainHash(prev, p, order[k]))];
      }
    }

    method Append(p: Posting) returns (fault: Option<Fault>)
      modifies this
      ensures fault == None <==> Ledger.Append(old(View()), p).Ok?
      ensures fault == None ==> View() == Ledger.Append(old(View()), p).value
      ensures fault != None ==> View() == old(View()) && fault.value == Ledger.Append(old(View()), p).fault
    {
      var links := AdvanceHeads(p);
      ghost var before := View();
      var fits, nextBalances := NextBalances(before, balances, p.legs);
      if !fits {
        return Some(AmountOverflow);
      }
      log := log + [Entry(p, links)];
      heads := StoreHeads(before, p, links, heads);
      balances := balances + nextBalances;
      return None;
    }

    /** The four pre-write checks, in order. */
    method CheckPosting(legs: seq<Leg>) returns (fault: Option<Fault>)
      ensures fault == Check(View(), legs)
    {
      if !SingleCurrency(legs) {
        return Some(CurrencyMismatch);
      }
      var balanced := IsBalanced(legs);
      if !balanced {
        return Some(Unbalanced);
      }
      if !KnownAccounts(legs) {
        return Some(UnknownAccount);
      }
      if !GuardedDeltasFit(legs) {
        return Some(AmountOverflow);
      }
      fault := OverdraftCheck(legs);
    }

    /** The one path every posting takes. */
    method PostEntry(p: Posting) returns (fault: Option<Fault>)
      modifies this
      ensures fault == None <==> Ledger.PostEntry(old(View()), p).Ok?
      ensures fault == None ==> View() == Ledger.PostEntry(old(View()), p).value
      ensures fault != None ==> View() == old(View()) && fault.value == Ledger.PostEntry(old(View()), p).fault
    {
      var cleaned := DropZeroLegs(p);
      fault := CheckPosting(cleaned.legs);
      if fault == None {
        fault := Append(cleaned);
      }
    }

    /** Sequential unless the engine fuses appends and the postings share no account. */
    method PostEntries(ps: seq<Posting>, fused: bool) returns (fault: Option<Fault>)
      modifies this
      ensures fault == None <==> Ledger.PostEntries(old(View()), ps, fused).Ok?
      ensures fault == None ==> View() == Ledger.PostEntries(old(View()), ps, fused).value
      ensures fault != None ==> fault.value == Ledger.PostEntries(old(View()), ps, fused).fault
      ensures fault == None <==> Ledger.PostSequentially(old(View()), ps).Ok?
      ensures fault == None ==> View() == Ledger.PostSequentially(old(View()), ps).value
      ensures fault != None ==> exists k :: 0 <= k < |ps| && GotTo(old(View()), View(), ps, fused, k)
    {
      hide Check, Ledger.PostSequentially, AppendAll, DropZero, Disjoint, CleanAll;
      FusedPathRefinesSequence(View(), ps, fused);
      var cleaned := CleanAll(ps);
      var disjoint := ShareNoAccount(cleaned);
      if !fused || !disjoint {
        fault := PostSequentially(ps);
        if fault != None {
          ghost var k :| 0 <= k < |ps| && Ledger.PostSequentially(old(View()), ps[..k]) == Ok(View());
          assert GotTo(old(View()), View(), ps, fused, k);
        }
        return;
      }
      for k := 0 to |cleaned|
        invariant View() == old(View())
        invariant CheckAll(View(), cleaned[..k]) == None
      {
        PrefixStep(cleaned, k);
        fault := CheckPosting(cleaned[k].legs);
        if fault != None {
          CheckStops(View(), cleaned, k + 1);
          CleanLength(ps);
          NothingAppended(old(View()), ps);
          return;
        }
      }
      assert cleaned[..|cleaned|] == cleaned;
      fault := AppendInOrder(cleaned);
      CleanLength(ps);
      if fault != None {
        ghost var k :| 0 <= k < |cleaned| && AppendAll(old(View()), cleaned[..k]) == Ok(View());
        assert GotTo(old(View()), View(), ps, fused, k);
      }
    }

    method PostSequentially(ps: seq<Posting>) returns (fault: Option<Fault>)
      modifies this
      ensures fault == None <==> Ledger.PostSequentially(old(View()), ps).Ok?
      ensures fault == None ==> View() == Ledger.PostSequentially(old(View()), ps).value
      ensures fault != None ==> fault.value == Ledger.PostSequentially(old(View()), ps).fault
      ensures fault != None ==> exists k :: 0 <= k < |ps| && Ledger.PostSequentially(old(View()), ps[..k]) == Ok(View())
    {
      for k := 0 to |ps|
        invariant Ledger.PostSequentially(old(View()), ps[..k]) == Ok(View())
      {
        PrefixStep(ps, k);
        fault := PostEntry(ps[k]);
        if fault != None {
          SequenceStops(old(View()), ps, k + 1);
          return;
        }
      }
      assert ps[..|ps|] == ps;
      fault := None;
    }

    method AppendInOrder(ps: seq<Posting>) returns (fault: Option<Fault>)
      modifies this
      ensures fault == None <==> AppendAll(old(View()), ps).Ok?
      ensures fault == None ==> View() == AppendAll(old(View()), ps).value
      ensures fault != None ==> fault.value == AppendAll(old(View()), ps).fault
      ensures fault != None ==> exists k :: 0 <= k < |ps| && AppendAll(old(View()), ps[..k]) == Ok(View())
    {
      for k := 0 to |ps|
        invariant AppendAll(old(View()), ps[..k]) == Ok(View())
      {
        PrefixStep(ps, k);
        fault := Append(ps[k]);
        if fault != None {
          AppendStops(old(View()), ps, k + 1);
          return;
        }
      }
      assert ps[..|ps|] == ps;
      fault := None;
    }
  }
}
