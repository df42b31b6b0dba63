/**
 Whole runs of postings and seals (src/chain.ts `recordCheckpoint` over src/ledger.ts): on a ledger
 that only ever took guarded postings, every seal goes through, and what it stores is authentic for
 the next one - so every seal after the first is incremental.
 */
module SealRuns {
  import opened Accounts
  import opened AccountIds
  import opened Chain
  import opened Integrity
  import opened Ledger
  import opened Merkle
  import opened Money
  import opened Seal
  import SettlementNet
  import opened Text

  // ---- The accounts of a ledger, in first-posting order --------------------------------

  function AddNew(order: seq<AccountRef>, xs: seq<AccountRef>): (r: seq<AccountRef>)
    requires Distinct(order)
    ensures Distinct(r)
    ensures forall a :: a in r <==> a in order || a in xs
  {
    if xs == [] then order
    else
      var n := |xs| - 1;
      assert xs == xs[..n] + [xs[n]];
      var r := AddNew(order, xs[..n]);
      if xs[n] in r then r else r + [xs[n]]
  }

  function HeadOrder(log: seq<Entry>): (r: seq<AccountRef>)
    ensures Distinct(r)
    ensures forall a :: a in r <==> a in LogAccounts(log)
  {
    if log == [] then []
    else AddNew(HeadOrder(log[..|log| - 1]), DistinctAccounts(log[|log| - 1].posting.legs))
  }

  function LiveLeaves(s: State): seq<SealHead> {
    Leaves(s, HeadOrder(s.log))
  }

  // ---- The books net to zero -----------------------------------------------------------

  lemma {:induction false} RawIsSigned(legs: seq<Leg>, a: AccountRef)
    ensures RawOf(legs, a) == Sign(a) * DeltaIn(legs, a, CREDIT) + Sign(a) * DeltaIn(legs, a, USD)
  {
    if legs != [] {
      RawIsSigned(legs[..|legs| - 1], a);
    }
  }

  lemma {:induction false} RawSumIsSigned(log: seq<Entry>, a: AccountRef)
    ensures RawSum(log, a) == Sign(a) * DerivedBalance(log, a, CREDIT) + Sign(a) * DerivedBalance(log, a, USD)
  {
    if log != [] {
      var n := |log| - 1;
      RawSumIsSigned(log[..n], a);
      RawIsSigned(log[n].posting.legs, a);
      Distribute(Sign(a), DerivedBalance(log[..n], a, CREDIT), DeltaIn(log[n].posting.legs, a, CREDIT));
      Distribute(Sign(a), DerivedBalance(log[..n], a, USD), DeltaIn(log[n].posting.legs, a, USD));
    }
  }

  lemma {:induction false} LeavesTotal(s: State, heads: seq<AccountRef>)
    ensures TotalOf(Leaves(s, heads)) == SignedTotal(s.log, heads, CREDIT) + SignedTotal(s.log, heads, USD)
  {
    hide RawSum, DerivedBalance;
    if heads != [] {
      var n := |heads| - 1;
      LeavesTotal(s, heads[..n]);
      assert Leaves(s, heads)[..n] == Leaves(s, heads[..n]);
      RawSumIsSigned(s.log, heads[n]);
    }
  }

  lemma ValidBooksNetToZero(s: State)
    requires Ledger.Valid(s)
    ensures TotalOf(LiveLeaves(s)) == 0
  {
    hide LinksDerive, BalancesDerive, GuardHolds, Storable;
    assert Enumerates(HeadOrder(s.log), s.heads.Keys);
    ValidPassesProof(s, HeadOrder(s.log));
    LeavesTotal(s, HeadOrder(s.log));
  }

  // ---- Rows that were once true --------------------------------------------------------

  /** The row is what the leaf of its account was when the log had its first n entries. */
  ghost predicate TrueAt(log: seq<Entry>, row: SealHead, n: nat) {
    && n <= |log| && row.account in LogAccounts(log[..n])
    && row.head == LogHead(log[..n], row.account) && row.sum == RawSum(log[..n], row.account)
  }

  ghost predicate OnceTrue(log: seq<Entry>, row: SealHead) {
    exists n: nat :: TrueAt(log, row, n)
  }

  ghost predicate AllOnceTrue(log: seq<Entry>, rows: seq<SealHead>) {
    forall row :: row in rows ==> OnceTrue(log, row)
  }

  ghost predicate RowPerAccount(rows: seq<SealHead>) {
    forall i, j :: 0 <= i < j < |rows| ==> rows[i].account != rows[j].account
  }

  lemma {:induction false} AccountsOnlyGrow(log: seq<Entry>, n: nat)
    requires n <= |log|
    ensures LogAccounts(log[..n]) <= LogAccounts(log)
    decreases |log|
  {
    if n < |log| {
      AccountsOnlyGrow(log[..|log| - 1], n);
      assert log[..|log| - 1][..n] == log[..n];
    } else {
      assert log[..n] == log;
    }
  }

  lemma {:induction false} LineagePrefix(log: seq<Entry>, a: AccountRef, n: nat) returns (k: nat)
    requires n <= |log|
    ensures k <= |Lineage(log, a)| && Lineage(log, a)[..k] == Lineage(log[..n], a)
    decreases |log|
  {
    if n < |log| {
      k := LineagePrefix(log[..|log| - 1], a, n);
      assert log[..|log| - 1][..n] == log[..n];
    } else {
      k := |Lineage(log, a)|;
      assert log[..n] == log;
    }
  }

  lemma TouchedHasChain(log: seq<Entry>, a: AccountRef)
    requires LinksDerive(log) && a in LogAccounts(log)
    ensures Linked(a, Genesis, Lineage(log, a)) && Lineage(log, a) != []
    ensures EndOf(Genesis, Lineage(log, a)) == LogHead(log, a)
  {
    LineageIsLinked(log, a);
    HeadIsNotGenesis(log, a);
  }

  lemma {:induction false} HeadIsNotGenesis(log: seq<Entry>, a: AccountRef)
    requires a in LogAccounts(log)
    ensures LogHead(log, a) != Genesis
  {
    if a !in AccountsIn(log[|log| - 1].posting.legs) {
      HeadIsNotGenesis(log[..|log| - 1], a);
    }
  }

  /** A row that was once true marks an intact prefix of its account's chain. */
  lemma OnceTrueIsSealed(log: seq<Entry>, row: SealHead, n: nat) returns (k: nat)
    requires LinksDerive(log) && TrueAt(log, row, n)
    ensures SealedAt(row.account, Lineage(log, row.account), row.head, k)
  {
    LinksDerivePrefix(log, n);
    TouchedHasChain(log[..n], row.account);
    k := LineagePrefix(log, row.account, n);
  }

  lemma {:induction false} HeadDepthGrows(log: seq<Entry>, a: AccountRef, n: nat)
    requires n <= |log|
    ensures Depth(LogHead(log[..n], a)) <= Depth(LogHead(log, a))
    ensures LogHead(log[..n], a) == LogHead(log, a) ==> RawSum(log[..n], a) == RawSum(log, a)
    decreases |log|
  {
    if n < |log| {
      var m := |log| - 1;
      HeadDepthGrows(log[..m], a, n);
      assert log[..m][..n] == log[..n];
      if a !in AccountsIn(log[m].posting.legs) {
        SettlementNet.RawOutside(log[m].posting.legs, a);
      }
    } else {
      assert log[..n] == log;
    }
  }

  /** Same head, same leaf: an account whose head has not moved has the same sum. */
  lemma UnmovedRowStands(log: seq<Entry>, row: SealHead, n: nat)
    requires TrueAt(log, row, n) && row.head == LogHead(log, row.account)
    ensures row.sum == RawSum(log, row.account)
  {
    HeadDepthGrows(log, row.account, n);
  }

  // ---- The sealed-head table -----------------------------------------------------------

  predicate HasRow(rows: seq<SealHead>, a: AccountRef) {
    exists i :: 0 <= i < |rows| && rows[i].account == a
  }

  lemma {:induction false} UpsertRows(rows: seq<SealHead>, l: SealHead)
    requires RowPerAccount(rows)
    ensures RowPerAccount(Upsert(rows, l))
    ensures forall m :: m in Upsert(rows, l) <==> m == l || (m in rows && m.account != l.account)
  {
    if rows != [] {
      var rest := rows[1..];
      assert rows == [rows[0]] + rest;
      assert forall m :: m in rest ==> m.account != rows[0].account;
      if rows[0].account != l.account {
        UpsertRows(rest, l);
        var r := Upsert(rest, l);
        forall j | 0 <= j < |r| ensures r[j].account != rows[0].account {
          assert r[j] in r;
        }
      }
    }
  }

  /** The rows are those of `leaves`, and of `rows` where no leaf has the account. */
  ghost predicate Overlaid(r: seq<SealHead>, rows: seq<SealHead>, leaves: seq<SealHead>) {
    forall m :: m in r <==> m in leaves || (m in rows && !HasRow(leaves, m.account))
  }

  lemma NothingOverlaid(rows: seq<SealHead>)
    ensures Overlaid(rows, rows, [])
  {
  }

  lemma FewerRows(rows: seq<SealHead>, n: nat)
    requires RowPerAccount(rows) && n <= |rows|
    ensures RowPerAccount(rows[..n])
  {
  }

  lemma OverlaidOneMore(r: seq<SealHead>, r': seq<SealHead>, rows: seq<SealHead>, leaves: seq<SealHead>, l: SealHead)
    requires Overlaid(r, rows, leaves) && RowPerAccount(leaves + [l])
    requires forall m :: m in r' <==> m == l || (m in r && m.account != l.account)
    ensures Overlaid(r', rows, leaves + [l])
  {
    forall a ensures HasRow(leaves + [l], a) <==> HasRow(leaves, a) || a == l.account {
      HasRowSnoc(leaves, l, a);
    }
    forall m | m in leaves ensures m.account != l.account {
      var i :| 0 <= i < |leaves| && leaves[i] == m;
      assert (leaves + [l])[i] == m && (leaves + [l])[|leaves|] == l;
    }
  }

  lemma {:induction false} UpsertAllRows(rows: seq<SealHead>, leaves: seq<SealHead>)
    requires RowPerAccount(rows) && RowPerAccount(leaves)
    ensures RowPerAccount(UpsertAll(rows, leaves)) && Overlaid(UpsertAll(rows, leaves), rows, leaves)
  {
    hide Upsert, Overlaid, RowPerAccount;
    if leaves == [] {
      NothingOverlaid(rows);
    } else {
      var n, l := |leaves| - 1, leaves[|leaves| - 1];
      var init := leaves[..n];
      assert leaves == init + [l];
      FewerRows(leaves, n);
      UpsertAllRows(rows, init);
      UpsertRows(UpsertAll(rows, init), l);
      OverlaidOneMore(UpsertAll(rows, init), UpsertAll(rows, leaves), rows, init, l);
    }
  }

  lemma HasRowSnoc(rows: seq<SealHead>, l: SealHead, a: AccountRef)
    ensures HasRow(rows + [l], a) <==> HasRow(rows, a) || a == l.account
  {
    var all := rows + [l];
    if HasRow(rows, a) {
      var i :| 0 <= i < |rows| && rows[i].account == a;
      assert all[i].account == a;
    }
    assert all[|rows|] == l;
  }

  lemma {:induction false} OneEach(rows: seq<SealHead>, m: SealHead)
    requires RowPerAccount(rows)
    ensures multiset(rows)[m] == if m in rows then 1 else 0
  {
    if rows != [] {
      var n := |rows| - 1;
      OneEach(rows[..n], m);
      assert rows == rows[..n] + [rows[n]];
      assert rows[n] !in rows[..n];
    }
  }

  lemma SameRows(xs: seq<SealHead>, ys: seq<SealHead>)
    requires RowPerAccount(xs) && RowPerAccount(ys) && forall m :: m in xs <==> m in ys
    ensures multiset(xs) == multiset(ys)
  {
    forall m ensures multiset(xs)[m] == multiset(ys)[m] {
      OneEach(xs, m);
      OneEach(ys, m);
    }
  }

  lemma {:induction false} DirtyRows(live: seq<SealHead>, since: map<AccountRef, Hash>)
    requires RowPerAccount(live)
    ensures RowPerAccount(DirtyOf(live, since))
  {
    if live != [] {
      var n := |live| - 1;
      DirtyRows(live[..n], since);
      var before := DirtyOf(live[..n], since);
      forall i | 0 <= i < |before| ensures before[i].account != live[n].account {
        assert before[i] in before;
        var j :| 0 <= j < n && live[..n][j] == before[i];
        assert live[j].account != live[n].account;
      }
    }
  }

  lemma {:induction false} RowsAreInSince(snapshot: seq<SealHead>)
    requires RowPerAccount(snapshot)
    ensures forall row :: row in snapshot ==>
      row.account in SinceOf(snapshot) && SinceOf(snapshot)[row.account] == row.head
  {
    if snapshot != [] {
      var n := |snapshot| - 1;
      RowsAreInSince(snapshot[..n]);
      assert snapshot == snapshot[..n] + [snapshot[n]];
      forall row | row in snapshot[..n] ensures row.account != snapshot[n].account {
        var i :| 0 <= i < n && snapshot[..n][i] == row;
        assert snapshot[i].account != snapshot[n].account;
      }
    }
  }

  lemma {:induction false} SinceHasRow(snapshot: seq<SealHead>, a: AccountRef)
    requires a in SinceOf(snapshot)
    ensures exists row :: row in snapshot && row.account == a
  {
    var n := |snapshot| - 1;
    if a == snapshot[n].account {
      assert snapshot[n] in snapshot;
    } else {
      SinceHasRow(snapshot[..n], a);
      var row :| row in snapshot[..n] && row.account == a;
      assert row in snapshot;
    }
  }

  lemma SinceIsRows(snapshot: seq<SealHead>)
    requires RowPerAccount(snapshot)
    ensures forall row :: row in snapshot ==>
      row.account in SinceOf(snapshot) && SinceOf(snapshot)[row.account] == row.head
    ensures forall a :: a in SinceOf(snapshot) ==> exists row :: row in snapshot && row.account == a
  {
    RowsAreInSince(snapshot);
    forall a | a in SinceOf(snapshot) ensures exists row :: row in snapshot && row.account == a {
      SinceHasRow(snapshot, a);
    }
  }

  predicate HoldsHead(snapshot: seq<SealHead>, a: AccountRef, head: Hash) {
    exists i :: 0 <= i < |snapshot| && snapshot[i].account == a && snapshot[i].head == head
  }

  /** The dirty leaves are those whose head the snapshot does not hold for their account. */
  lemma DirtyAreMoved(snapshot: seq<SealHead>, live: seq<SealHead>)
    requires RowPerAccount(snapshot)
    ensures forall l :: l in DirtyOf(live, SinceOf(snapshot)) <==> l in live && !HoldsHead(snapshot, l.account, l.head)
  {
    hide SinceOf, RowPerAccount;
    SinceIsRows(snapshot);
    var since := SinceOf(snapshot);
    forall l: SealHead ensures Moved(since, l) <==> !HoldsHead(snapshot, l.account, l.head) {
      if HoldsHead(snapshot, l.account, l.head) {
        var i :| 0 <= i < |snapshot| && snapshot[i].account == l.account && snapshot[i].head == l.head;
        assert snapshot[i] in snapshot;
      }
      if !Moved(since, l) {
        var row :| row in snapshot && row.account == l.account;
        var i :| 0 <= i < |snapshot| && snapshot[i] == row;
        assert snapshot[i].head == l.head;
      }
    }
  }

  // ---- One seal ------------------------------------------------------------------------

  datatype Books = Books(ledger: State, snapshot: seq<SealHead>, latest: Option<Checkpoint>)

  ghost predicate SnapshotAuthentic(b: Books) {
    match b.latest
    case None => b.snapshot == []
    case Some(c) =>
      c.version == 2 && SumRoot(b.snapshot).Some? && Authentic(SumRoot(b.snapshot).value, c)
  }

  ghost predicate BooksOk(b: Books) {
    && Ledger.Valid(b.ledger) && RowPerAccount(b.snapshot)
    && AllOnceTrue(b.ledger.log, b.snapshot) && SnapshotAuthentic(b)
  }

  /** The row a seal would write for its account now. */
  predicate IsLeaf(s: State, l: SealHead) {
    l.account in LogAccounts(s.log) && l.head == HeadOf(s, l.account) && l.sum == RawSum(s.log, l.account)
  }

  lemma LeafRows(s: State)
    ensures RowPerAccount(LiveLeaves(s))
    ensures forall l :: l in LiveLeaves(s) <==> IsLeaf(s, l)
  {
    hide RawSum, HeadOf, LogAccounts;
    var order, live := HeadOrder(s.log), LiveLeaves(s);
    forall l: SealHead | IsLeaf(s, l) ensures l in live {
      assert l.account in order;
      var i :| 0 <= i < |order| && order[i] == l.account;
      assert live[i] == l;
    }
    forall l | l in live ensures IsLeaf(s, l) {
      var i :| 0 <= i < |live| && live[i] == l;
      assert order[i] in order;
    }
  }

  lemma LiveRowsAreTrue(s: State)
    requires Ledger.Valid(s)
    ensures AllOnceTrue(s.log, LiveLeaves(s))
  {
    LeafRows(s);
    forall l | l in LiveLeaves(s) ensures OnceTrue(s.log, l) {
      assert s.log[..|s.log|] == s.log;
      assert TrueAt(s.log, l, |s.log|);
    }
  }

  lemma {:induction false} NoneMissing(snapshot: seq<SealHead>, live: seq<SealHead>)
    requires forall row :: row in snapshot ==> IsLive(live, row.account)
    ensures FirstMissing(snapshot, live) == None
  {
    hide IsLive;
    if snapshot != [] {
      assert snapshot[0] in snapshot;
      assert forall row :: row in snapshot[1..] ==> row in snapshot;
      NoneMissing(snapshot[1..], live);
    }
  }

  lemma OnceTrueIsLive(s: State, row: SealHead)
    requires OnceTrue(s.log, row)
    ensures row.account in LogAccounts(s.log) && IsLive(LiveLeaves(s), row.account)
  {
    var n: nat :| TrueAt(s.log, row, n);
    AccountsOnlyGrow(s.log, n);
    var order := HeadOrder(s.log);
    assert row.account in order;
    var i :| 0 <= i < |order| && order[i] == row.account;
    assert LiveLeaves(s)[i].account == row.account;
  }

  /** Over honest books, a seal that has a snapshot is incremental. */
  lemma NextSealIsIncremental(b: Books)
    requires BooksOk(b) && b.snapshot != []
    ensures PlanSeal(b.snapshot, b.latest, LiveLeaves(b.ledger)) ==
      Incremental(DirtyOf(LiveLeaves(b.ledger), SinceOf(b.snapshot)), SinceOf(b.snapshot))
  {
    hide Ledger.Valid, OnceTrue, IsLive, SumRoot, LiveLeaves;
    forall row | row in b.snapshot ensures IsLive(LiveLeaves(b.ledger), row.account) {
      OnceTrueIsLive(b.ledger, row);
    }
    NoneMissing(b.snapshot, LiveLeaves(b.ledger));
  }

  /** The tail proof of a moved account of an honest ledger. */
  lemma HonestTail(s: State, rows: seq<SealHead>, l: SealHead)
    requires Ledger.Valid(s) && RowPerAccount(rows) && AllOnceTrue(s.log, rows)
    requires l in LiveLeaves(s) && Moved(SinceOf(rows), l)
    ensures LeafTailAccepts(s.log, SinceOf(rows), l)
  {
    hide Linked, Carries, Lineage, LogHead, LogAccounts, RawSum, WalkAccepts, TailAccepts;
    var a, since, chain := l.account, SinceOf(rows), Lineage(s.log, l.account);
    LeafRows(s);
    SinceIsRows(rows);
    TouchedHasChain(s.log, a);
    assert chain[|chain| - 1].hash == l.head;
    HeadIsCarried(a, chain);
    if a in since {
      var row :| row in rows && row.account == a;
      var n: nat :| TrueAt(s.log, row, n);
      var k := OnceTrueIsSealed(s.log, row, n);
      DirtyTailIsFullProof(a, chain, since[a], l.head, k);
      MovedPastSeal(chain, k, since[a], l.head);
    }
    HonestWalk(a, since, l.head, chain);
  }

  lemma HeadIsCarried(a: AccountRef, chain: seq<StoredLink>)
    requires Linked(a, Genesis, chain) && chain != []
    ensures WalkAccepts(a, None, chain) && Carries(chain, chain[|chain| - 1].hash)
  {
  }

  lemma MovedPastSeal(chain: seq<StoredLink>, k: nat, sealedHead: Hash, liveHead: Hash)
    requires 0 < k <= |chain| && chain[k - 1].hash == sealedHead && liveHead != sealedHead
    requires chain[|chain| - 1].hash == liveHead
    ensures Carries(chain[k..], liveHead)
  {
    assert k < |chain|;
    assert chain[k..][|chain| - k - 1].hash == liveHead;
  }

  lemma HonestWalk(a: AccountRef, since: map<AccountRef, Hash>, liveHead: Hash, chain: seq<StoredLink>)
    requires WalkAccepts(a, None, chain) && Carries(chain, liveHead)
    ensures a !in since ==> TailAccepts(a, SinceFor(since, a), liveHead, chain)
  {
  }

  ghost predicate TailsOk(s: State, rows: seq<SealHead>) {
    TailsAccept(s.log, DirtyOf(LiveLeaves(s), SinceOf(rows)), SinceOf(rows))
  }

  lemma HonestTails(s: State, rows: seq<SealHead>)
    requires Ledger.Valid(s) && RowPerAccount(rows) && AllOnceTrue(s.log, rows)
    ensures TailsOk(s, rows)
  {
    hide Ledger.Valid, LeafTailAccepts, LiveLeaves, Moved, OnceTrue;
    var dirty := DirtyOf(LiveLeaves(s), SinceOf(rows));
    forall i | 0 <= i < |dirty| ensures LeafTailAccepts(s.log, SinceOf(rows), dirty[i]) {
      assert dirty[i] in dirty;
      HonestTail(s, rows, dirty[i]);
    }
  }

  /** A row that was once true and whose head has not moved is the live leaf. */
  lemma UnmovedRowIsLeaf(s: State, row: SealHead)
    requires Ledger.Valid(s) && OnceTrue(s.log, row) && row.head == HeadOf(s, row.account)
    ensures IsLeaf(s, row)
  {
    var n: nat :| TrueAt(s.log, row, n);
    AccountsOnlyGrow(s.log, n);
    UnmovedRowStands(s.log, row, n);
  }

  /** Upserting the dirty leaves turns the old snapshot into the live leaves, row for row. */
  lemma UpsertMakesLive(s: State, rows: seq<SealHead>)
    requires Ledger.Valid(s) && RowPerAccount(rows) && AllOnceTrue(s.log, rows)
    ensures var after := UpsertAll(rows, DirtyOf(LiveLeaves(s), SinceOf(rows)));
      RowPerAccount(after) && forall m :: m in after <==> m in LiveLeaves(s)
  {
    hide Ledger.Valid, OnceTrue, LiveLeaves, UpsertAll, SinceOf, IsLeaf;
    var live, since := LiveLeaves(s), SinceOf(rows);
    var dirty := DirtyOf(live, since);
    LeafRows(s);
    DirtyRows(live, since);
    UpsertAllRows(rows, dirty);
    SinceIsRows(rows);
    forall m | m in rows && !HasRow(dirty, m.account) ensures m in live {
      KeptRowIsLive(s, rows, m);
    }
    forall l | l in live && l !in dirty ensures l in rows && !HasRow(dirty, l.account) {
      CleanLeafIsKept(s, rows, l);
    }
  }

  lemma MemberHasRow(rows: seq<SealHead>, l: SealHead)
    ensures l in rows ==> HasRow(rows, l.account)
  {
  }

  lemma OneLeafPerAccount(s: State, m: SealHead, l: SealHead)
    requires IsLeaf(s, m) && IsLeaf(s, l)
    ensures m.account == l.account ==> m == l
  {
  }

  lemma KeptRowIsLive(s: State, rows: seq<SealHead>, m: SealHead)
    requires Ledger.Valid(s) && RowPerAccount(rows) && AllOnceTrue(s.log, rows)
    requires m in rows && !HasRow(DirtyOf(LiveLeaves(s), SinceOf(rows)), m.account)
    ensures m in LiveLeaves(s)
  {
    hide Ledger.Valid, LiveLeaves, RawSum, LogHead, LogAccounts;
    var live, dirty := LiveLeaves(s), DirtyOf(LiveLeaves(s), SinceOf(rows));
    LeafRows(s);
    SinceIsRows(rows);
    OnceTrueIsLive(s, m);
    var i :| 0 <= i < |live| && live[i].account == m.account;
    assert live[i] in live && IsLeaf(s, live[i]);
    MemberHasRow(dirty, live[i]);
    UnmovedRowIsLeaf(s, m);
  }

  lemma CleanLeafIsKept(s: State, rows: seq<SealHead>, l: SealHead)
    requires Ledger.Valid(s) && RowPerAccount(rows) && AllOnceTrue(s.log, rows)
    requires l in LiveLeaves(s) && l !in DirtyOf(LiveLeaves(s), SinceOf(rows))
    ensures l in rows && !HasRow(DirtyOf(LiveLeaves(s), SinceOf(rows)), l.account)
  {
    hide Ledger.Valid, LiveLeaves, RawSum, LogHead, LogAccounts;
    var live, dirty := LiveLeaves(s), DirtyOf(LiveLeaves(s), SinceOf(rows));
    LeafRows(s);
    SinceIsRows(rows);
    assert !Moved(SinceOf(rows), l);
    var row :| row in rows && row.account == l.account;
    UnmovedRowIsLeaf(s, row);
    assert IsLeaf(s, l);
    forall m | m in dirty ensures m.account != l.account {
      assert IsLeaf(s, m);
      OneLeafPerAccount(s, m, l);
    }
  }

  lemma {:induction false} LoggedIsKnown(log: seq<Entry>, a: AccountRef)
    requires LinksDerive(log) && a in LogAccounts(log)
    ensures IsKnownAccount(a)
  {
    var n := |log| - 1;
    LinksDerivePrefix(log, n);
    assert LinksDeriveAt(log, n);
    if a in AccountsIn(log[n].posting.legs) {
      var i :| 0 <= i < |log[n].posting.legs| && log[n].posting.legs[i].account == a;
    } else {
      LoggedIsKnown(log[..n], a);
    }
  }

  lemma LeavesAreKeyed(s: State)
    requires Ledger.Valid(s)
    ensures OneRowPerId(LiveLeaves(s))
  {
    hide LiveLeaves, IsKnownAccount;
    LeafRows(s);
    forall x, y | x in LiveLeaves(s) && y in LiveLeaves(s) && ById(x) == ById(y) ensures x == y {
      assert IsLeaf(s, x) && IsLeaf(s, y);
      LoggedIsKnown(s.log, x.account);
      LoggedIsKnown(s.log, y.account);
      IdDeterminesAccount(x.account, y.account);
    }
  }

  /** The snapshot the seal stores, whichever path it took. */
  function NewSnapshot(b: Books): seq<SealHead> {
    if b.snapshot == [] then UpsertAll([], LiveLeaves(b.ledger))
    else UpsertAll(b.snapshot, DirtyOf(LiveLeaves(b.ledger), SinceOf(b.snapshot)))
  }

  lemma NewSnapshotIsLive(b: Books)
    requires BooksOk(b)
    ensures RowPerAccount(NewSnapshot(b)) && AllOnceTrue(b.ledger.log, NewSnapshot(b))
    ensures SumRoot(NewSnapshot(b)) == SumRoot(LiveLeaves(b.ledger))
  {
    hide Ledger.Valid, LiveLeaves, OnceTrue, SumRoot, UpsertAll;
    var live := LiveLeaves(b.ledger);
    LeafRows(b.ledger);
    LiveRowsAreTrue(b.ledger);
    if b.snapshot == [] {
      UpsertAllRows([], live);
    } else {
      UpsertMakesLive(b.ledger, b.snapshot);
    }
    SameRows(live, NewSnapshot(b));
    LeavesAreKeyed(b.ledger);
    RootIgnoresOrder(live, NewSnapshot(b));
  }

  /** The checks of a seal over honest books all hold. */
  lemma HonestProof(b: Books)
    requires BooksOk(b)
    ensures var plan := PlanSeal(b.snapshot, b.latest, LiveLeaves(b.ledger));
      && (if b.snapshot == [] then plan == Full else plan.Incremental?)
      && ProofHolds(b.ledger, plan)
      && (plan.Incremental? ==> plan.dirty == DirtyOf(LiveLeaves(b.ledger), SinceOf(b.snapshot)))
  {
    hide Ledger.Valid, LiveLeaves, OnceTrue, SumRoot, ChainsIntact;
    if b.snapshot == [] {
      HonestChains(b.ledger);
    } else {
      NextSealIsIncremental(b);
      HonestTails(b.ledger, b.snapshot);
    }
  }

  lemma HonestChains(s: State)
    requires Ledger.Valid(s)
    ensures ChainsIntact(s)
  {
    forall a ensures WalkAccepts(a, None, Lineage(s.log, a)) {
      LineageIsLinked(s.log, a);
    }
  }

  function AfterSeal(b: Books, r: Sealing): Books {
    match r
    case SealedAs(checkpoint, snapshot) => Books(b.ledger, snapshot, Some(checkpoint))
    case RefusedSeal(_) => b
  }

  ghost function SealBooks(b: Books): Sealing {
    SealOver(b.ledger, HeadOrder(b.ledger.log), b.snapshot, b.latest)
  }

  /**
   One seal over honest books: it reports no tampering, no truncation and no imbalance - the one way
   it can refuse is a subtree sum outside i64 - and afterwards the stored rows re-derive exactly the
   new checkpoint's root and sum.
   */
  lemma HonestSeal(b: Books)
    requires BooksOk(b)
    ensures SealBooks(b).SealedAs? || SealBooks(b) == RefusedSeal(SumTooLarge)
    ensures BooksOk(AfterSeal(b, SealBooks(b)))
    ensures SealBooks(b).SealedAs? ==>
      SumRoot(SealBooks(b).snapshot) == Some(Summed(SealBooks(b).checkpoint.root, 0)) == SumRoot(LiveLeaves(b.ledger))
  {
    hide Ledger.Valid, OnceTrue, SumRoot, ChainsIntact, PlanSeal, ProofHolds, Leaves, HeadOrder;
    HonestProof(b);
    NewSnapshotIsLive(b);
    ValidBooksNetToZero(b.ledger);
    var live := LiveLeaves(b.ledger);
    if SumRoot(live).Some? {
      RootSumIsTotal(live);
    }
  }

  // ---- Whole runs ----------------------------------------------------------------------

  datatype BooksOp = PostOp(posting: Posting) | SealOp

  ghost function StepBooks(b: Books, op: BooksOp): Books {
    match op
    case PostOp(p) => Books(Apply(b.ledger, Single(p)), b.snapshot, b.latest)
    case SealOp => AfterSeal(b, SealBooks(b))
  }

  ghost function RunBooks(ops: seq<BooksOp>): Books {
    if ops == [] then Books(EMPTY, [], None) else StepBooks(RunBooks(ops[..|ops| - 1]), ops[|ops| - 1])
  }

  lemma LongerLogKeepsTruth(log: seq<Entry>, more: seq<Entry>, rows: seq<SealHead>)
    requires AllOnceTrue(log, rows) && |log| <= |more| && more[..|log|] == log
    ensures AllOnceTrue(more, rows)
  {
    forall row | row in rows ensures OnceTrue(more, row) {
      assert OnceTrue(log, row);
      var n: nat :| TrueAt(log, row, n);
      assert more[..n] == log[..n];
      assert TrueAt(more, row, n);
    }
  }

  lemma PostKeepsBooks(b: Books, p: Posting)
    requires BooksOk(b)
    ensures BooksOk(StepBooks(b, PostOp(p)))
  {
    hide Ledger.Valid, PostEntry, OnceTrue, SumRoot;
    ApplyKeepsValid(b.ledger, Single(p));
    if PostEntry(b.ledger, p).Ok? {
      PostEntryEffect(b.ledger, p);
      LongerLogKeepsTruth(b.ledger.log, PostEntry(b.ledger, p).value.log, b.snapshot);
    }
  }

  /**
   Over every run of postings and seals, a seal is never refused for tampering, truncation or
   imbalance; after each one the stored rows re-derive the checkpoint just signed; and from then on
   every seal is incremental.
   */
  lemma {:induction false} EveryRunSeals(ops: seq<BooksOp>)
    ensures var b := RunBooks(ops);
      && BooksOk(b)
      && (SealBooks(b).SealedAs? || SealBooks(b) == RefusedSeal(SumTooLarge))
      && (b.snapshot != [] ==> PlanSeal(b.snapshot, b.latest, LiveLeaves(b.ledger)).Incremental?)
  {
    hide BooksOk, SealBooks, PlanSeal, AfterSeal;
    RunKeepsBooks(ops);
    HonestSeal(RunBooks(ops));
    if RunBooks(ops).snapshot != [] {
      NextSealIsIncremental(RunBooks(ops));
    }
  }

  lemma {:induction false} RunKeepsBooks(ops: seq<BooksOp>)
    ensures BooksOk(RunBooks(ops))
  {
    hide SealBooks, AfterSeal, Ledger.Valid;
    if ops == [] {
      EmptyIsValid();
    } else {
      var n := |ops| - 1;
      RunKeepsBooks(ops[..n]);
      match ops[n]
      case PostOp(p) => PostKeepsBooks(RunBooks(ops[..n]), p);
      case SealOp => HonestSeal(RunBooks(ops[..n]));
    }
  }

  /** A run goes on from where it is: by a posting that is taken, or by a seal that goes through. */
  lemma RunGoesOn(ops: seq<BooksOp>, p: Posting)
    ensures RunBooks([]) == Books(EMPTY, [], None)
    ensures var b := RunBooks(ops);
      && (PostEntry(b.ledger, p).Ok? ==>
            RunBooks(ops + [PostOp(p)]) == Books(PostEntry(b.ledger, p).value, b.snapshot, b.latest))
      && (SealBooks(b).SealedAs? ==>
            RunBooks(ops + [SealOp]) == Books(b.ledger, SealBooks(b).snapshot, Some(SealBooks(b).checkpoint)))
  {
    hide SealBooks, PostEntry;
    assert (ops + [PostOp(p)])[..|ops|] == ops && (ops + [SealOp])[..|ops|] == ops;
  }
}
