/**
 Sealing over a pruned ledger (src/chain.ts `mergeArchiveSums`, src/adapters/memory.ts `pruneFromLog`):
 pruning drops history but keeps heads, so a live sum misses what was archived; merging the archived
 sums back gives every account its full-history leaf again.
 */
module Archive {
  import opened Accounts
  import opened Chain
  import opened Integrity
  import opened Ledger
  import opened Merkle
  import opened Money
  import opened Seal
  import opened SealRuns
  import opened Text
  import SettlementNet

  function RowFor(rows: seq<SealHead>, a: AccountRef): Option<SealHead> {
    if rows == [] then None
    else if rows[|rows| - 1].account == a then Some(rows[|rows| - 1])
    else RowFor(rows[..|rows| - 1], a)
  }

  function ArchivedSum(rows: seq<SealHead>, a: AccountRef): int {
    match RowFor(rows, a)
    case None => 0
    case Some(row) => row.sum
  }

  function WithArchive(live: seq<SealHead>, archived: seq<SealHead>): seq<SealHead> {
    seq(|live|, i requires 0 <= i < |live| => live[i].(sum := live[i].sum + ArchivedSum(archived, live[i].account)))
  }

  /** Archived accounts with no live head re-enter with the archived one. */
  function Pruned(live: seq<SealHead>, archived: seq<SealHead>): seq<SealHead> {
    if archived == [] then []
    else
      var last := archived[|archived| - 1];
      Pruned(live, archived[..|archived| - 1]) + if HasRow(live, last.account) then [] else [last]
  }

  /** Live leaves gain their archived part; then come the accounts pruned away entirely. */
  method MergeArchiveSums(live: seq<SealHead>, boundary: Option<seq<SealHead>>) returns (merged: seq<SealHead>)
    ensures merged ==
      if boundary == None then live else WithArchive(live, boundary.value) + Pruned(live, boundary.value)
  {
    if boundary == None {
      return live;
    }
    var archived := boundary.value;
    merged := [];
    var seen: set<AccountRef> := {};
    for k := 0 to |live|
      invariant |merged| == k
      invariant forall i :: 0 <= i < k ==>
        merged[i] == live[i].(sum := live[i].sum + ArchivedSum(archived, live[i].account))
      invariant forall a :: a in seen <==> HasRow(live[..k], a)
    {
      PrefixStep(live, k);
      forall a ensures HasRow(live[..k + 1], a) <==> HasRow(live[..k], a) || a == live[k].account {
        HasRowSnoc(live[..k], live[k], a);
      }
      seen := seen + {live[k].account};
      merged := merged + [live[k].(sum := live[k].sum + ArchivedSum(archived, live[k].account))];
    }
    assert live[..|live|] == live && merged == WithArchive(live, archived);
    for k := 0 to |archived|
      invariant merged == WithArchive(live, archived) + Pruned(live, archived[..k])
    {
      PrefixStep(archived, k);
      if archived[k].account !in seen {
        merged := merged + [archived[k]];
      }
    }
    assert archived[..|archived|] == archived;
  }

  // ---- Totals --------------------------------------------------------------------------

  lemma TotalSnoc(rows: seq<SealHead>, l: SealHead)
    ensures TotalOf(rows + [l]) == TotalOf(rows) + l.sum
  {
    assert (rows + [l])[..|rows|] == rows;
  }

  lemma {:induction false} RowOf(rows: seq<SealHead>, k: nat)
    requires RowPerAccount(rows) && k < |rows|
    ensures RowFor(rows, rows[k].account) == Some(rows[k])
  {
    var n := |rows| - 1;
    if k < n {
      assert rows[k].account != rows[n].account;
      RowOf(rows[..n], k);
    }
  }

  lemma {:induction false} NoRowFor(rows: seq<SealHead>, a: AccountRef)
    ensures RowFor(rows, a) == None <==> !HasRow(rows, a)
  {
    if rows != [] {
      var n := |rows| - 1;
      NoRowFor(rows[..n], a);
      HasRowSnoc(rows[..n], rows[n], a);
      assert rows == rows[..n] + [rows[n]];
    }
  }

  lemma NobodyHasRow(a: AccountRef)
    ensures !HasRow([], a)
  {
  }

  lemma RowForSnoc(rows: seq<SealHead>, row: SealHead, a: AccountRef)
    ensures RowFor(rows + [row], a) == if row.account == a then Some(row) else RowFor(rows, a)
  {
    assert (rows + [row])[..|rows|] == rows;
  }

  /** One more archived row adds its sum, to its live leaf or as a leaf of its own. */
  lemma {:induction false} OneMoreArchived(live: seq<SealHead>, archived: seq<SealHead>, row: SealHead)
    requires RowPerAccount(live) && RowPerAccount(archived + [row])
    ensures TotalOf(WithArchive(live, archived + [row])) ==
      TotalOf(WithArchive(live, archived)) + if HasRow(live, row.account) then row.sum else 0
  {
    hide RowFor, HasRow;
    if live == [] {
      NobodyHasRow(row.account);
    } else {
      var n, l := |live| - 1, live[|live| - 1];
      var all := archived + [row];
      OneMoreArchived(live[..n], archived, row);
      assert WithArchive(live, all)[..n] == WithArchive(live[..n], all);
      assert WithArchive(live, archived)[..n] == WithArchive(live[..n], archived);
      RowForSnoc(archived, row, l.account);
      HasRowSnoc(live[..n], l, row.account);
      assert live == live[..n] + [l];
      if l.account == row.account {
        NotYetArchived(archived, row);
        NotTwiceLive(live, row.account);
      }
    }
  }

  lemma NotYetArchived(archived: seq<SealHead>, row: SealHead)
    requires RowPerAccount(archived + [row])
    ensures ArchivedSum(archived, row.account) == 0
  {
    var all := archived + [row];
    NoRowFor(archived, row.account);
    forall i | 0 <= i < |archived| ensures archived[i].account != row.account {
      assert all[i] == archived[i] && all[|archived|] == row;
    }
  }

  lemma NotTwiceLive(live: seq<SealHead>, a: AccountRef)
    requires RowPerAccount(live) && live != [] && live[|live| - 1].account == a
    ensures !HasRow(live[..|live| - 1], a)
  {
  }

  lemma NothingArchived(live: seq<SealHead>)
    ensures WithArchive(live, []) == live
  {
  }

  lemma PrunedStep(live: seq<SealHead>, archived: seq<SealHead>, row: SealHead)
    ensures TotalOf(Pruned(live, archived + [row])) ==
      TotalOf(Pruned(live, archived)) + if HasRow(live, row.account) then 0 else row.sum
  {
    hide HasRow, TotalOf;
    assert (archived + [row])[..|archived|] == archived;
    var before := Pruned(live, archived);
    assert before + [] == before;
    TotalSnoc(before, row);
  }

  /** Nothing archived is lost or counted twice: the merged total is live plus archived. */
  lemma {:induction false} MergedTotal(live: seq<SealHead>, archived: seq<SealHead>)
    requires RowPerAccount(live) && RowPerAccount(archived)
    ensures TotalOf(WithArchive(live, archived) + Pruned(live, archived)) == TotalOf(live) + TotalOf(archived)
  {
    hide WithArchive, HasRow, Pruned;
    TotalConcat(WithArchive(live, archived), Pruned(live, archived));
    if archived == [] {
      NothingArchived(live);
      NothingPruned(live);
    } else {
      var n, row := |archived| - 1, archived[|archived| - 1];
      MergedTotal(live, archived[..n]);
      TotalConcat(WithArchive(live, archived[..n]), Pruned(live, archived[..n]));
      assert archived == archived[..n] + [row];
      OneMoreArchived(live, archived[..n], row);
      PrunedStep(live, archived[..n], row);
      TotalSnoc(archived[..n], row);
    }
  }

  lemma NothingPruned(live: seq<SealHead>)
    ensures TotalOf(Pruned(live, [])) == 0
  {
  }

  // ---- Full history --------------------------------------------------------------------

  lemma {:induction false} RawSumSplits(log: seq<Entry>, n: nat, a: AccountRef)
    requires n <= |log|
    ensures RawSum(log, a) == RawSum(log[..n], a) + RawSum(log[n..], a)
    decreases |log|
  {
    if n < |log| {
      var m := |log| - 1;
      RawSumSplits(log[..m], n, a);
      assert log[..m][..n] == log[..n] && log[..m][n..] == log[n..][..|log| - n - 1];
    } else {
      assert log[..n] == log && log[n..] == [];
    }
  }

  /** What the archival mover stored for the first n entries: each touched account's head and sum then. */
  ghost predicate ArchivedAt(archived: seq<SealHead>, log: seq<Entry>, n: nat) {
    && n <= |log| && RowPerAccount(archived)
    && (forall row :: row in archived ==> TrueAt(log, row, n))
    && forall a :: a in LogAccounts(log[..n]) ==> HasRow(archived, a)
  }

  lemma {:induction false} UntouchedRaw(log: seq<Entry>, a: AccountRef)
    requires a !in LogAccounts(log)
    ensures RawSum(log, a) == 0
  {
    if log != [] {
      UntouchedRaw(log[..|log| - 1], a);
      SettlementNet.RawOutside(log[|log| - 1].posting.legs, a);
    }
  }

  lemma ArchivedSumIsPrefixSum(archived: seq<SealHead>, log: seq<Entry>, n: nat, a: AccountRef)
    requires ArchivedAt(archived, log, n)
    ensures ArchivedSum(archived, a) == RawSum(log[..n], a)
  {
    NoRowFor(archived, a);
    if HasRow(archived, a) {
      var k :| 0 <= k < |archived| && archived[k].account == a;
      RowOf(archived, k);
      assert archived[k] in archived;
    } else {
      UntouchedRaw(log[..n], a);
    }
  }

  /** Merging over the pruned ledger gives, for the same heads, exactly the leaves of the whole one. */
  lemma MergeRestoresFullHistory(s: State, n: nat, heads: seq<AccountRef>, archived: seq<SealHead>)
    requires ArchivedAt(archived, s.log, n)
    ensures WithArchive(Leaves(s.(log := s.log[n..]), heads), archived) == Leaves(s, heads)
  {
    var kept, full := Leaves(s.(log := s.log[n..]), heads), Leaves(s, heads);
    forall i | 0 <= i < |heads| ensures WithArchive(kept, archived)[i] == full[i] {
      ArchivedSumIsPrefixSum(archived, s.log, n, heads[i]);
      RawSumSplits(s.log, n, heads[i]);
    }
  }

  // ---- Where a fully archived account leaves the heads -----------------------------------

  /** The tip of the links that are stored, as the SQL engines read an account's head. */
  function Tip(log: seq<Entry>, a: AccountRef): Hash {
    EndOf(Genesis, Lineage(log, a))
  }

  /** One leaf per account that still has a posting. */
  function TipLeaves(log: seq<Entry>, heads: seq<AccountRef>): seq<SealHead> {
    seq(|heads|, i requires 0 <= i < |heads| => SealHead(heads[i], Tip(log, heads[i]), RawSum(log, heads[i])))
  }

  lemma TipStep(log: seq<Entry>, a: AccountRef)
    requires log != []
    ensures Tip(log, a) == match LinkIn(log[|log| - 1].links, a)
      case Some(l) => l.hash
      case None => Tip(log[..|log| - 1], a)
  {
  }

  /** A stored link of the account is still a link of it when the front of the log is gone. */
  lemma {:induction false} TipSurvives(log: seq<Entry>, n: nat, a: AccountRef)
    requires n <= |log| && LinksDerive(log)
    ensures a in LogAccounts(log[n..]) ==> Tip(log[n..], a) == LogHead(log, a)
    ensures a !in LogAccounts(log[n..]) ==>
      LogHead(log[..n], a) == LogHead(log, a) && RawSum(log[..n], a) == RawSum(log, a)
    decreases |log|
  {
    hide Tip, LinkIn, LinksDeriveAt;
    if n < |log| {
      var m := |log| - 1;
      var kept, rest := log[n..], log[..m];
      LinksDerivePrefix(log, m);
      TipSurvives(rest, n, a);
      assert rest[..n] == log[..n] && kept[..|kept| - 1] == rest[n..] && kept[|kept| - 1] == log[m];
      assert LinksDeriveAt(log, m);
      EntryLink(log, m, a);
      TipStep(kept, a);
      if a !in AccountsIn(log[m].posting.legs) {
        SettlementNet.RawOutside(log[m].posting.legs, a);
      }
    } else {
      assert log[n..] == [] && log[..n] == log;
    }
  }

  predicate IsFullLeaf(log: seq<Entry>, l: SealHead) {
    l.account in LogAccounts(log) && l.head == LogHead(log, l.account) && l.sum == RawSum(log, l.account)
  }

  lemma {:induction false} PrunedRows(live: seq<SealHead>, archived: seq<SealHead>)
    requires RowPerAccount(archived)
    ensures RowPerAccount(Pruned(live, archived))
    ensures forall l :: l in Pruned(live, archived) <==> l in archived && !HasRow(live, l.account)
  {
    if archived != [] {
      var n, last := |archived| - 1, archived[|archived| - 1];
      PrunedRows(live, archived[..n]);
      assert archived == archived[..n] + [last];
      var before := Pruned(live, archived[..n]);
      forall i | 0 <= i < |before| ensures before[i].account != last.account {
        assert before[i] in before;
        var j :| 0 <= j < n && archived[..n][j] == before[i];
        assert archived[j].account != archived[n].account;
      }
    }
  }

  lemma MergedRowIsFull(log: seq<Entry>, n: nat, heads: seq<AccountRef>, archived: seq<SealHead>, i: nat)
    requires LinksDerive(log) && ArchivedAt(archived, log, n) && i < |heads| && heads[i] in LogAccounts(log[n..])
    ensures var row := WithArchive(TipLeaves(log[n..], heads), archived)[i];
      row.account == heads[i] && IsFullLeaf(log, row)
  {
    var a := heads[i];
    TipSurvives(log, n, a);
    ArchivedSumIsPrefixSum(archived, log, n, a);
    RawSumSplits(log, n, a);
    KeptIsLogged(log, n, a);
  }

  lemma {:induction false} KeptIsLogged(log: seq<Entry>, n: nat, a: AccountRef)
    requires n <= |log|
    ensures a in LogAccounts(log) <==> a in LogAccounts(log[..n]) || a in LogAccounts(log[n..])
    decreases |log|
  {
    if n < |log| {
      var m := |log| - 1;
      var kept := log[n..];
      KeptIsLogged(log[..m], n, a);
      assert log[..m][..n] == log[..n] && kept[..|kept| - 1] == log[..m][n..] && kept[|kept| - 1] == log[m];
    } else {
      assert log[n..] == [] && log[..n] == log;
    }
  }

  lemma TipRows(log: seq<Entry>, heads: seq<AccountRef>, a: AccountRef)
    ensures HasRow(TipLeaves(log, heads), a) <==> a in heads
  {
    var live := TipLeaves(log, heads);
    if a in heads {
      var i :| 0 <= i < |heads| && heads[i] == a;
      assert live[i].account == a;
    }
  }

  lemma PrunedRowIsFull(log: seq<Entry>, n: nat, heads: seq<AccountRef>, archived: seq<SealHead>, row: SealHead)
    requires LinksDerive(log) && ArchivedAt(archived, log, n) && Enumerates(heads, LogAccounts(log[n..]))
    requires row in Pruned(TipLeaves(log[n..], heads), archived)
    ensures row.account !in heads && IsFullLeaf(log, row)
  {
    var live, a := TipLeaves(log[n..], heads), row.account;
    PrunedRows(live, archived);
    TipRows(log[n..], heads, a);
    TipSurvives(log, n, a);
    AccountsOnlyGrow(log, n);
  }

  lemma FullLeafIsMerged(log: seq<Entry>, n: nat, heads: seq<AccountRef>, archived: seq<SealHead>, l: SealHead)
    requires LinksDerive(log) && ArchivedAt(archived, log, n) && Enumerates(heads, LogAccounts(log[n..]))
      && IsFullLeaf(log, l)
    ensures var live := TipLeaves(log[n..], heads); l in WithArchive(live, archived) || l in Pruned(live, archived)
  {
    var live, a := TipLeaves(log[n..], heads), l.account;
    if a in heads {
      var i :| 0 <= i < |heads| && heads[i] == a;
      MergedRowIsFull(log, n, heads, archived, i);
      assert WithArchive(live, archived)[i] == l;
    } else {
      KeptIsLogged(log, n, a);
      TipSurvives(log, n, a);
      var k :| 0 <= k < |archived| && archived[k].account == a;
      assert archived[k] in archived && TrueAt(log, archived[k], n);
      PrunedRows(live, archived);
      TipRows(log[n..], heads, a);
    }
  }

  lemma TipLeafCount(log: seq<Entry>, heads: seq<AccountRef>)
    ensures |TipLeaves(log, heads)| == |heads|
  {
  }

  lemma ArchiveRows(archived: seq<SealHead>, log: seq<Entry>, n: nat)
    requires ArchivedAt(archived, log, n)
    ensures n <= |log| && RowPerAccount(archived)
  {
  }

  lemma MergedRowsAreFull(log: seq<Entry>, n: nat, heads: seq<AccountRef>, archived: seq<SealHead>)
    requires LinksDerive(log) && ArchivedAt(archived, log, n) && Enumerates(heads, LogAccounts(log[n..]))
    ensures var live := TipLeaves(log[n..], heads);
      var merged := WithArchive(live, archived) + Pruned(live, archived);
      RowPerAccount(merged) && forall l :: l in merged <==> IsFullLeaf(log, l)
  {
    hide LogAccounts, LinksDerive, ArchivedAt, IsFullLeaf, TipLeaves;
    ArchiveRows(archived, log, n);
    var live := TipLeaves(log[n..], heads);
    var top, bottom := WithArchive(live, archived), Pruned(live, archived);
    TipLeafCount(log[n..], heads);
    PrunedRows(live, archived);
    forall i | 0 <= i < |top| ensures top[i].account == heads[i] && IsFullLeaf(log, top[i]) {
      assert heads[i] in heads;
      MergedRowIsFull(log, n, heads, archived, i);
    }
    forall l | l in bottom ensures l.account !in heads && IsFullLeaf(log, l) {
      PrunedRowIsFull(log, n, heads, archived, l);
    }
    forall l | IsFullLeaf(log, l) ensures l in top || l in bottom {
      FullLeafIsMerged(log, n, heads, archived, l);
    }
    forall i, j | 0 <= i < |top| && 0 <= j < |bottom| ensures top[i].account != bottom[j].account {
      assert bottom[j] in bottom && heads[i] in heads;
    }
  }

  /**
   Where pruning takes an account out of the heads altogether: the merged leaves, those of the accounts
   that still have postings and those that re-enter from the archive, are together exactly the leaves of
   the whole ledger, each account once.
   */
  lemma MergeRestoresPrunedAccounts(s: State, n: nat, heads: seq<AccountRef>, all: seq<AccountRef>,
      archived: seq<SealHead>)
    requires Ledger.Valid(s) && n <= |s.log| && ArchivedAt(archived, s.log, n)
    requires Enumerates(heads, LogAccounts(s.log[n..])) && Enumerates(all, LogAccounts(s.log))
    ensures var live := TipLeaves(s.log[n..], heads);
      multiset(WithArchive(live, archived) + Pruned(live, archived)) == multiset(Leaves(s, all))
  {
    hide LogAccounts, LinksDerive, ArchivedAt, BalancesDerive, GuardHolds, Storable;
    var live := TipLeaves(s.log[n..], heads);
    MergedRowsAreFull(s.log, n, heads, archived);
    var full := Leaves(s, all);
    forall l ensures l in full <==> IsFullLeaf(s.log, l) {
      if IsFullLeaf(s.log, l) {
        var i :| 0 <= i < |all| && all[i] == l.account;
        assert full[i] == l;
      }
    }
    SameRows(WithArchive(live, archived) + Pruned(live, archived), full);
  }
}
