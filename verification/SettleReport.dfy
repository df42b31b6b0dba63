/**
 What a settle's report says (src/netting.ts `settle`, `replay`), read off the ledger it leaves: how many
 of the session's postings are on it, which movements were rejected and with what fault, and which journal
 was settled.
 */
module SettleReport {
  import opened Ledger
  import opened Recovery
  import opened Settlement
  import opened SettlementProof
  import opened Text

  /** The chunks of the session that the log holds, and the movements replayed one by one. */
  function ChunksOn(log: seq<Entry>, sid: string): set<nat> {
    set k | 0 <= k < |log| && log[k].posting.txnId.ChunkTxn? && log[k].posting.txnId.session == sid ::
      log[k].posting.txnId.index
  }

  function ReplaysOn(log: seq<Entry>, sid: string): set<nat> {
    set k | 0 <= k < |log| && log[k].posting.txnId.ReplayTxn? && log[k].posting.txnId.session == sid ::
      log[k].posting.txnId.seq_
  }

  /** The keys, in journal order, of those of the first n movements that the ledger does not hold. */
  function KeysOff(s: State, sid: string, movements: seq<Movement>, n: nat): seq<string>
    requires n <= |movements|
  {
    if n == 0 then []
    else KeysOff(s, sid, movements, n - 1) + if Posted(s, ReplayTxn(sid, n - 1)) then [] else [movements[n - 1].key]
  }

  function Keys(rejected: seq<Rejection>): seq<string> {
    seq(|rejected|, i requires 0 <= i < |rejected| => rejected[i].key)
  }

  /** The fault is one that the ledger, as it was at some moment up to now, answers that movement with. */
  ghost predicate RefusedFor(s: State, sid: string, movements: seq<Movement>, r: Rejection) {
    exists t: State, q :: RefusedThen(s, t, sid, movements, r, q)
  }

  predicate RefusedThen(s: State, t: State, sid: string, movements: seq<Movement>, r: Rejection, q: int) {
    && 0 <= q < |movements| && movements[q].key == r.key && t.log <= s.log
    && PostEntry(t, MovementPosting(sid, movements[q])) == Err(r.fault)
  }

  ghost predicate AllRefused(s: State, sid: string, movements: seq<Movement>, rejected: seq<Rejection>) {
    forall i :: 0 <= i < |rejected| ==> RefusedFor(s, sid, movements, rejected[i])
  }

  /**
   The report counts the session's postings on the ledger - its chunks, or its movements one by one -
   and lists in order exactly the movements that are not there, over the whole journal.
   */
  ghost predicate ReportIsTrue(report: Report, s: State, sid: string, movements: seq<Movement>) {
    && report.netted == |movements|
    && report.journalHead == (if movements == [] then SessionGenesis else movements[|movements| - 1].hash)
    && match report.mode
       case Netted => report.postings == |ChunksOn(s.log, sid)| && report.rejected == []
       case Replayed =>
         && report.postings == |ReplaysOn(s.log, sid)| == |movements| - |report.rejected|
         && Keys(report.rejected) == KeysOff(s, sid, movements, |movements|)
         && AllRefused(s, sid, movements, report.rejected)
  }

  // ---- Counting --------------------------------------------------------------------------

  function Below(n: nat): (r: set<nat>)
    ensures |r| == n && forall i: nat :: i in r <==> i < n
  {
    if n == 0 then {} else Below(n - 1) + {n - 1}
  }

  lemma {:induction false} LoggedIsCounted(log: seq<Entry>, id: TxnId)
    ensures CountId(log, id) > 0 <==> exists k :: 0 <= k < |log| && log[k].posting.txnId == id
  {
    if log != [] {
      var n := |log| - 1;
      LoggedIsCounted(log[..n], id);
      if k :| 0 <= k < |log| && log[k].posting.txnId == id {
        assert k < n ==> log[..n][k] == log[k];
      }
    }
  }

  lemma ChunksOnLedger(s: State, sid: string, chunks: seq<Chunk>, movements: seq<Movement>)
    requires Inv(s, sid, chunks, movements) && forall i :: 0 <= i < |chunks| ==> Posted(s, ChunkTxn(sid, i))
    ensures |ChunksOn(s.log, sid)| == |chunks|
  {
    forall i: nat ensures i in ChunksOn(s.log, sid) <==> i < |chunks| {
      LoggedIsCounted(s.log, ChunkTxn(sid, i));
      if i in ChunksOn(s.log, sid) {
        var k :| 0 <= k < |s.log| && s.log[k].posting.txnId == ChunkTxn(sid, i);
        assert EntryTagged(s.log[k], sid, chunks, movements);
      }
    }
    assert ChunksOn(s.log, sid) == Below(|chunks|);
  }

  function ReplayedBelow(s: State, sid: string, n: nat): set<nat> {
    set q: nat | q < n && Posted(s, ReplayTxn(sid, q))
  }

  lemma {:induction false} OnPlusOff(s: State, sid: string, movements: seq<Movement>, n: nat)
    requires n <= |movements|
    ensures |ReplayedBelow(s, sid, n)| + |KeysOff(s, sid, movements, n)| == n
  {
    hide ReplayedBelow, Posted;
    if n == 0 {
      NoneBelow(s, sid);
    }
    if n > 0 {
      OnPlusOff(s, sid, movements, n - 1);
      ReplayedOneMore(s, sid, n - 1);
    }
  }

  lemma ReplayedOneMore(s: State, sid: string, n: nat)
    ensures |ReplayedBelow(s, sid, n + 1)| == |ReplayedBelow(s, sid, n)|
      + if Posted(s, ReplayTxn(sid, n)) then 1 else 0
  {
    hide Posted;
    var on := ReplayedBelow(s, sid, n);
    if Posted(s, ReplayTxn(sid, n)) {
      assert ReplayedBelow(s, sid, n + 1) == on + {n};
    } else {
      assert ReplayedBelow(s, sid, n + 1) == on;
    }
  }

  lemma NoneBelow(s: State, sid: string)
    ensures ReplayedBelow(s, sid, 0) == {}
  {
  }

  lemma ReplaysOnLedger(s: State, sid: string, chunks: seq<Chunk>, movements: seq<Movement>)
    requires Inv(s, sid, chunks, movements)
    ensures ReplaysOn(s.log, sid) == ReplayedBelow(s, sid, |movements|)
  {
    forall q: nat ensures q in ReplaysOn(s.log, sid) <==> q in ReplayedBelow(s, sid, |movements|) {
      LoggedIsCounted(s.log, ReplayTxn(sid, q));
      if q in ReplaysOn(s.log, sid) {
        var k :| 0 <= k < |s.log| && s.log[k].posting.txnId == ReplayTxn(sid, q);
        assert EntryTagged(s.log[k], sid, chunks, movements);
      }
    }
  }

  lemma {:induction false} SameKeysOff(s: State, t: State, sid: string, movements: seq<Movement>, n: nat)
    requires n <= |movements|
    requires forall q: nat :: q < n ==> (Posted(s, ReplayTxn(sid, q)) <==> Posted(t, ReplayTxn(sid, q)))
    ensures KeysOff(s, sid, movements, n) == KeysOff(t, sid, movements, n)
  {
    if n > 0 {
      SameKeysOff(s, t, sid, movements, n - 1);
    }
  }

  // ---- The replay ------------------------------------------------------------------------

  lemma {:induction false} OthersOnlyAdd(s: State, ps: seq<Posting>)
    ensures s.log <= PostOthers(s, ps).log
  {
    if ps != [] {
      OthersOnlyAdd(s, ps[..|ps| - 1]);
      var t := PostOthers(s, ps[..|ps| - 1]);
      if PostEntry(t, ps[|ps| - 1]).Ok? {
        PostEntryEffect(t, ps[|ps| - 1]);
      }
    }
  }

  lemma TransactOnlyAdds(w: World, p: Posting)
    ensures w.ledger.log <= Transact(w, p).world.ledger.log
    ensures Transact(w, p).verdict.Refused? ==>
      PostEntry(Transact(w, p).world.ledger, p) == Err(Transact(w, p).verdict.fault)
  {
    if w.lives > 0 {
      OthersOnlyAdd(w.ledger, if w.others == [] then [] else w.others[0]);
      var b := Begin(w);
      if PostEntry(b.ledger, p).Ok? {
        PostEntryEffect(b.ledger, p);
      }
    }
  }

  lemma StillRefused(s: State, t: State, sid: string, movements: seq<Movement>, rejected: seq<Rejection>)
    requires AllRefused(s, sid, movements, rejected) && s.log <= t.log
    ensures AllRefused(t, sid, movements, rejected)
  {
    forall i | 0 <= i < |rejected| ensures RefusedFor(t, sid, movements, rejected[i]) {
      assert RefusedFor(s, sid, movements, rejected[i]);
      var u: State, q :| RefusedThen(s, u, sid, movements, rejected[i], q);
      assert RefusedThen(t, u, sid, movements, rejected[i], q);
    }
  }

  lemma OneMoreRefused(s: State, sid: string, movements: seq<Movement>, rejected: seq<Rejection>, r: Rejection, q: nat)
    requires AllRefused(s, sid, movements, rejected) && RefusedThen(s, s, sid, movements, r, q)
    ensures AllRefused(s, sid, movements, rejected + [r])
  {
    assert RefusedFor(s, sid, movements, r);
  }

  ghost predicate CountedSoFar(r: ReplayState, sid: string, movements: seq<Movement>, k: nat)
    requires k <= |movements|
  {
    && r.postings + |r.rejected| == k && Keys(r.rejected) == KeysOff(r.world.ledger, sid, movements, k)
    && AllRefused(r.world.ledger, sid, movements, r.rejected)
  }

  lemma CountOne(r: ReplayState, sid: string, chunks: seq<Chunk>, movements: seq<Movement>, k: nat)
    requires k < |movements| && WellFormedJournal(movements) && !r.died && Ready(r.world, sid, chunks, movements)
    requires CountedSoFar(r, sid, movements, k)
    ensures var s := Transact(r.world, MovementPosting(sid, movements[k]));
      !s.verdict.Crashed? ==> CountedSoFar(AfterMovement(r, movements[k].key, s), sid, movements, k + 1)
  {
    hide Transact, AllRefused;
    var p := MovementPosting(sid, movements[k]);
    var s := Transact(r.world, p);
    assert movements[k].seq_ == k && WellFormedMovement(movements[k].legs);
    TransactStep(r.world, p, sid, chunks, movements);
    TransactOnlyAdds(r.world, p);
    StillRefused(r.world.ledger, s.world.ledger, sid, movements, r.rejected);
    if !s.verdict.Crashed? {
      forall q: nat | q < k
        ensures Posted(r.world.ledger, ReplayTxn(sid, q)) <==> Posted(s.world.ledger, ReplayTxn(sid, q))
      {
        assert OfSession(ReplayTxn(sid, q), sid);
      }
      assert OfSession(ReplayTxn(sid, k), sid);
      SameKeysOff(r.world.ledger, s.world.ledger, sid, movements, k);
      if s.verdict.Refused? {
        OneMoreRefused(s.world.ledger, sid, movements, r.rejected, Rejection(movements[k].key, s.verdict.fault), k);
      }
    }
  }

  lemma {:induction false} ReplayIsCounted(sid: string, chunks: seq<Chunk>, movements: seq<Movement>, k: nat, w: World)
    requires k <= |movements| && Ready(w, sid, chunks, movements) && WellFormedJournal(movements)
    ensures var r := Replay(sid, movements, k, w); !r.died ==> CountedSoFar(r, sid, movements, k)
  {
    hide Transact, CountedSoFar, Ready, WellFormedJournal, AfterMovement;
    if k == 0 {
      NothingCounted(sid, movements, w);
    } else {
      ReplayIsCounted(sid, chunks, movements, k - 1, w);
      ReplayStaysReady(sid, chunks, movements, k - 1, w);
      var r := Replay(sid, movements, k - 1, w);
      if !r.died {
        CountOne(r, sid, chunks, movements, k - 1);
        CrashKills(r, movements[k - 1].key, Transact(r.world, MovementPosting(sid, movements[k - 1])));
      }
    }
  }

  lemma CrashKills(r: ReplayState, key: string, s: Step)
    ensures AfterMovement(r, key, s).died <==> s.verdict.Crashed?
  {
  }

  lemma NothingCounted(sid: string, movements: seq<Movement>, w: World)
    ensures CountedSoFar(ReplayState(w, 0, [], false), sid, movements, 0)
  {
  }

  lemma ReplayedReport(sid: string, chunks: seq<Chunk>, movements: seq<Movement>, w: World)
    requires movements != [] && Ready(w, sid, chunks, movements) && WellFormedJournal(movements)
    ensures var r := ReplayAll(sid, movements, w);
      r.outcome.Returned? ==> ReportIsTrue(r.outcome.report, r.world.ledger, sid, movements)
  {
    hide Replay, AllRefused;
    var r := Replay(sid, movements, |movements|, w);
    ReplayIsCounted(sid, chunks, movements, |movements|, w);
    ReplayFacts(sid, chunks, movements, |movements|, w);
    ReplaysOnLedger(r.world.ledger, sid, chunks, movements);
    OnPlusOff(r.world.ledger, sid, movements, |movements|);
  }

  // ---- The settle ------------------------------------------------------------------------

  lemma NettedReport(sid: string, chunks: seq<Chunk>, movements: seq<Movement>, w: World)
    requires movements != [] && Ready(w, sid, chunks, movements) && WellFormedJournal(movements)
    ensures var r := SettleNetted(sid, movements, chunks, w);
      r.outcome.Returned? ==> ReportIsTrue(r.outcome.report, r.world.ledger, sid, movements)
  {
    hide PostChunk, ReplayAll;
    var p := PostChunks(sid, chunks, 0, w);
    PostChunksFacts(sid, chunks, movements, 0, w);
    match p.progress
    case Finished =>
      forall i | 0 <= i < |chunks| ensures Posted(p.world.ledger, ChunkTxn(sid, i)) {
        assert OfSession(ChunkTxn(sid, i), sid) && InRange(ChunkTxn(sid, i), sid, false, 0, |chunks|);
      }
      ChunksOnLedger(p.world.ledger, sid, chunks, movements);
    case DiedAt(_) =>
    case RefusedAt(j, _) =>
      CompensateFacts(sid, chunks, movements, j, p.world);
      ReplayedReport(sid, chunks, movements, Compensate(sid, chunks, j, p.world).world);
  }

  lemma EmptyReport(sid: string, chunks: seq<Chunk>, w: World)
    requires chunks == [] && Ready(w, sid, chunks, [])
    ensures ReportIsTrue(Report(Netted, 0, [], SessionGenesis, 0), w.ledger, sid, [])
  {
    ChunksOnLedger(w.ledger, sid, chunks, []);
  }

  /**
   Whatever gets in between, and whichever path a settle takes: the report it returns is true of the
   ledger it leaves.
   */
  lemma SettleReportsTrue(sid: string, movements: seq<Movement>, width: nat, forced: bool, w: World)
    requires WellFormed(movements, width) && Ready(w, sid, Chunks(movements, width), movements)
    ensures var r := Settle(sid, movements, width, forced, w);
      r.outcome.Returned? ==> ReportIsTrue(r.outcome.report, r.world.ledger, sid, movements)
  {
    hide SettleNetted, ReplayAll;
    if movements == [] {
      EmptyReport(sid, Chunks(movements, width), w);
    } else if forced {
      ReplayedReport(sid, Chunks(movements, width), movements, w);
    } else {
      NettedReport(sid, Chunks(movements, width), movements, w);
    }
  }
}
