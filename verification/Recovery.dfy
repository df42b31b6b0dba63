/**
 The main results about settlement. One theorem decides, from the ledger a settle starts on, whether
 its report is exact: under any interleaving, after any number of earlier settles, on a live session
 or a recovered one. The first settle, crash recovery and a second settle are cases of it.
 */
module Recovery {
  import opened Accounts
  import opened Ledger
  import opened Settlement
  import opened SettlementNet
  import opened SettlementProof
  import opened Text

  // ---- Shapes of the session's ledger entries --------------------------------------

  /** Chunk i is on the ledger and has not been undone. */
  predicate Standing(s: State, sid: string, i: nat) {
    Posted(s, ChunkTxn(sid, i)) && !Posted(s, CompTxn(sid, i))
  }

  /** What every settle leaves: only posted chunks are undone, and a standing one has all before it. */
  ghost predicate Resumable(s: State, sid: string, n: nat) {
    && (forall i :: 0 <= i < n && Posted(s, CompTxn(sid, i)) ==> Posted(s, ChunkTxn(sid, i)))
    && (forall i, j :: 0 <= j < i < n && Standing(s, sid, i) ==> Posted(s, ChunkTxn(sid, j)))
  }

  /** Some standing chunk holds an account besides clearing, so that it shows. */
  ghost predicate Stands(s: State, sid: string, chunks: seq<Chunk>) {
    exists i :: 0 <= i < |chunks| && Standing(s, sid, i) && Moves(chunks[i])
  }

  function Chunks(movements: seq<Movement>, width: nat): seq<Chunk>
    requires width > 0
  {
    ChunksOf(Positions(movements), width)
  }

  /** Recovery would replay every movement on top of chunks that still stand. */
  ghost predicate Stranded(s: State, sid: string, movements: seq<Movement>, width: nat)
    requires width > 0
  {
    ReplayForced(s, sid, movements, width) && Stands(s, sid, Chunks(movements, width))
  }

  /** Chunks 0 to k-1 are posted and nothing has been undone or replayed. */
  ghost predicate ForwardTo(s: State, sid: string, n: nat, m: nat, k: nat) {
    && k <= n
    && (forall i :: 0 <= i < n ==> (Posted(s, ChunkTxn(sid, i)) <==> i < k))
    && (forall i :: 0 <= i < n ==> !Posted(s, CompTxn(sid, i)))
    && (forall q :: 0 <= q < m ==> !Posted(s, ReplayTxn(sid, q)))
  }

  /** The window between two compensations: of chunks 0 to k-1, only j to k-1 are undone. */
  ghost predicate HalfUndone(s: State, sid: string, n: nat, j: nat, k: nat) {
    && 0 < j < k <= n
    && (forall i :: 0 <= i < n ==> (Posted(s, ChunkTxn(sid, i)) <==> i < k))
    && (forall i :: 0 <= i < n ==> (Posted(s, CompTxn(sid, i)) <==> j <= i < k))
  }

  ghost predicate MidCompensation(s: State, sid: string, n: nat) {
    exists j: nat, k: nat :: HalfUndone(s, sid, n, j, k)
  }

  // ---- What a report promises -------------------------------------------------------

  /** The legs of exactly the movements a report does not list as rejected, over the first n. */
  function AcceptedTotal(movements: seq<Movement>, rejected: seq<Rejection>, n: nat, a: AccountRef): int
    requires n <= |movements|
  {
    if n == 0 then 0
    else
      AcceptedTotal(movements, rejected, n - 1, a) +
      if IsRejected(rejected, movements[n - 1].key) then 0 else DeltaOf(movements[n - 1].legs, a)
  }

  /** The session moved every account by its accepted movements, each exactly once, and nothing else. */
  ghost predicate Exact(s: State, sid: string, movements: seq<Movement>, rejected: seq<Rejection>) {
    forall a :: Effect(s.log, sid, a) == AcceptedTotal(movements, rejected, |movements|, a)
  }

  /**
   What decides a settle on the netted path: chunks undone earlier are taken for settled, which the
   movements replayed earlier make good only if they move every account alike.
   */
  ghost predicate UndoneIsReplayed(s: State, sid: string, movements: seq<Movement>, width: nat)
    requires width > 0
  {
    forall a :: UndoneMatches(s, sid, movements, Chunks(movements, width), a)
  }

  predicate UndoneMatches(s: State, sid: string, movements: seq<Movement>, chunks: seq<Chunk>, a: AccountRef) {
    Tallied(s.log, sid, chunks, true, |chunks|, a) == ReplayTally(s.log, sid, movements, |movements|, a)
  }

  /** The report is exact if and only if the ledger the settle started on allowed it. */
  ghost predicate ExactWhen(r: Settled, s: State, sid: string, movements: seq<Movement>, width: nat, forced: bool)
    requires width > 0
  {
    r.outcome.Returned? ==>
      (Exact(r.world.ledger, sid, movements, r.outcome.report.rejected) <==>
       if forced then !Stands(s, sid, Chunks(movements, width))
       else r.outcome.report.mode.Replayed? || UndoneIsReplayed(s, sid, movements, width))
  }

  // ---- Tallies of the shapes --------------------------------------------------------

  lemma {:induction false} TallyOfPrefix(s: State, sid: string, chunks: seq<Chunk>, k: nat, n: nat, a: AccountRef)
    requires n <= |chunks|
    requires forall i :: 0 <= i < n ==> (Posted(s, ChunkTxn(sid, i)) <==> i < k)
    ensures Tallied(s.log, sid, chunks, false, n, a) == ChunkTotal(chunks, if k < n then k else n, a)
  {
    hide ChunkDelta;
    if n > 0 {
      TallyOfPrefix(s, sid, chunks, k, n - 1, a);
      assert Posted(s, ChunkTxn(sid, n - 1)) <==> n - 1 < k;
    }
  }

  lemma {:induction false} TallyOfNone(s: State, sid: string, chunks: seq<Chunk>, compensate: bool, n: nat,
      a: AccountRef)
    requires n <= |chunks| && forall i :: 0 <= i < n ==> !Posted(s, ChunkId(sid, i, compensate))
    ensures Tallied(s.log, sid, chunks, compensate, n, a) == 0
  {
    if n > 0 {
      TallyOfNone(s, sid, chunks, compensate, n - 1, a);
      assert !Posted(s, ChunkId(sid, n - 1, compensate));
    }
  }

  lemma {:induction false} ReplayTallyIsAccepted(s: State, sid: string, movements: seq<Movement>,
      rejected: seq<Rejection>, n: nat, a: AccountRef)
    requires n <= |movements| && ReplayedUpTo(s, sid, movements, rejected, |movements|)
    ensures ReplayTally(s.log, sid, movements, n, a) == AcceptedTotal(movements, rejected, n, a)
  {
    if n > 0 {
      ReplayTallyIsAccepted(s, sid, movements, rejected, n - 1, a);
      assert Posted(s, ReplayTxn(sid, n - 1)) <==> !IsRejected(rejected, movements[n - 1].key);
    }
  }

  lemma {:induction false} NoReplayNoTally(s: State, sid: string, movements: seq<Movement>, n: nat, a: AccountRef)
    requires n <= |movements| && forall q :: 0 <= q < n ==> !Posted(s, ReplayTxn(sid, q))
    ensures ReplayTally(s.log, sid, movements, n, a) == 0
  {
    if n > 0 {
      NoReplayNoTally(s, sid, movements, n - 1, a);
      assert !Posted(s, ReplayTxn(sid, n - 1));
    }
  }

  lemma {:induction false} NothingRejected(movements: seq<Movement>, n: nat, a: AccountRef)
    requires n <= |movements|
    ensures AcceptedTotal(movements, [], n, a) == MovementTotal(movements, n, a)
  {
    if n > 0 {
      NothingRejected(movements, n - 1, a);
    }
  }

  ghost predicate WellFormed(movements: seq<Movement>, width: nat) {
    width > 0 && WellFormedJournal(movements)
  }

  function StandingTotal(s: State, sid: string, chunks: seq<Chunk>, n: nat, a: AccountRef): int
    requires n <= |chunks|
  {
    if n == 0 then 0
    else StandingTotal(s, sid, chunks, n - 1, a) + if Standing(s, sid, n - 1) then ChunkDelta(chunks[n - 1], a) else 0
  }

  lemma {:induction false} ResidualIsStanding(s: State, sid: string, chunks: seq<Chunk>, n: nat, a: AccountRef)
    requires n <= |chunks| && Resumable(s, sid, |chunks|)
    ensures Tallied(s.log, sid, chunks, false, n, a) - Tallied(s.log, sid, chunks, true, n, a) ==
      StandingTotal(s, sid, chunks, n, a)
  {
    hide ChunkDelta;
    if n > 0 {
      ResidualIsStanding(s, sid, chunks, n - 1, a);
      assert ChunkId(sid, n - 1, false) == ChunkTxn(sid, n - 1) && ChunkId(sid, n - 1, true) == CompTxn(sid, n - 1);
    }
  }

  lemma {:induction false} IdleChunksStand(s: State, sid: string, chunks: seq<Chunk>, n: nat, a: AccountRef)
    requires n <= |chunks| && !Stands(s, sid, chunks)
    ensures StandingTotal(s, sid, chunks, n, a) == 0
  {
    hide ChunkDelta;
    if n > 0 {
      IdleChunksStand(s, sid, chunks, n - 1, a);
      if Standing(s, sid, n - 1) {
        IdleChunk(chunks[n - 1], a);
      }
    }
  }

  lemma {:induction false} OneChunkStands(s: State, sid: string, movements: seq<Movement>, width: nat, i: nat, x: nat,
      n: nat)
    requires width > 0
    requires var cs := Chunks(movements, width);
      i < |cs| && x < |cs[i]| && n <= |cs| && Standing(s, sid, i) && cs[i][x].account != NETTING_CLEARING
    ensures var cs := Chunks(movements, width);
      StandingTotal(s, sid, cs, n, cs[i][x].account) != 0 <==> i < n
  {
    hide ChunkDelta;
    if n > 0 {
      OneChunkStands(s, sid, movements, width, i, x, n - 1);
      OneChunkMoves(movements, width, i, x, n - 1);
    }
  }

  /** Chunks left standing always show on some account, unless they hold nothing but clearing. */
  lemma StandingChunksShow(s: State, sid: string, movements: seq<Movement>, width: nat)
    requires width > 0 && Resumable(s, sid, |Chunks(movements, width)|)
    ensures (forall a :: Residual(s.log, sid, Chunks(movements, width), a) == 0) <==>
      !Stands(s, sid, Chunks(movements, width))
  {
    var cs := Chunks(movements, width);
    if Stands(s, sid, cs) {
      var i :| 0 <= i < |cs| && Standing(s, sid, i) && Moves(cs[i]);
      var x :| 0 <= x < |cs[i]| && cs[i][x].account != NETTING_CLEARING;
      OneChunkStands(s, sid, movements, width, i, x, |cs|);
      ResidualIsStanding(s, sid, cs, |cs|, cs[i][x].account);
      assert Residual(s.log, sid, cs, cs[i][x].account) != 0;
    } else {
      forall a ensures Residual(s.log, sid, cs, a) == 0 {
        ResidualIsStanding(s, sid, cs, |cs|, a);
        IdleChunksStand(s, sid, cs, |cs|, a);
      }
    }
  }

  /** After a replay the effect is the accepted movements plus whatever chunks were left standing. */
  lemma ReplayedEffect(s: State, sid: string, movements: seq<Movement>, width: nat, rejected: seq<Rejection>,
      a: AccountRef)
    requires WellFormed(movements, width) && Inv(s, sid, Chunks(movements, width), movements)
    requires ReplayedUpTo(s, sid, movements, rejected, |movements|)
    ensures Effect(s.log, sid, a) ==
      AcceptedTotal(movements, rejected, |movements|, a) + Residual(s.log, sid, Chunks(movements, width), a)
  {
    EffectIsTally(s.log, sid, Chunks(movements, width), movements, a);
    ReplayTallyIsAccepted(s, sid, movements, rejected, |movements|, a);
  }

  /** A finished replay is exact if and only if no chunk was left standing. */
  lemma ReplayedIsExactWhen(s: State, sid: string, movements: seq<Movement>, width: nat, rejected: seq<Rejection>)
    requires WellFormed(movements, width) && Inv(s, sid, Chunks(movements, width), movements)
    requires ReplayedUpTo(s, sid, movements, rejected, |movements|) && Resumable(s, sid, |Chunks(movements, width)|)
    ensures Exact(s, sid, movements, rejected) <==> !Stands(s, sid, Chunks(movements, width))
  {
    hide Resumable, Residual, Stands, Inv;
    StandingChunksShow(s, sid, movements, width);
    forall a
      ensures Effect(s.log, sid, a) == AcceptedTotal(movements, rejected, |movements|, a) <==>
        Residual(s.log, sid, Chunks(movements, width), a) == 0
    {
      ReplayedEffect(s, sid, movements, width, rejected, a);
    }
  }

  // ---- Following settle through its phases ------------------------------------------

  lemma SameChunksStandAlike(s: State, t: State, sid: string, chunks: seq<Chunk>)
    requires SameChunks(s, t, sid) && Resumable(s, sid, |chunks|)
    ensures Resumable(t, sid, |chunks|) && (Stands(t, sid, chunks) <==> Stands(s, sid, chunks))
  {
    forall i: nat
      ensures Posted(t, ChunkTxn(sid, i)) <==> Posted(s, ChunkTxn(sid, i))
      ensures Posted(t, CompTxn(sid, i)) <==> Posted(s, CompTxn(sid, i))
      ensures Standing(t, sid, i) <==> Standing(s, sid, i)
    {
      assert Posted(t, ChunkId(sid, i, false)) <==> Posted(s, ChunkId(sid, i, false));
      assert Posted(t, ChunkId(sid, i, true)) <==> Posted(s, ChunkId(sid, i, true));
    }
  }

  /** A replay touches no chunk, and is exact if and only if none stood when it began. */
  ghost predicate ReplayedOver(r: Settled, s: State, sid: string, movements: seq<Movement>, width: nat)
    requires width > 0
  {
    var cs := Chunks(movements, width);
    && Ready(r.world, sid, cs, movements) && Resumable(r.world.ledger, sid, |cs|) && !r.outcome.Threw?
    && (Stands(r.world.ledger, sid, cs) <==> Stands(s, sid, cs))
    && (r.outcome.Returned? ==>
          r.outcome.report.mode.Replayed?
          && (Exact(r.world.ledger, sid, movements, r.outcome.report.rejected) <==> !Stands(s, sid, cs)))
  }

  lemma ReplayAllFrom(sid: string, movements: seq<Movement>, width: nat, w: World)
    requires WellFormed(movements, width) && Ready(w, sid, Chunks(movements, width), movements)
    requires Resumable(w.ledger, sid, |Chunks(movements, width)|)
    ensures ReplayedOver(ReplayAll(sid, movements, w), w.ledger, sid, movements, width)
  {
    hide Transact, Resumable, Stands, Exact;
    var cs := Chunks(movements, width);
    ReplayFacts(sid, cs, movements, |movements|, w);
    var r := Replay(sid, movements, |movements|, w);
    SameChunksStandAlike(w.ledger, r.world.ledger, sid, cs);
    if !r.died {
      ReplayedIsExactWhen(r.world.ledger, sid, movements, width, r.rejected);
    }
  }

  /** Chunks 0 to j-1 are on the ledger. */
  ghost predicate PostedBelow(s: State, sid: string, j: nat) {
    forall i :: 0 <= i < j ==> Posted(s, ChunkTxn(sid, i))
  }

  lemma ForwardResumes(s: State, t: State, sid: string, n: nat, j: nat)
    requires Resumable(s, sid, n) && RangeAdded(s, t, sid, false, 0, j)
    ensures Resumable(t, sid, n) && PostedBelow(t, sid, j)
    ensures forall i :: 0 <= i < n ==> (Posted(t, CompTxn(sid, i)) <==> Posted(s, CompTxn(sid, i)))
    ensures forall q: nat :: Posted(t, ReplayTxn(sid, q)) <==> Posted(s, ReplayTxn(sid, q))
  {
    forall i: nat
      ensures Posted(t, ChunkTxn(sid, i)) <==> Posted(s, ChunkTxn(sid, i)) || i < j
      ensures Posted(t, CompTxn(sid, i)) <==> Posted(s, CompTxn(sid, i))
      ensures Posted(t, ReplayTxn(sid, i)) <==> Posted(s, ReplayTxn(sid, i))
    {
      assert OfSession(ChunkTxn(sid, i), sid) && OfSession(CompTxn(sid, i), sid) && OfSession(ReplayTxn(sid, i), sid);
      assert ChunkId(sid, i, false) == ChunkTxn(sid, i);
    }
    forall i, k | 0 <= k < i < n && Standing(t, sid, i) ensures Posted(t, ChunkTxn(sid, k)) {
      if i >= j {
        assert Standing(s, sid, i);
      }
    }
  }

  lemma UndoingResumes(s: State, t: State, sid: string, n: nat, j: nat, left: nat)
    requires Resumable(s, sid, n) && PostedBelow(s, sid, j) && RangeAdded(s, t, sid, true, left, j) && j < n
    ensures Resumable(t, sid, n)
    ensures left == 0 && !Posted(s, ChunkTxn(sid, j)) ==> forall i :: 0 <= i < n ==> !Standing(t, sid, i)
  {
    forall i: nat
      ensures Posted(t, ChunkTxn(sid, i)) <==> Posted(s, ChunkTxn(sid, i))
      ensures Posted(t, CompTxn(sid, i)) <==> Posted(s, CompTxn(sid, i)) || left <= i < j
    {
      assert OfSession(ChunkTxn(sid, i), sid) && OfSession(CompTxn(sid, i), sid);
      assert ChunkId(sid, i, true) == CompTxn(sid, i);
    }
    forall i | 0 <= i < n && Standing(t, sid, i)
      ensures Standing(s, sid, i) && (left == 0 ==> Posted(s, ChunkTxn(sid, j)))
    {
      assert Standing(s, sid, i);
    }
  }

  /** What a settle from a resumable ledger leaves, whatever happens in it. */
  ghost predicate Decided(r: Settled, s: State, sid: string, movements: seq<Movement>, width: nat, forced: bool)
    requires width > 0
  {
    && Ready(r.world, sid, Chunks(movements, width), movements)
    && Resumable(r.world.ledger, sid, |Chunks(movements, width)|)
    && ExactWhen(r, s, sid, movements, width, forced)
  }

  /** A refused chunk: once all that went in is undone, nothing stands and the replay is exact. */
  lemma FailOverFrom(sid: string, movements: seq<Movement>, width: nat, w: World, j: nat, s: State)
    requires WellFormed(movements, width) && Ready(w, sid, Chunks(movements, width), movements)
    requires j < |Chunks(movements, width)| && Resumable(w.ledger, sid, |Chunks(movements, width)|)
    requires PostedBelow(w.ledger, sid, j) && !Posted(w.ledger, ChunkTxn(sid, j))
    ensures Decided(FailOver(sid, movements, Chunks(movements, width), j, w), s, sid, movements, width, false)
  {
    hide PostChunk, Transact, ReplayAll, Resumable, Exact, PostedBelow;
    var cs := Chunks(movements, width);
    var c := Compensate(sid, cs, j, w);
    CompensateFacts(sid, cs, movements, j, w);
    UndoingResumes(w.ledger, c.world.ledger, sid, |cs|, j, if c.progress.Finished? then 0 else c.progress.index);
    if c.progress.Finished? {
      ReplayAllFrom(sid, movements, width, c.world);
    }
  }

  lemma EffectOf(s: State, sid: string, chunks: seq<Chunk>, movements: seq<Movement>, a: AccountRef)
    requires Inv(s, sid, chunks, movements)
    ensures Effect(s.log, sid, a) ==
      Residual(s.log, sid, chunks, a) + ReplayTally(s.log, sid, movements, |movements|, a)
  {
    EffectIsTally(s.log, sid, chunks, movements, a);
  }

  /**
   All chunks in: the report lists nothing as rejected, and the session has moved every account by the
   full net, less what was undone before, plus what was replayed before.
   */
  lemma NettedEffect(sid: string, movements: seq<Movement>, width: nat, s: State, t: State, a: AccountRef)
    requires WellFormed(movements, width) && Inv(t, sid, Chunks(movements, width), movements)
    requires Resumable(s, sid, |Chunks(movements, width)|)
      && RangeAdded(s, t, sid, false, 0, |Chunks(movements, width)|)
    ensures Effect(t.log, sid, a) ==
      MovementTotal(movements, |movements|, a)
      - Tallied(s.log, sid, Chunks(movements, width), true, |Chunks(movements, width)|, a)
      + ReplayTally(s.log, sid, movements, |movements|, a)
  {
    hide Resumable, ChunkDelta, RangeAdded, Inv;
    var cs := Chunks(movements, width);
    ForwardResumes(s, t, sid, |cs|, |cs|);
    EffectOf(t, sid, cs, movements, a);
    TallyOfPrefix(t, sid, cs, |cs|, |cs|, a);
    ChunksAddUpToNet(movements, width, a);
    SameTally(s, t, sid, cs, |cs|, a);
    SameReplayTally(s, t, sid, movements, |movements|, a);
  }

  lemma NettedIsExactWhen(sid: string, movements: seq<Movement>, width: nat, s: State, t: State)
    requires WellFormed(movements, width) && Inv(t, sid, Chunks(movements, width), movements)
    requires Resumable(s, sid, |Chunks(movements, width)|)
      && RangeAdded(s, t, sid, false, 0, |Chunks(movements, width)|)
    ensures Exact(t, sid, movements, []) <==> UndoneIsReplayed(s, sid, movements, width)
  {
    hide Resumable, RangeAdded, Inv;
    forall a
      ensures Effect(t.log, sid, a) == AcceptedTotal(movements, [], |movements|, a) <==>
        UndoneMatches(s, sid, movements, Chunks(movements, width), a)
    {
      NettedEffect(sid, movements, width, s, t, a);
      NothingRejected(movements, |movements|, a);
    }
  }

  lemma NettedFrom(sid: string, movements: seq<Movement>, width: nat, w: World)
    requires WellFormed(movements, width) && Ready(w, sid, Chunks(movements, width), movements)
    requires Resumable(w.ledger, sid, |Chunks(movements, width)|)
    ensures Decided(SettleNetted(sid, movements, Chunks(movements, width), w), w.ledger, sid, movements, width, false)
  {
    hide PostChunk, Transact, FailOver, Resumable, Exact, UndoneIsReplayed, PostedBelow, RangeAdded;
    var cs := Chunks(movements, width);
    var p := PostChunks(sid, cs, 0, w);
    PostChunksFacts(sid, cs, movements, 0, w);
    ForwardResumes(w.ledger, p.world.ledger, sid, |cs|, if p.progress.Finished? then |cs| else p.progress.index);
    match p.progress
    case Finished =>
      NettedIsExactWhen(sid, movements, width, w.ledger, p.world.ledger);
    case DiedAt(_) =>
    case RefusedAt(j, _) =>
      FailOverFrom(sid, movements, width, p.world, j, w.ledger);
  }

  // ---- The theorem --------------------------------------------------------------------

  /**
   Any settle, from any ledger that settles leave, under any interleaving of other transactions and
   with the process dying anywhere. Nothing of the session is posted twice, and the ledger stays one
   that can be settled again. If it returns, its report is exact - each accepted movement counted
   once, each other one reported rejected - if and only if: for a forced replay, no chunk stood; for
   a netted report, what was undone before is what was replayed before; after a failover, always.
   */
  lemma SettleIsExactWhen(sid: string, movements: seq<Movement>, width: nat, forced: bool, w: World)
    requires WellFormed(movements, width) && Ready(w, sid, Chunks(movements, width), movements)
    requires Resumable(w.ledger, sid, |Chunks(movements, width)|)
    ensures Decided(Settle(sid, movements, width, forced, w), w.ledger, sid, movements, width, forced)
  {
    hide SettleNetted, ReplayAll, Resumable, Exact;
    if movements == [] {
      EmptyJournalIsExact(sid, width, w);
    } else if forced {
      ReplayAllFrom(sid, movements, width, w);
    } else {
      NettedFrom(sid, movements, width, w);
    }
  }

  lemma EmptyJournalIsExact(sid: string, width: nat, w: World)
    requires width > 0 && Ready(w, sid, Chunks([], width), [])
    ensures Exact(w.ledger, sid, [], []) && UndoneIsReplayed(w.ledger, sid, [], width)
    ensures !Stands(w.ledger, sid, Chunks([], width))
  {
    forall a ensures Effect(w.ledger.log, sid, a) == 0 {
      EffectIsTally(w.ledger.log, sid, Chunks([], width), [], a);
    }
  }

  /** One settle of a session: on a live object or a recovered one, with what gets in between. */
  datatype Attempt = Attempt(forced: bool, others: seq<seq<Posting>>, lives: nat)

  ghost predicate AttemptsForeign(attempts: seq<Attempt>, sid: string) {
    forall k :: 0 <= k < |attempts| ==> OthersForeign(attempts[k].others, sid)
  }

  /** The ledger after settling again and again, whatever each settle returned. */
  function AfterAttempts(sid: string, movements: seq<Movement>, width: nat, s: State, attempts: seq<Attempt>): State
    requires width > 0
  {
    if attempts == [] then s
    else
      var last := attempts[|attempts| - 1];
      var before := AfterAttempts(sid, movements, width, s, attempts[..|attempts| - 1]);
      Settle(sid, movements, width, last.forced, World(before, last.others, last.lives)).world.ledger
  }

  /** However often a session is settled, the next settle is again one that the theorem decides. */
  lemma {:induction false} EveryAttemptIsDecided(sid: string, movements: seq<Movement>, width: nat, s: State,
      attempts: seq<Attempt>)
    requires WellFormed(movements, width) && Inv(s, sid, Chunks(movements, width), movements)
    requires Resumable(s, sid, |Chunks(movements, width)|) && AttemptsForeign(attempts, sid)
    ensures var t := AfterAttempts(sid, movements, width, s, attempts);
      Inv(t, sid, Chunks(movements, width), movements) && Resumable(t, sid, |Chunks(movements, width)|)
  {
    hide Settle, Resumable, Inv;
    if attempts != [] {
      var n := |attempts| - 1;
      var last := attempts[n];
      EveryAttemptIsDecided(sid, movements, width, s, attempts[..n]);
      var before := AfterAttempts(sid, movements, width, s, attempts[..n]);
      SettleIsExactWhen(sid, movements, width, last.forced, World(before, last.others, last.lives));
    }
  }

  // ---- The first settle ---------------------------------------------------------------

  lemma ForwardIsNotForced(s: State, sid: string, movements: seq<Movement>, width: nat, k: nat)
    requires WellFormed(movements, width)
    requires ForwardTo(s, sid, |Chunks(movements, width)|, |movements|, k)
    ensures !ReplayForced(s, sid, movements, width)
  {
    forall q | 0 <= q < |movements| ensures !Posted(s, ReplayTxn(sid, movements[q].seq_)) {
      assert movements[q].seq_ == q;
    }
  }

  /** No id of the session is on the ledger yet. */
  ghost predicate Fresh(s: State, sid: string) {
    forall id :: OfSession(id, sid) ==> !Posted(s, id)
  }

  lemma FreshIsResumable(s: State, sid: string, movements: seq<Movement>, width: nat)
    requires WellFormed(movements, width) && Fresh(s, sid)
    ensures Inv(s, sid, Chunks(movements, width), movements)
    ensures ForwardTo(s, sid, |Chunks(movements, width)|, |movements|, 0)
    ensures Resumable(s, sid, |Chunks(movements, width)|) && UndoneIsReplayed(s, sid, movements, width)
    ensures !ReplayForced(s, sid, movements, width)
  {
    var cs := Chunks(movements, width);
    forall k | 0 <= k < |s.log| ensures !OfSession(s.log[k].posting.txnId, sid) {
      LoggedIsPosted(s.log, k);
      assert Posted(s, s.log[k].posting.txnId);
    }
    forall i | 0 <= i < |cs| ensures !Posted(s, ChunkTxn(sid, i)) && !Posted(s, CompTxn(sid, i)) {
      assert OfSession(ChunkTxn(sid, i), sid) && OfSession(CompTxn(sid, i), sid);
    }
    forall q | 0 <= q < |movements| ensures !Posted(s, ReplayTxn(sid, q)) {
      assert OfSession(ReplayTxn(sid, q), sid);
    }
    forall id | OfSession(id, sid) ensures CountId(s.log, id) <= 1 {
      assert !Posted(s, id);
    }
    ForwardIsNotForced(s, sid, movements, width, 0);
    forall a ensures UndoneMatches(s, sid, movements, cs, a) {
      TallyOfNone(s, sid, cs, true, |cs|, a);
      NoReplayNoTally(s, sid, movements, |movements|, a);
    }
  }

  lemma {:induction false} LoggedIsPosted(log: seq<Entry>, k: nat)
    requires k < |log|
    ensures CountId(log, log[k].posting.txnId) > 0
  {
    if k < |log| - 1 {
      LoggedIsPosted(log[..|log| - 1], k);
    }
  }

  /**
   The first settle of a live session: with arbitrary other transactions between its steps, when it
   returns, the session's total effect on every account is the sum of the legs of exactly the
   journaled movements its report does not reject; each netted or replayed id is on the ledger at
   most once; and where no movement touches clearing, the effect on clearing is zero.
   */
  lemma FirstSettleIsExact(sid: string, movements: seq<Movement>, width: nat, w: World)
    requires WellFormed(movements, width) && Fresh(w.ledger, sid) && OthersForeign(w.others, sid)
    ensures var r := Settle(sid, movements, width, false, w);
      && AtMostOnce(r.world.ledger.log, sid)
      && (r.outcome.Returned? ==> Exact(r.world.ledger, sid, movements, r.outcome.report.rejected))
      && (r.outcome.Returned? && NETTING_CLEARING !in AccountsIn(AllLegs(movements)) ==>
            Effect(r.world.ledger.log, sid, NETTING_CLEARING) == 0)
  {
    hide Settle;
    FreshIsResumable(w.ledger, sid, movements, width);
    SettleIsExactWhen(sid, movements, width, false, w);
    var r := Settle(sid, movements, width, false, w);
    if r.outcome.Returned? && NETTING_CLEARING !in AccountsIn(AllLegs(movements)) {
      ClearingUntouched(movements, r.outcome.report.rejected, |movements|);
    }
  }

  lemma {:induction false} ClearingUntouched(movements: seq<Movement>, rejected: seq<Rejection>, n: nat)
    requires n <= |movements| && NETTING_CLEARING !in AccountsIn(AllLegs(movements))
    ensures AcceptedTotal(movements, rejected, n, NETTING_CLEARING) == 0
  {
    if n > 0 {
      ClearingUntouched(movements, rejected, n - 1);
      LegsAreInAll(movements, n - 1);
      UntouchedDelta(movements[n - 1].legs, NETTING_CLEARING);
    }
  }

  lemma {:induction false} LegsAreInAll(movements: seq<Movement>, k: nat)
    requires k < |movements|
    ensures AccountsIn(movements[k].legs) <= AccountsIn(AllLegs(movements))
    decreases |movements|
  {
    var n := |movements| - 1;
    var all, before, last := AllLegs(movements), AllLegs(movements[..n]), movements[n].legs;
    assert all == before + last;
    if k < n {
      LegsAreInAll(movements[..n], k);
      forall a | a in AccountsIn(before) ensures a in AccountsIn(all) {
        var i :| 0 <= i < |before| && before[i].account == a;
        assert all[i].account == a;
      }
    } else {
      forall a | a in AccountsIn(last) ensures a in AccountsIn(all) {
        var i :| 0 <= i < |last| && last[i].account == a;
        assert all[|before| + i].account == a;
      }
    }
  }

  // ---- Recovery -------------------------------------------------------------------------

  /**
   A recovered settle, from any ledger that settles leave: exact if and only if that ledger is not
   stranded, which the ids on it show before the call.
   */
  lemma RecoveredSettleIsExactWhen(sid: string, movements: seq<Movement>, width: nat, w: World)
    requires WellFormed(movements, width) && Ready(w, sid, Chunks(movements, width), movements)
    requires Resumable(w.ledger, sid, |Chunks(movements, width)|)
    ensures var r := Settle(sid, movements, width, ReplayForced(w.ledger, sid, movements, width), w);
      r.outcome.Returned? ==>
        (Exact(r.world.ledger, sid, movements, r.outcome.report.rejected) <==>
          !Stranded(w.ledger, sid, movements, width))
  {
    hide Settle, Resumable, Exact, Stands;
    SettleIsExactWhen(sid, movements, width, ReplayForced(w.ledger, sid, movements, width), w);
    if !ReplayForced(w.ledger, sid, movements, width) {
      UnforcedLeftNothing(w.ledger, sid, movements, width);
    }
  }

  lemma UnforcedLeftNothing(s: State, sid: string, movements: seq<Movement>, width: nat)
    requires WellFormed(movements, width) && !ReplayForced(s, sid, movements, width)
    ensures forall q :: 0 <= q < |movements| ==> !Posted(s, ReplayTxn(sid, q))
    ensures UndoneIsReplayed(s, sid, movements, width)
  {
    var cs := Chunks(movements, width);
    forall q | 0 <= q < |movements| ensures !Posted(s, ReplayTxn(sid, q)) {
      assert movements[q].seq_ == q;
    }
    forall a ensures UndoneMatches(s, sid, movements, cs, a) {
      TallyOfNone(s, sid, cs, true, |cs|, a);
      NoReplayNoTally(s, sid, movements, |movements|, a);
    }
  }

  /** One life of the process: what others post meanwhile, and after how many transactions it dies. */
  datatype Life = Life(others: seq<seq<Posting>>, lives: nat)

  ghost predicate LivesForeign(lives: seq<Life>, sid: string) {
    forall k :: 0 <= k < |lives| ==> OthersForeign(lives[k].others, sid)
  }

  function OneLife(sid: string, movements: seq<Movement>, width: nat, s: State, life: Life): Settled
    requires width > 0
  {
    Settle(sid, movements, width, ReplayForced(s, sid, movements, width), World(s, life.others, life.lives))
  }

  /** Each life recovers from the journal and the ledger alone and settles, until one returns. */
  function Recover(sid: string, movements: seq<Movement>, width: nat, s: State, lives: seq<Life>): Settled
    requires width > 0
    decreases |lives|
  {
    if lives == [] then Settled(World(s, [], 0), Died)
    else
      var r := OneLife(sid, movements, width, s, lives[0]);
      if r.outcome.Returned? || |lives| == 1 then r else Recover(sid, movements, width, r.world.ledger, lives[1..])
  }

  /** A life that died or threw left a stranded ledger, or recovery began on one. */
  ghost predicate SomeLifeStranded(sid: string, movements: seq<Movement>, width: nat, s: State, lives: seq<Life>)
    requires width > 0
    decreases |lives|
  {
    lives != [] &&
    (Stranded(s, sid, movements, width) ||
     var r := OneLife(sid, movements, width, s, lives[0]);
     !r.outcome.Returned? && SomeLifeStranded(sid, movements, width, r.world.ledger, lives[1..]))
  }

  lemma {:induction false} ReplayKeepsReplayed(sid: string, chunks: seq<Chunk>, movements: seq<Movement>, k: nat,
      w: World, q: nat)
    requires k <= |movements| && Ready(w, sid, chunks, movements) && WellFormedJournal(movements)
    requires Posted(w.ledger, ReplayTxn(sid, q))
    ensures Posted(Replay(sid, movements, k, w).world.ledger, ReplayTxn(sid, q))
  {
    hide Transact, Posted, Ready, WellFormedJournal;
    if k > 0 {
      var r := Replay(sid, movements, k - 1, w);
      ReplayKeepsReplayed(sid, chunks, movements, k - 1, w, q);
      ReplayStaysReady(sid, chunks, movements, k - 1, w);
      if !r.died {
        MovementKeepsReplayed(sid, chunks, movements, k - 1, r.world, q);
      }
    }
  }

  lemma ReplayStaysReady(sid: string, chunks: seq<Chunk>, movements: seq<Movement>, k: nat, w: World)
    requires k <= |movements| && Ready(w, sid, chunks, movements) && WellFormedJournal(movements)
    ensures Ready(Replay(sid, movements, k, w).world, sid, chunks, movements)
  {
    ReplayFacts(sid, chunks, movements, k, w);
  }

  lemma MovementKeepsReplayed(sid: string, chunks: seq<Chunk>, movements: seq<Movement>, k: nat, w: World, q: nat)
    requires k < |movements| && Ready(w, sid, chunks, movements) && WellFormedJournal(movements)
    requires Posted(w.ledger, ReplayTxn(sid, q))
    ensures Posted(Transact(w, MovementPosting(sid, movements[k])).world.ledger, ReplayTxn(sid, q))
  {
    hide Transact, Posted, Ready;
    assert movements[k].seq_ == k && WellFormedMovement(movements[k].legs);
    TransactStep(w, MovementPosting(sid, movements[k]), sid, chunks, movements);
    assert OfSession(ReplayTxn(sid, q), sid);
  }

  lemma ReplayStaysForced(sid: string, movements: seq<Movement>, width: nat, w: World)
    requires WellFormed(movements, width) && Ready(w, sid, Chunks(movements, width), movements)
    requires ReplayForced(w.ledger, sid, movements, width)
    ensures ReplayForced(ReplayAll(sid, movements, w).world.ledger, sid, movements, width)
  {
    hide Transact, Replay;
    var cs := Chunks(movements, width);
    var t := Replay(sid, movements, |movements|, w).world.ledger;
    ReplayFacts(sid, cs, movements, |movements|, w);
    if i :| 0 <= i < |cs| && Posted(w.ledger, CompTxn(sid, i)) {
      assert Posted(t, ChunkId(sid, i, true)) <==> Posted(w.ledger, ChunkId(sid, i, true));
    } else {
      var k :| 0 <= k < |movements| && Posted(w.ledger, ReplayTxn(sid, movements[k].seq_));
      ReplayKeepsReplayed(sid, cs, movements, |movements|, w, movements[k].seq_);
    }
  }

  /** What a recovered settle from a stranded ledger leaves: the same chunks standing. */
  lemma StrandedStays(sid: string, movements: seq<Movement>, width: nat, s: State, life: Life)
    requires WellFormed(movements, width) && Inv(s, sid, Chunks(movements, width), movements)
    requires Resumable(s, sid, |Chunks(movements, width)|) && OthersForeign(life.others, sid)
    requires Stranded(s, sid, movements, width)
    ensures Stranded(OneLife(sid, movements, width, s, life).world.ledger, sid, movements, width)
    ensures OneLife(sid, movements, width, s, life) == ReplayAll(sid, movements, World(s, life.others, life.lives))
  {
    hide ReplayAll, SettleNetted, Resumable, Stands, ReplayForced;
    var w := World(s, life.others, life.lives);
    StandsNeedsMovements(s, sid, movements, width);
    ReplayAllFrom(sid, movements, width, w);
    ReplayStaysForced(sid, movements, width, w);
  }

  lemma StandsNeedsMovements(s: State, sid: string, movements: seq<Movement>, width: nat)
    requires width > 0 && Stands(s, sid, Chunks(movements, width))
    ensures movements != []
  {
  }

  /**
   Crash recovery over any number of lives, each ending in a crash between any two transactions or
   in a throw, whatever others post meanwhile: nothing is posted twice, and a report is exact if and
   only if no life began on a stranded ledger.
   */
  lemma {:induction false} RecoveryIsExactUnlessStranded(sid: string, movements: seq<Movement>, width: nat, s: State,
      lives: seq<Life>)
    requires WellFormed(movements, width) && Inv(s, sid, Chunks(movements, width), movements)
    requires LivesForeign(lives, sid) && Resumable(s, sid, |Chunks(movements, width)|)
    ensures var r := Recover(sid, movements, width, s, lives);
      && AtMostOnce(r.world.ledger.log, sid)
      && (r.outcome.Returned? ==>
            (Exact(r.world.ledger, sid, movements, r.outcome.report.rejected) <==>
             !SomeLifeStranded(sid, movements, width, s, lives)))
    decreases |lives|
  {
    hide Settle, Resumable, Exact, Stranded, ReplayForced;
    if lives != [] {
      var w := World(s, lives[0].others, lives[0].lives);
      RecoveredSettleIsExactWhen(sid, movements, width, w);
      SettleIsExactWhen(sid, movements, width, ReplayForced(s, sid, movements, width), w);
      var r := OneLife(sid, movements, width, s, lives[0]);
      if Stranded(s, sid, movements, width) {
        StrandedStays(sid, movements, width, s, lives[0]);
      }
      if !r.outcome.Returned? && |lives| > 1 {
        RecoveryIsExactUnlessStranded(sid, movements, width, r.world.ledger, lives[1..]);
        assert Stranded(s, sid, movements, width) ==>
          SomeLifeStranded(sid, movements, width, r.world.ledger, lives[1..]);
      }
    }
  }

  // ---- Where a stranded ledger comes from -----------------------------------------------

  lemma {:induction false} PostedPrefix(s: State, sid: string, n: nat) returns (k: nat)
    requires forall i, j :: 0 <= j < i < n && Posted(s, ChunkTxn(sid, i)) ==> Posted(s, ChunkTxn(sid, j))
    ensures k <= n && forall i :: 0 <= i < n ==> (Posted(s, ChunkTxn(sid, i)) <==> i < k)
  {
    if n == 0 || Posted(s, ChunkTxn(sid, n - 1)) {
      k := n;
    } else {
      k := PostedPrefix(s, sid, n - 1);
    }
  }

  lemma UnforcedMeansForward(s: State, sid: string, movements: seq<Movement>, width: nat) returns (k: nat)
    requires WellFormed(movements, width) && Resumable(s, sid, |Chunks(movements, width)|)
    requires !ReplayForced(s, sid, movements, width)
    ensures ForwardTo(s, sid, |Chunks(movements, width)|, |movements|, k)
  {
    var n := |Chunks(movements, width)|;
    forall i, j | 0 <= j < i < n && Posted(s, ChunkTxn(sid, i)) ensures Posted(s, ChunkTxn(sid, j)) {
      assert Standing(s, sid, i);
    }
    k := PostedPrefix(s, sid, n);
    UnforcedLeftNothing(s, sid, movements, width);
  }

  /** Posting chunks from the start never leaves the forward shape. */
  lemma StillForward(s: State, t: State, sid: string, n: nat, m: nat, k: nat, j: nat)
    requires ForwardTo(s, sid, n, m, k) && RangeAdded(s, t, sid, false, 0, j) && j <= n
    ensures ForwardTo(t, sid, n, m, if k < j then j else k)
  {
    forall i | 0 <= i < n ensures Posted(t, ChunkTxn(sid, i)) <==> i < (if k < j then j else k) {
      assert OfSession(ChunkTxn(sid, i), sid) && ChunkId(sid, i, false) == ChunkTxn(sid, i);
    }
    forall i | 0 <= i < n ensures !Posted(t, CompTxn(sid, i)) {
      assert OfSession(CompTxn(sid, i), sid);
    }
    forall q | 0 <= q < m ensures !Posted(t, ReplayTxn(sid, q)) {
      assert OfSession(ReplayTxn(sid, q), sid);
    }
  }

  lemma UndoneDownTo(s: State, t: State, sid: string, n: nat, m: nat, k: nat, j: nat)
    requires ForwardTo(s, sid, n, m, k) && RangeAdded(s, t, sid, true, j, k) && j <= k
    ensures 0 < j < k ==> HalfUndone(t, sid, n, j, k)
    ensures j == k ==> ForwardTo(t, sid, n, m, k)
    ensures j == 0 ==> forall i :: 0 <= i < n ==> !Standing(t, sid, i)
  {
    forall i | 0 <= i < n
      ensures Posted(t, ChunkTxn(sid, i)) <==> i < k
      ensures Posted(t, CompTxn(sid, i)) <==> j <= i < k
    {
      assert OfSession(ChunkTxn(sid, i), sid) && OfSession(CompTxn(sid, i), sid);
      assert ChunkId(sid, i, true) == CompTxn(sid, i);
    }
    forall q | 0 <= q < m ensures !Posted(t, ReplayTxn(sid, q)) {
      assert OfSession(ReplayTxn(sid, q), sid);
    }
  }

  lemma SomeChunksSomeMovements(movements: seq<Movement>, width: nat)
    requires width > 0
    ensures movements == [] ==> Chunks(movements, width) == []
  {
  }

  lemma HalfUndoneIsForced(s: State, sid: string, movements: seq<Movement>, width: nat, j: nat, k: nat)
    requires width > 0 && HalfUndone(s, sid, |Chunks(movements, width)|, j, k)
    ensures ReplayForced(s, sid, movements, width) && movements != []
  {
    SomeChunksSomeMovements(movements, width);
    assert Posted(s, CompTxn(sid, j));
  }

  /** Stranded exactly between two compensations, and never on returning. */
  ghost predicate StrandsBetween(r: Settled, sid: string, movements: seq<Movement>, width: nat)
    requires width > 0
  {
    var s := r.world.ledger;
    && (Stranded(s, sid, movements, width) <==>
        MidCompensation(s, sid, |Chunks(movements, width)|) && Stands(s, sid, Chunks(movements, width)))
    && (Stranded(s, sid, movements, width) ==> !r.outcome.Returned?)
  }

  lemma UnforcedDoesNotStrand(r: Settled, sid: string, movements: seq<Movement>, width: nat)
    requires width > 0 && !ReplayForced(r.world.ledger, sid, movements, width)
    ensures StrandsBetween(r, sid, movements, width)
  {
    var n := |Chunks(movements, width)|;
    forall j: nat, k: nat ensures !HalfUndone(r.world.ledger, sid, n, j, k) {
      if HalfUndone(r.world.ledger, sid, n, j, k) {
        HalfUndoneIsForced(r.world.ledger, sid, movements, width, j, k);
      }
    }
  }

  lemma IdleDoesNotStrand(r: Settled, sid: string, movements: seq<Movement>, width: nat)
    requires width > 0 && !Stands(r.world.ledger, sid, Chunks(movements, width))
    ensures StrandsBetween(r, sid, movements, width)
  {
  }

  lemma FailOverStrandsBetween(sid: string, movements: seq<Movement>, width: nat, w: World, j: nat)
    requires WellFormed(movements, width) && Ready(w, sid, Chunks(movements, width), movements)
    requires Resumable(w.ledger, sid, |Chunks(movements, width)|)
    requires ForwardTo(w.ledger, sid, |Chunks(movements, width)|, |movements|, j) && j < |Chunks(movements, width)|
    ensures StrandsBetween(FailOver(sid, movements, Chunks(movements, width), j, w), sid, movements, width)
  {
    hide PostChunk, Transact, ReplayAll, Resumable;
    var cs := Chunks(movements, width);
    var c := Compensate(sid, cs, j, w);
    CompensateFacts(sid, cs, movements, j, w);
    var left := if c.progress.Finished? then 0 else c.progress.index;
    UndoneDownTo(w.ledger, c.world.ledger, sid, |cs|, |movements|, j, left);
    var r := FailOver(sid, movements, cs, j, w);
    if c.progress.Finished? {
      UndoingResumes(w.ledger, c.world.ledger, sid, |cs|, j, 0);
      ReplayAllFrom(sid, movements, width, c.world);
      IdleDoesNotStrand(r, sid, movements, width);
    } else if left == j {
      ForwardIsNotForced(c.world.ledger, sid, movements, width, j);
      UnforcedDoesNotStrand(r, sid, movements, width);
    } else {
      HalfUndoneIsForced(c.world.ledger, sid, movements, width, left, j);
    }
  }

  lemma NettedStrandsBetween(sid: string, movements: seq<Movement>, width: nat, w: World, k: nat)
    requires WellFormed(movements, width) && Ready(w, sid, Chunks(movements, width), movements)
    requires Resumable(w.ledger, sid, |Chunks(movements, width)|)
    requires ForwardTo(w.ledger, sid, |Chunks(movements, width)|, |movements|, k)
    ensures StrandsBetween(SettleNetted(sid, movements, Chunks(movements, width), w), sid, movements, width)
  {
    hide PostChunk, Transact, FailOver, Resumable;
    var cs := Chunks(movements, width);
    var p := PostChunks(sid, cs, 0, w);
    PostChunksFacts(sid, cs, movements, 0, w);
    var j := if p.progress.Finished? then |cs| else p.progress.index;
    StillForward(w.ledger, p.world.ledger, sid, |cs|, |movements|, k, j);
    ForwardResumes(w.ledger, p.world.ledger, sid, |cs|, j);
    if p.progress.RefusedAt? {
      assert k <= j;
      FailOverStrandsBetween(sid, movements, width, p.world, j);
    } else {
      ForwardIsNotForced(p.world.ledger, sid, movements, width, if k < j then j else k);
      UnforcedDoesNotStrand(SettleNetted(sid, movements, cs, w), sid, movements, width);
    }
  }

  /**
   A recovered settle that began on a ledger that is not stranded leaves a stranded one exactly when
   it dies, or throws, after some but not all of its compensations went in - with the posted chunks
   still standing below the undone ones.
   */
  lemma OnlyHalfUndoneStrands(sid: string, movements: seq<Movement>, width: nat, s: State, life: Life)
    requires WellFormed(movements, width) && Inv(s, sid, Chunks(movements, width), movements)
    requires Resumable(s, sid, |Chunks(movements, width)|) && OthersForeign(life.others, sid)
    requires !Stranded(s, sid, movements, width)
    ensures StrandsBetween(OneLife(sid, movements, width, s, life), sid, movements, width)
  {
    hide SettleNetted, ReplayAll, Resumable, StrandsBetween, Stands;
    var w := World(s, life.others, life.lives);
    var r := OneLife(sid, movements, width, s, life);
    if movements == [] {
      EmptyJournalIsExact(sid, width, w);
      IdleDoesNotStrand(r, sid, movements, width);
    } else if ReplayForced(s, sid, movements, width) {
      ReplayAllFrom(sid, movements, width, w);
      IdleDoesNotStrand(r, sid, movements, width);
    } else {
      var k := UnforcedMeansForward(s, sid, movements, width);
      NettedStrandsBetween(sid, movements, width, w, k);
    }
  }

  /** The session moved every account by the same amount on both ledgers. */
  ghost predicate MovesAlike(s: State, t: State, sid: string) {
    forall a :: Effect(s.log, sid, a) == Effect(t.log, sid, a)
  }

  /**
   A run that crashed and was recovered moves every account exactly as one that never crashed, when
   neither reports a rejection - whatever the crash points, and whatever others posted in each.
   */
  lemma RecoveredMatchesUncrashed(sid: string, movements: seq<Movement>, width: nat, s: State, lives: seq<Life>,
      w: World)
    requires WellFormed(movements, width) && Fresh(s, sid) && Fresh(w.ledger, sid)
    requires LivesForeign(lives, sid) && OthersForeign(w.others, sid)
    requires !SomeLifeStranded(sid, movements, width, s, lives)
    requires var r := Recover(sid, movements, width, s, lives); r.outcome.Returned? && r.outcome.report.rejected == []
    requires var u := Settle(sid, movements, width, false, w); u.outcome.Returned? && u.outcome.report.rejected == []
    ensures MovesAlike(Recover(sid, movements, width, s, lives).world.ledger,
      Settle(sid, movements, width, false, w).world.ledger, sid)
  {
    hide Settle, Recover, SomeLifeStranded, Fresh, Resumable;
    FreshIsResumable(s, sid, movements, width);
    RecoveryIsExactUnlessStranded(sid, movements, width, s, lives);
    FirstSettleIsExact(sid, movements, width, w);
  }

  // ---- A second settle on the live session ------------------------------------------

  /**
   Why the lane keeps the first report: a live session whose first settle failed over does not know
   it. Settled again it tries the chunks again. If one is refused again the second report is exact
   too; if all go in, it lists nothing as rejected, and it is exact if and only if what the first
   settle undid is what it replayed.
   */
  lemma SecondSettleIsExactWhen(sid: string, movements: seq<Movement>, width: nat, w: World, others: seq<seq<Posting>>,
      lives: nat)
    requires WellFormed(movements, width) && Fresh(w.ledger, sid)
    requires OthersForeign(w.others, sid) && OthersForeign(others, sid)
    ensures var s := Settle(sid, movements, width, false, w).world.ledger;
      var r := Settle(sid, movements, width, false, World(s, others, lives));
      r.outcome.Returned? ==>
        && (r.outcome.report.mode.Netted? ==> r.outcome.report.rejected == [])
        && (Exact(r.world.ledger, sid, movements, r.outcome.report.rejected) <==>
            r.outcome.report.mode.Replayed? || UndoneIsReplayed(s, sid, movements, width))
  {
    hide Settle, Resumable, Exact, UndoneIsReplayed;
    FreshIsResumable(w.ledger, sid, movements, width);
    SettleIsExactWhen(sid, movements, width, false, w);
    var s := Settle(sid, movements, width, false, w).world.ledger;
    SettleIsExactWhen(sid, movements, width, false, World(s, others, lives));
    NettedRejectsNothing(sid, movements, width, World(s, others, lives));
  }

  /** A first settle that netted leaves nothing undone and nothing replayed. */
  lemma NettedLeavesNoFailover(sid: string, movements: seq<Movement>, width: nat, w: World)
    requires WellFormed(movements, width) && Fresh(w.ledger, sid) && OthersForeign(w.others, sid)
    requires var o := Settle(sid, movements, width, false, w).outcome; o.Returned? && o.report.mode.Netted?
    ensures UndoneIsReplayed(Settle(sid, movements, width, false, w).world.ledger, sid, movements, width)
  {
    hide PostChunk, Compensate, Replay, Positions, ChunksOf, Resumable;
    FreshIsResumable(w.ledger, sid, movements, width);
    if movements != [] {
      var cs := Chunks(movements, width);
      var p := PostChunks(sid, cs, 0, w);
      PostChunksFacts(sid, cs, movements, 0, w);
      StillForward(w.ledger, p.world.ledger, sid, |cs|, |movements|, 0, |cs|);
      ForwardUndidNothing(p.world.ledger, sid, movements, width, |cs|);
    }
  }

  lemma ForwardUndidNothing(s: State, sid: string, movements: seq<Movement>, width: nat, k: nat)
    requires width > 0 && ForwardTo(s, sid, |Chunks(movements, width)|, |movements|, k)
    ensures UndoneIsReplayed(s, sid, movements, width)
  {
    var cs := Chunks(movements, width);
    forall a ensures UndoneMatches(s, sid, movements, cs, a) {
      TallyOfNone(s, sid, cs, true, |cs|, a);
      NoReplayNoTally(s, sid, movements, |movements|, a);
    }
  }

  /** Once a first settle has netted, every further one of the live session is exact. */
  lemma SecondSettleAfterNetted(sid: string, movements: seq<Movement>, width: nat, w: World, others: seq<seq<Posting>>,
      lives: nat)
    requires WellFormed(movements, width) && Fresh(w.ledger, sid)
    requires OthersForeign(w.others, sid) && OthersForeign(others, sid)
    requires var o := Settle(sid, movements, width, false, w).outcome; o.Returned? && o.report.mode.Netted?
    ensures var r :=
      Settle(sid, movements, width, false, World(Settle(sid, movements, width, false, w).world.ledger, others, lives));
      r.outcome.Returned? ==> Exact(r.world.ledger, sid, movements, r.outcome.report.rejected)
  {
    hide Settle, Exact, UndoneIsReplayed;
    NettedLeavesNoFailover(sid, movements, width, w);
    SecondSettleIsExactWhen(sid, movements, width, w, others, lives);
  }

  /** Every chunk that moves something has been undone. */
  ghost predicate AllUndone(s: State, sid: string, chunks: seq<Chunk>) {
    forall i :: 0 <= i < |chunks| && Moves(chunks[i]) ==> Posted(s, CompTxn(sid, i))
  }

  lemma {:induction false} UndoneIsAll(s: State, sid: string, chunks: seq<Chunk>, n: nat, a: AccountRef)
    requires n <= |chunks| && AllUndone(s, sid, chunks)
    ensures Tallied(s.log, sid, chunks, true, n, a) == ChunkTotal(chunks, n, a)
  {
    hide ChunkDelta;
    if n > 0 {
      UndoneIsAll(s, sid, chunks, n - 1, a);
      if !Posted(s, CompTxn(sid, n - 1)) {
        IdleChunk(chunks[n - 1], a);
      }
    }
  }

  lemma {:induction false} KeptChunkShows(s: State, sid: string, movements: seq<Movement>, width: nat, i: nat, x: nat,
      n: nat)
    requires width > 0
    requires var cs := Chunks(movements, width);
      i < |cs| && x < |cs[i]| && n <= |cs| && !Posted(s, CompTxn(sid, i)) && cs[i][x].account != NETTING_CLEARING
    ensures var cs := Chunks(movements, width);
      var a := cs[i][x].account;
      Tallied(s.log, sid, cs, true, n, a) == 0 && (ChunkTotal(cs, n, a) != 0 <==> i < n)
  {
    hide ChunkDelta;
    if n > 0 {
      KeptChunkShows(s, sid, movements, width, i, x, n - 1);
      OneChunkMoves(movements, width, i, x, n - 1);
    }
  }

  /** After a replay that rejected nothing, what is undone is what was replayed exactly if all chunks are undone. */
  lemma ReplayedAllIsUndoneWhen(s: State, sid: string, movements: seq<Movement>, width: nat)
    requires WellFormed(movements, width) && ReplayedUpTo(s, sid, movements, [], |movements|)
    ensures UndoneIsReplayed(s, sid, movements, width) <==> AllUndone(s, sid, Chunks(movements, width))
  {
    hide Tallied, ChunkTotal, ReplayTally, Posted;
    var cs := Chunks(movements, width);
    forall a ensures ReplayTally(s.log, sid, movements, |movements|, a) == ChunkTotal(cs, |cs|, a) {
      ReplayTallyIsAccepted(s, sid, movements, [], |movements|, a);
      NothingRejected(movements, |movements|, a);
      ChunksAddUpToNet(movements, width, a);
    }
    if AllUndone(s, sid, cs) {
      forall a ensures UndoneMatches(s, sid, movements, cs, a) {
        UndoneIsAll(s, sid, cs, |cs|, a);
      }
    } else {
      var i :| 0 <= i < |cs| && Moves(cs[i]) && !Posted(s, CompTxn(sid, i));
      var x :| 0 <= x < |cs[i]| && cs[i][x].account != NETTING_CLEARING;
      KeptChunkShows(s, sid, movements, width, i, x, |cs|);
      assert !UndoneMatches(s, sid, movements, cs, cs[i][x].account);
    }
  }

  /** What a settle that failed over leaves: its replay's outcome on the ledger, and the refused chunk off it. */
  ghost predicate LeftByFailOver(r: Settled, sid: string, movements: seq<Movement>, width: nat)
    requires width > 0
  {
    r.outcome.Returned? && r.outcome.report.mode.Replayed? ==>
      && ReplayedUpTo(r.world.ledger, sid, movements, r.outcome.report.rejected, |movements|)
      && exists j :: 0 <= j < |Chunks(movements, width)| && !Posted(r.world.ledger, ChunkTxn(sid, j))
  }

  lemma FailOverLeaves(sid: string, movements: seq<Movement>, width: nat, w: World, j: nat)
    requires WellFormed(movements, width) && Ready(w, sid, Chunks(movements, width), movements)
    requires j < |Chunks(movements, width)| && !Posted(w.ledger, ChunkTxn(sid, j))
    ensures LeftByFailOver(FailOver(sid, movements, Chunks(movements, width), j, w), sid, movements, width)
  {
    hide PostChunk, Transact, Posted, Positions, ChunksOf;
    var cs := Chunks(movements, width);
    var c := Compensate(sid, cs, j, w);
    CompensateFacts(sid, cs, movements, j, w);
    if c.progress.Finished? {
      ReplayFacts(sid, cs, movements, |movements|, c.world);
      var r := Replay(sid, movements, |movements|, c.world);
      assert OfSession(ChunkTxn(sid, j), sid) && !Posted(c.world.ledger, ChunkTxn(sid, j));
      assert Posted(r.world.ledger, ChunkId(sid, j, false)) <==> Posted(c.world.ledger, ChunkId(sid, j, false));
    }
  }

  lemma SettleLeaves(sid: string, movements: seq<Movement>, width: nat, w: World)
    requires WellFormed(movements, width) && Ready(w, sid, Chunks(movements, width), movements)
    ensures LeftByFailOver(Settle(sid, movements, width, false, w), sid, movements, width)
  {
    hide PostChunk, Transact, FailOver, Positions, ChunksOf, LeftByFailOver;
    var cs := Chunks(movements, width);
    if movements == [] {
      NothingFailsOver(sid, width, w);
    } else {
      var p := PostChunks(sid, cs, 0, w);
      PostChunksFacts(sid, cs, movements, 0, w);
      if p.progress.RefusedAt? {
        FailOverLeaves(sid, movements, width, p.world, p.progress.index);
      } else {
        NotReplayed(SettleNetted(sid, movements, cs, w), sid, movements, width);
      }
    }
  }

  lemma NothingFailsOver(sid: string, width: nat, w: World)
    requires width > 0
    ensures LeftByFailOver(Settle(sid, [], width, false, w), sid, [], width)
  {
  }

  lemma NotReplayed(r: Settled, sid: string, movements: seq<Movement>, width: nat)
    requires width > 0 && !(r.outcome.Returned? && r.outcome.report.mode.Replayed?)
    ensures LeftByFailOver(r, sid, movements, width)
  {
  }

  /**
   Once a first settle has replayed everything, a netted second report is exact if and only if every chunk
   that moves something was undone - which the refused chunk was not, so that it never is where no
   movement touches clearing.
   */
  lemma SecondSettleAfterReplayed(sid: string, movements: seq<Movement>, width: nat, w: World,
      others: seq<seq<Posting>>,
      lives: nat)
    requires WellFormed(movements, width) && Fresh(w.ledger, sid)
    requires OthersForeign(w.others, sid) && OthersForeign(others, sid)
    requires var o := Settle(sid, movements, width, false, w).outcome;
      o.Returned? && o.report.mode.Replayed? && o.report.rejected == []
    ensures var s := Settle(sid, movements, width, false, w).world.ledger;
      var r := Settle(sid, movements, width, false, World(s, others, lives));
      r.outcome.Returned? && r.outcome.report.mode.Netted? ==>
        && (Exact(r.world.ledger, sid, movements, []) <==> AllUndone(s, sid, Chunks(movements, width)))
        && (NETTING_CLEARING !in AccountsIn(AllLegs(movements)) ==> !Exact(r.world.ledger, sid, movements, []))
  {
    hide Settle, Exact, UndoneIsReplayed, Positions, ChunksOf, AllUndone;
    FreshIsResumable(w.ledger, sid, movements, width);
    SettleLeaves(sid, movements, width, w);
    SettleIsExactWhen(sid, movements, width, false, w);
    var s := Settle(sid, movements, width, false, w).world.ledger;
    ReplayedAllIsUndoneWhen(s, sid, movements, width);
    SecondSettleIsExactWhen(sid, movements, width, w, others, lives);
    if NETTING_CLEARING !in AccountsIn(AllLegs(movements)) {
      var j :| 0 <= j < |Chunks(movements, width)| && !Posted(s, ChunkTxn(sid, j));
      ChunksMove(movements, width, j);
      NotAllUndone(s, sid, Chunks(movements, width), j);
    }
  }

  lemma NotAllUndone(s: State, sid: string, chunks: seq<Chunk>, j: nat)
    requires j < |chunks| && Moves(chunks[j]) && !Posted(s, ChunkTxn(sid, j)) && Resumable(s, sid, |chunks|)
    ensures !AllUndone(s, sid, chunks)
  {
  }

  lemma NettedRejectsNothing(sid: string, movements: seq<Movement>, width: nat, w: World)
    requires width > 0
    ensures var r := Settle(sid, movements, width, false, w);
      r.outcome.Returned? && r.outcome.report.mode.Netted? ==> r.outcome.report.rejected == []
  {
    hide PostChunks, Compensate, Replay;
  }

  lemma {:induction false} SameTally(s: State, t: State, sid: string, chunks: seq<Chunk>, n: nat, a: AccountRef)
    requires n <= |chunks| && forall i :: 0 <= i < n ==> (Posted(t, CompTxn(sid, i)) <==> Posted(s, CompTxn(sid, i)))
    ensures Tallied(t.log, sid, chunks, true, n, a) == Tallied(s.log, sid, chunks, true, n, a)
  {
    hide ChunkDelta;
    if n > 0 {
      SameTally(s, t, sid, chunks, n - 1, a);
      assert Posted(t, CompTxn(sid, n - 1)) <==> Posted(s, CompTxn(sid, n - 1));
    }
  }

  lemma {:induction false} SameReplayTally(s: State, t: State, sid: string, movements: seq<Movement>, n: nat,
      a: AccountRef)
    requires n <= |movements| && forall q :: 0 <= q < n ==>
      (Posted(t, ReplayTxn(sid, q)) <==> Posted(s, ReplayTxn(sid, q)))
    ensures ReplayTally(t.log, sid, movements, n, a) == ReplayTally(s.log, sid, movements, n, a)
  {
    if n > 0 {
      SameReplayTally(s, t, sid, movements, n - 1, a);
      assert Posted(t, ReplayTxn(sid, n - 1)) <==> Posted(s, ReplayTxn(sid, n - 1));
    }
  }

  /** Attempts go on from the ledger the ones before them left. */
  lemma AttemptsGoOn(sid: string, movements: seq<Movement>, width: nat, s: State, attempts: seq<Attempt>, next: Attempt)
    requires width > 0
    ensures AfterAttempts(sid, movements, width, s, []) == s
    ensures var t := AfterAttempts(sid, movements, width, s, attempts);
      AfterAttempts(sid, movements, width, s, attempts + [next]) ==
        Settle(sid, movements, width, next.forced, World(t, next.others, next.lives)).world.ledger
  {
    hide Settle;
    assert (attempts + [next])[..|attempts|] == attempts;
  }

  /** Recovery goes on from the ledger a life left, until one returns or none is left. */
  lemma RecoverGoesOn(sid: string, movements: seq<Movement>, width: nat, s: State, life: Life, lives: seq<Life>)
    requires width > 0
    ensures var r := Settle(sid, movements, width, ReplayForced(s, sid, movements, width),
        World(s, life.others, life.lives));
      Recover(sid, movements, width, s, [life] + lives) ==
        if r.outcome.Returned? || lives == [] then r else Recover(sid, movements, width, r.world.ledger, lives)
  {
    hide Settle, ReplayForced;
    assert ([life] + lives)[1..] == lives;
  }
}
