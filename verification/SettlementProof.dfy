/**
 What settling a session does to the ledger, whatever else is posted in between and wherever the
 process dies. The session's own log entries are tallied by id, and the tally is followed through
 chunks, compensations and replayed movements.
 */
module SettlementProof {
  import opened Accounts
  import opened Ledger
  import opened Money
  import opened Settlement
  import opened Text

  // ---- The session's entries in the log -------------------------------------------

  predicate OfSession(id: TxnId, sid: string) {
    match id
    case ChunkTxn(s, _) => s == sid
    case CompTxn(s, _) => s == sid
    case ReplayTxn(s, _) => s == sid
    case OtherTxn(_) => false
  }

  /** The session's total effect on one account: the legs of all its log entries. */
  function Effect(log: seq<Entry>, sid: string, a: AccountRef): int {
    if log == [] then 0
    else
      var p := log[|log| - 1].posting;
      Effect(log[..|log| - 1], sid, a) + if OfSession(p.txnId, sid) then DeltaOf(p.legs, a) else 0
  }

  predicate Foreign(ps: seq<Posting>, sid: string) {
    forall i :: 0 <= i < |ps| ==> !OfSession(ps[i].txnId, sid)
  }

  /** Nobody else posts under this session's ids. */
  predicate OthersForeign(others: seq<seq<Posting>>, sid: string) {
    forall k :: 0 <= k < |others| ==> Foreign(others[k], sid)
  }

  function LegsFor(sid: string, chunks: seq<Chunk>, movements: seq<Movement>, id: TxnId): Option<seq<Leg>> {
    match id
    case ChunkTxn(s, i) => if s == sid && i < |chunks| then Some(ChunkLegs(chunks[i], false)) else None
    case CompTxn(s, i) => if s == sid && i < |chunks| then Some(ChunkLegs(chunks[i], true)) else None
    case ReplayTxn(s, k) => if s == sid && k < |movements| then Some(movements[k].legs) else None
    case OtherTxn(_) => None
  }

  ghost predicate SameEffect(legs: seq<Leg>, legs': seq<Leg>) {
    forall a :: DeltaOf(legs, a) == DeltaOf(legs', a)
  }

  /** Every entry of the session is one of its chunks, compensations or movements. */
  ghost predicate Tagged(log: seq<Entry>, sid: string, chunks: seq<Chunk>, movements: seq<Movement>) {
    forall k :: 0 <= k < |log| && OfSession(log[k].posting.txnId, sid) ==>
      EntryTagged(log[k], sid, chunks, movements)
  }

  ghost predicate EntryTagged(e: Entry, sid: string, chunks: seq<Chunk>, movements: seq<Movement>) {
    var legs := LegsFor(sid, chunks, movements, e.posting.txnId);
    legs.Some? && LegsFit(legs.value) && SameEffect(e.posting.legs, legs.value)
  }

  /** Nothing of the session is posted twice. */
  ghost predicate AtMostOnce(log: seq<Entry>, sid: string) {
    forall id :: OfSession(id, sid) ==> CountId(log, id) <= 1
  }

  ghost predicate Inv(s: State, sid: string, chunks: seq<Chunk>, movements: seq<Movement>) {
    Tagged(s.log, sid, chunks, movements) && AtMostOnce(s.log, sid)
  }

  lemma CountSnoc(log: seq<Entry>, e: Entry, id: TxnId)
    ensures CountId(log + [e], id) == CountId(log, id) + if e.posting.txnId == id then 1 else 0
  {
    assert (log + [e])[..|log|] == log;
  }

  lemma EffectSnoc(log: seq<Entry>, e: Entry, sid: string, a: AccountRef)
    ensures Effect(log + [e], sid, a) ==
      Effect(log, sid, a) + if OfSession(e.posting.txnId, sid) then DeltaOf(e.posting.legs, a) else 0
  {
    assert (log + [e])[..|log|] == log;
  }

  // ---- The tally ------------------------------------------------------------------

  function ChunkDelta(chunk: Chunk, a: AccountRef): int {
    DeltaOf(ChunkLegs(chunk, false), a)
  }

  /** The deltas of the chunks whose posting (or compensation) is in the log, over the first n. */
  function Tallied(log: seq<Entry>, sid: string, chunks: seq<Chunk>, compensate: bool, n: nat, a: AccountRef): int
    requires n <= |chunks|
  {
    if n == 0 then 0
    else
      Tallied(log, sid, chunks, compensate, n - 1, a) +
      if CountId(log, ChunkId(sid, n - 1, compensate)) > 0 then ChunkDelta(chunks[n - 1], a) else 0
  }

  /** Posted chunks less posted compensations: what the netted path has left on the ledger. */
  function Residual(log: seq<Entry>, sid: string, chunks: seq<Chunk>, a: AccountRef): int {
    Tallied(log, sid, chunks, false, |chunks|, a) - Tallied(log, sid, chunks, true, |chunks|, a)
  }

  /** Replayed movements, over the first n. */
  function ReplayTally(log: seq<Entry>, sid: string, movements: seq<Movement>, n: nat, a: AccountRef): int
    requires n <= |movements|
  {
    if n == 0 then 0
    else
      ReplayTally(log, sid, movements, n - 1, a)
      + if CountId(log, ReplayTxn(sid, n - 1)) > 0 then DeltaOf(movements[n - 1].legs, a) else 0
  }

  lemma {:induction false} NegatedParticipants(chunk: Chunk, a: AccountRef)
    ensures DeltaOf(ParticipantLegs(chunk, true), a) == -DeltaOf(ParticipantLegs(chunk, false), a)
  {
    if chunk != [] {
      var n := |chunk| - 1;
      NegatedParticipants(chunk[..n], a);
      DeltaSnoc(ParticipantLegs(chunk[..n], true), Leg(chunk[n].account, CREDIT, -chunk[n].minor), a);
      DeltaSnoc(ParticipantLegs(chunk[..n], false), Leg(chunk[n].account, CREDIT, chunk[n].minor), a);
    }
  }

  lemma ChunkLegsDelta(chunk: Chunk, compensate: bool, a: AccountRef)
    ensures DeltaOf(ChunkLegs(chunk, compensate), a) ==
      DeltaOf(ParticipantLegs(chunk, compensate), a) +
      if a == NETTING_CLEARING then Side(SumOf(chunk), compensate) else 0
  {
    var legs := ParticipantLegs(chunk, compensate);
    if SumOf(chunk) != 0 {
      DeltaSnoc(legs, Leg(NETTING_CLEARING, CREDIT, Side(-SumOf(chunk), compensate)), a);
    } else {
      assert ChunkLegs(chunk, compensate) == legs;
    }
  }

  /** A compensation moves every account, clearing included, by exactly the opposite of its chunk. */
  lemma CompensationIsOpposite(chunk: Chunk, a: AccountRef)
    ensures DeltaOf(ChunkLegs(chunk, true), a) == -ChunkDelta(chunk, a)
  {
    NegatedParticipants(chunk, a);
    ChunkLegsDelta(chunk, true, a);
    ChunkLegsDelta(chunk, false, a);
  }

  lemma {:induction false} TalliedStep(log: seq<Entry>, e: Entry, sid: string, chunks: seq<Chunk>, compensate: bool,
      n: nat, a: AccountRef)
    requires n <= |chunks| && (OfSession(e.posting.txnId, sid) ==> CountId(log, e.posting.txnId) == 0)
    ensures Tallied(log + [e], sid, chunks, compensate, n, a) == Tallied(log, sid, chunks, compensate, n, a) +
      if TalliesIn(e.posting.txnId, sid, compensate, n) then ChunkDelta(chunks[e.posting.txnId.index], a) else 0
  {
    hide ChunkDelta;
    if n > 0 {
      TalliedStep(log, e, sid, chunks, compensate, n - 1, a);
      CountSnoc(log, e, ChunkId(sid, n - 1, compensate));
    }
  }

  predicate TalliesIn(id: TxnId, sid: string, compensate: bool, n: nat) {
    (id.ChunkTxn? || id.CompTxn?) && id.index < n && id == ChunkId(sid, id.index, compensate)
  }

  lemma {:induction false} ReplayStep(log: seq<Entry>, e: Entry, sid: string, movements: seq<Movement>, n: nat,
      a: AccountRef)
    requires n <= |movements| && (OfSession(e.posting.txnId, sid) ==> CountId(log, e.posting.txnId) == 0)
    ensures ReplayTally(log + [e], sid, movements, n, a) == ReplayTally(log, sid, movements, n, a) +
      match e.posting.txnId
      case ReplayTxn(s, k) => if s == sid && k < n then DeltaOf(movements[k].legs, a) else 0
      case _ => 0
  {
    if n > 0 {
      ReplayStep(log, e, sid, movements, n - 1, a);
      CountSnoc(log, e, ReplayTxn(sid, n - 1));
    }
  }

  lemma InvPrefix(log: seq<Entry>, sid: string, chunks: seq<Chunk>, movements: seq<Movement>)
    requires |log| > 0 && Tagged(log, sid, chunks, movements) && AtMostOnce(log, sid)
    ensures var init := log[..|log| - 1];
      Tagged(init, sid, chunks, movements) && AtMostOnce(init, sid)
    ensures var e := log[|log| - 1];
      OfSession(e.posting.txnId, sid) ==> CountId(log[..|log| - 1], e.posting.txnId) == 0
  {
    var init, e := log[..|log| - 1], log[|log| - 1];
    assert log == init + [e];
    forall id | OfSession(id, sid) ensures CountId(init, id) <= 1 {
      CountSnoc(init, e, id);
    }
    if OfSession(e.posting.txnId, sid) {
      CountSnoc(init, e, e.posting.txnId);
      assert CountId(log, e.posting.txnId) <= 1;
    }
  }

  /** The log's session effect is the tally of which chunks, compensations and movements are in it. */
  lemma {:induction false} EffectIsTally(log: seq<Entry>, sid: string, chunks: seq<Chunk>, movements: seq<Movement>,
      a: AccountRef)
    requires Tagged(log, sid, chunks, movements) && AtMostOnce(log, sid)
    ensures Effect(log, sid, a) ==
      Residual(log, sid, chunks, a) + ReplayTally(log, sid, movements, |movements|, a)
  {
    if log == [] {
      NoTally(sid, chunks, false, |chunks|, a);
      NoTally(sid, chunks, true, |chunks|, a);
      NoReplays(sid, movements, |movements|, a);
    } else {
      var n := |log| - 1;
      var init, e := log[..n], log[n];
      InvPrefix(log, sid, chunks, movements);
      EffectIsTally(init, sid, chunks, movements, a);
      assert log == init + [e];
      EffectSnoc(init, e, sid, a);
      ReplayStep(init, e, sid, movements, |movements|, a);
      TalliedStep(init, e, sid, chunks, false, |chunks|, a);
      TalliedStep(init, e, sid, chunks, true, |chunks|, a);
      if OfSession(e.posting.txnId, sid) {
        assert EntryTagged(log[n], sid, chunks, movements);
        if e.posting.txnId.CompTxn? {
          CompensationIsOpposite(chunks[e.posting.txnId.index], a);
        }
      }
    }
  }

  lemma {:induction false} NoTally(sid: string, chunks: seq<Chunk>, compensate: bool, n: nat, a: AccountRef)
    requires n <= |chunks|
    ensures Tallied([], sid, chunks, compensate, n, a) == 0
  {
    if n > 0 {
      NoTally(sid, chunks, compensate, n - 1, a);
    }
  }

  lemma {:induction false} NoReplays(sid: string, movements: seq<Movement>, m: nat, a: AccountRef)
    requires m <= |movements|
    ensures ReplayTally([], sid, movements, m, a) == 0
  {
    if m > 0 {
      NoReplays(sid, movements, m - 1, a);
    }
  }

  // ---- One transaction ------------------------------------------------------------

  ghost predicate SamePosted(s: State, t: State, sid: string) {
    forall id :: OfSession(id, sid) ==> (Posted(t, id) <==> Posted(s, id))
  }

  ghost predicate PostedPlus(s: State, t: State, sid: string, new_: TxnId) {
    forall id :: OfSession(id, sid) ==> (Posted(t, id) <==> Posted(s, id) || id == new_)
  }

  lemma ForeignEntry(s: State, t: State, e: Entry, sid: string, chunks: seq<Chunk>, movements: seq<Movement>)
    requires Inv(s, sid, chunks, movements) && t.log == s.log + [e] && !OfSession(e.posting.txnId, sid)
    ensures Inv(t, sid, chunks, movements) && SamePosted(s, t, sid)
  {
    forall id | OfSession(id, sid) ensures CountId(t.log, id) == CountId(s.log, id) {
      CountSnoc(s.log, e, id);
    }
  }

  lemma OwnEntry(s: State, t: State, e: Entry, sid: string, chunks: seq<Chunk>, movements: seq<Movement>)
    requires Inv(s, sid, chunks, movements) && t.log == s.log + [e]
    requires OfSession(e.posting.txnId, sid) && !Posted(s, e.posting.txnId) && EntryTagged(e, sid, chunks, movements)
    ensures Inv(t, sid, chunks, movements) && PostedPlus(s, t, sid, e.posting.txnId)
  {
    forall id | OfSession(id, sid)
      ensures CountId(t.log, id) == CountId(s.log, id) + if id == e.posting.txnId then 1 else 0
    {
      CountSnoc(s.log, e, id);
    }
  }

  lemma PostedEntry(s: State, p: Posting)
    requires PostEntry(s, p).Ok?
    ensures var t := PostEntry(s, p).value;
      |t.log| == |s.log| + 1 && t.log == s.log + [t.log[|s.log|]]
      && t.log[|s.log|].posting.txnId == p.txnId && SameEffect(t.log[|s.log|].posting.legs, p.legs)
  {
    PostEntryEffect(s, p);
    forall a ensures DeltaOf(DropZero(p.legs), a) == DeltaOf(p.legs, a) {
      DropZeroDelta(p.legs, a);
    }
  }

  lemma {:induction false} OthersKeep(s: State, ps: seq<Posting>, sid: string, chunks: seq<Chunk>,
      movements: seq<Movement>)
    requires Inv(s, sid, chunks, movements) && Foreign(ps, sid)
    ensures Inv(PostOthers(s, ps), sid, chunks, movements) && SamePosted(s, PostOthers(s, ps), sid)
  {
    if ps != [] {
      var n := |ps| - 1;
      OthersKeep(s, ps[..n], sid, chunks, movements);
      var t := PostOthers(s, ps[..n]);
      if PostEntry(t, ps[n]).Ok? {
        PostedEntry(t, ps[n]);
        var u := PostEntry(t, ps[n]).value;
        ForeignEntry(t, u, u.log[|t.log|], sid, chunks, movements);
      }
    }
  }

  /** A world in which this session can take steps. */
  ghost predicate Ready(w: World, sid: string, chunks: seq<Chunk>, movements: seq<Movement>) {
    Inv(w.ledger, sid, chunks, movements) && OthersForeign(w.others, sid)
  }

  lemma BeginKeeps(w: World, sid: string, chunks: seq<Chunk>, movements: seq<Movement>)
    requires Ready(w, sid, chunks, movements) && w.lives > 0
    ensures Ready(Begin(w), sid, chunks, movements) && SamePosted(w.ledger, Begin(w).ledger, sid)
  {
    OthersKeep(w.ledger, if w.others == [] then [] else w.others[0], sid, chunks, movements);
  }

  ghost predicate PostingTagged(p: Posting, sid: string, chunks: seq<Chunk>, movements: seq<Movement>) {
    OfSession(p.txnId, sid) && LegsFor(sid, chunks, movements, p.txnId) == Some(p.legs) && LegsFit(p.legs)
  }

  /** Done: the id is in the log, once. Refused or crashed: nothing of the session was added. */
  lemma TransactStep(w: World, p: Posting, sid: string, chunks: seq<Chunk>, movements: seq<Movement>)
    requires Ready(w, sid, chunks, movements) && PostingTagged(p, sid, chunks, movements)
    ensures var Step(w1, v) := Transact(w, p);
      && Ready(w1, sid, chunks, movements)
      && (v.Done? ==> PostedPlus(w.ledger, w1.ledger, sid, p.txnId))
      && (!v.Done? ==> SamePosted(w.ledger, w1.ledger, sid))
      && (v.Refused? ==> !Posted(w.ledger, p.txnId))
  {
    if w.lives > 0 {
      BeginKeeps(w, sid, chunks, movements);
      var b := Begin(w);
      if !Posted(b.ledger, p.txnId) && PostEntry(b.ledger, p).Ok? {
        PostedEntry(b.ledger, p);
        var t := PostEntry(b.ledger, p).value;
        OwnEntry(b.ledger, t, t.log[|b.ledger.log|], sid, chunks, movements);
      }
    }
  }

  lemma {:induction false} PostedIsLogged(log: seq<Entry>, id: TxnId) returns (k: nat)
    requires CountId(log, id) > 0
    ensures k < |log| && log[k].posting.txnId == id
  {
    k := |log| - 1;
    if log[k].posting.txnId != id {
      k := PostedIsLogged(log[..k], id);
    }
  }

  lemma PostedChunkFits(s: State, sid: string, chunks: seq<Chunk>, movements: seq<Movement>, i: nat, compensate: bool)
    requires Inv(s, sid, chunks, movements) && i < |chunks|
    ensures Posted(s, ChunkId(sid, i, compensate)) ==> LegsFit(ChunkLegs(chunks[i], compensate))
  {
    if Posted(s, ChunkId(sid, i, compensate)) {
      var k := PostedIsLogged(s.log, ChunkId(sid, i, compensate));
      assert EntryTagged(s.log[k], sid, chunks, movements);
    }
  }

  lemma PostChunkStep(w: World, i: nat, compensate: bool, sid: string, chunks: seq<Chunk>, movements: seq<Movement>)
    requires Ready(w, sid, chunks, movements) && i < |chunks|
    ensures var Step(w1, v) := PostChunk(sid, chunks[i], i, compensate, w);
      && Ready(w1, sid, chunks, movements)
      && (v.Done? ==> PostedPlus(w.ledger, w1.ledger, sid, ChunkId(sid, i, compensate)))
      && (!v.Done? ==> SamePosted(w.ledger, w1.ledger, sid))
      && (v.Refused? ==> !Posted(w.ledger, ChunkId(sid, i, compensate)))
  {
    if LegsFit(ChunkLegs(chunks[i], compensate)) {
      TransactStep(w, ChunkPosting(sid, chunks[i], i, compensate), sid, chunks, movements);
    } else {
      PostedChunkFits(w.ledger, sid, chunks, movements, i, compensate);
    }
  }

  // ---- The three loops ------------------------------------------------------------

  /** Of the session's ids, exactly chunks (or compensations) i to j-1 were added. */
  ghost predicate RangeAdded(s: State, t: State, sid: string, compensate: bool, i: nat, j: nat) {
    forall id :: OfSession(id, sid) ==>
      (Posted(t, id) <==> Posted(s, id) || InRange(id, sid, compensate, i, j))
  }

  predicate InRange(id: TxnId, sid: string, compensate: bool, i: nat, j: nat) {
    (id.ChunkTxn? || id.CompTxn?) && i <= id.index < j && id == ChunkId(sid, id.index, compensate)
  }

  lemma NothingAdded(s: State, t: State, sid: string, compensate: bool, i: nat)
    requires SamePosted(s, t, sid)
    ensures RangeAdded(s, t, sid, compensate, i, i)
  {
  }

  lemma AddedBelow(s: State, t: State, u: State, sid: string, compensate: bool, i: nat, j: nat)
    requires PostedPlus(s, t, sid, ChunkId(sid, i, compensate)) && RangeAdded(t, u, sid, compensate, i + 1, j) && i < j
    ensures RangeAdded(s, u, sid, compensate, i, j)
  {
  }

  lemma AddedAbove(s: State, t: State, u: State, sid: string, compensate: bool, i: nat, j: nat)
    requires PostedPlus(s, t, sid, ChunkId(sid, j, compensate)) && RangeAdded(t, u, sid, compensate, i, j) && i <= j
    ensures RangeAdded(s, u, sid, compensate, i, j + 1)
  {
  }

  /** Chunks i and up went in until the one named; a refused one is not on the ledger. */
  ghost predicate ChunksWentIn(w: World, t: World, p: Progress, sid: string, chunks: seq<Chunk>,
      movements: seq<Movement>, i: nat)
  {
    && Ready(t, sid, chunks, movements)
    && (p.Finished? ==> RangeAdded(w.ledger, t.ledger, sid, false, i, |chunks|))
    && (!p.Finished? ==> i <= p.index < |chunks| && RangeAdded(w.ledger, t.ledger, sid, false, i, p.index))
    && (p.RefusedAt? ==> !Posted(t.ledger, ChunkTxn(sid, p.index)))
  }

  lemma ChunksStep(w: World, w1: World, r: Pass, sid: string, chunks: seq<Chunk>, movements: seq<Movement>, i: nat)
    requires i < |chunks| && PostedPlus(w.ledger, w1.ledger, sid, ChunkId(sid, i, false))
    requires ChunksWentIn(w1, r.world, r.progress, sid, chunks, movements, i + 1)
    ensures ChunksWentIn(w, r.world, r.progress, sid, chunks, movements, i)
  {
    AddedBelow(w.ledger, w1.ledger, r.world.ledger, sid, false, i,
      if r.progress.Finished? then |chunks| else r.progress.index);
  }

  lemma ChunksStop(w: World, s: Step, sid: string, chunks: seq<Chunk>, movements: seq<Movement>, i: nat)
    requires i < |chunks| && !s.verdict.Done? && Ready(s.world, sid, chunks, movements)
    requires SamePosted(w.ledger, s.world.ledger, sid)
    requires s.verdict.Refused? ==> !Posted(w.ledger, ChunkId(sid, i, false))
    ensures ChunksWentIn(w, s.world, StoppedAt(s, i).progress, sid, chunks, movements, i)
  {
    NothingAdded(w.ledger, s.world.ledger, sid, false, i);
  }

  lemma {:induction false} PostChunksFacts(sid: string, chunks: seq<Chunk>, movements: seq<Movement>, i: nat, w: World)
    requires i <= |chunks| && Ready(w, sid, chunks, movements)
    ensures var r := PostChunks(sid, chunks, i, w); ChunksWentIn(w, r.world, r.progress, sid, chunks, movements, i)
    decreases |chunks| - i
  {
    hide PostChunk;
    if i == |chunks| {
      NothingAdded(w.ledger, w.ledger, sid, false, i);
    } else {
      var s := PostChunk(sid, chunks[i], i, false, w);
      PostChunkStep(w, i, false, sid, chunks, movements);
      if s.verdict.Done? {
        PostChunksFacts(sid, chunks, movements, i + 1, s.world);
        ChunksStep(w, s.world, PostChunks(sid, chunks, i + 1, s.world), sid, chunks, movements, i);
      } else {
        ChunksStop(w, s, sid, chunks, movements, i);
      }
    }
  }

  /** Compensations went in from j-1 down to the index named. */
  ghost predicate CompensationsWentIn(w: World, t: World, p: Progress, sid: string, chunks: seq<Chunk>,
      movements: seq<Movement>, j: nat)
  {
    && Ready(t, sid, chunks, movements)
    && (p.Finished? ==> RangeAdded(w.ledger, t.ledger, sid, true, 0, j))
    && (!p.Finished? ==> 0 < p.index <= j && RangeAdded(w.ledger, t.ledger, sid, true, p.index, j))
  }

  lemma CompensationsStep(w: World, w1: World, r: Pass, sid: string, chunks: seq<Chunk>, movements: seq<Movement>,
      j: nat)
    requires PostedPlus(w.ledger, w1.ledger, sid, ChunkId(sid, j, true))
    requires CompensationsWentIn(w1, r.world, r.progress, sid, chunks, movements, j)
    ensures CompensationsWentIn(w, r.world, r.progress, sid, chunks, movements, j + 1)
  {
    AddedAbove(w.ledger, w1.ledger, r.world.ledger, sid, true, if r.progress.Finished? then 0 else r.progress.index, j);
  }

  lemma CompensationsStop(w: World, s: Step, sid: string, chunks: seq<Chunk>, movements: seq<Movement>, j: nat)
    requires 0 < j && !s.verdict.Done? && Ready(s.world, sid, chunks, movements)
    requires SamePosted(w.ledger, s.world.ledger, sid)
    ensures CompensationsWentIn(w, s.world, StoppedAt(s, j).progress, sid, chunks, movements, j)
  {
    NothingAdded(w.ledger, s.world.ledger, sid, true, j);
  }

  lemma {:induction false} CompensateFacts(sid: string, chunks: seq<Chunk>, movements: seq<Movement>, j: nat, w: World)
    requires j <= |chunks| && Ready(w, sid, chunks, movements)
    ensures var r := Compensate(sid, chunks, j, w);
      CompensationsWentIn(w, r.world, r.progress, sid, chunks, movements, j)
  {
    hide PostChunk;
    if j == 0 {
      NothingAdded(w.ledger, w.ledger, sid, true, 0);
    } else {
      var s := PostChunk(sid, chunks[j - 1], j - 1, true, w);
      PostChunkStep(w, j - 1, true, sid, chunks, movements);
      if s.verdict.Done? {
        CompensateFacts(sid, chunks, movements, j - 1, s.world);
        CompensationsStep(w, s.world, Compensate(sid, chunks, j - 1, s.world), sid, chunks, movements, j - 1);
      } else {
        CompensationsStop(w, s, sid, chunks, movements, j);
      }
    }
  }

  /** What `record` guarantees of a journal: numbered movements, distinct keys, storable balanced CREDIT legs. */
  ghost predicate WellFormedJournal(movements: seq<Movement>) {
    && (forall k :: 0 <= k < |movements| ==> movements[k].seq_ == k && WellFormedMovement(movements[k].legs))
    && (forall i, j :: 0 <= i < j < |movements| ==> movements[i].key != movements[j].key)
  }

  predicate WellFormedMovement(legs: seq<Leg>) {
    && |legs| > 0
    && LegsFit(legs)
    && (forall i :: 0 <= i < |legs| ==> legs[i].currency == CREDIT && legs[i].minor != 0)
    && CurrencySum(legs, CREDIT) == 0
  }

  predicate IsRejected(rejected: seq<Rejection>, key: string) {
    exists i :: 0 <= i < |rejected| && rejected[i].key == key
  }

  /** Chunks and compensations are as they were. */
  ghost predicate SameChunks(s: State, t: State, sid: string) {
    forall i, compensate :: Posted(t, ChunkId(sid, i, compensate)) <==> Posted(s, ChunkId(sid, i, compensate))
  }

  lemma RejectedSnoc(rejected: seq<Rejection>, r: Rejection, key: string)
    ensures IsRejected(rejected + [r], key) <==> IsRejected(rejected, key) || r.key == key
  {
    var all := rejected + [r];
    if IsRejected(rejected, key) {
      var i :| 0 <= i < |rejected| && rejected[i].key == key;
      assert all[i].key == key;
    }
    assert all[|rejected|] == r;
  }

  /** After k movements: each one is on the ledger exactly when it was not rejected. */
  ghost predicate ReplayedUpTo(s: State, sid: string, movements: seq<Movement>, rejected: seq<Rejection>, k: nat)
    requires k <= |movements|
  {
    && (forall q :: 0 <= q < k ==> (Posted(s, ReplayTxn(sid, q)) <==> !IsRejected(rejected, movements[q].key)))
    && (forall q :: k <= q < |movements| ==> !IsRejected(rejected, movements[q].key))
  }

  lemma SamePostedChunks(s: State, t: State, sid: string)
    requires SamePosted(s, t, sid)
    ensures SameChunks(s, t, sid)
  {
    forall i, compensate ensures Posted(t, ChunkId(sid, i, compensate)) <==> Posted(s, ChunkId(sid, i, compensate)) {
      assert OfSession(ChunkId(sid, i, compensate), sid);
    }
  }

  lemma ReplayKeepsChunks(s: State, t: State, sid: string, k: nat)
    requires PostedPlus(s, t, sid, ReplayTxn(sid, k))
    ensures SameChunks(s, t, sid)
  {
    forall i, compensate ensures Posted(t, ChunkId(sid, i, compensate)) <==> Posted(s, ChunkId(sid, i, compensate)) {
      assert OfSession(ChunkId(sid, i, compensate), sid);
    }
  }

  lemma OneMoreReplayed(s: State, t: State, sid: string, movements: seq<Movement>, rejected: seq<Rejection>, k: nat)
    requires k < |movements| && ReplayedUpTo(s, sid, movements, rejected, k)
    requires PostedPlus(s, t, sid, ReplayTxn(sid, k))
    ensures ReplayedUpTo(t, sid, movements, rejected, k + 1)
  {
    forall q | 0 <= q < k + 1 ensures Posted(t, ReplayTxn(sid, q)) <==> !IsRejected(rejected, movements[q].key) {
      assert OfSession(ReplayTxn(sid, q), sid);
    }
  }

  lemma OneMoreRejected(s: State, t: State, sid: string, movements: seq<Movement>, rejected: seq<Rejection>, k: nat,
      r: Rejection)
    requires WellFormedJournal(movements)
    requires k < |movements| && ReplayedUpTo(s, sid, movements, rejected, k) && r.key == movements[k].key
    requires SamePosted(s, t, sid) && !Posted(s, ReplayTxn(sid, k))
    ensures ReplayedUpTo(t, sid, movements, rejected + [r], k + 1)
  {
    forall q | 0 <= q < |movements|
      ensures IsRejected(rejected + [r], movements[q].key) <==> IsRejected(rejected, movements[q].key) || q == k
    {
      RejectedSnoc(rejected, r, movements[q].key);
    }
    forall q | 0 <= q < k + 1 ensures Posted(t, ReplayTxn(sid, q)) <==> Posted(s, ReplayTxn(sid, q)) {
      assert OfSession(ReplayTxn(sid, q), sid);
    }
  }

  ghost predicate ReplayedSoFar(w: World, r: ReplayState, sid: string, chunks: seq<Chunk>, movements: seq<Movement>,
      k: nat)
    requires k <= |movements|
  {
    && Ready(r.world, sid, chunks, movements)
    && SameChunks(w.ledger, r.world.ledger, sid)
    && (!r.died ==> ReplayedUpTo(r.world.ledger, sid, movements, r.rejected, k))
  }

  lemma ReplayedOneMore(w: World, r: ReplayState, s: Step, sid: string, chunks: seq<Chunk>, movements: seq<Movement>,
      k: nat)
    requires k < |movements| && WellFormedJournal(movements) && !r.died
    requires ReplayedSoFar(w, r, sid, chunks, movements, k)
    requires Ready(s.world, sid, chunks, movements)
    requires s.verdict.Done? ==> PostedPlus(r.world.ledger, s.world.ledger, sid, ReplayTxn(sid, k))
    requires !s.verdict.Done? ==> SamePosted(r.world.ledger, s.world.ledger, sid)
    requires s.verdict.Refused? ==> !Posted(r.world.ledger, ReplayTxn(sid, k))
    ensures ReplayedSoFar(w, AfterMovement(r, movements[k].key, s), sid, chunks, movements, k + 1)
  {
    match s.verdict
    case Done =>
      OneMoreReplayed(r.world.ledger, s.world.ledger, sid, movements, r.rejected, k);
      ReplayKeepsChunks(r.world.ledger, s.world.ledger, sid, k);
    case Refused(f) =>
      OneMoreRejected(r.world.ledger, s.world.ledger, sid, movements, r.rejected, k, Rejection(movements[k].key, f));
      SamePostedChunks(r.world.ledger, s.world.ledger, sid);
    case Crashed =>
      SamePostedChunks(r.world.ledger, s.world.ledger, sid);
  }

  lemma {:induction false} ReplayFacts(sid: string, chunks: seq<Chunk>, movements: seq<Movement>, k: nat, w: World)
    requires k <= |movements| && Ready(w, sid, chunks, movements) && WellFormedJournal(movements)
    ensures ReplayedSoFar(w, Replay(sid, movements, k, w), sid, chunks, movements, k)
  {
    hide Transact;
    if k == 0 {
      NothingReplayed(sid, chunks, movements, w);
    } else {
      ReplayFacts(sid, chunks, movements, k - 1, w);
      var r := Replay(sid, movements, k - 1, w);
      if r.died {
        assert Replay(sid, movements, k, w) == r;
      } else {
        ReplayAdvances(sid, chunks, movements, k - 1, w, r);
      }
    }
  }

  lemma NothingReplayed(sid: string, chunks: seq<Chunk>, movements: seq<Movement>, w: World)
    requires Ready(w, sid, chunks, movements)
    ensures ReplayedSoFar(w, ReplayState(w, 0, [], false), sid, chunks, movements, 0)
  {
  }

  lemma ReplayAdvances(sid: string, chunks: seq<Chunk>, movements: seq<Movement>, k: nat, w: World, r: ReplayState)
    requires k < |movements| && WellFormedJournal(movements) && !r.died
    requires ReplayedSoFar(w, r, sid, chunks, movements, k)
    ensures var s := Transact(r.world, MovementPosting(sid, movements[k]));
      ReplayedSoFar(w, AfterMovement(r, movements[k].key, s), sid, chunks, movements, k + 1)
  {
    assert movements[k].seq_ == k && WellFormedMovement(movements[k].legs);
    TransactStep(r.world, MovementPosting(sid, movements[k]), sid, chunks, movements);
    ReplayedOneMore(w, r, Transact(r.world, MovementPosting(sid, movements[k])), sid, chunks, movements, k);
  }
}
