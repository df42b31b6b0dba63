/**
 Settling a netting session (src/netting.ts `settle`, `postChunk`, `replay`, `__recover`), as
 functions over a world in which other transactions get in before each of the session's own and
 the process may die between any two of them. Module NettingSession holds the code's own loops.
 */
module Settlement {
  import opened Accounts
  import opened Ledger
  import opened Money
  import opened Text

  // ---- The journal and its net ----------------------------------------------------

  /** The session chain hash: previous head, key and canonical legs through the digest. */
  datatype SessionHash = SessionGenesis | Chained(prev: SessionHash, key: string, legs: seq<Leg>)

  datatype Movement = Movement(seq_: nat, key: string, legs: seq<Leg>, prevHash: SessionHash, hash: SessionHash)

  datatype Position = Position(account: AccountRef, minor: int)

  type Chunk = seq<Position>

  function AllLegs(movements: seq<Movement>): seq<Leg> {
    if movements == [] then []
    else AllLegs(movements[..|movements| - 1]) + movements[|movements| - 1].legs
  }

  /** Nonzero net per account, in first-appearance order. */
  function PositionsOf(legs: seq<Leg>, order: seq<AccountRef>): seq<Position> {
    if order == [] then []
    else
      var a := order[|order| - 1];
      PositionsOf(legs, order[..|order| - 1]) + if RawOf(legs, a) == 0 then [] else [Position(a, RawOf(legs, a))]
  }

  function Positions(movements: seq<Movement>): seq<Position> {
    PositionsOf(AllLegs(movements), DistinctAccounts(AllLegs(movements)))
  }

  function ChunksOf(positions: seq<Position>, width: nat): seq<Chunk>
    requires width > 0
    decreases |positions|
  {
    if positions == [] then []
    else if |positions| <= width then [positions]
    else [positions[..width]] + ChunksOf(positions[width..], width)
  }

  function SumOf(chunk: Chunk): int {
    if chunk == [] then 0 else SumOf(chunk[..|chunk| - 1]) + chunk[|chunk| - 1].minor
  }

  function Side(minor: int, compensate: bool): int {
    if compensate then -minor else minor
  }

  function ParticipantLegs(chunk: Chunk, compensate: bool): seq<Leg> {
    if chunk == [] then []
    else
      var p := chunk[|chunk| - 1];
      ParticipantLegs(chunk[..|chunk| - 1], compensate) + [Leg(p.account, CREDIT, Side(p.minor, compensate))]
  }

  function ClearingLegs(chunk: Chunk, compensate: bool): seq<Leg> {
    if SumOf(chunk) == 0 then [] else [Leg(NETTING_CLEARING, CREDIT, Side(-SumOf(chunk), compensate))]
  }

  /** A chunk's positions against clearing, or the exact opposite. */
  function ChunkLegs(chunk: Chunk, compensate: bool): seq<Leg> {
    ParticipantLegs(chunk, compensate) + ClearingLegs(chunk, compensate)
  }

  // ---- The world ------------------------------------------------------------------

  /**
   `others[k]` is what other clients post before this session's k-th transaction; `lives` is how
   many transactions the process still gets to start before it dies.
   */
  datatype World = World(ledger: State, others: seq<seq<Posting>>, lives: nat)

  function CountId(log: seq<Entry>, id: TxnId): nat {
    if log == [] then 0
    else CountId(log[..|log| - 1], id) + if log[|log| - 1].posting.txnId == id then 1 else 0
  }

  predicate Posted(s: State, id: TxnId) {
    CountId(s.log, id) > 0
  }

  /** Other clients' postings go in or are refused one by one. */
  function PostOthers(s: State, ps: seq<Posting>): State {
    if ps == [] then s
    else
      var t := PostOthers(s, ps[..|ps| - 1]);
      match PostEntry(t, ps[|ps| - 1])
      case Ok(u) => u
      case Err(_) => t
  }

  function Begin(w: World): World
    requires w.lives > 0
  {
    World(
      PostOthers(w.ledger, if w.others == [] then [] else w.others[0]),
      if w.others == [] then [] else w.others[1..],
      w.lives - 1)
  }

  datatype Verdict = Done | Refused(fault: Fault) | Crashed

  datatype Step = Step(world: World, verdict: Verdict)

  /** One transaction, idempotent on its id: an existing posting makes it a no-op. */
  function Transact(w: World, p: Posting): Step {
    if w.lives == 0 then Step(w, Crashed)
    else
      var b := Begin(w);
      if Posted(b.ledger, p.txnId) then Step(b, Done)
      else
        match PostEntry(b.ledger, p)
        case Ok(s) => Step(b.(ledger := s), Done)
        case Err(f) => Step(b, Refused(f))
  }

  // ---- Settle ---------------------------------------------------------------------

  function ChunkId(sid: string, i: nat, compensate: bool): TxnId {
    if compensate then CompTxn(sid, i) else ChunkTxn(sid, i)
  }

  /** The metadata text of a posting is left open: nothing here depends on it. */
  function ChunkPosting(sid: string, chunk: Chunk, i: nat, compensate: bool): Posting {
    Posting(ChunkId(sid, i, compensate), ChunkLegs(chunk, compensate), "instance_settlement")
  }

  function MovementPosting(sid: string, m: Movement): Posting {
    Posting(ReplayTxn(sid, m.seq_), m.legs, "instance_movement_replay")
  }

  predicate LegsFit(legs: seq<Leg>) {
    forall i :: 0 <= i < |legs| ==> InI64(legs[i].minor)
  }

  /** The legs are built, and range-checked, before the transaction opens. */
  function PostChunk(sid: string, chunk: Chunk, i: nat, compensate: bool, w: World): Step {
    if !LegsFit(ChunkLegs(chunk, compensate)) then Step(w, Refused(AmountOverflow))
    else Transact(w, ChunkPosting(sid, chunk, i, compensate))
  }

  datatype Progress = Finished | RefusedAt(index: nat, fault: Fault) | DiedAt(index: nat)

  datatype Pass = Pass(world: World, progress: Progress)

  function StoppedAt(s: Step, i: nat): Pass
    requires !s.verdict.Done?
  {
    Pass(s.world, if s.verdict.Refused? then RefusedAt(i, s.verdict.fault) else DiedAt(i))
  }

  /** Chunks i, i+1, ... until one is refused. */
  function PostChunks(sid: string, chunks: seq<Chunk>, i: nat, w: World): (r: Pass)
    requires i <= |chunks|
    ensures r.progress.RefusedAt? ==> r.progress.index < |chunks|
    decreases |chunks| - i
  {
    if i == |chunks| then Pass(w, Finished)
    else
      var s := PostChunk(sid, chunks[i], i, false, w);
      if s.verdict.Done? then PostChunks(sid, chunks, i + 1, s.world) else StoppedAt(s, i)
  }

  /** Compensations of chunks j-1, j-2, ..., 0; a refused one propagates out of settle. */
  function Compensate(sid: string, chunks: seq<Chunk>, j: nat, w: World): Pass
    requires j <= |chunks|
  {
    if j == 0 then Pass(w, Finished)
    else
      var s := PostChunk(sid, chunks[j - 1], j - 1, true, w);
      if s.verdict.Done? then Compensate(sid, chunks, j - 1, s.world) else StoppedAt(s, j)
  }

  datatype Rejection = Rejection(key: string, fault: Fault)

  datatype ReplayState = ReplayState(world: World, postings: nat, rejected: seq<Rejection>, died: bool)

  function AfterMovement(r: ReplayState, key: string, s: Step): ReplayState {
    match s.verdict
    case Done => ReplayState(s.world, r.postings + 1, r.rejected, false)
    case Refused(f) => ReplayState(s.world, r.postings, r.rejected + [Rejection(key, f)], false)
    case Crashed => ReplayState(s.world, r.postings, r.rejected, true)
  }

  /** The first k movements replayed, each with its own outcome. */
  function Replay(sid: string, movements: seq<Movement>, k: nat, w: World): ReplayState
    requires k <= |movements|
  {
    if k == 0 then ReplayState(w, 0, [], false)
    else
      var r := Replay(sid, movements, k - 1, w);
      if r.died then r
      else AfterMovement(r, movements[k - 1].key, Transact(r.world, MovementPosting(sid, movements[k - 1])))
  }

  datatype Mode = Netted | Replayed

  datatype Report = Report(mode: Mode, postings: nat, rejected: seq<Rejection>, journalHead: SessionHash, netted: nat)

  datatype Outcome = Returned(report: Report) | Threw(fault: Fault) | Died

  function JournalHead(movements: seq<Movement>): SessionHash {
    if movements == [] then SessionGenesis else movements[|movements| - 1].hash
  }

  datatype Settled = Settled(world: World, outcome: Outcome)

  function ReplayAll(sid: string, movements: seq<Movement>, w: World): Settled {
    var r := Replay(sid, movements, |movements|, w);
    if r.died then Settled(r.world, Died)
    else Settled(r.world, Returned(Report(Replayed, r.postings, r.rejected, JournalHead(movements), |movements|)))
  }

  /** A chunk was refused: undo what went in, then replay. */
  function FailOver(sid: string, movements: seq<Movement>, chunks: seq<Chunk>, j: nat, w: World): Settled
    requires j <= |chunks|
  {
    var c := Compensate(sid, chunks, j, w);
    match c.progress
    case RefusedAt(_, f) => Settled(c.world, Threw(f))
    case DiedAt(_) => Settled(c.world, Died)
    case Finished => ReplayAll(sid, movements, c.world)
  }

  function SettleNetted(sid: string, movements: seq<Movement>, chunks: seq<Chunk>, w: World): Settled {
    var p := PostChunks(sid, chunks, 0, w);
    match p.progress
    case Finished => Settled(p.world, Returned(Report(Netted, |chunks|, [], JournalHead(movements), |movements|)))
    case DiedAt(_) => Settled(p.world, Died)
    case RefusedAt(j, _) => FailOver(sid, movements, chunks, j, p.world)
  }

  /** Settling an authenticated journal; `forced` is what recovery found. */
  function Settle(sid: string, movements: seq<Movement>, width: nat, forced: bool, w: World): Settled
    requires width > 0
  {
    if movements == [] then Settled(w, Returned(Report(Netted, 0, [], SessionGenesis, 0)))
    else if forced then ReplayAll(sid, movements, w)
    else SettleNetted(sid, movements, ChunksOf(Positions(movements), width), w)
  }

  /** What recovery reads off the ledger: which settle path is safe. */
  predicate ReplayForced(s: State, sid: string, movements: seq<Movement>, width: nat)
    requires width > 0
  {
    || (exists i :: 0 <= i < |ChunksOf(Positions(movements), width)| && Posted(s, CompTxn(sid, i)))
    || (exists k :: 0 <= k < |movements| && Posted(s, ReplayTxn(sid, movements[k].seq_)))
  }
}
