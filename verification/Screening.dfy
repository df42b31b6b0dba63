/**
 Screen soundness (src/netting.ts `reserve` against `settle`): when every movement was accepted
 against opening balance plus everything pending, and nobody else posts, no movement is rejected at
 settle. The clearing guard may still refuse a chunk; then every compensation goes in and the replay
 reaches the same balances.
 */
module Screening {
  import opened Accounts
  import opened Ledger
  import opened Money
  import opened Recovery
  import opened Settlement
  import opened SettlementNet
  import opened SettlementProof
  import opened Text

  /** The accounts a lane's movements touch: wallets, and platform accounts the guard leaves alone. */
  predicate OpenAccount(a: AccountRef) {
    IsKnownAccount(a) && CurrencyFor(a) == CREDIT && (IsWalletAccount(a) || !IsUserGuarded(a))
  }

  ghost predicate OpenJournal(movements: seq<Movement>) {
    forall a :: a in AccountsIn(AllLegs(movements)) ==> OpenAccount(a)
  }

  /** What the accept screen leaves true after each accepted movement. */
  ghost predicate Screened(s: State, movements: seq<Movement>) {
    forall k, a :: 0 <= k <= |movements| && IsWalletAccount(a) ==> Covered(s, movements, k, a)
  }

  predicate Covered(s: State, movements: seq<Movement>, k: nat, a: AccountRef)
    requires k <= |movements|
  {
    BalanceOf(s, a) + MovementTotal(movements, k, a) >= 0
  }

  /** Every running balance inside movement k is storable, when the k before it have gone in. */
  predicate MovementFits(s0: State, movements: seq<Movement>, k: nat)
    requires k < |movements|
  {
    forall i :: 0 <= i < |movements[k].legs| ==> LegFitsAt(s0, movements, k, i)
  }

  predicate LegFitsAt(s0: State, movements: seq<Movement>, k: nat, i: nat)
    requires k < |movements| && i < |movements[k].legs|
  {
    var legs := movements[k].legs;
    var a := legs[i].account;
    InI64(BalanceDelta(legs[i])) && InI64(BalanceOf(s0, a) + MovementTotal(movements, k, a) + DeltaOf(legs[..i + 1], a))
  }

  ghost predicate MovementsFit(s0: State, movements: seq<Movement>) {
    forall k :: 0 <= k < |movements| ==> MovementFits(s0, movements, k)
  }

  /** None of the amounts is the one i64 value whose negation is not storable, so the chunk can be undone. */
  predicate Negatable(positions: seq<Position>) {
    forall x :: 0 <= x < |positions| ==> positions[x].minor != I64_MIN
  }

  // ---- When a posting goes in -------------------------------------------------------

  lemma {:induction false} NoOverdraftNoFault(s: State, legs: seq<Leg>, order: seq<AccountRef>)
    requires forall a :: a in order ==> BalanceOf(s, a) + DeltaOf(legs, a) >= 0
    ensures OverdraftFault(s, legs, order) == None
  {
    if order != [] {
      NoOverdraftNoFault(s, legs, order[1..]);
    }
  }

  /** The converse of the checks: a posting that meets them all goes in. */
  lemma PostingGoesIn(s: State, p: Posting)
    requires WellFormedPosting(p) && CommitFits(s, p.legs)
    requires forall a :: a in AccountsIn(p.legs) && IsUserGuarded(a) ==> BalanceOf(s, a) + DeltaOf(p.legs, a) >= 0
    ensures PostEntry(s, p).Ok?
  {
    assert DropZeroLegs(p) == p;
    forall i | 0 <= i < |p.legs| ensures InI64(BalanceDelta(p.legs[i])) {
      assert LegFits(s, p.legs, i);
    }
    NoOverdraftNoFault(s, p.legs, GuardedAccounts(p.legs));
  }

  lemma {:induction false} OverdraftIsFound(s: State, legs: seq<Leg>, order: seq<AccountRef>, a: AccountRef)
    requires a in order && DeltaOf(legs, a) < 0 && BalanceOf(s, a) + DeltaOf(legs, a) < 0
    ensures OverdraftFault(s, legs, order) != None
  {
    if order[0] != a {
      OverdraftIsFound(s, legs, order[1..], a);
    }
  }

  /** The guard's other half: a posting that overdraws a guarded account never goes in. */
  lemma OverdrawnIsRefused(s: State, p: Posting, a: AccountRef)
    requires (forall i :: 0 <= i < |p.legs| ==> p.legs[i].minor != 0) && a in AccountsIn(p.legs)
    requires IsUserGuarded(a) && DeltaOf(p.legs, a) < 0 && BalanceOf(s, a) + DeltaOf(p.legs, a) < 0
    ensures PostEntry(s, p).Err?
  {
    hide OverdraftFault, Append, DeltaOf, BalanceOf, Balanced, SingleCurrency, KnownAccounts, GuardedDeltasFit;
    assert DropZeroLegs(p) == p;
    assert a in GuardedAccounts(p.legs);
    OverdraftIsFound(s, p.legs, GuardedAccounts(p.legs), a);
  }

  // ---- Replaying a screened journal --------------------------------------------------

  /** The ledger's balances are the opening ones plus the first k movements. */
  ghost predicate AfterMovements(s0: State, t: State, movements: seq<Movement>, k: nat)
    requires k <= |movements|
  {
    forall a :: BalanceOf(t, a) == BalanceOf(s0, a) + MovementTotal(movements, k, a)
  }

  ghost predicate Premises(s0: State, movements: seq<Movement>, width: nat) {
    WellFormed(movements, width) && OpenJournal(movements) && Screened(s0, movements)
  }

  lemma {:induction false} NoUsd(legs: seq<Leg>)
    requires forall i :: 0 <= i < |legs| ==> legs[i].currency == CREDIT
    ensures CurrencySum(legs, USD) == 0
  {
    if legs != [] {
      NoUsd(legs[..|legs| - 1]);
    }
  }

  lemma MovementWellFormed(sid: string, movements: seq<Movement>, k: nat)
    requires k < |movements| && WellFormedMovement(movements[k].legs) && OpenJournal(movements)
    ensures WellFormedPosting(MovementPosting(sid, movements[k]))
  {
    var legs := movements[k].legs;
    LegsAreInAll(movements, k);
    NoUsd(legs);
    forall i | 0 <= i < |legs| ensures OpenAccount(legs[i].account) {
      assert legs[i].account in AccountsIn(legs);
    }
  }

  lemma FitsOnTop(s0: State, t: State, movements: seq<Movement>, k: nat)
    requires k < |movements| && AfterMovements(s0, t, movements, k)
    ensures CommitFits(t, movements[k].legs) <==> MovementFits(s0, movements, k)
  {
    var legs := movements[k].legs;
    forall i | 0 <= i < |legs| ensures LegFits(t, legs, i) <==> LegFitsAt(s0, movements, k, i) {
      assert BalanceOf(t, legs[i].account) == BalanceOf(s0, legs[i].account)
        + MovementTotal(movements, k, legs[i].account);
    }
  }

  /** On top of the first k, movement k goes in exactly when its running balances fit. */
  lemma MovementGoesIn(sid: string, s0: State, t: State, movements: seq<Movement>, width: nat, k: nat)
    requires Premises(s0, movements, width) && k < |movements| && AfterMovements(s0, t, movements, k)
    ensures var r := PostEntry(t, MovementPosting(sid, movements[k]));
      (r.Ok? <==> MovementFits(s0, movements, k)) && (r.Ok? ==> AfterMovements(s0, r.value, movements, k + 1))
  {
    hide PostEntry, MovementFits, CommitFits;
    var p := MovementPosting(sid, movements[k]);
    MovementWellFormed(sid, movements, k);
    FitsOnTop(s0, t, movements, k);
    LegsAreInAll(movements, k);
    forall a | a in AccountsIn(p.legs) && IsUserGuarded(a) ensures BalanceOf(t, a) + DeltaOf(p.legs, a) >= 0 {
      assert OpenAccount(a);
      assert Covered(s0, movements, k + 1, a);
    }
    if CommitFits(t, p.legs) {
      PostingGoesIn(t, p);
      PostEntryEffect(t, p);
    } else if PostEntry(t, p).Ok? {
      GoesInFits(t, p);
    }
  }

  lemma GoesInFits(s: State, p: Posting)
    requires (forall i :: 0 <= i < |p.legs| ==> p.legs[i].minor != 0) && PostEntry(s, p).Ok?
    ensures CommitFits(s, p.legs)
  {
    assert DropZeroLegs(p) == p;
  }

  /** A world with nobody else in it, this session ready, and none of movements k.. replayed. */
  ghost predicate Alone(w: World, sid: string, movements: seq<Movement>, width: nat, k: nat)
    requires width > 0
  {
    && Ready(w, sid, Chunks(movements, width), movements) && w.others == []
    && forall q :: k <= q < |movements| ==> !Posted(w.ledger, ReplayTxn(sid, q))
  }

  lemma AloneTransact(w: World, p: Posting)
    requires w.others == [] && w.lives > 0 && !Posted(w.ledger, p.txnId)
    ensures Transact(w, p) ==
      if PostEntry(w.ledger, p).Ok? then Step(World(PostEntry(w.ledger, p).value, [], w.lives - 1), Done)
      else Step(World(w.ledger, [], w.lives - 1), Refused(PostEntry(w.ledger, p).fault))
  {
    hide PostEntry;
    assert PostOthers(w.ledger, []) == w.ledger;
  }

  /** After k movements of a replay: none refused so far exactly if all of them fitted. */
  ghost predicate ReplayedAlone(s0: State, w: World, r: ReplayState, sid: string, movements: seq<Movement>, width: nat,
      k: nat)
    requires width > 0 && k <= |movements|
  {
    && !r.died && r.world.lives == w.lives - k && Alone(r.world, sid, movements, width, k)
    && (r.rejected == [] <==> forall q :: 0 <= q < k ==> MovementFits(s0, movements, q))
    && (r.rejected == [] ==> AfterMovements(s0, r.world.ledger, movements, k))
  }

  lemma AloneMovement(sid: string, movements: seq<Movement>, width: nat, k: nat, w: World)
    requires WellFormed(movements, width) && k < |movements| && w.lives > 0 && Alone(w, sid, movements, width, k)
    ensures var s := Transact(w, MovementPosting(sid, movements[k]));
      !s.verdict.Crashed? && s.world.lives == w.lives - 1 && Alone(s.world, sid, movements, width, k + 1)
  {
    hide PostEntry, Transact;
    var p := MovementPosting(sid, movements[k]);
    assert movements[k].seq_ == k && WellFormedMovement(movements[k].legs);
    AloneTransact(w, p);
    TransactStep(w, p, sid, Chunks(movements, width), movements);
    var t := Transact(w, p).world.ledger;
    forall q | k + 1 <= q < |movements| ensures !Posted(t, ReplayTxn(sid, q)) {
      assert OfSession(ReplayTxn(sid, q), sid);
    }
  }

  lemma ReplayOneMore(sid: string, s0: State, movements: seq<Movement>, width: nat, k: nat, w: World, r: ReplayState)
    requires Premises(s0, movements, width) && k < |movements| && w.lives >= |movements|
    requires ReplayedAlone(s0, w, r, sid, movements, width, k)
    ensures var s := Transact(r.world, MovementPosting(sid, movements[k]));
      ReplayedAlone(s0, w, AfterMovement(r, movements[k].key, s), sid, movements, width, k + 1)
  {
    hide PostEntry, Transact, MovementFits, Ready, AfterMovements;
    AloneMovement(sid, movements, width, k, r.world);
    if r.rejected == [] {
      MovementGoesIn(sid, s0, r.world.ledger, movements, width, k);
      AloneTransact(r.world, MovementPosting(sid, movements[k]));
    }
  }

  lemma {:induction false} ReplayAlone(sid: string, s0: State, movements: seq<Movement>, width: nat, k: nat, w: World)
    requires Premises(s0, movements, width) && k <= |movements| && w.lives >= |movements|
    requires Alone(w, sid, movements, width, 0) && AfterMovements(s0, w.ledger, movements, 0)
    ensures ReplayedAlone(s0, w, Replay(sid, movements, k, w), sid, movements, width, k)
  {
    hide Transact, Alone, AfterMovements, MovementFits, OpenJournal, Screened;
    if k == 0 {
      NothingReplayedYet(sid, s0, movements, width, w);
    } else {
      ReplayAlone(sid, s0, movements, width, k - 1, w);
      ReplayOneMore(sid, s0, movements, width, k - 1, w, Replay(sid, movements, k - 1, w));
    }
  }

  lemma NothingReplayedYet(sid: string, s0: State, movements: seq<Movement>, width: nat, w: World)
    requires width > 0 && Alone(w, sid, movements, width, 0) && AfterMovements(s0, w.ledger, movements, 0)
    ensures ReplayedAlone(s0, w, ReplayState(w, 0, [], false), sid, movements, width, 0)
  {
  }

  // ---- The shape of a chunk ----------------------------------------------------------

  lemma {:induction false} ParticipantAt(chunk: Chunk, compensate: bool, i: nat)
    requires i < |chunk|
    ensures |ParticipantLegs(chunk, compensate)| == |chunk|
    ensures ParticipantLegs(chunk, compensate)[i] == Leg(chunk[i].account, CREDIT, Side(chunk[i].minor, compensate))
  {
    var n := |chunk| - 1;
    if n > 0 {
      ParticipantAt(chunk[..n], compensate, if i < n then i else 0);
    }
  }

  lemma ParticipantCount(chunk: Chunk, compensate: bool)
    ensures |ParticipantLegs(chunk, compensate)| == |chunk|
  {
    if chunk != [] {
      ParticipantAt(chunk, compensate, 0);
    }
  }

  lemma {:induction false} ChunkIsSlice(ps: seq<Position>, width: nat, i: nat)
    requires width > 0 && i < |ChunksOf(ps, width)|
    ensures var cs := ChunksOf(ps, width); var at := |Flat(cs, i)|;
      at + |cs[i]| <= |ps| && cs[i] == ps[at..at + |cs[i]|]
  {
    var cs := ChunksOf(ps, width);
    FlatOfChunks(ps, width);
    FlatPrefix(cs, i + 1, |cs|);
    var upTo := Flat(cs, i) + cs[i];
    assert upTo <= ps;
    assert upTo == ps[..|upTo|];
    assert cs[i] == upTo[|Flat(cs, i)|..];
  }

  /** Distinct open accounts, each with a nonzero amount. */
  ghost predicate ChunkShape(chunk: Chunk) {
    && (forall i :: 0 <= i < |chunk| ==> OpenAccount(chunk[i].account) && chunk[i].minor != 0)
    && (forall i, j :: 0 <= i < j < |chunk| ==> chunk[i].account != chunk[j].account)
  }

  lemma {:induction false} PositionIsNet(legs: seq<Leg>, order: seq<AccountRef>, i: nat)
    requires i < |PositionsOf(legs, order)|
    ensures var p := PositionsOf(legs, order)[i]; p.minor == RawOf(legs, p.account) && p.account in order
  {
    var n := |order| - 1;
    assert order == order[..n] + [order[n]];
    if i < |PositionsOf(legs, order[..n])| {
      PositionIsNet(legs, order[..n], i);
    }
  }

  lemma PositionShape(movements: seq<Movement>, x: nat)
    requires OpenJournal(movements) && x < |Positions(movements)|
    ensures OpenAccount(Positions(movements)[x].account)
  {
    var legs := AllLegs(movements);
    PositionIsNet(legs, DistinctAccounts(legs), x);
    assert Positions(movements)[x].account in AccountsIn(legs);
  }

  lemma SliceShape(ps: seq<Position>, at: nat, chunk: Chunk, order: seq<AccountRef>)
    requires at + |chunk| <= |ps| && chunk == ps[at..at + |chunk|] && DistinctPositions(ps, order)
    requires forall x :: 0 <= x < |ps| ==> OpenAccount(ps[x].account)
    ensures ChunkShape(chunk)
  {
    assert forall x :: 0 <= x < |chunk| ==> chunk[x] == ps[at + x];
  }

  lemma ChunksHaveShape(s0: State, movements: seq<Movement>, width: nat, i: nat)
    requires Premises(s0, movements, width) && i < |Chunks(movements, width)|
    ensures ChunkShape(Chunks(movements, width)[i])
  {
    hide PositionsOf, DistinctAccounts, ChunkShape, OpenAccount, Screened;
    var legs := AllLegs(movements);
    var ps, cs := Positions(movements), Chunks(movements, width);
    ChunkIsSlice(ps, width, i);
    PositionsAreDistinct(legs, DistinctAccounts(legs));
    forall x | 0 <= x < |ps| ensures OpenAccount(ps[x].account) {
      PositionShape(movements, x);
    }
    SliceShape(ps, |Flat(cs, i)|, cs[i], DistinctAccounts(legs));
  }

  /** The chunk's amounts and its sum are storable, and so is the opposite of the sum. */
  predicate ChunkFits(chunk: Chunk) {
    (forall x :: 0 <= x < |chunk| ==> InI64(chunk[x].minor)) && InI64(SumOf(chunk)) && InI64(-SumOf(chunk))
  }

  /** Leg i of a chunk posting: a participant, or clearing at the end. */
  lemma ChunkLegAt(chunk: Chunk, compensate: bool, i: nat)
    requires i < |ChunkLegs(chunk, compensate)|
    ensures ChunkLegs(chunk, compensate)[i] ==
      if i < |chunk| then Leg(chunk[i].account, CREDIT, Side(chunk[i].minor, compensate))
      else Leg(NETTING_CLEARING, CREDIT, Side(-SumOf(chunk), compensate))
    ensures i >= |chunk| ==> i == |chunk| && SumOf(chunk) != 0
  {
    ParticipantCount(chunk, compensate);
    if i < |chunk| {
      ParticipantAt(chunk, compensate, i);
    }
  }

  lemma {:induction false} ParticipantSum(chunk: Chunk, compensate: bool)
    ensures CurrencySum(ParticipantLegs(chunk, compensate), CREDIT) == Side(SumOf(chunk), compensate)
  {
    if chunk != [] {
      var n := |chunk| - 1;
      ParticipantSum(chunk[..n], compensate);
      CurrencySumConcat(ParticipantLegs(chunk[..n], compensate),
        [Leg(chunk[n].account, CREDIT, Side(chunk[n].minor, compensate))], CREDIT);
      OneLegSum(Leg(chunk[n].account, CREDIT, Side(chunk[n].minor, compensate)));
    }
  }

  lemma OneLegSum(leg: Leg)
    requires leg.currency == CREDIT
    ensures CurrencySum([leg], CREDIT) == leg.minor
  {
    assert CurrencySum([leg][..0], CREDIT) == 0;
  }

  lemma ChunkPostingWellFormed(sid: string, chunk: Chunk, i: nat, compensate: bool)
    requires ChunkShape(chunk)
    ensures WellFormedPosting(ChunkPosting(sid, chunk, i, compensate))
  {
    ChunkBalances(chunk, compensate);
    hide ChunkLegs;
    var legs := ChunkLegs(chunk, compensate);
    forall x | 0 <= x < |legs|
      ensures legs[x].minor != 0 && legs[x].currency == CREDIT == CurrencyFor(legs[x].account)
        && IsKnownAccount(legs[x].account)
    {
      ChunkLegAt(chunk, compensate, x);
    }
    NoUsd(legs);
  }

  /** Clearing takes up exactly what a chunk's participants leave open. */
  lemma ChunkBalances(chunk: Chunk, compensate: bool)
    ensures CurrencySum(ChunkLegs(chunk, compensate), CREDIT) == 0
  {
    ParticipantSum(chunk, compensate);
    CurrencySumConcat(ParticipantLegs(chunk, compensate), ClearingLegs(chunk, compensate), CREDIT);
    if SumOf(chunk) != 0 {
      OneLegSum(Leg(NETTING_CLEARING, CREDIT, Side(-SumOf(chunk), compensate)));
    }
  }

  // ---- Compensations of a screened settle ----------------------------------------------

  ghost predicate AfterChunks(s0: State, t: State, chunks: seq<Chunk>, i: nat)
    requires i <= |chunks|
  {
    forall a :: BalanceOf(t, a) == BalanceOf(s0, a) + ChunkTotal(chunks, i, a)
  }

  /** The balances after i chunks are ones a valid ledger can hold. */
  ghost predicate GoodLevel(s0: State, chunks: seq<Chunk>, i: nat)
    requires i <= |chunks|
  {
    forall a :: LevelHolds(s0, chunks, i, a)
  }

  predicate LevelHolds(s0: State, chunks: seq<Chunk>, i: nat, a: AccountRef)
    requires i <= |chunks|
  {
    var level := BalanceOf(s0, a) + ChunkTotal(chunks, i, a);
    InI64(level) && (IsUserGuarded(a) ==> level >= 0)
  }

  lemma ValidLevel(s0: State, t: State, chunks: seq<Chunk>, i: nat)
    requires i <= |chunks| && Valid(t) && AfterChunks(s0, t, chunks, i)
    ensures GoodLevel(s0, chunks, i)
  {
    forall a ensures LevelHolds(s0, chunks, i, a) {
      assert BalanceOf(t, a) == BalanceOf(s0, a) + ChunkTotal(chunks, i, a);
    }
  }

  /** Chunk i, on top of the i before it: its legs are storable, and it leaves balances a ledger can hold. */
  ghost predicate ChunkGoesIn(s0: State, chunks: seq<Chunk>, i: nat)
    requires i < |chunks|
  {
    var legs := ChunkLegs(chunks[i], false);
    LegsFit(legs) && forall x :: 0 <= x < |legs| ==>
      InI64(BalanceDelta(legs[x])) && LevelHolds(s0, chunks, i + 1, legs[x].account)
  }

  ghost predicate ChunksGoIn(s0: State, movements: seq<Movement>, width: nat)
    requires width > 0
  {
    forall i :: 0 <= i < |Chunks(movements, width)| ==> ChunkGoesIn(s0, Chunks(movements, width), i)
  }

  /** Every chunk that would have gone in before one that does not can be undone. */
  ghost predicate Undoable(s0: State, movements: seq<Movement>, width: nat)
    requires width > 0
  {
    forall j :: 0 <= j < |Chunks(movements, width)| ==> UndoableFrom(s0, Chunks(movements, width), j)
  }

  /** If j is the first chunk that does not go in, then all before it have storable opposites. */
  ghost predicate UndoableFrom(s0: State, chunks: seq<Chunk>, j: nat)
    requires j < |chunks|
  {
    (forall x :: 0 <= x < j ==> ChunkGoesIn(s0, chunks, x)) && !ChunkGoesIn(s0, chunks, j) ==>
      forall x :: 0 <= x < j ==> Negatable(chunks[x])
  }

  lemma OneFirstRefused(s0: State, chunks: seq<Chunk>, j: nat, k: nat)
    requires j < |chunks| && (forall x :: 0 <= x < j ==> ChunkGoesIn(s0, chunks, x)) && !ChunkGoesIn(s0, chunks, j)
    requires k < |chunks| && k != j
    ensures UndoableFrom(s0, chunks, k)
  {
  }

  lemma ChunkLegsApart(chunk: Chunk, compensate: bool)
    requires ChunkShape(chunk)
    ensures var legs := ChunkLegs(chunk, compensate);
      forall x, y :: 0 <= x < y < |legs| ==> legs[x].account != legs[y].account
  {
    var legs := ChunkLegs(chunk, compensate);
    forall x, y | 0 <= x < y < |legs| ensures legs[x].account != legs[y].account {
      ChunkLegAt(chunk, compensate, x);
      ChunkLegAt(chunk, compensate, y);
    }
  }

  /** The level after chunk i is what the ledger would hold with the chunk posted. */
  lemma NextLevel(s0: State, t: State, chunks: seq<Chunk>, i: nat, x: nat)
    requires i < |chunks| && ChunkShape(chunks[i]) && AfterChunks(s0, t, chunks, i) && x < |ChunkLegs(chunks[i], false)|
    ensures var legs := ChunkLegs(chunks[i], false);
      LevelHolds(s0, chunks, i + 1, legs[x].account) <==>
        InI64(BalanceOf(t, legs[x].account) + DeltaOf(legs[..x + 1], legs[x].account))
        && (IsUserGuarded(legs[x].account) ==> BalanceOf(t, legs[x].account) + DeltaOf(legs, legs[x].account) >= 0)
  {
    hide ChunkLegs;
    var legs := ChunkLegs(chunks[i], false);
    ChunkLegsApart(chunks[i], false);
    DistinctRunning(legs, x);
  }

  /** Whether a chunk's posting is accepted can be read off the balances before settling. */
  lemma ChunkAcceptedWhen(sid: string, s0: State, t: State, chunks: seq<Chunk>, i: nat)
    requires i < |chunks| && ChunkShape(chunks[i]) && Valid(t) && AfterChunks(s0, t, chunks, i)
    requires LegsFit(ChunkLegs(chunks[i], false))
    ensures PostEntry(t, ChunkPosting(sid, chunks[i], i, false)).Ok? <==> ChunkGoesIn(s0, chunks, i)
  {
    hide PostEntry, ChunkLegs, Valid, LevelHolds, BalanceDelta, DeltaOf;
    var p := ChunkPosting(sid, chunks[i], i, false);
    ChunkPostingWellFormed(sid, chunks[i], i, false);
    forall x | 0 <= x < |p.legs|
      ensures LevelHolds(s0, chunks, i + 1, p.legs[x].account) <==>
        InI64(BalanceOf(t, p.legs[x].account) + DeltaOf(p.legs[..x + 1], p.legs[x].account))
        && (IsUserGuarded(p.legs[x].account) ==>
          BalanceOf(t, p.legs[x].account) + DeltaOf(p.legs, p.legs[x].account) >= 0)
    {
      NextLevel(s0, t, chunks, i, x);
    }
    if ChunkGoesIn(s0, chunks, i) {
      assert CommitFits(t, p.legs) by {
        forall x | 0 <= x < |p.legs| ensures LegFits(t, p.legs, x) {
        }
      }
      PostingGoesIn(t, p);
    }
    if PostEntry(t, p).Ok? {
      PostedChunkLevels(sid, s0, t, chunks, i);
    }
  }

  lemma PostedChunkLevels(sid: string, s0: State, t: State, chunks: seq<Chunk>, i: nat)
    requires i < |chunks| && ChunkShape(chunks[i]) && Valid(t) && AfterChunks(s0, t, chunks, i)
    requires LegsFit(ChunkLegs(chunks[i], false)) && PostEntry(t, ChunkPosting(sid, chunks[i], i, false)).Ok?
    ensures ChunkGoesIn(s0, chunks, i)
  {
    hide PostEntry, ChunkLegs, LevelHolds, BalanceDelta, DeltaOf, LinksDerive, HeadsDerive, BalancesDerive, GuardHolds,
      Storable;
    var p := ChunkPosting(sid, chunks[i], i, false);
    ChunkPostingWellFormed(sid, chunks[i], i, false);
    GoesInFits(t, p);
    PostEntryKeepsValid(t, p);
    PostEntryEffect(t, p);
    var u := PostEntry(t, p).value;
    ValidLevel(s0, u, chunks, i + 1);
    forall x | 0 <= x < |p.legs| ensures InI64(BalanceDelta(p.legs[x]))
      && LevelHolds(s0, chunks, i + 1, p.legs[x].account) {
      assert LegFits(t, p.legs, x);
    }
  }

  lemma {:induction false} DistinctRunning(legs: seq<Leg>, i: nat)
    requires i < |legs| && forall x, y :: 0 <= x < y < |legs| ==> legs[x].account != legs[y].account
    ensures DeltaOf(legs[..i + 1], legs[i].account) == DeltaOf(legs, legs[i].account)
    decreases |legs|
  {
    var n := |legs| - 1;
    if i < n {
      DistinctRunning(legs[..n], i);
      assert legs[..n][..i + 1] == legs[..i + 1];
    } else {
      assert legs[..i + 1] == legs;
    }
  }

  lemma CompensationFits(s0: State, t: State, chunks: seq<Chunk>, j: nat)
    requires j < |chunks| && ChunkShape(chunks[j]) && ChunkFits(chunks[j]) && Negatable(chunks[j])
    requires AfterChunks(s0, t, chunks, j + 1) && GoodLevel(s0, chunks, j)
    ensures CommitFits(t, ChunkLegs(chunks[j], true)) && LegsFit(ChunkLegs(chunks[j], true))
  {
    hide ChunkLegs;
    var chunk, legs := chunks[j], ChunkLegs(chunks[j], true);
    forall x | 0 <= x < |legs| ensures InI64(legs[x].minor) && InI64(BalanceDelta(legs[x])) {
      ChunkLegAt(chunk, true, x);
    }
    forall x, y | 0 <= x < y < |legs| ensures legs[x].account != legs[y].account {
      ChunkLegAt(chunk, true, x);
      ChunkLegAt(chunk, true, y);
    }
    forall x | 0 <= x < |legs| ensures LegFits(t, legs, x) {
      var a := legs[x].account;
      DistinctRunning(legs, x);
      CompensationIsOpposite(chunk, a);
      assert LevelHolds(s0, chunks, j, a);
    }
  }

  /** On top of chunks 0..j, the compensation of chunk j goes in and takes the ledger back a level. */
  lemma CompensationGoesIn(sid: string, s0: State, t: State, chunks: seq<Chunk>, j: nat)
    requires j < |chunks| && ChunkShape(chunks[j]) && ChunkFits(chunks[j]) && Negatable(chunks[j])
    requires AfterChunks(s0, t, chunks, j + 1) && GoodLevel(s0, chunks, j)
    ensures var r := PostEntry(t, ChunkPosting(sid, chunks[j], j, true));
      r.Ok? && AfterChunks(s0, r.value, chunks, j) && LegsFit(ChunkLegs(chunks[j], true))
  {
    hide PostEntry, ChunkLegs;
    var p := ChunkPosting(sid, chunks[j], j, true);
    ChunkPostingWellFormed(sid, chunks[j], j, true);
    CompensationFits(s0, t, chunks, j);
    forall a ensures DeltaOf(p.legs, a) == -ChunkDelta(chunks[j], a) {
      CompensationIsOpposite(chunks[j], a);
    }
    forall a | a in AccountsIn(p.legs) && IsUserGuarded(a) ensures BalanceOf(t, a) + DeltaOf(p.legs, a) >= 0 {
      assert LevelHolds(s0, chunks, j, a);
    }
    PostingGoesIn(t, p);
    PostEntryEffect(t, p);
  }

  ghost predicate LevelsBelow(s0: State, chunks: seq<Chunk>, j: nat)
    requires j <= |chunks|
  {
    forall x :: 0 <= x < j ==> GoodLevel(s0, chunks, x) && ChunkShape(chunks[x]) && ChunkFits(chunks[x])
  }

  lemma FewerLevels(s0: State, chunks: seq<Chunk>, j: nat)
    requires 0 < j <= |chunks| && LevelsBelow(s0, chunks, j)
    ensures LevelsBelow(s0, chunks, j - 1)
  {
  }

  /** Nobody else, nothing replayed, none of the first j chunks compensated. */
  ghost predicate AloneAbove(w: World, sid: string, movements: seq<Movement>, width: nat, j: nat)
    requires width > 0
  {
    Alone(w, sid, movements, width, 0) && forall x :: 0 <= x < j ==> !Posted(w.ledger, CompTxn(sid, x))
  }

  /** The one chunk that cannot be undone: an amount in it has no storable opposite. */
  lemma UnnegatableIsRefused(sid: string, chunk: Chunk, j: nat, w: World)
    requires !Negatable(chunk)
    ensures PostChunk(sid, chunk, j, true, w).verdict.Refused?
  {
    var x :| 0 <= x < |chunk| && chunk[x].minor == I64_MIN;
    ParticipantCount(chunk, true);
    ParticipantAt(chunk, true, x);
    assert ChunkLegs(chunk, true)[x] == ParticipantLegs(chunk, true)[x];
  }

  lemma OneCompensationGoesIn(sid: string, s0: State, movements: seq<Movement>, width: nat, j: nat, w: World)
    requires width > 0 && j < |Chunks(movements, width)| && w.lives > 0 && Negatable(Chunks(movements, width)[j])
    requires AloneAbove(w, sid, movements, width, j + 1) && LevelsBelow(s0, Chunks(movements, width), j + 1)
    requires AfterChunks(s0, w.ledger, Chunks(movements, width), j + 1)
    ensures var s := PostChunk(sid, Chunks(movements, width)[j], j, true, w);
      && s.verdict.Done? && s.world.lives == w.lives - 1 && AloneAbove(s.world, sid, movements, width, j)
      && AfterChunks(s0, s.world.ledger, Chunks(movements, width), j)
  {
    hide PostEntry, ChunkLegs;
    var cs := Chunks(movements, width);
    var p := ChunkPosting(sid, cs[j], j, true);
    CompensationGoesIn(sid, s0, w.ledger, cs, j);
    assert !Posted(w.ledger, CompTxn(sid, j));
    AloneTransact(w, p);
    TransactStep(w, p, sid, cs, movements);
    var t := Transact(w, p).world.ledger;
    forall x | 0 <= x < j ensures !Posted(t, CompTxn(sid, x)) {
      assert OfSession(CompTxn(sid, x), sid);
    }
    forall q | 0 <= q < |movements| ensures !Posted(t, ReplayTxn(sid, q)) {
      assert OfSession(ReplayTxn(sid, q), sid);
    }
  }

  /** All undone, back at the opening balances; or stopped at a chunk that cannot be. */
  ghost predicate UndoneAlone(s0: State, w: World, r: Pass, sid: string, movements: seq<Movement>, width: nat, j: nat)
    requires width > 0 && j <= |Chunks(movements, width)|
  {
    var cs := Chunks(movements, width);
    && !r.progress.DiedAt?
    && (r.progress.Finished? <==> forall x :: 0 <= x < j ==> Negatable(cs[x]))
    && (r.progress.Finished? ==>
          r.world.lives == w.lives - j && Alone(r.world, sid, movements, width, 0)
            && AfterChunks(s0, r.world.ledger, cs, 0))
  }

  /** Under the screen, a compensation is refused only for an amount that has no storable opposite. */
  lemma {:induction false} CompensationsGoIn(sid: string, s0: State, movements: seq<Movement>, width: nat, j: nat,
      w: World)
    requires width > 0 && j <= |Chunks(movements, width)| && w.lives >= j
    requires AloneAbove(w, sid, movements, width, j) && LevelsBelow(s0, Chunks(movements, width), j)
    requires AfterChunks(s0, w.ledger, Chunks(movements, width), j)
    ensures UndoneAlone(s0, w, Compensate(sid, Chunks(movements, width), j, w), sid, movements, width, j)
  {
    hide PostChunk, Chunks, Negatable, Alone, AfterChunks, LevelsBelow;
    if j > 0 {
      var cs := Chunks(movements, width);
      if Negatable(cs[j - 1]) {
        OneCompensationGoesIn(sid, s0, movements, width, j - 1, w);
        var s := PostChunk(sid, cs[j - 1], j - 1, true, w);
        FewerLevels(s0, cs, j);
        CompensationsGoIn(sid, s0, movements, width, j - 1, s.world);
      } else {
        UnnegatableIsRefused(sid, cs[j - 1], j - 1, w);
      }
    }
  }

  // ---- Chunks of a screened settle ----------------------------------------------------

  /** Nothing of the session is on the ledger but its first i chunks. */
  ghost predicate OnlyChunks(w: World, sid: string, movements: seq<Movement>, width: nat, i: nat)
    requires width > 0
  {
    && AloneAbove(w, sid, movements, width, |Chunks(movements, width)|) && Valid(w.ledger)
    && forall x :: i <= x < |Chunks(movements, width)| ==> !Posted(w.ledger, ChunkTxn(sid, x))
  }

  /** A chunk that goes in takes the balances one level on. */
  lemma ChunkAccepted(sid: string, s0: State, t: State, chunks: seq<Chunk>, i: nat)
    requires i < |chunks| && ChunkShape(chunks[i]) && Valid(t) && AfterChunks(s0, t, chunks, i)
    requires LegsFit(ChunkLegs(chunks[i], false)) && PostEntry(t, ChunkPosting(sid, chunks[i], i, false)).Ok?
    ensures var u := PostEntry(t, ChunkPosting(sid, chunks[i], i, false)).value;
      Valid(u) && AfterChunks(s0, u, chunks, i + 1) && ChunkFits(chunks[i])
  {
    hide PostEntry, ChunkLegs, Valid, ChunkShape, ChunkFits;
    var p := ChunkPosting(sid, chunks[i], i, false);
    PostEntryKeepsValid(t, p);
    PostEntryEffect(t, p);
    PostedChunkFitsBack(t, sid, chunks[i], i);
  }

  lemma OneChunkIds(w: World, t: World, sid: string, movements: seq<Movement>, width: nat, i: nat)
    requires width > 0 && i < |Chunks(movements, width)| && t.others == [] && Valid(t.ledger)
    requires OnlyChunks(w, sid, movements, width, i) && Ready(t, sid, Chunks(movements, width), movements)
    requires PostedPlus(w.ledger, t.ledger, sid, ChunkTxn(sid, i))
    ensures OnlyChunks(t, sid, movements, width, i + 1)
  {
    hide Valid;
    forall x | 0 <= x < |Chunks(movements, width)|
      ensures !Posted(t.ledger, CompTxn(sid, x))
      ensures i + 1 <= x ==> !Posted(t.ledger, ChunkTxn(sid, x))
    {
      assert OfSession(CompTxn(sid, x), sid) && OfSession(ChunkTxn(sid, x), sid);
    }
    forall q | 0 <= q < |movements| ensures !Posted(t.ledger, ReplayTxn(sid, q)) {
      assert OfSession(ReplayTxn(sid, q), sid);
    }
  }

  lemma OneChunkTried(sid: string, s0: State, movements: seq<Movement>, width: nat, i: nat, w: World)
    requires width > 0 && i < |Chunks(movements, width)| && w.lives > 0
    requires OnlyChunks(w, sid, movements, width, i) && AfterChunks(s0, w.ledger, Chunks(movements, width), i)
    requires ChunkShape(Chunks(movements, width)[i])
    ensures var s := PostChunk(sid, Chunks(movements, width)[i], i, false, w);
      && !s.verdict.Crashed? && s.world.lives >= w.lives - 1
      && (s.verdict.Done? <==> ChunkGoesIn(s0, Chunks(movements, width), i))
      && (s.verdict.Done? ==>
            OnlyChunks(s.world, sid, movements, width, i + 1)
              && AfterChunks(s0, s.world.ledger, Chunks(movements, width), i + 1)
            && ChunkFits(Chunks(movements, width)[i]))
      && (s.verdict.Refused? ==>
            OnlyChunks(s.world, sid, movements, width, i)
              && AfterChunks(s0, s.world.ledger, Chunks(movements, width), i))
  {
    hide PostEntry, ChunkLegs, Valid, ChunkGoesIn, ChunkShape, ChunkFits, AfterChunks, Positions, ChunksOf;
    var cs := Chunks(movements, width);
    var p := ChunkPosting(sid, cs[i], i, false);
    if LegsFit(ChunkLegs(cs[i], false)) {
      assert !Posted(w.ledger, ChunkTxn(sid, i));
      ChunkAcceptedWhen(sid, s0, w.ledger, cs, i);
      AloneTransact(w, p);
      TransactStep(w, p, sid, cs, movements);
      if Transact(w, p).verdict.Done? {
        ChunkAccepted(sid, s0, w.ledger, cs, i);
        OneChunkIds(w, Transact(w, p).world, sid, movements, width, i);
      }
    } else {
      UnfitDoesNotGoIn(s0, cs, i);
    }
  }

  lemma UnfitDoesNotGoIn(s0: State, chunks: seq<Chunk>, i: nat)
    requires i < |chunks| && !LegsFit(ChunkLegs(chunks[i], false))
    ensures !ChunkGoesIn(s0, chunks, i)
  {
  }

  lemma PostedChunkFitsBack(s: State, sid: string, chunk: Chunk, i: nat)
    requires ChunkShape(chunk) && LegsFit(ChunkLegs(chunk, false))
      && PostEntry(s, ChunkPosting(sid, chunk, i, false)).Ok?
    ensures ChunkFits(chunk)
  {
    hide PostEntry;
    var p := ChunkPosting(sid, chunk, i, false);
    ChunkPostingWellFormed(sid, chunk, i, false);
    GoesInFits(s, p);
    ParticipantCount(chunk, false);
    forall x | 0 <= x < |chunk| ensures InI64(chunk[x].minor) {
      ChunkLegAt(chunk, false, x);
      assert InI64(ChunkLegs(chunk, false)[x].minor);
    }
    if SumOf(chunk) != 0 {
      assert p.legs[|chunk|] == Leg(NETTING_CLEARING, CREDIT, -SumOf(chunk));
      assert LegFits(s, p.legs, |chunk|);
    }
  }

  ghost predicate ChunksTried(s0: State, w: World, r: Pass, sid: string, movements: seq<Movement>, width: nat, i: nat)
    requires width > 0 && i <= |Chunks(movements, width)|
  {
    var cs := Chunks(movements, width);
    var j := if r.progress.Finished? then |cs| else r.progress.index;
    && !r.progress.DiedAt? && i <= j <= |cs|
    && r.world.lives >= w.lives - (|cs| - i)
    && OnlyChunks(r.world, sid, movements, width, j) && AfterChunks(s0, r.world.ledger, cs, j)
    && (r.progress.RefusedAt? ==> j < |cs| && !ChunkGoesIn(s0, cs, j))
    && forall x :: i <= x < j ==>
      GoodLevel(s0, cs, x) && ChunkGoesIn(s0, cs, x) && ChunkShape(cs[x]) && ChunkFits(cs[x])
  }

  lemma ChunksTriedOneMore(s0: State, w: World, w1: World, r: Pass, sid: string, movements: seq<Movement>, width: nat,
      i: nat)
    requires width > 0 && i < |Chunks(movements, width)| && w1.lives >= w.lives - 1
    requires ChunksTried(s0, w1, r, sid, movements, width, i + 1)
    requires GoodLevel(s0, Chunks(movements, width), i) && ChunkGoesIn(s0, Chunks(movements, width), i)
    requires ChunkShape(Chunks(movements, width)[i]) && ChunkFits(Chunks(movements, width)[i])
    ensures ChunksTried(s0, w, r, sid, movements, width, i)
  {
    hide Chunks, GoodLevel, ChunkShape, OnlyChunks, ChunkFits, ChunkGoesIn;
  }

  lemma {:induction false} ScreenedChunks(sid: string, s0: State, movements: seq<Movement>, width: nat, i: nat,
      w: World)
    requires width > 0 && Premises(s0, movements, width)
    requires i <= |Chunks(movements, width)| && w.lives >= |Chunks(movements, width)| - i
    requires OnlyChunks(w, sid, movements, width, i) && AfterChunks(s0, w.ledger, Chunks(movements, width), i)
    ensures ChunksTried(s0, w, PostChunks(sid, Chunks(movements, width), i, w), sid, movements, width, i)
    decreases |Chunks(movements, width)| - i
  {
    hide Chunks, PostChunk, Premises, GoodLevel, ChunkShape, OnlyChunks, ChunkFits, ChunkGoesIn, AfterChunks;
    var cs := Chunks(movements, width);
    if i < |cs| {
      ChunksHaveShape(s0, movements, width, i);
      OneChunkTried(sid, s0, movements, width, i, w);
      LevelNow(s0, w, sid, movements, width, i);
      var s := PostChunk(sid, cs[i], i, false, w);
      if s.verdict.Done? {
        ScreenedChunks(sid, s0, movements, width, i + 1, s.world);
        ChunksTriedOneMore(s0, w, s.world, PostChunks(sid, cs, i + 1, s.world), sid, movements, width, i);
      }
    }
  }

  lemma LevelNow(s0: State, w: World, sid: string, movements: seq<Movement>, width: nat, i: nat)
    requires width > 0 && i <= |Chunks(movements, width)|
    requires OnlyChunks(w, sid, movements, width, i) && AfterChunks(s0, w.ledger, Chunks(movements, width), i)
    ensures GoodLevel(s0, Chunks(movements, width), i)
  {
    ValidLevel(s0, w.ledger, Chunks(movements, width), i);
  }

  // ---- The theorem ----------------------------------------------------------------------

  /**
   What settle does, by the opening balances alone. It returns exactly if what it would have to undo can
   be undone, nets exactly if the chunks go in, and rejects nothing exactly if they do or every movement
   fits; then every balance is opening plus all movements.
   */
  ghost predicate AcceptedWhen(s0: State, r: Settled, movements: seq<Movement>, width: nat)
    requires width > 0
  {
    && !r.outcome.Died?
    && (r.outcome.Returned? <==> Undoable(s0, movements, width))
    && (r.outcome.Returned? ==>
          var report := r.outcome.report;
          && (report.mode.Netted? <==> ChunksGoIn(s0, movements, width))
          && (report.rejected == [] <==> ChunksGoIn(s0, movements, width) || MovementsFit(s0, movements))
          && (report.rejected == [] ==> AfterMovements(s0, r.world.ledger, movements, |movements|)))
  }

  /** A replay from the opening balances rejects nothing exactly if every movement fits. */
  ghost predicate ReplayedWhen(s0: State, r: Settled, movements: seq<Movement>) {
    && r.outcome.Returned? && r.outcome.report.mode.Replayed?
    && (r.outcome.report.rejected == [] <==> MovementsFit(s0, movements))
    && (r.outcome.report.rejected == [] ==> AfterMovements(s0, r.world.ledger, movements, |movements|))
  }

  /** Which compensations are asked for is decided by the first chunk that does not go in. */
  lemma UndoableAtFirst(s0: State, movements: seq<Movement>, width: nat, j: nat)
    requires width > 0 && j < |Chunks(movements, width)| && !ChunkGoesIn(s0, Chunks(movements, width), j)
    requires forall x :: 0 <= x < j ==> ChunkGoesIn(s0, Chunks(movements, width), x)
    ensures Undoable(s0, movements, width) <==> forall x :: 0 <= x < j ==> Negatable(Chunks(movements, width)[x])
  {
    hide Chunks, ChunkGoesIn, Negatable;
    var cs := Chunks(movements, width);
    forall k | 0 <= k < |cs| && k != j ensures UndoableFrom(s0, cs, k) {
      OneFirstRefused(s0, cs, j, k);
    }
    assert UndoableFrom(s0, cs, j) <==> forall x :: 0 <= x < j ==> Negatable(cs[x]);
  }

  lemma ScreenedReplay(sid: string, s0: State, movements: seq<Movement>, width: nat, w: World)
    requires Premises(s0, movements, width) && w.lives >= |movements|
    requires Alone(w, sid, movements, width, 0) && AfterMovements(s0, w.ledger, movements, 0)
    ensures ReplayedWhen(s0, ReplayAll(sid, movements, w), movements)
  {
    hide Transact, MovementFits, AfterMovements;
    ReplayAlone(sid, s0, movements, width, |movements|, w);
  }

  lemma ScreenedFailOver(sid: string, s0: State, movements: seq<Movement>, width: nat, j: nat, w: World)
    requires Premises(s0, movements, width) && j <= |Chunks(movements, width)| && w.lives >= j + |movements|
    requires AloneAbove(w, sid, movements, width, j) && LevelsBelow(s0, Chunks(movements, width), j)
    requires AfterChunks(s0, w.ledger, Chunks(movements, width), j)
    requires !ChunksGoIn(s0, movements, width)
    requires Undoable(s0, movements, width) <==> forall x :: 0 <= x < j ==> Negatable(Chunks(movements, width)[x])
    ensures AcceptedWhen(s0, FailOver(sid, movements, Chunks(movements, width), j, w), movements, width)
  {
    hide PostChunk, ReplayAll, MovementsFit, ChunksGoIn, Undoable, Negatable, Positions, ChunksOf;
    var cs := Chunks(movements, width);
    CompensationsGoIn(sid, s0, movements, width, j, w);
    var c := Compensate(sid, cs, j, w);
    if c.progress.Finished? {
      forall a ensures BalanceOf(c.world.ledger, a) == BalanceOf(s0, a) + MovementTotal(movements, 0, a) {
        assert ChunkTotal(cs, 0, a) == 0;
      }
      ScreenedReplay(sid, s0, movements, width, c.world);
    }
  }

  lemma NettedReachesNet(s0: State, t: State, movements: seq<Movement>, width: nat)
    requires WellFormed(movements, width) && AfterChunks(s0, t, Chunks(movements, width), |Chunks(movements, width)|)
    ensures AfterMovements(s0, t, movements, |movements|)
  {
    forall a ensures BalanceOf(t, a) == BalanceOf(s0, a) + MovementTotal(movements, |movements|, a) {
      ChunksAddUpToNet(movements, width, a);
    }
  }

  lemma ScreenedNetted(sid: string, s0: State, movements: seq<Movement>, width: nat, w: World)
    requires Premises(s0, movements, width) && w.lives >= 2 * |Chunks(movements, width)| + |movements|
    requires OnlyChunks(w, sid, movements, width, 0) && AfterChunks(s0, w.ledger, Chunks(movements, width), 0)
    ensures AcceptedWhen(s0, SettleNetted(sid, movements, Chunks(movements, width), w), movements, width)
  {
    hide PostChunk, FailOver, MovementsFit, Positions, ChunksOf, ChunkGoesIn, Negatable, GoodLevel, ChunkShape,
      ChunkFits,
      AfterChunks, AfterMovements, Alone;
    var cs := Chunks(movements, width);
    ScreenedChunks(sid, s0, movements, width, 0, w);
    var p := PostChunks(sid, cs, 0, w);
    match p.progress
    case Finished =>
      NettedReachesNet(s0, p.world.ledger, movements, width);
    case RefusedAt(j, _) =>
      UndoableAtFirst(s0, movements, width, j);
      ScreenedFailOver(sid, s0, movements, width, j, p.world);
  }

  /**
   Screen soundness: with nobody else posting, settling a journal the accept screen let through, whatever
   the chunk width, does what the balances before the call decide. The screen knows nothing of column
   widths or of clearing: it throws exactly if some chunk, posted before one that is refused, has no
   storable opposite; it nets exactly if all chunks go in; and it rejects nothing exactly if they do, or
   if every movement's running balances are storable. Then, on either path, every account ends at its
   opening balance plus the sum of the movements.
   */
  lemma ScreenedJournalIsRejectedWhen(sid: string, movements: seq<Movement>, width: nat, s0: State, lives: nat)
    requires Valid(s0) && Fresh(s0, sid) && Premises(s0, movements, width)
    requires lives >= 2 * |Chunks(movements, width)| + |movements|
    ensures AcceptedWhen(s0, Settle(sid, movements, width, false, World(s0, [], lives)), movements, width)
    ensures ReplayedWhen(s0, ReplayAll(sid, movements, World(s0, [], lives)), movements)
  {
    hide SettleNetted, ReplayAll, MovementFits;
    var w, cs := World(s0, [], lives), Chunks(movements, width);
    FreshIsResumable(s0, sid, movements, width);
    assert Alone(w, sid, movements, width, 0);
    assert AfterMovements(s0, s0, movements, 0);
    assert AfterChunks(s0, s0, cs, 0);
    ScreenedReplay(sid, s0, movements, width, w);
    if movements != [] {
      ScreenedNetted(sid, s0, movements, width, w);
    }
  }
}
