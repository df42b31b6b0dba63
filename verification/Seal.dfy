/**
 The checkpoint seal (src/chain.ts `recordCheckpoint`, `planSeal`, `proveDirtyTails`): sign the sum
 root over every head, re-proving either the whole ledger or - when the last seal's leaves are still
 authentic - only the chain tails of accounts whose head has moved since.
 */
module Seal {
  import opened Accounts
  import opened Chain
  import opened Integrity
  import opened Ledger
  import opened Merkle
  import opened Money
  import opened Text

  /** A signer that verifies exactly what it signed: root and sum, or before version 2 the root alone. */
  datatype Signature = Signed(payload: Summed) | SignedRoot(root: Node)

  /** `sum` is absent on checkpoints from before version 2. */
  datatype Checkpoint = Checkpoint(root: Node, sum: Option<int>, signature: Signature, count: nat, version: nat)

  // ---- The leaves ----------------------------------------------------------------------

  /** An account's raw, debit-positive leg total. */
  function RawSum(log: seq<Entry>, a: AccountRef): int {
    if log == [] then 0 else RawSum(log[..|log| - 1], a) + RawOf(log[|log| - 1].posting.legs, a)
  }

  function Leaves(s: State, heads: seq<AccountRef>): seq<SealHead> {
    seq(|heads|, i requires 0 <= i < |heads| => SealHead(heads[i], HeadOf(s, heads[i]), RawSum(s.log, heads[i])))
  }

  lemma RawStep(legs: seq<Leg>, k: nat)
    requires k < |legs|
    ensures forall a ::
      RawOf(legs[..k + 1], a) == RawOf(legs[..k], a) + if legs[k].account == a then legs[k].minor else 0
  {
    PrefixStep(legs, k);
  }

  /** One pass over the log for the sums, one over the heads for the leaves. */
  method HeadSums(s: State, heads: seq<AccountRef>) returns (leaves: seq<SealHead>)
    ensures leaves == Leaves(s, heads)
  {
    var raw: map<AccountRef, int> := map[];
    for k := 0 to |s.log|
      invariant forall a :: (if a in raw then raw[a] else 0) == RawSum(s.log[..k], a)
    {
      PrefixStep(s.log, k);
      var legs := s.log[k].posting.legs;
      for i := 0 to |legs|
        invariant forall a :: (if a in raw then raw[a] else 0) == RawSum(s.log[..k], a) + RawOf(legs[..i], a)
      {
        RawStep(legs, i);
        var a := legs[i].account;
        raw := raw[a := (if a in raw then raw[a] else 0) + legs[i].minor];
      }
      assert legs[..|legs|] == legs;
    }
    assert s.log[..|s.log|] == s.log;
    leaves := [];
    for k := 0 to |heads|
      invariant |leaves| == k
      invariant forall i :: 0 <= i < k ==> leaves[i] == SealHead(heads[i], HeadOf(s, heads[i]), RawSum(s.log, heads[i]))
    {
      var a := heads[k];
      leaves := leaves + [SealHead(a, HeadOf(s, a), if a in raw then raw[a] else 0)];
    }
  }

  // ---- The plan ------------------------------------------------------------------------

  datatype Plan =
    | Full
    | Incremental(dirty: seq<SealHead>, since: map<AccountRef, Hash>)
    | Vanished(account: AccountRef)
    | SumOverflow

  function SinceOf(snapshot: seq<SealHead>): map<AccountRef, Hash> {
    if snapshot == [] then map[]
    else
      var last := snapshot[|snapshot| - 1];
      SinceOf(snapshot[..|snapshot| - 1])[last.account := last.head]
  }

  predicate IsLive(live: seq<SealHead>, a: AccountRef) {
    exists i :: 0 <= i < |live| && live[i].account == a
  }

  function FirstMissing(snapshot: seq<SealHead>, live: seq<SealHead>): Option<AccountRef> {
    if snapshot == [] then None
    else if !IsLive(live, snapshot[0].account) then Some(snapshot[0].account)
    else FirstMissing(snapshot[1..], live)
  }

  predicate Moved(since: map<AccountRef, Hash>, l: SealHead) {
    l.account !in since || since[l.account] != l.head
  }

  function DirtyOf(live: seq<SealHead>, since: map<AccountRef, Hash>): (r: seq<SealHead>)
    ensures forall l :: l in r <==> l in live && Moved(since, l)
  {
    if live == [] then []
    else
      var last := live[|live| - 1];
      assert live == live[..|live| - 1] + [last];
      DirtyOf(live[..|live| - 1], since) + if Moved(since, last) then [last] else []
  }

  /** A snapshot is trusted only when its own root and sum are the ones the last signature covers. */
  predicate Authentic(root: Summed, latest: Checkpoint) {
    root.hash == latest.root && Some(root.sum) == latest.sum && latest.signature == Signed(root)
  }

  function PlanSeal(snapshot: seq<SealHead>, latest: Option<Checkpoint>, live: seq<SealHead>): Plan {
    if snapshot == [] || latest == None || latest.value.version != 2 || latest.value.sum == None then Full
    else
      match SumRoot(snapshot)
      case None => SumOverflow
      case Some(root) =>
        if !Authentic(root, latest.value) then Full
        else
          match FirstMissing(snapshot, live)
          case Some(a) => Vanished(a)
          case None => Incremental(DirtyOf(live, SinceOf(snapshot)), SinceOf(snapshot))
  }

  // ---- The dirty tails -----------------------------------------------------------------

  /** The lineage read bounded by `sinceHash`: what follows the first link that carries it. */
  function After(chain: seq<StoredLink>, h: Hash): seq<StoredLink> {
    if chain == [] then []
    else if chain[0].hash == h then chain[1..]
    else After(chain[1..], h)
  }

  function TailRead(chain: seq<StoredLink>, since: Option<Hash>): seq<StoredLink> {
    match since
    case None => chain
    case Some(h) => After(chain, h)
  }

  function SinceFor(since: map<AccountRef, Hash>, a: AccountRef): Option<Hash> {
    if a in since then Some(since[a]) else None
  }

  function StartOf(since: Option<Hash>): Hash {
    match since
    case None => Genesis
    case Some(h) => h
  }

  /** The tail joins up from the sealed head, re-derives, and passes through the head being signed. */
  predicate TailAccepts(a: AccountRef, since: Option<Hash>, liveHead: Hash, chain: seq<StoredLink>) {
    Linked(a, StartOf(since), TailRead(chain, since)) && Carries(TailRead(chain, since), liveHead)
  }

  predicate LeafTailAccepts(log: seq<Entry>, since: map<AccountRef, Hash>, l: SealHead) {
    TailAccepts(l.account, SinceFor(since, l.account), l.head, Lineage(log, l.account))
  }

  predicate TailsAccept(log: seq<Entry>, dirty: seq<SealHead>, since: map<AccountRef, Hash>) {
    forall i :: 0 <= i < |dirty| ==> LeafTailAccepts(log, since, dirty[i])
  }

  lemma TailBreaks(a: AccountRef, from: Hash, tail: seq<StoredLink>, k: nat)
    requires k < |tail|
    requires tail[k].prevHash != EndOf(from, tail[..k]) || !LinkDerives(a, tail[k])
    ensures !Linked(a, from, tail)
  {
    if Linked(a, from, tail) {
      LinkedPrefix(a, from, tail, k);
    }
  }

  /** One account's tail, link by link, with the running head and the `reached` flag. */
  method WalkTail(a: AccountRef, since: Option<Hash>, liveHead: Hash, chain: seq<StoredLink>)
      returns (broken: Option<ChainBreak>)
    ensures broken == None <==> TailAccepts(a, since, liveHead, chain)
    ensures broken.Some? ==>
      var from, tail := StartOf(since), TailRead(chain, since);
      (exists k: nat :: BreaksAt(broken.value, a, from, tail, k)) || NeverShows(broken.value, a, from, tail, liveHead)
  {
    var tail := TailRead(chain, since);
    var from := StartOf(since);
    var prev, reached := from, false;
    for k := 0 to |tail|
      invariant prev == EndOf(from, tail[..k]) && Linked(a, from, tail[..k])
      invariant reached <==> Carries(tail[..k], liveHead)
    {
      PrefixStep(tail, k);
      var link := tail[k];
      if link.prevHash != prev {
        TailBreaks(a, from, tail, k);
        broken := Some(ChainBreak(a, Some(link.posting.txnId), BrokenLink, prev, link.prevHash));
        assert BreaksAt(broken.value, a, from, tail, k);
        return;
      }
      var recomputed := ChainHash(link.prevHash, link.posting, a);
      if recomputed != link.hash {
        TailBreaks(a, from, tail, k);
        broken := Some(ChainBreak(a, Some(link.posting.txnId), TamperedHash, recomputed, link.hash));
        assert BreaksAt(broken.value, a, from, tail, k);
        return;
      }
      LinkedSnoc(a, from, tail[..k], link);
      CarriesSnoc(tail[..k], link, liveHead);
      prev := link.hash;
      if prev == liveHead {
        reached := true;
      }
    }
    assert tail[..|tail|] == tail;
    if !reached {
      return Some(ChainBreak(a, None, BrokenLink, liveHead, prev));
    }
    return None;
  }

  method ProveDirtyTails(log: seq<Entry>, dirty: seq<SealHead>, since: map<AccountRef, Hash>)
      returns (broken: Option<ChainBreak>)
    ensures broken == None <==> TailsAccept(log, dirty, since)
  {
    hide TailAccepts;
    for k := 0 to |dirty|
      invariant forall i :: 0 <= i < k ==> LeafTailAccepts(log, since, dirty[i])
    {
      broken := WalkTail(dirty[k].account, SinceFor(since, dirty[k].account), dirty[k].head,
        Lineage(log, dirty[k].account));
      if broken != None {
        assert !LeafTailAccepts(log, since, dirty[k]);
        return;
      }
    }
    return None;
  }

  // ---- The record ----------------------------------------------------------------------

  datatype Refusal = TamperedChain | VanishedAccount | NonzeroSum | SumTooLarge

  datatype Sealing = SealedAs(checkpoint: Checkpoint, snapshot: seq<SealHead>) | RefusedSeal(why: Refusal)

  /** Upsert into the one-row-per-account table. */
  function Upsert(rows: seq<SealHead>, l: SealHead): seq<SealHead> {
    if rows == [] then [l]
    else if rows[0].account == l.account then [l] + rows[1..]
    else [rows[0]] + Upsert(rows[1..], l)
  }

  function UpsertAll(rows: seq<SealHead>, leaves: seq<SealHead>): seq<SealHead> {
    if leaves == [] then rows
    else Upsert(UpsertAll(rows, leaves[..|leaves| - 1]), leaves[|leaves| - 1])
  }

  function CheckpointFor(root: Summed, leaves: seq<SealHead>): Checkpoint {
    Checkpoint(root.hash, Some(root.sum), Signed(root), |leaves|, 2)
  }

  ghost predicate ProofHolds(s: State, plan: Plan) {
    if plan.Incremental? then TailsAccept(s.log, plan.dirty, plan.since) else ChainsIntact(s)
  }

  ghost function SealOver(s: State, heads: seq<AccountRef>, snapshot: seq<SealHead>,
      latest: Option<Checkpoint>): Sealing
  {
    var leaves := Leaves(s, heads);
    var plan := PlanSeal(snapshot, latest, leaves);
    if plan.Vanished? then RefusedSeal(VanishedAccount)
    else if plan.SumOverflow? then RefusedSeal(SumTooLarge)
    else if !ProofHolds(s, plan) then RefusedSeal(TamperedChain)
    else
      match SumRoot(leaves)
      case None => RefusedSeal(SumTooLarge)
      case Some(root) =>
        if root.sum != 0 then RefusedSeal(NonzeroSum)
        else SealedAs(CheckpointFor(root, leaves),
          if plan.Incremental? then UpsertAll(snapshot, plan.dirty) else UpsertAll([], leaves))
  }

  method MakePlan(snapshot: seq<SealHead>, latest: Option<Checkpoint>, live: seq<SealHead>) returns (plan: Plan)
    ensures plan == PlanSeal(snapshot, latest, live)
    ensures plan.Incremental? ==> snapshot != [] && Vouched(snapshot, latest)
  {
    hide SumRoot;
    PlanTrustsOnlyVouched(snapshot, latest, live);
    if snapshot == [] || latest == None || latest.value.version != 2 || latest.value.sum == None {
      return Full;
    }
    var root := MerkleSumRoot(snapshot);
    if root == None {
      return SumOverflow;
    }
    if !Authentic(root.value, latest.value) {
      return Full;
    }
    var since: map<AccountRef, Hash> := map[];
    for k := 0 to |snapshot|
      invariant since == SinceOf(snapshot[..k])
    {
      PrefixStep(snapshot, k);
      since := since[snapshot[k].account := snapshot[k].head];
    }
    assert snapshot[..|snapshot|] == snapshot;
    assert snapshot[0..] == snapshot;
    for k := 0 to |snapshot|
      invariant FirstMissing(snapshot, live) == FirstMissing(snapshot[k..], live)
    {
      assert snapshot[k..][0] == snapshot[k] && snapshot[k..][1..] == snapshot[k + 1..];
      if !IsLive(live, snapshot[k].account) {
        return Vanished(snapshot[k].account);
      }
    }
    var dirty: seq<SealHead> := [];
    for k := 0 to |live|
      invariant dirty == DirtyOf(live[..k], since)
    {
      PrefixStep(live, k);
      if Moved(since, live[k]) {
        dirty := dirty + [live[k]];
      }
    }
    assert live[..|live|] == live;
    return Incremental(dirty, since);
  }

  /** What the lemmas below say of a seal, as one fact about the one that is about to run. */
  lemma SealSays(s: State, heads: seq<AccountRef>, snapshot: seq<SealHead>, latest: Option<Checkpoint>)
    ensures var r := SealOver(s, heads, snapshot, latest);
      r.SealedAs? ==>
        && TotalOf(Leaves(s, heads)) == 0 && Vouched(Leaves(s, heads), Some(r.checkpoint))
        && r.checkpoint.count == |heads| && (ChainsIntact(s) || Vouched(snapshot, latest))
        && forall sealed ::
            SumRoot(sealed).Some? && OneRowPerId(sealed)
            && latest == Some(CheckpointFor(SumRoot(sealed).value, sealed))
            && multiset(snapshot) != multiset(sealed) ==>
              ChainsIntact(s)
  {
    hide SumRoot, SealOver, Vouched, ChainsIntact, TailsAccept, OneRowPerId, TotalOf, Leaves, CheckpointFor;
    if SealOver(s, heads, snapshot, latest).SealedAs? {
      SealStandsFor(s, heads, snapshot, latest);
      forall sealed | SumRoot(sealed).Some? && OneRowPerId(sealed)
        && latest == Some(CheckpointFor(SumRoot(sealed).value, sealed)) && multiset(snapshot) != multiset(sealed)
        ensures ChainsIntact(s)
      {
        ForgedSnapshotIsProvedWhole(s, heads, snapshot, sealed);
      }
    }
  }

  class CheckpointStore {
    var latest: Option<Checkpoint>
    var sealHeads: seq<SealHead>

    constructor ()
      ensures latest == None && sealHeads == []
    {
      latest, sealHeads := None, [];
    }

    method PutSealHeads(leaves: seq<SealHead>, replaceAll: bool)
      modifies this`sealHeads
      ensures sealHeads == UpsertAll(if replaceAll then [] else old(sealHeads), leaves)
    {
      if replaceAll {
        sealHeads := [];
      }
      ghost var start := sealHeads;
      for k := 0 to |leaves|
        invariant sealHeads == UpsertAll(start, leaves[..k])
      {
        PrefixStep(leaves, k);
        sealHeads := Upsert(sealHeads, leaves[k]);
      }
      assert leaves[..|leaves|] == leaves;
    }

    /** Proves, sums, signs and saves; anything that does not hold persists nothing. */
    method RecordCheckpoint(s: State, heads: seq<AccountRef>) returns (refusal: Option<Refusal>)
      requires Enumerates(heads, s.heads.Keys)
      modifies this
      ensures var r := SealOver(s, heads, old(sealHeads), old(latest));
        match r
        case RefusedSeal(why) => refusal == Some(why) && latest == old(latest) && sealHeads == old(sealHeads)
        case SealedAs(checkpoint, snapshot) => refusal == None && latest == Some(checkpoint) && sealHeads == snapshot
      ensures refusal == None ==>
        && TotalOf(Leaves(s, heads)) == 0 && Vouched(Leaves(s, heads), latest) && latest.value.count == |heads|
        && (ChainsIntact(s) || Vouched(old(sealHeads), old(latest)))
      ensures forall sealed ::
        refusal == None && SumRoot(sealed).Some? && OneRowPerId(sealed)
        && old(latest) == Some(CheckpointFor(SumRoot(sealed).value, sealed))
        && multiset(old(sealHeads)) != multiset(sealed) ==>
          ChainsIntact(s)
    {
      SealSays(s, heads, sealHeads, latest);
      hide OneRowPerId, Vouched, TotalOf;
      hide PlanSeal, SumRoot, TailsAccept, ChainsIntact, Leaves, UpsertAll;
      var leaves := HeadSums(s, heads);
      var plan := MakePlan(sealHeads, latest, leaves);
      var holds := true;
      match plan {
        case Vanished(_) => return Some(VanishedAccount);
        case SumOverflow => return Some(SumTooLarge);
        case Incremental(dirty, since) =>
          var broken := ProveDirtyTails(s.log, dirty, since);
          holds := broken == None;
        case Full => holds := ProveChain(s, heads);
      }
      if !holds {
        return Some(TamperedChain);
      }
      var root := MerkleSumRoot(leaves);
      if root == None {
        return Some(SumTooLarge);
      }
      if root.value.sum != 0 {
        return Some(NonzeroSum);
      }
      latest := Some(CheckpointFor(root.value, leaves));
      PutSealHeads(if plan.Incremental? then plan.dirty else leaves, !plan.Incremental?);
      return None;
    }
  }

  // ---- Checking a saved checkpoint -------------------------------------------------------

  datatype Check = Holds | Fails | SumThrew

  function HeadsOnly(leaves: seq<SealHead>): seq<HeadLeaf> {
    seq(|leaves|, i requires 0 <= i < |leaves| => HeadLeaf(leaves[i].account, leaves[i].head))
  }

  function CheckSums(leaves: seq<SealHead>, c: Checkpoint): Check {
    if |leaves| < c.count then Fails
    else
      match SumRoot(leaves)
      case None => SumThrew
      case Some(root) => if Authentic(root, c) then Holds else Fails
  }

  function CheckHeads(heads: seq<HeadLeaf>, c: Checkpoint): Check {
    if |heads| >= c.count && Root(heads) == c.root && c.signature == SignedRoot(c.root) then Holds else Fails
  }

  /** Recomputes the root the way the checkpoint's version sealed it, then checks the signature. */
  method VerifyCheckpoint(s: State, heads: seq<AccountRef>, c: Checkpoint) returns (r: Check)
    ensures r == if c.version == 2 then CheckSums(Leaves(s, heads), c) else CheckHeads(HeadsOnly(Leaves(s, heads)), c)
  {
    hide SumRoot, Root, Leaves;
    var leaves := HeadSums(s, heads);
    if c.version == 2 {
      if |leaves| < c.count {
        return Fails;
      }
      var root := MerkleSumRoot(leaves);
      if root == None {
        return SumThrew;
      }
      return if Authentic(root.value, c) then Holds else Fails;
    }
    var pairs := HeadsOnly(leaves);
    if |pairs| < c.count {
      return Fails;
    }
    var root := MerkleRoot(pairs);
    r := if root == c.root && c.signature == SignedRoot(c.root) then Holds else Fails;
  }

  /**
   A sealed checkpoint holds over the live leaves exactly when they are the sealed ones: the same
   accounts with the same heads and the same sums, in whatever order they are read.
   */
  lemma CheckpointPinsItsLeaves(sealed: seq<SealHead>, live: seq<SealHead>)
    requires SumRoot(sealed).Some? && OneRowPerId(sealed)
    ensures CheckSums(live, CheckpointFor(SumRoot(sealed).value, sealed)) == Holds <==>
      multiset(live) == multiset(sealed)
  {
    hide SumRoot;
    if multiset(live) == multiset(sealed) {
      RootIgnoresOrder(sealed, live);
      assert |live| == |multiset(live)| == |multiset(sealed)| == |sealed|;
    }
    if SumRoot(live).Some? && SumRoot(live).value.hash == SumRoot(sealed).value.hash {
      RootDeterminesLeaves(live, sealed);
    }
  }

  // ---- What a seal trusts ----------------------------------------------------------------

  /** The latest checkpoint is over this snapshot's own sum root, and its signature covers that root. */
  ghost predicate Vouched(snapshot: seq<SealHead>, latest: Option<Checkpoint>) {
    && latest.Some? && latest.value.version == 2 && SumRoot(snapshot).Some?
    && latest.value.root == SumRoot(snapshot).value.hash && latest.value.sum == Some(SumRoot(snapshot).value.sum)
    && latest.value.signature == Signed(SumRoot(snapshot).value)
  }

  lemma {:induction false} MissingMeans(snapshot: seq<SealHead>, live: seq<SealHead>)
    ensures FirstMissing(snapshot, live) == None <==> forall row :: row in snapshot ==> IsLive(live, row.account)
    ensures FirstMissing(snapshot, live).Some? ==>
      && !IsLive(live, FirstMissing(snapshot, live).value)
      && exists row :: row in snapshot && row.account == FirstMissing(snapshot, live).value
  {
    hide IsLive;
    if snapshot != [] {
      assert snapshot == [snapshot[0]] + snapshot[1..] && snapshot[0] in snapshot;
      MissingMeans(snapshot[1..], live);
    }
  }

  /**
   Only a non-empty snapshot that the latest checkpoint vouches for spares the whole replay, and every
   one that does, unless one of its accounts is gone, which is refused.
   */
  lemma PlanTrustsOnlyVouched(snapshot: seq<SealHead>, latest: Option<Checkpoint>, live: seq<SealHead>)
    ensures var plan := PlanSeal(snapshot, latest, live);
      && (plan.Incremental? <==>
            snapshot != [] && Vouched(snapshot, latest) && forall row :: row in snapshot ==> IsLive(live, row.account))
      && (plan.Vanished? <==>
            snapshot != [] && Vouched(snapshot, latest) && exists row :: row in snapshot && !IsLive(live, row.account))
      && (plan.Vanished? ==> !IsLive(live, plan.account))
      && (plan.SumOverflow? ==> SumRoot(snapshot) == None)
  {
    hide SumRoot, IsLive, DirtyOf, SinceOf;
    MissingMeans(snapshot, live);
  }

  /** A checkpoint sealed over leaves of one row per account vouches for a snapshot of exactly those leaves. */
  lemma VouchedAreSealed(sealed: seq<SealHead>, snapshot: seq<SealHead>)
    requires SumRoot(sealed).Some? && OneRowPerId(sealed)
    ensures Vouched(snapshot, Some(CheckpointFor(SumRoot(sealed).value, sealed))) <==>
      multiset(snapshot) == multiset(sealed)
  {
    hide SumRoot;
    if multiset(snapshot) == multiset(sealed) {
      RootIgnoresOrder(sealed, snapshot);
    }
    if SumRoot(snapshot).Some? && SumRoot(snapshot).value.hash == SumRoot(sealed).value.hash {
      RootDeterminesLeaves(snapshot, sealed);
    }
  }

  /** What a checkpoint stands for: a proof, and leaves that sum to zero and that it holds over. */
  lemma SealStandsFor(s: State, heads: seq<AccountRef>, snapshot: seq<SealHead>, latest: Option<Checkpoint>)
    requires SealOver(s, heads, snapshot, latest).SealedAs?
    ensures ChainsIntact(s) || (Vouched(snapshot, latest)
      && TailsAccept(s.log, DirtyOf(Leaves(s, heads), SinceOf(snapshot)), SinceOf(snapshot)))
    ensures TotalOf(Leaves(s, heads)) == 0
    ensures Vouched(Leaves(s, heads), Some(SealOver(s, heads, snapshot, latest).checkpoint))
    ensures SealOver(s, heads, snapshot, latest).checkpoint.count == |heads|
    ensures Vouched(snapshot, latest) ==> forall row :: row in snapshot ==> IsLive(Leaves(s, heads), row.account)
  {
    hide SumRoot, TailsAccept, ChainsIntact, UpsertAll, IsLive, DirtyOf, SinceOf, TotalOf;
    MissingMeans(snapshot, Leaves(s, heads));
    RootSumIsTotal(Leaves(s, heads));
  }

  /** And what each refusal says. */
  lemma RefusalStandsFor(s: State, heads: seq<AccountRef>, snapshot: seq<SealHead>, latest: Option<Checkpoint>)
    requires SealOver(s, heads, snapshot, latest).RefusedSeal?
    ensures match SealOver(s, heads, snapshot, latest).why
      case TamperedChain =>
        !ChainsIntact(s) || !TailsAccept(s.log, DirtyOf(Leaves(s, heads), SinceOf(snapshot)), SinceOf(snapshot))
      case VanishedAccount => exists row :: row in snapshot && !IsLive(Leaves(s, heads), row.account)
      case NonzeroSum => TotalOf(Leaves(s, heads)) != 0
      case SumTooLarge => SumRoot(snapshot) == None || SumRoot(Leaves(s, heads)) == None
  {
    hide SumRoot, TailsAccept, ChainsIntact, UpsertAll, DirtyOf, SinceOf, TotalOf, Leaves, IsLive;
    MissingMeans(snapshot, Leaves(s, heads));
    if SumRoot(Leaves(s, heads)).Some? {
      RootSumIsTotal(Leaves(s, heads));
    }
  }

  /** Over a snapshot that is not what was sealed, no seal goes through without a replay of every chain. */
  lemma ForgedSnapshotIsProvedWhole(s: State, heads: seq<AccountRef>, snapshot: seq<SealHead>, sealed: seq<SealHead>)
    requires SumRoot(sealed).Some? && OneRowPerId(sealed) && multiset(snapshot) != multiset(sealed)
    requires SealOver(s, heads, snapshot, Some(CheckpointFor(SumRoot(sealed).value, sealed))).SealedAs?
    ensures ChainsIntact(s)
  {
    hide SumRoot, SealOver, Vouched, ChainsIntact, TailsAccept;
    VouchedAreSealed(sealed, snapshot);
    SealStandsFor(s, heads, snapshot, Some(CheckpointFor(SumRoot(sealed).value, sealed)));
  }

  /** Before version 2 the same, of accounts and heads alone. */
  lemma OldCheckpointPinsItsHeads(sealed: seq<HeadLeaf>, live: seq<HeadLeaf>, version: nat)
    requires OneHeadPerId(sealed)
    ensures var c := Checkpoint(Root(sealed), None, SignedRoot(Root(sealed)), |sealed|, version);
      CheckHeads(live, c) == Holds <==> multiset(live) == multiset(sealed)
  {
    hide Root;
    HeadRootPinsHeads(sealed, live);
    assert |live| == |multiset(live)| && |sealed| == |multiset(sealed)|;
  }

  /** Whatever is stored of a checkpoint: what it takes to hold, for either version. */
  lemma ChecksMean(leaves: seq<SealHead>, heads: seq<HeadLeaf>, c: Checkpoint)
    ensures CheckSums(leaves, c) == Holds ==>
      && |leaves| >= c.count && SumRoot(leaves).Some? && c.signature == Signed(SumRoot(leaves).value)
      && c.root == SumRoot(leaves).value.hash && c.sum == Some(SumRoot(leaves).value.sum)
    ensures CheckSums(leaves, c) == Fails && |leaves| >= c.count && SumRoot(leaves).Some? ==>
      || c.signature != Signed(SumRoot(leaves).value)
      || c.root != SumRoot(leaves).value.hash || c.sum != Some(SumRoot(leaves).value.sum)
    ensures CheckSums(leaves, c) == SumThrew ==> SumRoot(leaves) == None
    ensures CheckHeads(heads, c) == Holds <==>
      |heads| >= c.count && c.root == Root(heads) && c.signature == SignedRoot(Root(heads))
  {
    hide SumRoot, Root;
  }

  // ---- Incremental against full ----------------------------------------------------------

  /** What the last signature vouched for: a prefix of the chain re-derives and ends in the sealed head. */
  ghost predicate SealedAt(a: AccountRef, chain: seq<StoredLink>, h: Hash, k: nat) {
    0 < k <= |chain| && Linked(a, Genesis, chain[..k]) && chain[k - 1].hash == h
  }

  /** The bounded read of a chain with an intact sealed prefix is exactly what follows that prefix. */
  lemma {:induction false} AfterIsRest(a: AccountRef, from: Hash, chain: seq<StoredLink>, k: nat)
    requires 0 < k <= |chain| && Linked(a, from, chain[..k])
    ensures After(chain, chain[k - 1].hash) == chain[k..]
    decreases |chain|
  {
    if k > 1 {
      HashesNeverRepeat(a, from, chain[..k], 0, k - 1);
      LinkedSuffix(a, from, chain[..k], 1);
      assert chain[..k][1..] == chain[1..][..k - 1];
      AfterIsRest(a, EndOf(from, chain[..k][..1]), chain[1..], k - 1);
    }
  }

  /** The whole chain re-derives exactly if what follows the verified prefix does. */
  lemma SealedThenRest(a: AccountRef, chain: seq<StoredLink>, sealedHead: Hash, k: nat)
    requires SealedAt(a, chain, sealedHead, k)
    ensures Linked(a, Genesis, chain) <==> Linked(a, sealedHead, chain[k..])
  {
    hide Linked;
    var sealed, rest := chain[..k], chain[k..];
    assert sealed[k - 1] == chain[k - 1] && EndOf(Genesis, sealed) == sealedHead;
    assert sealed + rest == chain;
    if Linked(a, sealedHead, rest) {
      LinkedAppend(a, Genesis, sealed, rest);
    }
    if Linked(a, Genesis, chain) {
      LinkedSuffix(a, Genesis, chain, k);
    }
  }

  /** A dirty account's tail proof is the full proof of its chain, plus: the signed head lies on it, past the seal. */
  lemma DirtyTailIsFullProof(a: AccountRef, chain: seq<StoredLink>, sealedHead: Hash, liveHead: Hash, k: nat)
    requires SealedAt(a, chain, sealedHead, k)
    ensures TailAccepts(a, Some(sealedHead), liveHead, chain) <==>
      WalkAccepts(a, None, chain) && Carries(chain[k..], liveHead)
  {
    hide Linked, Carries, After;
    AfterIsRest(a, Genesis, chain, k);
    SealedThenRest(a, chain, sealedHead, k);
  }

  /**
   For a clean account the seal reads nothing, so the full proof holds exactly if what is stored
   past the seal links up.
   */
  lemma CleanTailIsFullProof(a: AccountRef, chain: seq<StoredLink>, sealedHead: Hash, k: nat)
    requires SealedAt(a, chain, sealedHead, k)
    ensures WalkAccepts(a, None, chain) <==> Linked(a, sealedHead, After(chain, sealedHead))
    ensures Carries(chain, sealedHead)
  {
    hide Linked, Carries, After;
    AfterIsRest(a, Genesis, chain, k);
    SealedThenRest(a, chain, sealedHead, k);
    SealedIsCarried(chain, k);
  }

  lemma SealedIsCarried(chain: seq<StoredLink>, k: nat)
    requires 0 < k <= |chain|
    ensures Carries(chain, chain[k - 1].hash)
  {
  }

  ghost predicate PrefixesVerify(log: seq<Entry>, since: map<AccountRef, Hash>) {
    forall a :: a in since ==> exists k: nat :: SealedAt(a, Lineage(log, a), since[a], k)
  }

  /** Everything stored for an account whose head has not moved re-derives from its sealed head. */
  ghost predicate CleanRestLinks(log: seq<Entry>, live: seq<SealHead>, since: map<AccountRef, Hash>) {
    forall l :: l in live && !Moved(since, l) ==> Linked(l.account, l.head, After(Lineage(log, l.account), l.head))
  }

  ghost predicate FullyProved(log: seq<Entry>, live: seq<SealHead>) {
    forall l :: l in live ==>
      WalkAccepts(l.account, None, Lineage(log, l.account)) && Carries(Lineage(log, l.account), l.head)
  }

  lemma CarriesMore(chain: seq<StoredLink>, k: nat, h: Hash)
    requires k <= |chain| && Carries(chain[k..], h)
    ensures Carries(chain, h)
  {
    var i :| 0 <= i < |chain[k..]| && chain[k..][i].hash == h;
    assert chain[k + i].hash == h;
  }

  lemma OneLeafProved(log: seq<Entry>, since: map<AccountRef, Hash>, l: SealHead)
    requires PrefixesVerify(log, since)
    ensures Moved(since, l) && LeafTailAccepts(log, since, l) ==>
      WalkAccepts(l.account, None, Lineage(log, l.account)) && Carries(Lineage(log, l.account), l.head)
    ensures !Moved(since, l) ==> Carries(Lineage(log, l.account), l.head)
    ensures !Moved(since, l) ==>
      (WalkAccepts(l.account, None, Lineage(log, l.account)) <==>
        Linked(l.account, l.head, After(Lineage(log, l.account), l.head)))
  {
    hide Lineage, Linked, Carries, After;
    var a, chain := l.account, Lineage(log, l.account);
    if a in since {
      var k: nat :| SealedAt(a, chain, since[a], k);
      DirtyTailIsFullProof(a, chain, since[a], l.head, k);
      CleanTailIsFullProof(a, chain, since[a], k);
      if Carries(chain[k..], l.head) {
        CarriesMore(chain, k, l.head);
      }
    }
  }

  /**
   Wherever the heads are read from: if the prefix up to each sealed head verifies, an accepted
   incremental proof is a full proof with every signed head on its chain - exactly if what is stored
   past the sealed head of an unmoved account links up too, which the incremental walk does not read.
   */
  lemma AcceptedTailsAreFullProof(log: seq<Entry>, live: seq<SealHead>, since: map<AccountRef, Hash>)
    requires PrefixesVerify(log, since) && TailsAccept(log, DirtyOf(live, since), since)
    ensures FullyProved(log, live) <==> CleanRestLinks(log, live, since)
  {
    hide LeafTailAccepts, Moved, WalkAccepts, Carries, Linked;
    forall l | l in live
      ensures Moved(since, l) ==>
        WalkAccepts(l.account, None, Lineage(log, l.account)) && Carries(Lineage(log, l.account), l.head)
      ensures !Moved(since, l) ==> Carries(Lineage(log, l.account), l.head)
      ensures !Moved(since, l) ==>
        (WalkAccepts(l.account, None, Lineage(log, l.account)) <==>
          Linked(l.account, l.head, After(Lineage(log, l.account), l.head)))
    {
      OneLeafProved(log, since, l);
      if Moved(since, l) {
        var dirty := DirtyOf(live, since);
        assert l in dirty;
        var i :| 0 <= i < |dirty| && dirty[i] == l;
        assert LeafTailAccepts(log, since, dirty[i]);
      }
    }
  }

  // ---- With heads read off the stored links ----------------------------------------------

  /** Every head is the tip of the account's stored links, as the SQL engines read it. */
  ghost predicate TipsOf(log: seq<Entry>, live: seq<SealHead>) {
    forall l :: l in live ==> IsTip(Lineage(log, l.account), l.head)
  }

  predicate IsTip(chain: seq<StoredLink>, h: Hash) {
    chain != [] && chain[|chain| - 1].hash == h
  }

  /** No earlier link carries the hash of the last one. */
  predicate TipIsNew(chain: seq<StoredLink>) {
    forall i :: 0 <= i < |chain| - 1 ==> chain[i].hash != chain[|chain| - 1].hash
  }

  lemma {:induction false} NothingAfterTip(chain: seq<StoredLink>)
    requires chain != []
    ensures After(chain, chain[|chain| - 1].hash) == [] <==> TipIsNew(chain)
    ensures After(chain, chain[|chain| - 1].hash) != [] ==>
      IsTip(After(chain, chain[|chain| - 1].hash), chain[|chain| - 1].hash)
  {
    if chain[0].hash != chain[|chain| - 1].hash {
      var rest := chain[1..];
      NothingAfterTip(rest);
      assert rest[|rest| - 1] == chain[|chain| - 1];
      assert TipIsNew(chain) <==> TipIsNew(rest) by {
        if TipIsNew(rest) {
          forall i | 0 <= i < |chain| - 1 ensures chain[i].hash != chain[|chain| - 1].hash {
            if i > 0 { assert rest[i - 1].hash != rest[|rest| - 1].hash; }
          }
        }
        if TipIsNew(chain) {
          forall i | 0 <= i < |rest| - 1 ensures rest[i].hash != rest[|rest| - 1].hash {
            assert rest[i] == chain[i + 1];
          }
        }
      }
    } else if |chain| > 1 {
      assert chain[0].hash == chain[|chain| - 1].hash;
    }
  }

  /** Links that lead from a hash back to it never re-derive, so past an unmoved tip only nothing does. */
  lemma PastTipLinks(a: AccountRef, chain: seq<StoredLink>, h: Hash)
    requires IsTip(chain, h)
    ensures Linked(a, h, After(chain, h)) <==> TipIsNew(chain)
  {
    NothingAfterTip(chain);
    var rest := After(chain, h);
    if rest != [] && Linked(a, h, rest) {
      HashesNeverRepeat(a, h, rest, |rest| - 1, |rest| - 1);
    }
  }

  /** Of the accounts whose head has not moved, none stores a second link with the sealed head's hash. */
  ghost predicate CleanTipsAreNew(log: seq<Entry>, live: seq<SealHead>, since: map<AccountRef, Hash>) {
    forall l :: l in live && !Moved(since, l) ==> TipIsNew(Lineage(log, l.account))
  }

  /**
   Where heads are read as the tips of the stored links: if the prefix up to each sealed head verifies,
   an accepted incremental proof is a full proof with every signed head on its chain - exactly if no
   unmoved account stores a later link that repeats its sealed head's hash. Any other row stored past
   a sealed head moves the tip, and then the incremental walk reads it.
   */
  lemma IncrementalIsFullProof(log: seq<Entry>, live: seq<SealHead>, since: map<AccountRef, Hash>)
    requires TipsOf(log, live)
    requires PrefixesVerify(log, since) && TailsAccept(log, DirtyOf(live, since), since)
    ensures FullyProved(log, live) <==> CleanTipsAreNew(log, live, since)
  {
    hide FullyProved, TailsAccept, PrefixesVerify, Linked, Moved, IsTip, Lineage, After, TipIsNew;
    AcceptedTailsAreFullProof(log, live, since);
    forall l | l in live
      ensures Linked(l.account, l.head, After(Lineage(log, l.account), l.head)) <==> TipIsNew(Lineage(log, l.account))
    {
      PastTipLinks(l.account, Lineage(log, l.account), l.head);
    }
  }

  lemma StrayLineage(log: seq<Entry>, e: Entry, a: AccountRef, h: Hash)
    requires e.links == [Link(a, h, h)]
    ensures Lineage(log + [e], a) == Lineage(log, a) + [StoredLink(e.posting, h, h)]
    ensures forall b :: b != a ==> Lineage(log + [e], b) == Lineage(log, b)
  {
    assert (log + [e])[..|log|] == log;
    forall b | b != a ensures Lineage(log + [e], b) == Lineage(log, b) {
      assert LinkIn(e.links[1..], b) == None;
    }
  }

  lemma PrefixStaysSealed(a: AccountRef, chain: seq<StoredLink>, l: StoredLink, h: Hash, k: nat)
    requires SealedAt(a, chain, h, k)
    ensures SealedAt(a, chain + [l], h, k)
  {
    assert (chain + [l])[..k] == chain[..k];
  }

  /**
   Such a row escapes. Appended to an unmoved account, with its previous hash and its hash both the
   sealed head's, it leaves every head where it was and every sealed prefix verified; the incremental
   proof accepts as before, and the full proof never does. Attaching at the head, it forks no link.
   */
  lemma StrayRowEscapes(log: seq<Entry>, live: seq<SealHead>, since: map<AccountRef, Hash>, l: SealHead, e: Entry)
    requires TipsOf(log, live) && l in live && !Moved(since, l) && e.links == [Link(l.account, l.head, l.head)]
    requires forall m :: m in live && m.account == l.account ==> m == l
    requires PrefixesVerify(log, since) && TailsAccept(log, DirtyOf(live, since), since)
    ensures TipsOf(log + [e], live) && PrefixesVerify(log + [e], since)
    ensures TailsAccept(log + [e], DirtyOf(live, since), since) && !FullyProved(log + [e], live)
  {
    hide TailAccepts, Linked, Lineage, PrefixesVerify, FullyProved;
    var a, h := l.account, l.head;
    StrayLineage(log, e, a, h);
    var dirty, chain := DirtyOf(live, since), Lineage(log + [e], a);
    forall i | 0 <= i < |dirty| ensures LeafTailAccepts(log + [e], since, dirty[i]) {
      assert dirty[i] in dirty && LeafTailAccepts(log, since, dirty[i]);
    }
    StrayKeepsPrefixes(log, e, since, a, h);
    assert IsTip(Lineage(log, a), h) && chain[|chain| - 2].hash == chain[|chain| - 1].hash;
    IncrementalIsFullProof(log + [e], live, since);
    assert !TipIsNew(chain);
  }

  lemma StrayKeepsPrefixes(log: seq<Entry>, e: Entry, since: map<AccountRef, Hash>, a: AccountRef, h: Hash)
    requires PrefixesVerify(log, since) && e.links == [Link(a, h, h)]
    ensures PrefixesVerify(log + [e], since)
  {
    hide SealedAt, Lineage;
    StrayLineage(log, e, a, h);
    forall b | b in since ensures exists k: nat :: SealedAt(b, Lineage(log + [e], b), since[b], k) {
      var k: nat :| SealedAt(b, Lineage(log, b), since[b], k);
      if b == a {
        PrefixStaysSealed(b, Lineage(log, b), StoredLink(e.posting, h, h), since[b], k);
      }
    }
  }
}
