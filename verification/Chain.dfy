/**
 Per-account hash chains (src/chain.ts): the full replay from genesis, the walk anchored on an
 archived head, and what a head says about the history behind it.
 */
module Chain {
  import opened Accounts
  import opened Ledger
  import opened Money
  import opened Text

  /** One stored step of an account's chain, as the ledger's lineage read yields it. */
  datatype StoredLink = StoredLink(posting: Posting, prevHash: Hash, hash: Hash)

  datatype BreakReason = BrokenLink | TamperedHash

  datatype ChainBreak = ChainBreak(account: AccountRef, txnId: Option<TxnId>, reason: BreakReason, expected: Hash,
    actual: Hash)

  predicate LinkDerives(a: AccountRef, l: StoredLink) {
    ChainHash(l.prevHash, l.posting, a) == l.hash
  }

  /** The links join up from `from` and every one re-derives from its stored content. */
  predicate Linked(a: AccountRef, from: Hash, chain: seq<StoredLink>) {
    forall i :: 0 <= i < |chain| ==> StepOk(a, from, chain, i)
  }

  predicate StepOk(a: AccountRef, from: Hash, chain: seq<StoredLink>, i: nat)
    requires i < |chain|
  {
    chain[i].prevHash == (if i == 0 then from else chain[i - 1].hash) && LinkDerives(a, chain[i])
  }

  function EndOf(from: Hash, chain: seq<StoredLink>): Hash {
    if chain == [] then from else chain[|chain| - 1].hash
  }

  predicate Carries(chain: seq<StoredLink>, h: Hash) {
    exists i :: 0 <= i < |chain| && chain[i].hash == h
  }

  lemma LinkedPrefix(a: AccountRef, from: Hash, chain: seq<StoredLink>, k: nat)
    requires Linked(a, from, chain) && k <= |chain|
    ensures Linked(a, from, chain[..k])
    ensures k < |chain| ==> chain[k].prevHash == EndOf(from, chain[..k]) && LinkDerives(a, chain[k])
  {
    forall i | 0 <= i < k ensures StepOk(a, from, chain[..k], i) {
      assert StepOk(a, from, chain, i);
    }
    if k < |chain| {
      assert StepOk(a, from, chain, k);
    }
  }

  lemma LinkedSuffix(a: AccountRef, from: Hash, chain: seq<StoredLink>, k: nat)
    requires Linked(a, from, chain) && k <= |chain|
    ensures Linked(a, EndOf(from, chain[..k]), chain[k..])
  {
    forall i | 0 <= i < |chain| - k ensures StepOk(a, EndOf(from, chain[..k]), chain[k..], i) {
      assert StepOk(a, from, chain, k + i);
    }
  }

  lemma LinkedAppend(a: AccountRef, from: Hash, c: seq<StoredLink>, d: seq<StoredLink>)
    requires Linked(a, from, c) && Linked(a, EndOf(from, c), d)
    ensures Linked(a, from, c + d)
    ensures EndOf(EndOf(from, c), d) == EndOf(from, c + d)
  {
    forall i | 0 <= i < |c + d| ensures StepOk(a, from, c + d, i) {
      if i < |c| {
        assert StepOk(a, from, c, i);
      } else {
        assert StepOk(a, EndOf(from, c), d, i - |c|);
      }
    }
  }

  lemma LinkedSnoc(a: AccountRef, from: Hash, chain: seq<StoredLink>, l: StoredLink)
    requires Linked(a, from, chain) && l.prevHash == EndOf(from, chain) && LinkDerives(a, l)
    ensures Linked(a, from, chain + [l])
  {
    assert StepOk(a, EndOf(from, chain), [l], 0);
    LinkedAppend(a, from, chain, [l]);
  }

  lemma CarriesSnoc(chain: seq<StoredLink>, l: StoredLink, h: Hash)
    ensures Carries(chain + [l], h) <==> Carries(chain, h) || l.hash == h
  {
    var c := chain + [l];
    if Carries(chain, h) {
      var i :| 0 <= i < |chain| && chain[i].hash == h;
      assert c[i].hash == h;
    }
    assert c[|chain|] == l;
  }

  /** What the walk accepts, for an account without (None) or with (Some) an archived head. */
  predicate WalkAccepts(a: AccountRef, anchor: Option<Hash>, chain: seq<StoredLink>) {
    match anchor
    case None => Linked(a, Genesis, chain)
    case Some(h) =>
      chain == [] || (Linked(a, chain[0].prevHash, chain) && (chain[0].prevHash == h || Carries(chain, h)))
  }

  lemma WalkBreaks(a: AccountRef, anchor: Option<Hash>, chain: seq<StoredLink>, from: Hash, k: nat)
    requires k < |chain|
    requires k > 0 ==> from == chain[0].prevHash
    requires k == 0 && anchor != None ==> from == chain[0].prevHash
    requires anchor == None ==> from == Genesis
    requires chain[k].prevHash != EndOf(from, chain[..k]) || !LinkDerives(a, chain[k])
    ensures !WalkAccepts(a, anchor, chain)
  {
    if Linked(a, from, chain) {
      LinkedPrefix(a, from, chain, k);
    }
  }

  /** The first link that does not follow on or does not re-derive, what was expected of it and what it holds. */
  predicate BreaksAt(b: ChainBreak, a: AccountRef, from: Hash, chain: seq<StoredLink>, k: nat) {
    && k < |chain| && Linked(a, from, chain[..k]) && b.account == a && b.txnId == Some(chain[k].posting.txnId)
    && if chain[k].prevHash != EndOf(from, chain[..k])
       then b.reason == BrokenLink && b.expected == EndOf(from, chain[..k]) && b.actual == chain[k].prevHash
       else
         && b.reason == TamperedHash && b.actual == chain[k].hash != b.expected
         && b.expected == ChainHash(chain[k].prevHash, chain[k].posting, a)
  }

  /** Every link holds, but the hash the chain has to show is on none of them. */
  predicate NeverShows(b: ChainBreak, a: AccountRef, from: Hash, chain: seq<StoredLink>, needed: Hash) {
    && Linked(a, from, chain) && !Carries(chain, needed)
    && b == ChainBreak(a, None, BrokenLink, needed, EndOf(from, chain))
  }

  /** The walk itself, link by link, with its running head and its two flags. */
  method RecomputeAccount(a: AccountRef, anchor: Option<Hash>, chain: seq<StoredLink>)
      returns (broken: Option<ChainBreak>)
    ensures broken == None <==> WalkAccepts(a, anchor, chain)
    ensures broken.Some? ==>
      var from := if anchor == None then Genesis else chain[0].prevHash;
      (exists k: nat :: BreaksAt(broken.value, a, from, chain, k))
      || (anchor.Some? && from != anchor.value && NeverShows(broken.value, a, from, chain, anchor.value))
  {
    var prev := Genesis;
    var anchorSeen := anchor == None;
    var first := true;
    var k := 0;
    ghost var from := Genesis;
    while k < |chain|
      invariant 0 <= k <= |chain|
      invariant first <==> k == 0
      invariant prev == EndOf(from, chain[..k])
      invariant Linked(a, from, chain[..k])
      invariant k > 0 ==> from == chain[0].prevHash
      invariant k == 0 || anchor == None ==> from == Genesis
      invariant anchorSeen <==> anchor == None || (k > 0 && (from == anchor.value || Carries(chain[..k], anchor.value)))
    {
      var link := chain[k];
      assert chain[..k + 1] == chain[..k] + [link];
      if first && anchor != None && link.prevHash == anchor.value {
        prev := anchor.value;
        from := anchor.value;
        anchorSeen := true;
      }
      if link.prevHash != prev {
        if !first || anchor == None {
          WalkBreaks(a, anchor, chain, from, k);
          broken := Some(ChainBreak(a, Some(link.posting.txnId), BrokenLink, prev, link.prevHash));
          assert BreaksAt(broken.value, a, from, chain, k);
          return;
        }
        prev := link.prevHash;
        from := link.prevHash;
      }
      var recomputed := ChainHash(link.prevHash, link.posting, a);
      if recomputed != link.hash {
        WalkBreaks(a, anchor, chain, from, k);
        broken := Some(ChainBreak(a, Some(link.posting.txnId), TamperedHash, recomputed, link.hash));
        assert BreaksAt(broken.value, a, from, chain, k);
        return;
      }
      LinkedSnoc(a, from, chain[..k], link);
      prev := link.hash;
      if anchor != None {
        CarriesSnoc(chain[..k], link, anchor.value);
        if link.hash == anchor.value {
          anchorSeen := true;
        }
      }
      first := false;
      k := k + 1;
    }
    assert chain[..k] == chain;
    if !anchorSeen && !first {
      return Some(ChainBreak(a, None, BrokenLink, anchor.value, prev));
    }
    return None;
  }

  // ---- A head determines its history ---------------------------------------------

  function Depth(h: Hash): nat {
    match h
    case Genesis => 0
    case Digest(prev, _, _, _) => 1 + Depth(prev)
  }

  lemma {:induction false} LinkedDepth(a: AccountRef, from: Hash, chain: seq<StoredLink>, i: nat)
    requires Linked(a, from, chain) && i < |chain|
    ensures Depth(chain[i].hash) == Depth(from) + i + 1
  {
    assert StepOk(a, from, chain, i);
    assert Depth(chain[i].hash) == 1 + Depth(chain[i].prevHash);
    if i > 0 {
      LinkedDepth(a, from, chain, i - 1);
    }
  }

  /** Hashes within one chain never repeat, and never come back to its start. */
  lemma HashesNeverRepeat(a: AccountRef, from: Hash, chain: seq<StoredLink>, i: nat, j: nat)
    requires Linked(a, from, chain) && i < |chain| && j < |chain|
    ensures chain[i].hash != from
    ensures chain[i].hash == chain[j].hash ==> i == j
  {
    LinkedDepth(a, from, chain, i);
    LinkedDepth(a, from, chain, j);
  }

  ghost predicate SameStep(a: AccountRef, l: StoredLink, l': StoredLink) {
    && l.posting.txnId == l'.posting.txnId
    && l.posting.meta == l'.posting.meta
    && multiset(OwnAmounts(l.posting.legs, a)) == multiset(OwnAmounts(l'.posting.legs, a))
    && l.prevHash == l'.prevHash && l.hash == l'.hash
  }

  lemma SameHashSameStep(a: AccountRef, l: StoredLink, l': StoredLink)
    requires LinkDerives(a, l) && LinkDerives(a, l') && l.hash == l'.hash
    ensures SameStep(a, l, l')
  {
  }

  lemma OnlyEmptyEndsInGenesis(a: AccountRef, c: seq<StoredLink>)
    requires Linked(a, Genesis, c)
    ensures EndOf(Genesis, c) == Genesis <==> c == []
  {
    if c != [] {
      assert StepOk(a, Genesis, c, |c| - 1);
    }
  }

  lemma LastSteps(a: AccountRef, c: seq<StoredLink>, c': seq<StoredLink>)
    requires Linked(a, Genesis, c) && Linked(a, Genesis, c') && |c| > 0 && |c'| > 0
    requires EndOf(Genesis, c) == EndOf(Genesis, c')
    ensures SameStep(a, c[|c| - 1], c'[|c'| - 1])
    ensures Linked(a, Genesis, c[..|c| - 1]) && Linked(a, Genesis, c'[..|c'| - 1])
    ensures EndOf(Genesis, c[..|c| - 1]) == EndOf(Genesis, c'[..|c'| - 1])
  {
    LinkedPrefix(a, Genesis, c, |c| - 1);
    LinkedPrefix(a, Genesis, c', |c'| - 1);
    SameHashSameStep(a, c[|c| - 1], c'[|c'| - 1]);
  }

  ghost predicate SameHistory(a: AccountRef, c: seq<StoredLink>, c': seq<StoredLink>) {
    |c| == |c'| && forall i :: 0 <= i < |c| ==> SameStep(a, c[i], c'[i])
  }

  /**
   A head determines its history: two chains that pass the walk from genesis and end in the same
   head agree, link by link, on transaction id, metadata and amounts.
   */
  lemma {:induction false} HeadDeterminesHistory(a: AccountRef, c: seq<StoredLink>, c': seq<StoredLink>)
    requires Linked(a, Genesis, c) && Linked(a, Genesis, c')
    requires EndOf(Genesis, c) == EndOf(Genesis, c')
    ensures SameHistory(a, c, c')
    decreases |c|
  {
    OnlyEmptyEndsInGenesis(a, c);
    OnlyEmptyEndsInGenesis(a, c');
    if c != [] {
      LastSteps(a, c, c');
      HeadDeterminesHistory(a, c[..|c| - 1], c'[..|c'| - 1]);
      ExtendHistory(a, c, c');
    }
  }

  lemma ExtendHistory(a: AccountRef, c: seq<StoredLink>, c': seq<StoredLink>)
    requires |c| > 0 && |c'| > 0
    requires SameHistory(a, c[..|c| - 1], c'[..|c'| - 1]) && SameStep(a, c[|c| - 1], c'[|c'| - 1])
    ensures SameHistory(a, c, c')
  {
    forall i | 0 <= i < |c| - 1 ensures SameStep(a, c[i], c'[i]) {
      assert SameStep(a, c[..|c| - 1][i], c'[..|c'| - 1][i]);
    }
  }

  // ---- The anchored walk ----------------------------------------------------------

  /**
   An honest chain archived through link k: of everything the store may still hold - a suffix
   starting at `j` - the walk accepts exactly the empty one and those starting at or before
   link k+1 (genesis, the crash-window float, the clean cut). A later start is truncation.
   */
  lemma AnchoredWalkExact(a: AccountRef, chain: seq<StoredLink>, k: nat, j: nat)
    requires Linked(a, Genesis, chain) && k < |chain| && j <= |chain|
    ensures WalkAccepts(a, Some(chain[k].hash), chain[j..]) <==> j == |chain| || j <= k + 1
  {
    var h, rest := chain[k].hash, chain[j..];
    if j < |chain| {
      LinkedPrefix(a, Genesis, chain, j);
      LinkedSuffix(a, Genesis, chain, j);
      if j <= k {
        assert rest[k - j].hash == h;
        assert Carries(rest, h);
      } else {
        forall i | 0 <= i < |rest| ensures rest[i].hash != h {
          HashesNeverRepeat(a, Genesis, chain, j + i, k);
        }
        if j > 0 {
          HashesNeverRepeat(a, Genesis, chain, j - 1, k);
          assert rest[0].prevHash == chain[j - 1].hash;
        }
      }
    }
  }

  /** A single edit of stored content under an unchanged hash is always caught. */
  lemma TamperedContentBreaks(a: AccountRef, chain: seq<StoredLink>, k: nat, p: Posting)
    requires Linked(a, Genesis, chain) && k < |chain|
    requires p.txnId != chain[k].posting.txnId || p.meta != chain[k].posting.meta ||
             multiset(OwnAmounts(p.legs, a)) != multiset(OwnAmounts(chain[k].posting.legs, a))
    ensures !WalkAccepts(a, None, chain[k := chain[k].(posting := p)])
  {
    var edited := chain[k].(posting := p);
    if LinkDerives(a, edited) {
      assert StepOk(a, Genesis, chain, k);
      SameHashSameStep(a, chain[k], edited);
    }
    assert !StepOk(a, Genesis, chain[k := edited], k);
  }
}
