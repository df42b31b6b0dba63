/**
 The Merkle roots a checkpoint signs (src/chain.ts `merkleRoot`, `combineLevel`, `merkleSumRoot`).
 The code folds level by level from the bottom and carries an unpaired last node up; here that fold
 is shown to be the recursive tree of section 2.1 of RFC 6962, and the root to determine its leaves.
 */
module Merkle {
  import opened Accounts
  import opened Ledger
  import opened Money
  import opened Text

  // ---- The two constructions -----------------------------------------------------------

  /** The recursive specification: split at the largest power of two below the size. */
  function Tree<T>(combine: (T, T) -> T, xs: seq<T>): T
    requires |xs| > 0
    decreases |xs|
  {
    if |xs| == 1 then xs[0]
    else
      var k := SplitPoint(|xs|);
      combine(Tree(combine, xs[..k]), Tree(combine, xs[k..]))
  }

  ghost predicate PowerOfTwo(k: nat) {
    k == 1 || (k % 2 == 0 && k > 0 && PowerOfTwo(k / 2))
  }

  /** The largest power of two below n. */
  function SplitPoint(n: nat): (k: nat)
    requires n >= 2
    ensures PowerOfTwo(k) && k < n <= 2 * k
  {
    if n == 2 then 1 else 2 * SplitPoint((n + 1) / 2)
  }

  lemma {:induction false} PowersAreApart(k: nat, j: nat)
    requires PowerOfTwo(k) && PowerOfTwo(j) && k < j
    ensures 2 * k <= j
  {
    if k > 1 {
      PowersAreApart(k / 2, j / 2);
    }
  }

  /** Nothing else is a power of two in that range, so `SplitPoint` is the one RFC 6962 names. */
  lemma SplitPointIsUnique(n: nat, k: nat)
    requires n >= 2 && PowerOfTwo(k) && k < n <= 2 * k
    ensures k == SplitPoint(n)
  {
    if k < SplitPoint(n) {
      PowersAreApart(k, SplitPoint(n));
    } else if SplitPoint(n) < k {
      PowersAreApart(SplitPoint(n), k);
    }
  }

  /** One level up: neighbours combined, an unpaired last node carried. */
  function Paired<T>(combine: (T, T) -> T, xs: seq<T>): (r: seq<T>)
    ensures |r| == (|xs| + 1) / 2
  {
    if |xs| < 2 then xs else [combine(xs[0], xs[1])] + Paired(combine, xs[2..])
  }

  lemma PairedFront<T>(combine: (T, T) -> T, x: T, y: T, rest: seq<T>)
    ensures Paired(combine, [x, y] + rest) == [combine(x, y)] + Paired(combine, rest)
  {
    assert ([x, y] + rest)[2..] == rest;
  }

  lemma {:induction false} PairedConcat<T>(combine: (T, T) -> T, xs: seq<T>, ys: seq<T>)
    requires |xs| % 2 == 0
    ensures Paired(combine, xs + ys) == Paired(combine, xs) + Paired(combine, ys)
    decreases |xs|
  {
    hide Paired;
    if |xs| == 0 {
      assert xs + ys == ys;
      PairNothing(combine);
      assert xs == [];
    } else {
      var front, rest := [xs[0], xs[1]], xs[2..];
      PairedConcat(combine, rest, ys);
      PairedFront(combine, xs[0], xs[1], rest);
      PairedFront(combine, xs[0], xs[1], rest + ys);
      assert xs == front + rest && xs + ys == front + (rest + ys);
    }
  }

  /** Moving up one level does not change the tree. */
  lemma {:induction false} PairingKeepsTree<T>(combine: (T, T) -> T, xs: seq<T>)
    requires |xs| >= 1
    ensures Tree(combine, Paired(combine, xs)) == Tree(combine, xs)
    decreases |xs|
  {
    hide Paired;
    if |xs| == 2 {
      PairedFront(combine, xs[0], xs[1], []);
      PairNothing(combine);
      assert xs == [xs[0], xs[1]] + [] && xs[..1] == [xs[0]] && xs[1..] == [xs[1]];
    } else if |xs| > 2 {
      var k := SplitPoint(|xs|);
      PairingKeepsTree(combine, xs[..k]);
      PairingKeepsTree(combine, xs[k..]);
      PairedHalves(combine, xs);
    } else {
      PairedOne(combine, xs);
    }
  }

  lemma PairedOne<T>(combine: (T, T) -> T, xs: seq<T>)
    requires |xs| == 1
    ensures Paired(combine, xs) == xs
  {
  }

  /** The level above splits where the level below does. */
  lemma PairedHalves<T>(combine: (T, T) -> T, xs: seq<T>)
    requires |xs| > 2
    ensures var k, up := SplitPoint(|xs|), Paired(combine, xs);
      && |up| >= 2 && SplitPoint(|up|) == k / 2 && k % 2 == 0
      && up[..k / 2] == Paired(combine, xs[..k]) && up[k / 2..] == Paired(combine, xs[k..])
  {
    hide Paired;
    var k := SplitPoint(|xs|);
    PairedConcat(combine, xs[..k], xs[k..]);
    assert xs[..k] + xs[k..] == xs;
  }

  // ---- The hash-only root ----------------------------------------------------------------

  /**
   Node hashes under the four domain tags: a digest is injective and never the 32 zero bytes of an
   empty tree, which is what distinct constructors say.
   */
  datatype Node =
    | EmptyRoot
    | Leaf(account: AccountRef, head: Hash)
    | Inner(left: Node, right: Node)
    | SumLeaf(account: AccountRef, head: Hash, sum: int)
    | SumInner(left: Node, right: Node, total: int)

  datatype HeadLeaf = HeadLeaf(account: AccountRef, head: Hash)

  function Join(l: Node, r: Node): Node {
    Inner(l, r)
  }

  function LeafNodes(heads: seq<HeadLeaf>): seq<Node> {
    seq(|heads|, i requires 0 <= i < |heads| => Leaf(heads[i].account, heads[i].head))
  }

  function ByAccount(l: HeadLeaf): string {
    Id(l.account)
  }

  function SortedHeads(heads: seq<HeadLeaf>): seq<HeadLeaf> {
    SortBy(heads, ByAccount)
  }

  function Root(heads: seq<HeadLeaf>): Node {
    if heads == [] then EmptyRoot else Tree(Join, LeafNodes(SortedHeads(heads)))
  }

  method CombineLevel(level: seq<Node>) returns (next: seq<Node>)
    ensures next == Paired(Join, level)
  {
    hide Paired;
    next := [];
    var i := 0;
    PairNothing(Join);
    assert level[0..] == level;
    while i < |level|
      invariant 0 <= i
      invariant Paired(Join, level) == next + if i < |level| then Paired(Join, level[i..]) else []
      decreases |level| - i
    {
      PairOff(Join, level, i);
      var node := if i + 1 < |level| then Inner(level[i], level[i + 1]) else level[i];
      MoveOver(next, node, if i + 2 < |level| then Paired(Join, level[i + 2..]) else []);
      next := next + [node];
      i := i + 2;
    }
  }

  lemma MoveOver<T>(xs: seq<T>, x: T, rest: seq<T>)
    ensures xs + ([x] + rest) == xs + [x] + rest
  {
  }

  lemma PairNothing<T>(combine: (T, T) -> T)
    ensures Paired(combine, []) == []
  {
  }

  lemma PairOff<T>(combine: (T, T) -> T, level: seq<T>, i: nat)
    requires i < |level|
    ensures Paired(combine, level[i..]) ==
      [if i + 1 < |level| then combine(level[i], level[i + 1]) else level[i]] +
      if i + 2 < |level| then Paired(combine, level[i + 2..]) else []
  {
    if i + 1 < |level| {
      assert level[i..][2..] == level[i + 2..];
    } else {
      assert level[i..] == [level[i]];
    }
  }

  /** Leaves in account order, then level after level until one node is left. */
  method MerkleRoot(heads: seq<HeadLeaf>) returns (root: Node)
    ensures root == Root(heads)
  {
    var sorted := SortedHeads(heads);
    var level: seq<Node> := [];
    for k := 0 to |sorted|
      invariant |level| == k && forall i :: 0 <= i < k ==> level[i] == Leaf(sorted[i].account, sorted[i].head)
    {
      level := level + [Leaf(sorted[k].account, sorted[k].head)];
    }
    if |level| == 0 {
      return EmptyRoot;
    }
    assert |level| >= 1 && level == LeafNodes(sorted);
    while |level| > 1
      invariant |level| >= 1
      invariant Tree(Join, level) == Tree(Join, LeafNodes(sorted))
      decreases |level|
    {
      PairingKeepsTree(Join, level);
      level := CombineLevel(level);
      assert |level| >= 1;
    }
    root := level[0];
  }

  // ---- The sum-carrying root -------------------------------------------------------------

  /** An account's chain head and its raw leg total: src/ports.ts `SealHead`. */
  datatype SealHead = SealHead(account: AccountRef, head: Hash, sum: int)

  datatype Summed = Summed(hash: Node, sum: int)

  /** Every sum enters its hash as eight bytes, and one that does not fit throws: None. */
  function SumLeafNode(l: SealHead): Option<Summed> {
    if InI64(l.sum) then Some(Summed(SumLeaf(l.account, l.head, l.sum), l.sum)) else None
  }

  function SumJoin(l: Option<Summed>, r: Option<Summed>): Option<Summed> {
    if l == None || r == None || !InI64(l.value.sum + r.value.sum) then None
    else Some(Summed(SumInner(l.value.hash, r.value.hash, l.value.sum + r.value.sum), l.value.sum + r.value.sum))
  }

  function SumNodes(leaves: seq<SealHead>): seq<Option<Summed>> {
    seq(|leaves|, i requires 0 <= i < |leaves| => SumLeafNode(leaves[i]))
  }

  function ById(l: SealHead): string {
    Id(l.account)
  }

  function Sorted(leaves: seq<SealHead>): seq<SealHead> {
    SortBy(leaves, ById)
  }

  function SumTree(sorted: seq<SealHead>): Option<Summed> {
    if sorted == [] then Some(Summed(EmptyRoot, 0)) else Tree(SumJoin, SumNodes(sorted))
  }

  function SumRoot(leaves: seq<SealHead>): Option<Summed> {
    SumTree(Sorted(leaves))
  }

  function TotalOf(leaves: seq<SealHead>): int {
    if leaves == [] then 0 else TotalOf(leaves[..|leaves| - 1]) + leaves[|leaves| - 1].sum
  }

  /** A node that threw makes every tree over it throw. */
  lemma {:induction false} ThrownNodeThrows(xs: seq<Option<Summed>>, i: nat)
    requires i < |xs| && xs[i] == None
    ensures Tree(SumJoin, xs) == None
    decreases |xs|
  {
    if |xs| > 1 {
      var k := SplitPoint(|xs|);
      if i < k {
        ThrownNodeThrows(xs[..k], i);
      } else {
        ThrownNodeThrows(xs[k..], i - k);
      }
    }
  }

  /** One level of the sum tree, stopping at the first sum that does not fit. */
  method CombineSums(level: seq<Summed>) returns (next: Option<seq<Summed>>)
    ensures next.Some? ==> Somes(next.value) == Paired(SumJoin, Somes(level))
    ensures next.None? ==> None in Paired(SumJoin, Somes(level))
  {
    hide Paired, SumJoin;
    PairNothing(SumJoin);
    var up: seq<Summed> := [];
    var i := 0;
    ghost var all := Somes(level);
    assert all[0..] == all;
    while i < |level|
      invariant 0 <= i
      invariant Paired(SumJoin, all) == Somes(up) + if i < |level| then Paired(SumJoin, all[i..]) else []
      decreases |level| - i
    {
      PairOff(SumJoin, all, i);
      ghost var rest := if i + 2 < |all| then Paired(SumJoin, all[i + 2..]) else [];
      if i + 1 < |level| {
        var sum := level[i].sum + level[i + 1].sum;
        SumJoinOf(level[i], level[i + 1]);
        if !InI64(sum) {
          assert (Somes(up) + ([SumJoin(all[i], all[i + 1])] + rest))[|up|] == None;
          return None;
        }
        SomesSnoc(up, Summed(SumInner(level[i].hash, level[i + 1].hash, sum), sum), rest);
        up := up + [Summed(SumInner(level[i].hash, level[i + 1].hash, sum), sum)];
      } else {
        SomesSnoc(up, level[i], rest);
        up := up + [level[i]];
      }
      i := i + 2;
    }
    return Some(up);
  }

  lemma SumJoinOf(l: Summed, r: Summed)
    ensures SumJoin(Some(l), Some(r)) ==
      if InI64(l.sum + r.sum) then Some(Summed(SumInner(l.hash, r.hash, l.sum + r.sum), l.sum + r.sum)) else None
  {
  }

  function Somes(xs: seq<Summed>): seq<Option<Summed>> {
    seq(|xs|, i requires 0 <= i < |xs| => Some(xs[i]))
  }

  lemma SomesSnoc(xs: seq<Summed>, x: Summed, rest: seq<Option<Summed>>)
    ensures Somes(xs + [x]) + rest == Somes(xs) + ([Some(x)] + rest)
  {
  }

  method MerkleSumRoot(leaves: seq<SealHead>) returns (root: Option<Summed>)
    ensures root == SumRoot(leaves)
  {
    hide Tree, Sorted;
    var sorted := Sorted(leaves);
    var level: seq<Summed> := [];
    for k := 0 to |sorted|
      invariant |level| == k && forall i :: 0 <= i < k ==> SumLeafNode(sorted[i]) == Some(level[i])
    {
      if !InI64(sorted[k].sum) {
        ThrownNodeThrows(SumNodes(sorted), k);
        return None;
      }
      level := level + [Summed(SumLeaf(sorted[k].account, sorted[k].head, sorted[k].sum), sorted[k].sum)];
    }
    if |level| == 0 {
      return Some(Summed(EmptyRoot, 0));
    }
    assert Somes(level) == SumNodes(sorted);
    root := ClimbSums(level);
  }

  /** Level after level until one node is left, or until a sum does not fit. */
  method ClimbSums(leaves: seq<Summed>) returns (root: Option<Summed>)
    requires |leaves| > 0
    ensures root == Tree(SumJoin, Somes(leaves))
  {
    hide Tree, Paired, SumJoin;
    var level := leaves;
    while |level| > 1
      invariant |level| >= 1
      invariant Tree(SumJoin, Somes(level)) == Tree(SumJoin, Somes(leaves))
      decreases |level|
    {
      PairingKeepsTree(SumJoin, Somes(level));
      var next := CombineSums(level);
      if next == None {
        var up := Paired(SumJoin, Somes(level));
        var i :| 0 <= i < |up| && up[i] == None;
        ThrownNodeThrows(up, i);
        return None;
      }
      level := next.value;
      assert |level| >= 1;
    }
    TreeOfOne(SumJoin, Somes(level));
    return Some(level[0]);
  }

  lemma TreeOfOne<T>(combine: (T, T) -> T, xs: seq<T>)
    requires |xs| == 1
    ensures Tree(combine, xs) == xs[0]
  {
  }

  // ---- What the sum root says ------------------------------------------------------------

  lemma {:induction false} TotalConcat(xs: seq<SealHead>, ys: seq<SealHead>)
    ensures TotalOf(xs + ys) == TotalOf(xs) + TotalOf(ys)
  {
    if ys == [] {
      assert xs + ys == xs;
    } else {
      TotalConcat(xs, ys[..|ys| - 1]);
      assert (xs + ys)[..|xs + ys| - 1] == xs + ys[..|ys| - 1];
    }
  }

  lemma NodesOfParts(sorted: seq<SealHead>, k: nat)
    requires k <= |sorted|
    ensures SumNodes(sorted)[..k] == SumNodes(sorted[..k]) && SumNodes(sorted)[k..] == SumNodes(sorted[k..])
  {
  }

  lemma TreeSplits<T>(combine: (T, T) -> T, xs: seq<T>)
    requires |xs| > 1
    ensures var k := SplitPoint(|xs|); Tree(combine, xs) == combine(Tree(combine, xs[..k]), Tree(combine, xs[k..]))
  {
  }

  lemma SplitLeaves(sorted: seq<SealHead>)
    requires |sorted| > 1
    ensures var k := SplitPoint(|sorted|);
      SumTree(sorted) == SumJoin(SumTree(sorted[..k]), SumTree(sorted[k..]))
  {
    hide Tree, SumJoin, SumLeafNode;
    var k := SplitPoint(|sorted|);
    NodesOfParts(sorted, k);
    TreeSplits(SumJoin, SumNodes(sorted));
  }

  lemma {:induction false} TreeSumIsTotal(sorted: seq<SealHead>)
    requires SumTree(sorted).Some?
    ensures SumTree(sorted).value.sum == TotalOf(sorted)
    decreases |sorted|
  {
    if |sorted| == 1 {
      assert TotalOf(sorted[..0]) == 0;
    } else if |sorted| > 1 {
      var k := SplitPoint(|sorted|);
      SplitLeaves(sorted);
      TreeSumIsTotal(sorted[..k]);
      TreeSumIsTotal(sorted[k..]);
      TotalConcat(sorted[..k], sorted[k..]);
      assert sorted[..k] + sorted[k..] == sorted;
    }
  }

  lemma TotalFront(l: SealHead, rest: seq<SealHead>)
    ensures TotalOf([l] + rest) == l.sum + TotalOf(rest)
  {
    TotalConcat([l], rest);
    assert [l][..0] == [];
  }

  lemma {:induction false} InsertTotal(l: SealHead, sorted: seq<SealHead>)
    ensures TotalOf(InsertBy(l, sorted, ById)) == l.sum + TotalOf(sorted)
  {
    hide TotalOf, ById, Less;
    if sorted == [] {
      TotalFront(l, []);
      assert [l] + [] == [l];
    } else {
      InsertTotal(l, sorted[1..]);
      TotalFront(sorted[0], sorted[1..]);
      TotalFront(sorted[0], InsertBy(l, sorted[1..], ById));
      TotalFront(l, sorted);
      assert sorted == [sorted[0]] + sorted[1..];
    }
  }

  lemma {:induction false} SortedTotal(leaves: seq<SealHead>)
    ensures TotalOf(Sorted(leaves)) == TotalOf(leaves)
  {
    hide TotalOf, InsertBy;
    if leaves != [] {
      SortedTotal(leaves[1..]);
      InsertTotal(leaves[0], Sorted(leaves[1..]));
      TotalFront(leaves[0], leaves[1..]);
      assert leaves == [leaves[0]] + leaves[1..];
    }
  }

  /** The root's sum is the total of all leaf sums, in whatever order they were read. */
  lemma RootSumIsTotal(leaves: seq<SealHead>)
    requires SumRoot(leaves).Some?
    ensures SumRoot(leaves).value.sum == TotalOf(leaves)
  {
    TreeSumIsTotal(Sorted(leaves));
    SortedTotal(leaves);
  }

  ghost predicate OneRowPerId(leaves: seq<SealHead>) {
    KeyDetermines(leaves, ById)
  }

  /** With one row per account, the order the rows were read in never shows in the root. */
  lemma RootIgnoresOrder(xs: seq<SealHead>, ys: seq<SealHead>)
    requires multiset(xs) == multiset(ys) && OneRowPerId(xs)
    ensures SumRoot(xs) == SumRoot(ys)
  {
    SortOrderIndependent(xs, ys, ById);
  }

  lemma {:induction false} TreeDeterminesLeaves(xs: seq<SealHead>, ys: seq<SealHead>)
    requires SumTree(xs).Some? && SumTree(ys).Some?
    requires SumTree(xs).value.hash == SumTree(ys).value.hash
    ensures xs == ys
    decreases |xs|
  {
    if |xs| > 1 { SplitLeaves(xs); }
    if |ys| > 1 { SplitLeaves(ys); }
    if |xs| > 1 && |ys| > 1 {
      var k, j := SplitPoint(|xs|), SplitPoint(|ys|);
      TreeDeterminesLeaves(xs[..k], ys[..j]);
      TreeDeterminesLeaves(xs[k..], ys[j..]);
      assert xs == xs[..k] + xs[k..] && ys == ys[..j] + ys[j..];
    } else if |xs| == 1 && |ys| == 1 {
      assert xs == [xs[0]] && ys == [ys[0]];
    }
  }

  /** Equal root hashes mean equal sorted leaf lists: every account, every head, every sum. */
  lemma RootDeterminesLeaves(xs: seq<SealHead>, ys: seq<SealHead>)
    requires SumRoot(xs).Some? && SumRoot(ys).Some?
    requires SumRoot(xs).value.hash == SumRoot(ys).value.hash
    ensures Sorted(xs) == Sorted(ys) && multiset(xs) == multiset(ys)
  {
    TreeDeterminesLeaves(Sorted(xs), Sorted(ys));
  }

  // ---- The hash-only root, the same way ---------------------------------------------------

  ghost predicate OneHeadPerId(heads: seq<HeadLeaf>) {
    KeyDetermines(heads, ByAccount)
  }

  function HeadTree(sorted: seq<HeadLeaf>): Node {
    if sorted == [] then EmptyRoot else Tree(Join, LeafNodes(sorted))
  }

  lemma SplitHeads(sorted: seq<HeadLeaf>)
    requires |sorted| > 1
    ensures var k := SplitPoint(|sorted|);
      0 < k < |sorted| && HeadTree(sorted) == Inner(HeadTree(sorted[..k]), HeadTree(sorted[k..]))
  {
    var k, nodes := SplitPoint(|sorted|), LeafNodes(sorted);
    TreeSplits(Join, nodes);
    assert nodes[..k] == LeafNodes(sorted[..k]) && nodes[k..] == LeafNodes(sorted[k..]);
  }

  lemma OneHeadTree(h: HeadLeaf)
    ensures HeadTree([h]) == Leaf(h.account, h.head)
  {
    TreeOfOne(Join, LeafNodes([h]));
  }

  lemma {:induction false} TreeDeterminesHeads(xs: seq<HeadLeaf>, ys: seq<HeadLeaf>)
    requires HeadTree(xs) == HeadTree(ys)
    ensures xs == ys
    decreases |xs|
  {
    hide HeadTree;
    HeadTreeShape(xs);
    HeadTreeShape(ys);
    if |xs| > 1 && |ys| > 1 {
      var k, j := SplitPoint(|xs|), SplitPoint(|ys|);
      TreeDeterminesHeads(xs[..k], ys[..j]);
      TreeDeterminesHeads(xs[k..], ys[j..]);
      assert xs == xs[..k] + xs[k..] && ys == ys[..j] + ys[j..];
    } else if |xs| == 1 && |ys| == 1 {
      assert xs == [xs[0]] && ys == [ys[0]];
    }
  }

  lemma HeadTreeShape(xs: seq<HeadLeaf>)
    ensures |xs| == 0 ==> HeadTree(xs) == EmptyRoot
    ensures |xs| == 1 ==> HeadTree(xs) == Leaf(xs[0].account, xs[0].head)
    ensures |xs| > 1 ==>
      var k := SplitPoint(|xs|);
      0 < k < |xs| && HeadTree(xs) == Inner(HeadTree(xs[..k]), HeadTree(xs[k..]))
  {
    if |xs| == 1 {
      assert xs == [xs[0]];
      OneHeadTree(xs[0]);
    }
    if |xs| > 1 {
      SplitHeads(xs);
    }
  }

  /** The root before version 2 pins accounts and heads, in whatever order they were read. */
  lemma HeadRootPinsHeads(xs: seq<HeadLeaf>, ys: seq<HeadLeaf>)
    requires OneHeadPerId(xs)
    ensures Root(xs) == Root(ys) <==> multiset(xs) == multiset(ys)
  {
    assert Root(xs) == HeadTree(SortedHeads(xs)) && Root(ys) == HeadTree(SortedHeads(ys));
    if Root(xs) == Root(ys) {
      TreeDeterminesHeads(SortedHeads(xs), SortedHeads(ys));
    }
    if multiset(xs) == multiset(ys) {
      SortOrderIndependent(xs, ys, ByAccount);
    }
  }

  lemma ThreeSorted(x: HeadLeaf, y: HeadLeaf, z: HeadLeaf)
    requires Less(Id(x.account), Id(y.account)) && Less(Id(y.account), Id(z.account))
    ensures SortedHeads([z, x, y]) == [x, y, z]
  {
    hide Less, Id;
    NotBefore(x, y);
    NotBefore(y, z);
    NotBefore(x, z) by { LessTransitive(Id(x.account), Id(y.account), Id(z.account)); }
    InsertTwo(x, y);
    assert [z, x, y][1..] == [x, y] && [x, y][1..] == [y];
    var sorted := SortBy([x, y], ByAccount);
    assert sorted == [x, y];
    assert InsertBy(z, [x, y], ByAccount) == [x, y, z] by {
      LessTransitive(Id(x.account), Id(y.account), Id(z.account));
      assert InsertBy(z, [y], ByAccount) == [y] + InsertBy(z, [], ByAccount);
    }
  }

  lemma InsertTwo(x: HeadLeaf, y: HeadLeaf)
    requires Less(Id(x.account), Id(y.account))
    ensures SortBy([x, y], ByAccount) == [x, y]
  {
    hide Less, Id;
    NotBefore(x, y);
    assert [x, y][1..] == [y] && [y][1..] == [];
    assert SortBy([y], ByAccount) == [y];
  }

  /** Three accounts in id order: the first two paired, the third carried up beside them. */
  lemma ThreeHeads(x: HeadLeaf, y: HeadLeaf, z: HeadLeaf)
    requires Less(Id(x.account), Id(y.account)) && Less(Id(y.account), Id(z.account))
    ensures Root([z, x, y]) ==
      Inner(Inner(Leaf(x.account, x.head), Leaf(y.account, y.head)), Leaf(z.account, z.head))
  {
    hide Less, Id, SortedHeads;
    var xs := [x, y, z];
    ThreeSorted(x, y, z);
    assert Root([z, x, y]) == HeadTree(xs);
    SplitPointIsUnique(3, 2);
    SplitHeads(xs);
    assert xs[..2] == [x, y] && xs[2..] == [z];
    SplitPointIsUnique(2, 1);
    SplitHeads([x, y]);
    assert [x, y][..1] == [x] && [x, y][1..] == [y];
    OneHeadTree(x);
    OneHeadTree(y);
    OneHeadTree(z);
  }

  lemma NotBefore(x: HeadLeaf, y: HeadLeaf)
    requires Less(Id(x.account), Id(y.account))
    ensures !Less(ByAccount(y), ByAccount(x))
  {
    if Less(ByAccount(y), ByAccount(x)) {
      LessTransitive(Id(x.account), Id(y.account), Id(x.account));
      LessIrreflexive(Id(x.account));
    }
  }

  /** A sum node joins its children in order, and carries the sum of both. */
  lemma TwoSums(x: SealHead, y: SealHead)
    requires Less(Id(x.account), Id(y.account)) && InI64(x.sum) && InI64(y.sum) && InI64(x.sum + y.sum)
    ensures SumRoot([x, y]) == Some(Summed(
      SumInner(SumLeaf(x.account, x.head, x.sum), SumLeaf(y.account, y.head, y.sum), x.sum + y.sum), x.sum + y.sum))
  {
    assert [x, y][1..] == [y] && [y][1..] == [];
    assert Sorted([y]) == [y];
    assert Sorted([x, y]) == InsertBy(x, [y], ById);
    NotBefore(HeadLeaf(x.account, x.head), HeadLeaf(y.account, y.head));
    assert Sorted([x, y]) == [x, y];
    SplitPointIsUnique(2, 1);
    SplitLeaves([x, y]);
    assert [x, y][..1] == [x];
    TreeOfOne(SumJoin, SumNodes([x]));
    TreeOfOne(SumJoin, SumNodes([y]));
  }

  /** A sum that is not storable makes the whole root throw, and no root carries one. */
  lemma NoRootOverUnstorable(leaves: seq<SealHead>, i: nat)
    requires i < |leaves|
    ensures !InI64(leaves[i].sum) ==> SumRoot(leaves) == None
    ensures SumRoot(leaves).Some? ==> InI64(TotalOf(leaves))
  {
    hide Tree, ById;
    var sorted := Sorted(leaves);
    if !InI64(leaves[i].sum) {
      assert leaves[i] in multiset(sorted);
      var j :| 0 <= j < |sorted| && sorted[j] == leaves[i];
      ThrownNodeThrows(SumNodes(sorted), j);
    }
    if SumRoot(leaves).Some? {
      RootSumIsTotal(leaves);
      if |sorted| > 1 {
        SplitLeaves(sorted);
      } else {
        TreeOfOne(SumJoin, SumNodes(sorted));
      }
    }
  }
}
