/**
 The bytes a Merkle leaf hashes (src/chain.ts `leafPreimage`, `sumLeafPreimage`, `toInt64BE`): a domain
 tag, "account:head" text and, in a sum leaf, the sum as eight big-endian bytes. They determine the
 account, the head and the sum, which is what lets module Merkle treat a leaf hash as a constructor.
 */
module LeafBytes {
  import opened Accounts
  import opened AccountIds
  import opened Fold
  import opened Money
  import opened Preimage
  import opened Text

  const LEAF_TAG: Byte := 0
  const NODE_TAG: Byte := 1
  const SUM_LEAF_TAG: Byte := 2
  const SUM_NODE_TAG: Byte := 3

  // ---- Sums ----------------------------------------------------------------------------

  function Span(n: nat): nat {
    if n == 0 then 1 else 256 * Span(n - 1)
  }

  function BigEndian(w: nat, n: nat): (r: seq<Byte>)
    ensures |r| == n
  {
    if n == 0 then [] else BigEndian(w / 256, n - 1) + [w % 256]
  }

  lemma {:induction false} BigEndianInjective(v: nat, w: nat, n: nat)
    requires v < Span(n) && w < Span(n) && BigEndian(v, n) == BigEndian(w, n)
    ensures v == w
  {
    if n > 0 {
      var b, c := BigEndian(v, n), BigEndian(w, n);
      assert b[n - 1] == c[n - 1] && b[..n - 1] == BigEndian(v / 256, n - 1) && c[..n - 1] == BigEndian(w / 256, n - 1);
      BigEndianInjective(v / 256, w / 256, n - 1);
    }
  }

  lemma EightBytes()
    ensures Span(8) == WORD
  {
    assert Span(2) == 0x1_0000;
    assert Span(4) == 0x1_0000_0000;
    assert Span(6) == 0x1_0000_0000_0000;
  }

  /** Two's complement, most significant byte first; a sum outside i64 throws before this. */
  function Int64BE(v: int): (r: seq<Byte>)
    ensures |r| == 8
  {
    BigEndian(ToWord(v), 8)
  }

  lemma Int64BEInjective(v: int, w: int)
    requires InI64(v) && InI64(w) && Int64BE(v) == Int64BE(w)
    ensures v == w
  {
    EightBytes();
    BigEndianInjective(ToWord(v), ToWord(w), 8);
    I64Survives(v);
    I64Survives(w);
  }

  // ---- Leaves --------------------------------------------------------------------------

  /** A head is 64 hex digits, so it never holds a colon. */
  predicate HeadText(head: string) {
    |head| == 64 && ':' !in head
  }

  function LeafPreimage(account: AccountRef, head: string): seq<Byte> {
    [LEAF_TAG] + Utf8(Id(account) + ":" + head)
  }

  function SumLeafPreimage(account: AccountRef, head: string, sum: int): seq<Byte> {
    [SUM_LEAF_TAG] + Utf8(Id(account) + ":" + head + ":") + Int64BE(sum)
  }

  function NodePreimage(left: seq<Byte>, right: seq<Byte>): seq<Byte> {
    [NODE_TAG] + left + right
  }

  function SumNodePreimage(left: seq<Byte>, right: seq<Byte>, total: int): seq<Byte> {
    [SUM_NODE_TAG] + left + right + Int64BE(total)
  }

  lemma LeafDeterminesContent(a: AccountRef, h: string, b: AccountRef, g: string)
    requires IsKnownAccount(a) && IsKnownAccount(b) && HeadText(h) && HeadText(g)
    requires LeafPreimage(a, h) == LeafPreimage(b, g)
    ensures a == b && h == g
  {
    hide Id, Utf8;
    assert LeafPreimage(a, h)[1..] == Utf8(Id(a) + ":" + h) && LeafPreimage(b, g)[1..] == Utf8(Id(b) + ":" + g);
    Utf8Injective(Id(a) + ":" + h, Id(b) + ":" + g);
    SplitAtLast(':', Id(a), Id(b), h, g);
    IdDeterminesAccount(a, b);
  }

  lemma SplitTail(x: seq<Byte>, s: seq<Byte>, y: seq<Byte>, t: seq<Byte>)
    requires |s| == |t| && x + s == y + t
    ensures x == y && s == t
  {
    assert (x + s)[..|x|] == x && (y + t)[..|y|] == y;
    assert (x + s)[|x|..] == s && (y + t)[|y|..] == t;
  }

  lemma SumLeafDeterminesContent(a: AccountRef, h: string, v: int, b: AccountRef, g: string, w: int)
    requires IsKnownAccount(a) && IsKnownAccount(b) && HeadText(h) && HeadText(g) && InI64(v) && InI64(w)
    requires SumLeafPreimage(a, h, v) == SumLeafPreimage(b, g, w)
    ensures a == b && h == g && v == w
  {
    hide Id, Utf8, Int64BE;
    var s, t := Id(a) + ":" + h + ":", Id(b) + ":" + g + ":";
    SplitTail([SUM_LEAF_TAG] + Utf8(s), Int64BE(v), [SUM_LEAF_TAG] + Utf8(t), Int64BE(w));
    Int64BEInjective(v, w);
    assert ([SUM_LEAF_TAG] + Utf8(s))[1..] == Utf8(s) && ([SUM_LEAF_TAG] + Utf8(t))[1..] == Utf8(t);
    Utf8Injective(s, t);
    assert s[..|s| - 1] == Id(a) + ":" + h && t[..|t| - 1] == Id(b) + ":" + g;
    SplitAtLast(':', Id(a), Id(b), h, g);
    IdDeterminesAccount(a, b);
  }

  /** Domain separation: no leaf reads as a node, and no version-1 preimage as a version-2 one. */
  lemma TagsSeparate(a: AccountRef, h: string, sum: int, l: seq<Byte>, r: seq<Byte>, b: AccountRef, g: string,
      total: int, x: seq<Byte>, y: seq<Byte>)
    ensures LeafPreimage(a, h) != NodePreimage(l, r) && SumLeafPreimage(b, g, sum) != SumNodePreimage(x, y, total)
    ensures LeafPreimage(a, h) != SumLeafPreimage(b, g, sum) && NodePreimage(l, r) != SumNodePreimage(x, y, total)
    ensures LeafPreimage(a, h) != SumNodePreimage(x, y, total) && NodePreimage(l, r) != SumLeafPreimage(b, g, sum)
  {
    hide Id, Utf8, Int64BE;
    assert LeafPreimage(a, h)[0] == 0 && NodePreimage(l, r)[0] == 1;
    assert SumLeafPreimage(b, g, sum)[0] == 2 && SumNodePreimage(x, y, total)[0] == 3;
  }

  /** Children are hashes of one fixed width, so a node's bytes split without a separator. */
  lemma SumNodeDeterminesContent(l: seq<Byte>, r: seq<Byte>, v: int, l': seq<Byte>, r': seq<Byte>, v': int)
    requires |l| == |r| == |l'| == |r'| == 32 && InI64(v) && InI64(v')
    requires SumNodePreimage(l, r, v) == SumNodePreimage(l', r', v')
    ensures l == l' && r == r' && v == v'
  {
    hide Int64BE;
    SplitTail([SUM_NODE_TAG] + l + r, Int64BE(v), [SUM_NODE_TAG] + l' + r', Int64BE(v'));
    SplitTail([SUM_NODE_TAG] + l, r, [SUM_NODE_TAG] + l', r');
    SplitTail([SUM_NODE_TAG], l, [SUM_NODE_TAG], l');
    Int64BEInjective(v, v');
  }

  function Weight(b: seq<Byte>): nat {
    if b == [] then 0 else 256 * Weight(b[..|b| - 1]) + b[|b| - 1] as nat
  }

  lemma {:induction false} BigEndianSays(w: nat, n: nat)
    requires w < Span(n)
    ensures Weight(BigEndian(w, n)) == w
  {
    if n > 0 {
      BigEndianSays(w / 256, n - 1);
      assert BigEndian(w, n)[..n - 1] == BigEndian(w / 256, n - 1);
    }
  }

  /** A sum's eight bytes, most significant first: the sum, or 2^64 more when it is negative. */
  lemma Int64BESays(v: int)
    requires InI64(v)
    ensures Weight(Int64BE(v)) == if v >= 0 then v else v + 0x1_0000_0000_0000_0000
  {
    EightBytes();
    BigEndianSays(ToWord(v), 8);
  }

  /** The tags, and what stands where behind them. */
  lemma Layouts(account: AccountRef, head: string, sum: int, left: seq<Byte>, right: seq<Byte>)
    ensures LeafPreimage(account, head)[0] == 0 && LeafPreimage(account, head)[1..] == Utf8(Id(account) + ":" + head)
    ensures NodePreimage(left, right)[0] == 1 && NodePreimage(left, right)[1..] == left + right
    ensures var b := SumLeafPreimage(account, head, sum);
      b[0] == 2 && b[|b| - 8..] == Int64BE(sum) && b[1..|b| - 8] == Utf8(Id(account) + ":" + head + ":")
    ensures var b := SumNodePreimage(left, right, sum);
      b[0] == 3 && b[|b| - 8..] == Int64BE(sum) && b[1..|b| - 8] == left + right
  {
    hide Utf8, Id, Int64BE;
  }
}
