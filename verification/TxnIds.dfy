/**
 The texts a session's transaction ids render to (src/netting.ts `postChunk`, `replay`). Settlement is
 idempotent on these ids alone, so no two of them - within a session or across sessions, whatever the
 session ids are - may read the same.
 */
module TxnIds {
  import opened Ledger
  import opened Money
  import opened Text

  function Render(id: TxnId): string {
    match id
    case ChunkTxn(sid, i) => "net_" + sid + "_c" + Digits(i)
    case CompTxn(sid, i) => "net_" + sid + "_c" + Digits(i) + "_comp"
    case ReplayTxn(sid, q) => "mv_" + sid + "_" + Digits(q)
    case OtherTxn(text) => text
  }

  lemma DigitsArePlain(n: nat)
    ensures '_' !in Digits(n)
  {
  }

  lemma DigitsDiffer(n: nat, m: nat)
    requires Digits(n) == Digits(m)
    ensures n == m
  {
    ValueOfDigits(n);
    ValueOfDigits(m);
  }

  /** Everything before the last underscore, and what follows it. */
  function Stem(id: TxnId): string {
    match id
    case ChunkTxn(sid, _) => "net_" + sid
    case CompTxn(sid, i) => "net_" + sid + "_c" + Digits(i)
    case ReplayTxn(sid, _) => "mv_" + sid
    case OtherTxn(_) => ""
  }

  function Tail(id: TxnId): string {
    match id
    case ChunkTxn(_, i) => "c" + Digits(i)
    case CompTxn(_, _) => "comp"
    case ReplayTxn(_, q) => Digits(q)
    case OtherTxn(text) => text
  }

  lemma Parts(id: TxnId)
    requires !id.OtherTxn?
    ensures Render(id) == Stem(id) + "_" + Tail(id) && '_' !in Tail(id)
  {
    match id
    case ChunkTxn(sid, i) =>
      DigitsArePlain(i);
      assert "_c" == "_" + "c";
      assert Render(id) == Stem(id) + "_" + Tail(id);
    case CompTxn(sid, i) =>
      assert "_comp" == "_" + "comp";
      assert Render(id) == Stem(id) + "_" + Tail(id);
    case ReplayTxn(_, q) => DigitsArePlain(q);
  }

  lemma PrefixDrops(p: string, a: string, b: string)
    requires p + a == p + b
    ensures a == b
  {
    assert (p + a)[|p|..] == a && (p + b)[|p|..] == b;
  }

  lemma ChunkTextDetermines(s: string, i: nat, t: string, j: nat)
    requires Render(ChunkTxn(s, i)) == Render(ChunkTxn(t, j))
    ensures s == t && i == j
  {
    Parts(ChunkTxn(s, i));
    Parts(ChunkTxn(t, j));
    SplitAtLast('_', "net_" + s, "net_" + t, "c" + Digits(i), "c" + Digits(j));
    PrefixDrops("net_", s, t);
    PrefixDrops("c", Digits(i), Digits(j));
    DigitsDiffer(i, j);
  }

  /** A chunk's number is never `omp`. */
  lemma ChunkIsNoCompensation(i: nat)
    ensures "c" + Digits(i) != "comp"
  {
    assert ("c" + Digits(i))[1] == Digits(i)[0] && IsDigit(Digits(i)[0]);
  }

  /** No two of a session's ids, or of two sessions', render alike. */
  lemma RenderDeterminesId(a: TxnId, b: TxnId)
    requires !a.OtherTxn? && !b.OtherTxn? && Render(a) == Render(b)
    ensures a == b
  {
    Parts(a);
    Parts(b);
    SplitAtLast('_', Stem(a), Stem(b), Tail(a), Tail(b));
    assert Render(a)[0] == Render(b)[0];
    match (a, b) {
      case (ChunkTxn(s, i), ChunkTxn(t, j)) => ChunkTextDetermines(s, i, t, j);
      case (CompTxn(s, i), CompTxn(t, j)) => ChunkTextDetermines(s, i, t, j);
      case (ReplayTxn(s, q), ReplayTxn(t, r)) =>
        PrefixDrops("mv_", s, t);
        DigitsDiffer(q, r);
      case (ChunkTxn(_, i), CompTxn(_, _)) => ChunkIsNoCompensation(i);
      case (CompTxn(_, _), ChunkTxn(_, j)) => ChunkIsNoCompensation(j);
      case _ =>
    }
  }

  /** A session's first chunk, its compensation and the replay of its first movement. */
  lemma RenderTexts(sid: string)
    ensures Render(ChunkTxn(sid, 0)) == "net_" + sid + "_c0" && Render(CompTxn(sid, 0)) == "net_" + sid + "_c0_comp"
    ensures Render(ReplayTxn(sid, 0)) == "mv_" + sid + "_0"
  {
    assert Digits(0) == "0";
    assert "net_" + sid + "_c" + "0" == "net_" + sid + ("_c" + "0") && "_c" + "0" == "_c0";
    assert "net_" + sid + "_c" + "0" + "_comp" == "net_" + sid + ("_c0" + "_comp") && "_c0" + "_comp" == "_c0_comp";
    assert "mv_" + sid + "_" + "0" == "mv_" + sid + ("_" + "0") && "_" + "0" == "_0";
  }
}
