/**
 The arithmetic of netting: however wide the chunks, together they move every account by exactly
 the journal's net, and clearing by what the movements themselves put there.
 */
module SettlementNet {
  import opened Accounts
  import opened Ledger
  import opened Money
  import opened Settlement
  import opened SettlementProof
  import opened Text

  /** The sum of the first n chunks on one account. */
  function ChunkTotal(chunks: seq<Chunk>, n: nat, a: AccountRef): int
    requires n <= |chunks|
  {
    if n == 0 then 0 else ChunkTotal(chunks, n - 1, a) + ChunkDelta(chunks[n - 1], a)
  }

  function MinorFor(ps: seq<Position>, a: AccountRef): int {
    if ps == [] then 0
    else MinorFor(ps[..|ps| - 1], a) + if ps[|ps| - 1].account == a then ps[|ps| - 1].minor else 0
  }

  function Flat(chunks: seq<Chunk>, n: nat): seq<Position>
    requires n <= |chunks|
  {
    if n == 0 then [] else Flat(chunks, n - 1) + chunks[n - 1]
  }

  // ---- Debit-positive against natural sign ----------------------------------------

  function Natural(a: AccountRef, raw: int): int {
    if IsDebitNormal(a) then raw else -raw
  }

  lemma {:induction false} DeltaIsNatural(legs: seq<Leg>, a: AccountRef)
    ensures DeltaOf(legs, a) == Natural(a, RawOf(legs, a))
  {
    if legs != [] {
      DeltaIsNatural(legs[..|legs| - 1], a);
    }
  }

  lemma {:induction false} ParticipantDelta(chunk: Chunk, a: AccountRef)
    ensures DeltaOf(ParticipantLegs(chunk, false), a) == Natural(a, MinorFor(chunk, a))
  {
    if chunk != [] {
      var n := |chunk| - 1;
      ParticipantDelta(chunk[..n], a);
      DeltaSnoc(ParticipantLegs(chunk[..n], false), Leg(chunk[n].account, CREDIT, chunk[n].minor), a);
    }
  }

  lemma {:induction false} MinorForConcat(ps: seq<Position>, qs: seq<Position>, a: AccountRef)
    ensures MinorFor(ps + qs, a) == MinorFor(ps, a) + MinorFor(qs, a)
    ensures SumOf(ps + qs) == SumOf(ps) + SumOf(qs)
  {
    if qs == [] {
      assert ps + qs == ps;
    } else {
      var n := |qs| - 1;
      MinorForConcat(ps, qs[..n], a);
      assert (ps + qs)[..|ps + qs| - 1] == ps + qs[..n];
    }
  }

  /** What positions do to an account once clearing takes the other side of them. */
  function Against(ps: seq<Position>, a: AccountRef): int {
    Natural(a, MinorFor(ps, a)) + if a == NETTING_CLEARING then SumOf(ps) else 0
  }

  lemma ChunkDeltaIsAgainst(chunk: Chunk, a: AccountRef)
    ensures ChunkDelta(chunk, a) == Against(chunk, a)
  {
    ParticipantDelta(chunk, a);
    ChunkLegsDelta(chunk, false, a);
  }

  lemma AgainstConcat(ps: seq<Position>, qs: seq<Position>, a: AccountRef)
    ensures Against(ps + qs, a) == Against(ps, a) + Against(qs, a)
  {
    MinorForConcat(ps, qs, a);
  }

  /** The first n chunks move an account by its positions among them, and clearing by their sum. */
  lemma {:induction false} ChunkTotalIsFlat(chunks: seq<Chunk>, n: nat, a: AccountRef)
    requires n <= |chunks|
    ensures ChunkTotal(chunks, n, a) == Against(Flat(chunks, n), a)
  {
    hide ChunkDelta, MinorFor, SumOf;
    if n > 0 {
      ChunkTotalIsFlat(chunks, n - 1, a);
      AgainstConcat(Flat(chunks, n - 1), chunks[n - 1], a);
      ChunkDeltaIsAgainst(chunks[n - 1], a);
    } else {
      AgainstNothing(a);
    }
  }

  lemma AgainstNothing(a: AccountRef)
    ensures Against([], a) == 0
  {
  }

  lemma {:induction false} FlatCons(c: Chunk, rest: seq<Chunk>, n: nat)
    requires n <= |rest|
    ensures Flat([c] + rest, n + 1) == c + Flat(rest, n)
  {
    if n > 0 {
      FlatCons(c, rest, n - 1);
      assert ([c] + rest)[n] == rest[n - 1];
    }
  }

  /** Chunking cuts the positions up and loses none. */
  lemma {:induction false} FlatOfChunks(ps: seq<Position>, width: nat)
    requires width > 0
    ensures var cs := ChunksOf(ps, width); Flat(cs, |cs|) == ps
    ensures var cs := ChunksOf(ps, width); forall i :: 0 <= i < |cs| ==> 0 < |cs[i]| <= width
    decreases |ps|
  {
    if |ps| > width {
      FlatOfChunks(ps[width..], width);
      var rest := ChunksOf(ps[width..], width);
      FlatCons(ps[..width], rest, |rest|);
    } else if |ps| > 0 {
      assert Flat([ps], 1) == [] + ps;
    }
  }

  lemma {:induction false} FlatPrefix(chunks: seq<Chunk>, n: nat, m: nat)
    requires n <= m <= |chunks|
    ensures Flat(chunks, n) <= Flat(chunks, m)
  {
    if n < m {
      FlatPrefix(chunks, n, m - 1);
    }
  }

  // ---- Positions ------------------------------------------------------------------

  lemma MinorForSnoc(ps: seq<Position>, p: Position, a: AccountRef)
    ensures MinorFor(ps + [p], a) == MinorFor(ps, a) + if p.account == a then p.minor else 0
    ensures SumOf(ps + [p]) == SumOf(ps) + p.minor
  {
    assert (ps + [p])[..|ps|] == ps;
  }

  function OrderSum(legs: seq<Leg>, order: seq<AccountRef>): int {
    if order == [] then 0 else OrderSum(legs, order[..|order| - 1]) + RawOf(legs, order[|order| - 1])
  }

  lemma {:induction false} PositionsSum(legs: seq<Leg>, order: seq<AccountRef>, a: AccountRef)
    requires Distinct(order)
    ensures MinorFor(PositionsOf(legs, order), a) == if a in order then RawOf(legs, a) else 0
    ensures SumOf(PositionsOf(legs, order)) == OrderSum(legs, order)
  {
    if order != [] {
      var n := |order| - 1;
      var b := order[n];
      PositionsSum(legs, order[..n], a);
      assert order == order[..n] + [b];
      if RawOf(legs, b) == 0 {
        assert PositionsOf(legs, order) == PositionsOf(legs, order[..n]);
      } else {
        MinorForSnoc(PositionsOf(legs, order[..n]), Position(b, RawOf(legs, b)), a);
      }
      if a == b {
        assert a !in order[..n];
      }
    }
  }

  lemma PositionSnoc(legs: seq<Leg>, order: seq<AccountRef>, a: AccountRef)
    requires RawOf(legs, a) != 0
    ensures PositionsOf(legs, order + [a]) == PositionsOf(legs, order) + [Position(a, RawOf(legs, a))]
  {
    assert (order + [a])[..|order|] == order;
  }

  lemma {:induction false} NoLegsNoSum(order: seq<AccountRef>)
    ensures OrderSum([], order) == 0
  {
    if order != [] {
      NoLegsNoSum(order[..|order| - 1]);
    }
  }

  lemma {:induction false} OrderSumSnoc(legs: seq<Leg>, leg: Leg, order: seq<AccountRef>)
    requires Distinct(order)
    ensures OrderSum(legs + [leg], order) == OrderSum(legs, order) + if leg.account in order then leg.minor else 0
  {
    if order != [] {
      var n := |order| - 1;
      OrderSumSnoc(legs, leg, order[..n]);
      assert order == order[..n] + [order[n]];
      assert order[n] !in order[..n];
      assert (legs + [leg])[..|legs|] == legs;
    }
  }

  /** Per account over all legs, or per leg over all accounts: the same CREDIT total. */
  lemma {:induction false} OrderSumIsCurrencySum(legs: seq<Leg>, order: seq<AccountRef>)
    requires Distinct(order)
    requires forall i :: 0 <= i < |legs| ==> legs[i].account in order && legs[i].currency == CREDIT
    ensures OrderSum(legs, order) == CurrencySum(legs, CREDIT)
  {
    if legs == [] {
      NoLegsNoSum(order);
    } else {
      var init, last := legs[..|legs| - 1], legs[|legs| - 1];
      OrderSumIsCurrencySum(init, order);
      OrderSumSnoc(init, last, order);
      assert legs == init + [last];
    }
  }

  lemma {:induction false} RawOutside(legs: seq<Leg>, a: AccountRef)
    requires a !in AccountsIn(legs)
    ensures RawOf(legs, a) == 0
  {
    if legs != [] {
      var init := legs[..|legs| - 1];
      assert legs[|legs| - 1].account in AccountsIn(legs);
      assert forall i :: 0 <= i < |init| ==> init[i] == legs[i];
      RawOutside(init, a);
    }
  }

  // ---- The journal ----------------------------------------------------------------

  lemma {:induction false} CurrencySumConcat(xs: seq<Leg>, ys: seq<Leg>, c: Currency)
    ensures CurrencySum(xs + ys, c) == CurrencySum(xs, c) + CurrencySum(ys, c)
  {
    if ys == [] {
      assert xs + ys == xs;
    } else {
      var n := |ys| - 1;
      CurrencySumConcat(xs, ys[..n], c);
      assert (xs + ys)[..|xs + ys| - 1] == xs + ys[..n];
    }
  }

  lemma {:induction false} DeltaConcat(xs: seq<Leg>, ys: seq<Leg>, a: AccountRef)
    ensures DeltaOf(xs + ys, a) == DeltaOf(xs, a) + DeltaOf(ys, a)
  {
    if ys == [] {
      assert xs + ys == xs;
    } else {
      var n := |ys| - 1;
      DeltaConcat(xs, ys[..n], a);
      assert (xs + ys)[..|xs + ys| - 1] == xs + ys[..n];
    }
  }

  lemma {:induction false} JournalLegs(movements: seq<Movement>)
    requires forall k :: 0 <= k < |movements| ==> WellFormedMovement(movements[k].legs)
    ensures var legs := AllLegs(movements);
      (forall i :: 0 <= i < |legs| ==> legs[i].currency == CREDIT) && CurrencySum(legs, CREDIT) == 0
  {
    if movements != [] {
      var n := |movements| - 1;
      JournalLegs(movements[..n]);
      CurrencySumConcat(AllLegs(movements[..n]), movements[n].legs, CREDIT);
    }
  }

  /** The movements of the journal, summed on one account, over the first n. */
  function MovementTotal(movements: seq<Movement>, n: nat, a: AccountRef): int
    requires n <= |movements|
  {
    if n == 0 then 0 else MovementTotal(movements, n - 1, a) + DeltaOf(movements[n - 1].legs, a)
  }

  lemma {:induction false} AllLegsDelta(movements: seq<Movement>, n: nat, a: AccountRef)
    requires n <= |movements|
    ensures DeltaOf(AllLegs(movements[..n]), a) == MovementTotal(movements, n, a)
  {
    if n > 0 {
      AllLegsDelta(movements, n - 1, a);
      assert movements[..n][..n - 1] == movements[..n - 1];
      DeltaConcat(AllLegs(movements[..n - 1]), movements[n - 1].legs, a);
    }
  }

  /**
   Netting conserves: for every chunk width and every account, the chunks add up to the movements.
   On clearing that is what the movements put there - zero, when none of them touches it.
   */
  lemma ChunksAddUpToNet(movements: seq<Movement>, width: nat, a: AccountRef)
    requires width > 0 && forall k :: 0 <= k < |movements| ==> WellFormedMovement(movements[k].legs)
    ensures var cs := ChunksOf(Positions(movements), width);
      ChunkTotal(cs, |cs|, a) == MovementTotal(movements, |movements|, a)
  {
    var legs, ps := AllLegs(movements), Positions(movements);
    var order, cs := DistinctAccounts(legs), ChunksOf(ps, width);
    ChunkTotalIsFlat(cs, |cs|, a);
    FlatOfChunks(ps, width);
    JournalLegs(movements);
    PositionsSum(legs, order, a);
    forall i | 0 <= i < |legs| ensures legs[i].account in order {
      assert legs[i].account in AccountsIn(legs);
    }
    OrderSumIsCurrencySum(legs, order);
    if a !in order {
      RawOutside(legs, a);
    }
    DeltaIsNatural(legs, a);
    AllLegsDelta(movements, |movements|, a);
    assert movements[..|movements|] == movements;
  }

  // ---- A proper prefix of the chunks never cancels out ------------------------------

  predicate DistinctPositions(ps: seq<Position>, order: seq<AccountRef>) {
    && (forall i :: 0 <= i < |ps| ==> ps[i].minor != 0 && ps[i].account in order)
    && (forall i, j :: 0 <= i < j < |ps| ==> ps[i].account != ps[j].account)
  }

  lemma {:induction false} PositionsAreDistinct(legs: seq<Leg>, order: seq<AccountRef>)
    requires Distinct(order)
    ensures DistinctPositions(PositionsOf(legs, order), order)
  {
    if order != [] {
      var n := |order| - 1;
      PositionsAreDistinct(legs, order[..n]);
      assert order == order[..n] + [order[n]];
      assert order[n] !in order[..n];
      var before := PositionsOf(legs, order[..n]);
      assert DistinctPositions(before, order);
      if RawOf(legs, order[n]) == 0 {
        assert PositionsOf(legs, order) == before;
      } else {
        assert PositionsOf(legs, order) == before + [Position(order[n], RawOf(legs, order[n]))];
      }
    }
  }

  /** Position x of chunk i, at its place in the whole. */
  lemma {:induction false} FlatAt(chunks: seq<Chunk>, i: nat, x: nat, n: nat)
    requires i < n <= |chunks| && x < |chunks[i]|
    ensures |Flat(chunks, i)| + x < |Flat(chunks, i + 1)| <= |Flat(chunks, n)|
    ensures Flat(chunks, n)[|Flat(chunks, i)| + x] == chunks[i][x]
  {
    if i < n - 1 {
      FlatAt(chunks, i, x, n - 1);
    }
  }

  lemma {:induction false} MinorOutside(ps: seq<Position>, a: AccountRef)
    requires forall x :: 0 <= x < |ps| ==> ps[x].account != a
    ensures MinorFor(ps, a) == 0
  {
    if ps != [] {
      MinorOutside(ps[..|ps| - 1], a);
    }
  }

  lemma {:induction false} MinorAt(ps: seq<Position>, x: nat)
    requires x < |ps| && forall y :: 0 <= y < |ps| && y != x ==> ps[y].account != ps[x].account
    ensures MinorFor(ps, ps[x].account) == ps[x].minor
  {
    var n := |ps| - 1;
    if x < n {
      MinorAt(ps[..n], x);
    } else {
      MinorOutside(ps[..n], ps[x].account);
    }
  }

  /** Whatever the width, an account sits in one place of one chunk, with a nonzero amount. */
  lemma PlacesApart(movements: seq<Movement>, width: nat, i: nat, x: nat, j: nat, y: nat)
    requires width > 0
    requires var cs := ChunksOf(Positions(movements), width); i < |cs| && x < |cs[i]| && j < |cs| && y < |cs[j]|
    ensures var cs := ChunksOf(Positions(movements), width);
      cs[i][x].minor != 0 && (cs[i][x].account == cs[j][y].account ==> i == j && x == y)
  {
    var legs, ps := AllLegs(movements), Positions(movements);
    var cs := ChunksOf(ps, width);
    FlatOfChunks(ps, width);
    PositionsAreDistinct(legs, DistinctAccounts(legs));
    FlatAt(cs, i, x, |cs|);
    FlatAt(cs, j, y, |cs|);
    if i < j {
      FlatAt(cs, i, x, j);
    } else if j < i {
      FlatAt(cs, j, y, i);
    }
  }

  /** An account other than clearing is moved by the one chunk that holds it. */
  lemma OneChunkMoves(movements: seq<Movement>, width: nat, i: nat, x: nat, j: nat)
    requires width > 0
    requires var cs: seq<Chunk> := ChunksOf(Positions(movements), width);
      i < |cs| && x < |cs[i]| && j < |cs| && cs[i][x].account != NETTING_CLEARING
    ensures var cs: seq<Chunk> := ChunksOf(Positions(movements), width);
      (ChunkDelta(cs[j], cs[i][x].account) != 0 <==> i == j)
  {
    var cs: seq<Chunk> := ChunksOf(Positions(movements), width);
    var a := cs[i][x].account;
    forall y | 0 <= y < |cs[j]| ensures cs[j][y].account == a ==> i == j && x == y {
      PlacesApart(movements, width, i, x, j, y);
    }
    PlacesApart(movements, width, i, x, i, x);
    ChunkDeltaIsAgainst(cs[j], a);
    if i == j {
      MinorAt(cs[i], x);
    } else {
      MinorOutside(cs[j], a);
    }
  }

  /** The chunk holds an account besides clearing. */
  predicate Moves(chunk: Chunk) {
    exists x :: 0 <= x < |chunk| && chunk[x].account != NETTING_CLEARING
  }

  lemma {:induction false} OnlyClearing(chunk: Chunk)
    requires !Moves(chunk)
    ensures MinorFor(chunk, NETTING_CLEARING) == SumOf(chunk)
  {
    if chunk != [] {
      var init := chunk[..|chunk| - 1];
      assert forall x :: 0 <= x < |init| ==> init[x] == chunk[x];
      OnlyClearing(init);
    }
  }

  /** A chunk that holds clearing alone moves nothing: its two legs cancel. */
  lemma IdleChunk(chunk: Chunk, a: AccountRef)
    requires !Moves(chunk)
    ensures ChunkDelta(chunk, a) == 0
  {
    ChunkDeltaIsAgainst(chunk, a);
    if a == NETTING_CLEARING {
      OnlyClearing(chunk);
      ClearingTraits();
    } else {
      MinorOutside(chunk, a);
    }
  }

  /** Where no movement touches clearing, every chunk moves something. */
  lemma ChunksMove(movements: seq<Movement>, width: nat, i: nat)
    requires width > 0 && NETTING_CLEARING !in AccountsIn(AllLegs(movements))
    requires i < |ChunksOf(Positions(movements), width)|
    ensures Moves(ChunksOf(Positions(movements), width)[i])
  {
    var legs, ps := AllLegs(movements), Positions(movements);
    var cs: seq<Chunk> := ChunksOf(ps, width);
    FlatOfChunks(ps, width);
    PositionsAreDistinct(legs, DistinctAccounts(legs));
    FlatAt(cs, i, 0, |cs|);
    assert ps[|Flat(cs, i)|] == cs[i][0] && cs[i][0].account in AccountsIn(legs);
  }
}
