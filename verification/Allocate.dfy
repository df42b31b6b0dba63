/**
 Splitting an amount across weights without losing a unit (src/money.vendored.ts `allocate`): floors
 first, then one unit at a time to the largest fractional parts, lower index first on a tie.
 */
module Allocate {
  import opened Text

  datatype Refusal = NoWeights | NegativeWeight | ZeroTotal

  datatype Result = Shares(shares: seq<int>) | Refused(why: Refusal)

  function Sum(xs: seq<int>): int {
    if xs == [] then 0 else Sum(xs[..|xs| - 1]) + xs[|xs| - 1]
  }

  /** The whole part of an exact quota, and what is left over of it, in units of the total weight. */
  function Floor(minor: nat, w: nat, total: nat): nat
    requires total > 0
  {
    minor * w / total
  }

  function Frac(minor: nat, w: nat, total: nat): nat
    requires total > 0
  {
    minor * w % total
  }

  // ---- What a fair split is --------------------------------------------------------------

  predicate NoUnitLost(minor: nat, shares: seq<int>) {
    Sum(shares) == minor
  }

  predicate NearQuota(minor: nat, weights: seq<nat>, total: nat, shares: seq<int>)
    requires total > 0 && |shares| == |weights|
  {
    forall i :: 0 <= i < |weights| ==>
      shares[i] == Floor(minor, weights[i], total) || shares[i] == Floor(minor, weights[i], total) + 1
  }

  predicate ZeroForZero(weights: seq<nat>, shares: seq<int>)
    requires |shares| == |weights|
  {
    forall i :: 0 <= i < |weights| && weights[i] == 0 ==> shares[i] == 0
  }

  predicate HeavierGetsNoLess(weights: seq<nat>, shares: seq<int>)
    requires |shares| == |weights|
  {
    forall i, j :: 0 <= i < |weights| && 0 <= j < |weights| && weights[i] > weights[j] ==> shares[i] >= shares[j]
  }

  /** An extra unit goes to the larger fractional part, and on a tie to the lower index. */
  predicate LargestFirst(minor: nat, weights: seq<nat>, total: nat, shares: seq<int>)
    requires total > 0 && |shares| == |weights|
  {
    forall i, j :: 0 <= i < |weights| && 0 <= j < |weights| ==>
      (shares[i] > Floor(minor, weights[i], total) && shares[j] == Floor(minor, weights[j], total) ==>
       Precedes(Part(i, Frac(minor, weights[i], total)), Part(j, Frac(minor, weights[j], total))))
  }

  ghost predicate Fair(minor: nat, weights: seq<nat>, shares: seq<int>) {
    && |shares| == |weights| && Sum(weights) > 0
    && NoUnitLost(minor, shares) && NearQuota(minor, weights, Sum(weights), shares)
    && ZeroForZero(weights, shares) && HeavierGetsNoLess(weights, shares)
    && LargestFirst(minor, weights, Sum(weights), shares)
  }

  // ---- The order of the leftovers ----------------------------------------------------------

  datatype Part = Part(i: nat, frac: nat)

  predicate Precedes(a: Part, b: Part) {
    a.frac > b.frac || (a.frac == b.frac && a.i < b.i)
  }

  function Insert(p: Part, sorted: seq<Part>): (r: seq<Part>)
    ensures |r| == |sorted| + 1
  {
    if sorted == [] then [p]
    else if Precedes(sorted[0], p) then [sorted[0]] + Insert(p, sorted[1..])
    else [p] + sorted
  }

  /** The runtime's sort under that comparator. */
  function SortParts(parts: seq<Part>): (r: seq<Part>)
    ensures |r| == |parts|
  {
    if parts == [] then [] else Insert(parts[|parts| - 1], SortParts(parts[..|parts| - 1]))
  }

  function FracSum(parts: seq<Part>): nat {
    if parts == [] then 0 else parts[0].frac + FracSum(parts[1..])
  }

  ghost predicate InOrder(parts: seq<Part>) {
    forall a, b :: 0 <= a < b < |parts| ==> Precedes(parts[a], parts[b])
  }

  lemma {:induction false} InsertFacts(p: Part, sorted: seq<Part>)
    requires InOrder(sorted) && forall k :: 0 <= k < |sorted| ==> sorted[k].i != p.i
    ensures InOrder(Insert(p, sorted))
    ensures forall x :: x in Insert(p, sorted) <==> x == p || x in sorted
    ensures FracSum(Insert(p, sorted)) == p.frac + FracSum(sorted)
  {
    if sorted != [] && Precedes(sorted[0], p) {
      InsertFacts(p, sorted[1..]);
      var rest := Insert(p, sorted[1..]);
      assert sorted == [sorted[0]] + sorted[1..];
      forall b | 0 <= b < |rest| ensures Precedes(sorted[0], rest[b]) {
        assert rest[b] in rest;
      }
    }
  }

  function PartsOf(minor: nat, weights: seq<nat>, total: nat): (r: seq<Part>)
    requires total > 0
    ensures |r| == |weights|
  {
    seq(|weights|, i requires 0 <= i < |weights| => Part(i, Frac(minor, weights[i], total)))
  }

  /** Parts numbered 0, 1, 2, ... */
  ghost predicate Numbered(parts: seq<Part>) {
    forall k :: 0 <= k < |parts| ==> parts[k].i == k
  }

  lemma {:induction false} SortFacts(parts: seq<Part>)
    requires Numbered(parts)
    ensures InOrder(SortParts(parts))
    ensures forall x :: x in SortParts(parts) <==> x in parts
    ensures FracSum(SortParts(parts)) == FracTotal(parts)
  {
    if parts != [] {
      var n := |parts| - 1;
      SortFacts(parts[..n]);
      var sorted := SortParts(parts[..n]);
      forall k | 0 <= k < |sorted| ensures sorted[k].i != parts[n].i {
        assert sorted[k] in sorted;
      }
      InsertFacts(parts[n], sorted);
      assert parts == parts[..n] + [parts[n]];
    }
  }

  function FracTotal(parts: seq<Part>): nat {
    if parts == [] then 0 else FracTotal(parts[..|parts| - 1]) + parts[|parts| - 1].frac
  }

  // ---- How much is left over ---------------------------------------------------------------

  lemma DivideQuota(minor: nat, w: nat, total: nat)
    requires total > 0
    ensures minor * w == Floor(minor, w, total) * total + Frac(minor, w, total) && Frac(minor, w, total) < total
  {
    var x := minor * w;
    assert x == total * (x / total) + x % total;
  }

  function Floors(minor: nat, weights: seq<nat>, total: nat): (r: seq<int>)
    requires total > 0
    ensures |r| == |weights|
  {
    seq(|weights|, i requires 0 <= i < |weights| => Floor(minor, weights[i], total))
  }

  lemma AddMultiples(a: int, b: int, total: int)
    ensures (a + b) * total == a * total + b * total
  {
  }

  /** The fractional parts add up to exactly the units the floors left over. */
  lemma {:induction false} LeftoverIsFractions(minor: nat, weights: seq<nat>, total: nat)
    requires total > 0
    ensures minor * Sum(weights) == Sum(Floors(minor, weights, total)) * total
      + FracTotal(PartsOf(minor, weights, total))
  {
    hide Floor, Frac;
    if weights == [] {
      assert Sum(weights) == 0;
    } else {
      var n := |weights| - 1;
      LeftoverIsFractions(minor, weights[..n], total);
      assert Floors(minor, weights, total)[..n] == Floors(minor, weights[..n], total);
      assert PartsOf(minor, weights, total)[..n] == PartsOf(minor, weights[..n], total);
      DivideQuota(minor, weights[n], total);
      AddMultiples(Sum(weights[..n]), weights[n], minor);
      AddMultiples(Sum(Floors(minor, weights[..n], total)), Floor(minor, weights[n], total), total);
    }
  }

  ghost predicate FracsBelow(parts: seq<Part>, total: nat) {
    forall k :: 0 <= k < |parts| ==> parts[k].frac < total
  }

  /** If part k has no fraction, neither has any later one. */
  lemma {:induction false} NothingAfterZero(parts: seq<Part>)
    requires InOrder(parts) && parts != [] && parts[0].frac == 0
    ensures FracSum(parts) == 0
  {
    if |parts| > 1 {
      assert Precedes(parts[0], parts[1]);
      NothingAfterZero(parts[1..]);
    }
  }

  /** At most k parts carry a fraction, each less than the total: together less than k+1 totals. */
  lemma {:induction false} FewFractions(parts: seq<Part>, k: nat, total: nat)
    requires InOrder(parts) && FracsBelow(parts, total) && total > 0
    requires k >= |parts| || parts[k].frac == 0
    ensures FracSum(parts) <= k * (total - 1)
  {
    if parts != [] {
      if k == 0 {
        NothingAfterZero(parts);
      } else {
        TailFacts(parts, total);
        FewFractions(parts[1..], k - 1, total);
        OneMoreTotal(k, total - 1);
      }
    }
    AtLeastAsMany(0, k, total - 1);
  }

  lemma TailFacts(parts: seq<Part>, total: nat)
    requires parts != [] && InOrder(parts) && FracsBelow(parts, total)
    ensures InOrder(parts[1..]) && FracsBelow(parts[1..], total) && parts[0].frac <= total - 1
  {
  }

  lemma OneMoreTotal(k: nat, most: nat)
    requires k > 0
    ensures (k - 1) * most + most == k * most
  {
  }

  /** So each leftover unit finds a part with a fraction, and one pass is enough. */
  lemma LeftoverFits(parts: seq<Part>, remainder: nat, total: nat)
    requires InOrder(parts) && FracsBelow(parts, total) && total > 0 && FracSum(parts) == remainder * total
    ensures remainder <= |parts| && forall k :: 0 <= k < remainder ==> parts[k].frac > 0
  {
    if remainder > |parts| {
      TooFew(parts, |parts|, remainder, total);
    }
    forall k: nat | k < remainder && k < |parts| ensures parts[k].frac > 0 {
      if parts[k].frac == 0 {
        TooFew(parts, k, remainder, total);
      }
    }
  }

  lemma TooFew(parts: seq<Part>, k: nat, remainder: nat, total: nat)
    requires InOrder(parts) && FracsBelow(parts, total) && total > 0 && k < remainder
    requires k >= |parts| || parts[k].frac == 0
    ensures FracSum(parts) != remainder * total
  {
    FewFractions(parts, k, total);
    AtLeastAsMany(k + 1, remainder, total);
    AddMultiples(k, 1, total);
    LessByOne(k, total);
  }

  lemma LessByOne(k: nat, total: nat)
    requires total > 0
    ensures k * (total - 1) == k * total - k
  {
  }

  lemma AtLeastAsMany(a: nat, b: nat, total: nat)
    requires a <= b
    ensures a * total <= b * total
  {
  }

  // ---- The algorithm -----------------------------------------------------------------------

  /** Index i is among the first k of the order. */
  ghost predicate Taken(order: seq<Part>, k: nat, i: nat) {
    exists q :: 0 <= q < k && q < |order| && order[q].i == i
  }

  lemma {:induction false} SumUpdate(xs: seq<int>, i: nat, v: int)
    requires i < |xs|
    ensures Sum(xs[i := v]) == Sum(xs) - xs[i] + v
  {
    var n := |xs| - 1;
    if i < n {
      SumUpdate(xs[..n], i, v);
      assert xs[i := v][..n] == xs[..n][i := v];
    } else {
      assert xs[i := v][..n] == xs[..n];
    }
  }

  method Total(xs: seq<int>) returns (sum: int)
    ensures sum == Sum(xs)
  {
    sum := 0;
    for k := 0 to |xs|
      invariant sum == Sum(xs[..k])
    {
      PrefixStep(xs, k);
      sum := sum + xs[k];
    }
    assert xs[..|xs|] == xs;
  }

  lemma OrderFacts(minor: nat, weights: seq<nat>, total: nat, order: seq<Part>)
    requires total > 0 && order == SortParts(PartsOf(minor, weights, total))
    ensures InOrder(order) && FracsBelow(order, total)
    ensures FracSum(order) == FracTotal(PartsOf(minor, weights, total))
    ensures forall q :: 0 <= q < |order| ==>
      order[q].i < |weights| && order[q].frac == Frac(minor, weights[order[q].i], total)
    ensures forall i :: 0 <= i < |weights| ==> Taken(order, |order|, i)
    ensures forall p, q :: 0 <= p < q < |order| ==> order[p].i != order[q].i
  {
    hide Frac;
    var parts := PartsOf(minor, weights, total);
    SortFacts(parts);
    forall q | 0 <= q < |order|
      ensures order[q].i < |weights| && order[q].frac == Frac(minor, weights[order[q].i], total) < total
    {
      assert order[q] in order && order[q] in parts;
      DivideQuota(minor, weights[order[q].i], total);
    }
    forall i: nat | i < |weights| ensures Taken(order, |order|, i) {
      assert parts[i] in parts && parts[i] in order;
      var q :| 0 <= q < |order| && order[q] == parts[i];
    }
    forall p, q | 0 <= p < q < |order| ensures order[p].i != order[q].i {
      assert Precedes(order[p], order[q]);
      assert order[p] in parts && order[q] in parts;
    }
  }

  /** The leftover after the floors, as the loop sees it. */
  lemma LeftoverInOrder(minor: nat, weights: seq<nat>, total: nat, order: seq<Part>)
    requires total > 0 && total == Sum(weights) && order == SortParts(PartsOf(minor, weights, total))
    ensures var remainder := minor - Sum(Floors(minor, weights, total));
      0 <= remainder <= |order| && forall k :: 0 <= k < remainder ==> order[k].frac > 0
  {
    hide Floors, PartsOf, SortParts, FracSum, FracTotal;
    var floors := Sum(Floors(minor, weights, total));
    LeftoverIsFractions(minor, weights, total);
    OrderFacts(minor, weights, total, order);
    var remainder := minor - floors;
    AddMultiples(remainder, floors, total);
    NonNegativeQuotient(remainder, total, FracSum(order));
    LeftoverFits(order, remainder, total);
  }

  lemma NonNegativeQuotient(x: int, total: nat, y: nat)
    requires total > 0 && x * total == y
    ensures x >= 0
  {
    if x < 0 {
      NegativeProduct(x, total);
    }
  }

  lemma NegativeProduct(x: int, total: nat)
    requires x < 0 && total > 0
    ensures x * total < 0
  {
  }

  method AllocateWhole(minor: nat, weights: seq<nat>, total: nat) returns (result: seq<int>)
    requires total > 0 && total == Sum(weights)
    ensures Fair(minor, weights, result)
  {
    hide Floor, Frac, PartsOf, SortParts, InOrder, Fair, Taken;
    var n := |weights|;
    var shares := new int[n](i requires 0 <= i < n => Floor(minor, weights[i], total));
    ghost var floors := Floors(minor, weights, total);
    assert shares[..] == floors;
    var placed := Total(shares[..]);
    var remainder := minor - placed;
    var order := SortParts(PartsOf(minor, weights, total));
    LeftoverInOrder(minor, weights, total, order);
    OrderFacts(minor, weights, total, order);
    NoneTaken(order);
    var k := 0;
    while k < |order| && remainder != 0
      invariant 0 <= k <= |order| && 0 <= remainder == minor - Sum(floors) - k
      invariant Sum(shares[..]) + remainder == minor
      invariant forall i :: 0 <= i < n ==> shares[i] == floors[i] + if Taken(order, k, i) then 1 else 0
    {
      var i := order[k].i;
      TakenStep(order, k);
      SumUpdate(shares[..], i, shares[i] + 1);
      ghost var before := shares[..];
      shares[i] := shares[i] + 1;
      assert shares[..] == before[i := before[i] + 1];
      remainder := remainder - 1;
      k := k + 1;
    }
    result := shares[..];
    ShareIsFair(minor, weights, total, result, order, k);
  }

  lemma NoneTaken(order: seq<Part>)
    ensures forall i: nat :: !Taken(order, 0, i)
  {
  }

  lemma TakenStep(order: seq<Part>, k: nat)
    requires k < |order| && forall p, q :: 0 <= p < q < |order| ==> order[p].i != order[q].i
    ensures !Taken(order, k, order[k].i)
    ensures forall i: nat :: Taken(order, k + 1, i) <==> Taken(order, k, i) || i == order[k].i
  {
    forall i: nat ensures Taken(order, k + 1, i) <==> Taken(order, k, i) || i == order[k].i {
      if Taken(order, k, i) {
        var q :| 0 <= q < k && q < |order| && order[q].i == i;
        assert order[q].i == i && q < k + 1;
      }
    }
  }

  /** Floors plus one unit for each of the first k of the order is a fair split. */
  lemma ShareIsFair(minor: nat, weights: seq<nat>, total: nat, shares: seq<int>, order: seq<Part>, k: nat)
    requires total > 0 && total == Sum(weights) && |shares| == |weights|
    requires order == SortParts(PartsOf(minor, weights, total))
    requires k == minor - Sum(Floors(minor, weights, total)) && Sum(shares) == minor
    requires forall i :: 0 <= i < |shares| ==>
      shares[i] == Floors(minor, weights, total)[i] + if Taken(order, k, i) then 1 else 0
    ensures Fair(minor, weights, shares)
  {
    hide Frac, Floor, SortParts, PartsOf, Taken, InOrder, Precedes;
    OrderFacts(minor, weights, total, order);
    LeftoverInOrder(minor, weights, total, order);
    forall i: nat | i < |weights| && weights[i] == 0 ensures shares[i] == 0 {
      ZeroIsNotTaken(minor, weights, total, order, k, i);
    }
    forall i: nat, j: nat | i < |weights| && j < |weights| && Taken(order, k, i) && !Taken(order, k, j)
      ensures Precedes(Part(i, Frac(minor, weights[i], total)), Part(j, Frac(minor, weights[j], total)))
    {
      TakenPrecedes(minor, weights, total, order, k, i, j);
    }
    forall i: nat, j: nat | i < |weights| && j < |weights| && weights[i] > weights[j] ensures shares[i] >= shares[j] {
      HeavierShare(minor, weights, total, i, j);
      HeavierIsTakenFirst(minor, weights, total, order, k, i, j);
    }
  }

  /** With equal whole parts, a lighter weight never gets the extra unit before a heavier one. */
  lemma HeavierIsTakenFirst(minor: nat, weights: seq<nat>, total: nat, order: seq<Part>, k: nat, i: nat, j: nat)
    requires total > 0 && i < |weights| && j < |weights| && k <= |order| && InOrder(order) && weights[i] > weights[j]
    requires forall q :: 0 <= q < |order| ==>
      order[q].i < |weights| && order[q].frac == Frac(minor, weights[order[q].i], total)
    requires forall q :: 0 <= q < k ==> order[q].frac > 0
    requires Taken(order, |order|, i)
    ensures Floor(minor, weights[i], total) == Floor(minor, weights[j], total) && Taken(order, k, j) ==>
      Taken(order, k, i)
  {
    hide Floor, InOrder;
    HeavierShare(minor, weights, total, i, j);
    if Taken(order, k, j) && !Taken(order, k, i) {
      TakenPrecedes(minor, weights, total, order, k, j, i);
      var q :| 0 <= q < k && q < |order| && order[q].i == j;
      FractionNeedsAmount(minor, weights[j], total);
    }
  }

  lemma FractionNeedsAmount(minor: nat, w: nat, total: nat)
    requires total > 0 && Frac(minor, w, total) > 0
    ensures minor > 0
  {
    assert minor == 0 ==> minor * w == 0;
  }

  lemma ZeroIsNotTaken(minor: nat, weights: seq<nat>, total: nat, order: seq<Part>, k: nat, i: nat)
    requires total > 0 && i < |weights| && weights[i] == 0 && k <= |order|
    requires forall q :: 0 <= q < |order| ==>
      order[q].i < |weights| && order[q].frac == Frac(minor, weights[order[q].i], total)
    requires forall q :: 0 <= q < k ==> order[q].frac > 0
    ensures !Taken(order, k, i) && Floor(minor, weights[i], total) == 0
  {
    assert minor * weights[i] == 0;
  }

  lemma TakenPrecedes(minor: nat, weights: seq<nat>, total: nat, order: seq<Part>, k: nat, i: nat, j: nat)
    requires total > 0 && i < |weights| && j < |weights| && k <= |order| && InOrder(order)
    requires forall q :: 0 <= q < |order| ==>
      order[q].i < |weights| && order[q].frac == Frac(minor, weights[order[q].i], total)
    requires Taken(order, |order|, j) && Taken(order, k, i) && !Taken(order, k, j)
    ensures Precedes(Part(i, Frac(minor, weights[i], total)), Part(j, Frac(minor, weights[j], total)))
  {
    var p :| 0 <= p < k && p < |order| && order[p].i == i;
    var q :| 0 <= q < |order| && order[q].i == j;
    assert q >= k;
    assert Precedes(order[p], order[q]);
  }

  /** A heavier weight has the larger whole part, or the same one and at least as large a fraction. */
  lemma HeavierShare(minor: nat, weights: seq<nat>, total: nat, i: nat, j: nat)
    requires total > 0 && i < |weights| && j < |weights| && weights[i] > weights[j]
    ensures var fi, fj := Floor(minor, weights[i], total), Floor(minor, weights[j], total);
      fi > fj || (fi == fj && (minor == 0 || Frac(minor, weights[i], total) > Frac(minor, weights[j], total)))
  {
    hide Floor, Frac;
    var fi, fj := Floor(minor, weights[i], total), Floor(minor, weights[j], total);
    DivideQuota(minor, weights[i], total);
    DivideQuota(minor, weights[j], total);
    MoreWeight(minor, weights[i], weights[j]);
    if fi < fj {
      AtLeastAsMany(fi + 1, fj, total);
      AddMultiples(fi, 1, total);
    }
  }

  lemma MoreWeight(minor: nat, w: nat, v: nat)
    requires w > v
    ensures minor * w >= minor * v && (minor > 0 ==> minor * w > minor * v)
  {
    assert minor * w == minor * v + minor * (w - v);
  }

  function Negated(xs: seq<int>): (r: seq<int>)
    ensures |r| == |xs|
  {
    seq(|xs|, i requires 0 <= i < |xs| => -xs[i])
  }

  /**
   Refuses no weights, a negative weight and a zero total; otherwise the split is fair, and a negative
   amount is the negated split of its absolute value.
   */
  method Split(minor: int, weights: seq<int>) returns (r: Result)
    ensures r == Refused(NoWeights) <==> weights == []
    ensures r == Refused(NegativeWeight) <==> exists i :: 0 <= i < |weights| && weights[i] < 0
    ensures r == Refused(ZeroTotal) <==>
      weights != [] && (forall i :: 0 <= i < |weights| ==> weights[i] >= 0) && Sum(weights) == 0
    ensures r.Shares? && minor >= 0 ==> Fair(minor, weights, r.shares)
    ensures r.Shares? && minor < 0 ==> Fair(-minor, weights, Negated(r.shares))
  {
    if weights == [] {
      return Refused(NoWeights);
    }
    var total := 0;
    for k := 0 to |weights|
      invariant forall i :: 0 <= i < k ==> weights[i] >= 0
      invariant 0 <= total == Sum(weights[..k])
    {
      if weights[k] < 0 {
        return Refused(NegativeWeight);
      }
      PrefixStep(weights, k);
      total := total + weights[k];
    }
    assert weights[..|weights|] == weights;
    if total == 0 {
      return Refused(ZeroTotal);
    }
    if minor < 0 {
      var shares := AllocateWhole(-minor, weights, total);
      assert Negated(Negated(shares)) == shares;
      return Shares(Negated(shares));
    }
    var whole := AllocateWhole(minor, weights, total);
    return Shares(whole);
  }
}
