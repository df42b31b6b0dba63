/**
 Integer division with a named rounding mode (src/money.vendored.ts `divRound`, `mulDiv`). The host's
 `/` truncates toward zero; every mode is that quotient, corrected by at most one.
 */
module Rounding {
  import opened Money
  import opened Text

  datatype Mode = Floor | Ceil | Trunc | HalfUp | HalfEven

  function Abs(x: int): nat {
    if x < 0 then -x else x
  }

  /** The host's quotient, truncated toward zero. */
  function TruncDiv(num: int, den: int): int
    requires den != 0
  {
    var n, d := if den < 0 then -num else num, Abs(den);
    if n >= 0 then n / d else -((-n) / d)
  }

  function CheckI64(q: int): Option<int> {
    if InI64(q) then Some(q) else None
  }

  function Corrected(q: int, r: int, den: int, negative: bool, mode: Mode): int {
    if r == 0 then q
    else
      match mode
      case Trunc => q
      case Floor => if negative then q - 1 else q
      case Ceil => if negative then q else q + 1
      case HalfUp => if 2 * Abs(r) < Abs(den) then q else if negative then q - 1 else q + 1
      case HalfEven =>
        if 2 * Abs(r) < Abs(den) || (2 * Abs(r) == Abs(den) && q % 2 == 0) then q
        else if negative then q - 1 else q + 1
  }

  /** None is a throw: a zero divisor, or a result outside i64. */
  function DivRound(num: int, den: int, mode: Mode): Option<int> {
    if den == 0 then None
    else
      var q := TruncDiv(num, den);
      CheckI64(Corrected(q, num - q * den, den, (num < 0) != (den < 0), mode))
  }

  /** What each mode promises of a quotient, for a positive divisor. */
  predicate Rounds(n: int, d: nat, mode: Mode, q: int) {
    match mode
    case Floor => q * d <= n < q * d + d
    case Ceil => q * d - d < n <= q * d
    case Trunc => if n >= 0 then q * d <= n < q * d + d else q * d - d < n <= q * d
    case HalfUp => 2 * Abs(n - q * d) <= d && (2 * Abs(n - q * d) == d ==> Abs(q * d) > Abs(n))
    case HalfEven => 2 * Abs(n - q * d) <= d && (2 * Abs(n - q * d) == d ==> q % 2 == 0)
  }

  function Numerator(num: int, den: int): int {
    if den < 0 then -num else num
  }

  lemma OneMore(q: int, d: int)
    ensures (q + 1) * d == q * d + d && (q - 1) * d == q * d - d && (-q) * d == -(q * d) && q * (-d) == -(q * d)
  {
  }

  lemma Divided(x: nat, d: nat)
    requires d > 0
    ensures x == (x / d) * d + x % d && x % d < d
  {
    assert x == d * (x / d) + x % d;
  }

  /** The quotient times the divisor, in both signs, in terms of one whole product. */
  lemma TruncProduct(num: int, den: int) returns (p: nat)
    requires den != 0
    ensures var n, d, q := Numerator(num, den), Abs(den), TruncDiv(num, den);
      && p <= Abs(n) < p + d
      && q * d == (if n >= 0 then p as int else -(p as int))
      && q * den == (if den < 0 then -(q * d) else q * d)
  {
    hide TruncDiv;
    var d := Abs(den);
    var whole := TruncIs(num, den);
    ProductSign(whole, d);
    p := whole * d;
    Negate(whole, d);
    Negate(TruncDiv(num, den), d);
  }

  lemma TruncIs(num: int, den: int) returns (whole: nat)
    requires den != 0
    ensures TruncDiv(num, den) == if Numerator(num, den) >= 0 then whole as int else -(whole as int)
    ensures whole * Abs(den) <= Abs(num) < whole * Abs(den) + Abs(den)
  {
    whole := Abs(num) / Abs(den);
    Divided(Abs(num), Abs(den));
  }

  lemma Negate(q: int, d: int)
    ensures (-q) * d == -(q * d) && q * (-d) == -(q * d)
  {
  }

  /** The remainder has the numerator's sign and is smaller than the divisor. */
  lemma TruncFacts(num: int, den: int)
    requires den != 0
    ensures var n, d, q := Numerator(num, den), Abs(den), TruncDiv(num, den);
      && Abs(n - q * d) < d && Abs(num - q * den) == Abs(n - q * d) && (num - q * den == 0 <==> n == q * d)
      && (n >= 0 ==> n >= q * d >= 0) && (n < 0 ==> n <= q * d <= 0)
      && (n != q * d ==> ((num < 0) != (den < 0) <==> n < 0))
  {
    hide TruncDiv;
    var p := TruncProduct(num, den);
  }

  lemma ProductSign(a: nat, b: nat)
    ensures a * b >= 0
  {
  }

  lemma CorrectedRounds(num: int, den: int, mode: Mode)
    requires den != 0
    ensures var q := TruncDiv(num, den);
      Rounds(Numerator(num, den), Abs(den), mode, Corrected(q, num - q * den, den, (num < 0) != (den < 0), mode))
  {
    hide TruncDiv;
    var q := TruncDiv(num, den);
    TruncFacts(num, den);
    OneMore(q, Abs(den));
  }

  /** Every result is the one its mode names, and storable; a throw means no divisor or no room in i64. */
  lemma DivRoundIsExact(num: int, den: int, mode: Mode)
    ensures DivRound(num, den, mode).Some? ==>
      && den != 0 && InI64(DivRound(num, den, mode).value)
      && Rounds(Numerator(num, den), Abs(den), mode, DivRound(num, den, mode).value)
    ensures DivRound(num, den, mode).None? ==>
      den == 0 || forall q :: Rounds(Numerator(num, den), Abs(den), mode, q) ==> !InI64(q)
  {
    hide Rounds, TruncDiv, Corrected;
    if den != 0 {
      CorrectedRounds(num, den, mode);
      var q := TruncDiv(num, den);
      var r := Corrected(q, num - q * den, den, (num < 0) != (den < 0), mode);
      forall p | Rounds(Numerator(num, den), Abs(den), mode, p) ensures p == r {
        RoundingIsUnique(Numerator(num, den), Abs(den), mode, p, r);
      }
    }
  }

  lemma Apart(p: int, q: int, d: nat)
    requires p < q && d > 0
    ensures p * d + d <= q * d
  {
    ProductSign(q - p - 1, d);
    Spread(q, p, d);
  }

  lemma Spread(q: int, p: int, d: int)
    ensures (q - p - 1) * d == q * d - p * d - d
  {
  }

  /** A mode leaves no choice. */
  lemma RoundingIsUnique(n: int, d: nat, mode: Mode, p: int, q: int)
    requires d > 0 && Rounds(n, d, mode, p) && Rounds(n, d, mode, q)
    ensures p == q
  {
    if p < q {
      Apart(p, q, d);
      TieIsNeighbours(n, d, mode, p, q);
    } else if q < p {
      Apart(q, p, d);
      TieIsNeighbours(n, d, mode, q, p);
    }
  }

  /** Two half-way answers would be neighbours, one even and one odd, one on each side. */
  lemma TieIsNeighbours(n: int, d: nat, mode: Mode, p: int, q: int)
    requires d > 0 && p < q && p * d + d <= q * d
    ensures !(Rounds(n, d, mode, p) && Rounds(n, d, mode, q))
  {
    if q > p + 1 {
      Apart(p + 1, q, d);
      OneMore(p, d);
    }
  }
}
