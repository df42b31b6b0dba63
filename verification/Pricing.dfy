/**
 The flat-fee split of a sale (src/pricing.ts): the fee off the top, rounded up to a whole credit, the
 net by basis points, each share rounded down, and the platform keeps fee and rounding leftover.
 */
module Pricing {
  import opened Accounts
  import opened Ledger
  import opened Money
  import opened Rounding
  import opened Text

  const BPS_TOTAL: nat := 10_000
  const SCALE: nat := 100

  datatype Recipient = Recipient(sellerId: string, shareBps: int)

  /** What `toAmount` and config guarantee of the inputs. */
  predicate PricedRight(price: int, feeBps: int) {
    0 < price <= I64_MAX && 0 <= feeBps <= BPS_TOTAL
  }

  // ---- The fee -------------------------------------------------------------------------

  lemma Bounded(minor: nat, bps: nat, cap: nat)
    requires bps <= cap
    ensures 0 <= minor * bps <= minor * cap
  {
    assert minor * (cap - bps) >= 0;
    assert minor * cap == minor * bps + minor * (cap - bps);
    assert minor * bps >= 0;
  }

  /** A multiplication by a rate of at most one never leaves i64, so `mulDiv` never throws here. */
  lemma RateFits(minor: nat, bps: nat, den: nat, mode: Mode)
    requires minor <= I64_MAX && bps <= BPS_TOTAL <= den && (mode.Floor? || mode.Ceil?)
    ensures DivRound(minor * bps, den, mode).Some?
    ensures var q := DivRound(minor * bps, den, mode).value;
      Rounds(minor * bps, den, mode, q) && 0 <= q <= minor
  {
    Bounded(minor, bps, den);
    CorrectedRounds(minor * bps, den, mode);
    var q := Corrected(TruncDiv(minor * bps, den), minor * bps - TruncDiv(minor * bps, den) * den, den, false, mode);
    assert Rounds(minor * bps, den, mode, q);
    if q > minor {
      Apart(minor, q, den);
    }
    if q < 0 {
      Apart(q, 0, den);
    }
  }

  function FeeForPrice(minor: int, bps: int): Option<int> {
    match DivRound(minor * bps, BPS_TOTAL * SCALE, Ceil)
    case None => None
    case Some(units) => Some(if units * SCALE > minor then minor else units * SCALE)
  }

  /** The smaller of the price and the least whole-credit amount that covers the rate. */
  ghost predicate IsFee(fee: int, price: int, feeBps: int) {
    && 0 <= fee <= price
    && (fee == price || (fee % 100 == 0 && fee * 10_000 >= price * feeBps))
    && forall w: nat :: w * 100 * 10_000 >= price * feeBps ==> fee <= w * 100
  }

  /**
   The fee is the smaller of the price and the least whole-credit amount that covers the rate: no
   covering amount is below it, and short of the price it is such an amount itself.
   */
  lemma FeeIsWholeAndCapped(minor: int, bps: int)
    requires PricedRight(minor, bps)
    ensures FeeForPrice(minor, bps).Some?
    ensures IsFee(FeeForPrice(minor, bps).value, minor, bps)
  {
    RateFits(minor, bps, BPS_TOTAL * SCALE, Ceil);
    var fee := FeeForPrice(minor, bps).value;
    var units := DivRound(minor * bps, BPS_TOTAL * SCALE, Ceil).value;
    forall w: nat | w * 100 * 10_000 >= minor * bps ensures fee <= w * 100 {
      assert w >= units;
    }
  }

  // ---- The shares ----------------------------------------------------------------------

  function ApplyBps(minor: int, bps: int): Option<int> {
    DivRound(minor * bps, BPS_TOTAL, Floor)
  }

  predicate SharesValid(recipients: seq<Recipient>) {
    forall i :: 0 <= i < |recipients| ==> 0 <= recipients[i].shareBps <= BPS_TOTAL
  }

  function ShareTotal(recipients: seq<Recipient>): int {
    if recipients == [] then 0 else ShareTotal(recipients[..|recipients| - 1]) + recipients[|recipients| - 1].shareBps
  }

  /** A net that is a priced amount and a valid share always divide. */
  function ShareOf(net: nat, r: Recipient): nat
    requires net <= I64_MAX && 0 <= r.shareBps <= BPS_TOTAL
  {
    RateFits(net, r.shareBps, BPS_TOTAL, Floor);
    ApplyBps(net, r.shareBps).value
  }

  function Distributed(net: nat, recipients: seq<Recipient>): nat
    requires net <= I64_MAX && SharesValid(recipients)
  {
    if recipients == [] then 0
    else Distributed(net, recipients[..|recipients| - 1]) + ShareOf(net, recipients[|recipients| - 1])
  }

  /** A share is the exact fraction rounded down. */
  lemma ShareBound(net: nat, r: Recipient)
    requires net <= I64_MAX && 0 <= r.shareBps <= BPS_TOTAL
    ensures ShareOf(net, r) * BPS_TOTAL <= net * r.shareBps < ShareOf(net, r) * BPS_TOTAL + BPS_TOTAL
    ensures ApplyBps(net, r.shareBps) == Some(ShareOf(net, r)) && ShareOf(net, r) <= net
  {
    RateFits(net, r.shareBps, BPS_TOTAL, Floor);
  }

  lemma Spread(net: int, a: int, b: int)
    ensures net * (a + b) == net * a + net * b
  {
  }

  /** Rounding down never hands out more than the shares' fraction of the net. */
  lemma {:induction false} DistributedBound(net: nat, recipients: seq<Recipient>)
    requires net <= I64_MAX && SharesValid(recipients)
    ensures Distributed(net, recipients) * BPS_TOTAL <= net * ShareTotal(recipients)
  {
    hide ShareOf;
    if recipients != [] {
      var n := |recipients| - 1;
      DistributedBound(net, recipients[..n]);
      ShareBound(net, recipients[n]);
      Spread(net, ShareTotal(recipients[..n]), recipients[n].shareBps);
    }
  }

  predicate SharesWhole(recipients: seq<Recipient>) {
    recipients == [] || ShareTotal(recipients) == BPS_TOTAL
  }

  lemma NeverOverdistributed(net: nat, recipients: seq<Recipient>)
    requires net <= I64_MAX && SharesValid(recipients) && SharesWhole(recipients)
    ensures Distributed(net, recipients) <= net
  {
    DistributedBound(net, recipients);
    if recipients != [] {
      assert net * BPS_TOTAL >= Distributed(net, recipients) * BPS_TOTAL;
    }
  }

  // ---- The legs ------------------------------------------------------------------------

  function FeeOf(price: int, feeBps: int): nat
    requires PricedRight(price, feeBps)
  {
    FeeIsWholeAndCapped(price, feeBps);
    FeeForPrice(price, feeBps).value
  }

  function NetOf(price: int, feeBps: int): (net: nat)
    requires PricedRight(price, feeBps)
    ensures net <= price
  {
    FeeIsWholeAndCapped(price, feeBps);
    price - FeeOf(price, feeBps)
  }

  function ShareLine(net: nat, r: Recipient): Leg
    requires net <= I64_MAX && 0 <= r.shareBps <= BPS_TOTAL
  {
    Leg(Wallet(r.sellerId, Earned), CREDIT, 0 - ShareOf(net, r))
  }

  /** Every seller's share credited to earnings, in order. */
  function SellerLegs(net: nat, recipients: seq<Recipient>): seq<Leg>
    requires net <= I64_MAX && SharesValid(recipients)
  {
    if recipients == [] then []
    else SellerLegs(net, recipients[..|recipients| - 1]) + [ShareLine(net, recipients[|recipients| - 1])]
  }

  method RevenueForSplit(price: int, recipients: seq<Recipient>, feeBps: int) returns (revenue: int)
    requires PricedRight(price, feeBps) && SharesValid(recipients) && SharesWhole(recipients)
    ensures revenue == RevenueOf(price, recipients, feeBps)
    ensures 0 <= revenue <= price
  {
    FeeIsWholeAndCapped(price, feeBps);
    var fee := FeeForPrice(price, feeBps).value;
    var net := price - fee;
    var distributed := 0;
    for k := 0 to |recipients|
      invariant distributed == Distributed(net, recipients[..k])
    {
      PrefixStep(recipients, k);
      ShareBound(net, recipients[k]);
      distributed := distributed + ApplyBps(net, recipients[k].shareBps).value;
    }
    assert recipients[..|recipients|] == recipients;
    NeverOverdistributed(net, recipients);
    revenue := fee + (net - distributed);
  }

  /** Credits only, adding up to `sum`. */
  predicate SumsTo(legs: seq<Leg>, sum: int) {
    CurrencySum(legs, CREDIT) == sum && AllCredits(legs)
  }

  lemma {:induction false} SellerLegsFacts(net: nat, recipients: seq<Recipient>)
    requires net <= I64_MAX && SharesValid(recipients)
    ensures SumsTo(SellerLegs(net, recipients), 0 - Distributed(net, recipients))
  {
    hide ShareOf, ApplyBps;
    if recipients != [] {
      var n := |recipients| - 1;
      SellerLegsFacts(net, recipients[..n]);
      ShareBound(net, recipients[n]);
      SumSnoc(SellerLegs(net, recipients[..n]), ShareLine(net, recipients[n]));
    }
  }

  function RevenueOf(price: int, recipients: seq<Recipient>, feeBps: int): int
    requires PricedRight(price, feeBps) && SharesValid(recipients)
  {
    FeeOf(price, feeBps) + (NetOf(price, feeBps) - Distributed(NetOf(price, feeBps), recipients))
  }

  function SaleLegs(price: int, recipients: seq<Recipient>, feeBps: int): seq<Leg>
    requires PricedRight(price, feeBps) && SharesValid(recipients)
  {
    SellerLegs(NetOf(price, feeBps), recipients) + [Leg(REVENUE, CREDIT, -RevenueOf(price, recipients, feeBps))]
  }

  /** The credit side of a sale loses no unit: fee, shares and leftover sum to the price. */
  lemma SaleLegsSumToPrice(price: int, recipients: seq<Recipient>, feeBps: int)
    requires PricedRight(price, feeBps) && SharesValid(recipients) && SharesWhole(recipients)
    ensures CurrencySum(SaleLegs(price, recipients, feeBps), CREDIT) == -price
    ensures AllCredits(SaleLegs(price, recipients, feeBps))
    ensures 0 <= RevenueOf(price, recipients, feeBps) <= price
  {
    hide FeeOf, Distributed, ShareTotal, SellerLegs;
    var net := NetOf(price, feeBps);
    SellerLegsFacts(net, recipients);
    NeverOverdistributed(net, recipients);
    SumSnoc(SellerLegs(net, recipients), Leg(REVENUE, CREDIT, -RevenueOf(price, recipients, feeBps)));
  }

  /** `share` is the fraction `shareBps` of the net, rounded down. */
  predicate IsShare(share: int, net: int, shareBps: int) {
    share * 10_000 <= net * shareBps < share * 10_000 + 10_000
  }

  predicate IsSellerLine(leg: Leg, net: int, r: Recipient) {
    leg.account == Wallet(r.sellerId, Earned) && leg.currency == CREDIT && IsShare(-leg.minor, net, r.shareBps)
  }

  /** One line per seller in order, each the rounded-down share of the net, and revenue takes all that is left. */
  ghost predicate SplitsSale(legs: seq<Leg>, price: int, recipients: seq<Recipient>, feeBps: int) {
    && |legs| == |recipients| + 1 && CurrencySum(legs, CREDIT) == -price
    && legs[|recipients|].account == REVENUE && legs[|recipients|].currency == CREDIT
    && exists fee ::
        IsFee(fee, price, feeBps)
        && forall i :: 0 <= i < |recipients| ==> IsSellerLine(legs[i], price - fee, recipients[i])
  }

  lemma {:induction false} SellerLegsAre(net: nat, recipients: seq<Recipient>)
    requires net <= I64_MAX && SharesValid(recipients)
    ensures |SellerLegs(net, recipients)| == |recipients|
    ensures forall i :: 0 <= i < |recipients| ==> IsSellerLine(SellerLegs(net, recipients)[i], net, recipients[i])
  {
    hide ShareOf;
    if recipients != [] {
      var n := |recipients| - 1;
      SellerLegsAre(net, recipients[..n]);
      ShareBound(net, recipients[n]);
    }
  }

  /** Fee, shares and leftover by what they are worth: nothing but the price and the rates decides a line. */
  lemma SaleIsSplit(price: int, recipients: seq<Recipient>, feeBps: int)
    requires PricedRight(price, feeBps) && SharesValid(recipients) && SharesWhole(recipients)
    ensures SplitsSale(SaleLegs(price, recipients, feeBps), price, recipients, feeBps)
  {
    hide FeeForPrice, IsFee, SellerLegs, IsSellerLine, Distributed;
    FeeIsWholeAndCapped(price, feeBps);
    SaleLegsSumToPrice(price, recipients, feeBps);
    SellerLegsAre(NetOf(price, feeBps), recipients);
    assert IsFee(FeeOf(price, feeBps), price, feeBps);
  }

  /** The credit side of a sale; None when the shares do not sum to the whole. */
  method SplitLegs(price: int, recipients: seq<Recipient>, feeBps: int) returns (legs: Option<seq<Leg>>)
    requires PricedRight(price, feeBps) && SharesValid(recipients)
    ensures legs == if SharesWhole(recipients) then Some(SaleLegs(price, recipients, feeBps)) else None
    ensures legs.Some? ==> SplitsSale(legs.value, price, recipients, feeBps)
  {
    hide ShareOf, ApplyBps, SplitsSale;
    if !SharesWhole(recipients) {
      return None;
    }
    FeeIsWholeAndCapped(price, feeBps);
    var net := price - FeeForPrice(price, feeBps).value;
    var lines: seq<Leg> := [];
    for k := 0 to |recipients|
      invariant lines == SellerLegs(net, recipients[..k])
    {
      PrefixStep(recipients, k);
      ShareBound(net, recipients[k]);
      lines := lines
        + [Leg(Wallet(recipients[k].sellerId, Earned), CREDIT, -ApplyBps(net, recipients[k].shareBps).value)];
    }
    assert recipients[..|recipients|] == recipients;
    var revenue := RevenueForSplit(price, recipients, feeBps);
    SaleIsSplit(price, recipients, feeBps);
    return Some(lines + [Leg(REVENUE, CREDIT, -revenue)]);
  }

  /** Credits only, each an amount, to a seller's earnings or to revenue. */
  predicate AllCredits(legs: seq<Leg>) {
    forall i :: 0 <= i < |legs| ==> CreditOrZero(legs[i])
  }

  predicate CreditOrZero(leg: Leg) {
    && leg.currency == CREDIT && -I64_MAX <= leg.minor <= 0
    && (leg.account == REVENUE || (leg.account.Wallet? && leg.account.kind.Earned?))
  }

  lemma SumSnoc(legs: seq<Leg>, leg: Leg)
    ensures CurrencySum(legs + [leg], CREDIT) == CurrencySum(legs, CREDIT)
      + if leg.currency == CREDIT then leg.minor else 0
  {
    assert (legs + [leg])[..|legs|] == legs;
  }

  // ---- A lane movement -----------------------------------------------------------------

  function SpendableOf(userId: string): AccountRef {
    Wallet(userId, WalletKind.Spendable)
  }

  /**
   A purchase's movement: the buyer's debit of the whole price first, then the nonzero lines of the
   sale, summing to zero - everything a session requires of a movement.
   */
  method LegsOf(buyer: string, price: int, recipients: seq<Recipient>, feeBps: int) returns (legs: Option<seq<Leg>>)
    requires PricedRight(price, feeBps) && SharesValid(recipients)
    ensures legs.None? <==> !SharesWhole(recipients)
    ensures legs.Some? ==>
      legs.value == [Leg(SpendableOf(buyer), CREDIT, price)] + DropZero(SaleLegs(price, recipients, feeBps))
    ensures legs.Some? ==> PurchaseLegs(legs.value, buyer, price)
    ensures legs.Some? ==> IsPurchaseOf(legs.value, buyer, price, recipients, feeBps)
  {
    hide SaleLegs, SplitsSale, PurchaseLegs, AllCredits, CurrencySum;
    var lines := SplitLegs(price, recipients, feeBps);
    if lines == None {
      return None;
    }
    var credits := lines.value;
    var debit := Leg(SpendableOf(buyer), CREDIT, price);
    var out := [debit];
    assert DropZero(credits[..0]) == [];
    for k := 0 to |credits|
      invariant out == [debit] + DropZero(credits[..k])
    {
      PrefixStep(credits, k);
      if credits[k].minor != 0 {
        assert [debit] + DropZero(credits[..k]) + [credits[k]] == [debit] + (DropZero(credits[..k]) + [credits[k]]);
        out := out + [credits[k]];
      } else {
        assert DropZero(credits[..k]) + [] == DropZero(credits[..k]);
      }
    }
    assert credits[..|credits|] == credits;
    SaleLegsSumToPrice(price, recipients, feeBps);
    SaleIsPurchase(buyer, price, credits);
    return Some(out);
  }

  lemma {:induction false} DropZeroSum(legs: seq<Leg>, c: Currency)
    ensures CurrencySum(DropZero(legs), c) == CurrencySum(legs, c)
  {
    if legs != [] {
      var init, last := legs[..|legs| - 1], legs[|legs| - 1];
      DropZeroSum(init, c);
      if last.minor != 0 {
        assert (DropZero(init) + [last])[..|DropZero(init)|] == DropZero(init);
      } else {
        assert DropZero(init) + [] == DropZero(init);
      }
    }
  }

  lemma {:induction false} SumFront(leg: Leg, legs: seq<Leg>)
    requires leg.currency == CREDIT
    ensures CurrencySum([leg] + legs, CREDIT) == leg.minor + CurrencySum(legs, CREDIT)
  {
    if legs != [] {
      SumFront(leg, legs[..|legs| - 1]);
      assert ([leg] + legs)[..|legs|] == [leg] + legs[..|legs| - 1];
    } else {
      assert ([leg] + legs)[..0] == [];
    }
  }

  lemma SaleIsPurchase(buyer: string, price: int, credits: seq<Leg>)
    requires CurrencySum(credits, CREDIT) == -price && AllCredits(credits)
    ensures PurchaseLegs([Leg(SpendableOf(buyer), CREDIT, price)] + DropZero(credits), buyer, price)
  {
    hide CurrencySum;
    var debit, lines := Leg(SpendableOf(buyer), CREDIT, price), DropZero(credits);
    DropZeroSum(credits, CREDIT);
    SumFront(debit, lines);
    forall i | 0 <= i < |lines| ensures CreditLine(lines[i]) {
      assert lines[i] in credits && lines[i].minor != 0;
      var j :| 0 <= j < |credits| && credits[j] == lines[i];
      assert CreditOrZero(credits[j]);
    }
  }

  predicate CreditLine(leg: Leg) {
    CreditOrZero(leg) && leg.minor < 0
  }

  predicate PurchaseLegs(legs: seq<Leg>, buyer: string, price: int) {
    && |legs| > 0 && legs[0] == Leg(SpendableOf(buyer), CREDIT, price)
    && CurrencySum(legs, CREDIT) == 0
    && forall i :: 0 < i < |legs| ==> CreditLine(legs[i])
  }
  /** The buyer pays the price, and a sale of it is credited, lines of zero left out. */
  ghost predicate IsPurchaseOf(legs: seq<Leg>, buyer: string, price: int, recipients: seq<Recipient>, feeBps: int) {
    exists sale :: SplitsSale(sale, price, recipients, feeBps)
      && legs == [Leg(SpendableOf(buyer), CREDIT, price)] + DropZero(sale)
  }
}
