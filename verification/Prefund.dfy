/**
 The prefund escrow's closing step (src/netting.ts `refundEscrowRemainder`): the lane, the orphan sweep
 and the retention sweep all post the same entry under the same id, so one of them wins and the rest
 do nothing.
 */
module Prefund {
  import opened Accounts
  import opened Ledger
  import opened Money
  import opened SessionHost
  import opened Settlement
  import opened Text
  import LS = LedgerStore

  function RefundId(sessionId: string, userId: string): TxnId {
    OtherTxn("esc_refund_" + sessionId + "_" + userId)
  }

  function RefundLegs(escrow: AccountRef, spendable: AccountRef, minor: int): seq<Leg> {
    [Leg(escrow, CREDIT, minor), Leg(spendable, CREDIT, -minor)]
  }

  function RefundShare(escrow: AccountRef, spendable: AccountRef, minor: int, a: AccountRef): int {
    if a == escrow then -minor else if a == spendable then minor else 0
  }

  lemma RefundDelta(escrow: AccountRef, spendable: AccountRef, minor: int)
    requires escrow.Wallet? && spendable.Wallet? && escrow != spendable
    ensures forall a :: DeltaOf(RefundLegs(escrow, spendable, minor), a) == RefundShare(escrow, spendable, minor, a)
  {
    var legs := RefundLegs(escrow, spendable, minor);
    assert legs[..1] == [legs[0]] && legs[..1][..0] == [];
    forall a ensures DeltaOf(legs[..1], a) == if a == escrow then -minor else 0 {
    }
  }

  datatype Refund = Refunded(minor: int) | NothingToDo | RefundFailed(fault: Fault)

  /** What one call leaves of the ledger. */
  ghost predicate RefundedTo(s: State, t: State, escrow: AccountRef, spendable: AccountRef, minor: int) {
    && BalanceOf(t, escrow) == 0 && minor == BalanceOf(s, escrow) > 0
    && BalanceOf(t, spendable) == BalanceOf(s, spendable) + minor
    && forall a :: a != escrow && a != spendable ==> BalanceOf(t, a) == BalanceOf(s, a)
  }

  /** Only a column too narrow for an amount keeps the refund out. */
  lemma RefundGoesIn(s: State, escrow: AccountRef, spendable: AccountRef, minor: int, p: Posting)
    requires escrow.Wallet? && spendable.Wallet? && escrow != spendable && minor == BalanceOf(s, escrow) > 0
    requires p.legs == RefundLegs(escrow, spendable, minor)
    ensures PostEntry(s, p).Ok? <==> minor <= I64_MAX && InI64(BalanceOf(s, spendable) + minor)
    ensures PostEntry(s, p).Err? ==> PostEntry(s, p).fault == AmountOverflow
  {
    hide PostEntry, DeltaOf, CurrencySum, DropZero;
    var legs := p.legs;
    assert DropZero(legs) == legs;
    assert legs[1] == Leg(spendable, CREDIT, -minor);
    RefundFacts(escrow, spendable, minor);
    assert LegFits(s, legs, 0) <==> -minor >= I64_MIN;
    assert LegFits(s, legs, 1) <==> minor <= I64_MAX && InI64(BalanceOf(s, spendable) + minor);
    forall a | a in AccountsIn(legs) ensures !Overdraws(s, legs, a) {
      assert a == escrow || a == spendable;
    }
    PostEntryAcceptsWhen(s, p);
    if PostEntry(s, p).Err? {
      RefusalSays(s, p);
    }
  }

  lemma RefundFacts(escrow: AccountRef, spendable: AccountRef, minor: int)
    requires escrow.Wallet? && spendable.Wallet? && escrow != spendable
    ensures var legs := RefundLegs(escrow, spendable, minor);
      && DeltaOf(legs[..1], escrow) == -minor && DeltaOf(legs[..2], spendable) == minor
      && DeltaOf(legs, escrow) == -minor && DeltaOf(legs, spendable) == minor
      && CurrencySum(legs, CREDIT) == 0 && CurrencySum(legs, USD) == 0
  {
    var legs := RefundLegs(escrow, spendable, minor);
    RefundDelta(escrow, spendable, minor);
    TwoLegs(legs, legs[0], legs[1], escrow);
    assert legs[..2] == legs;
  }

  /** Empties the escrow into the owner's spendable balance, once per session and user. */
  method RefundEscrowRemainder(ledger: LS.LedgerStore, sessionId: string, userId: string) returns (r: Refund)
    modifies ledger
    ensures var escrow, spendable := SessionEscrow(userId, sessionId), Wallet(userId, Spendable);
      match r
      case NothingToDo =>
        ledger.View() == old(ledger.View()) &&
        (BalanceOf(old(ledger.View()), escrow) <= 0 || Posted(old(ledger.View()), RefundId(sessionId, userId)))
      case RefundFailed(fault) =>
        var remainder := BalanceOf(old(ledger.View()), escrow);
        ledger.View() == old(ledger.View()) && fault == AmountOverflow && remainder > 0
          && !Posted(old(ledger.View()), RefundId(sessionId, userId))
          && (remainder > I64_MAX || BalanceOf(old(ledger.View()), spendable) + remainder > I64_MAX
              || BalanceOf(old(ledger.View()), spendable) + remainder < I64_MIN)
      case Refunded(minor) =>
        RefundedTo(old(ledger.View()), ledger.View(), escrow, spendable, minor)
          && Posted(ledger.View(), RefundId(sessionId, userId))
          && !Posted(old(ledger.View()), RefundId(sessionId, userId))
  {
    hide PostEntry, Posted;
    var escrow, spendable := SessionEscrow(userId, sessionId), Wallet(userId, Spendable);
    var remainder := ledger.Balance(escrow);
    if remainder <= 0 {
      return NothingToDo;
    }
    var id := RefundId(sessionId, userId);
    PostedIffStored(ledger.View(), id);
    var found := ledger.HasPosting(id);
    if found {
      return NothingToDo;
    }
    ghost var before := ledger.View();
    var posting := Posting(id, RefundLegs(escrow, spendable, remainder), "prefund_refund");
    RefundGoesIn(before, escrow, spendable, remainder, posting);
    var fault := ledger.PostEntry(posting);
    if fault != None {
      return RefundFailed(fault.value);
    }
    PostEntryEffect(before, posting);
    RefundDelta(escrow, spendable, remainder);
    PostedIffStored(ledger.View(), id);
    assert ledger.View().log[|before.log|].posting.txnId == id;
    return Refunded(remainder);
  }

  /**
   Exactly when two refunds share an id, and with it their one posting: they are the same, or the longer
   session id goes on with an underscore and text that the other user id begins with.
   */
  lemma RefundIdsMeetWhen(s: string, u: string, t: string, v: string)
    requires |s| <= |t|
    ensures RefundId(s, u) == RefundId(t, v) <==>
      (s == t && u == v) || exists w :: t == s + "_" + w && u == w + "_" + v
  {
    RefundText(s, u);
    RefundText(t, v);
    if s + "_" + u == t + "_" + v && |s| < |t| {
      var w := CutBetween(s, u, t, v);
    }
    if w :| t == s + "_" + w && u == w + "_" + v {
      assert s + "_" + (w + "_" + v) == s + "_" + w + "_" + v;
    }
    if s + "_" + u == t + "_" + v && |s| == |t| {
      assert (s + "_" + u)[..|s|] == s && (t + "_" + v)[..|t|] == t;
      assert (s + "_" + u)[|s| + 1..] == u && (t + "_" + v)[|t| + 1..] == v;
    }
  }

  lemma CutBetween(s: string, u: string, t: string, v: string) returns (w: string)
    requires s + "_" + u == t + "_" + v && |s| < |t|
    ensures t == s + "_" + w && u == w + "_" + v
  {
    var x := s + "_" + u;
    assert x[..|t|] == t && x[|t|..] == "_" + v && x[|s|..] == "_" + u;
    w := t[|s| + 1..];
    assert t[..|s|] == x[..|s|] == s && t[|s|] == x[|s|] == '_';
    assert u == x[|s| + 1..] == x[|s| + 1..|t|] + x[|t|..];
  }

  lemma RefundText(s: string, u: string)
    ensures RefundId(s, u).text[11..] == s + "_" + u && |RefundId(s, u).text| > 11
    ensures RefundId(s, u).text == RefundId(s, u).text[..11] + (s + "_" + u)
      && RefundId(s, u).text[..11] == "esc_refund_"
  {
    assert RefundId(s, u).text == "esc_refund_" + (s + "_" + u);
  }
}
