/**
 The text a session hashes per movement (src/netting.ts `chain`): the previous head, the key and the legs,
 joined by separators that keys and user ids may hold themselves. When the text determines its parts, and
 a pair of movements for which it does not.
 */
module SessionText {
  import opened AccountIds
  import opened Accounts
  import opened Ledger
  import opened Money
  import opened Preimage
  import opened Settlement
  import opened SettlementProof
  import opened Text

  function Signed(n: int): string {
    if n < 0 then "-" + Digits(-n) else Digits(n)
  }

  /** `account:currency:minor` */
  function LegText(leg: Leg): string {
    Id(leg.account) + ":" + CurrencyText(leg.currency) + ":" + Signed(leg.minor)
  }

  function LegTexts(legs: seq<Leg>): seq<string> {
    if legs == [] then [] else [LegText(legs[0])] + LegTexts(legs[1..])
  }

  function LegsText(legs: seq<Leg>): string {
    Join(';', LegTexts(legs))
  }

  /** `prevHash|idempotencyKey|legs` */
  function ChainText(prevHash: string, key: string, legs: seq<Leg>): string {
    prevHash + "|" + key + "|" + LegsText(legs)
  }

  /** The account's id text holds none of the separators of the joins around it. */
  predicate PlainId(a: AccountRef) {
    IsKnownAccount(a) && '|' !in Id(a) && ';' !in Id(a)
  }

  predicate PlainLegs(legs: seq<Leg>) {
    forall i :: 0 <= i < |legs| ==> PlainId(legs[i].account)
  }

  // ---- One leg --------------------------------------------------------------------------

  lemma SignedIsPlain(n: int)
    ensures |Signed(n)| > 0 && ':' !in Signed(n) && '|' !in Signed(n) && ';' !in Signed(n)
    ensures n < 0 <==> Signed(n)[0] == '-'
  {
    var d := Digits(if n < 0 then -n else n);
    assert forall i :: 0 <= i < |d| ==> IsDigit(d[i]);
    assert n < 0 ==> Signed(n)[1..] == d;
  }

  lemma SignedDetermines(n: int, m: int)
    requires Signed(n) == Signed(m)
    ensures n == m
  {
    SignedIsPlain(n);
    SignedIsPlain(m);
    var k, l := if n < 0 then -n else n, if m < 0 then -m else m;
    assert Digits(k) == Digits(l) by {
      if n < 0 {
        assert Signed(n)[1..] == Digits(k) && Signed(m)[1..] == Digits(l);
      }
    }
    ValueOfDigits(k);
    ValueOfDigits(l);
  }

  lemma CurrencyIsPlain(c: Currency)
    ensures ':' !in CurrencyText(c) && '|' !in CurrencyText(c) && ';' !in CurrencyText(c)
  {
  }

  lemma CurrencyDetermines(c: Currency, d: Currency)
    requires CurrencyText(c) == CurrencyText(d)
    ensures c == d
  {
    assert CurrencyText(c)[0] == CurrencyText(d)[0];
  }

  /** A leg's text is cut from its end, so colons in the account id do no harm. */
  lemma LegTextDetermines(x: Leg, y: Leg)
    requires IsKnownAccount(x.account) && IsKnownAccount(y.account) && LegText(x) == LegText(y)
    ensures x == y
  {
    hide Id, CurrencyText, Signed;
    SignedIsPlain(x.minor);
    SignedIsPlain(y.minor);
    CurrencyIsPlain(x.currency);
    CurrencyIsPlain(y.currency);
    var a, b := Id(x.account) + ":" + CurrencyText(x.currency), Id(y.account) + ":" + CurrencyText(y.currency);
    SplitAtLast(':', a, b, Signed(x.minor), Signed(y.minor));
    SplitAtLast(':', Id(x.account), Id(y.account), CurrencyText(x.currency), CurrencyText(y.currency));
    IdDeterminesAccount(x.account, y.account);
    CurrencyDetermines(x.currency, y.currency);
    SignedDetermines(x.minor, y.minor);
  }

  lemma LegTextIsPlain(leg: Leg)
    requires PlainId(leg.account)
    ensures |LegText(leg)| > 0 && '|' !in LegText(leg) && ';' !in LegText(leg)
  {
    hide Id, CurrencyText, Signed;
    SignedIsPlain(leg.minor);
    CurrencyIsPlain(leg.currency);
  }

  // ---- The legs -------------------------------------------------------------------------

  lemma {:induction false} LegTextsArePlain(legs: seq<Leg>)
    requires PlainLegs(legs)
    ensures |LegTexts(legs)| == |legs| && Joinable(';', LegTexts(legs))
    ensures forall i :: 0 <= i < |legs| ==> LegTexts(legs)[i] == LegText(legs[i]) && '|' !in LegTexts(legs)[i]
  {
    hide LegText;
    if legs != [] {
      assert legs[0] in legs;
      LegTextIsPlain(legs[0]);
      assert forall i :: 0 <= i < |legs[1..]| ==> legs[1..][i] == legs[i + 1];
      LegTextsArePlain(legs[1..]);
    }
  }

  lemma {:induction false} JoinHasNo(sep: char, c: char, parts: seq<string>)
    requires sep != c && forall i :: 0 <= i < |parts| ==> c !in parts[i]
    ensures c !in Join(sep, parts)
  {
    if |parts| > 1 {
      assert forall i :: 0 <= i < |parts[1..]| ==> parts[1..][i] == parts[i + 1];
      JoinHasNo(sep, c, parts[1..]);
    }
  }

  lemma LegsTextDetermines(legs: seq<Leg>, legs': seq<Leg>)
    requires PlainLegs(legs) && PlainLegs(legs') && LegsText(legs) == LegsText(legs')
    ensures legs == legs'
  {
    hide LegText;
    LegTextsArePlain(legs);
    LegTextsArePlain(legs');
    JoinInjective(';', LegTexts(legs), LegTexts(legs'));
    forall i | 0 <= i < |legs| ensures legs[i] == legs'[i] {
      assert PlainId(legs[i].account) && PlainId(legs'[i].account);
      LegTextDetermines(legs[i], legs'[i]);
    }
  }

  // ---- The whole text -------------------------------------------------------------------

  /**
   Whatever the keys hold: where no account id of either movement has a bar or a semicolon in it, the
   hashed text determines the previous head, the key and the legs. Heads are digests, all of one length.
   */
  lemma ChainTextDetermines(prev: string, key: string, legs: seq<Leg>, prev': string, key': string, legs': seq<Leg>)
    requires |prev| == |prev'| && PlainLegs(legs) && PlainLegs(legs')
    requires ChainText(prev, key, legs) == ChainText(prev', key', legs')
    ensures prev == prev' && key == key' && legs == legs'
  {
    hide LegsText;
    BarFree(legs);
    BarFree(legs');
    var a, b := prev + "|" + key, prev' + "|" + key';
    SplitAtLast('|', a, b, LegsText(legs), LegsText(legs'));
    assert a[..|prev|] == prev && b[..|prev'|] == prev';
    assert a[|prev| + 1..] == key && b[|prev'| + 1..] == key';
    LegsTextDetermines(legs, legs');
  }

  lemma BarFree(legs: seq<Leg>)
    requires PlainLegs(legs)
    ensures '|' !in LegsText(legs)
  {
    LegTextsArePlain(legs);
    JoinHasNo(';', '|', LegTexts(legs));
  }

  // ---- Where it does not ----------------------------------------------------------------

  /** The transfer of one credit between two wallets. */
  function Pay(from: string, to: string): seq<Leg> {
    [Leg(Wallet(from, Spendable), CREDIT, 1), Leg(Wallet(to, Earned), CREDIT, -1)]
  }

  lemma PayIsMovement(from: string, to: string)
    ensures WellFormedMovement(Pay(from, to))
  {
    var legs := Pay(from, to);
    assert legs[..1] == [legs[0]] && legs[..1][..0] == [];
    assert CurrencySum(legs[..1], CREDIT) == 1;
  }

  lemma Regroup(a: string, b: string, c: string)
    ensures a + (b + c) == a + b + c
  {
  }

  /** An id begins with the user's, a leg's text with the id, and the legs' text with that of the first. */
  lemma PayerInFront(from: string)
    ensures LegText(Leg(Wallet(from, Spendable), CREDIT, 1)) == from + LegText(Leg(Wallet("", Spendable), CREDIT, 1))
  {
    var rest := Id(Wallet("", Spendable));
    assert Id(Wallet(from, Spendable)) == from + rest by {
      hide KindName;
      assert "" + ":" + KindName(Spendable) == ":" + KindName(Spendable);
      Regroup(from, ":", KindName(Spendable));
    }
    hide Id, CurrencyText, Signed;
    Regroup(from, rest, ":");
    Regroup(from, rest + ":", CurrencyText(CREDIT));
    Regroup(from, rest + ":" + CurrencyText(CREDIT), ":");
    Regroup(from, rest + ":" + CurrencyText(CREDIT) + ":", Signed(1));
  }

  lemma PayText(from: string, to: string)
    ensures LegsText(Pay(from, to)) == from + LegsText(Pay("", to))
  {
    var first := LegText(Leg(Wallet("", Spendable), CREDIT, 1));
    var last := LegText(Leg(Wallet(to, Earned), CREDIT, -1));
    hide LegText;
    PayerInFront(from);
    TwoTexts(Pay(from, to));
    TwoTexts(Pay("", to));
    Regroup(from, first, [';']);
    Regroup(from, first + [';'], last);
  }

  lemma TwoTexts(legs: seq<Leg>)
    requires |legs| == 2
    ensures LegsText(legs) == LegText(legs[0]) + [';'] + LegText(legs[1])
  {
    hide LegText;
    assert legs[1..] == [legs[1]] && legs[1..][1..] == [];
    assert LegTexts(legs[1..]) == [LegText(legs[1])] + [];
    var parts := LegTexts(legs);
    assert parts == [LegText(legs[0])] + [LegText(legs[1])];
    assert parts[1..] == [LegText(legs[1])] && |parts[1..]| == 1;
    assert Join(';', parts[1..]) == LegText(legs[1]);
    assert Join(';', parts) == parts[0] + [';'] + Join(';', parts[1..]);
  }

  lemma PayersDiffer(from: string, from': string, to: string)
    requires |from| != |from'|
    ensures Pay(from, to) != Pay(from', to)
  {
    assert Pay(from, to)[0].account.owner == from && Pay(from', to)[0].account.owner == from';
  }

  /**
   A bar in a user id breaks it: under the same head, the key `k` with payer `x|y` and the key `k|x` with
   payer `y` are two movements of different accounts and one text, for all k, x and y.
   */
  lemma BarInIdIsAmbiguous(prev: string, k: string, x: string, y: string, to: string)
    ensures WellFormedMovement(Pay(x + "|" + y, to)) && WellFormedMovement(Pay(y, to))
    ensures Pay(x + "|" + y, to) != Pay(y, to)
    ensures ChainText(prev, k, Pay(x + "|" + y, to)) == ChainText(prev, k + "|" + x, Pay(y, to))
  {
    PayIsMovement(x + "|" + y, to);
    PayIsMovement(y, to);
    PayersDiffer(x + "|" + y, y, to);
    hide LegsText, Pay;
    PayText(x + "|" + y, to);
    PayText(y, to);
    MoveBar(prev + "|", k, x, y, LegsText(Pay("", to)));
  }

  lemma MoveBar(p: string, k: string, x: string, y: string, t: string)
    ensures p + k + "|" + (x + "|" + y + t) == p + (k + "|" + x) + "|" + (y + t)
  {
    var front := p + k + "|";
    Regroup(front, x + "|" + y, t);
    Regroup(front, x + "|", y);
    Regroup(front, x, "|");
    Regroup(p, k, "|");
    Regroup(p, k + "|", x);
    Regroup(p + (k + "|" + x) + "|", y, t);
  }

  /** Two legs of a movement as they are hashed. */
  lemma TwoLegText(prevHash: string, key: string, u: string)
    ensures var x, y := Leg(Wallet(u, Spendable), CREDIT, 5), Leg(REVENUE, CREDIT, -5);
      && LegText(x) == u + ":" + "spendable" + ":" + "CREDIT" + ":" + "5"
      && LegText(y) == "platform:" + "revenue" + ":" + "CREDIT" + ":" + "-5"
      && ChainText(prevHash, key, [x, y]) == prevHash + "|" + key + "|" + (LegText(x) + ";" + LegText(y))
  {
    WalletTexts(u, "");
    PlatformTexts();
    assert Digits(5) == "5" && "-" + "5" == "-5";
    JoinTwo(Leg(Wallet(u, Spendable), CREDIT, 5), Leg(REVENUE, CREDIT, -5));
  }

  lemma JoinTwo(x: Leg, y: Leg)
    ensures LegsText([x, y]) == LegText(x) + ";" + LegText(y)
  {
    hide LegText;
    assert [x, y][1..] == [y] && [y][1..] == [];
    assert LegTexts([y]) == [LegText(y)];
    var texts := [LegText(x), LegText(y)];
    assert LegTexts([x, y]) == texts && texts[1..] == [LegText(y)];
    assert Join(';', [LegText(y)]) == LegText(y);
  }
}
