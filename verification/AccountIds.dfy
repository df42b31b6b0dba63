/**
 Account ids as text (src/accounts.ts): two accounts the ledger knows never share an id, which is
 what lets leaves be sorted, hashed and looked up by id alone.
 */
module AccountIds {
  import opened Accounts
  import opened Money
  import opened Text

  lemma NamesHaveNoHash(base: SystemAccount)
    ensures '#' !in SystemName(base)
  {
  }

  lemma NamesHaveNoColon(base: SystemAccount)
    ensures ':' !in SystemName(base)
  {
  }

  lemma NamesArePlain(base: SystemAccount)
    ensures '#' !in SystemName(base) && ':' !in SystemName(base)
    ensures |SystemName(base)| == 7 || |SystemName(base)| > 9
  {
    NamesHaveNoHash(base);
    NamesHaveNoColon(base);
  }

  lemma KindsArePlain(kind: WalletKind)
    ensures '#' !in KindName(kind) && ':' !in KindName(kind)
    ensures |KindName(kind)| == 5 || |KindName(kind)| == 6 || |KindName(kind)| == 9
  {
  }

  lemma NamesDiffer(b: SystemAccount, c: SystemAccount)
    requires SystemName(b) == SystemName(c)
    ensures b == c
  {
    var n := SystemName(b);
    if |n| > 8 {
      assert SystemName(c)[0] == n[0] && SystemName(c)[8] == n[8];
    } else {
      assert SystemName(c)[0] == n[0];
    }
  }

  lemma KindsDiffer(k: WalletKind, l: WalletKind)
    requires KindName(k) == KindName(l)
    ensures k == l
  {
    assert KindName(k)[0] == KindName(l)[0] && KindName(k)[1] == KindName(l)[1];
  }

  /** The text of a shard: nothing for the parent, `#` and a number otherwise. */
  function ShardText(shard: nat): string {
    if shard == 0 then "" else "#" + Digits(shard)
  }

  lemma ShardsDiffer(s: nat, t: nat)
    requires ShardText(s) == ShardText(t)
    ensures s == t
  {
    if s != 0 && t != 0 {
      assert ShardText(s)[1..] == Digits(s) && ShardText(t)[1..] == Digits(t);
      ValueOfDigits(s);
      ValueOfDigits(t);
    }
  }

  lemma HashNotBefore(n: string, m: string, s: string, t: string)
    requires '#' !in m && n + s == m + t && (s == "" || s[0] == '#')
    ensures |n| >= |m|
  {
    assert forall i :: 0 <= i < |m| ==> (m + t)[i] == m[i];
    assert s != "" ==> (n + s)[|n|] == '#';
    assert |n + s| == |m + t|;
  }

  lemma SplitAtHash(n: string, m: string, s: string, t: string)
    requires '#' !in n && '#' !in m && n + s == m + t
    requires (s == "" || s[0] == '#') && (t == "" || t[0] == '#')
    ensures n == m && s == t
  {
    HashNotBefore(n, m, s, t);
    HashNotBefore(m, n, t, s);
    assert (n + s)[..|n|] == n && (m + t)[..|m|] == m;
    assert (n + s)[|n|..] == s && (m + t)[|m|..] == t;
  }

  function Tail(ref: AccountRef): string
    requires IsKnownAccount(ref)
  {
    if ref.Platform? then SystemName(ref.base) + ShardText(ref.shard) else KindName(ref.kind)
  }

  lemma IdParts(ref: AccountRef)
    requires IsKnownAccount(ref)
    ensures Id(ref) == (if ref.Platform? then "platform" else ref.owner) + ":" + Tail(ref)
    ensures ':' !in Tail(ref)
  {
    hide SystemName, KindName;
    if ref.Platform? {
      NamesArePlain(ref.base);
      assert "platform:" == "platform" + ":";
      assert Id(ref) == "platform" + ":" + Tail(ref);
    } else {
      KindsArePlain(ref.kind);
    }
  }

  lemma PlatformTailsDiffer(a: AccountRef, b: AccountRef)
    requires a.Platform? && b.Platform? && Tail(a) == Tail(b)
    ensures a == b
  {
    hide SystemName;
    NamesArePlain(a.base);
    NamesArePlain(b.base);
    SplitAtHash(SystemName(a.base), SystemName(b.base), ShardText(a.shard), ShardText(b.shard));
    NamesDiffer(a.base, b.base);
    ShardsDiffer(a.shard, b.shard);
  }

  lemma PlatformIsNoKind(a: AccountRef, kind: WalletKind)
    requires a.Platform?
    ensures Tail(a) != KindName(kind)
  {
    hide SystemName, KindName;
    NamesArePlain(a.base);
    KindsArePlain(kind);
    if Tail(a) == KindName(kind) {
      SplitAtHash(SystemName(a.base), KindName(kind), ShardText(a.shard), "");
    }
  }

  /** The id text determines the account, for every account the ledger accepts. */
  lemma IdDeterminesAccount(a: AccountRef, b: AccountRef)
    requires IsKnownAccount(a) && IsKnownAccount(b) && Id(a) == Id(b)
    ensures a == b
  {
    hide Id, SystemName, KindName, ShardText;
    IdParts(a);
    IdParts(b);
    var x := if a.Platform? then "platform" else a.owner;
    var y := if b.Platform? then "platform" else b.owner;
    SplitAtLast(':', x, y, Tail(a), Tail(b));
    if a.Platform? && b.Platform? {
      PlatformTailsDiffer(a, b);
    } else if a.Platform? {
      PlatformIsNoKind(a, b.kind);
    } else if b.Platform? {
      PlatformIsNoKind(b, a.kind);
    } else {
      KindsDiffer(a.kind, b.kind);
    }
  }

  /** A wallet and an escrow as text. */
  lemma WalletTexts(u: string, session: string)
    ensures Id(Wallet(u, Spendable)) == u + ":" + "spendable" && Id(Wallet(u, Earned)) == u + ":" + "earned"
    ensures Id(Wallet(u, Promo)) == u + ":" + "promo"
    ensures Id(SessionEscrow(u, session)) == u + ":" + session + ":" + "escrow"
  {
  }

  /** A platform account and one of its shards as text. */
  lemma PlatformTexts()
    ensures Id(REVENUE) == "platform:" + "revenue" && Id(NETTING_CLEARING) == "platform:" + "netting_clearing"
    ensures Id(Platform(Revenue, 3)) == "platform:" + "revenue" + ("#" + "3")
  {
    assert Digits(3) == "3";
  }
}
