/**
 Account ids and what they imply (src/accounts.ts). The source brands its id strings so that only
 the builders of that file make them; here an id is the parsed value, one constructor per builder,
 and `Id` is the text it stands for.
 */
module Accounts {
  import opened Money
  import opened Text

  datatype SystemAccount =
    | TrustCash | UsdClearing | RevenueUsd | StoredValue | Receivable | OpeningEquity | PromoFloat
    | Revenue | PayoutReserve | SettlementAccrual | NettingClearing

  datatype WalletKind = Spendable | Earned | Promo | Escrow

  /**
   A platform account or one of its shards; a user wallet, whose owner text is the user id, or
   `<user>:<session>` for an escrow; or text that is neither.
   */
  datatype AccountRef =
    | Platform(base: SystemAccount, shard: nat)
    | Wallet(owner: string, kind: WalletKind)
    | Unknown(text: string)

  const NETTING_CLEARING := Platform(NettingClearing, 0)
  const REVENUE := Platform(Revenue, 0)

  function SessionEscrow(userId: string, sessionId: string): AccountRef {
    Wallet(userId + ":" + sessionId, Escrow)
  }

  datatype BackingClass = Custodial | Excluded | HouseAsset | HouseLiability

  datatype Traits = Traits(currency: Currency, debitNormal: bool, class_: BackingClass)

  /** The one table of platform accounts. NETTING_CLEARING has no row. */
  function SystemTraits(base: SystemAccount): Option<Traits> {
    match base
    case TrustCash | UsdClearing | RevenueUsd => Some(Traits(USD, true, HouseAsset))
    case StoredValue | Receivable | OpeningEquity => Some(Traits(CREDIT, true, HouseAsset))
    case PromoFloat => Some(Traits(CREDIT, true, HouseLiability))
    case Revenue => Some(Traits(CREDIT, false, HouseLiability))
    case PayoutReserve | SettlementAccrual => Some(Traits(CREDIT, false, Excluded))
    case NettingClearing => None
  }

  /** Lookup through the base, so a shard inherits its parent's traits. */
  function TraitsOf(ref: AccountRef): Option<Traits> {
    if ref.Platform? then SystemTraits(ref.base) else None
  }

  function CurrencyFor(ref: AccountRef): Currency {
    match TraitsOf(ref)
    case Some(t) => t.currency
    case None => CREDIT
  }

  predicate IsDebitNormal(ref: AccountRef) {
    match TraitsOf(ref)
    case Some(t) => t.debitNormal
    case None => false
  }

  function Classify(ref: AccountRef): BackingClass {
    match TraitsOf(ref)
    case Some(t) => t.class_
    case None => if ref.Wallet? && (ref.kind.Spendable? || ref.kind.Escrow?) then Custodial else Excluded
  }

  predicate IsWalletAccount(ref: AccountRef) {
    ref.Wallet?
  }

  predicate HasColon(ref: AccountRef) {
    ref.Unknown? ==> ':' in ref.text
  }

  /** The overdraft guard's reach: src/ledger.ts `isUserGuarded`. */
  predicate IsUserGuarded(ref: AccountRef) {
    (Classify(ref).Custodial? || Classify(ref).Excluded?) && HasColon(ref)
  }

  /** A registered platform account or a shard of one, or a wallet with a known kind. */
  predicate IsKnownAccount(ref: AccountRef) {
    !ref.Unknown?
  }

  function SystemName(base: SystemAccount): string {
    match base
    case TrustCash => "trust_cash"
    case UsdClearing => "usd_clearing"
    case RevenueUsd => "revenue_usd"
    case StoredValue => "stored_value"
    case Receivable => "receivable"
    case OpeningEquity => "opening_equity"
    case PromoFloat => "promo_float"
    case Revenue => "revenue"
    case PayoutReserve => "payout_reserve"
    case SettlementAccrual => "settlement_accrual"
    case NettingClearing => "netting_clearing"
  }

  function KindName(kind: WalletKind): string {
    match kind
    case Spendable => "spendable"
    case Earned => "earned"
    case Promo => "promo"
    case Escrow => "escrow"
  }

  /** The id text, by which accounts are sorted and hashed. */
  function Id(ref: AccountRef): string {
    match ref
    case Platform(base, shard) => "platform:" + SystemName(base) + if shard == 0 then "" else "#" + Digits(shard)
    case Wallet(owner, kind) => owner + ":" + KindName(kind)
    case Unknown(text) => text
  }

  /** Every wallet is CREDIT, credit-normal and covered by the overdraft guard. */
  lemma WalletTraits(ref: AccountRef)
    requires IsWalletAccount(ref)
    ensures IsUserGuarded(ref) && !IsDebitNormal(ref) && CurrencyFor(ref) == CREDIT
  {
  }

  /**
   Clearing has no row in the table, so it classes as excluded and the guard covers it: a
   settlement chunk that would take clearing negative is refused.
   */
  lemma ClearingTraits()
    ensures IsUserGuarded(NETTING_CLEARING) && !IsDebitNormal(NETTING_CLEARING)
    ensures CurrencyFor(NETTING_CLEARING) == CREDIT && IsKnownAccount(NETTING_CLEARING)
    ensures !IsWalletAccount(NETTING_CLEARING)
  {
  }

  /** The platform accounts: which are in dollars, which grow by debits, and which the guard covers. */
  lemma PlatformTraits(ref: AccountRef)
    requires ref.Platform?
    ensures CurrencyFor(ref) == USD <==> ref.base.TrustCash? || ref.base.UsdClearing? || ref.base.RevenueUsd?
    ensures !IsDebitNormal(ref) <==>
      ref.base.Revenue? || ref.base.PayoutReserve? || ref.base.SettlementAccrual? || ref.base.NettingClearing?
    ensures IsUserGuarded(ref) <==> ref.base.PayoutReserve? || ref.base.SettlementAccrual? || ref.base.NettingClearing?
    ensures IsKnownAccount(ref)
  {
  }
}
