/**
 Amounts and their text form (src/money.ts over src/money.vendored.ts): an amount is a currency and
 a minor-unit count checked into i64, and travels as text such as "CREDIT:-12.34". The text form
 goes into every hash preimage, so what matters is that decoding undoes encoding.
 */
module Money {
  import opened Text

  datatype Currency = CREDIT | USD

  datatype Amount = Amount(currency: Currency, minor: int)

  const I64_MIN: int := -0x8000_0000_0000_0000
  const I64_MAX: int := 0x7FFF_FFFF_FFFF_FFFF

  /** The range `toAmount` accepts; outside it the source throws AMOUNT_OVERFLOW. */
  predicate InI64(minor: int) {
    I64_MIN <= minor <= I64_MAX
  }

  function CurrencyText(c: Currency): string {
    match c
    case CREDIT => "CREDIT"
    case USD => "USD"
  }

  // ---- Decimal digits ------------------------------------------------------------

  predicate IsDigit(c: char) {
    '0' <= c <= '9'
  }

  predicate AllDigits(s: string) {
    forall i :: 0 <= i < |s| ==> IsDigit(s[i])
  }

  function DigitChar(d: nat): (c: char)
    requires d < 10
    ensures IsDigit(c)
  {
    (('0' as int) + d) as char
  }

  function DigitOf(c: char): nat
    requires IsDigit(c)
  {
    (c as int) - ('0' as int)
  }

  /** The decimal text of a natural number, without leading zeros. */
  function Digits(n: nat): (s: string)
    ensures |s| > 0 && AllDigits(s)
  {
    if n < 10 then [DigitChar(n)] else Digits(n / 10) + [DigitChar(n % 10)]
  }

  /** The number a digit string denotes, leading zeros allowed. */
  function ValueOf(s: string): nat
    requires AllDigits(s)
  {
    if s == "" then 0 else 10 * ValueOf(s[..|s| - 1]) + DigitOf(s[|s| - 1])
  }

  lemma {:induction false} ValueOfDigits(n: nat)
    ensures ValueOf(Digits(n)) == n
  {
    if n >= 10 {
      ValueOfDigits(n / 10);
      var s := Digits(n);
      assert s[..|s| - 1] == Digits(n / 10);
      assert DigitOf(DigitChar(n % 10)) == n % 10;
    } else {
      assert Digits(n)[..0] == "";
    }
  }

  lemma {:induction false} LeadingZeroValue(s: string)
    requires AllDigits(s)
    ensures AllDigits("0" + s) && ValueOf("0" + s) == ValueOf(s)
  {
    if s == "" {
      assert ("0" + s)[..0] == "";
    } else {
      LeadingZeroValue(s[..|s| - 1]);
      assert ("0" + s)[..|s|] == "0" + s[..|s| - 1];
    }
  }

  // ---- format and parse ----------------------------------------------------------

  function PadStart(s: string, width: nat): (r: string)
    requires AllDigits(s)
    ensures AllDigits(r) && |r| == if |s| >= width then |s| else width
    ensures ValueOf(r) == ValueOf(s)
    decreases width - |s|
  {
    if |s| >= width then s else
      LeadingZeroValue(s);
      PadStart("0" + s, width)
  }

  function Zeros(n: nat): (r: string)
    ensures |r| == n && AllDigits(r)
  {
    if n == 0 then "" else "0" + Zeros(n - 1)
  }

  function FormatUnsigned(n: nat, exp: nat): string {
    var digits := PadStart(Digits(n), exp + 1);
    if exp == 0 then digits
    else digits[..|digits| - exp] + "." + digits[|digits| - exp..]
  }

  /** Ungrouped decimal text with `exp` fraction digits. */
  function Format(minor: int, exp: nat): string {
    if minor < 0 then "-" + FormatUnsigned(-minor, exp) else FormatUnsigned(minor, exp)
  }

  /** First position of `c`, or the length when it does not occur. */
  function IndexOf(s: string, c: char): (i: nat)
    ensures i <= |s|
    ensures i < |s| ==> s[i] == c
    ensures forall k :: 0 <= k < i ==> s[k] != c
  {
    if s == "" || s[0] == c then 0 else 1 + IndexOf(s[1..], c)
  }

  /** Digits, then optionally a point and at most `exp` fraction digits, as an integer of minor units. */
  function ParseUnsigned(body: string, exp: nat): Option<int> {
    var dot := IndexOf(body, '.');
    var whole := body[..dot];
    var fraction := if dot < |body| then body[dot + 1..] else "";
    if whole == "" || !AllDigits(whole) then None
    else if dot < |body| && (fraction == "" || !AllDigits(fraction) || exp == 0 || |fraction| > exp) then None
    else if !AllDigits(whole + fraction + Zeros(exp - |fraction|)) then None
    else Some(ValueOf(whole + fraction + Zeros(exp - |fraction|)))
  }

  /** The strict grammar: an optional minus, then the unsigned form, checked into i64. */
  function Parse(text: string, exp: nat): Option<int> {
    var negative := |text| > 0 && text[0] == '-';
    match ParseUnsigned(if negative then text[1..] else text, exp)
    case None => None
    case Some(scaled) =>
      var minor := if negative then 0 - scaled else scaled;
      if InI64(minor) then Some(minor) else None
  }

  const FRACTION_DIGITS := 2

  function EncodeAmount(a: Amount): string {
    CurrencyText(a.currency) + ":" + Format(a.minor, FRACTION_DIGITS)
  }

  /** `decodeAmount`'s separate comma check is subsumed: a comma is no digit, so Parse refuses it. */
  function DecodeAmount(decimal: string, currency: Currency): Option<Amount> {
    match Parse(decimal, FRACTION_DIGITS)
    case Some(minor) => Some(Amount(currency, minor))
    case None => None
  }

  function CurrencyOf(text: string): Option<Currency> {
    if text == "CREDIT" then Some(CREDIT) else if text == "USD" then Some(USD) else None
  }

  function DecodeAmountWire(encoded: string): Option<Amount> {
    var colon := IndexOf(encoded, ':');
    if colon == |encoded| then None
    else
      match CurrencyOf(encoded[..colon])
      case None => None
      case Some(currency) => DecodeAmount(encoded[colon + 1..], currency)
  }

  // ---- Round trips ---------------------------------------------------------------

  lemma IndexOfSplit(a: string, c: char, b: string)
    requires c !in a
    ensures IndexOf(a + [c] + b, c) == |a|
  {
    var s := a + [c] + b;
    assert s[|a|] == c;
    assert forall i :: 0 <= i < |a| ==> s[i] == a[i];
  }

  lemma ParseWhole(digits: string)
    requires |digits| > 0 && AllDigits(digits)
    ensures ParseUnsigned(digits, 0) == Some(ValueOf(digits))
  {
    assert forall i :: 0 <= i < |digits| ==> digits[i] != '.';
    assert IndexOf(digits, '.') == |digits|;
    assert digits[..|digits|] == digits;
    assert digits + "" + Zeros(0) == digits;
  }

  lemma ParseParts(whole: string, fraction: string, exp: nat)
    requires |whole| > 0 && |fraction| == exp > 0
    requires AllDigits(whole) && AllDigits(fraction) && AllDigits(whole + fraction)
    ensures ParseUnsigned(whole + ['.'] + fraction, exp) == Some(ValueOf(whole + fraction))
  {
    var body := whole + ['.'] + fraction;
    IndexOfSplit(whole, '.', fraction);
    assert body[..|whole|] == whole;
    assert body[|whole| + 1..] == fraction;
    assert whole + fraction + Zeros(0) == whole + fraction;
  }

  /** The unsigned half of the round trip. */
  lemma UnsignedRoundTrip(n: nat, exp: nat)
    ensures var f := FormatUnsigned(n, exp); |f| > 0 && IsDigit(f[0]) && ParseUnsigned(f, exp) == Some(n)
  {
    var digits := PadStart(Digits(n), exp + 1);
    ValueOfDigits(n);
    if exp == 0 {
      ParseWhole(digits);
      assert FormatUnsigned(n, exp) == digits;
    } else {
      var cut := |digits| - exp;
      assert digits == digits[..cut] + digits[cut..];
      ParseParts(digits[..cut], digits[cut..], exp);
      assert FormatUnsigned(n, exp) == digits[..cut] + ['.'] + digits[cut..];
      assert FormatUnsigned(n, exp)[0] == digits[0];
    }
  }

  /** `parse` undoes `format`: every i64 value, every exponent. */
  lemma ParseUndoesFormat(minor: int, exp: nat)
    requires InI64(minor)
    ensures Parse(Format(minor, exp), exp) == Some(minor)
  {
    var n := if minor < 0 then -minor else minor;
    UnsignedRoundTrip(n, exp);
    SignedParse(FormatUnsigned(n, exp), n, minor < 0, exp);
  }

  lemma SignedParse(body: string, n: nat, negative: bool, exp: nat)
    requires |body| > 0 && IsDigit(body[0]) && ParseUnsigned(body, exp) == Some(n)
    requires InI64(if negative then 0 - n else n)
    ensures Parse(if negative then "-" + body else body, exp) == Some(if negative then 0 - n else n)
  {
    var text := if negative then "-" + body else body;
    assert (if negative then text[1..] else text) == body;
  }

  lemma WireParts(cur: string, dec: string, currency: Currency)
    requires ':' !in cur && CurrencyOf(cur) == Some(currency)
    ensures DecodeAmountWire(cur + ":" + dec) == DecodeAmount(dec, currency)
  {
    var text := cur + ":" + dec;
    assert text == cur + [':'] + dec;
    IndexOfSplit(cur, ':', dec);
    assert text[..|cur|] == cur;
    assert text[|cur| + 1..] == dec;
  }

  /** `decodeAmountWire` undoes `encodeAmount` on every storable amount. */
  lemma DecodeUndoesEncode(a: Amount)
    requires InI64(a.minor)
    ensures DecodeAmountWire(EncodeAmount(a)) == Some(a)
  {
    hide Format, Parse, DecodeAmountWire;
    ParseUndoesFormat(a.minor, FRACTION_DIGITS);
    WireParts(CurrencyText(a.currency), Format(a.minor, FRACTION_DIGITS), a.currency);
  }

  lemma FormatInjective(m: int, n: int, exp: nat)
    requires Format(m, exp) == Format(n, exp)
    ensures m == n
  {
    var u, v := if m < 0 then -m else m, if n < 0 then -n else n;
    UnsignedRoundTrip(u, exp);
    UnsignedRoundTrip(v, exp);
    var fu, fv := FormatUnsigned(u, exp), FormatUnsigned(v, exp);
    assert ("-" + fu)[1..] == fu && ("-" + fv)[1..] == fv;
    assert Format(m, exp)[0] == if m < 0 then '-' else fu[0];
    assert Format(n, exp)[0] == if n < 0 then '-' else fv[0];
  }

  /** Equal text, equal amount: reconciliation and hashing may compare strings. */
  lemma EncodeInjective(a: Amount, b: Amount)
    requires EncodeAmount(a) == EncodeAmount(b)
    ensures a == b
  {
    var ca, cb := CurrencyText(a.currency), CurrencyText(b.currency);
    var da, db := Format(a.minor, FRACTION_DIGITS), Format(b.minor, FRACTION_DIGITS);
    SplitInjective(ca, da, cb, db);
    FormatInjective(a.minor, b.minor, FRACTION_DIGITS);
  }

  lemma SplitInjective(ca: string, da: string, cb: string, db: string)
    requires ':' !in ca && ':' !in cb
    requires ca + ":" + da == cb + ":" + db
    ensures ca == cb && da == db
  {
    var t := ca + ":" + da;
    assert t == ca + [':'] + da && t == cb + [':'] + db;
    IndexOfSplit(ca, ':', da);
    IndexOfSplit(cb, ':', db);
    assert ca == t[..|ca|] == cb;
    assert da == t[|ca| + 1..] == db;
  }

  /** Encoded amounts are never empty and never contain the NUL that joins them in a preimage. */
  lemma EncodedHasNoNul(a: Amount)
    ensures |EncodeAmount(a)| > 0
    ensures 0 as char !in EncodeAmount(a)
  {
    var digits := PadStart(Digits(if a.minor < 0 then -a.minor else a.minor), FRACTION_DIGITS + 1);
    assert forall i :: 0 <= i < |digits| ==> digits[i] != 0 as char;
  }

  // ---- What the text says ----------------------------------------------------------

  lemma {:induction false} ValueOfParts(whole: string, fraction: string)
    requires AllDigits(whole) && AllDigits(fraction) && AllDigits(whole + fraction)
    ensures ValueOf(whole + fraction) == ValueOf(whole) * Pow10(|fraction|) + ValueOf(fraction)
  {
    if fraction == "" {
      assert whole + fraction == whole;
    } else {
      var n := |fraction| - 1;
      assert (whole + fraction)[..|whole| + n] == whole + fraction[..n];
      ValueOfParts(whole, fraction[..n]);
      TimesTen(ValueOf(whole), Pow10(n), ValueOf(fraction[..n]));
    }
  }

  lemma TimesTen(x: nat, y: nat, z: nat)
    ensures 10 * (x * y + z) == x * (10 * y) + 10 * z
  {
  }

  function Pow10(n: nat): nat {
    if n == 0 then 1 else 10 * Pow10(n - 1)
  }

  lemma {:induction false} BelowPower(s: string)
    requires AllDigits(s)
    ensures ValueOf(s) < Pow10(|s|)
  {
    if s != "" {
      BelowPower(s[..|s| - 1]);
    }
  }

  lemma Hundredths(digits: string, n: nat)
    requires AllDigits(digits) && |digits| >= 3 && ValueOf(digits) == n
    ensures var cut := |digits| - 2;
      ValueOf(digits[..cut]) == n / 100 && ValueOf(digits[cut..]) == n % 100
  {
    hide ValueOf;
    var cut := |digits| - 2;
    var whole, fraction := digits[..cut], digits[cut..];
    assert whole + fraction == digits;
    ValueOfParts(whole, fraction);
    BelowPower(fraction);
    assert Pow10(2) == 10 * Pow10(1) == 100;
  }

  lemma FormatSays(minor: int) returns (whole: string, fraction: string)
    ensures Format(minor, 2) == (if minor < 0 then "-" else "") + whole + "." + fraction
    ensures |whole| > 0 && AllDigits(whole) && |fraction| == 2 && AllDigits(fraction)
    ensures var n := if minor < 0 then -minor else minor;
      ValueOf(whole) == n / 100 && ValueOf(fraction) == n % 100
  {
    hide ValueOf, Digits, PadStart;
    var n := if minor < 0 then -minor else minor;
    var digits := PadStart(Digits(n), 3);
    ValueOfDigits(n);
    Hundredths(digits, n);
    whole, fraction := digits[..|digits| - 2], digits[|digits| - 2..];
    assert FormatUnsigned(n, 2) == whole + "." + fraction;
    var sign := if minor < 0 then "-" else "";
    assert sign + (whole + "." + fraction) == sign + whole + "." + fraction;
  }

  /**
   The text is the currency, a minus where the amount is negative, and two parts with a point between:
   digits that say how many whole units, and two digits that say how many hundredths.
   */
  lemma EncodedSays(a: Amount) returns (whole: string, fraction: string)
    ensures EncodeAmount(a) ==
      (if a.currency == CREDIT then "CREDIT" else "USD") + ":" + (if a.minor < 0 then "-" else "") + whole + "."
      + fraction
    ensures |whole| > 0 && AllDigits(whole) && |fraction| == 2 && AllDigits(fraction)
    ensures var n := if a.minor < 0 then -a.minor else a.minor;
      ValueOf(whole) == n / 100 && ValueOf(fraction) == n % 100
  {
    hide ValueOf, Format;
    whole, fraction := FormatSays(a.minor);
    var cur, sign := if a.currency == CREDIT then "CREDIT" else "USD", if a.minor < 0 then "-" else "";
    assert cur + ":" + (sign + whole + "." + fraction) == cur + ":" + sign + whole + "." + fraction;
  }

  lemma OneDigit(c: char)
    requires IsDigit(c)
    ensures AllDigits([c]) && ValueOf([c]) == c as int - 48
  {
    assert [c][..0] == "";
  }

  /** Digit strings are decimal, most significant digit first. */
  lemma DigitsSay(c: char, rest: string)
    requires IsDigit(c) && AllDigits(rest)
    ensures AllDigits([c] + rest) && ValueOf([c] + rest) == (c as int - 48) * Pow10(|rest|) + ValueOf(rest)
  {
    hide ValueOf, Pow10;
    OneDigit(c);
    ValueOfParts([c], rest);
  }

  // ---- What texts parse ------------------------------------------------------------

  /** A minus or none, at least one digit, and perhaps a point with at least one and at most `exp` digits. */
  predicate Spells(text: string, exp: nat, negative: bool, whole: string, fraction: string) {
    && text == (if negative then "-" else "") + (whole + if fraction == "" then "" else "." + fraction)
    && whole != "" && AllDigits(whole) && AllDigits(fraction) && |fraction| <= exp
  }

  function Signed(negative: bool, n: nat): int {
    if negative then 0 - n else n
  }

  function Spelled(exp: nat, whole: string, fraction: string): nat
    requires AllDigits(whole) && AllDigits(fraction) && |fraction| <= exp
  {
    (ValueOf(whole) * Pow10(|fraction|) + ValueOf(fraction)) * Pow10(exp - |fraction|)
  }

  lemma {:induction false} ZerosAreNothing(n: nat)
    ensures ValueOf(Zeros(n)) == 0
  {
    if n > 0 {
      ZerosAreNothing(n - 1);
      LeadingZeroValue(Zeros(n - 1));
    }
  }

  lemma ScaledDigits(exp: nat, whole: string, fraction: string)
    requires AllDigits(whole) && AllDigits(fraction) && |fraction| <= exp
    ensures AllDigits(whole + fraction + Zeros(exp - |fraction|))
    ensures ValueOf(whole + fraction + Zeros(exp - |fraction|)) == Spelled(exp, whole, fraction)
  {
    hide ValueOf, Pow10, Zeros;
    var digits, zeros := whole + fraction, Zeros(exp - |fraction|);
    ValueOfParts(whole, fraction);
    ValueOfParts(digits, zeros);
    ZerosAreNothing(exp - |fraction|);
  }

  lemma UnsignedAccepts(exp: nat, whole: string, fraction: string)
    requires Spells(whole + if fraction == "" then "" else "." + fraction, exp, false, whole, fraction)
    ensures ParseUnsigned(whole + if fraction == "" then "" else "." + fraction, exp) ==
      Some(Spelled(exp, whole, fraction))
  {
    hide ValueOf, Zeros, Spelled, Pow10;
    ScaledDigits(exp, whole, fraction);
    var body := whole + if fraction == "" then "" else "." + fraction;
    assert forall i :: 0 <= i < |whole| ==> whole[i] != '.';
    if fraction == "" {
      assert body == whole && IndexOf(body, '.') == |body|;
      assert whole + "" == whole && body[..|body|] == body;
    } else {
      assert body == whole + ['.'] + fraction;
      IndexOfSplit(whole, '.', fraction);
      assert body[..|whole|] == whole && body[|whole| + 1..] == fraction;
    }
  }

  lemma UnsignedSpells(body: string, exp: nat) returns (whole: string, fraction: string)
    requires ParseUnsigned(body, exp).Some?
    ensures body == whole + (if fraction == "" then "" else "." + fraction)
    ensures whole != "" && AllDigits(whole) && AllDigits(fraction) && |fraction| <= exp
  {
    var dot := IndexOf(body, '.');
    whole, fraction := body[..dot], if dot < |body| then body[dot + 1..] else "";
    assert dot < |body| ==> body == whole + ("." + fraction);
  }

  /** Every text of that form within the i64 range is read, as the number it spells. */
  lemma ParseAccepts(text: string, exp: nat, negative: bool, whole: string, fraction: string)
    requires Spells(text, exp, negative, whole, fraction)
    ensures Parse(text, exp) ==
      if InI64(Signed(negative, Spelled(exp, whole, fraction))) then Some(Signed(negative,
        Spelled(exp, whole, fraction)))
      else None
  {
    hide ParseUnsigned, Spelled;
    var body := whole + if fraction == "" then "" else "." + fraction;
    UnsignedAccepts(exp, whole, fraction);
    assert whole[0] != '-' && body[0] == whole[0];
    assert "" + body == body;
    assert negative ==> text[0] == '-' && text[1..] == body;
  }

  /** And nothing else is. */
  lemma ParseReadsOnly(text: string, exp: nat) returns (negative: bool, whole: string, fraction: string)
    requires Parse(text, exp).Some?
    ensures Spells(text, exp, negative, whole, fraction)
  {
    hide ParseUnsigned;
    negative := |text| > 0 && text[0] == '-';
    var body := if negative then text[1..] else text;
    whole, fraction := UnsignedSpells(body, exp);
    assert text == (if negative then "-" else "") + body;
  }
}
