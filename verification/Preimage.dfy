/**
 The bytes that get hashed (src/ledger.ts `chainPreimage`, `lengthPrefixed`). Frames are laid end
 to end, each behind its length in four big-endian bytes, and text enters as UTF-8. The result
 determines every frame, which is what lets the rest of the model treat a digest as a constructor.
 */
module Preimage {
  import opened Accounts
  import opened Ledger
  import opened Money
  import opened Text

  type Byte = b: int | 0 <= b < 256

  const LENGTH_LIMIT: nat := 0x1_0000_0000

  /** The four big-endian bytes of a 32-bit length; shifts and masks wrap larger lengths. */
  function BigEndian4(n: nat): (r: seq<Byte>)
    ensures |r| == 4
  {
    [(n / 0x100_0000) % 256, (n / 0x1_0000) % 256, (n / 0x100) % 256, n % 256]
  }

  function ReadBigEndian4(b: seq<Byte>): nat
    requires |b| >= 4
  {
    (b[0] as int) * 0x100_0000 + (b[1] as int) * 0x1_0000 + (b[2] as int) * 0x100 + b[3] as int
  }

  lemma BigEndian4RoundTrip(n: nat)
    requires n < LENGTH_LIMIT
    ensures ReadBigEndian4(BigEndian4(n)) == n
  {
    var q := n / 0x100;
    var r := q / 0x100;
    assert n / 0x1_0000 == r;
    assert n / 0x100_0000 == r / 0x100;
  }

  function Framed(frames: seq<seq<Byte>>): seq<Byte> {
    if frames == [] then []
    else Framed(frames[..|frames| - 1]) + BigEndian4(|frames[|frames| - 1]|) + frames[|frames| - 1]
  }

  function TotalLength(frames: seq<seq<Byte>>): nat {
    if frames == [] then 0 else TotalLength(frames[..|frames| - 1]) + 4 + |frames[|frames| - 1]|
  }

  lemma {:induction false} FramedLength(frames: seq<seq<Byte>>)
    ensures |Framed(frames)| == TotalLength(frames)
  {
    if frames != [] {
      FramedLength(frames[..|frames| - 1]);
    }
  }

  lemma {:induction false} TotalLengthMonotone(frames: seq<seq<Byte>>, k: nat)
    requires k <= |frames|
    ensures TotalLength(frames[..k]) <= TotalLength(frames)
    decreases |frames|
  {
    if k < |frames| {
      var init := frames[..|frames| - 1];
      TotalLengthMonotone(init, k);
      assert init[..k] == frames[..k];
    } else {
      assert frames[..k] == frames;
    }
  }

  /** Writes one frame behind its length, leaving everything before `offset` alone. */
  method WriteFrame(out: array<Byte>, offset: nat, frame: seq<Byte>)
    requires offset + 4 + |frame| <= out.Length
    modifies out
    ensures out[..offset + 4 + |frame|] == old(out[..offset]) + BigEndian4(|frame|) + frame
  {
    var prefix := BigEndian4(|frame|);
    out[offset] := prefix[0];
    out[offset + 1] := prefix[1];
    out[offset + 2] := prefix[2];
    out[offset + 3] := prefix[3];
    assert out[offset..offset + 4] == [prefix[0], prefix[1], prefix[2], prefix[3]] == prefix;
    ghost var head := out[..offset + 4];
    assert head == old(out[..offset]) + prefix;
    forall i | offset + 4 <= i < offset + 4 + |frame| {
      out[i] := frame[i - offset - 4];
    }
    var written := out[..offset + 4 + |frame|];
    assert written[..offset + 4] == out[..offset + 4] == head;
    assert written[offset + 4..] == out[offset + 4..offset + 4 + |frame|] == frame;
    assert written == written[..offset + 4] + written[offset + 4..];
  }

  lemma FramesUpTo(frames: seq<seq<Byte>>, k: nat)
    requires k < |frames|
    ensures TotalLength(frames[..k + 1]) == TotalLength(frames[..k]) + 4 + |frames[k]| <= TotalLength(frames)
    ensures Framed(frames[..k + 1]) == Framed(frames[..k]) + BigEndian4(|frames[k]|) + frames[k]
  {
    assert frames[..k + 1][..k] == frames[..k];
    TotalLengthMonotone(frames, k + 1);
  }

  /** One buffer of the exact size, filled left to right behind a moving offset. */
  method LengthPrefixed(frames: seq<seq<Byte>>) returns (out: array<Byte>)
    ensures out[..] == Framed(frames)
  {
    var total := 0;
    for k := 0 to |frames|
      invariant total == TotalLength(frames[..k])
    {
      FramesUpTo(frames, k);
      total := total + 4 + |frames[k]|;
    }
    assert frames[..|frames|] == frames;
    out := new Byte[total](_ => 0);
    var offset := 0;
    for k := 0 to |frames|
      invariant offset == TotalLength(frames[..k]) <= out.Length == TotalLength(frames)
      invariant out[..offset] == Framed(frames[..k])
    {
      FramesUpTo(frames, k);
      WriteFrame(out, offset, frames[k]);
      offset := offset + 4 + |frames[k]|;
    }
    assert out[..out.Length] == out[..];
  }

  predicate FramesFit(frames: seq<seq<Byte>>) {
    forall i :: 0 <= i < |frames| ==> |frames[i]| < LENGTH_LIMIT
  }

  lemma {:induction false} FramedFromFront(f: seq<Byte>, rest: seq<seq<Byte>>)
    ensures Framed([f] + rest) == BigEndian4(|f|) + f + Framed(rest)
  {
    var fs := [f] + rest;
    if rest == [] {
      assert fs[..0] == [];
      assert Framed(fs) == [] + BigEndian4(|f|) + f;
    } else {
      var init, last := rest[..|rest| - 1], rest[|rest| - 1];
      FramedFromFront(f, init);
      assert fs[..|fs| - 1] == [f] + init;
      assert Framed(fs) == (BigEndian4(|f|) + f + Framed(init)) + BigEndian4(|last|) + last;
      assert Framed(rest) == Framed(init) + BigEndian4(|last|) + last;
    }
  }

  lemma HeadFrame(f: seq<Byte>, t: seq<Byte>, g: seq<Byte>, u: seq<Byte>)
    requires |f| < LENGTH_LIMIT && |g| < LENGTH_LIMIT
    requires BigEndian4(|f|) + f + t == BigEndian4(|g|) + g + u
    ensures f == g && t == u
  {
    var s := BigEndian4(|f|) + f + t;
    assert s[..4] == BigEndian4(|f|) && s[..4] == BigEndian4(|g|);
    BigEndian4RoundTrip(|f|);
    BigEndian4RoundTrip(|g|);
    assert s[4..4 + |f|] == f && s[4..4 + |g|] == g;
    assert s[4 + |f|..] == t && s[4 + |g|..] == u;
  }

  /** The framing is injective: the bytes determine how many frames there were and each of them. */
  lemma {:induction false} FramedInjective(fs: seq<seq<Byte>>, gs: seq<seq<Byte>>)
    requires FramesFit(fs) && FramesFit(gs)
    requires Framed(fs) == Framed(gs)
    ensures fs == gs
    decreases |fs|
  {
    OnlyNothingFramesToNothing(fs);
    OnlyNothingFramesToNothing(gs);
    if fs != [] {
      assert fs == [fs[0]] + fs[1..] && gs == [gs[0]] + gs[1..];
      FramedFromFront(fs[0], fs[1..]);
      FramedFromFront(gs[0], gs[1..]);
      HeadFrame(fs[0], Framed(fs[1..]), gs[0], Framed(gs[1..]));
      FramedInjective(fs[1..], gs[1..]);
    }
  }

  lemma OnlyNothingFramesToNothing(fs: seq<seq<Byte>>)
    ensures Framed(fs) == [] <==> fs == []
  {
    FramedLength(fs);
  }

  // ---- UTF-8 ----------------------------------------------------------------------

  /** One code point in one to four bytes. */
  function Utf8Char(c: char): (r: seq<Byte>)
    ensures 1 <= |r| <= 4
    ensures |r| == SequenceLength(r[0])
  {
    var n := c as int;
    if n < 0x80 then [n]
    else if n < 0x800 then [0xC0 + n / 0x40, 0x80 + n % 0x40]
    else if n < 0x1_0000 then [0xE0 + n / 0x1000, 0x80 + (n / 0x40) % 0x40, 0x80 + n % 0x40]
    else [0xF0 + n / 0x4_0000, 0x80 + (n / 0x1000) % 0x40, 0x80 + (n / 0x40) % 0x40, 0x80 + n % 0x40]
  }

  /** The lead byte tells how long its sequence is. */
  function SequenceLength(lead: Byte): nat {
    if lead < 0x80 then 1 else if lead < 0xE0 then 2 else if lead < 0xF0 then 3 else 4
  }

  function CodePoint(r: seq<Byte>): int
    requires 1 <= |r| <= 4 && |r| == SequenceLength(r[0])
  {
    var lead, n := r[0] as int, |r|;
    if n == 1 then lead
    else if n == 2 then (lead - 0xC0) * 0x40 + Low(r[1])
    else if n == 3 then (lead - 0xE0) * 0x1000 + Low(r[1]) * 0x40 + Low(r[2])
    else (lead - 0xF0) * 0x4_0000 + Low(r[1]) * 0x1000 + Low(r[2]) * 0x40 + Low(r[3])
  }

  /** The six payload bits of a continuation byte. */
  function Low(b: Byte): int {
    (b as int) - 0x80
  }

  lemma Utf8CharRoundTrip(c: char)
    ensures CodePoint(Utf8Char(c)) == c as int
  {
    var n := c as int;
    var q := n / 0x40;
    assert n == q * 0x40 + n % 0x40;
    assert n / 0x1000 == q / 0x40;
    assert n / 0x4_0000 == (q / 0x40) / 0x40;
  }

  /** The encoding of RFC 3629, section 3: the shortest that fits, its bits behind one lead byte and six a byte. */
  lemma Utf8CharSays(c: char)
    ensures var n, r := c as int, Utf8Char(c);
      && |r| == (if n <= 0x7F then 1 else if n <= 0x7FF then 2 else if n <= 0xFFFF then 3 else 4)
      && (|r| == 1 ==> r[0] as int == n)
      && (|r| == 2 ==> 0xC0 <= r[0] < 0xE0 && n == (r[0] as int - 0xC0) * 64 + (r[1] as int - 0x80))
      && (|r| == 3 ==>
            0xE0 <= r[0] < 0xF0 && n == ((r[0] as int - 0xE0) * 64 + (r[1] as int - 0x80)) * 64 + (r[2] as int - 0x80))
      && (|r| == 4 ==>
            && 0xF0 <= r[0] < 0xF8
            && n == (((r[0] as int - 0xF0) * 64 + (r[1] as int - 0x80)) * 64 + (r[2] as int - 0x80)) * 64
              + (r[3] as int - 0x80))
      && forall i :: 0 < i < |r| ==> 0x80 <= r[i] < 0xC0
  {
    Utf8CharRoundTrip(c);
  }

  function Utf8(s: string): seq<Byte> {
    if s == "" then [] else Utf8Char(s[0]) + Utf8(s[1..])
  }

  lemma HeadChar(c: char, t: seq<Byte>, d: char, u: seq<Byte>)
    requires Utf8Char(c) + t == Utf8Char(d) + u
    ensures c == d && t == u
  {
    var e, f := Utf8Char(c), Utf8Char(d);
    var s := e + t;
    assert s[0] == e[0] && s[0] == f[0];
    assert s[..|e|] == e && s[..|f|] == f;
    assert s[|e|..] == t && s[|f|..] == u;
    Utf8CharRoundTrip(c);
    Utf8CharRoundTrip(d);
  }

  lemma {:induction false} Utf8Injective(s: string, t: string)
    requires Utf8(s) == Utf8(t)
    ensures s == t
    decreases |s|
  {
    if s != "" && t != "" {
      HeadChar(s[0], Utf8(s[1..]), t[0], Utf8(t[1..]));
      Utf8Injective(s[1..], t[1..]);
      assert s == [s[0]] + s[1..] && t == [t[0]] + t[1..];
    }
  }

  // ---- The own-amounts frame ------------------------------------------------------

  function OwnTexts(legs: seq<Leg>, a: AccountRef): seq<string> {
    if legs == [] then []
    else
      var last := legs[|legs| - 1];
      OwnTexts(legs[..|legs| - 1], a) +
      if last.account == a then [EncodeAmount(Amount(last.currency, last.minor))] else []
  }

  const NUL := 0 as char

  /** `parts.join(sep)`. */
  function Join(sep: char, parts: seq<string>): string {
    if parts == [] then ""
    else if |parts| == 1 then parts[0]
    else parts[0] + [sep] + Join(sep, parts[1..])
  }

  /** Own amounts are encoded and sorted before they are joined. */
  function OwnText(legs: seq<Leg>, a: AccountRef): string {
    Join(NUL, SortText(OwnTexts(legs, a)))
  }

  predicate Joinable(sep: char, parts: seq<string>) {
    forall i :: 0 <= i < |parts| ==> |parts[i]| > 0 && sep !in parts[i]
  }

  lemma {:induction false} OwnTextsJoinable(legs: seq<Leg>, a: AccountRef)
    ensures Joinable(NUL, OwnTexts(legs, a))
  {
    if legs != [] {
      var last := legs[|legs| - 1];
      OwnTextsJoinable(legs[..|legs| - 1], a);
      EncodedHasNoNul(Amount(last.currency, last.minor));
    }
  }

  lemma JoinStart(sep: char, parts: seq<string>)
    requires Joinable(sep, parts)
    ensures parts == [] <==> Join(sep, parts) == ""
    ensures parts != [] ==> |parts[0]| <= |Join(sep, parts)| && IndexOf(Join(sep, parts), sep) == |parts[0]|
    ensures parts != [] ==> Join(sep, parts)[..|parts[0]|] == parts[0]
    ensures |parts| == 1 <==> parts != [] && |Join(sep, parts)| == |parts[0]|
    ensures |parts| > 1 ==> Join(sep, parts)[|parts[0]| + 1..] == Join(sep, parts[1..])
  {
    if |parts| == 1 {
      assert forall i :: 0 <= i < |parts[0]| ==> parts[0][i] != sep;
    } else if |parts| > 1 {
      IndexOfSplit(parts[0], sep, Join(sep, parts[1..]));
    }
  }

  /** Joining loses nothing when no part is empty or holds the separator. */
  lemma {:induction false} JoinInjective(sep: char, xs: seq<string>, ys: seq<string>)
    requires Joinable(sep, xs) && Joinable(sep, ys)
    requires Join(sep, xs) == Join(sep, ys)
    ensures xs == ys
    decreases |xs|
  {
    JoinStart(sep, xs);
    JoinStart(sep, ys);
    if xs != [] {
      assert xs[0] == ys[0];
      if |xs| > 1 {
        JoinInjective(sep, xs[1..], ys[1..]);
      }
      assert xs == [xs[0]] + xs[1..] && ys == [ys[0]] + ys[1..];
    }
  }

  lemma SortedStaysJoinable(parts: seq<string>)
    requires Joinable(NUL, parts)
    ensures Joinable(NUL, SortText(parts))
  {
    var s := SortText(parts);
    forall i | 0 <= i < |s| ensures |s[i]| > 0 && NUL !in s[i] {
      assert s[i] in multiset(s);
      assert s[i] in parts;
    }
  }

  lemma {:induction false} TextCountsAmounts(legs: seq<Leg>, a: AccountRef, x: Amount)
    ensures multiset(OwnTexts(legs, a))[EncodeAmount(x)] == multiset(OwnAmounts(legs, a))[x]
  {
    if legs != [] {
      var init, last := legs[..|legs| - 1], legs[|legs| - 1];
      TextCountsAmounts(init, a, x);
      var y := Amount(last.currency, last.minor);
      if EncodeAmount(x) == EncodeAmount(y) {
        EncodeInjective(x, y);
      }
    }
  }

  lemma EqualOwnTexts(legs: seq<Leg>, legs': seq<Leg>, a: AccountRef)
    requires OwnText(legs, a) == OwnText(legs', a)
    ensures multiset(OwnTexts(legs, a)) == multiset(OwnTexts(legs', a))
  {
    OwnTextsJoinable(legs, a);
    OwnTextsJoinable(legs', a);
    SortedStaysJoinable(OwnTexts(legs, a));
    SortedStaysJoinable(OwnTexts(legs', a));
    JoinInjective(NUL, SortText(OwnTexts(legs, a)), SortText(OwnTexts(legs', a)));
  }

  /** Equal own text means the same amounts, each as often, whatever the order of the legs. */
  lemma OwnTextDeterminesAmounts(legs: seq<Leg>, legs': seq<Leg>, a: AccountRef)
    requires OwnText(legs, a) == OwnText(legs', a)
    ensures multiset(OwnAmounts(legs, a)) == multiset(OwnAmounts(legs', a))
  {
    EqualOwnTexts(legs, legs', a);
    forall x ensures multiset(OwnAmounts(legs, a))[x] == multiset(OwnAmounts(legs', a))[x] {
      TextCountsAmounts(legs, a, x);
      TextCountsAmounts(legs', a, x);
    }
  }

  // ---- The chain preimage ---------------------------------------------------------

  function ChainFrames(prev: seq<Byte>, txnId: string, account: AccountRef, legs: seq<Leg>,
      meta: string): seq<seq<Byte>>
  {
    [prev, Utf8(txnId), Utf8(OwnText(legs, account)), Utf8(meta)]
  }

  function ChainPreimage(prev: seq<Byte>, txnId: string, account: AccountRef, legs: seq<Leg>, meta: string): seq<Byte> {
    Framed(ChainFrames(prev, txnId, account, legs, meta))
  }

  /**
   Two postings hash the same bytes onto the same account only if they follow the same head, carry
   the same id and metadata, and move the account by the same amounts.
   */
  lemma ChainPreimageInjective(prev: seq<Byte>, txnId: string, legs: seq<Leg>, meta: string,
                               prev': seq<Byte>, txnId': string, legs': seq<Leg>, meta': string, account: AccountRef)
    requires FramesFit(ChainFrames(prev, txnId, account, legs, meta))
    requires FramesFit(ChainFrames(prev', txnId', account, legs', meta'))
    requires ChainPreimage(prev, txnId, account, legs, meta) == ChainPreimage(prev', txnId', account, legs', meta')
    ensures prev == prev' && txnId == txnId' && meta == meta'
    ensures OwnText(legs, account) == OwnText(legs', account)
    ensures multiset(OwnAmounts(legs, account)) == multiset(OwnAmounts(legs', account))
  {
    var fs := ChainFrames(prev, txnId, account, legs, meta);
    var gs := ChainFrames(prev', txnId', account, legs', meta');
    FramedInjective(fs, gs);
    assert fs[0] == gs[0] && fs[1] == gs[1] && fs[2] == gs[2] && fs[3] == gs[3];
    Utf8Injective(txnId, txnId');
    Utf8Injective(OwnText(legs, account), OwnText(legs', account));
    Utf8Injective(meta, meta');
    OwnTextDeterminesAmounts(legs, legs', account);
  }

  /** And the other way: reordering a posting's legs never changes what is hashed. */
  lemma ChainPreimageIgnoresLegOrder(prev: seq<Byte>, txnId: string, legs: seq<Leg>, legs': seq<Leg>, meta: string,
      account: AccountRef)
    requires multiset(OwnTexts(legs, account)) == multiset(OwnTexts(legs', account))
    ensures ChainPreimage(prev, txnId, account, legs, meta) == ChainPreimage(prev, txnId, account, legs', meta)
  {
    SortOrderIndependent(OwnTexts(legs, account), OwnTexts(legs', account), (x: string) => x);
  }

  /** Byte by byte: the head, the id, the account's own amounts and the metadata, each behind its length. */
  lemma ChainLayout(prev: seq<Byte>, txnId: string, account: AccountRef, legs: seq<Leg>, meta: string)
    ensures var id, own, data := Utf8(txnId), Utf8(OwnText(legs, account)), Utf8(meta);
      ChainPreimage(prev, txnId, account, legs, meta) ==
        BigEndian4(|prev|) + prev + BigEndian4(|id|) + id + BigEndian4(|own|) + own + BigEndian4(|data|) + data
  {
    hide OwnText, Utf8, BigEndian4;
    var id, own, data := Utf8(txnId), Utf8(OwnText(legs, account)), Utf8(meta);
    assert ChainFrames(prev, txnId, account, legs, meta) == [prev, id, own, data];
    FramedSnoc([], prev);
    FramedSnoc([prev], id);
    FramedSnoc([prev, id], own);
    FramedSnoc([prev, id, own], data);
    assert [] + [prev] == [prev] && [prev] + [id] == [prev, id] && [prev, id] + [own] == [prev, id, own];
    assert [prev, id, own] + [data] == [prev, id, own, data];
    assert [] + BigEndian4(|prev|) + prev == BigEndian4(|prev|) + prev;
  }

  lemma FramedSnoc(frames: seq<seq<Byte>>, f: seq<Byte>)
    ensures Framed(frames + [f]) == Framed(frames) + BigEndian4(|f|) + f
  {
    assert (frames + [f])[..|frames|] == frames;
  }

  /** A length's bytes, most significant first. */
  lemma LengthSays(n: nat)
    requires n < 0x1_0000_0000
    ensures var b := BigEndian4(n);
      n == ((b[0] as int * 256 + b[1] as int) * 256 + b[2] as int) * 256 + b[3] as int
  {
    BigEndian4RoundTrip(n);
  }
}
