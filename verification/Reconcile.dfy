/**
 The reconciler (src/reconcile.ts): processor records against ledger records, matched per key
 oldest-first. The buckets it consumes are mutable; what it computes is, per key, two sequences of
 amounts held side by side.
 */
module Reconcile {
  import opened Money
  import opened Text

  datatype Kind = Buy | Payout

  /** A settled event on either side; `at` is when it settled or was posted. */
  datatype Record = Record(kind: Kind, matchKey: string, amount: Amount, at: int)

  datatype Key = Key(kind: Kind, matchKey: string)

  function KeyOf(r: Record): Key {
    Key(r.kind, r.matchKey)
  }

  function KeyText(k: Key): string {
    (match k.kind case Buy => "buy" case Payout => "payout") + ":" + k.matchKey
  }

  /** The text the code indexes by determines the kind and the key. */
  lemma KeyTextDetermines(k: Key, l: Key)
    requires KeyText(k) == KeyText(l)
    ensures k == l
  {
    var s := KeyText(k);
    assert s[0] == KeyText(l)[0];
    if k.kind.Buy? {
      assert s[4..] == k.matchKey && KeyText(l)[4..] == l.matchKey;
    } else {
      assert s[7..] == k.matchKey && KeyText(l)[7..] == l.matchKey;
    }
  }

  // ---- The window ----------------------------------------------------------------------

  datatype Range = Range(from: int, to: int)

  /** Half-open: a record exactly on `to` belongs to the next window. */
  function WithinWindow(records: seq<Record>, window: Range): seq<Record> {
    if records == [] then []
    else
      var last := records[|records| - 1];
      WithinWindow(records[..|records| - 1], window) + if window.from <= last.at < window.to then [last] else []
  }

  /** `kept` is the records at those positions, which are in order and exactly the ones inside the window. */
  ghost predicate KeptAt(kept: seq<Record>, records: seq<Record>, window: Range, at: seq<nat>) {
    && |at| == |kept| && (forall i, j :: 0 <= i < j < |at| ==> at[i] < at[j])
    && (forall i :: 0 <= i < |at| ==> at[i] < |records| && kept[i] == records[at[i]])
    && forall k: nat :: k < |records| ==> (k in at <==> window.from <= records[k].at && records[k].at < window.to)
  }

  /** A record is kept exactly if it lies in the half-open window; order and multiplicity stay. */
  lemma {:induction false} WindowKeeps(records: seq<Record>, window: Range) returns (at: seq<nat>)
    ensures KeptAt(WithinWindow(records, window), records, window, at)
  {
    at := [];
    if records != [] {
      var n := |records| - 1;
      at := WindowKeeps(records[..n], window);
      assert forall k: nat :: k < n ==> records[..n][k] == records[k];
      if window.from <= records[n].at < window.to {
        at := at + [n];
      }
    }
  }

  /** The records of one key, in order. */
  function InKey(records: seq<Record>, k: Key): seq<Record> {
    if records == [] then []
    else
      var last := records[|records| - 1];
      InKey(records[..|records| - 1], k) + if KeyOf(last) == k then [last] else []
  }

  function AmountsOf(records: seq<Record>): seq<Amount> {
    seq(|records|, i requires 0 <= i < |records| => records[i].amount)
  }

  // ---- What the matcher computes -------------------------------------------------------

  datatype Discrepancy =
    | ProcessorOrphan(processor: Record)
    | LedgerOrphan(ledger: Record)
    | AmountDrift(processor: Record, ledger: Record)

  /** The ledger record the k-th processor record meets: as many into its key's bucket as came before it. */
  function Counterpart(processor: seq<Record>, ledger: seq<Record>, k: nat): Option<Record>
    requires k < |processor|
  {
    var key := KeyOf(processor[k]);
    var before := |InKey(processor[..k], key)|;
    if before < |InKey(ledger, key)| then Some(InKey(ledger, key)[before]) else None
  }

  function Verdict(r: Record, counterpart: Option<Record>): seq<Discrepancy> {
    match counterpart
    case None => [ProcessorOrphan(r)]
    case Some(l) => if r.amount == l.amount then [] else [AmountDrift(r, l)]
  }

  function ProcessorSide(processor: seq<Record>, ledger: seq<Record>, k: nat): seq<Discrepancy>
    requires k <= |processor|
  {
    if k == 0 then []
    else ProcessorSide(processor, ledger, k - 1) + Verdict(processor[k - 1], Counterpart(processor, ledger, k - 1))
  }

  function MatchedCount(processor: seq<Record>, ledger: seq<Record>, k: nat): nat
    requires k <= |processor|
  {
    if k == 0 then 0
    else
      MatchedCount(processor, ledger, k - 1)
      + if Verdict(processor[k - 1], Counterpart(processor, ledger, k - 1)) == [] then 1 else 0
  }

  function Drop<T>(xs: seq<T>, n: nat): seq<T> {
    if n < |xs| then xs[n..] else []
  }

  /** What is left of a key's ledger records once the processor's have consumed theirs. */
  function LeftOver(processor: seq<Record>, ledger: seq<Record>, k: Key): seq<Record> {
    Drop(InKey(ledger, k), |InKey(processor, k)|)
  }

  function Orphans(records: seq<Record>): seq<Discrepancy> {
    seq(|records|, i requires 0 <= i < |records| => LedgerOrphan(records[i]))
  }

  /** Keys in first-seen order: the map's iteration order. */
  function KeyOrder(ledger: seq<Record>): seq<Key> {
    if ledger == [] then []
    else
      var before := KeyOrder(ledger[..|ledger| - 1]);
      var key := KeyOf(ledger[|ledger| - 1]);
      if key in before then before else before + [key]
  }

  function LedgerSide(processor: seq<Record>, ledger: seq<Record>, order: seq<Key>): seq<Discrepancy> {
    if order == [] then []
    else
      LedgerSide(processor, ledger, order[..|order| - 1]) +
      Orphans(LeftOver(processor, ledger, order[|order| - 1]))
  }

  function Discrepancies(processor: seq<Record>, ledger: seq<Record>): seq<Discrepancy> {
    ProcessorSide(processor, ledger, |processor|) + LedgerSide(processor, ledger, KeyOrder(ledger))
  }

  // ---- The report's order --------------------------------------------------------------

  function KindText(d: Discrepancy): string {
    match d
    case ProcessorOrphan(_) => "processor_orphan"
    case LedgerOrphan(_) => "ledger_orphan"
    case AmountDrift(_, _) => "amount_drift"
  }

  function RecordOf(d: Discrepancy): Record {
    if d.LedgerOrphan? then d.ledger else d.processor
  }

  function RecordKindText(d: Discrepancy): string {
    match RecordOf(d).kind
    case Buy => "buy"
    case Payout => "payout"
  }

  predicate Before(a: Discrepancy, b: Discrepancy) {
    || Less(KindText(a), KindText(b))
    || (KindText(a) == KindText(b) &&
        (|| Less(RecordOf(a).matchKey, RecordOf(b).matchKey)
         || (RecordOf(a).matchKey == RecordOf(b).matchKey && Less(RecordKindText(a), RecordKindText(b)))))
  }

  function Insert(d: Discrepancy, sorted: seq<Discrepancy>): (r: seq<Discrepancy>)
    ensures multiset(r) == multiset([d]) + multiset(sorted)
  {
    if sorted == [] then [d]
    else if Before(sorted[0], d) then
      assert sorted == [sorted[0]] + sorted[1..];
      [sorted[0]] + Insert(d, sorted[1..])
    else [d] + sorted
  }

  function Sorted(ds: seq<Discrepancy>): (r: seq<Discrepancy>)
    ensures multiset(r) == multiset(ds)
  {
    if ds == [] then []
    else
      assert ds == [ds[0]] + ds[1..];
      Insert(ds[0], Sorted(ds[1..]))
  }

  // ---- The loops ------------------------------------------------------------------------

  type Buckets = map<Key, seq<Record>>

  function BucketOf(buckets: Buckets, k: Key): seq<Record> {
    if k in buckets then buckets[k] else []
  }

  lemma KnownOrNone(buckets: Buckets, k: Key)
    ensures k !in buckets ==> BucketOf(buckets, k) == []
    ensures BucketOf(buckets, k) != [] ==> k in buckets
  {
  }

  lemma WithBucket(buckets: Buckets, k: Key, bucket: seq<Record>)
    ensures BucketOf(buckets[k := bucket], k) == bucket
    ensures forall l :: l != k ==> BucketOf(buckets[k := bucket], l) == BucketOf(buckets, l)
  {
  }

  function BucketTotal(buckets: Buckets, order: seq<Key>): nat {
    if order == [] then 0 else BucketTotal(buckets, order[..|order| - 1]) + |BucketOf(buckets, order[|order| - 1])|
  }

  ghost predicate Ordered(order: seq<Key>, buckets: Buckets) {
    && (forall i, j :: 0 <= i < j < |order| ==> order[i] != order[j])
    && forall k :: k in buckets <==> k in order
  }

  lemma {:induction false} OneBucket(buckets: Buckets, order: seq<Key>, k: Key, bucket: seq<Record>)
    requires forall i, j :: 0 <= i < j < |order| ==> order[i] != order[j]
    ensures BucketTotal(buckets[k := bucket], order) ==
      BucketTotal(buckets, order) + if k in order then |bucket| - |BucketOf(buckets, k)| else 0
  {
    if order != [] {
      var n := |order| - 1;
      OneBucket(buckets, order[..n], k, bucket);
      assert order == order[..n] + [order[n]];
      if order[n] == k {
        assert k !in order[..n];
      }
    }
  }

  lemma InKeyStep(records: seq<Record>, n: nat)
    requires n < |records|
    ensures InKey(records[..n + 1], KeyOf(records[n])) == InKey(records[..n], KeyOf(records[n])) + [records[n]]
    ensures forall k :: k != KeyOf(records[n]) ==> InKey(records[..n + 1], k) == InKey(records[..n], k)
  {
    PrefixStep(records, n);
  }

  /** The next processor record takes the head of its key's left-over bucket, if there is one. */
  lemma LeftOverStep(processor: seq<Record>, ledger: seq<Record>, n: nat)
    requires n < |processor|
    ensures var key := KeyOf(processor[n]); var bucket := LeftOver(processor[..n], ledger, key);
      && LeftOver(processor[..n + 1], ledger, key) == (if bucket == [] then [] else bucket[1..])
      && Counterpart(processor, ledger, n) == if bucket == [] then None else Some(bucket[0])
    ensures forall k :: k != KeyOf(processor[n]) ==>
      LeftOver(processor[..n + 1], ledger, k) == LeftOver(processor[..n], ledger, k)
  {
    hide InKey;
    InKeyStep(processor, n);
  }

  lemma NothingConsumed(ledger: seq<Record>)
    ensures forall k :: LeftOver([], ledger, k) == InKey(ledger, k)
  {
  }

  lemma ConcatEmpty<T>(xs: seq<T>, ys: seq<T>)
    ensures xs + ys == [] <==> xs == [] && ys == []
  {
    assert |xs + ys| == |xs| + |ys|;
  }

  lemma OrderStep(ledger: seq<Record>, n: nat)
    requires n < |ledger|
    ensures var before := KeyOrder(ledger[..n]); var key := KeyOf(ledger[n]);
      KeyOrder(ledger[..n + 1]) == if key in before then before else before + [key]
  {
    PrefixStep(ledger, n);
  }

  lemma TotalSnoc(buckets: Buckets, order: seq<Key>, k: Key)
    ensures BucketTotal(buckets, order + [k]) == BucketTotal(buckets, order) + |BucketOf(buckets, k)|
  {
    assert (order + [k])[..|order|] == order;
  }

  /** Every ledger record, per key, in first-seen order. */
  method IndexByKey(ledger: seq<Record>) returns (order: seq<Key>, buckets: Buckets)
    ensures order == KeyOrder(ledger) && Ordered(order, buckets)
    ensures forall k :: BucketOf(buckets, k) == InKey(ledger, k)
    ensures BucketTotal(buckets, order) == |ledger|
  {
    hide InKey, KeyOrder, BucketTotal, BucketOf;
    order, buckets := [], map[];
    NothingIndexed();
    for n := 0 to |ledger|
      invariant order == KeyOrder(ledger[..n]) && Ordered(order, buckets)
      invariant forall k :: BucketOf(buckets, k) == InKey(ledger[..n], k)
      invariant BucketTotal(buckets, order) == n
    {
      InKeyStep(ledger, n);
      OrderStep(ledger, n);
      var key := KeyOf(ledger[n]);
      var bucket := BucketOf(buckets, key) + [ledger[n]];
      OneBucket(buckets, order, key, bucket);
      KnownOrNone(buckets, key);
      if key !in buckets {
        TotalSnoc(buckets[key := bucket], order, key);
        order := order + [key];
      }
      WithBucket(buckets, key, bucket);
      ghost var before := buckets;
      buckets := buckets[key := bucket];
      forall k | k != key ensures BucketOf(buckets, k) == InKey(ledger[..n + 1], k) {
        assert BucketOf(before, k) == InKey(ledger[..n], k);
      }
    }
    assert ledger[..|ledger|] == ledger;
  }

  lemma NothingIndexed()
    ensures KeyOrder([]) == [] && BucketTotal(map[], []) == 0
    ensures forall k :: InKey([], k) == [] && BucketOf(map[], k) == []
  {
  }

  /** Pairs each processor record with the oldest unconsumed ledger record of its key. */
  method MatchProcessorSide(processor: seq<Record>, ledger: seq<Record>, order: seq<Key>, index: Buckets)
    returns (matched: nat, found: seq<Discrepancy>, remaining: Buckets, ghost paired: nat)
    requires order == KeyOrder(ledger) && Ordered(order, index) && BucketTotal(index, order) == |ledger|
    requires forall k :: BucketOf(index, k) == InKey(ledger, k)
    ensures matched == MatchedCount(processor, ledger, |processor|)
      && found == ProcessorSide(processor, ledger, |processor|)
    ensures Ordered(order, remaining)
    ensures forall k :: BucketOf(remaining, k) == LeftOver(processor, ledger, k)
    ensures BucketTotal(remaining, order) + paired == |ledger|
    ensures paired == matched + CountDrifts(found) && |processor| == paired + CountProcessorOrphans(found)
  {
    hide InKey, KeyOrder, BucketTotal, BucketOf, LeftOver, Counterpart, CountDrifts, CountProcessorOrphans,
      CountLedgerOrphans;
    matched, found, remaining, paired := 0, [], index, 0;
    NothingConsumed(ledger);
    NothingCounted();
    assert processor[..0] == [];
    for n := 0 to |processor|
      invariant matched == MatchedCount(processor, ledger, n) && found == ProcessorSide(processor, ledger, n)
      invariant Ordered(order, remaining)
      invariant forall k :: BucketOf(remaining, k) == LeftOver(processor[..n], ledger, k)
      invariant BucketTotal(remaining, order) + paired == |ledger|
      invariant paired == matched + CountDrifts(found) && n == paired + CountProcessorOrphans(found)
    {
      LeftOverStep(processor, ledger, n);
      var record, key := processor[n], KeyOf(processor[n]);
      var bucket := BucketOf(remaining, key);
      KnownOrNone(remaining, key);
      ghost var before := remaining;
      if bucket == [] {
        CountSnoc(found, ProcessorOrphan(record));
        found := found + [ProcessorOrphan(record)];
      } else {
        var counterpart := bucket[0];
        OneBucket(remaining, order, key, bucket[1..]);
        WithBucket(remaining, key, bucket[1..]);
        remaining := remaining[key := bucket[1..]];
        paired := paired + 1;
        if record.amount == counterpart.amount {
          matched := matched + 1;
          assert found == found + [];
        } else {
          CountSnoc(found, AmountDrift(record, counterpart));
          found := found + [AmountDrift(record, counterpart)];
        }
      }
      forall k | k != key ensures BucketOf(remaining, k) == LeftOver(processor[..n + 1], ledger, k) {
        assert BucketOf(before, k) == LeftOver(processor[..n], ledger, k);
      }
    }
    assert processor[..|processor|] == processor;
  }

  function CountDrifts(ds: seq<Discrepancy>): nat {
    if ds == [] then 0 else CountDrifts(ds[..|ds| - 1]) + if ds[|ds| - 1].AmountDrift? then 1 else 0
  }

  function CountProcessorOrphans(ds: seq<Discrepancy>): nat {
    if ds == [] then 0 else CountProcessorOrphans(ds[..|ds| - 1]) + if ds[|ds| - 1].ProcessorOrphan? then 1 else 0
  }

  function CountLedgerOrphans(ds: seq<Discrepancy>): nat {
    if ds == [] then 0 else CountLedgerOrphans(ds[..|ds| - 1]) + if ds[|ds| - 1].LedgerOrphan? then 1 else 0
  }

  lemma NothingCounted()
    ensures CountDrifts([]) == 0 && CountProcessorOrphans([]) == 0 && CountLedgerOrphans([]) == 0
  {
  }

  lemma CountSnoc(ds: seq<Discrepancy>, d: Discrepancy)
    ensures CountDrifts(ds + [d]) == CountDrifts(ds) + if d.AmountDrift? then 1 else 0
    ensures CountProcessorOrphans(ds + [d]) == CountProcessorOrphans(ds) + if d.ProcessorOrphan? then 1 else 0
    ensures CountLedgerOrphans(ds + [d]) == CountLedgerOrphans(ds) + if d.LedgerOrphan? then 1 else 0
  {
    assert (ds + [d])[..|ds|] == ds;
  }

  method AppendOrphans(found: seq<Discrepancy>, bucket: seq<Record>) returns (all: seq<Discrepancy>)
    ensures all == found + Orphans(bucket)
    ensures CountDrifts(all) == CountDrifts(found) && CountProcessorOrphans(all) == CountProcessorOrphans(found)
    ensures CountLedgerOrphans(all) == CountLedgerOrphans(found) + |bucket|
  {
    hide CountDrifts, CountProcessorOrphans, CountLedgerOrphans;
    all := found;
    for i := 0 to |bucket|
      invariant all == found + Orphans(bucket[..i])
      invariant CountDrifts(all) == CountDrifts(found) && CountProcessorOrphans(all) == CountProcessorOrphans(found)
      invariant CountLedgerOrphans(all) == CountLedgerOrphans(found) + i
    {
      OrphansStep(bucket, i);
      CountSnoc(all, LedgerOrphan(bucket[i]));
      all := all + [LedgerOrphan(bucket[i])];
    }
    assert bucket[..|bucket|] == bucket;
  }

  lemma OrphansStep(bucket: seq<Record>, i: nat)
    requires i < |bucket|
    ensures Orphans(bucket[..i + 1]) == Orphans(bucket[..i]) + [LedgerOrphan(bucket[i])]
  {
  }

  lemma LedgerSideStep(processor: seq<Record>, ledger: seq<Record>, order: seq<Key>, n: nat, remaining: Buckets)
    requires n < |order|
    ensures LedgerSide(processor, ledger, order[..n + 1]) == LedgerSide(processor, ledger, order[..n])
      + Orphans(LeftOver(processor, ledger, order[n]))
    ensures BucketTotal(remaining, order[..n + 1]) == BucketTotal(remaining, order[..n])
      + |BucketOf(remaining, order[n])|
  {
    PrefixStep(order, n);
  }

  /** What no processor record consumed. */
  method CollectLedgerOrphans(processor: seq<Record>, ledger: seq<Record>, order: seq<Key>, remaining: Buckets,
      found: seq<Discrepancy>)
    returns (all: seq<Discrepancy>)
    requires forall k :: BucketOf(remaining, k) == LeftOver(processor, ledger, k)
    ensures all == found + LedgerSide(processor, ledger, order)
    ensures CountDrifts(all) == CountDrifts(found) && CountProcessorOrphans(all) == CountProcessorOrphans(found)
    ensures CountLedgerOrphans(all) == CountLedgerOrphans(found) + BucketTotal(remaining, order)
  {
    hide LeftOver, Orphans, BucketOf, CountDrifts, CountProcessorOrphans, CountLedgerOrphans;
    all := found;
    assert order[..0] == [] && found + [] == found;
    for n := 0 to |order|
      invariant all == found + LedgerSide(processor, ledger, order[..n])
      invariant CountDrifts(all) == CountDrifts(found) && CountProcessorOrphans(all) == CountProcessorOrphans(found)
      invariant CountLedgerOrphans(all) == CountLedgerOrphans(found) + BucketTotal(remaining, order[..n])
    {
      LedgerSideStep(processor, ledger, order, n, remaining);
      all := AppendOrphans(all, BucketOf(remaining, order[n]));
    }
    assert order[..|order|] == order;
  }

  datatype Report = Report(
    reconciled: bool, matched: nat, processorCount: nat, ledgerCount: nat,
    processorOrphans: nat, ledgerOrphans: nat, amountDrifts: nat, discrepancies: seq<Discrepancy>)

  datatype Outcome = Reported(report: Report) | AccountingMismatch

  lemma {:induction false} InsertCounts(d: Discrepancy, sorted: seq<Discrepancy>)
    ensures CountDrifts(Insert(d, sorted)) == CountDrifts([d]) + CountDrifts(sorted)
    ensures CountProcessorOrphans(Insert(d, sorted)) == CountProcessorOrphans([d]) + CountProcessorOrphans(sorted)
    ensures CountLedgerOrphans(Insert(d, sorted)) == CountLedgerOrphans([d]) + CountLedgerOrphans(sorted)
  {
    if sorted == [] {
    } else if Before(sorted[0], d) {
      InsertCounts(d, sorted[1..]);
      CountConcat([sorted[0]], Insert(d, sorted[1..]));
      CountConcat([sorted[0]], sorted[1..]);
      assert sorted == [sorted[0]] + sorted[1..];
    } else {
      CountConcat([d], sorted);
    }
  }

  lemma {:induction false} CountConcat(xs: seq<Discrepancy>, ys: seq<Discrepancy>)
    ensures CountDrifts(xs + ys) == CountDrifts(xs) + CountDrifts(ys)
    ensures CountProcessorOrphans(xs + ys) == CountProcessorOrphans(xs) + CountProcessorOrphans(ys)
    ensures CountLedgerOrphans(xs + ys) == CountLedgerOrphans(xs) + CountLedgerOrphans(ys)
  {
    if ys == [] {
      assert xs + ys == xs;
    } else {
      CountConcat(xs, ys[..|ys| - 1]);
      assert (xs + ys)[..|xs + ys| - 1] == xs + ys[..|ys| - 1];
    }
  }

  lemma {:induction false} SortedCounts(ds: seq<Discrepancy>)
    ensures CountDrifts(Sorted(ds)) == CountDrifts(ds)
    ensures CountProcessorOrphans(Sorted(ds)) == CountProcessorOrphans(ds)
    ensures CountLedgerOrphans(Sorted(ds)) == CountLedgerOrphans(ds)
  {
    if ds != [] {
      SortedCounts(ds[1..]);
      InsertCounts(ds[0], Sorted(ds[1..]));
      CountConcat([ds[0]], ds[1..]);
      assert ds == [ds[0]] + ds[1..];
    }
  }

  /**
   One window reconciled. The internal accounting check never fires, whatever the input; the report
   lists exactly the discrepancies of the in-window records; and it is reconciled exactly when every
   key's in-window amounts are the same sequence on both sides.
   */
  method ReconcileWindow(window: Range, processorInput: seq<Record>, ledgerInput: seq<Record>) returns (r: Outcome)
    ensures r.Reported?
    ensures var processor, ledger := WithinWindow(processorInput, window), WithinWindow(ledgerInput, window);
      && multiset(r.report.discrepancies) == multiset(Discrepancies(processor, ledger))
      && r.report.matched == MatchedCount(processor, ledger, |processor|)
      && r.report.matched + r.report.amountDrifts + r.report.processorOrphans == r.report.processorCount == |processor|
      && r.report.matched + r.report.amountDrifts + r.report.ledgerOrphans == r.report.ledgerCount == |ledger|
      && (r.report.reconciled <==> SameAmounts(processor, ledger))
      && (forall d :: d in r.report.discrepancies <==> IsDiscrepancy(processor, ledger, d))
      && (forall i, j :: 0 <= i < j < |r.report.discrepancies| ==>
            ByKindThenKey(r.report.discrepancies[i], r.report.discrepancies[j]))
  {
    hide InKey, KeyOrder, BucketTotal, LedgerSide, ProcessorSide, MatchedCount, WithinWindow, IsDiscrepancy,
      ByKindThenKey;
    var processor, ledger := WithinWindow(processorInput, window), WithinWindow(ledgerInput, window);
    var order, index := IndexByKey(ledger);
    ghost var paired: nat;
    var matched, found, remaining;
    matched, found, remaining, paired := MatchProcessorSide(processor, ledger, order, index);
    var all := CollectLedgerOrphans(processor, ledger, order, remaining, found);
    NoLedgerOrphansYet(processor, ledger, |processor|);
    var sorted := Sorted(all);
    SortedCounts(all);
    EmptyOrNot(sorted, all);
    SortedSays(processor, ledger, sorted);
    ReconciledMeansSameAmounts(processor, ledger);
    var drifts, processorOrphans, ledgerOrphans :=
      CountDrifts(sorted), CountProcessorOrphans(sorted), CountLedgerOrphans(sorted);
    if matched + drifts + processorOrphans != |processor| || matched + drifts + ledgerOrphans != |ledger| {
      return AccountingMismatch;
    }
    return Reported(Report(sorted == [], matched, |processor|, |ledger|, processorOrphans, ledgerOrphans, drifts,
      sorted));
  }

  lemma SortedSays(processor: seq<Record>, ledger: seq<Record>, sorted: seq<Discrepancy>)
    requires sorted == Sorted(Discrepancies(processor, ledger))
    ensures forall d :: d in sorted <==> IsDiscrepancy(processor, ledger, d)
    ensures forall i, j :: 0 <= i < j < |sorted| ==> ByKindThenKey(sorted[i], sorted[j])
  {
    hide IsDiscrepancy, Discrepancies, ByKindThenKey, Before, Sorted;
    var found := Discrepancies(processor, ledger);
    assert multiset(sorted) == multiset(found);
    forall d ensures d in sorted <==> IsDiscrepancy(processor, ledger, d) {
      assert d in sorted <==> d in multiset(sorted);
      assert d in found <==> d in multiset(found);
      DiscrepanciesAre(processor, ledger, d);
    }
    SortedInOrder(found);
    forall i, j | 0 <= i < j < |sorted| ensures ByKindThenKey(sorted[i], sorted[j]) {
      OrderMeans(sorted[i], sorted[j]);
    }
  }

  lemma EmptyOrNot(xs: seq<Discrepancy>, ys: seq<Discrepancy>)
    requires multiset(xs) == multiset(ys)
    ensures xs == [] <==> ys == []
  {
    assert |xs| == |multiset(xs)| && |ys| == |multiset(ys)|;
  }

  lemma {:induction false} NoLedgerOrphansYet(processor: seq<Record>, ledger: seq<Record>, k: nat)
    requires k <= |processor|
    ensures CountLedgerOrphans(ProcessorSide(processor, ledger, k)) == 0
  {
    hide CountLedgerOrphans, CountDrifts, CountProcessorOrphans, Counterpart, Verdict;
    NothingCounted();
    if k > 0 {
      NoLedgerOrphansYet(processor, ledger, k - 1);
      VerdictAdds(ProcessorSide(processor, ledger, k - 1), processor[k - 1], Counterpart(processor, ledger, k - 1));
    }
  }

  lemma VerdictAdds(before: seq<Discrepancy>, r: Record, counterpart: Option<Record>)
    ensures CountLedgerOrphans(before + Verdict(r, counterpart)) == CountLedgerOrphans(before)
  {
    hide CountLedgerOrphans, CountDrifts, CountProcessorOrphans;
    var more := Verdict(r, counterpart);
    if more == [] {
      assert before + more == before;
    } else {
      CountSnoc(before, more[0]);
      assert more == [more[0]];
    }
  }

  // ---- When it reconciles -----------------------------------------------------------------

  /** For every kind and key, the same amounts in the same order on both sides. */
  ghost predicate SameAmounts(processor: seq<Record>, ledger: seq<Record>) {
    forall k :: AmountsOf(InKey(processor, k)) == AmountsOf(InKey(ledger, k))
  }

  /** The k-th record of the input is the next one of its key. */
  lemma {:induction false} NextOfKey(records: seq<Record>, k: nat, n: nat)
    requires k < n <= |records|
    ensures var key := KeyOf(records[k]); var at := |InKey(records[..k], key)|;
      at < |InKey(records[..n], key)| && InKey(records[..n], key)[at] == records[k]
    decreases n
  {
    InKeyStep(records, n - 1);
    if k < n - 1 {
      NextOfKey(records, k, n - 1);
    }
  }

  /** And every position of a key comes from some record of the input. */
  lemma {:induction false} FromSomeRecord(records: seq<Record>, key: Key, at: nat, n: nat) returns (k: nat)
    requires n <= |records| && at < |InKey(records[..n], key)|
    ensures k < n && KeyOf(records[k]) == key && |InKey(records[..k], key)| == at
    decreases n
  {
    assert records[..0] == [];
    InKeyStep(records, n - 1);
    if at < |InKey(records[..n - 1], key)| {
      k := FromSomeRecord(records, key, at, n - 1);
    } else {
      k := n - 1;
    }
  }

  /** Record k met a ledger record of the same amount. */
  predicate Met(processor: seq<Record>, ledger: seq<Record>, k: nat)
    requires k < |processor|
  {
    Verdict(processor[k], Counterpart(processor, ledger, k)) == []
  }

  lemma {:induction false} NoneFoundMeansAllMet(processor: seq<Record>, ledger: seq<Record>, n: nat)
    requires n <= |processor|
    ensures ProcessorSide(processor, ledger, n) == [] <==> forall k :: 0 <= k < n ==> Met(processor, ledger, k)
  {
    hide Verdict, Counterpart;
    if n > 0 {
      NoneFoundMeansAllMet(processor, ledger, n - 1);
      ConcatEmpty(ProcessorSide(processor, ledger, n - 1),
        Verdict(processor[n - 1], Counterpart(processor, ledger, n - 1)));
      assert Met(processor, ledger, n - 1) <==> Verdict(processor[n - 1], Counterpart(processor, ledger, n - 1)) == [];
    }
  }

  lemma NothingLeft(processor: seq<Record>, ledger: seq<Record>, k: Key)
    ensures Orphans(LeftOver(processor, ledger, k)) == [] <==> |InKey(ledger, k)| <= |InKey(processor, k)|
  {
    var left := LeftOver(processor, ledger, k);
    assert |Orphans(left)| == |left|;
    assert |left| == 0 <==> |InKey(ledger, k)| <= |InKey(processor, k)|;
  }

  lemma {:induction false} NoneLeftMeansAllConsumed(processor: seq<Record>, ledger: seq<Record>, order: seq<Key>)
    ensures LedgerSide(processor, ledger, order) == [] <==> forall k :: k in order ==>
      |InKey(ledger, k)| <= |InKey(processor, k)|
  {
    hide InKey, LeftOver, Orphans;
    if order != [] {
      var n := |order| - 1;
      NoneLeftMeansAllConsumed(processor, ledger, order[..n]);
      ConcatEmpty(LedgerSide(processor, ledger, order[..n]), Orphans(LeftOver(processor, ledger, order[n])));
      NothingLeft(processor, ledger, order[n]);
      assert order == order[..n] + [order[n]];
    }
  }

  lemma {:induction false} UnseenKeyIsEmpty(ledger: seq<Record>, k: Key)
    ensures k !in KeyOrder(ledger) ==> InKey(ledger, k) == []
  {
    if ledger != [] {
      UnseenKeyIsEmpty(ledger[..|ledger| - 1], k);
    }
  }

  lemma MetMeans(processor: seq<Record>, ledger: seq<Record>, k: nat)
    requires k < |processor|
    ensures var key := KeyOf(processor[k]); var at := |InKey(processor[..k], key)|;
      Met(processor, ledger, k) <==> at < |InKey(ledger, key)| && InKey(ledger, key)[at].amount == processor[k].amount
  {
    hide InKey;
  }

  lemma OneMet(processor: seq<Record>, ledger: seq<Record>, key: Key, at: nat)
    requires forall k :: 0 <= k < |processor| ==> Met(processor, ledger, k)
    requires at < |InKey(processor, key)|
    ensures at < |InKey(ledger, key)| && InKey(processor, key)[at].amount == InKey(ledger, key)[at].amount
  {
    hide InKey, Met;
    assert processor[..|processor|] == processor;
    var k := FromSomeRecord(processor, key, at, |processor|);
    NextOfKey(processor, k, |processor|);
    MetMeans(processor, ledger, k);
  }

  lemma AllMetMeansSame(processor: seq<Record>, ledger: seq<Record>, key: Key)
    requires forall k :: 0 <= k < |processor| ==> Met(processor, ledger, k)
    requires |InKey(ledger, key)| <= |InKey(processor, key)|
    ensures AmountsOf(InKey(processor, key)) == AmountsOf(InKey(ledger, key))
  {
    hide InKey, Met;
    var p, l := InKey(processor, key), InKey(ledger, key);
    forall at: nat | at < |p| ensures at < |l| && p[at].amount == l[at].amount {
      OneMet(processor, ledger, key, at);
    }
    assert |p| == |l| by {
      if |p| > 0 {
        OneMet(processor, ledger, key, |p| - 1);
      }
    }
  }

  lemma SameMeansMet(processor: seq<Record>, ledger: seq<Record>, k: nat)
    requires k < |processor| && SameAmounts(processor, ledger)
    ensures Met(processor, ledger, k)
  {
    hide InKey, Met;
    MetMeans(processor, ledger, k);
    var key := KeyOf(processor[k]);
    NextOfKey(processor, k, |processor|);
    assert processor[..|processor|] == processor;
    var at := |InKey(processor[..k], key)|;
    assert AmountsOf(InKey(processor, key)) == AmountsOf(InKey(ledger, key));
    assert AmountsOf(InKey(processor, key))[at] == AmountsOf(InKey(ledger, key))[at];
  }

  /** No discrepancy at all, exactly when both sides carry the same amounts per key, in order. */
  lemma ReconciledMeansSameAmounts(processor: seq<Record>, ledger: seq<Record>)
    ensures Discrepancies(processor, ledger) == [] <==> SameAmounts(processor, ledger)
  {
    hide InKey, Met, AmountsOf;
    var order := KeyOrder(ledger);
    NoneFoundMeansAllMet(processor, ledger, |processor|);
    NoneLeftMeansAllConsumed(processor, ledger, order);
    if Discrepancies(processor, ledger) == [] {
      forall k ensures AmountsOf(InKey(processor, k)) == AmountsOf(InKey(ledger, k)) {
        UnseenKeyIsEmpty(ledger, k);
        AllMetMeansSame(processor, ledger, k);
      }
    }
    if SameAmounts(processor, ledger) {
      forall k | 0 <= k < |processor| ensures Met(processor, ledger, k) {
        SameMeansMet(processor, ledger, k);
      }
      forall k | k in order ensures |InKey(ledger, k)| <= |InKey(processor, k)| {
        SameLength(InKey(processor, k), InKey(ledger, k));
      }
    }
  }

  lemma SameLength(xs: seq<Record>, ys: seq<Record>)
    requires AmountsOf(xs) == AmountsOf(ys)
    ensures |xs| == |ys|
  {
    assert |AmountsOf(xs)| == |xs| && |AmountsOf(ys)| == |ys|;
  }

  // ---- Which discrepancies are reported ----------------------------------------------------

  /**
   Side by side per key, oldest first: a processor record past the ledger's last, a ledger record past
   the processor's last, or a pair in the same place with different amounts.
   */
  ghost predicate IsDiscrepancy(processor: seq<Record>, ledger: seq<Record>, d: Discrepancy) {
    match d
    case ProcessorOrphan(r) =>
      exists j: nat :: IsNth(processor, r, j) && j >= |InKey(ledger, KeyOf(r))|
    case LedgerOrphan(l) =>
      exists j: nat :: IsNth(ledger, l, j) && j >= |InKey(processor, KeyOf(l))|
    case AmountDrift(r, l) =>
      KeyOf(r) == KeyOf(l) && r.amount != l.amount && exists j: nat :: IsNth(processor, r, j) && IsNth(ledger, l, j)
  }

  /** The record has j others of its key before it. */
  predicate IsNth(records: seq<Record>, r: Record, j: nat) {
    j < |InKey(records, KeyOf(r))| && InKey(records, KeyOf(r))[j] == r
  }

  lemma {:induction false} InKeyHasKey(records: seq<Record>, k: Key)
    ensures forall j :: 0 <= j < |InKey(records, k)| ==> KeyOf(InKey(records, k)[j]) == k
  {
    if records != [] {
      InKeyHasKey(records[..|records| - 1], k);
    }
  }

  predicate FoundAt(processor: seq<Record>, ledger: seq<Record>, d: Discrepancy, k: nat) {
    k < |processor| && d in Verdict(processor[k], Counterpart(processor, ledger, k))
  }

  lemma {:induction false} ProcessorSideHas(processor: seq<Record>, ledger: seq<Record>, d: Discrepancy, n: nat)
    requires n <= |processor|
    ensures d in ProcessorSide(processor, ledger, n) <==> exists k: nat :: k < n && FoundAt(processor, ledger, d, k)
  {
    hide Verdict, Counterpart;
    if n > 0 {
      ProcessorSideHas(processor, ledger, d, n - 1);
      assert d in Verdict(processor[n - 1], Counterpart(processor, ledger, n - 1)) <==>
        FoundAt(processor, ledger, d, n - 1);
    }
  }

  /** What record k of the processor's is found to be, in terms of its place within its key. */
  lemma FoundIsDiscrepancy(processor: seq<Record>, ledger: seq<Record>, d: Discrepancy, k: nat)
    requires FoundAt(processor, ledger, d, k)
    ensures !d.LedgerOrphan? && IsDiscrepancy(processor, ledger, d)
  {
    hide InKey;
    var r, key := processor[k], KeyOf(processor[k]);
    var j := |InKey(processor[..k], key)|;
    NextOfKey(processor, k, |processor|);
    assert processor[..|processor|] == processor;
    assert IsNth(processor, r, j);
    if j < |InKey(ledger, key)| {
      InKeyHasKey(ledger, key);
      assert IsNth(ledger, InKey(ledger, key)[j], j);
    }
  }

  lemma DiscrepancyIsFound(processor: seq<Record>, ledger: seq<Record>, d: Discrepancy) returns (k: nat)
    requires !d.LedgerOrphan? && IsDiscrepancy(processor, ledger, d)
    ensures FoundAt(processor, ledger, d, k)
  {
    hide InKey;
    var r := d.processor;
    var j: nat :| IsNth(processor, r, j)
      && if d.ProcessorOrphan? then j >= |InKey(ledger, KeyOf(r))| else IsNth(ledger, d.ledger, j);
    assert processor[..|processor|] == processor;
    k := FromSomeRecord(processor, KeyOf(r), j, |processor|);
    NextOfKey(processor, k, |processor|);
  }

  lemma {:induction false} LedgerSideHas(processor: seq<Record>, ledger: seq<Record>, d: Discrepancy, order: seq<Key>)
    ensures d in LedgerSide(processor, ledger, order) <==>
      exists key :: key in order && d in Orphans(LeftOver(processor, ledger, key))
  {
    hide Orphans, LeftOver;
    if order != [] {
      var n := |order| - 1;
      LedgerSideHas(processor, ledger, d, order[..n]);
      assert order == order[..n] + [order[n]];
      assert order[n] in order;
    }
  }

  lemma OrphanMeans(processor: seq<Record>, ledger: seq<Record>, d: Discrepancy, key: Key)
    ensures d in Orphans(LeftOver(processor, ledger, key)) <==>
      d.LedgerOrphan? && KeyOf(d.ledger) == key && IsDiscrepancy(processor, ledger, d)
  {
    hide InKey;
    var left, n := LeftOver(processor, ledger, key), |InKey(processor, key)|;
    InKeyHasKey(ledger, key);
    if d in Orphans(left) {
      var i :| 0 <= i < |left| && d == LedgerOrphan(left[i]);
      assert left[i] == InKey(ledger, key)[n + i];
      assert IsNth(ledger, left[i], n + i);
    }
    if d.LedgerOrphan? && KeyOf(d.ledger) == key && IsDiscrepancy(processor, ledger, d) {
      var j: nat :| IsNth(ledger, d.ledger, j) && j >= n;
      assert left[j - n] == d.ledger && Orphans(left)[j - n] == d;
    }
  }

  /** The report lists every discrepancy there is between the two sides, and no other. */
  lemma DiscrepanciesAre(processor: seq<Record>, ledger: seq<Record>, d: Discrepancy)
    ensures d in Discrepancies(processor, ledger) <==> IsDiscrepancy(processor, ledger, d)
  {
    hide InKey, LeftOver, Orphans, FoundAt, IsDiscrepancy, KeyOrder;
    var order := KeyOrder(ledger);
    ProcessorSideHas(processor, ledger, d, |processor|);
    LedgerSideHas(processor, ledger, d, order);
    if k: nat :| k < |processor| && FoundAt(processor, ledger, d, k) {
      FoundIsDiscrepancy(processor, ledger, d, k);
    }
    if key :| key in order && d in Orphans(LeftOver(processor, ledger, key)) {
      OrphanMeans(processor, ledger, d, key);
    }
    if IsDiscrepancy(processor, ledger, d) {
      if d.LedgerOrphan? {
        OrphanMeans(processor, ledger, d, KeyOf(d.ledger));
        OrphanKeyIsSeen(processor, ledger, d);
      } else {
        var k := DiscrepancyIsFound(processor, ledger, d);
        assert FoundAt(processor, ledger, d, k) && k < |processor| by {
          FoundWithin(processor, ledger, d, k);
        }
      }
    }
  }

  lemma FoundWithin(processor: seq<Record>, ledger: seq<Record>, d: Discrepancy, k: nat)
    requires FoundAt(processor, ledger, d, k)
    ensures k < |processor|
  {
  }

  lemma OrphanKeyIsSeen(processor: seq<Record>, ledger: seq<Record>, d: Discrepancy)
    requires d.LedgerOrphan? && IsDiscrepancy(processor, ledger, d)
    ensures KeyOf(d.ledger) in KeyOrder(ledger)
  {
    hide InKey;
    UnseenKeyIsEmpty(ledger, KeyOf(d.ledger));
  }

  // ---- In which order ----------------------------------------------------------------------

  lemma BeforeTransitive(a: Discrepancy, b: Discrepancy, c: Discrepancy)
    requires !Before(b, a) && !Before(c, b)
    ensures !Before(c, a)
  {
    var (ka, kb, kc) := (KindText(a), KindText(b), KindText(c));
    var (ma, mb, mc) := (RecordOf(a).matchKey, RecordOf(b).matchKey, RecordOf(c).matchKey);
    var (ra, rb, rc) := (RecordKindText(a), RecordKindText(b), RecordKindText(c));
    NotLess(ka, kb, kc);
    NotLess(ma, mb, mc);
    NotLess(ra, rb, rc);
  }

  lemma NotLess(a: string, b: string, c: string)
    ensures !Less(b, a) && !Less(c, b) ==> !Less(c, a) && (a == c ==> a == b)
    ensures !Less(b, a) ==> a == b || Less(a, b)
    ensures !Less(a, a)
    ensures Less(a, b) ==> !Less(b, a)
  {
    LessTotal(a, b);
    LessIrreflexive(a);
    if Less(a, b) && Less(b, a) {
      LessTransitive(a, b, a);
    }
    if !Less(b, a) && !Less(c, b) {
      LessTotal(b, c);
      if Less(a, b) && Less(b, c) {
        LessTransitive(a, b, c);
      }
      if Less(c, a) {
        if a != b { LessTransitive(c, a, b); }
      }
      if a == c && a != b {
        LessTransitive(a, b, a);
      }
    }
  }

  ghost predicate InReportOrder(ds: seq<Discrepancy>) {
    forall i, j :: 0 <= i < j < |ds| ==> !Before(ds[j], ds[i])
  }

  lemma {:induction false} InsertInOrder(d: Discrepancy, sorted: seq<Discrepancy>)
    requires InReportOrder(sorted)
    ensures InReportOrder(Insert(d, sorted))
  {
    hide Before;
    if sorted == [] {
    } else if Before(sorted[0], d) {
      var rest := Insert(d, sorted[1..]);
      InsertInOrder(d, sorted[1..]);
      forall j | 0 <= j < |rest| ensures !Before(rest[j], sorted[0]) {
        assert rest[j] in multiset(rest);
        if rest[j] == d {
          BeforeAsymmetric(sorted[0], d);
        } else {
          assert rest[j] in multiset(sorted[1..]);
        }
      }
    } else {
      forall j | 0 <= j < |sorted| ensures !Before(sorted[j], d) {
        if j > 0 {
          BeforeTransitive(d, sorted[0], sorted[j]);
        }
      }
    }
  }

  lemma BeforeAsymmetric(a: Discrepancy, b: Discrepancy)
    requires Before(a, b)
    ensures !Before(b, a)
  {
    NotLess(KindText(a), KindText(b), KindText(a));
    NotLess(KindText(b), KindText(a), KindText(b));
    NotLess(RecordOf(a).matchKey, RecordOf(b).matchKey, RecordOf(a).matchKey);
    NotLess(RecordOf(b).matchKey, RecordOf(a).matchKey, RecordOf(b).matchKey);
    NotLess(RecordKindText(a), RecordKindText(b), RecordKindText(a));
    NotLess(RecordKindText(b), RecordKindText(a), RecordKindText(b));
  }

  lemma {:induction false} SortedInOrder(ds: seq<Discrepancy>)
    ensures InReportOrder(Sorted(ds))
  {
    if ds != [] {
      SortedInOrder(ds[1..]);
      InsertInOrder(ds[0], Sorted(ds[1..]));
    }
  }

  /** Drifts come first, then ledger orphans, then processor orphans, each by match key, then kind. */
  ghost predicate ByKindThenKey(a: Discrepancy, b: Discrepancy) {
    && (b.AmountDrift? ==> a.AmountDrift?) && (a.ProcessorOrphan? ==> b.ProcessorOrphan?)
    && ((a.AmountDrift? <==> b.AmountDrift?) && (a.ProcessorOrphan? <==> b.ProcessorOrphan?) ==>
          && !Less(RecordOf(b).matchKey, RecordOf(a).matchKey)
          && (RecordOf(a).matchKey == RecordOf(b).matchKey && RecordOf(a).kind.Payout? ==> RecordOf(b).kind.Payout?))
  }

  lemma OrderMeans(a: Discrepancy, b: Discrepancy)
    ensures !Before(b, a) ==> ByKindThenKey(a, b)
  {
    hide Less;
    TextsInOrder();
  }

  lemma TextsInOrder()
    ensures Less("amount_drift", "ledger_orphan") && Less("amount_drift", "processor_orphan")
    ensures Less("ledger_orphan", "processor_orphan") && Less("buy", "payout")
  {
    var drift, ledger, processor := "amount_drift", "ledger_orphan", "processor_orphan";
    assert drift[0] < ledger[0] < processor[0];
    assert "buy"[0] < "payout"[0];
  }
}
