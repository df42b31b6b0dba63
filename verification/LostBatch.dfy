/**
 Two sessions that use the same idempotency key (src/netting.ts `flush`): the journal refuses the
 second one's batch, which is gone from memory by then.
 */
module LostBatchRun {
  import opened Accounts
  import opened Ledger
  import opened Money
  import opened NettingSession
  import opened Recovery
  import opened Screening
  import opened SessionHost
  import opened Settlement
  import opened SettlementProof
  import opened Text
  import LS = LedgerStore

  /** Credits issued to a wallet: no debit for the screen to refuse. */
  const ISSUE := [Leg(Platform(StoredValue, 0), CREDIT, 1), Leg(Wallet("alice", Earned), CREDIT, -1)]

  lemma IssueIsAcceptable(base: AccountRef -> int)
    ensures Acceptable(ISSUE, base) && LegsFit(ISSUE)
  {
    assert ISSUE[..1] == [ISSUE[0]] && ISSUE[..1][..0] == [];
    assert CurrencySum(ISSUE[..1], CREDIT) == 1;
    forall i | 0 <= i < |ISSUE| ensures LegPasses(ISSUE, base, i) {
    }
  }

  /** One movement recorded in batches of one: journaled at once, or lost at once. */
  method Issue(x: InstanceSession, key: string) returns (r: Recorded)
    requires x.Valid() && !x.settled && key !in x.outcomes && x.maxBatch == 1 && x.pending == []
    modifies x`outcomes, x`accepted, x`pending, x`opening, x`head, x`seq_, x.reservations, x.journal
    ensures x.Valid() && x.pending == [] && (old(x.Drawn()) ==> x.Drawn())
    ensures x.accepted == old(x.accepted) + [old(x.NextMovement(key, ISSUE))]
    ensures key in x.outcomes && x.outcomes[key] == Accepted(old(x.seq_))
    ensures x.outcomes.Keys == old(x.outcomes).Keys + {key}
    ensures x.seq_ == old(x.seq_) + 1
    ensures !r.JournalRefused? ==> r == Answered(Accepted(old(x.seq_)))
    ensures r.JournalRefused? <==> key in old(x.journal.keys) || SeqTaken(old(x.Rows()), old(x.seq_))
    ensures x.Rows() == old(x.Rows()) + if r.JournalRefused? then [] else [old(x.NextMovement(key, ISSUE))]
    ensures x.journal.keys == old(x.journal.keys) + if r.JournalRefused? then {} else {key}
    ensures x.OthersJournals() == old(x.OthersJournals())
  {
    hide InstanceSession.Valid, InstanceSession.Sole, InstanceSession.Journaled, Acceptable, StopsAt,
      InstanceSession.OpeningOf, Appendable, InstanceSession.Drawn, InstanceSession.OthersJournals, ISSUE;
    ghost var base := x.ScreenBase();
    ghost var m := x.NextMovement(key, ISSUE);
    IssueIsAcceptable(base);
    OneRow(x.Rows(), x.journal.keys, m);
    Numbered(x);
    r := x.Record(key, ISSUE);
    Numbered(x);
    assert [] + [m] == [m];
  }

  lemma Numbered(x: InstanceSession)
    requires x.Valid()
    ensures x.seq_ == |x.accepted|
  {
  }

  predicate SeqTaken(rows: seq<Movement>, n: nat) {
    exists j :: 0 <= j < |rows| && rows[j].seq_ == n
  }

  lemma OneRow(rows: seq<Movement>, keys: set<string>, m: Movement)
    ensures KeysOf([m]) == {m.key}
    ensures Appendable(rows, keys, [m]) <==> m.key !in keys && !SeqTaken(rows, m.seq_)
  {
    assert [m][0] == m;
  }

  /** Two sessions on one ledger, one journal and one registry. */
  method TwoSessions() returns (a: InstanceSession, b: InstanceSession)
    ensures a.Valid() && a.Untouched() && a.maxBatch == 1 && a.sessionId == "a"
    ensures b.LossySettle() && b.Untouched() && b.maxBatch == 1 && b.sessionId == "b" && b.chunkWidth == 8
      && b.host.others == []
    ensures a != b && a.journal == b.journal && a.journal.rows == map[] && a.journal.keys == {}
      && a.reservations == b.reservations
    ensures fresh(a) && fresh(b) && fresh(b.host) && fresh(b.host.ledger) && fresh(b.journal) && fresh(b.reservations)
      && b.host.lives > 0
  {
    var ledger := new LS.LedgerStore();
    var host := new Host(ledger, [], 9);
    var journal := new MovementStore();
    var registry := new Reservations();
    a := new InstanceSession(host, journal, registry, "a", 1, 8);
    b := new InstanceSession(host, journal, registry, "b", 1, 8);
  }

  /** Session "b" tries to journal a movement under a key that session "a" has used. */
  method LoseBatch() returns (b: InstanceSession, lost: Recorded)
    ensures lost.JournalRefused? && b.Rows() == [] && b.journal.keys == {"k"}
    ensures b.LossySettle() && !b.settled && b.maxBatch == 1 && b.sessionId == "b" && b.chunkWidth == 8
      && b.host.others == []
    ensures b.pending == [] && |b.accepted| == 1 && b.accepted[0].key == "k" && b.seq_ == 1
    ensures b.outcomes.Keys == {"k"} && b.outcomes["k"] == Accepted(0) && b.host.lives > 0
    ensures fresh(b) && fresh(b.host) && fresh(b.host.ledger) && fresh(b.journal) && fresh(b.reservations)
  {
    hide InstanceSession.Valid, Fresh, OthersForeign;
    var a;
    a, b := TwoSessions();
    assert a.OthersJournals() == map[];
    var first := Issue(a, "k");
    assert "b" !in a.OthersJournals();
    assert b.Rows() == [] && b.Drawn();
    lost := Issue(b, "k");
    assert b.accepted == [] + [b.accepted[0]];
  }

  /** Nothing follows: settle returns, and the accepted movement is neither posted nor rejected. */
  method SettleAfterLoss() returns (r: SettleResult, answer: MovementOutcome, posted: bool)
    ensures r.Ran? && r.outcome.Returned? && r.outcome.report.rejected == [] && r.outcome.report.netted == 0
    ensures answer == Accepted(0) && !posted
  {
    hide InstanceSession.Valid;
    var b, lost := LoseBatch();
    r := b.Settle();
    answer := b.outcomes["k"];
    posted := b.IsPosted(ReplayTxn("b", 0));
  }

  lemma NotAPrefix(lost: seq<Movement>, rows: seq<Movement>, accepted: seq<Movement>)
    requires |lost| == |rows| == 1 && accepted == lost + rows && lost[0].key != rows[0].key
    ensures !(rows <= accepted)
  {
    assert accepted[0] == lost[0];
  }

  /** Another movement follows: it is journaled, and from then on no settle runs. */
  method JournalAfterLoss() returns (later: Recorded, r: SettleResult)
    ensures later == Answered(Accepted(1)) && r.ChainBroken?
  {
    hide InstanceSession.Valid, Fresh, OthersForeign, Exact, Settlement.Settle, ChainHolds, Unreleased, Renounce, ISSUE;
    hide InstanceSession.Forgotten, InstanceSession.QuietSettle, InstanceSession.Journaled, AcceptedWhen, Appendable;
    var b, lost := LoseBatch();
    ghost var kept := b.accepted;
    later := Issue(b, "l");
    NotAPrefix(kept, b.Rows(), b.accepted);
    r := b.Settle();
  }
}
