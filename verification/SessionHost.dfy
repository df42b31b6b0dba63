/**
 What a netting session runs on (src/netting.ts `SessionPorts`, `createReservations`): the ledger
 behind a transaction that others interleave with and that the process may not live to run, the
 movement journal, and the reservation registry.
 */
module SessionHost {
  import opened Accounts
  import opened Ledger
  import opened Money
  import opened Settlement
  import opened SettlementProof
  import opened Recovery
  import opened Text
  import LS = LedgerStore

  lemma PostedIffStored(s: State, id: TxnId)
    ensures Posted(s, id) <==> exists i :: 0 <= i < |s.log| && s.log[i].posting.txnId == id
  {
    if Posted(s, id) {
      var k := PostedIsLogged(s.log, id);
    }
    forall i | 0 <= i < |s.log| && s.log[i].posting.txnId == id ensures Posted(s, id) {
      LoggedIsPosted(s.log, i);
    }
  }

  // ---- The transactional ledger ------------------------------------------------------

  /** `others[k]` gets in before the session's k-th transaction; `lives` transactions are left. */
  class Host {
    const ledger: LS.LedgerStore
    var others: seq<seq<Posting>>
    var lives: nat

    constructor (ledger: LS.LedgerStore, others: seq<seq<Posting>>, lives: nat)
      ensures this.ledger == ledger && this.others == others && this.lives == lives
    {
      this.ledger, this.others, this.lives := ledger, others, lives;
    }

    ghost function World(): World
      reads this, ledger
    {
      Settlement.World(ledger.View(), others, lives)
    }

    method LetOthersPost(ps: seq<Posting>)
      modifies ledger
      ensures ledger.View() == PostOthers(old(ledger.View()), ps)
    {
      for k := 0 to |ps|
        invariant ledger.View() == PostOthers(old(ledger.View()), ps[..k])
      {
        PrefixStep(ps, k);
        var fault := ledger.PostEntry(ps[k]);
      }
      assert ps[..|ps|] == ps;
    }

    /** One transaction, idempotent on its id. */
    method Transact(p: Posting) returns (v: Verdict)
      modifies this, ledger
      ensures Step(World(), v) == Settlement.Transact(old(World()), p)
    {
      hide PostEntry, PostOthers;
      if lives == 0 {
        return Crashed;
      }
      LetOthersPost(if others == [] then [] else others[0]);
      others, lives := if others == [] then [] else others[1..], lives - 1;
      assert World() == Begin(old(World()));
      PostedIffStored(ledger.View(), p.txnId);
      var found := ledger.HasPosting(p.txnId);
      if found {
        return Done;
      }
      var fault := ledger.PostEntry(p);
      v := if fault == None then Done else Refused(fault.value);
    }
  }

  // ---- The movement journal ----------------------------------------------------------

  function KeysOf(batch: seq<Movement>): set<string> {
    set i | 0 <= i < |batch| :: batch[i].key
  }

  /** No row may repeat an idempotency key of any session, or a position of its own. */
  predicate Appendable(rows: seq<Movement>, keys: set<string>, batch: seq<Movement>) {
    forall i :: 0 <= i < |batch| ==>
      batch[i].key !in keys && forall j :: 0 <= j < |rows| ==> rows[j].seq_ != batch[i].seq_
  }

  /** Rows per session, in position order, and every key any session has journaled. */
  class MovementStore {
    var rows: map<string, seq<Movement>>
    var keys: set<string>

    constructor ()
      ensures rows == map[] && keys == {}
    {
      rows, keys := map[], {};
    }

    function BySession(sid: string): seq<Movement>
      reads this
    {
      if sid in rows then rows[sid] else []
    }

    /** All of the batch or none of it. */
    method Append(sid: string, batch: seq<Movement>) returns (ok: bool)
      modifies this
      ensures ok <==> Appendable(old(BySession(sid)), old(keys), batch)
      ensures ok ==> rows == old(rows)[sid := old(BySession(sid)) + batch] && keys == old(keys) + KeysOf(batch)
      ensures !ok ==> rows == old(rows) && keys == old(keys)
    {
      var own := BySession(sid);
      for k := 0 to |batch|
        invariant Appendable(own, keys, batch[..k])
      {
        if batch[k].key in keys || exists j :: 0 <= j < |own| && own[j].seq_ == batch[k].seq_ {
          return false;
        }
      }
      assert batch[..|batch|] == batch;
      rows := rows[sid := own + batch];
      keys := keys + KeysOf(batch);
      return true;
    }
  }

  // ---- The reservation registry ------------------------------------------------------

  /** One pending total per account, shared by every session of the process. */
  class Reservations {
    var pending: map<AccountRef, int>

    constructor ()
      ensures forall a :: Total(a) == 0
    {
      pending := map[];
    }

    function Total(a: AccountRef): int
      reads this
    {
      if a in pending then pending[a] else 0
    }

    method Add(a: AccountRef, delta: int) returns (total: int)
      modifies this
      ensures total == Total(a) == old(Total(a)) + delta
      ensures forall b :: b != a ==> Total(b) == old(Total(b))
    {
      total := Total(a) + delta;
      pending := pending[a := total];
    }
  }
}
