/**
 * What the retry columns of an outbox row record: in every run of the protocol, how often the row
 * failed and when it failed last.
 */
module RetryHistory {
  import opened Common
  import opened Posting
  import opened AuditMirror
  import opened Outbox
  import opened OutboxRules
  import opened Protocol
  import opened LedgerTheorems

  /** The event is a failure of the row: a drain that cannot send it, or a refused or lost answer to its batch. */
  ghost predicate Fails(s: System, e: Event, id: nat) {
    match e
    case DrainSelect(d, now, force) =>
      var rows := Candidates(s.l.outbox, now, force);
      && d !in s.drains && rows != []
      && if !MerchantKnown(s.l, rows) then id in IdsOf(rows) else |rows[0].payload.entries| > 98 && id == rows[0].id
    case D1Answer(d, ok, now) => d in s.drains && s.drains[d].live && !ok && id in IdsOf(s.drains[d].rows)
    case _ => false
  }

  /** How often a row failed in a run. */
  ghost function Failures(init: System, events: seq<Event>, id: nat): nat {
    if events == [] then 0
    else
      Failures(init, events[..|events| - 1], id)
      + if Fails(Run(init, events[..|events| - 1]), events[|events| - 1], id) then 1 else 0
  }

  function TimeOfDrain(e: Event): int {
    match e
    case DrainSelect(_, now, _) => now
    case D1Answer(_, _, now) => now
    case _ => 0
  }

  /** When it failed last. */
  ghost function LastFailure(init: System, events: seq<Event>, id: nat): int {
    if events == [] then 0
    else if Fails(Run(init, events[..|events| - 1]), events[|events| - 1], id) then TimeOfDrain(events[|events| - 1])
    else LastFailure(init, events[..|events| - 1], id)
  }

  /** A row counts `n` failures and, while pending, waits from the last one, `at`. */
  ghost predicate Records(r: OutboxRow, n: nat, at: int) {
    r.retryCount == n && (r.status == Pending ==> r.nextRetryAt == if n == 0 then None else Some(at + RetryWait(n)))
  }

  /** What a step does to the row of an id: nothing, one more failure, or its delivery. */
  ghost predicate RowMoves(r: OutboxRow, r': OutboxRow, fails: bool, now: int) {
    r'.id == r.id && if fails then r' == PutOff(r, now) else r' == r || r' == Delivered(r, now)
  }

  ghost predicate RowsMove(s: System, e: Event, out: seq<OutboxRow>) {
    forall r' :: r' in out ==> exists r :: r in s.l.outbox && RowMoves(r, r', Fails(s, e, r.id), TimeOfDrain(e))
  }

  lemma PutOffMoves(s: System, e: Event, out: seq<OutboxRow>, ids: set<nat>)
    requires PutOffOnly(s.l.outbox, out, ids, TimeOfDrain(e)) && forall id :: Fails(s, e, id) <==> id in ids
    ensures RowsMove(s, e, out)
  {
    forall r' | r' in out
      ensures exists r :: r in s.l.outbox && RowMoves(r, r', Fails(s, e, r.id), TimeOfDrain(e))
    {
      var i :| 0 <= i < |out| && out[i] == r';
      assert s.l.outbox[i] in s.l.outbox && RowMoves(s.l.outbox[i], r', Fails(s, e, s.l.outbox[i].id), TimeOfDrain(e));
    }
  }

  lemma DeliveredMoves(s: System, e: Event, out: seq<OutboxRow>, ids: set<nat>)
    requires DeliveredOnly(s.l.outbox, out, ids, TimeOfDrain(e)) && forall id :: !Fails(s, e, id)
    ensures RowsMove(s, e, out)
  {
    forall r' | r' in out
      ensures exists r :: r in s.l.outbox && RowMoves(r, r', Fails(s, e, r.id), TimeOfDrain(e))
    {
      var i :| 0 <= i < |out| && out[i] == r';
      assert s.l.outbox[i] in s.l.outbox && RowMoves(s.l.outbox[i], r', Fails(s, e, s.l.outbox[i].id), TimeOfDrain(e));
    }
  }

  lemma SameMoves(s: System, e: Event, out: seq<OutboxRow>)
    requires (forall r :: r in out ==> r in s.l.outbox) && forall id :: !Fails(s, e, id)
    ensures RowsMove(s, e, out)
  {
    forall r | r in out
      ensures RowMoves(r, r, Fails(s, e, r.id), TimeOfDrain(e))
    {}
  }

  lemma SelectMoves(s: System, d: nat, now: int, force: bool)
    requires d !in s.drains
    ensures RowsMove(s, DrainSelect(d, now, force), SelectStep(s, d, now, force).l.outbox)
  {
    var e, rows := DrainSelect(d, now, force), Candidates(s.l.outbox, now, force);
    ChoiceByRows(s.l, now, force);
    if rows != [] && !MerchantKnown(s.l, rows) {
      MarkRetryPutsOff(s.l.outbox, IdsOf(rows), now);
      PutOffMoves(s, e, MarkRetry(s.l.outbox, IdsOf(rows), now), IdsOf(rows));
    } else if rows != [] && |rows[0].payload.entries| > 98 {
      MarkRetryPutsOff(s.l.outbox, {rows[0].id}, now);
      PutOffMoves(s, e, MarkRetry(s.l.outbox, {rows[0].id}, now), {rows[0].id});
    } else {
      SameMoves(s, e, s.l.outbox);
    }
  }

  lemma AnswerMoves(s: System, d: nat, ok: bool, now: int)
    requires d in s.drains && s.drains[d].live
    ensures RowsMove(s, D1Answer(d, ok, now), AnswerStep(s, d, ok, now).l.outbox)
  {
    var e, ids := D1Answer(d, ok, now), IdsOf(s.drains[d].rows);
    if ok {
      DeliveredMoves(s, e, MarkSynced(s.l.outbox, ids, now), ids);
    } else {
      MarkRetryPutsOff(s.l.outbox, ids, now);
      PutOffMoves(s, e, MarkRetry(s.l.outbox, ids, now), ids);
    }
  }

  lemma StepMoves(s: System, e: Event)
    requires !e.PostCall?
    ensures RowsMove(s, e, Step(s, e).l.outbox)
  {
    match e {
      case DrainSelect(d, now, force) => if d in s.drains { SameMoves(s, e, s.l.outbox); } else { SelectMoves(s, d, now, force); }
      case D1Answer(d, ok, now) =>
        if d !in s.drains || !s.drains[d].live || (ok && !s.drains[d].applied) {
          SameMoves(s, e, s.l.outbox);
        } else {
          AnswerMoves(s, d, ok, now);
        }
      case _ => SameMoves(s, e, Step(s, e).l.outbox);
    }
  }

  lemma CandidatesExist(outbox: seq<OutboxRow>, nextId: nat, log: seq<LogItem>, mirror: Mirror, now: int, force: bool, id: nat)
    requires OutboxInv(outbox, nextId, log, mirror) && id in IdsOf(Candidates(outbox, now, force))
    ensures id < nextId
  {
    var r :| r in Candidates(outbox, now, force) && r.id == id;
    var i :| 0 <= i < |outbox| && outbox[i] == r;
    assert RowInv(outbox[i], nextId, log, mirror);
  }

  lemma HeldExist(dr: Drain, outbox: seq<OutboxRow>, nextId: nat, log: seq<LogItem>, mirror: Mirror, id: nat)
    requires DrainInv(dr, outbox, nextId, log, mirror) && id in IdsOf(dr.rows)
    ensures id < nextId
  {
    var q :| q in dr.rows && q.id == id;
    var k :| 0 <= k < |dr.rows| && dr.rows[k] == q;
    assert HeldInv(dr.rows[k], outbox, nextId, log);
  }

  /** Only rows that exist fail. */
  lemma FailsExist(s: System, e: Event, id: nat)
    requires OutboxInv(s.l.outbox, s.l.nextId, s.log, s.mirror) && DrainsInv(s.drains, s.l.outbox, s.l.nextId, s.log, s.mirror)
    requires Fails(s, e, id)
    ensures id < s.l.nextId
  {
    match e {
      case DrainSelect(d, now, force) =>
        var rows := Candidates(s.l.outbox, now, force);
        assert rows[0] in rows && id in IdsOf(rows);
        CandidatesExist(s.l.outbox, s.l.nextId, s.log, s.mirror, now, force, id);
      case D1Answer(d, ok, now) => HeldExist(s.drains[d], s.l.outbox, s.l.nextId, s.log, s.mirror, id);
      case _ =>
    }
  }

  lemma IdsGrow(s: System, e: Event)
    ensures Step(s, e).l.nextId >= s.l.nextId
  {
    match e {
      case PostCall(p, now, fault) => PostOnOutbox(s.l, s.log, p, now, fault);
      case DrainSelect(d, now, force) =>
        if d !in s.drains { StartDrainKeepsIds(s, d, now, Choose(s.l, now, force), CacheMerchant(s.l, now, force)); }
      case _ =>
    }
  }

  lemma StartDrainKeepsIds(s: System, d: nat, now: int, choice: Choice, l: Ledger)
    requires l == s.l.(merchantId := l.merchantId)
    ensures StartDrain(s, d, now, choice, l).l.nextId == s.l.nextId
  {}

  /** A row id that is not handed out yet has not failed. */
  lemma {:induction false} NoFailuresYet(nameId: Option<int>, t0: int, events: seq<Event>, id: nat)
    requires id >= Run(Init(nameId, t0), events).l.nextId
    ensures Failures(Init(nameId, t0), events, id) == 0
  {
    if events != [] {
      var init, e := events[..|events| - 1], events[|events| - 1];
      var s := Run(Init(nameId, t0), init);
      RunInv(nameId, t0, init);
      IdsGrow(s, e);
      NoFailuresYet(nameId, t0, init, id);
      if Fails(s, e, id) {
        FailsExist(s, e, id);
      }
    }
  }

  lemma {:induction false} FailuresPush(init: System, events: seq<Event>, id: nat)
    requires events != []
    ensures var s, e := Run(init, events[..|events| - 1]), events[|events| - 1];
      if Fails(s, e, id)
      then Failures(init, events, id) == Failures(init, events[..|events| - 1], id) + 1 && LastFailure(init, events, id) == TimeOfDrain(e)
      else Failures(init, events, id) == Failures(init, events[..|events| - 1], id)
           && LastFailure(init, events, id) == LastFailure(init, events[..|events| - 1], id)
  {}

  lemma MovedRecords(q: OutboxRow, r: OutboxRow, fails: bool, now: int, n: nat, at: int)
    requires RowMoves(q, r, fails, now) && Records(q, n, at)
    ensures if fails then Records(r, n + 1, now) else Records(r, n, at)
  {}

  lemma NewRowIsLast(s: System, e: Event, r: OutboxRow)
    requires e.PostCall? && r in Step(s, e).l.outbox && r !in s.l.outbox
    ensures r.id == s.l.nextId && r.retryCount == 0 && r.nextRetryAt == None && Step(s, e).l.nextId == s.l.nextId + 1
  {
    PostOnOutbox(s.l, s.log, e.payload, e.now, e.fault);
  }

  lemma {:induction false} NewRowRecords(nameId: Option<int>, t0: int, events: seq<Event>, r: OutboxRow)
    requires events != [] && events[|events| - 1].PostCall?
    requires r in Run(Init(nameId, t0), events).l.outbox && r !in Run(Init(nameId, t0), events[..|events| - 1]).l.outbox
    ensures Records(r, Failures(Init(nameId, t0), events, r.id), LastFailure(Init(nameId, t0), events, r.id))
  {
    var s := Run(Init(nameId, t0), events[..|events| - 1]);
    NewRowIsLast(s, events[|events| - 1], r);
    NoFailuresYet(nameId, t0, events[..|events| - 1], r.id);
    FailuresPush(Init(nameId, t0), events, r.id);
  }

  /**
   * In every run, with drains overlapping and answers lost, a row's retry count is the number of its
   * failures, and a pending row may be tried again 2, 4, 8, 16, 32 or 60 s after the last one.
   */
  lemma {:induction false} RetriesRecorded(nameId: Option<int>, t0: int, events: seq<Event>, r: OutboxRow)
    requires r in Run(Init(nameId, t0), events).l.outbox
    ensures Records(r, Failures(Init(nameId, t0), events, r.id), LastFailure(Init(nameId, t0), events, r.id))
  {
    if events != [] {
      var init, e := events[..|events| - 1], events[|events| - 1];
      var s := Run(Init(nameId, t0), init);
      if !e.PostCall? {
        StepMoves(s, e);
        var q :| q in s.l.outbox && RowMoves(q, r, Fails(s, e, q.id), TimeOfDrain(e));
        RetriesRecorded(nameId, t0, init, q);
        FailuresPush(Init(nameId, t0), events, q.id);
        MovedRecords(q, r, Fails(s, e, q.id), TimeOfDrain(e), Failures(Init(nameId, t0), init, q.id), LastFailure(Init(nameId, t0), init, q.id));
      } else if r in s.l.outbox {
        RetriesRecorded(nameId, t0, init, r);
        FailuresPush(Init(nameId, t0), events, r.id);
      } else {
        NewRowRecords(nameId, t0, events, r);
      }
    }
  }
}
