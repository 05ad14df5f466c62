/**
 * How late the outbox alarm can be, over runs of whole handlers on a clock that does not go back:
 * posting calls with or without a fault, alarms, forced drains and restarts.
 */
module Deadline {
  import opened Common
  import opened Posting
  import opened Outbox
  import opened Protocol
  import opened Delivery
  import opened WidePostings

  datatype Handler =
    | PostHandler(payload: Payload, now: int, fault: Fault)
    | AlarmRun(now: int, done: int, accepted: bool, snapshot: bool)
    | ForcedDrainRun(now: int, done: int, accepted: bool)
    | RestartRun(now: int)

  /** When a handler is over; a drain waits for D1. */
  function EndOf(h: Handler): int {
    if h.AlarmRun? || h.ForcedDrainRun? then h.done else h.now
  }

  function Handle(l: Ledger, h: Handler): Ledger {
    match h
    case PostHandler(p, now, fault) => Post(l, p, now, fault).0
    case AlarmRun(now, done, accepted, snapshot) => AlarmLedger(l, now, done, accepted, snapshot)
    case ForcedDrainRun(now, done, accepted) => DrainLedger(l, now, done, true, accepted)
    case RestartRun(now) => Restart(l, now)
  }

  function HandleAll(l: Ledger, hs: seq<Handler>): Ledger {
    if hs == [] then l else Handle(HandleAll(l, hs[..|hs| - 1]), hs[|hs| - 1])
  }

  function LastTime(t0: int, hs: seq<Handler>): int {
    if hs == [] then t0 else EndOf(hs[|hs| - 1])
  }

  ghost predicate ClockMoves(t0: int, hs: seq<Handler>) {
    hs == [] || (ClockMoves(t0, hs[..|hs| - 1]) && LastTime(t0, hs[..|hs| - 1]) <= hs[|hs| - 1].now <= EndOf(hs[|hs| - 1]))
  }

  ghost predicate SomePending(outbox: seq<OutboxRow>) {
    exists r :: r in outbox && r.status == Pending
  }

  ghost predicate RetriesBy(outbox: seq<OutboxRow>, t: int) {
    forall r :: r in outbox && r.status == Pending && r.nextRetryAt.Some? ==> r.nextRetryAt.value <= t
  }

  /** If a row is pending, an alarm is armed at most one maximal backoff after `now`. */
  ghost predicate ArmedBy(l: Ledger, now: int) {
    SomePending(l.outbox) ==> l.alarm.Some? && l.alarm.value <= now + OUTBOX_DRAIN_MAX_BACKOFF_MS
  }

  /** An alarm is always armed, at most one snapshot interval after `now`. */
  ghost predicate DayInv(l: Ledger, now: int) {
    && l.alarm.Some? && l.alarm.value <= now + SNAPSHOT_INTERVAL_MS
    && l.lastSnapshotAt <= now
    && RetriesBy(l.outbox, now + OUTBOX_DRAIN_MAX_BACKOFF_MS)
  }

  /**
   * A commit whose call failed before it could nudge an alarm more than 60 s away, with neither an
   * alarm nor another commit since.
   */
  predicate NudgeMissing(l: Ledger, hs: seq<Handler>) {
    if hs == [] then false
    else
      var before, h := HandleAll(l, hs[..|hs| - 1]), hs[|hs| - 1];
      if h.AlarmRun? then false
      else if h.PostHandler? && CommitsIn(before, h.payload, h.fault) then h.fault == AfterCommit && AlarmIsFar(before, h.now)
      else NudgeMissing(l, hs[..|hs| - 1])
  }

  predicate AlarmIsFar(l: Ledger, now: int) {
    l.alarm.None? || l.alarm.value > now + OUTBOX_DRAIN_MAX_BACKOFF_MS
  }

  // ---------------------------------------------------------------- drains and alarms

  lemma DrainKeepsRetries(outbox: seq<OutboxRow>, choice: Choice, accepted: bool, at: int, before: int, now: int)
    requires RetriesBy(outbox, before + OUTBOX_DRAIN_MAX_BACKOFF_MS) && before <= now && at <= now
    ensures var out := AfterDrain(outbox, choice, accepted, at);
      RetriesBy(out, now + OUTBOX_DRAIN_MAX_BACKOFF_MS) && (SomePending(out) ==> SomePending(outbox))
  {
    var out := AfterDrain(outbox, choice, accepted, at);
    forall r | r in out && r.status == Pending
      ensures r.nextRetryAt.Some? ==> r.nextRetryAt.value <= now + OUTBOX_DRAIN_MAX_BACKOFF_MS
      ensures SomePending(outbox)
    {
      var i :| 0 <= i < |out| && out[i] == r;
      assert outbox[i] in outbox && outbox[i].status == Pending;
      BackoffBounds(outbox[i].retryCount + 1, outbox[i].retryCount + 1);
    }
  }

  lemma RescheduleMeetsDeadline(l: Ledger, now: int)
    requires l.alarm.None? && RetriesBy(l.outbox, now + OUTBOX_DRAIN_MAX_BACKOFF_MS) && l.lastSnapshotAt <= now
    ensures DayInv(Reschedule(l, now), now) && ArmedBy(Reschedule(l, now), now)
  {
    var next := EarliestRetry(l.outbox, now);
    if next.Some? {
      var r :| r in l.outbox && r.status == Pending && next.value == RetryAt(r, now);
    }
  }

  /** After an alarm the 60 s deadline holds, whatever went wrong before. */
  lemma AlarmRestores(l: Ledger, before: int, now: int, done: int, accepted: bool, snapshot: bool)
    requires DayInv(l, before) && before <= now <= done
    ensures var l' := AlarmLedger(l, now, done, accepted, snapshot); DayInv(l', done) && ArmedBy(l', done)
  {
    var l0 := l.(alarm := None);
    var choice := Choose(l0, now, false);
    DrainKeepsRetries(l.outbox, choice, accepted, SettledAt(choice, now, done), before, done);
    var l1 := DrainLedger(l0, now, done, false, accepted);
    var l2 := if snapshot then l1.(lastSnapshotAt := done) else l1;
    var l3 := Cleanup(l2, done);
    assert RetriesBy(l3.outbox, done + OUTBOX_DRAIN_MAX_BACKOFF_MS);
    RescheduleMeetsDeadline(l3, done);
  }

  // ---------------------------------------------------------------- posting calls

  /** What a posting call does to the outbox and the alarm. */
  lemma PostOnAlarm(l: Ledger, p: Payload, now: int, fault: Fault)
    ensures var l' := Post(l, p, now, fault).0;
      && l'.lastSnapshotAt == l.lastSnapshotAt
      && (if CommitsIn(l, p, fault) then l'.alarm == (if fault == AfterCommit then l.alarm else KickAlarm(l.alarm, now))
          else l'.alarm == l.alarm && l'.outbox == l.outbox)
  {
    SeededPostOnAlarm(SeedChart(l, p.currency), p, now, fault);
  }

  lemma SeededPostOnAlarm(l: Ledger, p: Payload, now: int, fault: Fault)
    ensures var l' := PostSeeded(l, p, now, fault).0;
      && l'.lastSnapshotAt == l.lastSnapshotAt
      && (if Commits(l, p, fault) then l'.alarm == (if fault == AfterCommit then l.alarm else KickAlarm(l.alarm, now))
          else l'.alarm == l.alarm && l'.outbox == l.outbox)
  {}

  lemma PostKeepsRetries(l: Ledger, p: Payload, now: int, fault: Fault, t: int)
    requires RetriesBy(l.outbox, t)
    ensures RetriesBy(Post(l, p, now, fault).0.outbox, t)
  {
    PostOnOutbox(l, [], p, now, fault);
  }

  lemma PostKeepsDay(l: Ledger, p: Payload, before: int, now: int, fault: Fault)
    requires DayInv(l, before) && before <= now
    ensures DayInv(Post(l, p, now, fault).0, now)
  {
    PostOnAlarm(l, p, now, fault);
    PostKeepsRetries(l, p, now, fault, now + OUTBOX_DRAIN_MAX_BACKOFF_MS);
  }

  /** A commit meets the 60 s deadline unless its call fails before the nudge while the alarm is far. */
  lemma CommitArms(l: Ledger, p: Payload, now: int, fault: Fault)
    requires CommitsIn(l, p, fault) && !(fault == AfterCommit && AlarmIsFar(l, now))
    ensures ArmedBy(Post(l, p, now, fault).0, now)
  {
    PostOnAlarm(l, p, now, fault);
  }

  lemma OtherPostKeepsArmed(l: Ledger, p: Payload, before: int, now: int, fault: Fault)
    requires !CommitsIn(l, p, fault) && ArmedBy(l, before) && before <= now
    ensures ArmedBy(Post(l, p, now, fault).0, now)
  {
    PostOnAlarm(l, p, now, fault);
  }

  // ---------------------------------------------------------------- every run

  lemma HandleKeepsDay(l: Ledger, h: Handler, before: int)
    requires DayInv(l, before) && before <= h.now <= EndOf(h)
    ensures DayInv(Handle(l, h), EndOf(h))
  {
    match h {
      case PostHandler(p, now, fault) => PostKeepsDay(l, p, before, now, fault);
      case AlarmRun(now, done, accepted, snapshot) => AlarmRestores(l, before, now, done, accepted, snapshot);
      case ForcedDrainRun(now, done, accepted) =>
        var choice := Choose(l, now, true);
        DrainKeepsRetries(l.outbox, choice, accepted, SettledAt(choice, now, done), before, done);
      case RestartRun(now) =>
    }
  }

  lemma HandleKeepsArmed(l: Ledger, h: Handler, before: int)
    requires DayInv(l, before) && ArmedBy(l, before) && before <= h.now <= EndOf(h)
    requires h.PostHandler? ==> !CommitsIn(l, h.payload, h.fault)
    ensures ArmedBy(Handle(l, h), EndOf(h))
  {
    match h {
      case PostHandler(p, now, fault) => OtherPostKeepsArmed(l, p, before, now, fault);
      case AlarmRun(now, done, accepted, snapshot) => AlarmRestores(l, before, now, done, accepted, snapshot);
      case ForcedDrainRun(now, done, accepted) =>
        var choice := Choose(l, now, true);
        DrainKeepsRetries(l.outbox, choice, accepted, SettledAt(choice, now, done), before, done);
      case RestartRun(now) =>
    }
  }

  /**
   * In every run, with faults anywhere, an alarm is armed at most one day after the last handler;
   * and whenever a row is pending, at most 60 s after it, unless a nudge is missing.
   */
  lemma {:induction false} AlarmDeadline(nameId: Option<int>, t0: int, hs: seq<Handler>)
    requires ClockMoves(t0, hs) && t0 >= 0
    ensures var l := HandleAll(EmptyLedger(nameId, t0), hs);
      DayInv(l, LastTime(t0, hs)) && (!NudgeMissing(EmptyLedger(nameId, t0), hs) ==> ArmedBy(l, LastTime(t0, hs)))
  {
    if hs != [] {
      var init, h := hs[..|hs| - 1], hs[|hs| - 1];
      AlarmDeadline(nameId, t0, init);
      var l, before := HandleAll(EmptyLedger(nameId, t0), init), LastTime(t0, init);
      HandleKeepsDay(l, h, before);
      if h.AlarmRun? {
        AlarmRestores(l, before, h.now, h.done, h.accepted, h.snapshot);
      } else if h.PostHandler? && CommitsIn(l, h.payload, h.fault) {
        if !(h.fault == AfterCommit && AlarmIsFar(l, h.now)) {
          CommitArms(l, h.payload, h.now, h.fault);
        }
      } else if !NudgeMissing(EmptyLedger(nameId, t0), init) {
        HandleKeepsArmed(l, h, before);
      }
    }
  }

  // ---------------------------------------------------------------- the missing nudge

  /** Nothing but an alarm, a commit or a drain: refused and duplicate calls, restarts. */
  predicate Idle(l: Ledger, h: Handler) {
    h.RestartRun? || (h.PostHandler? && !CommitsIn(l, h.payload, h.fault))
  }

  predicate AllIdle(l: Ledger, hs: seq<Handler>) {
    hs == [] || (AllIdle(l, hs[..|hs| - 1]) && Idle(HandleAll(l, hs[..|hs| - 1]), hs[|hs| - 1]))
  }

  lemma {:induction false} IdleKeepsAlarm(l: Ledger, hs: seq<Handler>)
    requires l.alarm.Some? && AllIdle(l, hs)
    ensures HandleAll(l, hs).alarm == l.alarm && HandleAll(l, hs).outbox == l.outbox
  {
    if hs != [] {
      var before, h := HandleAll(l, hs[..|hs| - 1]), hs[|hs| - 1];
      IdleKeepsAlarm(l, hs[..|hs| - 1]);
      if h.PostHandler? {
        PostOnAlarm(before, h.payload, h.now, h.fault);
      }
    }
  }

  /**
   * After a call that committed and failed before its nudge, however often it is retried or the
   * object restarts: the deadline holds at `later` if and only if the alarm that was armed before the
   * call rings by then.  A retry is a duplicate and changes nothing.
   */
  lemma {:induction false} AfterCommitDeadlineIff(l: Ledger, p: Payload, now: int, hs: seq<Handler>, later: int)
    requires CommitsIn(l, p, AfterCommit) && l.alarm.Some? && AllIdle(Post(l, p, now, AfterCommit).0, hs)
    ensures var l' := Post(l, p, now, AfterCommit).0;
      && (ArmedBy(HandleAll(l', hs), later) <==> l.alarm.value <= later + OUTBOX_DRAIN_MAX_BACKOFF_MS)
      && Post(l', p, later, NoFault) == (l', Duplicate(now))
  {
    var l' := Post(l, p, now, AfterCommit).0;
    PostOnAlarm(l, p, now, AfterCommit);
    IdleKeepsAlarm(l', hs);
    CommitLeavesPending(l, p, now, AfterCommit);
    RetryIsDuplicate(l, p, now, later);
  }

  lemma CommitLeavesPending(l: Ledger, p: Payload, now: int, fault: Fault)
    requires CommitsIn(l, p, fault)
    ensures SomePending(Post(l, p, now, fault).0.outbox)
  {
    PostOnOutbox(l, [], p, now, fault);
    var out := Post(l, p, now, fault).0.outbox;
    assert out[|l.outbox|] in out && out[|l.outbox|].status == Pending;
  }

  lemma RetryIsDuplicate(l: Ledger, p: Payload, now: int, later: int)
    requires CommitsIn(l, p, AfterCommit)
    ensures var l' := Post(l, p, now, AfterCommit).0; Post(l', p, later, NoFault) == (l', Duplicate(now))
  {
    PostSeededCases(SeedChart(l, p.currency), p, now, AfterCommit);
    var l' := Post(l, p, now, AfterCommit).0;
    assert SeedChart(l', p.currency) == l';
  }

  /** A run that shows it: a new ledger, one posting that fails after its commit, any number of idle handlers. */
  lemma {:induction false} NudgeMissedForADay(nameId: Option<int>, t0: int, p: Payload, hs: seq<Handler>, later: int)
    requires p == WidePayload(p.txId, p.merchantId, p.currency, 1) && p.txId != ""
    requires AllIdle(Post(EmptyLedger(nameId, t0), p, t0, AfterCommit).0, hs)
    requires later < t0 + SNAPSHOT_INTERVAL_MS - OUTBOX_DRAIN_MAX_BACKOFF_MS
    ensures var l := HandleAll(Post(EmptyLedger(nameId, t0), p, t0, AfterCommit).0, hs);
      SomePending(l.outbox) && l.alarm == Some(t0 + SNAPSHOT_INTERVAL_MS) && !ArmedBy(l, later)
  {
    var l := EmptyLedger(nameId, t0);
    WidePostingCommits(nameId, t0, p, 1, AfterCommit);
    PostOnAlarm(l, p, t0, AfterCommit);
    IdleKeepsAlarm(Post(l, p, t0, AfterCommit).0, hs);
    CommitLeavesPending(l, p, t0, AfterCommit);
  }
}
