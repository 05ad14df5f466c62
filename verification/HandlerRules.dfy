/**
 * A whole alarm handler and a crash with their effects written out: which rows are delivered or put
 * off, which are swept, when the balances were last snapshot and when the alarm rings next; what a
 * restart forgets and what an answer that comes after it can still do.
 */
module HandlerRules {
  import opened Common
  import opened Posting
  import opened AuditMirror
  import opened Outbox
  import opened OutboxRules
  import opened Protocol
  import opened Delivery

  /** The merchant id an object remembers after a drain of some rows. */
  ghost predicate Remembers(l: Ledger, after: Option<int>, rows: seq<OutboxRow>) {
    if rows == [] || !MerchantKnown(l, rows) then after == l.merchantId
    else if l.merchantId.Some? && l.merchantId.value > 0 then after == l.merchantId
    else if l.nameId.Some? && l.nameId.value > 0 then after == l.nameId
    else after == Some(rows[0].payload.merchantId)
  }

  /** The book, the registry and the journal are none of the handler's business. */
  ghost predicate SameBook(l: Ledger, l': Ledger) {
    && l'.nameId == l.nameId && l'.chart == l.chart && l'.accounts == l.accounts && l'.posted == l.posted
    && l'.journal == l.journal && l'.nextId == l.nextId && l'.seededCurrency == l.seededCurrency
  }

  /**
   * The handler takes what is due at `now` and marks it, at `done` snapshots if a day has passed since
   * the last snapshot, sweeps if an hour has passed since the last sweep, and arms the alarm anew.
   */
  ghost predicate HandlerDoes(
      l: Ledger, l': Ledger, rows: seq<OutboxRow>, drained: seq<OutboxRow>, now: int, done: int, accepted: bool, snapshotOk: bool) {
    && Taken(rows, l.outbox, now, false) && DrainWrites(l, drained, rows, now, done, accepted)
    && Remembers(l, l'.merchantId, rows)
    && Swept(l.(outbox := drained), l'.outbox, done)
    && l'.lastCleanupAt == (if done - l.lastCleanupAt < 3_600_000 then l.lastCleanupAt else done)
    && l'.lastSnapshotAt == (if snapshotOk && done - l.lastSnapshotAt >= 86_400_000 then done else l.lastSnapshotAt)
    && l'.alarm.Some? && RingsAt(l', done, l'.alarm.value)
    && SameBook(l, l')
  }

  lemma DrainDoes(l: Ledger, now: int, done: int, force: bool, accepted: bool)
    requires AscendingIds(l.outbox)
    ensures var rows, l' := Candidates(l.outbox, now, force), DrainLedger(l, now, done, force, accepted);
      && Taken(rows, l.outbox, now, force) && DrainWrites(l, l'.outbox, rows, now, done, accepted)
      && Remembers(l, l'.merchantId, rows) && l' == l.(outbox := l'.outbox, merchantId := l'.merchantId)
  {
    CandidatesTaken(l.outbox, now, force);
    DrainWritesOut(l, now, done, force, accepted);
  }

  lemma SweepDoes(l: Ledger, now: int)
    ensures var l' := Cleanup(l, now);
      && Swept(l, l'.outbox, now) && l'.lastCleanupAt == (if now - l.lastCleanupAt < 3_600_000 then l.lastCleanupAt else now)
      && l' == l.(outbox := l'.outbox, lastCleanupAt := l'.lastCleanupAt)
  {}

  lemma RescheduleRings(l: Ledger, now: int)
    requires l.alarm.None?
    ensures var l' := Reschedule(l, now); l'.alarm.Some? && RingsAt(l', now, l'.alarm.value) && l' == l.(alarm := l'.alarm)
  {
    TargetRings(l, now);
    var l' := Reschedule(l, now);
    assert l'.outbox == l.outbox && l'.lastSnapshotAt == l.lastSnapshotAt;
  }

  lemma AlarmDoes(l: Ledger, now: int, done: int, accepted: bool, snapshotOk: bool)
    requires AscendingIds(l.outbox)
    ensures var l' := AlarmLedger(l, now, done, accepted, done - l.lastSnapshotAt >= 86_400_000 && snapshotOk);
      exists rows, drained :: HandlerDoes(l, l', rows, drained, now, done, accepted, snapshotOk)
  {
    var snapshot := done - l.lastSnapshotAt >= 86_400_000 && snapshotOk;
    var l0 := l.(alarm := None);
    var rows := Candidates(l0.outbox, now, false);
    DrainDoes(l0, now, done, false, accepted);
    var l1 := DrainLedger(l0, now, done, false, accepted);
    var l2 := if snapshot then l1.(lastSnapshotAt := done) else l1;
    SweepDoes(l2, done);
    var l3 := Cleanup(l2, done);
    RescheduleRings(l3, done);
    assert AlarmLedger(l, now, done, accepted, snapshot) == Reschedule(l3, done);
    HandlerDone(l, l0, l1, l2, l3, Reschedule(l3, done), rows, now, done, accepted, snapshotOk);
  }

  /** The parts of the handler put together. */
  lemma HandlerDone(
      l: Ledger, l0: Ledger, l1: Ledger, l2: Ledger, l3: Ledger, l': Ledger, rows: seq<OutboxRow>,
      now: int, done: int, accepted: bool, snapshotOk: bool)
    requires l0 == l.(alarm := None) && Taken(rows, l0.outbox, now, false) && DrainWrites(l0, l1.outbox, rows, now, done, accepted)
    requires Remembers(l0, l1.merchantId, rows) && l1 == l0.(outbox := l1.outbox, merchantId := l1.merchantId)
    requires l2 == if done - l.lastSnapshotAt >= 86_400_000 && snapshotOk then l1.(lastSnapshotAt := done) else l1
    requires Swept(l2, l3.outbox, done) && l3.lastCleanupAt == (if done - l2.lastCleanupAt < 3_600_000 then l2.lastCleanupAt else done)
    requires l3 == l2.(outbox := l3.outbox, lastCleanupAt := l3.lastCleanupAt)
    requires l'.alarm.Some? && RingsAt(l', done, l'.alarm.value) && l' == l3.(alarm := l'.alarm)
    ensures HandlerDoes(l, l', rows, l1.outbox, now, done, accepted, snapshotOk)
  {}

  // ---------------------------------------------------------------- crashes

  /** A crash forgets both caches and every waiting drain; tables, mirror and a set alarm survive it. */
  lemma CrashForgets(s: System, t: int, d: nat, ok: bool, now: int)
    ensures var s' := Step(s, Crash(t));
      && SameBook(s.l.(seededCurrency := None), s'.l) && s'.l.outbox == s.l.outbox && s'.l.merchantId == None
      && s'.l.lastSnapshotAt == s.l.lastSnapshotAt && s'.l.lastCleanupAt == s.l.lastCleanupAt
      && s'.l.alarm == (if s.l.alarm.Some? then s.l.alarm else Some(t + 86_400_000))
      && s'.mirror == s.mirror && s'.log == s.log
      && Step(s', D1Answer(d, ok, now)) == s'
      && (d in s.drains ==> Step(s', D1Apply(d)).mirror == ExecAll(s.mirror, BatchStatements(ItemsOf(s.drains[d].rows))))
  {}
}
