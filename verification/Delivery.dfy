/**
 * Progress of the outbox: what a drain sends and how many alarms it takes to deliver every
 * pending posting.  Handlers run to completion here; interleaving is in Protocol.
 */
module Delivery {
  import opened Common
  import opened Posting
  import opened AuditMirror
  import opened Outbox
  import opened Protocol
  import opened LedgerTheorems

  // ---------------------------------------------------------------- one whole alarm handler

  /**
   * alarm(): drain what is due at `now`; once D1 has answered, at `done`, mark the rows, snapshot if
   * it is time, sweep and re-arm.
   */
  function FireAlarm(s: System, d: nat, now: int, done: int, accepted: bool, snapshot: bool): System {
    var drained := FinishDrain(Step(s, AlarmFired), d, now, done, false, accepted);
    var snapped := if snapshot then Step(drained, SnapshotTick(done)) else drained;
    Step(Step(snapped, CleanupTick(done)), RescheduleAlarm(done))
  }

  /** A drain from its selection to its answer. */
  function FinishDrain(s: System, d: nat, now: int, done: int, force: bool, accepted: bool): System {
    var sent := Step(s, DrainSelect(d, now, force));
    var applied := if accepted then Step(sent, D1Apply(d)) else sent;
    Step(applied, D1Answer(d, accepted, done))
  }

  /** Rows that are not sent are put off at once, without waiting for D1. */
  function SettledAt(choice: Choice, now: int, done: int): int {
    if choice.Batch? then done else now
  }

  /** The ledger's side of a drain that runs to its answer. */
  function DrainLedger(l: Ledger, now: int, done: int, force: bool, accepted: bool): Ledger {
    var choice := Choose(l, now, force);
    CacheMerchant(l, now, force).(outbox := AfterDrain(l.outbox, choice, accepted, SettledAt(choice, now, done)))
  }

  function AlarmLedger(l: Ledger, now: int, done: int, accepted: bool, snapshot: bool): Ledger {
    var drained := DrainLedger(l.(alarm := None), now, done, false, accepted);
    var snapped := if snapshot then drained.(lastSnapshotAt := done) else drained;
    Reschedule(Cleanup(snapped, done), done)
  }

  lemma FinishDrainLedger(s: System, d: nat, now: int, done: int, force: bool, accepted: bool)
    requires d !in s.drains
    ensures FinishDrain(s, d, now, done, force, accepted).l == DrainLedger(s.l, now, done, force, accepted)
  {
    var choice, l := Choose(s.l, now, force), CacheMerchant(s.l, now, force);
    StartDrainFinishes(s, d, now, done, choice, l, accepted);
    if choice.Nothing? {
      assert l == s.l;
    }
  }

  lemma StartDrainFinishes(s: System, d: nat, now: int, done: int, choice: Choice, l: Ledger, accepted: bool)
    requires d !in s.drains && l == s.l.(merchantId := l.merchantId) && (choice.Nothing? ==> l == s.l)
    ensures var sent := StartDrain(s, d, now, choice, l);
      var applied := if accepted then Step(sent, D1Apply(d)) else sent;
      Step(applied, D1Answer(d, accepted, done)).l
        == l.(outbox := AfterDrain(s.l.outbox, choice, accepted, SettledAt(choice, now, done)))
  {}

  /** The steps of the handler, one after the other, do to the ledger what the handler does. */
  lemma FireAlarmLedger(s: System, d: nat, now: int, done: int, accepted: bool, snapshot: bool)
    requires d !in s.drains
    ensures FireAlarm(s, d, now, done, accepted, snapshot).l == AlarmLedger(s.l, now, done, accepted, snapshot)
  {
    FinishDrainLedger(Step(s, AlarmFired), d, now, done, false, accepted);
  }

  ghost predicate NoPosts(events: seq<Event>) {
    forall i :: 0 <= i < |events| ==> !events[i].PostCall?
  }

  lemma AddStep(s: System, events: seq<Event>, e: Event) returns (more: seq<Event>)
    requires NoPosts(events) && !e.PostCall?
    ensures NoPosts(more) && Run(s, more) == Step(Run(s, events), e)
  {
    more := events + [e];
    assert more[..|events|] == events;
  }

  /** An alarm handler is a run of protocol steps without a posting call. */
  lemma FireAlarmIsRun(s: System, d: nat, now: int, done: int, accepted: bool, snapshot: bool) returns (es: seq<Event>)
    ensures NoPosts(es) && Run(s, es) == FireAlarm(s, d, now, done, accepted, snapshot)
  {
    es := AddStep(s, [], AlarmFired);
    es := AddStep(s, es, DrainSelect(d, now, false));
    if accepted {
      es := AddStep(s, es, D1Apply(d));
    }
    es := AddStep(s, es, D1Answer(d, accepted, done));
    if snapshot {
      es := AddStep(s, es, SnapshotTick(done));
    }
    es := AddStep(s, es, CleanupTick(done));
    es := AddStep(s, es, RescheduleAlarm(done));
  }

  lemma {:induction false} NoPostsKeepLog(s: System, events: seq<Event>)
    requires NoPosts(events)
    ensures Run(s, events).log == s.log
  {
    if events != [] {
      NoPostsKeepLog(s, events[..|events| - 1]);
      OtherStepsKeepBook(Run(s, events[..|events| - 1]), events[|events| - 1]);
    }
  }

  // ---------------------------------------------------------------- counting pending rows

  function PendingCount(outbox: seq<OutboxRow>): nat {
    if outbox == [] then 0
    else PendingCount(outbox[..|outbox| - 1]) + if outbox[|outbox| - 1].status == Pending then 1 else 0
  }

  lemma {:induction false} PendingCountZero(outbox: seq<OutboxRow>)
    ensures PendingCount(outbox) == 0 <==> forall r :: r in outbox ==> r.status != Pending
  {
    if outbox != [] {
      var init, last := outbox[..|outbox| - 1], outbox[|outbox| - 1];
      assert outbox == init + [last];
      PendingCountZero(init);
    }
  }

  lemma {:induction false} SyncingCounts(outbox: seq<OutboxRow>, ids: set<nat>, now: int)
    ensures PendingCount(MarkSynced(outbox, ids, now)) <= PendingCount(outbox)
    ensures (exists r :: r in outbox && r.status == Pending && r.id in ids) ==> PendingCount(MarkSynced(outbox, ids, now)) < PendingCount(outbox)
  {
    if outbox != [] {
      var init, last := outbox[..|outbox| - 1], outbox[|outbox| - 1];
      assert outbox == init + [last];
      assert MarkSynced(outbox, ids, now)[..|init|] == MarkSynced(init, ids, now);
      SyncingCounts(init, ids, now);
    }
  }

  lemma {:induction false} SweepCounts(outbox: seq<OutboxRow>, now: int)
    ensures PendingCount(Unexpired(outbox, now)) == PendingCount(outbox)
  {
    if outbox != [] {
      var init, last := outbox[..|outbox| - 1], outbox[|outbox| - 1];
      SweepCounts(init, now);
      assert (Unexpired(init, now) + [last])[..|Unexpired(init, now)|] == Unexpired(init, now);
    }
  }

  /** Every pending posting fits a batch on its own. */
  ghost predicate AllSmall(outbox: seq<OutboxRow>) {
    forall r :: r in outbox && r.status == Pending ==> |r.payload.entries| <= 98
  }

  ghost predicate SomeDue(outbox: seq<OutboxRow>, now: int) {
    exists r :: r in outbox && Due(r, now)
  }

  /** A drain can find the merchant: cached, in the object's name, or in whichever pending payload comes first. */
  ghost predicate Resolvable(l: Ledger) {
    MerchantIdOf(l).Some? || forall r :: r in l.outbox && r.status == Pending ==> r.payload.merchantId > 0
  }

  lemma SmallBatch(l: Ledger, now: int)
    requires AllSmall(l.outbox) && Resolvable(l)
    ensures var choice := Choose(l, now, false);
      if SomeDue(l.outbox, now) then choice.Batch? && choice.rows != [] && (forall r :: r in choice.rows ==> r in l.outbox && r.status == Pending)
      else choice.Nothing?
  {
    var rows := Candidates(l.outbox, now, false);
    if rows != [] {
      assert rows[0] in rows;
      NothingFits(rows);
      assert forall r :: r in Included(rows) ==> r in rows;
    }
  }

  lemma DrainKeepsResolvable(l: Ledger, now: int, done: int, accepted: bool)
    requires Resolvable(l)
    ensures Resolvable(DrainLedger(l, now, done, false, accepted))
  {
    var rows := Candidates(l.outbox, now, false);
    assert rows != [] ==> rows[0] in rows;
  }

  /** An accepted drain with something due delivers at least one posting. */
  lemma DrainDelivers(l: Ledger, now: int, done: int)
    requires AllSmall(l.outbox) && Resolvable(l)
    ensures var choice := Choose(l, now, false);
      var out := AfterDrain(l.outbox, choice, true, SettledAt(choice, now, done));
      && AllSmall(out)
      && PendingCount(out) <= PendingCount(l.outbox)
      && (SomeDue(l.outbox, now) ==> PendingCount(out) < PendingCount(l.outbox))
  {
    SmallBatch(l, now);
    if SomeDue(l.outbox, now) {
      var rows := Choose(l, now, false).rows;
      assert rows[0] in rows && rows[0].id in IdsOf(rows);
      SyncingCounts(l.outbox, IdsOf(rows), done);
      SyncedSmall(l.outbox, IdsOf(rows), done);
    }
  }

  lemma SyncedSmall(outbox: seq<OutboxRow>, ids: set<nat>, now: int)
    requires AllSmall(outbox)
    ensures AllSmall(MarkSynced(outbox, ids, now))
  {
    var out := MarkSynced(outbox, ids, now);
    forall r | r in out && r.status == Pending
      ensures |r.payload.entries| <= 98
    {
      var i :| 0 <= i < |out| && out[i] == r;
      assert outbox[i] in outbox;
    }
  }

  /** The armed alarm rings at a time when some pending row is due, if any row is pending. */
  ghost predicate AlarmCovers(l: Ledger) {
    && l.alarm.Some?
    && ((exists r :: r in l.outbox && r.status == Pending) ==> forall t :: t >= l.alarm.value ==> SomeDue(l.outbox, t))
  }

  lemma RescheduleCovers(l: Ledger, now: int)
    requires l.alarm.None?
    ensures AlarmCovers(Reschedule(l, now))
  {
    var next := EarliestRetry(l.outbox, now);
    if next.Some? {
      var r :| r in l.outbox && r.status == Pending && next.value == RetryAt(r, now);
      forall t | t >= AlarmTarget(l, now)
        ensures SomeDue(l.outbox, t)
      {
        assert Due(r, t);
      }
    }
  }

  lemma CleanupKeepsPending(l: Ledger, now: int)
    requires AllSmall(l.outbox) && Resolvable(l)
    ensures AllSmall(Cleanup(l, now).outbox) && Resolvable(Cleanup(l, now))
    ensures PendingCount(Cleanup(l, now).outbox) == PendingCount(l.outbox)
  {
    SweepCounts(l.outbox, now);
  }

  lemma RescheduleFrame(l: Ledger, now: int)
    ensures Reschedule(l, now) == l.(alarm := Reschedule(l, now).alarm)
  {}

  /** Sweeping and re-arming keep what is pending, and arm the alarm for it. */
  lemma RestOfAlarm(l: Ledger, now: int)
    requires AllSmall(l.outbox) && Resolvable(l) && l.alarm.None?
    ensures var l' := Reschedule(Cleanup(l, now), now);
      AllSmall(l'.outbox) && Resolvable(l') && AlarmCovers(l') && PendingCount(l'.outbox) == PendingCount(l.outbox)
  {
    CleanupKeepsPending(l, now);
    RescheduleCovers(Cleanup(l, now), now);
    RescheduleFrame(Cleanup(l, now), now);
  }

  /** One alarm with an accepting D1: fewer pending rows if any was due, and the next alarm will find one. */
  lemma FiringDelivers(l: Ledger, now: int, done: int, snapshot: bool)
    requires AllSmall(l.outbox) && Resolvable(l)
    ensures var l' := AlarmLedger(l, now, done, true, snapshot);
      && AllSmall(l'.outbox) && Resolvable(l') && AlarmCovers(l')
      && PendingCount(l'.outbox) <= PendingCount(l.outbox)
      && (SomeDue(l.outbox, now) ==> PendingCount(l'.outbox) < PendingCount(l.outbox))
  {
    var l0 := l.(alarm := None);
    DrainDelivers(l0, now, done);
    DrainKeepsResolvable(l0, now, done, true);
    var l1 := DrainLedger(l0, now, done, false, true);
    RestOfAlarm(if snapshot then l1.(lastSnapshotAt := done) else l1, done);
  }

  // ---------------------------------------------------------------- bounded delivery

  datatype Firing = Firing(d: nat, now: int, done: int, snapshot: bool)

  /** A series of alarms, each with a D1 that accepts its batch. */
  function FireAll(s: System, firings: seq<Firing>): System
    decreases |firings|
  {
    if firings == [] then s
    else FireAll(FireAlarm(s, firings[0].d, firings[0].now, firings[0].done, true, firings[0].snapshot), firings[1..])
  }

  /** Each alarm rings no earlier than it was armed for, and its drain is a new one. */
  ghost predicate OnTime(s: System, firings: seq<Firing>)
    decreases |firings|
  {
    firings == [] ||
    (&& firings[0].d !in s.drains
     && s.l.alarm.Some? && s.l.alarm.value <= firings[0].now
     && OnTime(FireAlarm(s, firings[0].d, firings[0].now, firings[0].done, true, firings[0].snapshot), firings[1..]))
  }

  lemma {:induction false} FiringsDeliver(s: System, firings: seq<Firing>)
    requires AllSmall(s.l.outbox) && Resolvable(s.l) && OnTime(s, firings)
    ensures AlarmCovers(s.l) && |firings| >= PendingCount(s.l.outbox) ==> PendingCount(FireAll(s, firings).l.outbox) == 0
    ensures |firings| >= PendingCount(s.l.outbox) + 1 ==> PendingCount(FireAll(s, firings).l.outbox) == 0
    decreases |firings|
  {
    PendingCountZero(s.l.outbox);
    if firings != [] {
      var f := firings[0];
      var s' := FireAlarm(s, f.d, f.now, f.done, true, f.snapshot);
      FireAlarmLedger(s, f.d, f.now, f.done, true, f.snapshot);
      FiringDelivers(s.l, f.now, f.done, f.snapshot);
      FiringsDeliver(s', firings[1..]);
    }
  }

  lemma {:induction false} FiringsAreRun(s: System, firings: seq<Firing>) returns (es: seq<Event>)
    ensures NoPosts(es) && Run(s, es) == FireAll(s, firings)
    decreases |firings|
  {
    es := [];
    if firings != [] {
      var f := firings[0];
      var first := FireAlarmIsRun(s, f.d, f.now, f.done, true, f.snapshot);
      var rest := FiringsAreRun(FireAlarm(s, f.d, f.now, f.done, true, f.snapshot), firings[1..]);
      RunAppend(s, first, rest);
      es := first + rest;
    }
  }

  lemma {:induction false} FiringsCovered(nameId: Option<int>, t0: int, events: seq<Event>, firings: seq<Firing>)
    ensures var s, s' := Run(Init(nameId, t0), events), FireAll(Run(Init(nameId, t0), events), firings);
      s'.log == s.log && Covered(s'.l.outbox, s'.log, s'.mirror)
  {
    var s := Run(Init(nameId, t0), events);
    var es := FiringsAreRun(s, firings);
    NoPostsKeepLog(s, es);
    RunAppend(Init(nameId, t0), events, es);
    RunInv(nameId, t0, events + es);
  }

  lemma DrainedSystem(s: System)
    requires Covered(s.l.outbox, s.log, s.mirror) && PendingCount(s.l.outbox) == 0
    ensures (forall r :: r in s.l.outbox ==> r.status != Pending) && forall it :: it in s.log ==> Complete(s.mirror, it)
  {
    PendingCountZero(s.l.outbox);
    DrainedMeansMirrored(s);
  }

  /**
   * From the state any run leads to, if D1 accepts, the merchant id can be resolved and every
   * pending posting has at most 98 legs, then one alarm more than there are pending rows empties the
   * outbox and leaves every committed posting in the mirror.
   */
  lemma {:induction false} BoundedDelivery(nameId: Option<int>, t0: int, events: seq<Event>, firings: seq<Firing>)
    requires var s := Run(Init(nameId, t0), events);
      && AllSmall(s.l.outbox) && Resolvable(s.l) && OnTime(s, firings)
      && |firings| >= PendingCount(s.l.outbox) + 1
    ensures var s, s' := Run(Init(nameId, t0), events), FireAll(Run(Init(nameId, t0), events), firings);
      && (forall r :: r in s'.l.outbox ==> r.status != Pending)
      && (forall it :: it in s.log ==> Complete(s'.mirror, it))
  {
    var s := Run(Init(nameId, t0), events);
    FiringsDeliver(s, firings);
    FiringsCovered(nameId, t0, events, firings);
    DrainedSystem(FireAll(s, firings));
  }

  lemma {:induction false} OversizeStays(nameId: Option<int>, t0: int, events: seq<Event>, firings: seq<Firing>, r: OutboxRow)
    requires r in Run(Init(nameId, t0), events).l.outbox && |r.payload.entries| > 98
    ensures PendingCount(FireAll(Run(Init(nameId, t0), events), firings).l.outbox) > 0
  {
    var s := Run(Init(nameId, t0), events);
    var es := FiringsAreRun(s, firings);
    RunAppend(Init(nameId, t0), events, es);
    NoPostsKeepLog(s, es);
    RowIsLogged(nameId, t0, events, r);
    OversizeNeverMirrored(nameId, t0, events + es, ItemOf(r));
    var s' := FireAll(s, firings);
    PendingCountZero(s'.l.outbox);
    var i :| 0 <= i < |s'.l.outbox| && s'.l.outbox[i].status == Pending && ItemOf(s'.l.outbox[i]) == ItemOf(r);
    assert s'.l.outbox[i] in s'.l.outbox;
  }

  lemma {:induction false} RowIsLogged(nameId: Option<int>, t0: int, events: seq<Event>, r: OutboxRow)
    requires r in Run(Init(nameId, t0), events).l.outbox
    ensures ItemOf(r) in Run(Init(nameId, t0), events).log
  {
    var s := Run(Init(nameId, t0), events);
    RunInv(nameId, t0, events);
    var i :| 0 <= i < |s.l.outbox| && s.l.outbox[i] == r;
    assert RowInv(s.l.outbox[i], s.l.nextId, s.log, s.mirror);
  }

  lemma PickOversize(outbox: seq<OutboxRow>) returns (r: OutboxRow)
    requires !AllSmall(outbox)
    ensures r in outbox && |r.payload.entries| > 98
  {
    r :| r in outbox && r.status == Pending && |r.payload.entries| > 98;
  }

  /** The bound is exact: enough accepted alarms empty the outbox if and only if no pending posting has more than 98 legs. */
  lemma {:induction false} DeliveredIffSmall(nameId: Option<int>, t0: int, events: seq<Event>, firings: seq<Firing>)
    requires var s := Run(Init(nameId, t0), events);
      Resolvable(s.l) && OnTime(s, firings) && |firings| >= PendingCount(s.l.outbox) + 1
    ensures var s := Run(Init(nameId, t0), events);
      (PendingCount(FireAll(s, firings).l.outbox) == 0) == AllSmall(s.l.outbox)
  {
    var s := Run(Init(nameId, t0), events);
    if AllSmall(s.l.outbox) {
      FiringsDeliver(s, firings);
    } else {
      var r := PickOversize(s.l.outbox);
      OversizeStays(nameId, t0, events, firings, r);
    }
  }

  // ---------------------------------------------------------------- what a drain sends

  ghost predicate LowestPending(r: OutboxRow, outbox: seq<OutboxRow>, now: int, force: bool) {
    && r in outbox && Eligible(r, now, force)
    && forall q :: q in outbox && Eligible(q, now, force) ==> r.id <= q.id
  }

  lemma LowestIsFirst(outbox: seq<OutboxRow>, now: int, force: bool, r: OutboxRow)
    requires AscendingIds(outbox) && LowestPending(r, outbox, now, force)
    ensures var rows := Candidates(outbox, now, force); rows != [] && rows[0] == r
  {
    var rows := Candidates(outbox, now, force);
    CandidatesAreLowest(outbox, now, force);
    assert rows[0] in rows;
    var i :| 0 <= i < |rows| && rows[i] == r;
    assert rows[0].id <= r.id;
  }

  lemma BatchIff(l: Ledger, now: int, force: bool, r: OutboxRow)
    requires AscendingIds(l.outbox) && LowestPending(r, l.outbox, now, force)
    ensures var choice := Choose(l, now, force);
      && (choice.Batch? <==> |r.payload.entries| <= 98 && (MerchantIdOf(l).Some? || r.payload.merchantId > 0))
      && (choice.Batch? ==> r in choice.rows)
  {
    var rows := Candidates(l.outbox, now, force);
    LowestIsFirst(l.outbox, now, force, r);
    NothingFits(rows);
    assert Included(rows) != [] ==> Included(rows)[0] == r;
  }

  lemma DrainOnRows(outbox: seq<OutboxRow>, choice: Choice, accepted: bool, at: int)
    ensures var out := AfterDrain(outbox, choice, accepted, at);
      && |out| == |outbox|
      && forall j :: 0 <= j < |out| ==> ItemOf(out[j]) == ItemOf(outbox[j]) && (!choice.Batch? ==> out[j].status == outbox[j].status)
  {}

  /**
   * The eligible row of lowest id decides for all: a drain sends something if and only if that row
   * has at most 98 legs and the merchant is known or named by its payload.  Otherwise, whatever D1
   * would answer, no row changes its status.  A forced drain finds every pending row eligible, so
   * such a row blocks it for good.
   */
  lemma DrainSendsIff(l: Ledger, now: int, done: int, force: bool, accepted: bool, r: OutboxRow)
    requires AscendingIds(l.outbox) && LowestPending(r, l.outbox, now, force)
    ensures var choice, out := Choose(l, now, force), DrainLedger(l, now, done, force, accepted).outbox;
      && (choice.Batch? <==> |r.payload.entries| <= 98 && (MerchantIdOf(l).Some? || r.payload.merchantId > 0))
      && (choice.Batch? ==> r in choice.rows)
      && |out| == |l.outbox|
      && forall j :: 0 <= j < |out| ==> ItemOf(out[j]) == ItemOf(l.outbox[j]) && (!choice.Batch? ==> out[j].status == l.outbox[j].status)
  {
    BatchIff(l, now, force, r);
    DrainOnRows(l.outbox, Choose(l, now, force), accepted, SettledAt(Choose(l, now, force), now, done));
  }

  /**
   * The same row decides whether the drain learns the merchant.  Once it has, the id is cached and
   * the state is resolvable, so BoundedDelivery applies from there.
   */
  lemma DrainResolvesIff(l: Ledger, now: int, done: int, force: bool, accepted: bool, r: OutboxRow)
    requires AscendingIds(l.outbox) && LowestPending(r, l.outbox, now, force)
    ensures var l' := DrainLedger(l, now, done, force, accepted);
      && (MerchantIdOf(l').Some? <==> MerchantIdOf(l).Some? || r.payload.merchantId > 0)
      && (MerchantIdOf(l').Some? ==> Resolvable(l'))
  {
    LowestIsFirst(l.outbox, now, force, r);
  }

  // ---------------------------------------------------------------- some payloads with, some without a merchant

  /** The first due row names a merchant; CandidatesAreLowest says that it is the one of lowest id. */
  predicate FirstDueNames(l: Ledger, now: int) {
    var rows := Candidates(l.outbox, now, false);
    rows != [] && rows[0].payload.merchantId > 0
  }

  /** Some alarm of the series finds such a row. */
  ghost predicate SomeAlarmNames(s: System, firings: seq<Firing>)
    decreases |firings|
  {
    firings != [] &&
    (|| FirstDueNames(s.l, firings[0].now)
     || SomeAlarmNames(FireAlarm(s, firings[0].d, firings[0].now, firings[0].done, true, firings[0].snapshot), firings[1..]))
  }

  lemma {:induction false} RetryKeepsCount(outbox: seq<OutboxRow>, ids: set<nat>, now: int)
    ensures PendingCount(MarkRetry(outbox, ids, now)) == PendingCount(outbox)
  {
    if outbox != [] {
      var init := outbox[..|outbox| - 1];
      assert MarkRetry(outbox, ids, now)[..|init|] == MarkRetry(init, ids, now);
      RetryKeepsCount(init, ids, now);
    }
  }

  lemma RetryKeepsSmall(outbox: seq<OutboxRow>, ids: set<nat>, now: int)
    requires AllSmall(outbox)
    ensures AllSmall(MarkRetry(outbox, ids, now))
  {
    var out := MarkRetry(outbox, ids, now);
    forall r | r in out && r.status == Pending
      ensures |r.payload.entries| <= 98
    {
      var i :| 0 <= i < |out| && out[i] == r;
      assert outbox[i] in outbox;
    }
  }

  /** An alarm that finds no such row sends nothing and learns nothing. */
  lemma UnnamedDrain(l: Ledger, now: int, done: int)
    requires AllSmall(l.outbox) && MerchantIdOf(l).None? && !FirstDueNames(l, now)
    ensures var l' := DrainLedger(l, now, done, false, true);
      && AllSmall(l'.outbox) && MerchantIdOf(l').None? && PendingCount(l'.outbox) == PendingCount(l.outbox)
      && l' == l.(outbox := l'.outbox)
  {
    var rows := Candidates(l.outbox, now, false);
    if rows != [] {
      RetryKeepsCount(l.outbox, IdsOf(rows), now);
      RetryKeepsSmall(l.outbox, IdsOf(rows), now);
    }
  }

  /** One that finds it sends at least that row, and knows the merchant from then on. */
  lemma NamedDrain(l: Ledger, now: int, done: int)
    requires AllSmall(l.outbox) && MerchantIdOf(l).None? && FirstDueNames(l, now)
    ensures var l' := DrainLedger(l, now, done, false, true);
      AllSmall(l'.outbox) && MerchantIdOf(l').Some? && PendingCount(l'.outbox) < PendingCount(l.outbox)
  {
    var rows := Candidates(l.outbox, now, false);
    assert rows[0] in rows;
    NothingFits(rows);
    var sent := Included(rows);
    assert sent[0] == rows[0] && sent[0] in sent && sent[0].id in IdsOf(sent);
    SyncingCounts(l.outbox, IdsOf(sent), done);
    SyncedSmall(l.outbox, IdsOf(sent), done);
  }

  /** What follows the drain keeps the merchant and what is pending. */
  lemma QuietRest(l: Ledger, now: int, snapshot: bool)
    requires AllSmall(l.outbox) && l.alarm.None?
    ensures var l1 := if snapshot then l.(lastSnapshotAt := now) else l;
      var l' := Reschedule(Cleanup(l1, now), now);
      && AllSmall(l'.outbox) && MerchantIdOf(l') == MerchantIdOf(l) && AlarmCovers(l')
      && PendingCount(l'.outbox) == PendingCount(l.outbox)
  {
    var l1 := if snapshot then l.(lastSnapshotAt := now) else l;
    SweepCounts(l1.outbox, now);
    RescheduleCovers(Cleanup(l1, now), now);
    RescheduleFrame(Cleanup(l1, now), now);
  }

  lemma AlarmOnMixed(l: Ledger, now: int, done: int, snapshot: bool)
    requires AllSmall(l.outbox) && MerchantIdOf(l).None?
    ensures var l' := AlarmLedger(l, now, done, true, snapshot);
      && AllSmall(l'.outbox) && AlarmCovers(l')
      && if FirstDueNames(l, now) then MerchantIdOf(l').Some? && PendingCount(l'.outbox) < PendingCount(l.outbox)
         else MerchantIdOf(l').None? && PendingCount(l'.outbox) == PendingCount(l.outbox)
  {
    var l0 := l.(alarm := None);
    if FirstDueNames(l0, now) {
      NamedDrain(l0, now, done);
    } else {
      UnnamedDrain(l0, now, done);
    }
    QuietRest(DrainLedger(l0, now, done, false, true), done, snapshot);
  }

  /** With the merchant known, accepted alarms never add to what is pending. */
  lemma {:induction false} KnownNeverGrows(s: System, firings: seq<Firing>)
    requires AllSmall(s.l.outbox) && Resolvable(s.l) && OnTime(s, firings)
    ensures PendingCount(FireAll(s, firings).l.outbox) <= PendingCount(s.l.outbox)
    decreases |firings|
  {
    if firings != [] {
      var f := firings[0];
      FireAlarmLedger(s, f.d, f.now, f.done, true, f.snapshot);
      FiringDelivers(s.l, f.now, f.done, f.snapshot);
      KnownNeverGrows(FireAlarm(s, f.d, f.now, f.done, true, f.snapshot), firings[1..]);
    }
  }

  /**
   * While no merchant id is known, a series of accepted alarms delivers something if and only if one
   * of them finds a first due row that names the merchant; until then no alarm delivers anything.
   */
  lemma {:induction false} DeliveryStartsIff(s: System, firings: seq<Firing>)
    requires AllSmall(s.l.outbox) && MerchantIdOf(s.l).None? && OnTime(s, firings)
    ensures PendingCount(FireAll(s, firings).l.outbox) <= PendingCount(s.l.outbox)
    ensures PendingCount(FireAll(s, firings).l.outbox) < PendingCount(s.l.outbox) <==> SomeAlarmNames(s, firings)
    decreases |firings|
  {
    if firings != [] {
      var f := firings[0];
      var s' := FireAlarm(s, f.d, f.now, f.done, true, f.snapshot);
      FireAlarmLedger(s, f.d, f.now, f.done, true, f.snapshot);
      AlarmOnMixed(s.l, f.now, f.done, f.snapshot);
      if FirstDueNames(s.l, f.now) {
        KnownNeverGrows(s', firings[1..]);
      } else {
        DeliveryStartsIff(s', firings[1..]);
      }
    }
  }

  /** And from the alarm that finds it on, as many more alarms as rows are pending deliver everything. */
  lemma {:induction false} DeliveredOnceNamed(s: System, firings: seq<Firing>, more: seq<Firing>)
    requires AllSmall(s.l.outbox) && MerchantIdOf(s.l).None? && OnTime(s, firings + more)
    requires SomeAlarmNames(s, firings) && |more| >= PendingCount(s.l.outbox)
    ensures PendingCount(FireAll(s, firings + more).l.outbox) == 0
    decreases |firings|
  {
    var f, all := firings[0], firings + more;
    var s' := FireAlarm(s, f.d, f.now, f.done, true, f.snapshot);
    assert all[0] == f && all[1..] == firings[1..] + more;
    FireAlarmLedger(s, f.d, f.now, f.done, true, f.snapshot);
    AlarmOnMixed(s.l, f.now, f.done, f.snapshot);
    if FirstDueNames(s.l, f.now) {
      FiringsDeliver(s', firings[1..] + more);
    } else {
      DeliveredOnceNamed(s', firings[1..], more);
    }
  }

  // ---------------------------------------------------------------- postings without a merchant

  /** No id in the cache, in the name or in any payload; nothing was ever sent. */
  ghost predicate Anonymous(s: System) {
    && MerchantIdOf(s.l).None? && (forall r :: r in s.l.outbox ==> r.payload.merchantId <= 0)
    && s.drains == map[] && s.mirror == Mirror(map[], map[], [])
  }

  lemma PostKeepsAnonymity(l: Ledger, p: Payload, now: int, fault: Fault)
    requires MerchantIdOf(l).None? && p.merchantId <= 0
    ensures MerchantIdOf(Post(l, p, now, fault).0).None?
  {
    SeededPostKeepsAnonymity(SeedChart(l, p.currency), p, now, fault);
  }

  lemma SeededPostKeepsAnonymity(l: Ledger, p: Payload, now: int, fault: Fault)
    requires MerchantIdOf(l).None? && p.merchantId <= 0
    ensures MerchantIdOf(PostSeeded(l, p, now, fault).0).None?
  {}

  lemma StepKeepsAnonymous(s: System, e: Event)
    requires Anonymous(s) && (e.PostCall? ==> e.payload.merchantId <= 0)
    ensures Anonymous(Step(s, e))
  {
    match e {
      case PostCall(p, now, fault) =>
        PostKeepsAnonymity(s.l, p, now, fault);
        PostOnOutbox(s.l, s.log, p, now, fault);
      case DrainSelect(d, now, force) => AnonymousSelect(s, d, now, force);
      case CleanupTick(now) => assert forall r :: r in Cleanup(s.l, now).outbox ==> r in s.l.outbox;
      case _ =>
    }
  }

  lemma AnonymousSelect(s: System, d: nat, now: int, force: bool)
    requires Anonymous(s)
    ensures Anonymous(SelectStep(s, d, now, force))
  {
    var rows := Candidates(s.l.outbox, now, force);
    if rows != [] {
      assert rows[0] in rows && rows[0] in s.l.outbox;
      var out := MarkRetry(s.l.outbox, IdsOf(rows), now);
      forall r | r in out
        ensures r.payload.merchantId <= 0
      {
        var i :| 0 <= i < |out| && out[i] == r;
        assert s.l.outbox[i] in s.l.outbox;
      }
    }
  }

  lemma {:induction false} RunAnonymous(nameId: Option<int>, t0: int, events: seq<Event>)
    requires nameId.None? || nameId.value <= 0
    requires forall i :: 0 <= i < |events| && events[i].PostCall? ==> events[i].payload.merchantId <= 0
    ensures Anonymous(Run(Init(nameId, t0), events))
  {
    if events != [] {
      RunAnonymous(nameId, t0, events[..|events| - 1]);
      StepKeepsAnonymous(Run(Init(nameId, t0), events[..|events| - 1]), events[|events| - 1]);
    }
  }

  /**
   * Validation does not ask for a merchant id.  In an object without a usable name whose callers
   * never give one, every commit stays pending and the mirror stays empty, in every run.
   */
  lemma {:induction false} NoMerchantNeverMirrored(nameId: Option<int>, t0: int, events: seq<Event>)
    requires nameId.None? || nameId.value <= 0
    requires forall i :: 0 <= i < |events| && events[i].PostCall? ==> events[i].payload.merchantId <= 0
    ensures var s := Run(Init(nameId, t0), events);
      s.mirror == Mirror(map[], map[], []) && forall it :: it in s.log ==> PendingFor(s.l.outbox, it)
  {
    RunAnonymous(nameId, t0, events);
    RunInv(nameId, t0, events);
  }
}
