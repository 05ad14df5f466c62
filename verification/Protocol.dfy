/**
 * The ledger, its outbox and the D1 mirror as one system whose steps interleave freely: posting
 * calls with faults, overlapping drains split at their await, batches that D1 applies late, twice
 * or after the answer was lost, retention sweeps, and crashes.  A run is any sequence of events
 * with any clock readings; the theorems at the end hold in the state every run leads to.
 */
module Protocol {
  import opened Common
  import opened Chart
  import opened Journal
  import opened Posting
  import opened AuditMirror
  import opened Outbox

  /** A drain that has sent its batch.  It is live until the ledger has seen an answer or crashed. */
  datatype Drain = Drain(rows: seq<OutboxRow>, applied: bool, live: bool)

  datatype System = System(l: Ledger, mirror: Mirror, drains: map<nat, Drain>, log: seq<LogItem>)

  datatype Event =
    | PostCall(payload: Payload, now: int, fault: Fault)
    | DrainSelect(d: nat, now: int, force: bool)
    | D1Apply(d: nat)
    | D1Answer(d: nat, ok: bool, now: int)
    | CleanupTick(now: int)
    | SnapshotTick(now: int)
    | AlarmFired
    | RescheduleAlarm(now: int)
    | Crash(now: int)

  function EmptyLedger(nameId: Option<int>, now: int): Ledger {
    Ledger(nameId, DEFAULT_CHART_OF_ACCOUNTS, map[], map[], [], [], 1, Some(now + SNAPSHOT_INTERVAL_MS), 0, 0, None, None)
  }

  function Init(nameId: Option<int>, now: int): System {
    System(EmptyLedger(nameId, now), Mirror(map[], map[], []), map[], [])
  }

  function SelectStep(s: System, d: nat, now: int, force: bool): System {
    StartDrain(s, d, now, Choose(s.l, now, force), CacheMerchant(s.l, now, force))
  }

  /** Rows that cannot be sent are put off at once; a batch is sent and the drain waits for its answer. */
  function StartDrain(s: System, d: nat, now: int, choice: Choice, l: Ledger): System {
    match choice
    case Nothing => s
    case NoMerchant(rows) => s.(l := l.(outbox := MarkRetry(l.outbox, IdsOf(rows), now)))
    case TooLarge(row) => s.(l := l.(outbox := MarkRetry(l.outbox, {row.id}, now)))
    case Batch(rows) => s.(l := l, drains := s.drains[d := Drain(rows, false, true)])
  }

  function ApplyStep(s: System, d: nat): System
    requires d in s.drains
  {
    s.(mirror := ExecAll(s.mirror, BatchStatements(ItemsOf(s.drains[d].rows))), drains := s.drains[d := s.drains[d].(applied := true)])
  }

  function AnswerStep(s: System, d: nat, ok: bool, now: int): System
    requires d in s.drains
  {
    var ids := IdsOf(s.drains[d].rows);
    var outbox := if ok then MarkSynced(s.l.outbox, ids, now) else MarkRetry(s.l.outbox, ids, now);
    s.(l := s.l.(outbox := outbox), drains := s.drains[d := s.drains[d].(live := false)])
  }

  function Restart(l: Ledger, now: int): Ledger {
    l.(merchantId := None, seededCurrency := None, alarm := if l.alarm.None? then Some(now + SNAPSHOT_INTERVAL_MS) else l.alarm)
  }

  /** One step; an event that cannot happen in a state leaves it as it is. */
  function Step(s: System, e: Event): System {
    match e
    case PostCall(p, now, fault) => s.(l := Post(s.l, p, now, fault).0, log := LogAfter(s.l, s.log, p, now, fault))
    case DrainSelect(d, now, force) => if d in s.drains then s else SelectStep(s, d, now, force)
    case D1Apply(d) => if d !in s.drains then s else ApplyStep(s, d)
    case D1Answer(d, ok, now) =>
      if d !in s.drains || !s.drains[d].live || (ok && !s.drains[d].applied) then s else AnswerStep(s, d, ok, now)
    case CleanupTick(now) => s.(l := Cleanup(s.l, now))
    case SnapshotTick(now) => s.(l := s.l.(lastSnapshotAt := now))
    case AlarmFired => s.(l := s.l.(alarm := None))
    case RescheduleAlarm(now) => s.(l := Reschedule(s.l, now))
    case Crash(now) => s.(l := Restart(s.l, now), drains := map d | d in s.drains :: s.drains[d].(live := false))
  }

  function Run(init: System, events: seq<Event>): System {
    if events == [] then init else Step(Run(init, events[..|events| - 1]), events[|events| - 1])
  }

  // ---------------------------------------------------------------- invariant

  ghost predicate SameEvent(r: OutboxRow, q: OutboxRow) {
    r.id == q.id && r.eventId == q.eventId && r.payload == q.payload && r.postedAt == q.postedAt
  }

  ghost predicate Named(r: OutboxRow) {
    exists m: int :: r.eventId == EventId(m, r.payload.txId)
  }

  ghost predicate RowInv(r: OutboxRow, nextId: nat, log: seq<LogItem>, mirror: Mirror) {
    && r.id < nextId
    && Named(r)
    && ItemOf(r) in log
    && (r.status == Synced ==> Complete(mirror, ItemOf(r)))
  }

  ghost predicate OutboxInv(outbox: seq<OutboxRow>, nextId: nat, log: seq<LogItem>, mirror: Mirror) {
    && (forall i :: 0 <= i < |outbox| ==> RowInv(outbox[i], nextId, log, mirror))
    && AscendingIds(outbox)
  }

  ghost predicate PendingFor(outbox: seq<OutboxRow>, it: LogItem) {
    exists i :: 0 <= i < |outbox| && outbox[i].status == Pending && ItemOf(outbox[i]) == it
  }

  ghost predicate Covered(outbox: seq<OutboxRow>, log: seq<LogItem>, mirror: Mirror) {
    forall it :: it in log ==> Complete(mirror, it) || PendingFor(outbox, it)
  }

  /** A row a drain holds is still the row of that id, however it was marked since; it has at most 98 legs. */
  ghost predicate HeldInv(q: OutboxRow, outbox: seq<OutboxRow>, nextId: nat, log: seq<LogItem>) {
    && q.id < nextId && ItemOf(q) in log && |q.payload.entries| <= 98
    && forall i :: 0 <= i < |outbox| && outbox[i].id == q.id ==> ItemOf(outbox[i]) == ItemOf(q)
  }

  ghost predicate DrainInv(dr: Drain, outbox: seq<OutboxRow>, nextId: nat, log: seq<LogItem>, mirror: Mirror) {
    && (forall k :: 0 <= k < |dr.rows| ==> HeldInv(dr.rows[k], outbox, nextId, log))
    && (dr.applied ==> forall k :: 0 <= k < |dr.rows| ==> Complete(mirror, ItemOf(dr.rows[k])))
  }

  ghost predicate DrainsInv(drains: map<nat, Drain>, outbox: seq<OutboxRow>, nextId: nat, log: seq<LogItem>, mirror: Mirror) {
    forall d :: d in drains ==> DrainInv(drains[d], outbox, nextId, log, mirror)
  }

  ghost predicate Inv(s: System) {
    && BookInv(s.l, s.log)
    && MirrorOk(s.mirror, s.log)
    && OutboxInv(s.l.outbox, s.l.nextId, s.log, s.mirror)
    && Covered(s.l.outbox, s.log, s.mirror)
    && DrainsInv(s.drains, s.l.outbox, s.l.nextId, s.log, s.mirror)
  }

  // ---------------------------------------------------------------- rewriting rows in place

  /** Rows keep their identity; a status changes only from pending to synced, and only once mirrored. */
  ghost predicate Rewrites(outbox: seq<OutboxRow>, out: seq<OutboxRow>, mirror: Mirror) {
    && |out| == |outbox|
    && forall i :: 0 <= i < |out| ==>
         && SameEvent(out[i], outbox[i])
         && (out[i].status == outbox[i].status || (out[i].status == Synced && Complete(mirror, ItemOf(outbox[i]))))
  }

  lemma RewriteKeepsOutbox(outbox: seq<OutboxRow>, out: seq<OutboxRow>, nextId: nat, log: seq<LogItem>, mirror: Mirror)
    requires OutboxInv(outbox, nextId, log, mirror) && Covered(outbox, log, mirror) && Rewrites(outbox, out, mirror)
    ensures OutboxInv(out, nextId, log, mirror) && Covered(out, log, mirror)
  {
    forall i | 0 <= i < |out|
      ensures RowInv(out[i], nextId, log, mirror)
    {
      assert RowInv(outbox[i], nextId, log, mirror) && SameEvent(out[i], outbox[i]);
    }
    forall i, j | 0 <= i < j < |out|
      ensures out[i].id < out[j].id
    {
      assert SameEvent(out[i], outbox[i]) && SameEvent(out[j], outbox[j]);
    }
    forall it | it in log && !Complete(mirror, it)
      ensures PendingFor(out, it)
    {
      var i :| 0 <= i < |outbox| && outbox[i].status == Pending && ItemOf(outbox[i]) == it;
      assert SameEvent(out[i], outbox[i]);
    }
  }

  lemma RewriteKeepsDrain(dr: Drain, outbox: seq<OutboxRow>, out: seq<OutboxRow>, nextId: nat, log: seq<LogItem>, mirror: Mirror)
    requires DrainInv(dr, outbox, nextId, log, mirror) && Rewrites(outbox, out, mirror)
    ensures DrainInv(dr, out, nextId, log, mirror)
  {
    forall k | 0 <= k < |dr.rows|
      ensures HeldInv(dr.rows[k], out, nextId, log)
    {
      assert HeldInv(dr.rows[k], outbox, nextId, log);
      forall i | 0 <= i < |out| && out[i].id == dr.rows[k].id
        ensures ItemOf(out[i]) == ItemOf(dr.rows[k])
      {
        assert SameEvent(out[i], outbox[i]);
      }
    }
  }

  lemma RewriteKeepsDrains(
      drains: map<nat, Drain>, outbox: seq<OutboxRow>, out: seq<OutboxRow>, nextId: nat, log: seq<LogItem>, mirror: Mirror)
    requires DrainsInv(drains, outbox, nextId, log, mirror) && Rewrites(outbox, out, mirror)
    ensures DrainsInv(drains, out, nextId, log, mirror)
  {
    forall d | d in drains
      ensures DrainInv(drains[d], out, nextId, log, mirror)
    {
      RewriteKeepsDrain(drains[d], outbox, out, nextId, log, mirror);
    }
  }

  lemma RewriteKeepsInv(s: System, out: seq<OutboxRow>)
    requires Inv(s) && Rewrites(s.l.outbox, out, s.mirror)
    ensures Inv(s.(l := s.l.(outbox := out)))
  {
    var s' := s.(l := s.l.(outbox := out));
    BookInvFrame(s.l, s'.l, s.log);
    RewriteKeepsOutbox(s.l.outbox, out, s.l.nextId, s.log, s.mirror);
    RewriteKeepsDrains(s.drains, s.l.outbox, out, s.l.nextId, s.log, s.mirror);
  }

  lemma RetryRewrites(outbox: seq<OutboxRow>, ids: set<nat>, now: int, mirror: Mirror)
    ensures Rewrites(outbox, MarkRetry(outbox, ids, now), mirror)
  {}

  /** The alarm, the caches and the stored timestamps are not part of the invariant. */
  lemma AlarmAndCachesKeepInv(s: System, l': Ledger)
    requires Inv(s)
    requires l' == s.l.(alarm := l'.alarm, merchantId := l'.merchantId, seededCurrency := l'.seededCurrency,
                        lastSnapshotAt := l'.lastSnapshotAt, lastCleanupAt := l'.lastCleanupAt)
    requires l'.seededCurrency == s.l.seededCurrency || l'.seededCurrency == None
    ensures Inv(s.(l := l'))
  {
    BookInvFrame(s.l, l', s.log);
  }

  // ---------------------------------------------------------------- posting

  lemma FreshEventId(outbox: seq<OutboxRow>, nextId: nat, log: seq<LogItem>, mirror: Mirror, m: int, tx: string)
    requires OutboxInv(outbox, nextId, log, mirror) && !InLog(log, tx)
    ensures !EventIdTaken(outbox, EventId(m, tx))
  {
    forall i | 0 <= i < |outbox|
      ensures outbox[i].eventId != EventId(m, tx)
    {
      assert RowInv(outbox[i], nextId, log, mirror);
      var n :| outbox[i].eventId == EventId(n, outbox[i].payload.txId);
      var k :| 0 <= k < |log| && log[k] == ItemOf(outbox[i]);
      assert log[k].payload.txId != tx;
      if outbox[i].eventId == EventId(m, tx) {
        EventIdInjective(n, outbox[i].payload.txId, m, tx);
      }
    }
  }

  /** The UNIQUE constraint on event_id never aborts a posting that reached the commit. */
  lemma FreshCommitNeverAborts(s: System, p: Payload, fault: Fault)
    requires OutboxInv(s.l.outbox, s.l.nextId, s.log, s.mirror) && Registry(s.l.posted, s.log)
    ensures var l := SeedChart(s.l, p.currency);
      && (Commits(l, p, fault) <==> ShapeError(p).None? && p.txId !in l.posted && BalanceError(l.accounts, p).None? && fault != BeforeCommit)
      && (CommitsIn(s.l, p, fault) <==> Commits(l, p, fault) && !SeedingFails(s.l, p, fault))
  {
    var l := SeedChart(s.l, p.currency);
    if p.txId !in s.l.posted {
      assert !InLog(s.log, p.txId);
      var l2 := Identify(l, p);
      FreshEventId(s.l.outbox, s.l.nextId, s.log, s.mirror, if MerchantIdOf(l2).Some? then MerchantIdOf(l2).value else p.merchantId, p.txId);
    }
  }

  lemma CommitKeepsOutbox(outbox: seq<OutboxRow>, nextId: nat, log: seq<LogItem>, mirror: Mirror, row: OutboxRow)
    requires OutboxInv(outbox, nextId, log, mirror) && Covered(outbox, log, mirror)
    requires row.id == nextId && row.status == Pending && Named(row)
    ensures OutboxInv(outbox + [row], nextId + 1, log + [ItemOf(row)], mirror)
    ensures Covered(outbox + [row], log + [ItemOf(row)], mirror)
  {
    var out, log' := outbox + [row], log + [ItemOf(row)];
    assert log'[|log|] == ItemOf(row);
    forall i | 0 <= i < |out|
      ensures RowInv(out[i], nextId + 1, log', mirror)
      ensures i < |outbox| ==> out[i].id < nextId
    {
      if i < |outbox| {
        assert RowInv(outbox[i], nextId, log, mirror);
      }
    }
    forall it | it in log'
      ensures Complete(mirror, it) || PendingFor(out, it)
    {
      if it in log && PendingFor(outbox, it) {
        var i :| 0 <= i < |outbox| && outbox[i].status == Pending && ItemOf(outbox[i]) == it;
        assert out[i].status == Pending && ItemOf(out[i]) == it;
      } else if it == ItemOf(row) {
        assert out[|outbox|].status == Pending && ItemOf(out[|outbox|]) == it;
      }
    }
  }

  lemma CommitKeepsDrain(dr: Drain, outbox: seq<OutboxRow>, nextId: nat, log: seq<LogItem>, mirror: Mirror, row: OutboxRow)
    requires DrainInv(dr, outbox, nextId, log, mirror) && row.id == nextId
    ensures DrainInv(dr, outbox + [row], nextId + 1, log + [ItemOf(row)], mirror)
  {
    forall k | 0 <= k < |dr.rows|
      ensures HeldInv(dr.rows[k], outbox + [row], nextId + 1, log + [ItemOf(row)])
    {
      assert HeldInv(dr.rows[k], outbox, nextId, log);
    }
  }

  lemma CommitKeepsDrains(
      drains: map<nat, Drain>, outbox: seq<OutboxRow>, nextId: nat, log: seq<LogItem>, mirror: Mirror, row: OutboxRow)
    requires DrainsInv(drains, outbox, nextId, log, mirror) && row.id == nextId
    ensures DrainsInv(drains, outbox + [row], nextId + 1, log + [ItemOf(row)], mirror)
  {
    forall d | d in drains
      ensures DrainInv(drains[d], outbox + [row], nextId + 1, log + [ItemOf(row)], mirror)
    {
      CommitKeepsDrain(drains[d], outbox, nextId, log, mirror, row);
    }
  }

  /** What a posting call does to the outbox: nothing, or one pending row more. */
  lemma PostOnOutbox(l: Ledger, log: seq<LogItem>, p: Payload, now: int, fault: Fault)
    ensures var l' := Post(l, p, now, fault).0;
      var row := OutboxRow(l.nextId, EventIdFor(Identify(SeedChart(l, p.currency), p), p), p, now, Pending, 0, None, 0);
      if CommitsIn(l, p, fault) then
        && Named(row) && p.txId !in l.posted
        && l'.outbox == l.outbox + [row] && l'.nextId == l.nextId + 1 && LogAfter(l, log, p, now, fault) == log + [ItemOf(row)]
      else
        l'.outbox == l.outbox && l'.nextId == l.nextId && LogAfter(l, log, p, now, fault) == log
  {
    PostSeededCases(SeedChart(l, p.currency), p, now, fault);
  }

  lemma CommitKeepsDelivery(
      outbox: seq<OutboxRow>, nextId: nat, log: seq<LogItem>, mirror: Mirror, drains: map<nat, Drain>, row: OutboxRow)
    requires MirrorOk(mirror, log) && OutboxInv(outbox, nextId, log, mirror)
    requires Covered(outbox, log, mirror) && DrainsInv(drains, outbox, nextId, log, mirror)
    requires !InLog(log, row.payload.txId) && row.id == nextId && row.status == Pending && Named(row)
    ensures var outbox', log' := outbox + [row], log + [ItemOf(row)];
      && MirrorOk(mirror, log') && OutboxInv(outbox', nextId + 1, log', mirror)
      && Covered(outbox', log', mirror) && DrainsInv(drains, outbox', nextId + 1, log', mirror)
  {
    CommitKeepsOutbox(outbox, nextId, log, mirror, row);
    CommitKeepsDrains(drains, outbox, nextId, log, mirror, row);
    MirrorOkGrows(mirror, log, ItemOf(row));
  }

  lemma CommitKeepsInv(s: System, l': Ledger, row: OutboxRow)
    requires Inv(s) && !InLog(s.log, row.payload.txId)
    requires row.id == s.l.nextId && row.status == Pending && Named(row)
    requires BookInv(l', s.log + [ItemOf(row)]) && l'.outbox == s.l.outbox + [row] && l'.nextId == s.l.nextId + 1
    ensures Inv(System(l', s.mirror, s.drains, s.log + [ItemOf(row)]))
  {
    CommitKeepsDelivery(s.l.outbox, s.l.nextId, s.log, s.mirror, s.drains, row);
  }

  lemma QuietPostKeepsInv(s: System, l': Ledger)
    requires Inv(s) && BookInv(l', s.log) && l'.outbox == s.l.outbox && l'.nextId == s.l.nextId
    ensures Inv(s.(l := l'))
  {}

  lemma PostKeepsInv(s: System, p: Payload, now: int, fault: Fault)
    requires Inv(s)
    ensures Inv(Step(s, PostCall(p, now, fault)))
  {
    var l := SeedChart(s.l, p.currency);
    var l' := Post(s.l, p, now, fault).0;
    PostKeepsBook(s.l, s.log, p, now, fault);
    PostOnOutbox(s.l, s.log, p, now, fault);
    if CommitsIn(s.l, p, fault) {
      assert !InLog(s.log, p.txId);
      CommitKeepsInv(s, l', OutboxRow(s.l.nextId, EventIdFor(Identify(l, p), p), p, now, Pending, 0, None, 0));
    } else {
      QuietPostKeepsInv(s, l');
    }
  }

  // ---------------------------------------------------------------- drains

  lemma {:induction false} TotalCostMember(rows: seq<OutboxRow>, k: nat)
    requires k < |rows|
    ensures Cost(rows[k]) <= TotalCost(rows)
  {
    if k < |rows| - 1 {
      TotalCostMember(rows[..|rows| - 1], k);
    }
  }

  lemma SelectedRows(l: Ledger, log: seq<LogItem>, mirror: Mirror, now: int, force: bool)
    requires OutboxInv(l.outbox, l.nextId, log, mirror) && Choose(l, now, force).Batch?
    ensures DrainInv(Drain(Choose(l, now, force).rows, false, true), l.outbox, l.nextId, log, mirror)
  {
    var all := Candidates(l.outbox, now, force);
    var rows := Included(all);
    forall k | 0 <= k < |rows|
      ensures HeldInv(rows[k], l.outbox, l.nextId, log)
    {
      assert rows[k] == all[k] && all[k] in all;
      TotalCostMember(rows, k);
      RowIsHeld(rows[k], l.outbox, l.nextId, log, mirror);
    }
  }

  lemma RowIsHeld(r: OutboxRow, outbox: seq<OutboxRow>, nextId: nat, log: seq<LogItem>, mirror: Mirror)
    requires OutboxInv(outbox, nextId, log, mirror) && r in outbox && |r.payload.entries| <= 98
    ensures HeldInv(r, outbox, nextId, log)
  {
    var i :| 0 <= i < |outbox| && outbox[i] == r;
    assert RowInv(outbox[i], nextId, log, mirror);
    forall j | 0 <= j < |outbox| && outbox[j].id == r.id
      ensures outbox[j] == r
    {
      assert j == i;
    }
  }

  lemma MarkRetryKeepsInv(s: System, ids: set<nat>, now: int)
    requires Inv(s)
    ensures Inv(s.(l := s.l.(outbox := MarkRetry(s.l.outbox, ids, now))))
  {
    RetryRewrites(s.l.outbox, ids, now, s.mirror);
    RewriteKeepsInv(s, MarkRetry(s.l.outbox, ids, now));
  }

  lemma NewDrainKeepsInv(s: System, d: nat, dr: Drain)
    requires Inv(s) && DrainInv(dr, s.l.outbox, s.l.nextId, s.log, s.mirror)
    ensures Inv(s.(drains := s.drains[d := dr]))
  {}

  lemma StartDrainKeepsInv(s: System, d: nat, now: int, choice: Choice, l: Ledger)
    requires Inv(s) && l == s.l.(merchantId := l.merchantId)
    requires choice.Batch? ==> DrainInv(Drain(choice.rows, false, true), s.l.outbox, s.l.nextId, s.log, s.mirror)
    ensures Inv(StartDrain(s, d, now, choice, l))
  {
    var t := s.(l := l);
    AlarmAndCachesKeepInv(s, l);
    match choice {
      case Nothing =>
      case NoMerchant(rows) => MarkRetryKeepsInv(t, IdsOf(rows), now);
      case TooLarge(row) => MarkRetryKeepsInv(t, {row.id}, now);
      case Batch(rows) => NewDrainKeepsInv(t, d, Drain(rows, false, true));
    }
  }

  lemma SelectKeepsInv(s: System, d: nat, now: int, force: bool)
    requires Inv(s) && d !in s.drains
    ensures Inv(SelectStep(s, d, now, force))
  {
    var choice, l := Choose(s.l, now, force), CacheMerchant(s.l, now, force);
    if choice.Batch? {
      SelectedRows(s.l, s.log, s.mirror, now, force);
    }
    StartDrainKeepsInv(s, d, now, choice, l);
  }

  lemma ApplyKeepsOutbox(outbox: seq<OutboxRow>, nextId: nat, log: seq<LogItem>, mirror: Mirror, mirror': Mirror)
    requires OutboxInv(outbox, nextId, log, mirror) && Covered(outbox, log, mirror)
    requires forall x :: x in log && Complete(mirror, x) ==> Complete(mirror', x)
    ensures OutboxInv(outbox, nextId, log, mirror') && Covered(outbox, log, mirror')
  {
    forall i | 0 <= i < |outbox|
      ensures RowInv(outbox[i], nextId, log, mirror')
    {
      assert RowInv(outbox[i], nextId, log, mirror);
    }
  }

  lemma ApplyKeepsDrain(dr: Drain, outbox: seq<OutboxRow>, nextId: nat, log: seq<LogItem>, mirror: Mirror, mirror': Mirror)
    requires DrainInv(dr, outbox, nextId, log, mirror)
    requires forall x :: x in log && Complete(mirror, x) ==> Complete(mirror', x)
    ensures DrainInv(dr, outbox, nextId, log, mirror')
  {
    forall k | dr.applied && 0 <= k < |dr.rows|
      ensures Complete(mirror', ItemOf(dr.rows[k]))
    {
      assert HeldInv(dr.rows[k], outbox, nextId, log);
    }
  }

  lemma HeldItemsLogged(dr: Drain, outbox: seq<OutboxRow>, nextId: nat, log: seq<LogItem>, mirror: Mirror)
    requires DrainInv(dr, outbox, nextId, log, mirror)
    ensures forall x :: x in ItemsOf(dr.rows) ==> x in log
  {
    var items := ItemsOf(dr.rows);
    forall x | x in items
      ensures x in log
    {
      var k :| 0 <= k < |items| && items[k] == x;
      assert HeldInv(dr.rows[k], outbox, nextId, log);
    }
  }

  lemma ApplyKeepsDrains(
      drains: map<nat, Drain>, d: nat, outbox: seq<OutboxRow>, nextId: nat, log: seq<LogItem>, mirror: Mirror, mirror': Mirror)
    requires DrainsInv(drains, outbox, nextId, log, mirror) && d in drains
    requires forall x :: x in log && Complete(mirror, x) ==> Complete(mirror', x)
    requires forall x :: x in ItemsOf(drains[d].rows) ==> Complete(mirror', x)
    ensures DrainsInv(drains[d := drains[d].(applied := true)], outbox, nextId, log, mirror')
  {
    var drains' := drains[d := drains[d].(applied := true)];
    forall c | c in drains'
      ensures DrainInv(drains'[c], outbox, nextId, log, mirror')
    {
      ApplyKeepsDrain(drains[c], outbox, nextId, log, mirror, mirror');
      assert c == d ==> forall k :: 0 <= k < |drains[d].rows| ==> ItemsOf(drains[d].rows)[k] in ItemsOf(drains[d].rows);
    }
  }

  lemma NewMirrorKeepsInv(s: System, mirror': Mirror, drains': map<nat, Drain>)
    requires BookInv(s.l, s.log) && MirrorOk(mirror', s.log)
    requires OutboxInv(s.l.outbox, s.l.nextId, s.log, s.mirror) && Covered(s.l.outbox, s.log, s.mirror)
    requires forall x :: x in s.log && Complete(s.mirror, x) ==> Complete(mirror', x)
    requires DrainsInv(drains', s.l.outbox, s.l.nextId, s.log, mirror')
    ensures Inv(s.(mirror := mirror', drains := drains'))
  {
    ApplyKeepsOutbox(s.l.outbox, s.l.nextId, s.log, s.mirror, mirror');
  }

  /** A batch of committed postings, applied again or for the first time. */
  lemma {:induction false} ApplyOnMirror(dr: Drain, outbox: seq<OutboxRow>, nextId: nat, log: seq<LogItem>, mirror: Mirror)
    requires DrainInv(dr, outbox, nextId, log, mirror) && MirrorOk(mirror, log) && DistinctTx(log)
    ensures var mirror' := ExecAll(mirror, BatchStatements(ItemsOf(dr.rows)));
      && MirrorOk(mirror', log)
      && (forall x :: x in ItemsOf(dr.rows) ==> Complete(mirror', x))
      && (forall x :: x in log && Complete(mirror, x) ==> Complete(mirror', x))
  {
    BatchIsMirrorAll(mirror, ItemsOf(dr.rows));
    HeldItemsLogged(dr, outbox, nextId, log, mirror);
    BatchKeepsMirrorOk(mirror, log, ItemsOf(dr.rows));
  }

  lemma ApplyKeepsInv(s: System, d: nat)
    requires Inv(s) && d in s.drains
    ensures Inv(ApplyStep(s, d))
  {
    var mirror' := ExecAll(s.mirror, BatchStatements(ItemsOf(s.drains[d].rows)));
    ApplyOnMirror(s.drains[d], s.l.outbox, s.l.nextId, s.log, s.mirror);
    ApplyKeepsDrains(s.drains, d, s.l.outbox, s.l.nextId, s.log, s.mirror, mirror');
    NewMirrorKeepsInv(s, mirror', s.drains[d := s.drains[d].(applied := true)]);
  }

  lemma SyncRewrites(dr: Drain, outbox: seq<OutboxRow>, nextId: nat, log: seq<LogItem>, mirror: Mirror, now: int)
    requires DrainInv(dr, outbox, nextId, log, mirror) && dr.applied
    ensures Rewrites(outbox, MarkSynced(outbox, IdsOf(dr.rows), now), mirror)
  {
    forall i | 0 <= i < |outbox| && outbox[i].id in IdsOf(dr.rows)
      ensures Complete(mirror, ItemOf(outbox[i]))
    {
      var q :| q in dr.rows && q.id == outbox[i].id;
      var k :| 0 <= k < |dr.rows| && dr.rows[k] == q;
      assert HeldInv(dr.rows[k], outbox, nextId, log);
    }
  }

  lemma AnswerKeepsInv(s: System, d: nat, ok: bool, now: int)
    requires Inv(s) && d in s.drains && (ok ==> s.drains[d].applied)
    ensures Inv(AnswerStep(s, d, ok, now))
  {
    var ids := IdsOf(s.drains[d].rows);
    if ok {
      SyncRewrites(s.drains[d], s.l.outbox, s.l.nextId, s.log, s.mirror, now);
    } else {
      RetryRewrites(s.l.outbox, ids, now, s.mirror);
    }
    var out := if ok then MarkSynced(s.l.outbox, ids, now) else MarkRetry(s.l.outbox, ids, now);
    RewriteKeepsInv(s, out);
    var t := s.(l := s.l.(outbox := out));
    NewDrainKeepsInv(t, d, t.drains[d].(live := false));
  }

  // ---------------------------------------------------------------- retention sweep and crash

  lemma {:induction false} UnexpiredIds(outbox: seq<OutboxRow>, now: int)
    requires AscendingIds(outbox)
    ensures AscendingIds(Unexpired(outbox, now))
  {
    if outbox != [] {
      var init, last := outbox[..|outbox| - 1], outbox[|outbox| - 1];
      UnexpiredIds(init, now);
      var out := Unexpired(init, now);
      forall i | 0 <= i < |out|
        ensures out[i].id < last.id
      {
        assert out[i] in init;
      }
    }
  }

  lemma {:induction false} SweepKeepsOutbox(outbox: seq<OutboxRow>, now: int, nextId: nat, log: seq<LogItem>, mirror: Mirror)
    requires OutboxInv(outbox, nextId, log, mirror) && Covered(outbox, log, mirror)
    ensures OutboxInv(Unexpired(outbox, now), nextId, log, mirror) && Covered(Unexpired(outbox, now), log, mirror)
  {
    var out := Unexpired(outbox, now);
    UnexpiredIds(outbox, now);
    forall i | 0 <= i < |out|
      ensures RowInv(out[i], nextId, log, mirror)
    {
      assert out[i] in out && out[i] in outbox;
    }
    forall it | it in log && !Complete(mirror, it)
      ensures PendingFor(out, it)
    {
      var i :| 0 <= i < |outbox| && outbox[i].status == Pending && ItemOf(outbox[i]) == it;
      assert outbox[i] in outbox && outbox[i] in out;
    }
  }

  lemma {:induction false} SweepKeepsDrain(dr: Drain, outbox: seq<OutboxRow>, now: int, nextId: nat, log: seq<LogItem>, mirror: Mirror)
    requires DrainInv(dr, outbox, nextId, log, mirror)
    ensures DrainInv(dr, Unexpired(outbox, now), nextId, log, mirror)
  {
    var out := Unexpired(outbox, now);
    forall k | 0 <= k < |dr.rows|
      ensures HeldInv(dr.rows[k], out, nextId, log)
    {
      assert HeldInv(dr.rows[k], outbox, nextId, log);
      forall i | 0 <= i < |out| && out[i].id == dr.rows[k].id
        ensures ItemOf(out[i]) == ItemOf(dr.rows[k])
      {
        assert out[i] in out && out[i] in outbox;
      }
    }
  }

  lemma {:induction false} SweepKeepsDrains(drains: map<nat, Drain>, outbox: seq<OutboxRow>, now: int, nextId: nat, log: seq<LogItem>, mirror: Mirror)
    requires DrainsInv(drains, outbox, nextId, log, mirror)
    ensures DrainsInv(drains, Unexpired(outbox, now), nextId, log, mirror)
  {
    forall d | d in drains
      ensures DrainInv(drains[d], Unexpired(outbox, now), nextId, log, mirror)
    {
      SweepKeepsDrain(drains[d], outbox, now, nextId, log, mirror);
    }
  }

  lemma {:induction false} SweepKeepsInv(s: System, now: int)
    requires Inv(s)
    ensures Inv(s.(l := s.l.(outbox := Unexpired(s.l.outbox, now), lastCleanupAt := now)))
  {
    BookInvFrame(s.l, s.l.(outbox := Unexpired(s.l.outbox, now), lastCleanupAt := now), s.log);
    SweepKeepsOutbox(s.l.outbox, now, s.l.nextId, s.log, s.mirror);
    SweepKeepsDrains(s.drains, s.l.outbox, now, s.l.nextId, s.log, s.mirror);
  }

  lemma CleanupKeepsInv(s: System, now: int)
    requires Inv(s)
    ensures Inv(s.(l := Cleanup(s.l, now)))
  {
    if now - s.l.lastCleanupAt >= CLEANUP_INTERVAL_MS {
      SweepKeepsInv(s, now);
    }
  }

  lemma LostDrainsKeepInv(drains: map<nat, Drain>, outbox: seq<OutboxRow>, nextId: nat, log: seq<LogItem>, mirror: Mirror)
    requires DrainsInv(drains, outbox, nextId, log, mirror)
    ensures DrainsInv(map d | d in drains :: drains[d].(live := false), outbox, nextId, log, mirror)
  {
    forall d | d in drains
      ensures DrainInv(drains[d].(live := false), outbox, nextId, log, mirror)
    {
      assert DrainInv(drains[d], outbox, nextId, log, mirror);
    }
  }

  lemma CrashKeepsInv(s: System, now: int)
    requires Inv(s)
    ensures Inv(Step(s, Crash(now)))
  {
    AlarmAndCachesKeepInv(s, Restart(s.l, now));
    LostDrainsKeepInv(s.drains, s.l.outbox, s.l.nextId, s.log, s.mirror);
  }

  // ---------------------------------------------------------------- every step, every run

  lemma StepKeepsInv(s: System, e: Event)
    requires Inv(s)
    ensures Inv(Step(s, e))
  {
    match e {
      case PostCall(p, now, fault) => PostKeepsInv(s, p, now, fault);
      case DrainSelect(d, now, force) => if d !in s.drains { SelectKeepsInv(s, d, now, force); }
      case D1Apply(d) => if d in s.drains { ApplyKeepsInv(s, d); }
      case D1Answer(d, ok, now) =>
        if d in s.drains && s.drains[d].live && (ok ==> s.drains[d].applied) { AnswerKeepsInv(s, d, ok, now); }
      case CleanupTick(now) => CleanupKeepsInv(s, now);
      case SnapshotTick(now) => AlarmAndCachesKeepInv(s, s.l.(lastSnapshotAt := now));
      case AlarmFired => AlarmAndCachesKeepInv(s, s.l.(alarm := None));
      case RescheduleAlarm(now) => AlarmAndCachesKeepInv(s, Reschedule(s.l, now));
      case Crash(now) => CrashKeepsInv(s, now);
    }
  }

  lemma InitInv(nameId: Option<int>, now: int)
    ensures Inv(Init(nameId, now))
  {
    DefaultChartDistinct();
  }

  lemma {:induction false} RunInv(nameId: Option<int>, now: int, events: seq<Event>)
    ensures Inv(Run(Init(nameId, now), events))
  {
    if events == [] {
      InitInv(nameId, now);
    } else {
      RunInv(nameId, now, events[..|events| - 1]);
      StepKeepsInv(Run(Init(nameId, now), events[..|events| - 1]), events[|events| - 1]);
    }
  }
}
