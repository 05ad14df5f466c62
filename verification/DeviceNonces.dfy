/**
 * Acceptance of signed device messages over time: the nonce table, the freshness window, the
 * purge job and the velocity caps (src/controllers/mobile.ts, src/cron/handler.ts).  Clock
 * readings are in milliseconds; the nonce table stores whole seconds, as datetime('now') does.
 */
module DeviceNonces {
  import opened Common

  const FRESHNESS_MS: int := 300_000
  const RETENTION_SEC: int := 600
  const WINDOW_SEC: int := 60
  const SINGLE_CAP: nat := 60
  const BATCH_CAP: nat := 120

  datatype NonceRow = NonceRow(device: int, nonce: string, createdSec: int)

  /** The whole second a clock reading falls in. */
  function Sec(ms: int): (s: int)
    ensures s * 1000 <= ms < s * 1000 + 1000
  {
    ms / 1000
  }

  predicate Known(table: seq<NonceRow>, device: int, nonce: string) {
    exists i :: 0 <= i < |table| && table[i].device == device && table[i].nonce == nonce
  }

  predicate Fresh(checkedAt: int, ts: int) {
    -FRESHNESS_MS <= checkedAt - ts <= FRESHNESS_MS
  }

  predicate Stale(row: NonceRow, at: int) {
    row.createdSec < Sec(at) - RETENTION_SEC
  }

  /** DELETE FROM op_device_nonces WHERE created_at < datetime('now', '-10 minutes') */
  function Purged(table: seq<NonceRow>, at: int): (kept: seq<NonceRow>)
    ensures forall r :: r in kept <==> r in table && !Stale(r, at)
  {
    if table == [] then []
    else
      var init, last := table[..|table| - 1], table[|table| - 1];
      assert table == init + [last];
      if Stale(last, at) then Purged(init, at) else Purged(init, at) + [last]
  }

  // ---------------------------------------------------------------- replay

  /**
   * A message whose signature is valid.  `checkedAt` is the clock reading of the freshness test,
   * `storedAt` that of the insert into the nonce table, which a UNIQUE (device, nonce) guards.
   */
  datatype Message = Message(device: int, nonce: string, ts: int, checkedAt: int, storedAt: int)

  datatype NonceEvent = Accept(m: Message) | Purge(at: int)

  datatype NonceState = NonceState(table: seq<NonceRow>, accepted: seq<Message>)

  function RowFor(m: Message): NonceRow {
    NonceRow(m.device, m.nonce, Sec(m.storedAt))
  }

  function NonceStep(s: NonceState, e: NonceEvent): NonceState {
    match e
    case Accept(m) =>
      if Fresh(m.checkedAt, m.ts) && !Known(s.table, m.device, m.nonce)
      then NonceState(s.table + [RowFor(m)], s.accepted + [m])
      else s
    case Purge(at) => s.(table := Purged(s.table, at))
  }

  function NonceRun(events: seq<NonceEvent>): NonceState {
    if events == [] then NonceState([], []) else NonceStep(NonceRun(events[..|events| - 1]), events[|events| - 1])
  }

  function TimeOf(e: NonceEvent): int {
    if e.Accept? then e.m.storedAt else e.at
  }

  /** Timestamps run ahead of the server by at most `lead`; a request takes at most `lag` between test and insert. */
  predicate Within(m: Message, lead: int, lag: int) {
    m.ts - m.checkedAt <= lead && 0 <= m.storedAt - m.checkedAt <= lag
  }

  /** Events in the order of their database times; attempts that pass the freshness test are within the given bounds. */
  predicate Timely(events: seq<NonceEvent>, lead: int, lag: int) {
    && (forall i, j :: 0 <= i < j < |events| ==> TimeOf(events[i]) <= TimeOf(events[j]))
    && (forall i :: 0 <= i < |events| && events[i].Accept? && Fresh(events[i].m.checkedAt, events[i].m.ts) ==> Within(events[i].m, lead, lag))
  }

  predicate SameMessage(a: Message, b: Message) {
    a.device == b.device && a.nonce == b.nonce && a.ts == b.ts
  }

  predicate NoReplay(accepted: seq<Message>) {
    forall i, j :: 0 <= i < j < |accepted| ==> !SameMessage(accepted[i], accepted[j])
  }

  /** An accepted message is still remembered, or it is older than the retention. */
  ghost predicate Remembered(s: NonceState, clock: int, lead: int, lag: int) {
    forall i :: 0 <= i < |s.accepted| ==>
      var m := s.accepted[i];
      Fresh(m.checkedAt, m.ts) && Within(m, lead, lag) && m.storedAt <= clock && (RowFor(m) in s.table || Stale(RowFor(m), clock))
  }

  /** The freshness window and the retention fit: a remembered-or-stale message cannot be fresh again. */
  lemma ForgottenIsNotFresh(first: Message, again: Message, clock: int, lead: int, lag: int)
    requires lead + lag <= FRESHNESS_MS && SameMessage(first, again) && clock <= again.storedAt
    requires Within(first, lead, lag) && (Fresh(again.checkedAt, again.ts) ==> Within(again, lead, lag))
    requires Stale(RowFor(first), clock)
    ensures !Fresh(again.checkedAt, again.ts)
  {
    assert Sec(clock) <= Sec(again.storedAt);
    assert again.storedAt > first.storedAt + 600_000;
  }

  lemma AcceptKeeps(s: NonceState, m: Message, clock: int, lead: int, lag: int)
    requires lead + lag <= FRESHNESS_MS && Remembered(s, clock, lead, lag) && NoReplay(s.accepted)
    requires clock <= m.storedAt && (Fresh(m.checkedAt, m.ts) ==> Within(m, lead, lag))
    ensures var s' := NonceStep(s, Accept(m)); Remembered(s', m.storedAt, lead, lag) && NoReplay(s'.accepted)
  {
    var s' := NonceStep(s, Accept(m));
    assert Sec(clock) <= Sec(m.storedAt);
    forall i | 0 <= i < |s.accepted|
      ensures s'.accepted != s.accepted ==> !SameMessage(s.accepted[i], m)
      ensures RowFor(s.accepted[i]) in s'.table || Stale(RowFor(s.accepted[i]), m.storedAt)
    {
      var a := s.accepted[i];
      if RowFor(a) in s.table {
        var k :| 0 <= k < |s.table| && s.table[k] == RowFor(a);
        assert s'.table[k] == RowFor(a);
      } else if SameMessage(a, m) {
        ForgottenIsNotFresh(a, m, clock, lead, lag);
      }
    }
    if s'.accepted != s.accepted {
      assert s'.table[|s.table|] == RowFor(m);
    }
  }

  lemma PurgeKeeps(s: NonceState, at: int, clock: int, lead: int, lag: int)
    requires Remembered(s, clock, lead, lag) && clock <= at
    ensures Remembered(NonceStep(s, Purge(at)), at, lead, lag)
  {
    assert Sec(clock) <= Sec(at);
  }

  function LastTime(events: seq<NonceEvent>, t0: int): int {
    if events == [] then t0 else TimeOf(events[|events| - 1])
  }

  lemma {:induction false} RunRemembers(events: seq<NonceEvent>, t0: int, lead: int, lag: int)
    requires lead + lag <= FRESHNESS_MS && Timely(events, lead, lag)
    ensures Remembered(NonceRun(events), LastTime(events, t0), lead, lag) && NoReplay(NonceRun(events).accepted)
  {
    if events != [] {
      var init, e := events[..|events| - 1], events[|events| - 1];
      RunRemembers(init, TimeOf(e), lead, lag);
      match e {
        case Accept(m) => AcceptKeeps(NonceRun(init), m, LastTime(init, TimeOf(e)), lead, lag);
        case Purge(at) => PurgeKeeps(NonceRun(init), at, LastTime(init, TimeOf(e)), lead, lag);
      }
    }
  }

  /** A run with lead and lag one millisecond over the bound that accepts one message twice. */
  function ReplayRun(lead: int): seq<NonceEvent> {
    var ts := 999 + lead;
    [Accept(Message(1, "n", ts, 999, 999)), Purge(601_000), Accept(Message(1, "n", ts, ts + FRESHNESS_MS, 601_000))]
  }

  lemma NonceRunOfThree(a: NonceEvent, b: NonceEvent, c: NonceEvent)
    ensures NonceRun([a, b, c]) == NonceStep(NonceStep(NonceStep(NonceState([], []), a), b), c)
  {
    assert [a, b, c][..2] == [a, b] && [a, b][..1] == [a] && [a][..0] == [];
    assert NonceRun([a]) == NonceStep(NonceRun([]), a);
    assert NonceRun([a, b]) == NonceStep(NonceRun([a]), b);
  }

  lemma {:induction false} PurgedAway(row: NonceRow, at: int)
    requires Stale(row, at)
    ensures Purged([] + [row], at) == []
  {
    assert ([] + [row])[..0] == [];
  }

  lemma ReplayHappens(lead: int, lag: int)
    requires 0 <= lead <= FRESHNESS_MS && lead + lag > FRESHNESS_MS
    ensures Timely(ReplayRun(lead), lead, lag) && !NoReplay(NonceRun(ReplayRun(lead)).accepted)
  {
    var a, b, c := ReplayRun(lead)[0], ReplayRun(lead)[1], ReplayRun(lead)[2];
    NonceRunOfThree(a, b, c);
    PurgedAway(RowFor(a.m), b.at);
    var accepted := NonceStep(NonceStep(NonceStep(NonceState([], []), a), b), c).accepted;
    assert accepted == [a.m, c.m];
    assert SameMessage(accepted[0], accepted[1]);
  }

  /**
   * Exactly when replay is impossible: no run of accepts (all routes) and purges accepts the same
   * (device, nonce, timestamp) twice if and only if clock lead plus request lag stay within 300 s.
   */
  lemma ReplayBoundExact(lead: int, lag: int)
    requires 0 <= lead <= FRESHNESS_MS && 0 <= lag
    ensures (forall events :: Timely(events, lead, lag) ==> NoReplay(NonceRun(events).accepted)) <==> lead + lag <= FRESHNESS_MS
  {
    if lead + lag <= FRESHNESS_MS {
      forall events | Timely(events, lead, lag)
        ensures NoReplay(NonceRun(events).accepted)
      {
        RunRemembers(events, 0, lead, lag);
      }
    } else {
      ReplayHappens(lead, lag);
    }
  }

  /** With test and insert at one clock reading, the full ±300 s window is safe. */
  lemma {:induction false} AtomicAcceptsNeverReplay(events: seq<NonceEvent>)
    requires Timely(events, FRESHNESS_MS, 0)
    ensures NoReplay(NonceRun(events).accepted)
  {
    RunRemembers(events, 0, FRESHNESS_MS, 0);
  }

  // ---------------------------------------------------------------- velocity

  /** Rows of a device created after second `lo`. */
  function CountSince(table: seq<NonceRow>, device: int, lo: int): nat {
    if table == [] then 0
    else CountSince(table[..|table| - 1], device, lo)
         + if table[|table| - 1].device == device && table[|table| - 1].createdSec > lo then 1 else 0
  }

  /** SELECT COUNT(*) ... created_at > datetime('now', '-1 minute') */
  function Recent(table: seq<NonceRow>, device: int, at: int): nat {
    CountSince(table, device, Sec(at) - WINDOW_SEC)
  }

  /** The rows of a device whose second is less than a minute old. */
  function RecentRows(table: seq<NonceRow>, device: int, at: int): set<nat> {
    set i: nat | i < |table| && table[i].device == device && table[i].createdSec > at / 1000 - 60
  }

  /** The velocity query counts them. */
  lemma {:induction false} RecentCounts(table: seq<NonceRow>, device: int, at: int)
    ensures Recent(table, device, at) == |RecentRows(table, device, at)|
  {
    if table != [] {
      var init, last := table[..|table| - 1], table[|table| - 1];
      RecentCounts(init, device, at);
      var older := RecentRows(init, device, at);
      if last.device == device && last.createdSec > at / 1000 - 60 {
        assert RecentRows(table, device, at) == older + {|table| - 1};
      } else {
        assert RecentRows(table, device, at) == older;
      }
    }
  }

  /** Rows of a device in the window of 60 whole seconds that ends with second `w`. */
  function InWindow(rows: seq<NonceRow>, device: int, w: int): nat {
    if rows == [] then 0
    else InWindow(rows[..|rows| - 1], device, w)
         + if rows[|rows| - 1].device == device && w - WINDOW_SEC < rows[|rows| - 1].createdSec <= w then 1 else 0
  }

  /** Messages of a device stored from millisecond `t` to millisecond `t + n`, both included. */
  function InSpan(ms: seq<Message>, device: int, t: int, n: nat): nat {
    if ms == [] then 0
    else InSpan(ms[..|ms| - 1], device, t, n)
         + if ms[|ms| - 1].device == device && t <= ms[|ms| - 1].storedAt <= t + n then 1 else 0
  }

  /**
   * One request: a single message, a batch of which the messages `ms` pass, a key rotation, or a
   * purge.  The velocity count is taken at `at`; nonces are stored one by one until `done`.
   */
  datatype Request =
    | Single(device: int, at: int, done: int, m: Message)
    | BatchOf(device: int, at: int, done: int, size: nat, ms: seq<Message>)
    | Rotate(device: int, at: int, done: int, m: Message)
    | PurgeJob(at: int)

  function DoneAt(q: Request): int {
    if q.PurgeJob? then q.at else q.done
  }

  function StoredBy(q: Request): seq<Message> {
    match q
    case Single(_, _, _, m) => [m]
    case BatchOf(_, _, _, _, ms) => ms
    case Rotate(_, _, _, m) => [m]
    case PurgeJob(_) => []
  }

  function RowsFor(ms: seq<Message>): (rows: seq<NonceRow>)
    ensures |rows| == |ms| && forall k :: 0 <= k < |ms| ==> rows[k] == RowFor(ms[k])
  {
    seq(|ms|, k requires 0 <= k < |ms| => RowFor(ms[k]))
  }

  /** `sms` records the accepted signed messages; the table also holds rotation nonces and loses purged rows. */
  datatype Traffic = Traffic(table: seq<NonceRow>, sms: seq<Message>)

  function Admit(t: Traffic, ms: seq<Message>): Traffic {
    Traffic(t.table + RowsFor(ms), t.sms + ms)
  }

  function Serve(t: Traffic, q: Request): Traffic {
    match q
    case Single(device, at, done, m) => if Recent(t.table, device, at) >= SINGLE_CAP then t else Admit(t, [m])
    case BatchOf(device, at, done, size, ms) =>
      if Recent(t.table, device, at) + size > BATCH_CAP || |ms| > size then t else Admit(t, ms)
    case Rotate(device, at, done, m) => t.(table := t.table + [RowFor(m)])
    case PurgeJob(at) => t.(table := Purged(t.table, at))
  }

  function ServeAll(requests: seq<Request>): Traffic {
    if requests == [] then Traffic([], []) else Serve(ServeAll(requests[..|requests| - 1]), requests[|requests| - 1])
  }

  lemma {:induction false} CountSinceAppend(a: seq<NonceRow>, b: seq<NonceRow>, device: int, lo: int)
    ensures CountSince(a + b, device, lo) == CountSince(a, device, lo) + CountSince(b, device, lo)
  {
    if b == [] {
      assert a + b == a;
    } else {
      CountSinceAppend(a, b[..|b| - 1], device, lo);
      assert (a + b)[..|a + b| - 1] == a + b[..|b| - 1];
    }
  }

  lemma {:induction false} InWindowAppend(a: seq<NonceRow>, b: seq<NonceRow>, device: int, w: int)
    ensures InWindow(a + b, device, w) == InWindow(a, device, w) + InWindow(b, device, w)
  {
    if b == [] {
      assert a + b == a;
    } else {
      InWindowAppend(a, b[..|b| - 1], device, w);
      assert (a + b)[..|a + b| - 1] == a + b[..|b| - 1];
    }
  }

  lemma {:induction false} WindowWithinSince(rows: seq<NonceRow>, device: int, w: int, lo: int)
    requires lo <= w - WINDOW_SEC
    ensures InWindow(rows, device, w) <= CountSince(rows, device, lo)
  {
    if rows != [] {
      WindowWithinSince(rows[..|rows| - 1], device, w, lo);
    }
  }

  /** Purging never removes a row younger than the retention. */
  lemma {:induction false} PurgeKeepsRecent(table: seq<NonceRow>, at: int, device: int, lo: int)
    requires lo >= Sec(at) - RETENTION_SEC - 1
    ensures CountSince(Purged(table, at), device, lo) == CountSince(table, device, lo)
  {
    if table != [] {
      var init, last := table[..|table| - 1], table[|table| - 1];
      PurgeKeepsRecent(init, at, device, lo);
      if !Stale(last, at) {
        assert Purged(table, at)[..|Purged(init, at)|] == Purged(init, at);
      }
    }
  }

  /** Rows of one device, stored by one request between seconds `lo` and `hi`. */
  ghost predicate Block(rows: seq<NonceRow>, device: int, lo: int, hi: int) {
    forall i :: 0 <= i < |rows| ==> rows[i].device == device && lo <= rows[i].createdSec <= hi
  }

  lemma {:induction false} BlockInWindow(rows: seq<NonceRow>, device: int, lo: int, hi: int, d: int, w: int)
    requires Block(rows, device, lo, hi)
    ensures InWindow(rows, d, w) <= if d == device && lo <= w then |rows| else 0
  {
    if rows != [] {
      BlockInWindow(rows[..|rows| - 1], device, lo, hi, d, w);
    }
  }

  ghost predicate Capped(sms: seq<Message>) {
    forall d, w :: InWindow(RowsFor(sms), d, w) <= BATCH_CAP
  }

  /** Every accepted message of the last ten minutes still has its row. */
  ghost predicate Backed(t: Traffic, sec: int) {
    forall d, lo :: lo >= sec - RETENTION_SEC - 1 ==> CountSince(RowsFor(t.sms), d, lo) <= CountSince(t.table, d, lo)
  }

  lemma {:induction false} AdmitKeeps(t: Traffic, device: int, ms: seq<Message>, before: int, sec: int, done: int)
    requires Capped(t.sms) && Backed(t, before) && before <= sec <= done && Block(RowsFor(ms), device, sec, done)
    requires CountSince(t.table, device, sec - WINDOW_SEC) + |ms| <= BATCH_CAP
    ensures Capped(Admit(t, ms).sms) && Backed(Admit(t, ms), done)
  {
    var past, rows := RowsFor(t.sms), RowsFor(ms);
    assert RowsFor(t.sms + ms) == past + rows;
    forall d, w
      ensures InWindow(past + rows, d, w) <= BATCH_CAP
    {
      InWindowAppend(past, rows, d, w);
      BlockInWindow(rows, device, sec, done, d, w);
      if d == device && sec <= w {
        WindowWithinSince(past, d, w, sec - WINDOW_SEC);
        assert CountSince(past, d, sec - WINDOW_SEC) <= CountSince(t.table, d, sec - WINDOW_SEC);
      }
    }
    forall d, lo | lo >= done - RETENTION_SEC - 1
      ensures CountSince(past + rows, d, lo) <= CountSince(t.table + rows, d, lo)
    {
      CountSinceAppend(past, rows, d, lo);
      CountSinceAppend(t.table, rows, d, lo);
    }
  }

  /** The messages of a request belong to its device and are stored between its count and its end. */
  ghost predicate WellTimed(q: Request) {
    && q.at <= DoneAt(q)
    && forall m :: m in StoredBy(q) ==> m.device == q.device && q.at <= m.storedAt <= q.done
  }

  lemma StoredBlock(q: Request)
    requires WellTimed(q) && !q.PurgeJob?
    ensures Block(RowsFor(StoredBy(q)), q.device, Sec(q.at), Sec(q.done))
  {
    var ms := StoredBy(q);
    assert forall i :: 0 <= i < |ms| ==> ms[i] in ms;
  }

  lemma ServeKeeps(t: Traffic, q: Request, before: int)
    requires Capped(t.sms) && Backed(t, before) && before <= Sec(q.at) && WellTimed(q)
    ensures Capped(Serve(t, q).sms) && Backed(Serve(t, q), Sec(DoneAt(q)))
  {
    if !q.PurgeJob? {
      StoredBlock(q);
    }
    match q {
      case Single(device, at, done, m) =>
        if Recent(t.table, device, at) < SINGLE_CAP { AdmitKeeps(t, device, [m], before, Sec(at), Sec(done)); }
      case BatchOf(device, at, done, size, ms) =>
        if Recent(t.table, device, at) + size <= BATCH_CAP && |ms| <= size { AdmitKeeps(t, device, ms, before, Sec(at), Sec(done)); }
      case Rotate(device, at, done, m) =>
        forall d, lo | lo >= Sec(done) - RETENTION_SEC - 1
          ensures CountSince(RowsFor(t.sms), d, lo) <= CountSince(t.table + [RowFor(m)], d, lo)
        {
          CountSinceAppend(t.table, [RowFor(m)], d, lo);
        }
      case PurgeJob(at) =>
        forall d, lo | lo >= Sec(at) - RETENTION_SEC - 1
          ensures CountSince(RowsFor(t.sms), d, lo) <= CountSince(Purged(t.table, at), d, lo)
        {
          PurgeKeepsRecent(t.table, at, d, lo);
        }
    }
  }

  ghost predicate ServedInOrder(requests: seq<Request>) {
    && (forall i :: 0 <= i < |requests| ==> WellTimed(requests[i]))
    && (forall i, j :: 0 <= i < j < |requests| ==> DoneAt(requests[i]) <= requests[j].at)
  }

  lemma {:induction false} ServeAllKeeps(requests: seq<Request>, t0: int)
    requires ServedInOrder(requests)
    ensures Capped(ServeAll(requests).sms)
    ensures Backed(ServeAll(requests), if requests == [] then t0 else Sec(DoneAt(requests[|requests| - 1])))
  {
    if requests != [] {
      var init, q := requests[..|requests| - 1], requests[|requests| - 1];
      var before := if init == [] then Sec(q.at) else Sec(DoneAt(init[|init| - 1]));
      ServeAllKeeps(init, Sec(q.at));
      ServeKeeps(ServeAll(init), q, before);
    }
  }

  /** 59 000 ms touch at most 60 whole seconds. */
  lemma {:induction false} SpanInWindow(ms: seq<Message>, device: int, t: int, n: nat)
    requires n <= 59_000
    ensures InSpan(ms, device, t, n) <= InWindow(RowsFor(ms), device, Sec(t) + 59)
  {
    if ms != [] {
      var init, m := ms[..|ms| - 1], ms[|ms| - 1];
      SpanInWindow(init, device, t, n);
      assert RowsFor(ms)[..|init|] == RowsFor(init);
      SecondsOfSpan(m.storedAt, t, n);
    }
  }

  lemma SecondsOfSpan(at: int, t: int, n: nat)
    requires n <= 59_000
    ensures t <= at <= t + n ==> Sec(t) <= Sec(at) <= Sec(t) + 59
  {}

  /** In every run of requests served one after the other, 60 whole seconds hold at most 120 accepted messages of a device. */
  lemma {:induction false} SlidingWindow(requests: seq<Request>, device: int, w: int)
    requires ServedInOrder(requests)
    ensures InWindow(RowsFor(ServeAll(requests).sms), device, w) <= 120
  {
    ServeAllKeeps(requests, 0);
  }

  // ---------------------------------------------------------------- on the clock

  /** A full batch, counted and stored at one millisecond. */
  function FullBatch(at: int, tag: string): (q: Request)
    ensures |StoredBy(q)| == BATCH_CAP
  {
    BatchOf(1, at, at, BATCH_CAP, seq(BATCH_CAP, i requires 0 <= i < BATCH_CAP => Message(1, tag + DecimalNat(i), at, at, at)))
  }

  lemma {:induction false} AllInSpan(ms: seq<Message>, device: int, t: int, n: nat)
    requires forall i :: 0 <= i < |ms| ==> ms[i].device == device && t <= ms[i].storedAt <= t + n
    ensures InSpan(ms, device, t, n) == |ms|
  {
    if ms != [] {
      AllInSpan(ms[..|ms| - 1], device, t, n);
    }
  }

  lemma {:induction false} NoneSince(rows: seq<NonceRow>, device: int, lo: int)
    requires forall i :: 0 <= i < |rows| ==> rows[i].createdSec <= lo
    ensures CountSince(rows, device, lo) == 0
  {
    if rows != [] {
      NoneSince(rows[..|rows| - 1], device, lo);
    }
  }

  /**
   * Two full batches 59 001 ms apart: the count sees whole seconds, and the first batch, stored in
   * the last millisecond of its second, is no longer among them.
   */
  lemma {:induction false} TwoBatchesWithinTheMinute(requests: seq<Request>)
    requires requests == [FullBatch(999, "a"), FullBatch(60_000, "b")]
    ensures ServedInOrder(requests) && InSpan(ServeAll(requests).sms, 1, 999, 59_001) == 240
  {
    var a, b := FullBatch(999, "a"), FullBatch(60_000, "b");
    assert requests[..1] == [a] && [a][..0] == [];
    var t1 := Serve(Traffic([], []), a);
    assert ServeAll([a]) == t1;
    assert t1 == Admit(Traffic([], []), StoredBy(a));
    NoneSince(t1.table, 1, 0);
    assert ServeAll(requests) == Admit(t1, StoredBy(b));
    AllInSpan(ServeAll(requests).sms, 1, 999, 59_001);
  }

  lemma {:induction false} LongerSpanHoldsMore(ms: seq<Message>, device: int, t: int, n: nat, longer: nat)
    requires n <= longer
    ensures InSpan(ms, device, t, n) <= InSpan(ms, device, t, longer)
  {
    if ms != [] {
      LongerSpanHoldsMore(ms[..|ms| - 1], device, t, n, longer);
    }
  }

  ghost predicate CapHolds(requests: seq<Request>, n: nat) {
    forall device, t :: InSpan(ServeAll(requests).sms, device, t, n) <= BATCH_CAP
  }

  /** The cap of 120 holds for every span of n milliseconds in every run if and only if n is at most 59 000. */
  lemma {:induction false} SlidingSpanExact(n: nat)
    ensures (forall requests :: ServedInOrder(requests) ==> CapHolds(requests, n)) <==> n <= 59_000
  {
    if n <= 59_000 {
      forall requests, device, t | ServedInOrder(requests)
        ensures InSpan(ServeAll(requests).sms, device, t, n) <= BATCH_CAP
      {
        SpanInWindow(ServeAll(requests).sms, device, t, n);
        SlidingWindow(requests, device, Sec(t) + 59);
      }
    } else {
      var requests := [FullBatch(999, "a"), FullBatch(60_000, "b")];
      TwoBatchesWithinTheMinute(requests);
      LongerSpanHoldsMore(ServeAll(requests).sms, 1, 999, 59_001, n);
      assert !CapHolds(requests, n);
    }
  }
}
