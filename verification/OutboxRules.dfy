/**
 * The rules of the outbox with their numbers written out: which rows a drain takes, what it writes to
 * them, how long a row waits after each failure, when the alarm rings and when rows are dropped.
 */
module OutboxRules {
  import opened Common
  import opened Posting
  import opened AuditMirror
  import opened Outbox

  // ---------------------------------------------------------------- waiting after a failure

  /** Milliseconds a row waits after its n-th failure. */
  function RetryWait(failures: nat): int
    requires failures > 0
  {
    if failures <= 5 then [2_000, 4_000, 8_000, 16_000, 32_000][failures - 1] else 60_000
  }

  lemma BackoffIsWait(failures: nat)
    requires failures > 0
    ensures Backoff(failures) == RetryWait(failures)
  {
    assert Pow2(0) == 1;
    assert Pow2(1) == 2 * Pow2(0);
    assert Pow2(2) == 2 * Pow2(1);
    assert Pow2(3) == 2 * Pow2(2);
    assert Pow2(4) == 2 * Pow2(3);
    assert Pow2(5) == 2 * Pow2(4);
    assert Pow2(6) == 2 * Pow2(5);
    if failures >= 6 {
      Pow2Monotone(6, if failures <= 10 then failures else 10);
    }
  }

  /** A row after one more failure. */
  function PutOff(r: OutboxRow, now: int): OutboxRow {
    r.(retryCount := r.retryCount + 1, nextRetryAt := Some(now + RetryWait(r.retryCount + 1)))
  }

  /** A row after its delivery. */
  function Delivered(r: OutboxRow, now: int): OutboxRow {
    r.(status := Synced, nextRetryAt := None, syncedAt := now)
  }

  ghost predicate PutOffOnly(outbox: seq<OutboxRow>, out: seq<OutboxRow>, ids: set<nat>, now: int) {
    |out| == |outbox| && forall i :: 0 <= i < |out| ==> out[i] == if outbox[i].id in ids then PutOff(outbox[i], now) else outbox[i]
  }

  ghost predicate DeliveredOnly(outbox: seq<OutboxRow>, out: seq<OutboxRow>, ids: set<nat>, now: int) {
    |out| == |outbox| && forall i :: 0 <= i < |out| ==> out[i] == if outbox[i].id in ids then Delivered(outbox[i], now) else outbox[i]
  }

  /** A failure is counted once and the row waits; nothing else changes. */
  lemma MarkRetryPutsOff(outbox: seq<OutboxRow>, ids: set<nat>, now: int)
    ensures PutOffOnly(outbox, MarkRetry(outbox, ids, now), ids, now)
  {
    forall i | 0 <= i < |outbox|
      ensures RetryRow(outbox[i], ids, now) == if outbox[i].id in ids then PutOff(outbox[i], now) else outbox[i]
    {
      BackoffIsWait(outbox[i].retryCount + 1);
    }
  }

  // ---------------------------------------------------------------- what a drain takes

  /** Pending, and either asked for regardless or not waiting any longer. */
  ghost predicate Takeable(r: OutboxRow, now: int, force: bool) {
    r.status == Pending && (force || r.nextRetryAt == None || r.nextRetryAt.value <= now)
  }

  /** At most 20 rows in id order; a row that could be taken is left out only behind 20 of lower id. */
  ghost predicate Taken(rows: seq<OutboxRow>, outbox: seq<OutboxRow>, now: int, force: bool) {
    && |rows| <= 20
    && (forall i, j :: 0 <= i < j < |rows| ==> rows[i].id < rows[j].id)
    && (forall r :: r in rows ==> r in outbox && Takeable(r, now, force))
    && forall r :: r in outbox && Takeable(r, now, force) && r !in rows ==> |rows| == 20 && forall q :: q in rows ==> q.id < r.id
  }

  lemma CandidatesTaken(outbox: seq<OutboxRow>, now: int, force: bool)
    requires AscendingIds(outbox)
    ensures Taken(Candidates(outbox, now, force), outbox, now, force)
  {
    CandidatesAreLowest(outbox, now, force);
    forall r: OutboxRow
      ensures Eligible(r, now, force) <==> Takeable(r, now, force)
    {}
  }

  lemma ItemsPush(rows: seq<OutboxRow>)
    requires rows != []
    ensures ItemsOf(rows)[..|rows| - 1] == ItemsOf(rows[..|rows| - 1]) && ItemsOf(rows)[|rows| - 1] == ItemOf(rows[|rows| - 1])
  {}

  /** The bound on a batch is a bound on the statements it sends. */
  lemma {:induction false} CostCountsStatements(rows: seq<OutboxRow>)
    ensures TotalCost(rows) == |BatchStatements(ItemsOf(rows))|
  {
    if rows != [] {
      ItemsPush(rows);
      CostCountsStatements(rows[..|rows| - 1]);
    }
  }

  /** The first n rows make one batch of at most 100 statements, and one row more would not. */
  ghost predicate FillsBatch(rows: seq<OutboxRow>, n: nat) {
    && n <= |rows| && |BatchStatements(ItemsOf(rows[..n]))| <= 100
    && (n < |rows| ==> |BatchStatements(ItemsOf(rows[..n + 1]))| > 100)
  }

  lemma IncludedFills(rows: seq<OutboxRow>)
    ensures FillsBatch(rows, |Included(rows)|) && Included(rows) == rows[..|Included(rows)|]
  {
    var n := |Included(rows)|;
    CostCountsStatements(rows[..n]);
    if n < |rows| {
      CostCountsStatements(rows[..n + 1]);
    }
  }

  // ---------------------------------------------------------------- what a drain writes

  /** The merchant is cached, in the object's name, or in the first row taken. */
  ghost predicate MerchantKnown(l: Ledger, rows: seq<OutboxRow>)
    requires rows != []
  {
    || (l.merchantId.Some? && l.merchantId.value > 0) || (l.nameId.Some? && l.nameId.value > 0)
    || rows[0].payload.merchantId > 0
  }

  /** The rows of one drain: delivered or put off, those of the batch at D1's answer, others at once. */
  ghost predicate DrainWrites(l: Ledger, out: seq<OutboxRow>, rows: seq<OutboxRow>, now: int, done: int, accepted: bool) {
    if rows == [] then out == l.outbox
    else if !MerchantKnown(l, rows) then PutOffOnly(l.outbox, out, IdsOf(rows), now)
    else if |rows[0].payload.entries| > 98 then PutOffOnly(l.outbox, out, {rows[0].id}, now)
    else exists n :: 0 < n && FillsBatch(rows, n) && BatchWrites(l.outbox, out, rows[..n], done, accepted)
  }

  ghost predicate BatchWrites(outbox: seq<OutboxRow>, out: seq<OutboxRow>, rows: seq<OutboxRow>, done: int, accepted: bool) {
    if accepted then DeliveredOnly(outbox, out, IdsOf(rows), done) else PutOffOnly(outbox, out, IdsOf(rows), done)
  }

  /** What a drain chooses, by its candidates. */
  lemma ChoiceByRows(l: Ledger, now: int, force: bool)
    ensures var rows := Candidates(l.outbox, now, force);
      Choose(l, now, force) ==
        if rows == [] then Nothing
        else if !MerchantKnown(l, rows) then NoMerchant(rows)
        else if |rows[0].payload.entries| > 98 then TooLarge(rows[0])
        else Batch(Included(rows))
  {
    var rows := Candidates(l.outbox, now, force);
    if rows != [] {
      NothingFits(rows);
    }
  }

  lemma BatchWritesOut(outbox: seq<OutboxRow>, rows: seq<OutboxRow>, done: int, accepted: bool)
    ensures BatchWrites(outbox, AfterDrain(outbox, Batch(rows), accepted, done), rows, done, accepted)
  {
    MarkRetryPutsOff(outbox, IdsOf(rows), done);
  }

  lemma BatchFills(rows: seq<OutboxRow>, outbox: seq<OutboxRow>, done: int, accepted: bool)
    requires rows != [] && |rows[0].payload.entries| <= 98
    ensures exists n :: 0 < n && FillsBatch(rows, n) && BatchWrites(outbox, AfterDrain(outbox, Batch(Included(rows)), accepted, done), rows[..n], done, accepted)
  {
    var n := |Included(rows)|;
    NothingFits(rows);
    IncludedFills(rows);
    BatchWritesOut(outbox, Included(rows), done, accepted);
    assert 0 < n && FillsBatch(rows, n);
  }

  lemma DrainWritesOut(l: Ledger, now: int, done: int, force: bool, accepted: bool)
    ensures var choice := Choose(l, now, force);
      DrainWrites(l, AfterDrain(l.outbox, choice, accepted, if choice.Batch? then done else now),
                  Candidates(l.outbox, now, force), now, done, accepted)
  {
    var rows := Candidates(l.outbox, now, force);
    ChoiceByRows(l, now, force);
    if rows != [] {
      if !MerchantKnown(l, rows) {
        MarkRetryPutsOff(l.outbox, IdsOf(rows), now);
      } else if |rows[0].payload.entries| > 98 {
        MarkRetryPutsOff(l.outbox, {rows[0].id}, now);
      } else {
        BatchFills(rows, l.outbox, done, accepted);
      }
    }
  }

  /** The counts a drain reports: rows delivered, and rows put off. */
  ghost predicate Reports(l: Ledger, rows: seq<OutboxRow>, drained: nat, failed: nat, accepted: bool) {
    if rows == [] then drained == 0 && failed == 0
    else if !MerchantKnown(l, rows) then drained == 0 && failed == |rows|
    else if |rows[0].payload.entries| > 98 then drained == 0 && failed == 1
    else if accepted then drained > 0 && FillsBatch(rows, drained) && failed == 0
    else failed > 0 && FillsBatch(rows, failed) && drained == 0
  }

  lemma BatchReports(rows: seq<OutboxRow>)
    requires rows != [] && |rows[0].payload.entries| <= 98
    ensures |Included(rows)| > 0 && FillsBatch(rows, |Included(rows)|)
  {
    NothingFits(rows);
    IncludedFills(rows);
  }

  // ---------------------------------------------------------------- retention

  /** At most once an hour, synced rows of more than seven days go; every other row stays. */
  ghost predicate Swept(l: Ledger, out: seq<OutboxRow>, now: int) {
    if now - l.lastCleanupAt < 3_600_000 then out == l.outbox
    else forall r :: r in out <==> r in l.outbox && !(r.status == Synced && r.syncedAt < now - 604_800_000)
  }

  // ---------------------------------------------------------------- the alarm

  /** The nudge after a commit: an alarm due within 60 s stays, a later or missing one is set to 100 ms. */
  ghost predicate Nudged(before: Option<int>, after: Option<int>, now: int) {
    after == if before.Some? && before.value <= now + 60_000 then before else Some(now + 100)
  }

  ghost predicate PendingDue(outbox: seq<OutboxRow>, now: int) {
    exists r :: r in outbox && r.status == Pending && (r.nextRetryAt == None || r.nextRetryAt.value <= now)
  }

  /** The earliest retry time of the pending rows, none of which is due. */
  ghost predicate EarliestWait(outbox: seq<OutboxRow>, t: int) {
    && (exists r :: r in outbox && r.status == Pending && r.nextRetryAt == Some(t))
    && forall r :: r in outbox && r.status == Pending ==> r.nextRetryAt.Some? && t <= r.nextRetryAt.value
  }

  /** In 100 ms if a pending row is due, else when the first pending row is, else a day after the last snapshot. */
  ghost predicate RingsAt(l: Ledger, now: int, t: int) {
    if PendingDue(l.outbox, now) then t == now + 100
    else if exists r :: r in l.outbox && r.status == Pending then EarliestWait(l.outbox, t)
    else t == l.lastSnapshotAt + 86_400_000
  }

  lemma TargetRings(l: Ledger, now: int)
    ensures RingsAt(l, now, AlarmTarget(l, now))
  {
    var next := EarliestRetry(l.outbox, now);
    if next.Some? {
      var r :| r in l.outbox && r.status == Pending && next.value == RetryAt(r, now);
      if next.value > now {
        assert r.nextRetryAt == Some(next.value);
      }
    }
  }
}
