/**
 * The outbox of a ledger: which rows a drain takes, how rows are marked, when the alarm is armed
 * (src/do/ledger-do.ts:352-614), and what these choices guarantee.
 */
module Outbox {
  import opened Common
  import opened Posting

  const OUTBOX_DRAIN_RETRY_MS: int := 1_000
  const OUTBOX_BATCH_POSTINGS: nat := 20
  const OUTBOX_MAX_STATEMENTS: nat := 100
  const OUTBOX_RETENTION_MS: int := 7 * 24 * 60 * 60 * 1000
  const CLEANUP_INTERVAL_MS: int := 60 * 60 * 1000
  const SNAPSHOT_INTERVAL_MS: int := 24 * 60 * 60 * 1000

  function ItemOf(r: OutboxRow): LogItem {
    LogItem(r.payload, r.postedAt)
  }

  function ItemsOf(rows: seq<OutboxRow>): (items: seq<LogItem>)
    ensures |items| == |rows|
    ensures forall i :: 0 <= i < |rows| ==> items[i] == ItemOf(rows[i])
  {
    seq(|rows|, i requires 0 <= i < |rows| => ItemOf(rows[i]))
  }

  function IdsOf(rows: seq<OutboxRow>): set<nat> {
    set r | r in rows :: r.id
  }

  // ---------------------------------------------------------------- selecting a batch

  /** Pending, and either forced or not waiting for a later retry time. */
  predicate Eligible(r: OutboxRow, now: int, force: bool) {
    r.status == Pending && (force || r.nextRetryAt.None? || r.nextRetryAt.value <= now)
  }

  /** Pending rows whose retry time has come. */
  predicate Due(r: OutboxRow, now: int) {
    Eligible(r, now, false)
  }

  function EligibleRows(outbox: seq<OutboxRow>, now: int, force: bool): (rows: seq<OutboxRow>)
    ensures forall r :: r in rows <==> r in outbox && Eligible(r, now, force)
  {
    if outbox == [] then []
    else
      var init, last := outbox[..|outbox| - 1], outbox[|outbox| - 1];
      assert outbox == init + [last];
      if Eligible(last, now, force) then EligibleRows(init, now, force) + [last] else EligibleRows(init, now, force)
  }

  /** ORDER BY id ASC LIMIT 20, for a table kept in id order; CandidatesAreLowest says what that gives. */
  function Candidates(outbox: seq<OutboxRow>, now: int, force: bool): (rows: seq<OutboxRow>)
    ensures forall r :: r in rows ==> r in outbox && Eligible(r, now, force)
    ensures |rows| <= OUTBOX_BATCH_POSTINGS
    ensures rows == [] ==> forall r :: r in outbox ==> !Eligible(r, now, force)
  {
    var all := EligibleRows(outbox, now, force);
    if |all| <= OUTBOX_BATCH_POSTINGS then all else all[..OUTBOX_BATCH_POSTINGS]
  }

  /** Rows are kept in the order of their ids, which an autoincrement column hands out. */
  ghost predicate AscendingIds(outbox: seq<OutboxRow>) {
    forall i, j :: 0 <= i < j < |outbox| ==> outbox[i].id < outbox[j].id
  }

  lemma {:induction false} EligibleAscending(outbox: seq<OutboxRow>, now: int, force: bool)
    requires AscendingIds(outbox)
    ensures AscendingIds(EligibleRows(outbox, now, force))
  {
    if outbox != [] {
      var init, last := outbox[..|outbox| - 1], outbox[|outbox| - 1];
      EligibleAscending(init, now, force);
      var rows := EligibleRows(init, now, force);
      forall i | 0 <= i < |rows|
        ensures rows[i].id < last.id
      {
        assert rows[i] in rows && rows[i] in init;
      }
    }
  }

  /** An eligible row is left out of the answer only behind 20 rows with smaller ids. */
  ghost predicate LowestEligible(rows: seq<OutboxRow>, outbox: seq<OutboxRow>, now: int, force: bool) {
    && AscendingIds(rows)
    && (forall r :: r in rows ==> r in outbox && Eligible(r, now, force))
    && forall r :: r in outbox && Eligible(r, now, force) && r !in rows ==>
         |rows| == OUTBOX_BATCH_POSTINGS && forall q :: q in rows ==> q.id < r.id
  }

  /** The candidates are the at most 20 eligible rows of lowest id, in id order. */
  lemma CandidatesAreLowest(outbox: seq<OutboxRow>, now: int, force: bool)
    requires AscendingIds(outbox)
    ensures LowestEligible(Candidates(outbox, now, force), outbox, now, force)
  {
    var all, rows := EligibleRows(outbox, now, force), Candidates(outbox, now, force);
    EligibleAscending(outbox, now, force);
    forall r | r in outbox && Eligible(r, now, force) && r !in rows
      ensures |rows| == OUTBOX_BATCH_POSTINGS && forall q :: q in rows ==> q.id < r.id
    {
      var i :| 0 <= i < |all| && all[i] == r;
    }
  }

  /** Number of mirror statements of one posting: registry, header, one per leg. */
  function Cost(r: OutboxRow): nat {
    2 + |r.payload.entries|
  }

  function TotalCost(rows: seq<OutboxRow>): nat {
    if rows == [] then 0 else TotalCost(rows[..|rows| - 1]) + Cost(rows[|rows| - 1])
  }

  /** How many rows the composing loop includes, having included k of them already. */
  function FitFrom(rows: seq<OutboxRow>, k: nat): (n: nat)
    requires k <= |rows| && TotalCost(rows[..k]) <= OUTBOX_MAX_STATEMENTS
    ensures k <= n <= |rows| && TotalCost(rows[..n]) <= OUTBOX_MAX_STATEMENTS
    ensures n < |rows| ==> TotalCost(rows[..n + 1]) > OUTBOX_MAX_STATEMENTS
    decreases |rows| - k
  {
    if k == |rows| then k
    else
      assert rows[..k + 1][..k] == rows[..k];
      if TotalCost(rows[..k]) + Cost(rows[k]) > OUTBOX_MAX_STATEMENTS then k else FitFrom(rows, k + 1)
  }

  function Included(rows: seq<OutboxRow>): (inc: seq<OutboxRow>)
    ensures inc <= rows && TotalCost(inc) <= OUTBOX_MAX_STATEMENTS
    ensures |inc| < |rows| ==> TotalCost(rows[..|inc| + 1]) > OUTBOX_MAX_STATEMENTS
  {
    rows[..FitFrom(rows, 0)]
  }

  lemma {:induction false} TotalCostMonotone(rows: seq<OutboxRow>, i: nat, j: nat)
    requires i <= j <= |rows|
    ensures TotalCost(rows[..i]) <= TotalCost(rows[..j])
    decreases j
  {
    if i < j {
      TotalCostMonotone(rows, i, j - 1);
      assert rows[..j][..j - 1] == rows[..j - 1];
    }
  }

  /** The included rows are the longest prefix of the candidates that fits the statement bound. */
  lemma IncludedIsLongestFit(rows: seq<OutboxRow>, n: nat)
    requires n <= |rows|
    ensures TotalCost(rows[..n]) <= OUTBOX_MAX_STATEMENTS <==> n <= |Included(rows)|
  {
    var k := |Included(rows)|;
    assert Included(rows) == rows[..k];
    if n <= k {
      TotalCostMonotone(rows, n, k);
    } else {
      TotalCostMonotone(rows, k + 1, n);
    }
  }

  /** Nothing is included exactly when the first candidate alone exceeds the bound: more than 98 legs. */
  lemma NothingFits(rows: seq<OutboxRow>)
    requires rows != []
    ensures Included(rows) == [] <==> |rows[0].payload.entries| > 98
  {
    IncludedIsLongestFit(rows, 1);
    assert rows[..1] == [rows[0]] && [rows[0]][..0] == [];
  }

  datatype Choice =
    | Nothing
    | NoMerchant(rows: seq<OutboxRow>)
    | TooLarge(row: OutboxRow)
    | Batch(rows: seq<OutboxRow>)

  /** getMerchantId, falling back on the first candidate's own merchant id. */
  function ResolveMerchant(l: Ledger, rows: seq<OutboxRow>): Option<int>
    requires rows != []
  {
    if MerchantIdOf(l).Some? then MerchantIdOf(l)
    else if rows[0].payload.merchantId > 0 then Some(rows[0].payload.merchantId)
    else None
  }

  function Choose(l: Ledger, now: int, force: bool): Choice {
    var rows := Candidates(l.outbox, now, force);
    if rows == [] then Nothing
    else if ResolveMerchant(l, rows).None? then NoMerchant(rows)
    else if Included(rows) == [] then TooLarge(rows[0])
    else Batch(Included(rows))
  }

  /** A drain remembers the merchant id it resolved. */
  function CacheMerchant(l: Ledger, now: int, force: bool): Ledger {
    var rows := Candidates(l.outbox, now, force);
    if rows == [] || ResolveMerchant(l, rows).None? then l else l.(merchantId := ResolveMerchant(l, rows))
  }

  // ---------------------------------------------------------------- marking rows

  function Min(a: int, b: int): int {
    if a <= b then a else b
  }

  function Max(a: int, b: int): int {
    if a >= b then a else b
  }

  function Backoff(retries: nat): int {
    Min(OUTBOX_DRAIN_MAX_BACKOFF_MS, OUTBOX_DRAIN_RETRY_MS * Pow2(if retries <= 10 then retries else 10))
  }

  lemma {:induction false} Pow2Monotone(i: nat, j: nat)
    requires i <= j
    ensures Pow2(i) <= Pow2(j)
    decreases j
  {
    if i < j {
      Pow2Monotone(i, j - 1);
    }
  }

  /** Backoff after a failure lies between 2 s and 60 s and never shrinks as failures add up. */
  lemma BackoffBounds(i: nat, j: nat)
    requires 1 <= i <= j
    ensures 2_000 <= Backoff(i) <= Backoff(j) <= 60_000
  {
    var a, b := if i <= 10 then i else 10, if j <= 10 then j else 10;
    assert Pow2(1) == 2 * Pow2(0);
    Pow2Monotone(1, a);
    Pow2Monotone(a, b);
  }

  function RetryRow(r: OutboxRow, ids: set<nat>, now: int): OutboxRow {
    if r.id in ids then r.(retryCount := r.retryCount + 1, nextRetryAt := Some(now + Backoff(r.retryCount + 1))) else r
  }

  /** markOutboxRetry: count the failure and back off; the status is left alone. */
  function MarkRetry(outbox: seq<OutboxRow>, ids: set<nat>, now: int): (out: seq<OutboxRow>)
    ensures |out| == |outbox|
    ensures forall i :: 0 <= i < |out| ==> out[i] == RetryRow(outbox[i], ids, now)
  {
    seq(|outbox|, i requires 0 <= i < |outbox| => RetryRow(outbox[i], ids, now))
  }

  function SyncRow(r: OutboxRow, ids: set<nat>, now: int): OutboxRow {
    if r.id in ids then r.(status := Synced, nextRetryAt := None, syncedAt := now) else r
  }

  function MarkSynced(outbox: seq<OutboxRow>, ids: set<nat>, now: int): (out: seq<OutboxRow>)
    ensures |out| == |outbox|
    ensures forall i :: 0 <= i < |out| ==> out[i] == SyncRow(outbox[i], ids, now)
  {
    seq(|outbox|, i requires 0 <= i < |outbox| => SyncRow(outbox[i], ids, now))
  }

  predicate Expired(r: OutboxRow, now: int) {
    r.status == Synced && r.syncedAt < now - OUTBOX_RETENTION_MS
  }

  function Unexpired(outbox: seq<OutboxRow>, now: int): (out: seq<OutboxRow>)
    ensures forall r :: r in out <==> r in outbox && !Expired(r, now)
  {
    if outbox == [] then []
    else
      var init, last := outbox[..|outbox| - 1], outbox[|outbox| - 1];
      assert outbox == init + [last];
      if Expired(last, now) then Unexpired(init, now) else Unexpired(init, now) + [last]
  }

  /** maybeCleanupOutbox: at most once an hour, drop synced rows older than the retention. */
  function Cleanup(l: Ledger, now: int): Ledger {
    if now - l.lastCleanupAt < CLEANUP_INTERVAL_MS then l
    else l.(outbox := Unexpired(l.outbox, now), lastCleanupAt := now)
  }

  // ---------------------------------------------------------------- the alarm

  /** MIN(COALESCE(next_retry_at, now)) over the pending rows. */
  function EarliestRetry(outbox: seq<OutboxRow>, now: int): (t: Option<int>)
    ensures t.None? <==> forall r :: r in outbox ==> r.status != Pending
    ensures t.Some? ==> exists r :: r in outbox && r.status == Pending && t.value == RetryAt(r, now)
    ensures t.Some? ==> forall r :: r in outbox && r.status == Pending ==> t.value <= RetryAt(r, now)
  {
    if outbox == [] then None
    else
      var init, last := outbox[..|outbox| - 1], outbox[|outbox| - 1];
      assert outbox == init + [last];
      var t := EarliestRetry(init, now);
      if last.status != Pending then t
      else if t.None? then Some(RetryAt(last, now))
      else Some(Min(t.value, RetryAt(last, now)))
  }

  function RetryAt(r: OutboxRow, now: int): int {
    if r.nextRetryAt.None? then now else r.nextRetryAt.value
  }

  /** scheduleNextAlarm: soon if a row is due, at the earliest retry otherwise, else at the next snapshot. */
  function AlarmTarget(l: Ledger, now: int): int {
    var next := EarliestRetry(l.outbox, now);
    if next.Some? && next.value <= now then now + OUTBOX_DRAIN_KICK_MS
    else if next.Some? then next.value
    else l.lastSnapshotAt + SNAPSHOT_INTERVAL_MS
  }

  function Reschedule(l: Ledger, now: int): Ledger {
    if l.alarm.None? || l.alarm.value > AlarmTarget(l, now) then l.(alarm := Some(AlarmTarget(l, now))) else l
  }

  // ---------------------------------------------------------------- every drain makes progress

  function DueIds(outbox: seq<OutboxRow>, now: int): set<nat> {
    set r | r in outbox && Due(r, now) :: r.id
  }

  /** What one drain does to the outbox when its answer comes back at time `answeredAt`. */
  function AfterDrain(outbox: seq<OutboxRow>, choice: Choice, accepted: bool, answeredAt: int): seq<OutboxRow> {
    match choice
    case Nothing => outbox
    case NoMerchant(rows) => MarkRetry(outbox, IdsOf(rows), answeredAt)
    case TooLarge(row) => MarkRetry(outbox, {row.id}, answeredAt)
    case Batch(rows) => if accepted then MarkSynced(outbox, IdsOf(rows), answeredAt) else MarkRetry(outbox, IdsOf(rows), answeredAt)
  }

  function Touched(choice: Choice): set<nat> {
    match choice
    case Nothing => {}
    case NoMerchant(rows) => IdsOf(rows)
    case TooLarge(row) => {row.id}
    case Batch(rows) => IdsOf(rows)
  }

  lemma ChooseTouches(l: Ledger, now: int, force: bool)
    ensures Choose(l, now, force).Nothing? <==> forall r :: r in l.outbox ==> !Eligible(r, now, force)
    ensures forall id :: id in Touched(Choose(l, now, force)) ==> exists r :: r in l.outbox && Eligible(r, now, force) && r.id == id
    ensures !Choose(l, now, force).Nothing? ==> Touched(Choose(l, now, force)) != {}
  {
    var rows := Candidates(l.outbox, now, force);
    if rows != [] {
      assert rows[0] in rows && rows[0].id in IdsOf(rows);
      var inc := Included(rows);
      assert forall r :: r in inc ==> r in rows;
      if inc != [] {
        assert inc[0] in inc && inc[0].id in IdsOf(inc);
      }
    }
  }

  /** A row that is still due after a drain was due before and is not one the drain touched. */
  lemma StillDue(outbox: seq<OutboxRow>, choice: Choice, accepted: bool, answeredAt: int, clock: int, i: nat)
    requires i < |outbox| && clock < answeredAt + 2_000
    ensures var out := AfterDrain(outbox, choice, accepted, answeredAt);
      && |out| == |outbox| && out[i].id == outbox[i].id
      && (Due(out[i], clock) ==> Due(outbox[i], clock) && out[i].id !in Touched(choice))
  {
    BackoffBounds(outbox[i].retryCount + 1, outbox[i].retryCount + 1);
  }

  lemma DueAfterDrain(outbox: seq<OutboxRow>, choice: Choice, accepted: bool, answeredAt: int, clock: int)
    requires clock < answeredAt + 2_000
    ensures DueIds(AfterDrain(outbox, choice, accepted, answeredAt), clock) <= DueIds(outbox, clock) - Touched(choice)
  {
    var out := AfterDrain(outbox, choice, accepted, answeredAt);
    forall id | id in DueIds(out, clock)
      ensures id in DueIds(outbox, clock) && id !in Touched(choice)
    {
      var r :| r in out && Due(r, clock) && r.id == id;
      var i :| 0 <= i < |out| && out[i] == r;
      assert |out| == |outbox|;
      StillDue(outbox, choice, accepted, answeredAt, clock, i);
      assert outbox[i] in outbox;
    }
  }

  lemma TouchesDueRow(l: Ledger, now: int, clock: int) returns (id: nat)
    requires now <= clock && DueIds(l.outbox, now) != {}
    ensures id in Touched(Choose(l, now, false)) && id in DueIds(l.outbox, clock)
  {
    ChooseTouches(l, now, false);
    var due :| due in DueIds(l.outbox, now);
    var d :| d in l.outbox && Due(d, now) && d.id == due;
    assert !Choose(l, now, false).Nothing?;
    id :| id in Touched(Choose(l, now, false));
    var r :| r in l.outbox && Eligible(r, now, false) && r.id == id;
    assert Due(r, clock);
  }

  /**
   * A drain that found work takes at least one row out of the due set and puts none in, at any clock
   * reading up to two seconds after its answer: accepted, refused, oversize or without a merchant.
   */
  lemma DrainShrinksDue(l: Ledger, now: int, accepted: bool, answeredAt: int, clock: int)
    requires now <= clock < answeredAt + 2_000
    requires DueIds(l.outbox, now) != {}
    ensures DueIds(AfterDrain(l.outbox, Choose(l, now, false), accepted, answeredAt), clock) < DueIds(l.outbox, clock)
  {
    DueAfterDrain(l.outbox, Choose(l, now, false), accepted, answeredAt, clock);
    var id := TouchesDueRow(l, now, clock);
  }
}
