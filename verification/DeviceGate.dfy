/**
 * The routes that accept device messages, updating the nonce table in place
 * (src/controllers/mobile.ts `/sms`, `/sms/batch`, `/devices/rotate-key`; src/cron/handler.ts).
 * Each message has its own clock readings: one for the freshness test, one for the insert.  Tier
 * policy, revocation and carrier tables are decided elsewhere; an item carries the answers of the
 * carrier and signature checks.
 */
module DeviceGate {
  import opened Common
  import opened DeviceNonces

  /** A timestamp field: absent (or zero), not a date, or a time in milliseconds. */
  datatype Stamp = NoStamp | BadStamp | At(ms: int)

  datatype Item = Item(sender: string, body: string, trusted: bool, nonce: string, stamp: Stamp, signed: bool, valid: bool)

  datatype Reason = ValidationError | UntrustedCarrier | MissingSignature | TimestampOutOfBounds | NonceReplayed | InvalidSignature

  datatype Reply = Queued(signatureVerified: bool) | VelocityExceeded | Refused(reason: Reason)

  datatype Rejection = Rejection(index: nat, reason: Reason)

  /** The checks on a signed message, in order; `replayed` is the answer of the nonce lookup. */
  function SignedVerdict(item: Item, now: int, replayed: bool): Option<Reason> {
    if item.nonce == "" || item.stamp.NoStamp? || !item.signed then Some(MissingSignature)
    else if item.stamp.BadStamp? || !Fresh(now, item.stamp.ms) then Some(TimestampOutOfBounds)
    else if replayed then Some(NonceReplayed)
    else if !item.valid then Some(InvalidSignature)
    else None
  }

  function ItemVerdict(item: Item, keyed: bool, now: int, replayed: bool): Option<Reason> {
    if item.sender == "" || item.body == "" then Some(ValidationError)
    else if !item.trusted then Some(UntrustedCarrier)
    else if keyed then SignedVerdict(item, now, replayed)
    else None
  }

  // ---------------------------------------------------------------- the checks, one by one

  /** Each reason to refuse a message, on its own; `used` says whether its nonce is already stored. */
  predicate Applies(reason: Reason, item: Item, keyed: bool, checked: int, used: bool) {
    match reason
    case ValidationError => item.sender == "" || item.body == ""
    case UntrustedCarrier => !item.trusted
    case MissingSignature => keyed && (item.nonce == "" || item.stamp == NoStamp || !item.signed)
    case TimestampOutOfBounds =>
      keyed && (item.stamp == BadStamp || (item.stamp.At? && (checked - item.stamp.ms < -300_000 || checked - item.stamp.ms > 300_000)))
    case NonceReplayed => keyed && used
    case InvalidSignature => keyed && !item.valid
  }

  /** The order in which the reasons are looked at. */
  function Rank(reason: Reason): nat {
    match reason
    case ValidationError => 0
    case UntrustedCarrier => 1
    case MissingSignature => 2
    case TimestampOutOfBounds => 3
    case NonceReplayed => 4
    case InvalidSignature => 5
  }

  /** The reason applies and no earlier one, counted from rank `from`, does. */
  ghost predicate FirstToApply(reason: Reason, from: nat, item: Item, keyed: bool, checked: int, used: bool) {
    && Rank(reason) >= from && Applies(reason, item, keyed, checked, used)
    && forall q :: from <= Rank(q) < Rank(reason) ==> !Applies(q, item, keyed, checked, used)
  }

  /** A message is refused for the first reason that applies, and accepted if and only if none does. */
  lemma VerdictIsFirst(item: Item, keyed: bool, checked: int, used: bool)
    ensures var v := ItemVerdict(item, keyed, checked, used);
      && (v.None? <==> forall q :: !Applies(q, item, keyed, checked, used))
      && (v.Some? ==> FirstToApply(v.value, 0, item, keyed, checked, used))
    ensures var v := SignedVerdict(item, checked, used);
      && (v.None? <==> forall q :: Rank(q) >= 2 ==> !Applies(q, item, true, checked, used))
      && (v.Some? ==> FirstToApply(v.value, 2, item, true, checked, used))
  {
    var v, w := ItemVerdict(item, keyed, checked, used), SignedVerdict(item, checked, used);
    assert v.Some? ==> Applies(v.value, item, keyed, checked, used);
    assert w.Some? ==> Applies(w.value, item, true, checked, used) && Rank(w.value) >= 2;
  }

  /** A nonce, a time within five minutes, and a signature that verifies. */
  predicate Proven(item: Item, checked: int) {
    && item.nonce != "" && item.stamp.At? && item.signed && item.valid
    && -300_000 <= checked - item.stamp.ms <= 300_000
  }

  /** A message with content, from a trusted carrier. */
  predicate Admissible(item: Item) {
    item.sender != "" && item.body != "" && item.trusted
  }

  ghost predicate Unused(table: seq<NonceRow>, device: int, nonce: string) {
    forall i :: 0 <= i < |table| && table[i].device == device ==> table[i].nonce != nonce
  }

  lemma ProvenIsAccepted(item: Item, checked: int, used: bool)
    ensures SignedVerdict(item, checked, used).None? <==> Proven(item, checked) && !used
    ensures ItemVerdict(item, true, checked, used).None? <==> Admissible(item) && Proven(item, checked) && !used
    ensures ItemVerdict(item, false, checked, used).None? <==> Admissible(item)
  {}

  lemma UnusedIsUnknown(table: seq<NonceRow>, device: int, nonce: string)
    ensures Known(table, device, nonce) <==> !Unused(table, device, nonce)
  {}

  ghost predicate Ascending(indices: seq<nat>, bound: nat) {
    && (forall a, b :: 0 <= a < b < |indices| ==> indices[a] < indices[b])
    && (forall a :: 0 <= a < |indices| ==> indices[a] < bound)
  }

  ghost predicate AscendingRejections(rs: seq<Rejection>, bound: nat) {
    && (forall a, b :: 0 <= a < b < |rs| ==> rs[a].index < rs[b].index)
    && (forall a :: 0 <= a < |rs| ==> rs[a].index < bound)
  }

  ghost predicate RejectedAt(rs: seq<Rejection>, i: nat) {
    exists a :: 0 <= a < |rs| && rs[a].index == i
  }

  /** A nonce is replayed if it was stored before the batch or by an earlier queued message of it. */
  ghost predicate ReplayedIn(table: seq<NonceRow>, device: int, items: seq<Item>, queued: seq<nat>, i: nat)
    requires i < |items| && forall k :: 0 <= k < |queued| ==> queued[k] < |items|
  {
    Known(table, device, items[i].nonce) || exists k :: 0 <= k < |queued| && queued[k] < i && items[queued[k]].nonce == items[i].nonce
  }

  /** When a message is tested for freshness, and when its nonce is stored. */
  datatype Reading = Reading(checked: int, stored: int)

  /** Every one of the first n messages is in exactly one list, for the right reason. */
  ghost predicate Partitioned(
      table: seq<NonceRow>, device: int, keyed: bool, clock: seq<Reading>, items: seq<Item>, n: nat, queued: seq<nat>, rejected: seq<Rejection>)
    requires n <= |items| == |clock|
  {
    && Ascending(queued, n) && AscendingRejections(rejected, n)
    && (forall i :: 0 <= i < n ==> (i in queued <==> !RejectedAt(rejected, i)))
    && (forall k :: 0 <= k < |queued| ==>
          ItemVerdict(items[queued[k]], keyed, clock[queued[k]].checked, ReplayedIn(table, device, items, queued, queued[k])).None?)
    && (forall k :: 0 <= k < |rejected| ==>
          ItemVerdict(items[rejected[k].index], keyed, clock[rejected[k].index].checked,
                      ReplayedIn(table, device, items, queued, rejected[k].index)) == Some(rejected[k].reason))
  }

  function MessageOf(device: int, item: Item, r: Reading): Message {
    Message(device, item.nonce, if item.stamp.At? then item.stamp.ms else 0, r.checked, r.stored)
  }

  /** The queued messages, as they are stored. */
  function MessagesAt(device: int, items: seq<Item>, queued: seq<nat>, clock: seq<Reading>): (ms: seq<Message>)
    requires |items| == |clock| && forall k :: 0 <= k < |queued| ==> queued[k] < |items|
    ensures |ms| == |queued| && forall k :: 0 <= k < |queued| ==> ms[k] == MessageOf(device, items[queued[k]], clock[queued[k]])
  {
    seq(|queued|, k requires 0 <= k < |queued| => MessageOf(device, items[queued[k]], clock[queued[k]]))
  }

  lemma KnownAppend(table: seq<NonceRow>, rows: seq<NonceRow>, device: int, nonce: string)
    ensures Known(table + rows, device, nonce) <==> Known(table, device, nonce) || Known(rows, device, nonce)
  {
    if Known(table, device, nonce) {
      var i :| 0 <= i < |table| && table[i].device == device && table[i].nonce == nonce;
      assert (table + rows)[i] == table[i];
    }
    if Known(rows, device, nonce) {
      var k :| 0 <= k < |rows| && rows[k].device == device && rows[k].nonce == nonce;
      assert (table + rows)[|table| + k] == rows[k];
    }
  }

  /** While the first n messages are processed, the table knows exactly the replayed nonces. */
  lemma LookupIsReplay(table: seq<NonceRow>, device: int, clock: seq<Reading>, items: seq<Item>, n: nat, queued: seq<nat>)
    requires n < |items| == |clock| && Ascending(queued, n)
    ensures Known(table + RowsFor(MessagesAt(device, items, queued, clock)), device, items[n].nonce) <==> ReplayedIn(table, device, items, queued, n)
  {
    var rows := RowsFor(MessagesAt(device, items, queued, clock));
    KnownAppend(table, rows, device, items[n].nonce);
    if k :| 0 <= k < |queued| && items[queued[k]].nonce == items[n].nonce {
      assert rows[k].nonce == items[n].nonce;
    }
  }

  lemma ReplayedPrefix(table: seq<NonceRow>, device: int, items: seq<Item>, queued: seq<nat>, n: nat, i: nat)
    requires i < |items| && n < |items| && i <= n && Ascending(queued, n)
    ensures ReplayedIn(table, device, items, queued + [n], i) <==> ReplayedIn(table, device, items, queued, i)
  {
    var q := queued + [n];
    assert forall k :: 0 <= k < |queued| ==> q[k] == queued[k];
  }

  lemma QueueNext(
      table: seq<NonceRow>, device: int, keyed: bool, clock: seq<Reading>, items: seq<Item>, n: nat, queued: seq<nat>, rejected: seq<Rejection>)
    requires n < |items| == |clock| && Partitioned(table, device, keyed, clock, items, n, queued, rejected)
    requires ItemVerdict(items[n], keyed, clock[n].checked, ReplayedIn(table, device, items, queued, n)).None?
    ensures Partitioned(table, device, keyed, clock, items, n + 1, queued + [n], rejected)
  {
    var q := queued + [n];
    forall k | 0 <= k < |q|
      ensures ItemVerdict(items[q[k]], keyed, clock[q[k]].checked, ReplayedIn(table, device, items, q, q[k])).None?
    {
      ReplayedPrefix(table, device, items, queued, n, q[k]);
    }
    forall k | 0 <= k < |rejected|
      ensures ItemVerdict(items[rejected[k].index], keyed, clock[rejected[k].index].checked, ReplayedIn(table, device, items, q, rejected[k].index)) == Some(rejected[k].reason)
    {
      ReplayedPrefix(table, device, items, queued, n, rejected[k].index);
    }
    assert q[|queued|] == n;
  }

  lemma RejectNext(
      table: seq<NonceRow>, device: int, keyed: bool, clock: seq<Reading>, items: seq<Item>, n: nat, queued: seq<nat>, rejected: seq<Rejection>, reason: Reason)
    requires n < |items| == |clock| && Partitioned(table, device, keyed, clock, items, n, queued, rejected)
    requires ItemVerdict(items[n], keyed, clock[n].checked, ReplayedIn(table, device, items, queued, n)) == Some(reason)
    ensures Partitioned(table, device, keyed, clock, items, n + 1, queued, rejected + [Rejection(n, reason)])
  {
    var rs := rejected + [Rejection(n, reason)];
    assert rs[|rejected|].index == n;
    forall i | 0 <= i < n
      ensures RejectedAt(rs, i) <==> RejectedAt(rejected, i)
    {
      if RejectedAt(rejected, i) {
        var a :| 0 <= a < |rejected| && rejected[a].index == i;
        assert rs[a].index == i;
      }
    }
  }

  /** Nonces accepted from one batch are new and pairwise different. */
  lemma AcceptedNoncesDistinct(
      table: seq<NonceRow>, device: int, clock: seq<Reading>, items: seq<Item>, queued: seq<nat>, rejected: seq<Rejection>)
    requires |items| == |clock| && Partitioned(table, device, true, clock, items, |items|, queued, rejected)
    ensures forall k :: 0 <= k < |queued| ==> !Known(table, device, items[queued[k]].nonce)
    ensures forall a, b :: 0 <= a < b < |queued| ==> items[queued[a]].nonce != items[queued[b]].nonce
  {
    forall k | 0 <= k < |queued|
      ensures !ReplayedIn(table, device, items, queued, queued[k])
    {
      assert ItemVerdict(items[queued[k]], true, clock[queued[k]].checked, ReplayedIn(table, device, items, queued, queued[k])).None?;
    }
    forall a, b | 0 <= a < b < |queued|
      ensures items[queued[a]].nonce != items[queued[b]].nonce
    {
      assert !ReplayedIn(table, device, items, queued, queued[b]) && queued[a] < queued[b];
    }
  }

  /** An earlier queued message of the batch has the nonce. */
  ghost predicate UsedBefore(items: seq<Item>, queued: seq<nat>, i: nat)
    requires i < |items| && forall k :: 0 <= k < |queued| ==> queued[k] < |items|
  {
    exists k :: 0 <= k < |queued| && queued[k] < i && items[queued[k]].nonce == items[i].nonce
  }

  /**
   * Which messages of a batch are queued: those with content, from a trusted carrier and, for a device
   * with a key, validly signed, in time and with a nonce no stored row and no earlier queued message
   * has.  The others are rejected for the first reason that applies.
   */
  ghost predicate SortedOut(
      table: seq<NonceRow>, device: int, keyed: bool, clock: seq<Reading>, items: seq<Item>, queued: seq<nat>, rejected: seq<Rejection>)
    requires |items| == |clock| && forall k :: 0 <= k < |queued| ==> queued[k] < |items|
  {
    && (forall i: nat :: i < |items| ==>
          (i in queued <==>
             && Admissible(items[i])
             && (keyed ==> Proven(items[i], clock[i].checked) && Unused(table, device, items[i].nonce) && !UsedBefore(items, queued, i))))
    && (forall k :: 0 <= k < |rejected| && rejected[k].index < |items| ==>
          var i := rejected[k].index;
          FirstToApply(rejected[k].reason, 0, items[i], keyed, clock[i].checked,
                       !Unused(table, device, items[i].nonce) || UsedBefore(items, queued, i)))
  }

  lemma SortedOutAt(
      table: seq<NonceRow>, device: int, keyed: bool, clock: seq<Reading>, items: seq<Item>, queued: seq<nat>, rejected: seq<Rejection>, i: nat)
    requires i < |items| == |clock| && Partitioned(table, device, keyed, clock, items, |items|, queued, rejected)
    ensures i in queued <==> ItemVerdict(items[i], keyed, clock[i].checked, ReplayedIn(table, device, items, queued, i)).None?
    ensures ReplayedIn(table, device, items, queued, i) <==> !Unused(table, device, items[i].nonce) || UsedBefore(items, queued, i)
  {
    UnusedIsUnknown(table, device, items[i].nonce);
    if i in queued {
      var k :| 0 <= k < |queued| && queued[k] == i;
      assert ItemVerdict(items[queued[k]], keyed, clock[queued[k]].checked, ReplayedIn(table, device, items, queued, queued[k])).None?;
    } else {
      var a :| 0 <= a < |rejected| && rejected[a].index == i;
      assert ItemVerdict(items[rejected[a].index], keyed, clock[rejected[a].index].checked,
                         ReplayedIn(table, device, items, queued, rejected[a].index)) == Some(rejected[a].reason);
    }
  }

  lemma PartitionSortsOut(
      table: seq<NonceRow>, device: int, keyed: bool, clock: seq<Reading>, items: seq<Item>, queued: seq<nat>, rejected: seq<Rejection>)
    requires |items| == |clock| && Partitioned(table, device, keyed, clock, items, |items|, queued, rejected)
    ensures SortedOut(table, device, keyed, clock, items, queued, rejected)
  {
    forall i: nat | i < |items|
      ensures i in queued <==>
        && Admissible(items[i])
        && (keyed ==> Proven(items[i], clock[i].checked) && Unused(table, device, items[i].nonce) && !UsedBefore(items, queued, i))
    {
      SortedOutAt(table, device, keyed, clock, items, queued, rejected, i);
      ProvenIsAccepted(items[i], clock[i].checked, ReplayedIn(table, device, items, queued, i));
    }
    forall k | 0 <= k < |rejected|
      ensures var i := rejected[k].index;
        FirstToApply(rejected[k].reason, 0, items[i], keyed, clock[i].checked,
                     !Unused(table, device, items[i].nonce) || UsedBefore(items, queued, i))
    {
      var i := rejected[k].index;
      SortedOutAt(table, device, keyed, clock, items, queued, rejected, i);
      VerdictIsFirst(items[i], keyed, clock[i].checked, ReplayedIn(table, device, items, queued, i));
    }
  }

  // ---------------------------------------------------------------- runs of the routes

  /** A call of one of the routes, or of the purge job. */
  datatype Call =
    | SmsCall(device: int, keyed: bool, item: Item, r: Reading)
    | BatchCall(device: int, keyed: bool, items: seq<Item>, at: int, clock: seq<Reading>)
    | RotateCall(device: int, item: Item, r: Reading)
    | PurgeCall(now: int)

  /** The message and the row a signed item leaves behind. */
  ghost predicate LeavesMessage(before: Traffic, after: Traffic, device: int, item: Item, r: Reading) {
    && item.stamp.At?
    && after.sms == before.sms + [Message(device, item.nonce, item.stamp.ms, r.checked, r.stored)]
    && after.table == before.table + [NonceRow(device, item.nonce, Sec(r.stored))]
  }

  /** What a call may do to the table and the history of queued signed messages. */
  ghost predicate Answered(before: Traffic, after: Traffic, call: Call) {
    match call
    case SmsCall(device, keyed, item, r) =>
      if keyed && Admissible(item) && Proven(item, r.checked) && Unused(before.table, device, item.nonce)
         && |RecentRows(before.table, device, r.checked)| < 60
      then LeavesMessage(before, after, device, item, r) else after == before
    case BatchCall(device, keyed, items, at, clock) =>
      || after == before
      || (keyed && |items| == |clock| && exists queued, rejected :: Batched(before, after, device, clock, items, queued, rejected))
    case RotateCall(device, item, r) =>
      && after.sms == before.sms
      && after.table == before.table + (if Proven(item, r.checked) && Unused(before.table, device, item.nonce)
                                        then [NonceRow(device, item.nonce, Sec(r.stored))] else [])
    case PurgeCall(now) => after.sms == before.sms
  }

  ghost predicate Batched(
      before: Traffic, after: Traffic, device: int, clock: seq<Reading>, items: seq<Item>, queued: seq<nat>, rejected: seq<Rejection>)
    requires |items| == |clock|
  {
    && Partitioned(before.table, device, true, clock, items, |items|, queued, rejected)
    && after.sms == before.sms + MessagesAt(device, items, queued, clock)
  }

  /** States `states[0]`, `states[1]`, ... that calls lead through, from empty tables on. */
  ghost predicate GateRun(states: seq<Traffic>, calls: seq<Call>) {
    && |states| == |calls| + 1 && states[0] == Traffic([], [])
    && forall i :: 0 <= i < |calls| ==> Answered(states[i], states[i + 1], calls[i])
  }

  /** The stored message is an item with content, from a trusted carrier, validly signed and in time. */
  ghost predicate Genuine(m: Message, device: int, item: Item, r: Reading) {
    Admissible(item) && Proven(item, r.checked) && m == Message(device, item.nonce, item.stamp.ms, r.checked, r.stored)
  }

  ghost predicate SentBy(m: Message, call: Call) {
    match call
    case SmsCall(device, keyed, item, r) => keyed && Genuine(m, device, item, r)
    case BatchCall(device, keyed, items, at, clock) =>
      keyed && |items| == |clock| && exists i :: 0 <= i < |items| && Genuine(m, device, items[i], clock[i])
    case _ => false
  }

  lemma BatchedGenuine(
      before: Traffic, after: Traffic, device: int, clock: seq<Reading>, items: seq<Item>, queued: seq<nat>, rejected: seq<Rejection>, m: Message)
    requires |items| == |clock| && Batched(before, after, device, clock, items, queued, rejected) && m in after.sms && m !in before.sms
    ensures exists i :: 0 <= i < |items| && Genuine(m, device, items[i], clock[i])
  {
    var ms := MessagesAt(device, items, queued, clock);
    var k :| 0 <= k < |ms| && ms[k] == m;
    var i := queued[k];
    SortedOutAt(before.table, device, true, clock, items, queued, rejected, i);
    ProvenIsAccepted(items[i], clock[i].checked, ReplayedIn(before.table, device, items, queued, i));
    assert Genuine(m, device, items[i], clock[i]);
  }

  lemma NewMessageSent(before: Traffic, after: Traffic, call: Call, m: Message)
    requires Answered(before, after, call) && m in after.sms && m !in before.sms
    ensures SentBy(m, call)
  {
    if call.BatchCall? {
      var queued, rejected :| Batched(before, after, call.device, call.clock, call.items, queued, rejected);
      BatchedGenuine(before, after, call.device, call.clock, call.items, queued, rejected, m);
    }
  }

  /** In every run of the routes and the purge job, every signed message queued was sent by a genuine item. */
  lemma {:induction false} OnlyGenuineQueued(states: seq<Traffic>, calls: seq<Call>, m: Message)
    requires GateRun(states, calls) && m in states[|calls|].sms
    ensures exists c :: 0 <= c < |calls| && SentBy(m, calls[c])
    decreases |calls|
  {
    var n := |calls| - 1;
    if m in states[n].sms {
      var init := calls[..n];
      OnlyGenuineQueued(states[..n + 1], init, m);
      var c :| 0 <= c < |init| && SentBy(m, init[c]);
      assert calls[c] == init[c];
    } else {
      NewMessageSent(states[n], states[n + 1], calls[n], m);
    }
  }

  function AcceptEach(s: NonceState, ms: seq<Message>): NonceState {
    if ms == [] then s else NonceStep(AcceptEach(s, ms[..|ms| - 1]), Accept(ms[|ms| - 1]))
  }

  /** Messages that are fresh, unknown to the table and pairwise different are all accepted, in order. */
  ghost predicate Acceptable(table: seq<NonceRow>, ms: seq<Message>) {
    && (forall k :: 0 <= k < |ms| ==> Fresh(ms[k].checkedAt, ms[k].ts) && !Known(table, ms[k].device, ms[k].nonce))
    && (forall a, b :: 0 <= a < b < |ms| ==> ms[a].nonce != ms[b].nonce)
  }

  lemma {:induction false} AcceptAll(table: seq<NonceRow>, log: seq<Message>, ms: seq<Message>)
    requires Acceptable(table, ms)
    ensures AcceptEach(NonceState(table, log), ms) == NonceState(table + RowsFor(ms), log + ms)
  {
    if ms == [] {
      assert table + [] == table && log + [] == log;
    } else {
      var init, m := ms[..|ms| - 1], ms[|ms| - 1];
      AcceptAll(table, log, init);
      KnownAppend(table, RowsFor(init), m.device, m.nonce);
      assert table + RowsFor(ms) == table + RowsFor(init) + [RowFor(m)];
      assert log + ms == log + init + [m];
    }
  }

  /** A batch does to the nonce table what accepting its queued messages one by one does, so the replay theorem covers it. */
  lemma {:induction false} BatchIsAccepts(
      table: seq<NonceRow>, log: seq<Message>, device: int, clock: seq<Reading>, items: seq<Item>, queued: seq<nat>, rejected: seq<Rejection>)
    requires |items| == |clock| && Partitioned(table, device, true, clock, items, |items|, queued, rejected)
    ensures var ms := MessagesAt(device, items, queued, clock);
      AcceptEach(NonceState(table, log), ms) == NonceState(table + RowsFor(ms), log + ms)
  {
    var ms := MessagesAt(device, items, queued, clock);
    QueuedAcceptable(table, device, clock, items, queued, rejected);
    AcceptAll(table, log, ms);
  }

  lemma QueuedAcceptable(
      table: seq<NonceRow>, device: int, clock: seq<Reading>, items: seq<Item>, queued: seq<nat>, rejected: seq<Rejection>)
    requires |items| == |clock| && Partitioned(table, device, true, clock, items, |items|, queued, rejected)
    ensures Acceptable(table, MessagesAt(device, items, queued, clock))
  {
    AcceptedNoncesDistinct(table, device, clock, items, queued, rejected);
    var ms := MessagesAt(device, items, queued, clock);
    forall k | 0 <= k < |ms|
      ensures Fresh(ms[k].checkedAt, ms[k].ts)
    {
      assert ItemVerdict(items[queued[k]], true, clock[queued[k]].checked, ReplayedIn(table, device, items, queued, queued[k])).None?;
    }
  }

  class NonceGate {
    var nonces: seq<NonceRow>
    /** Every signed message ever queued, kept for the specification only. */
    ghost var sms: seq<Message>

    constructor ()
      ensures nonces == [] && sms == []
    {
      nonces := [];
      sms := [];
    }

    /** The table and the history after a request that got past its checks. */
    ghost function Observed(): Traffic
      reads this
    {
      Traffic(nonces, sms)
    }

    /** The velocity count and the freshness test are made at `r.checked`, the nonce is stored at `r.stored`. */
    method ReceiveSms(device: int, keyed: bool, item: Item, r: Reading) returns (reply: Reply)
      modifies this
      ensures var rough := ItemVerdict(item, false, r.checked, false);
        var verdict := SignedVerdict(item, r.checked, Known(old(nonces), device, item.nonce));
        reply == if rough.Some? then Refused(rough.value)
                 else if Recent(old(nonces), device, r.checked) >= SINGLE_CAP then VelocityExceeded
                 else if !keyed then Queued(false)
                 else if verdict.Some? then Refused(verdict.value)
                 else Queued(true)
      ensures Observed() == if reply != Queued(true) then old(Observed())
                            else Serve(old(Observed()), Single(device, r.checked, r.stored, MessageOf(device, item, r)))
      ensures reply == Queued(true) ==>
        forall log :: NonceStep(NonceState(old(nonces), log), Accept(MessageOf(device, item, r)))
                      == NonceState(nonces, log + [MessageOf(device, item, r)])
      ensures reply == Queued(true) <==>
        && item.sender != "" && item.body != "" && item.trusted && |RecentRows(old(nonces), device, r.checked)| < 60
        && keyed && item.nonce != "" && item.stamp.At? && item.signed && item.valid
        && -300_000 <= r.checked - item.stamp.ms <= 300_000 && Unused(old(nonces), device, item.nonce)
      ensures reply == Queued(false) <==> Admissible(item) && |RecentRows(old(nonces), device, r.checked)| < 60 && !keyed
      ensures reply == VelocityExceeded <==> Admissible(item) && |RecentRows(old(nonces), device, r.checked)| >= 60
      ensures reply.Refused? ==>
        FirstToApply(reply.reason, 0, item, keyed, r.checked, !Unused(old(nonces), device, item.nonce))
      ensures Answered(old(Observed()), Observed(), SmsCall(device, keyed, item, r))
    {
      RecentCounts(nonces, device, r.checked);
      UnusedIsUnknown(nonces, device, item.nonce);
      VerdictIsFirst(item, keyed, r.checked, Known(nonces, device, item.nonce));
      if item.sender == "" || item.body == "" {
        return Refused(ValidationError);
      }
      if !item.trusted {
        return Refused(UntrustedCarrier);
      }
      if Recent(nonces, device, r.checked) >= SINGLE_CAP {
        return VelocityExceeded;
      }
      if !keyed {
        return Queued(false);
      }
      if item.nonce == "" || item.stamp.NoStamp? || !item.signed {
        return Refused(MissingSignature);
      }
      if item.stamp.BadStamp? || !Fresh(r.checked, item.stamp.ms) {
        return Refused(TimestampOutOfBounds);
      }
      if Known(nonces, device, item.nonce) {
        return Refused(NonceReplayed);
      }
      if !item.valid {
        return Refused(InvalidSignature);
      }
      nonces := nonces + [NonceRow(device, item.nonce, Sec(r.stored))];
      sms := sms + [MessageOf(device, item, r)];
      return Queued(true);
    }

    /** The cap is tested at `at`, then the batch loop runs; `queued` and `rejected` hold message positions. */
    method ReceiveBatch(device: int, keyed: bool, items: seq<Item>, at: int, clock: seq<Reading>, done: int)
        returns (withinCap: bool, queued: seq<nat>, rejected: seq<Rejection>)
      requires |items| == |clock|
      modifies this
      ensures withinCap <==> |RecentRows(old(nonces), device, at)| + |items| <= 120
      ensures !withinCap ==> queued == [] && rejected == [] && Observed() == old(Observed())
      ensures withinCap ==> Partitioned(old(nonces), device, keyed, clock, items, |items|, queued, rejected)
      ensures withinCap && keyed ==>
        Observed() == Serve(old(Observed()), BatchOf(device, at, done, |items|, MessagesAt(device, items, queued, clock)))
      ensures withinCap && !keyed ==> Observed() == old(Observed())
      ensures withinCap ==> SortedOut(old(nonces), device, keyed, clock, items, queued, rejected)
      ensures Answered(old(Observed()), Observed(), BatchCall(device, keyed, items, at, clock))
    {
      RecentCounts(nonces, device, at);
      queued, rejected := [], [];
      withinCap := Recent(nonces, device, at) + |items| <= BATCH_CAP;
      if withinCap {
        queued, rejected := SortMessages(device, keyed, items, clock);
        assert keyed ==> Batched(old(Observed()), Observed(), device, clock, items, queued, rejected);
      }
    }

    /** Each message in turn is queued, and its nonce stored if it is signed, or rejected. */
    method SortMessages(device: int, keyed: bool, items: seq<Item>, clock: seq<Reading>)
        returns (queued: seq<nat>, rejected: seq<Rejection>)
      requires |items| == |clock|
      modifies this
      ensures Partitioned(old(nonces), device, keyed, clock, items, |items|, queued, rejected) && |queued| <= |items|
      ensures nonces == old(nonces) + RowsFor(Stored(device, keyed, items, queued, clock))
      ensures sms == old(sms) + Stored(device, keyed, items, queued, clock)
      ensures SortedOut(old(nonces), device, keyed, clock, items, queued, rejected)
    {
      queued, rejected := [], [];
      for n := 0 to |items|
        invariant Sorted(old(nonces), old(sms), device, keyed, clock, items, n, queued, rejected)
      {
        queued, rejected := SortOne(old(nonces), old(sms), device, keyed, items, clock, n, queued, rejected);
      }
      PartitionSortsOut(old(nonces), device, keyed, clock, items, queued, rejected);
    }

    /** The first n messages are sorted, and the queued ones of a keyed device stored. */
    ghost predicate Sorted(
        table: seq<NonceRow>, history: seq<Message>, device: int, keyed: bool, clock: seq<Reading>, items: seq<Item>, n: nat,
        queued: seq<nat>, rejected: seq<Rejection>)
      requires n <= |items| == |clock|
      reads this
    {
      && Partitioned(table, device, keyed, clock, items, n, queued, rejected) && |queued| <= n
      && nonces == table + RowsFor(Stored(device, keyed, items, queued, clock))
      && sms == history + Stored(device, keyed, items, queued, clock)
    }

    /** One pass of the loop; `table` and `history` are what it started with. */
    method SortOne(
        ghost table: seq<NonceRow>, ghost history: seq<Message>, device: int, keyed: bool, items: seq<Item>, clock: seq<Reading>, n: nat,
        queued: seq<nat>, rejected: seq<Rejection>) returns (queued': seq<nat>, rejected': seq<Rejection>)
      requires n < |items| == |clock| && Sorted(table, history, device, keyed, clock, items, n, queued, rejected)
      modifies this
      ensures Sorted(table, history, device, keyed, clock, items, n + 1, queued', rejected')
    {
      queued', rejected' := queued, rejected;
      var verdict := ItemVerdict(items[n], keyed, clock[n].checked, keyed && Known(nonces, device, items[n].nonce));
      LookupIsReplay(table, device, clock, items, n, queued);
      if verdict.Some? {
        RejectNext(table, device, keyed, clock, items, n, queued, rejected, verdict.value);
        rejected' := rejected + [Rejection(n, verdict.value)];
      } else {
        QueueNext(table, device, keyed, clock, items, n, queued, rejected);
        StoredPush(device, keyed, items, queued, n, clock);
        Remember(keyed, MessageOf(device, items[n], clock[n]));
        queued' := queued + [n];
      }
    }

    /** The nonce of a keyed device's message is stored. */
    method Remember(keyed: bool, m: Message)
      modifies this
      ensures var ms := if keyed then [m] else []; nonces == old(nonces) + RowsFor(ms) && sms == old(sms) + ms
    {
      if keyed {
        nonces := nonces + [NonceRow(m.device, m.nonce, Sec(m.storedAt))];
        sms := sms + [m];
      }
    }

    /** Key rotation consumes a nonce but is not counted against the velocity cap. */
    method RotateKey(device: int, item: Item, r: Reading) returns (reply: Reply)
      modifies this
      ensures var verdict := SignedVerdict(item, r.checked, Known(old(nonces), device, item.nonce));
        reply == if verdict.Some? then Refused(verdict.value) else Queued(true)
      ensures Observed() == if reply != Queued(true) then old(Observed())
                            else Serve(old(Observed()), Rotate(device, r.checked, r.stored, MessageOf(device, item, r)))
      ensures reply == Queued(true) ==>
        forall log :: NonceStep(NonceState(old(nonces), log), Accept(MessageOf(device, item, r)))
                      == NonceState(nonces, log + [MessageOf(device, item, r)])
      ensures reply == Queued(true) <==>
        && item.nonce != "" && item.stamp.At? && item.signed && item.valid
        && -300_000 <= r.checked - item.stamp.ms <= 300_000 && Unused(old(nonces), device, item.nonce)
      ensures reply != Queued(true) ==>
        reply.Refused? && FirstToApply(reply.reason, 2, item, true, r.checked, !Unused(old(nonces), device, item.nonce))
      ensures Answered(old(Observed()), Observed(), RotateCall(device, item, r))
    {
      UnusedIsUnknown(nonces, device, item.nonce);
      VerdictIsFirst(item, true, r.checked, Known(nonces, device, item.nonce));
      var verdict := SignedVerdict(item, r.checked, Known(nonces, device, item.nonce));
      if verdict.Some? {
        return Refused(verdict.value);
      }
      nonces := nonces + [NonceRow(device, item.nonce, Sec(r.stored))];
      return Queued(true);
    }

    method PurgeExpired(now: int) returns (deleted: nat)
      modifies this
      ensures Observed() == Serve(old(Observed()), PurgeJob(now))
      ensures deleted == |old(nonces)| - |nonces|
      ensures forall row :: row in nonces <==> row in old(nonces) && row.createdSec >= now / 1000 - 600
      ensures Answered(old(Observed()), Observed(), PurgeCall(now))
    {
      PurgedShorter(nonces, now);
      var kept := Purged(nonces, now);
      deleted := |nonces| - |kept|;
      nonces := kept;
    }
  }

  /** What a batch stores: one message per queued one of a keyed device. */
  function Stored(device: int, keyed: bool, items: seq<Item>, queued: seq<nat>, clock: seq<Reading>): seq<Message>
    requires |items| == |clock| && forall k :: 0 <= k < |queued| ==> queued[k] < |items|
  {
    if keyed then MessagesAt(device, items, queued, clock) else []
  }

  lemma StoredPush(device: int, keyed: bool, items: seq<Item>, queued: seq<nat>, n: nat, clock: seq<Reading>)
    requires n < |items| == |clock| && Ascending(queued, n)
    ensures var before, m := Stored(device, keyed, items, queued, clock), if keyed then [MessageOf(device, items[n], clock[n])] else [];
      Stored(device, keyed, items, queued + [n], clock) == before + m && RowsFor(before + m) == RowsFor(before) + RowsFor(m)
  {}

  lemma {:induction false} PurgedShorter(table: seq<NonceRow>, at: int)
    ensures |Purged(table, at)| <= |table|
  {
    if table != [] {
      PurgedShorter(table[..|table| - 1], at);
    }
  }
}
