/**
 * The companion phone's outbox sweep (sms-phone-mockup/server.js:225-297): one pass over a queue
 * that is shortened in place while new messages may be pushed during every await.
 */
module QueueSweep {
  import opened Common

  datatype Status = Queued | Delivering | RetryScheduled

  datatype Item = Item(id: string, attempts: nat, status: Status, nextRetryAt: Option<int>)

  /** What one HTTP exchange comes to: success, a 401 with its token refresh, or any other failure. */
  datatype Reply = Delivered | Unauthorized(refreshed: bool) | Failure

  /** The k-th request of a sweep: its reply, the clock when it arrives, the messages pushed meanwhile. */
  datatype World = World(reply: nat -> Reply, clock: nat -> int, arrivals: seq<seq<Item>>)

  function ArrivalsOf(w: World, k: nat): seq<Item> {
    if k < |w.arrivals| then w.arrivals[k] else []
  }

  function RetryDelay(attempts: nat): int {
    if 60000 <= 2000 * Pow2(attempts) then 60000 else 2000 * Pow2(attempts)
  }

  /** Items in flight or waiting for a later time are passed over. */
  predicate Skipped(item: Item, now: int) {
    item.status == Delivering || (item.nextRetryAt.Some? && item.nextRetryAt.value != 0 && item.nextRetryAt.value > now)
  }

  /** The item after its exchange, or None if it leaves the queue. */
  function After(item: Item, reply: Reply, at: int): Option<Item> {
    var attempts := item.attempts + 1;
    match reply
    case Delivered => None
    case Unauthorized(true) => Some(item.(attempts := attempts, status := Queued, nextRetryAt := Some(at + 500)))
    case _ =>
      if attempts >= 5 then None
      else Some(item.(attempts := attempts, status := RetryScheduled, nextRetryAt := Some(at + RetryDelay(attempts))))
  }

  /** One visit of the sweep: the item found and what became of it. */
  datatype Visit = Passed(item: Item) | Tried(item: Item, request: nat, result: Option<Item>)

  /** The visits of a sweep that has `todo` ahead of it and has made `k` requests. */
  function Visits(todo: seq<Item>, k: nat, now: int, w: World): seq<Visit>
    decreases if k < |w.arrivals| then |w.arrivals| - k else 0, |todo|
  {
    if todo == [] then []
    else if Skipped(todo[0], now) then [Passed(todo[0])] + Visits(todo[1..], k, now, w)
    else [Tried(todo[0], k, After(todo[0], w.reply(k), w.clock(k)))] + Visits(todo[1..] + ArrivalsOf(w, k), k + 1, now, w)
  }

  function Remaining(v: Visit): seq<Item> {
    match v
    case Passed(item) => [item]
    case Tried(_, _, result) => if result.Some? then [result.value] else []
  }

  /** What is left of the visited items, in order. */
  function Survivors(vs: seq<Visit>): seq<Item> {
    if vs == [] then [] else Remaining(vs[0]) + Survivors(vs[1..])
  }

  class PhoneQueue {
    var queue: seq<Item>
    var processing: bool

    constructor ()
      ensures queue == [] && !processing
    {
      queue, processing := [], false;
    }

    /** processOutboxQueue; `enabled` stands for the token, endpoint and relay settings. */
    method ProcessOutboxQueue(enabled: bool, now: int, w: World)
      modifies this
      ensures processing == old(processing)
      ensures queue == if old(processing) || !enabled then old(queue) else Survivors(Visits(old(queue), 0, now, w))
    {
      if processing || queue == [] || !enabled {
        return;
      }
      processing := true;
      var i, k := 0, 0;
      while i < |queue|
        invariant 0 <= i <= |queue|
        invariant Final(queue, i, k, now, w) == Final(old(queue), 0, 0, now, w)
        decreases if k < |w.arrivals| then |w.arrivals| - k else 0, |queue| - i
      {
        if Skipped(queue[i], now) {
          PassOver(queue, i, k, now, w);
          i := i + 1;
        } else {
          ghost var before := queue;
          var kept := Deliver(i, k, w);
          TryOne(before, i, queue, k, now, w);
          i := if kept then i + 1 else i;
          k := k + 1;
        }
      }
      FinalAtEnd(old(queue), queue, k, now, w);
      processing := false;
    }

    /** One exchange: the item is marked in flight, messages may arrive, then it is put off or spliced out. */
    method Deliver(i: nat, k: nat, w: World) returns (kept: bool)
      requires i < |queue|
      modifies `queue
      ensures var result := After(old(queue)[i], w.reply(k), w.clock(k));
        && kept == result.Some? && i <= |queue| && (kept ==> i < |queue|)
        && queue[..if kept then i + 1 else i] == old(queue)[..i] + (if kept then [result.value] else [])
        && queue[if kept then i + 1 else i..] == old(queue)[i + 1..] + (if k < |w.arrivals| then w.arrivals[k] else [])
    {
      var item := queue[i];
      var result := After(item, w.reply(k), w.clock(k));
      queue := queue[i := item.(status := Delivering, attempts := item.attempts + 1)];
      queue := queue + ArrivalsOf(w, k);
      kept := result.Some?;
      if kept {
        queue := queue[i := result.value];
      } else {
        queue := queue[..i] + queue[i + 1..];
      }
    }
  }

  /** The queue a sweep will end with, when it stands at index i after k requests. */
  ghost function Final(queue: seq<Item>, i: nat, k: nat, now: int, w: World): seq<Item>
    requires i <= |queue|
  {
    queue[..i] + Survivors(Visits(queue[i..], k, now, w))
  }

  lemma {:induction false} SurvivorsCons(v: Visit, vs: seq<Visit>)
    ensures Survivors([v] + vs) == Remaining(v) + Survivors(vs)
  {
    assert ([v] + vs)[1..] == vs;
  }

  lemma PassOver(queue: seq<Item>, i: nat, k: nat, now: int, w: World)
    requires i < |queue| && Skipped(queue[i], now)
    ensures Final(queue, i, k, now, w) == Final(queue, i + 1, k, now, w)
  {
    var vs := Visits(queue[i + 1..], k, now, w);
    assert queue[i..][1..] == queue[i + 1..];
    assert queue[..i + 1] == queue[..i] + [queue[i]];
    SurvivorsCons(Passed(queue[i]), vs);
    ConcatAssoc(queue[..i], [queue[i]], Survivors(vs));
  }

  lemma TryOne(queue: seq<Item>, i: nat, queue': seq<Item>, k: nat, now: int, w: World)
    requires i < |queue| && !Skipped(queue[i], now)
    requires var result := After(queue[i], w.reply(k), w.clock(k));
      var i' := if result.Some? then i + 1 else i;
      && i' <= |queue'|
      && queue'[..i'] == queue[..i] + (if result.Some? then [result.value] else [])
      && queue'[i'..] == queue[i + 1..] + ArrivalsOf(w, k)
    ensures Final(queue, i, k, now, w)
         == Final(queue', if After(queue[i], w.reply(k), w.clock(k)).Some? then i + 1 else i, k + 1, now, w)
  {
    var v := Tried(queue[i], k, After(queue[i], w.reply(k), w.clock(k)));
    var vs := Visits(queue[i + 1..] + ArrivalsOf(w, k), k + 1, now, w);
    assert queue[i..][1..] == queue[i + 1..];
    SurvivorsCons(v, vs);
    ConcatAssoc(queue[..i], Remaining(v), Survivors(vs));
  }

  lemma {:induction false} FinalAtEnd(start: seq<Item>, queue: seq<Item>, k: nat, now: int, w: World)
    ensures Final(queue, |queue|, k, now, w) == queue
    ensures Final(start, 0, 0, now, w) == Survivors(Visits(start, 0, now, w))
  {
    assert queue[..|queue|] == queue && queue[|queue|..] == [];
    assert start[0..] == start && start[..0] == [];
  }

  // ---------------------------------------------------------------- what a sweep does

  function ItemsOf(vs: seq<Visit>): (items: seq<Item>)
    ensures |items| == |vs| && forall i :: 0 <= i < |vs| ==> items[i] == vs[i].item
  {
    seq(|vs|, i requires 0 <= i < |vs| => vs[i].item)
  }

  function Requests(vs: seq<Visit>): nat {
    if vs == [] then 0 else (if vs[0].Tried? then 1 else 0) + Requests(vs[1..])
  }

  /** Everything pushed during requests k, ..., k + n - 1. */
  function Pushed(w: World, k: nat, n: nat): seq<Item>
    decreases n
  {
    if n == 0 then [] else ArrivalsOf(w, k) + Pushed(w, k + 1, n - 1)
  }

  lemma {:induction false} ItemsCons(v: Visit, vs: seq<Visit>)
    ensures ItemsOf([v] + vs) == [v.item] + ItemsOf(vs)
    ensures Requests([v] + vs) == (if v.Tried? then 1 else 0) + Requests(vs)
  {
    assert ([v] + vs)[1..] == vs;
  }

  lemma Regroup(h: Item, t: seq<Item>, a: seq<Item>, l: seq<Item>)
    ensures [h] + ((t + a) + l) == ([h] + t) + (a + l)
  {}

  /** A sweep visits every item once: those it found, in order, then those pushed while it ran. */
  lemma {:induction false} VisitsEachOnce(todo: seq<Item>, k: nat, now: int, w: World)
    ensures ItemsOf(Visits(todo, k, now, w)) == todo + Pushed(w, k, Requests(Visits(todo, k, now, w)))
    decreases if k < |w.arrivals| then |w.arrivals| - k else 0, |todo|
  {
    if todo != [] {
      var head, tail := todo[0], todo[1..];
      assert todo == [head] + tail;
      if Skipped(head, now) {
        var vs := Visits(tail, k, now, w);
        VisitsEachOnce(tail, k, now, w);
        ItemsCons(Passed(head), vs);
        ConcatAssoc([head], tail, Pushed(w, k, Requests(vs)));
      } else {
        var vs := Visits(tail + ArrivalsOf(w, k), k + 1, now, w);
        VisitsEachOnce(tail + ArrivalsOf(w, k), k + 1, now, w);
        ItemsCons(Tried(head, k, After(head, w.reply(k), w.clock(k))), vs);
        Regroup(head, tail, ArrivalsOf(w, k), Pushed(w, k + 1, Requests(vs)));
      }
    }
  }

  /** How each visited item fared: passed over as it was, removed, or put off by a known delay. */
  ghost predicate Fared(v: Visit, now: int, w: World) {
    match v
    case Passed(item) =>
      item.status == Delivering || (item.nextRetryAt.Some? && item.nextRetryAt.value != 0 && item.nextRetryAt.value > now)
    case Tried(item, k, result) =>
      && item.status != Delivering
      && (item.nextRetryAt.None? || item.nextRetryAt.value == 0 || item.nextRetryAt.value <= now)
      && (result.None? <==> w.reply(k) == Delivered || (item.attempts >= 4 && w.reply(k) != Unauthorized(true)))
      && (result.Some? ==>
            && result.value.id == item.id && result.value.attempts == item.attempts + 1
            && result.value.status == (if w.reply(k) == Unauthorized(true) then Queued else RetryScheduled)
            && result.value.nextRetryAt.Some?
            && var delay := result.value.nextRetryAt.value - w.clock(k);
               if w.reply(k) == Unauthorized(true) then delay == 500
               else delay == [4000, 8000, 16000, 32000][item.attempts])
  }

  lemma TriedFares(item: Item, k: nat, now: int, w: World)
    requires !Skipped(item, now)
    ensures Fared(Tried(item, k, After(item, w.reply(k), w.clock(k))), now, w)
  {
    assert Pow2(1) == 2 && Pow2(2) == 4 && Pow2(3) == 8 && Pow2(4) == 16 by {
      assert Pow2(0) == 1;
      assert Pow2(1) == 2 * Pow2(0);
      assert Pow2(2) == 2 * Pow2(1);
      assert Pow2(3) == 2 * Pow2(2);
      assert Pow2(4) == 2 * Pow2(3);
    }
  }

  /** Whatever the replies and pushes: removal, retry times and the 60 s cap (which never binds) are as listed. */
  lemma {:induction false} EveryVisitFares(todo: seq<Item>, k: nat, now: int, w: World)
    ensures forall v :: v in Visits(todo, k, now, w) ==> Fared(v, now, w)
    decreases if k < |w.arrivals| then |w.arrivals| - k else 0, |todo|
  {
    if todo != [] {
      if Skipped(todo[0], now) {
        EveryVisitFares(todo[1..], k, now, w);
      } else {
        EveryVisitFares(todo[1..] + ArrivalsOf(w, k), k + 1, now, w);
        TriedFares(todo[0], k, now, w);
      }
    }
  }

  /** What a sweep leaves: passed items as they were, put-off ones as rewritten, the others gone; all in order. */
  lemma {:induction false} SurvivorsInOrder(a: seq<Visit>, b: seq<Visit>, item: Item, k: nat, rewritten: Item)
    ensures Survivors(a + b) == Survivors(a) + Survivors(b)
    ensures Survivors([Passed(item)]) == [item] && Survivors([Tried(item, k, Some(rewritten))]) == [rewritten]
    ensures Survivors([Tried(item, k, None)]) == []
  {
    assert forall v: Visit :: [v][1..] == [];
    if a == [] {
      assert a + b == b;
    } else {
      SurvivorsInOrder(a[1..], b, item, k, rewritten);
      assert (a + b)[1..] == a[1..] + b;
      ConcatAssoc(Remaining(a[0]), Survivors(a[1..]), Survivors(b));
    }
  }

  ghost predicate NoneDelivering(items: seq<Item>) {
    forall i :: 0 <= i < |items| ==> items[i].status != Delivering
  }

  ghost predicate CleanVisits(vs: seq<Visit>) {
    forall i :: 0 <= i < |vs| ==> NoneDelivering(Remaining(vs[i]))
  }

  lemma {:induction false} VisitsAreClean(todo: seq<Item>, k: nat, now: int, w: World)
    requires NoneDelivering(todo) && forall j :: 0 <= j < |w.arrivals| ==> NoneDelivering(w.arrivals[j])
    ensures CleanVisits(Visits(todo, k, now, w))
    decreases if k < |w.arrivals| then |w.arrivals| - k else 0, |todo|
  {
    if todo != [] {
      if Skipped(todo[0], now) {
        VisitsAreClean(todo[1..], k, now, w);
      } else {
        VisitsAreClean(todo[1..] + ArrivalsOf(w, k), k + 1, now, w);
      }
    }
  }

  lemma {:induction false} SurvivorsAreClean(vs: seq<Visit>)
    requires CleanVisits(vs)
    ensures NoneDelivering(Survivors(vs))
  {
    if vs != [] {
      SurvivorsAreClean(vs[1..]);
    }
  }

  /** If nothing was in flight before and nothing pushed is, nothing is left in flight. */
  lemma {:induction false} NothingLeftDelivering(todo: seq<Item>, now: int, w: World)
    requires NoneDelivering(todo) && forall j :: 0 <= j < |w.arrivals| ==> NoneDelivering(w.arrivals[j])
    ensures NoneDelivering(Survivors(Visits(todo, 0, now, w)))
  {
    VisitsAreClean(todo, 0, now, w);
    SurvivorsAreClean(Visits(todo, 0, now, w));
  }
}
