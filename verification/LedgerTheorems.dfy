/**
 * What holds in every run of the ledger protocol: no posting is lost, doubled or invented; the
 * books balance and stay solvent, in one currency exactly when the calls that seeded them agree; a
 * mirrored posting stays mirrored; and a
 * posting can be mirrored at all only if it has at most 98 legs.
 */
module LedgerTheorems {
  import opened Common
  import opened Chart
  import opened Journal
  import opened Posting
  import opened PostingRules
  import opened AuditMirror
  import opened Outbox
  import opened Protocol

  // ---------------------------------------------------------------- no loss, no phantom

  /** The posting a transaction id stands for. */
  ghost predicate CommittedAs(s: System, tx: string, it: LogItem) {
    it in s.log && it.payload.txId == tx
  }

  /** Every posted transaction is waiting in the outbox or is in the mirror with exactly its legs. */
  ghost predicate NothingLost(s: System) {
    forall tx :: tx in s.l.posted ==>
      exists it :: CommittedAs(s, tx, it) && (Complete(s.mirror, it) || PendingFor(s.l.outbox, it))
  }

  /** The mirror holds posted transactions only, each wholly, and every synced row is mirrored. */
  ghost predicate NothingInvented(s: System) {
    && (forall tx :: tx in s.mirror.headers || tx in s.mirror.postings || LegsFor(s.mirror.legs, tx) != [] ==> tx in s.l.posted)
    && (forall it :: it in s.log ==> Absent(s.mirror, it.payload.txId) || Complete(s.mirror, it))
    && (forall r :: r in s.l.outbox ==> r.payload.txId in s.l.posted && (r.status == Synced ==> Complete(s.mirror, ItemOf(r))))
  }

  lemma InvNothingLost(s: System)
    requires Registry(s.l.posted, s.log) && Covered(s.l.outbox, s.log, s.mirror)
    ensures NothingLost(s)
  {
    forall tx | tx in s.l.posted
      ensures exists it :: CommittedAs(s, tx, it) && (Complete(s.mirror, it) || PendingFor(s.l.outbox, it))
    {
      var i :| 0 <= i < |s.log| && s.log[i].payload.txId == tx;
      assert CommittedAs(s, tx, s.log[i]);
    }
  }

  lemma InvNothingInvented(s: System)
    requires Registry(s.l.posted, s.log) && MirrorOk(s.mirror, s.log)
    requires OutboxInv(s.l.outbox, s.l.nextId, s.log, s.mirror)
    ensures NothingInvented(s)
  {
    forall r | r in s.l.outbox
      ensures r.payload.txId in s.l.posted && (r.status == Synced ==> Complete(s.mirror, ItemOf(r)))
    {
      var i :| 0 <= i < |s.l.outbox| && s.l.outbox[i] == r;
      assert RowInv(s.l.outbox[i], s.l.nextId, s.log, s.mirror);
      var k :| 0 <= k < |s.log| && s.log[k] == ItemOf(r);
    }
  }

  /** Under every interleaving of postings, drains, D1 failures, sweeps and crashes. */
  lemma {:induction false} NoLossNoPhantom(nameId: Option<int>, t0: int, events: seq<Event>)
    ensures NothingLost(Run(Init(nameId, t0), events))
    ensures NothingInvented(Run(Init(nameId, t0), events))
  {
    RunInv(nameId, t0, events);
    InvNothingLost(Run(Init(nameId, t0), events));
    InvNothingInvented(Run(Init(nameId, t0), events));
  }

  /**
   * In every run a posted transaction is in the mirror with every leg, each once, in order and with its
   * own account, direction, amount and currency, or nothing of it is there and a row of it is pending.
   */
  lemma {:induction false} MirroredLegByLeg(nameId: Option<int>, t0: int, events: seq<Event>, it: LogItem)
    requires it in Run(Init(nameId, t0), events).log
    ensures var s := Run(Init(nameId, t0), events);
      Mirrored(s.mirror, it.payload, it.at) || (NothingOf(s.mirror, it.payload.txId) && PendingFor(s.l.outbox, it))
  {
    var s := Run(Init(nameId, t0), events);
    RunInv(nameId, t0, events);
    var k :| 0 <= k < |s.log| && s.log[k] == it;
    if Complete(s.mirror, it) {
      CompleteIsMirrored(s.mirror, it);
    } else {
      assert Absent(s.mirror, s.log[k].payload.txId);
      AbsentIsNothing(s.mirror, it.payload.txId);
    }
  }

  // ---------------------------------------------------------------- synced is final

  /** Row ids are used once, and a row of that id, if still there, is synced. */
  ghost predicate SyncedOrGone(l: Ledger, id: nat) {
    id < l.nextId && forall i :: 0 <= i < |l.outbox| && l.outbox[i].id == id ==> l.outbox[i].status == Synced
  }

  lemma StepKeepsSynced(s: System, e: Event, id: nat)
    requires SyncedOrGone(s.l, id)
    ensures SyncedOrGone(Step(s, e).l, id)
  {
    match e {
      case PostCall(p, now, fault) => PostOnOutbox(s.l, s.log, p, now, fault);
      case DrainSelect(d, now, force) =>
        if d !in s.drains { StartDrainKeepsSynced(s, d, now, Choose(s.l, now, force), CacheMerchant(s.l, now, force), id); }
      case CleanupTick(now) =>
        var out := Unexpired(s.l.outbox, now);
        forall i | 0 <= i < |out| && out[i].id == id
          ensures out[i].status == Synced
        {
          assert out[i] in out && out[i] in s.l.outbox;
        }
      case _ =>
    }
  }

  lemma StartDrainKeepsSynced(s: System, d: nat, now: int, choice: Choice, l: Ledger, id: nat)
    requires SyncedOrGone(s.l, id) && l == s.l.(merchantId := l.merchantId)
    ensures SyncedOrGone(StartDrain(s, d, now, choice, l).l, id)
  {}

  /** A synced row never becomes pending again, whatever slower drain fails after it. */
  lemma {:induction false} SyncedIsFinal(s: System, events: seq<Event>, id: nat)
    requires SyncedOrGone(s.l, id)
    ensures SyncedOrGone(Run(s, events).l, id)
  {
    if events != [] {
      SyncedIsFinal(s, events[..|events| - 1], id);
      StepKeepsSynced(Run(s, events[..|events| - 1]), events[|events| - 1], id);
    }
  }

  // ---------------------------------------------------------------- accounting, solvency, currency

  /** The currency of the first posting call of a run, accepted or not. */
  function FirstCurrency(events: seq<Event>): Option<string> {
    if events == [] then None
    else
      var before := FirstCurrency(events[..|events| - 1]);
      if before.Some? then before
      else if events[|events| - 1].PostCall? then Some(events[|events| - 1].payload.currency)
      else None
  }

  /** Only posting calls touch the book. */
  lemma OtherStepsKeepBook(s: System, e: Event)
    requires !e.PostCall?
    ensures var l := Step(s, e).l; l.chart == s.l.chart && l.accounts == s.l.accounts
    ensures Step(s, e).log == s.log
  {
    if e.DrainSelect? {
      StartDrainKeepsBook(s, e.d, e.now, Choose(s.l, e.now, e.force), CacheMerchant(s.l, e.now, e.force));
    }
  }

  lemma StartDrainKeepsBook(s: System, d: nat, now: int, choice: Choice, l: Ledger)
    requires l == s.l.(merchantId := l.merchantId)
    ensures var s' := StartDrain(s, d, now, choice, l); s'.l.chart == s.l.chart && s'.l.accounts == s.l.accounts && s'.log == s.log
  {}

  lemma PostKeepsChart(l: Ledger, p: Payload, now: int, fault: Fault)
    ensures Post(l, p, now, fault).0.chart == l.chart
  {
    if !SeedingFails(l, p, fault) {
      PostSeededCases(SeedChart(l, p.currency), p, now, fault);
    }
  }

  lemma {:induction false} RunBook(nameId: Option<int>, t0: int, events: seq<Event>)
    ensures var s := Run(Init(nameId, t0), events); BookInv(s.l, s.log)
  {
    RunInv(nameId, t0, events);
  }

  lemma {:induction false} RunLog(nameId: Option<int>, t0: int, events: seq<Event>)
    ensures var s := Run(Init(nameId, t0), events); Registry(s.l.posted, s.log) && DistinctTx(s.log) && s.l.journal == JournalOf(s.log)
  {
    RunInv(nameId, t0, events);
  }

  /** The currency of the first posting call whose seeding reaches chart position i, accepted or not. */
  function SeededWith(events: seq<Event>, i: nat): Option<string> {
    if events == [] then None
    else
      var before, e := SeededWith(events[..|events| - 1], i), events[|events| - 1];
      if before.Some? then before
      else if e.PostCall? && i < ReachOf(e.fault, |DEFAULT_CHART_OF_ACCOUNTS|) then Some(e.payload.currency)
      else None
  }

  lemma {:induction false} RunCurrency(nameId: Option<int>, t0: int, events: seq<Event>, i: nat)
    requires i < |DEFAULT_CHART_OF_ACCOUNTS|
    ensures var l := Run(Init(nameId, t0), events).l;
      l.chart == DEFAULT_CHART_OF_ACCOUNTS && CurrencyOf(l.accounts, l.chart[i].code) == SeededWith(events, i)
  {
    if events != [] {
      var init, e := events[..|events| - 1], events[|events| - 1];
      RunCurrency(nameId, t0, init, i);
      var s := Run(Init(nameId, t0), init);
      if e.PostCall? {
        RunBook(nameId, t0, init);
        CurrencyFixedByFirstCall(s.l, e.payload, e.now, e.fault, i);
        PostKeepsChart(s.l, e.payload, e.now, e.fault);
      } else {
        OtherStepsKeepBook(s, e);
      }
    }
  }

  /** Each journal row is in the currency of its transaction, which is that of its account. */
  ghost predicate RowsInCurrency(l: Ledger) {
    forall k :: 0 <= k < |l.journal| ==> RowInCurrency(l, l.journal[k])
  }

  predicate RowInCurrency(l: Ledger, r: Row) {
    r.txId in l.posted && r.code in l.accounts && l.accounts[r.code].currency == l.posted[r.txId].currency
  }

  /**
   * In the state every run leads to, with failures anywhere: the trial balance reports balanced; no
   * balance is negative; the accounts are those of the chart that some call's seeding reached, each in
   * the currency of the first such call; once they are complete, assets and expenses equal
   * liabilities, equity and revenue, and before nothing is posted; and no posting mixes currencies.
   */
  lemma {:induction false} BooksAlwaysBalance(nameId: Option<int>, t0: int, events: seq<Event>)
    ensures var l := Run(Init(nameId, t0), events).l;
      && TrialBalanced(l) && DerivedByKind(l.accounts, l.journal) && RowsInCurrency(l)
      && l.chart == DEFAULT_CHART_OF_ACCOUNTS
      && (forall c :: c in l.accounts ==> l.accounts[c].balance >= 0 && InChart(l.chart, c))
      && (forall i :: 0 <= i < |l.chart| ==> CurrencyOf(l.accounts, l.chart[i].code) == SeededWith(events, i))
      && if Full(l.accounts, l.chart)
         then KindTotal(l.chart, l.accounts, Asset) + KindTotal(l.chart, l.accounts, Expense)
              == KindTotal(l.chart, l.accounts, Liability) + KindTotal(l.chart, l.accounts, Equity) + KindTotal(l.chart, l.accounts, Revenue)
         else l.journal == [] && l.posted == map[]
  {
    var s := Run(Init(nameId, t0), events);
    RunBook(nameId, t0, events);
    RunCurrency(nameId, t0, events, 0);
    forall i | 0 <= i < |s.l.chart|
      ensures CurrencyOf(s.l.accounts, s.l.chart[i].code) == SeededWith(events, i)
    {
      RunCurrency(nameId, t0, events, i);
    }
    AccountingEquation(s.l, s.log);
    EquationByKind(s.l, s.log);
    PostingsInCurrency(s.l, s.log);
  }

  lemma {:induction false} PostingsInCurrency(l: Ledger, log: seq<LogItem>)
    requires Registry(l.posted, log) && LogOk(log, l.accounts) && l.journal == JournalOf(log)
    ensures RowsInCurrency(l)
  {
    forall k | 0 <= k < |l.journal|
      ensures RowInCurrency(l, l.journal[k])
    {
      var i, j := RowOrigin(log, k);
      assert LegHeld(l.accounts, log[i].payload.entries[j], log[i].payload.currency);
      assert l.posted[log[i].payload.txId] == PostedTx(log[i].payload.currency, log[i].at);
    }
  }

  /** The commit and the leg a journal row comes from. */
  lemma {:induction false} RowOrigin(log: seq<LogItem>, k: nat) returns (i: nat, j: nat)
    requires k < |JournalOf(log)|
    ensures i < |log| && j < |log[i].payload.entries| && JournalOf(log)[k] == RowOf(log[i].payload, log[i].payload.entries[j], log[i].at)
  {
    var init := log[..|log| - 1];
    if k < |JournalOf(init)| {
      i, j := RowOrigin(init, k);
    } else {
      i, j := |init|, k - |JournalOf(init)|;
    }
  }

  ghost predicate OneCurrency(accounts: map<string, Account>) {
    forall c, d :: c in accounts && d in accounts ==> accounts[c].currency == accounts[d].currency
  }

  /** The calls whose seeding was the first to reach an account all name one currency. */
  ghost predicate SeedersAgree(events: seq<Event>) {
    var n := |DEFAULT_CHART_OF_ACCOUNTS|;
    forall i, j :: 0 <= i < n && 0 <= j < n && SeededWith(events, i).Some? && SeededWith(events, j).Some? ==>
      SeededWith(events, i) == SeededWith(events, j)
  }

  /**
   * The book is in one currency if and only if the calls that first seeded some account agree on it,
   * however many attempts were interrupted; then every posted transaction is in that currency too.
   */
  lemma {:induction false} SingleCurrencyIff(nameId: Option<int>, t0: int, events: seq<Event>)
    ensures var l := Run(Init(nameId, t0), events).l;
      && (OneCurrency(l.accounts) <==> SeedersAgree(events))
      && (SeedersAgree(events) ==> forall tx :: tx in l.posted ==> Some(l.posted[tx].currency) == SeededWith(events, 0))
  {
    var s := Run(Init(nameId, t0), events);
    BooksAlwaysBalance(nameId, t0, events);
    AgreeIff(s.l.accounts, events);
    if SeedersAgree(events) {
      RunBook(nameId, t0, events);
      forall tx | tx in s.l.posted
        ensures Some(s.l.posted[tx].currency) == SeededWith(events, 0)
      {
        var i :| 0 <= i < |s.log| && s.log[i].payload.txId == tx;
        PostedInFirst(s.l, s.log, i);
      }
    }
  }

  lemma PostedInFirst(l: Ledger, log: seq<LogItem>, i: nat)
    requires i < |log| && Registry(l.posted, log) && LogOk(log, l.accounts) && Full(l.accounts, l.chart) && l.chart != []
    requires OneCurrency(l.accounts)
    ensures Some(l.posted[log[i].payload.txId].currency) == CurrencyOf(l.accounts, l.chart[0].code)
  {
    assert ShapeError(log[i].payload).None?;
    assert LegHeld(l.accounts, log[i].payload.entries[0], log[i].payload.currency);
    assert l.posted[log[i].payload.txId] == PostedTx(log[i].payload.currency, log[i].at);
    assert l.chart[0].code in l.accounts;
  }

  lemma {:induction false} AgreeIff(accounts: map<string, Account>, events: seq<Event>)
    requires forall c :: c in accounts ==> InChart(DEFAULT_CHART_OF_ACCOUNTS, c)
    requires forall i :: 0 <= i < |DEFAULT_CHART_OF_ACCOUNTS| ==> CurrencyOf(accounts, DEFAULT_CHART_OF_ACCOUNTS[i].code) == SeededWith(events, i)
    ensures OneCurrency(accounts) <==> SeedersAgree(events)
  {
    var chart := DEFAULT_CHART_OF_ACCOUNTS;
    if SeedersAgree(events) {
      forall c, d | c in accounts && d in accounts
        ensures accounts[c].currency == accounts[d].currency
      {
        var i :| 0 <= i < |chart| && chart[i].code == c;
        var j :| 0 <= j < |chart| && chart[j].code == d;
        assert SeededWith(events, i) == Some(accounts[c].currency) && SeededWith(events, j) == Some(accounts[d].currency);
      }
    }
    if OneCurrency(accounts) {
      forall i, j | 0 <= i < |chart| && 0 <= j < |chart| && SeededWith(events, i).Some? && SeededWith(events, j).Some?
        ensures SeededWith(events, i) == SeededWith(events, j)
      {
        assert CurrencyOf(accounts, chart[i].code).Some? && CurrencyOf(accounts, chart[j].code).Some?;
      }
    }
  }

  /**
   * A run with two currencies: any first call interrupted after some but not all inserts, and any
   * later call in another currency.
   */
  lemma {:induction false} InterruptedSeedingMixes(
      nameId: Option<int>, t0: int, events: seq<Event>, p: Payload, q: Payload, k: nat, now: int, later: int)
    requires events == [PostCall(p, now, DuringSeeding(k)), PostCall(q, later, NoFault)]
    requires 0 < k < |DEFAULT_CHART_OF_ACCOUNTS| && p.currency != q.currency
    ensures !OneCurrency(Run(Init(nameId, t0), events).l.accounts)
  {
    var first, second := PostCall(p, now, DuringSeeding(k)), PostCall(q, later, NoFault);
    SeededPush([], first, 0);
    SeededPush([], first, k);
    SeededPush([] + [first], second, 0);
    SeededPush([] + [first], second, k);
    assert events == [] + [first] + [second];
    SingleCurrencyIff(nameId, t0, events);
  }

  lemma {:induction false} SeededPush(events: seq<Event>, e: Event, i: nat)
    requires e.PostCall?
    ensures SeededWith(events + [e], i) ==
      if SeededWith(events, i).Some? then SeededWith(events, i)
      else if i < ReachOf(e.fault, |DEFAULT_CHART_OF_ACCOUNTS|) then Some(e.payload.currency)
      else None
  {
    assert (events + [e])[..|events|] == events;
  }

  /** Where no seeding is interrupted, the very first posting call fixes the currency of everything. */
  lemma {:induction false} FirstCallSeedsAll(events: seq<Event>, i: nat)
    requires i < |DEFAULT_CHART_OF_ACCOUNTS|
    requires forall k :: 0 <= k < |events| && events[k].PostCall? ==> !events[k].fault.DuringSeeding?
    ensures SeededWith(events, i) == FirstCurrency(events)
  {
    if events != [] {
      FirstCallSeedsAll(events[..|events| - 1], i);
    }
  }

  // ---------------------------------------------------------------- exactly once

  function JournalFor(journal: seq<Row>, tx: string): seq<Row> {
    if journal == [] then []
    else if journal[|journal| - 1].txId == tx then JournalFor(journal[..|journal| - 1], tx) + [journal[|journal| - 1]]
    else JournalFor(journal[..|journal| - 1], tx)
  }

  lemma {:induction false} JournalForAppend(a: seq<Row>, b: seq<Row>, tx: string)
    requires forall i :: 0 <= i < |b| ==> b[i].txId == b[0].txId
    ensures JournalFor(a + b, tx) == JournalFor(a, tx) + if b != [] && b[0].txId == tx then b else []
  {
    if b == [] {
      assert a + b == a;
    } else {
      var init := b[..|b| - 1];
      assert (a + b)[..|a + b| - 1] == a + init;
      JournalForAppend(a, init, tx);
      assert init != [] ==> init[0] == b[0];
      assert init + [b[|b| - 1]] == b;
    }
  }

  /** The journal rows of a transaction are those of the one commit it had, or none. */
  lemma {:induction false} JournalOfTx(log: seq<LogItem>, tx: string)
    requires DistinctTx(log)
    ensures !InLog(log, tx) ==> JournalFor(JournalOf(log), tx) == []
    ensures forall i :: 0 <= i < |log| && log[i].payload.txId == tx ==> JournalFor(JournalOf(log), tx) == RowsOf(log[i].payload, log[i].at)
  {
    if log != [] {
      var init, it := log[..|log| - 1], log[|log| - 1];
      JournalOfTx(init, tx);
      JournalForAppend(JournalOf(init), RowsOf(it.payload, it.at), tx);
      forall i | 0 <= i < |log| && log[i].payload.txId == tx
        ensures JournalFor(JournalOf(log), tx) == RowsOf(log[i].payload, log[i].at)
      {
        if i < |init| {
          assert init[i].payload.txId == tx && it.payload.txId != tx;
        } else {
          assert forall j :: 0 <= j < |init| ==> init[j].payload.txId != tx;
        }
      }
      if !InLog(log, tx) {
        assert log[|log| - 1].payload.txId != tx;
        assert forall j :: 0 <= j < |init| ==> init[j].payload.txId == log[j].payload.txId;
      }
    }
  }

  lemma StepLog(s: System, e: Event)
    ensures var log' := Step(s, e).log;
      log' == s.log || (e.PostCall? && log' == s.log + [LogItem(e.payload, e.now)])
  {
    if !e.PostCall? {
      OtherStepsKeepBook(s, e);
    }
  }

  ghost predicate Submitted(events: seq<Event>, p: Payload) {
    exists j :: 0 <= j < |events| && events[j].PostCall? && events[j].payload == p
  }

  lemma SubmittedGrows(events: seq<Event>, p: Payload)
    requires events != [] && Submitted(events[..|events| - 1], p)
    ensures Submitted(events, p)
  {
    var j :| 0 <= j < |events| - 1 && events[..|events| - 1][j].PostCall? && events[..|events| - 1][j].payload == p;
    assert events[j].PostCall? && events[j].payload == p;
  }

  /** Commits are never undone, and each comes from a call that was made. */
  lemma {:induction false} LogGrows(s: System, events: seq<Event>)
    ensures s.log <= Run(s, events).log
    ensures forall k :: |s.log| <= k < |Run(s, events).log| ==> Submitted(events, Run(s, events).log[k].payload)
  {
    if events != [] {
      var init, e := events[..|events| - 1], events[|events| - 1];
      LogGrows(s, init);
      StepLog(Run(s, init), e);
      LogGrowsByOne(s.log, Run(s, init).log, Run(s, events).log, events);
    }
  }

  lemma LogGrowsByOne(log0: seq<LogItem>, before: seq<LogItem>, after: seq<LogItem>, events: seq<Event>)
    requires log0 <= before && events != []
    requires forall k :: |log0| <= k < |before| ==> Submitted(events[..|events| - 1], before[k].payload)
    requires var e := events[|events| - 1]; after == before || (e.PostCall? && after == before + [LogItem(e.payload, e.now)])
    ensures log0 <= after && forall k :: |log0| <= k < |after| ==> Submitted(events, after[k].payload)
  {
    forall k | |log0| <= k < |after|
      ensures Submitted(events, after[k].payload)
    {
      if k < |before| {
        SubmittedGrows(events, before[k].payload);
      } else {
        assert events[|events| - 1].PostCall? && events[|events| - 1].payload == after[k].payload;
      }
    }
  }

  lemma {:induction false} RunAppend(s: System, a: seq<Event>, b: seq<Event>)
    ensures Run(s, a + b) == Run(Run(s, a), b)
  {
    if b == [] {
      assert a + b == a;
    } else {
      assert (a + b)[..|a + b| - 1] == a + b[..|b| - 1] && (a + b)[|a + b| - 1] == b[|b| - 1];
      RunAppend(s, a, b[..|b| - 1]);
    }
  }

  function Answer(s: System, e: Event): PostResult
    requires e.PostCall?
  {
    Post(s.l, e.payload, e.now, e.fault).1
  }

  /** What the callers of a run were told, event by event. */
  function Answers(s: System, events: seq<Event>): (rs: seq<Option<PostResult>>)
    ensures |rs| == |events|
  {
    if events == [] then []
    else
      var e := events[|events| - 1];
      Answers(s, events[..|events| - 1]) + [if e.PostCall? then Some(Answer(Run(s, events[..|events| - 1]), e)) else None]
  }

  lemma {:induction false} AnswersAt(s: System, events: seq<Event>, i: nat)
    requires i < |events| && events[i].PostCall?
    ensures Answers(s, events)[i] == Some(Answer(Run(s, events[..i]), events[i]))
  {
    if i < |events| - 1 {
      assert events[..|events| - 1][..i] == events[..i];
      AnswersAt(s, events[..|events| - 1], i);
    }
  }

  ghost predicate Told(s: System, events: seq<Event>, i: nat) {
    i < |events| && events[i].PostCall? && Answers(s, events)[i].Some?
    && (Answers(s, events)[i].value.Posted? || Answers(s, events)[i].value.Duplicate?)
  }

  /** A caller told `Posted` or `Duplicate` has its transaction in the log. */
  lemma AnsweredIsLogged(s: System, e: Event)
    requires Registry(s.l.posted, s.log) && e.PostCall?
    requires Answer(s, e).Posted? || Answer(s, e).Duplicate?
    ensures InLog(Step(s, e).log, e.payload.txId)
  {
    var l := SeedChart(s.l, e.payload.currency);
    PostSeededCases(l, e.payload, e.now, e.fault);
    if Commits(l, e.payload, e.fault) {
      assert Step(s, e).log[|s.log|].payload.txId == e.payload.txId;
    } else {
      assert e.payload.txId in s.l.posted;
      assert InLog(s.log, e.payload.txId);
    }
  }

  /**
   * If a client repeats a payload under one transaction id until it is told `Posted` or
   * `Duplicate`, then from there on the journal holds that payload's legs exactly once (as of time
   * `at`), whatever failures came before or after and whatever else happened in between.
   */
  lemma ExactlyOnce(nameId: Option<int>, t0: int, events: seq<Event>, i: nat, p: Payload) returns (at: int)
    requires Told(Init(nameId, t0), events, i) && events[i].payload == p
    requires forall j :: 0 <= j < |events| && events[j].PostCall? && events[j].payload.txId == p.txId ==> events[j].payload == p
    ensures JournalFor(Run(Init(nameId, t0), events).l.journal, p.txId) == RowsOf(p, at)
  {
    var k := SettledStays(nameId, t0, events, i);
    at := LoggedOnce(nameId, t0, events, k, p);
  }

  lemma SettledStays(nameId: Option<int>, t0: int, events: seq<Event>, i: nat) returns (k: nat)
    requires Told(Init(nameId, t0), events, i)
    ensures k < |Run(Init(nameId, t0), events).log| && Run(Init(nameId, t0), events).log[k].payload.txId == events[i].payload.txId
  {
    RunLog(nameId, t0, events[..i]);
    RunSplit(Init(nameId, t0), events, i);
    AnswersAt(Init(nameId, t0), events, i);
    k := StaysLogged(Run(Init(nameId, t0), events[..i]), events[i], events[i + 1..]);
  }

  lemma LoggedOnce(nameId: Option<int>, t0: int, events: seq<Event>, k: nat, p: Payload) returns (at: int)
    requires k < |Run(Init(nameId, t0), events).log| && Run(Init(nameId, t0), events).log[k].payload.txId == p.txId
    requires forall j :: 0 <= j < |events| && events[j].PostCall? && events[j].payload.txId == p.txId ==> events[j].payload == p
    ensures JournalFor(Run(Init(nameId, t0), events).l.journal, p.txId) == RowsOf(p, at)
  {
    SubmittedPayload(nameId, t0, events, k, p);
    JournalHolds(nameId, t0, events, k);
    at := Run(Init(nameId, t0), events).log[k].at;
  }

  lemma {:induction false} RunSplit(s: System, events: seq<Event>, i: nat)
    requires i < |events|
    ensures Run(s, events) == Run(Step(Run(s, events[..i]), events[i]), events[i + 1..])
  {
    assert events[..i + 1][..i] == events[..i] && events[..i + 1] + events[i + 1..] == events;
    RunAppend(s, events[..i + 1], events[i + 1..]);
  }

  lemma StaysLogged(s: System, e: Event, rest: seq<Event>) returns (k: nat)
    requires Registry(s.l.posted, s.log) && e.PostCall?
    requires Answer(s, e).Posted? || Answer(s, e).Duplicate?
    ensures k < |Run(Step(s, e), rest).log| && Run(Step(s, e), rest).log[k].payload.txId == e.payload.txId
  {
    AnsweredIsLogged(s, e);
    LogGrows(Step(s, e), rest);
    var log := Step(s, e).log;
    k :| 0 <= k < |log| && log[k].payload.txId == e.payload.txId;
  }

  lemma {:induction false} JournalHolds(nameId: Option<int>, t0: int, events: seq<Event>, k: nat)
    requires k < |Run(Init(nameId, t0), events).log|
    ensures var s := Run(Init(nameId, t0), events);
      JournalFor(s.l.journal, s.log[k].payload.txId) == RowsOf(s.log[k].payload, s.log[k].at)
  {
    RunLog(nameId, t0, events);
    JournalOfTx(Run(Init(nameId, t0), events).log, Run(Init(nameId, t0), events).log[k].payload.txId);
  }

  lemma {:induction false} SubmittedPayload(nameId: Option<int>, t0: int, events: seq<Event>, k: nat, p: Payload)
    requires k < |Run(Init(nameId, t0), events).log| && Run(Init(nameId, t0), events).log[k].payload.txId == p.txId
    requires forall j :: 0 <= j < |events| && events[j].PostCall? && events[j].payload.txId == p.txId ==> events[j].payload == p
    ensures Run(Init(nameId, t0), events).log[k].payload == p
  {
    LogGrows(Init(nameId, t0), events);
    assert Submitted(events, Run(Init(nameId, t0), events).log[k].payload);
  }

  /** In every run, a transaction's journal rows are empty exactly when it is not registered. */
  lemma {:induction false} JournalMatchesRegistry(nameId: Option<int>, t0: int, events: seq<Event>, tx: string)
    ensures var l := Run(Init(nameId, t0), events).l; JournalFor(l.journal, tx) == [] <==> tx !in l.posted
  {
    var s := Run(Init(nameId, t0), events);
    RunBook(nameId, t0, events);
    JournalOfTx(s.log, tx);
    if tx in s.l.posted {
      var i :| 0 <= i < |s.log| && s.log[i].payload.txId == tx;
      assert ShapeError(s.log[i].payload).None?;
    }
  }

  /**
   * After an INTERNAL failure an undisturbed retry settles it: posted if nothing was committed, else
   * duplicate.  If the failure interrupted the seeding, the retry is answered as if it were the first call.
   */
  lemma RetryAfterInternal(s: System, p: Payload, now: int, fault: Fault, later: int)
    requires OutboxInv(s.l.outbox, s.l.nextId, s.log, s.mirror) && Registry(s.l.posted, s.log) && SeedState(s.l)
    requires Post(s.l, p, now, fault).1 == Failed(Internal)
    ensures var l' := Post(s.l, p, now, fault).0;
      if SeedingFails(s.l, p, fault) then Post(l', p, later, NoFault) == Post(s.l, p, later, NoFault)
      else if p.txId in l'.posted then Post(l', p, later, NoFault).1 == Duplicate(now)
      else Post(l', p, later, NoFault).1 == Posted(later)
  {
    if SeedingFails(s.l, p, fault) {
      SeedInTwoSteps(s.l, p.currency, fault);
    } else {
      RetryAfterSeeding(s, p, now, fault, later);
    }
  }

  lemma RetryAfterSeeding(s: System, p: Payload, now: int, fault: Fault, later: int)
    requires OutboxInv(s.l.outbox, s.l.nextId, s.log, s.mirror) && Registry(s.l.posted, s.log)
    requires Post(s.l, p, now, fault).1 == Failed(Internal) && !SeedingFails(s.l, p, fault)
    ensures var l' := Post(s.l, p, now, fault).0;
      if p.txId in l'.posted then Post(l', p, later, NoFault).1 == Duplicate(now)
      else Post(l', p, later, NoFault).1 == Posted(later)
  {
    var l := SeedChart(s.l, p.currency);
    var l' := Post(s.l, p, now, fault).0;
    FreshCommitNeverAborts(s, p, fault);
    FreshCommitNeverAborts(s, p, NoFault);
    FirstEntryErrorKind(l.accounts, p.entries, p.currency);
    PostSeededCases(l, p, now, fault);
    PostSeededCases(l, p, later, NoFault);
    assert SeedChart(l', p.currency) == l';
  }

  // ---------------------------------------------------------------- the mirror converges

  /** When no row is pending, every committed posting is in the mirror with exactly its legs. */
  lemma DrainedMeansMirrored(s: System)
    requires Covered(s.l.outbox, s.log, s.mirror)
    requires forall r :: r in s.l.outbox ==> r.status != Pending
    ensures forall it :: it in s.log ==> Complete(s.mirror, it)
  {
    forall it | it in s.log
      ensures !PendingFor(s.l.outbox, it)
    {
      forall i | 0 <= i < |s.l.outbox|
        ensures s.l.outbox[i].status != Pending
      {
        assert s.l.outbox[i] in s.l.outbox;
      }
    }
  }

  /**
   * In any run that ends with no pending row, the mirror's net movement of an account equals the
   * book's balance on the account's normal side, given legs that name the same account and amount
   * to both.
   */
  lemma {:induction false} MirrorConverges(nameId: Option<int>, t0: int, events: seq<Event>, accountId: int, code: string, parse: string -> int)
    requires forall r :: r in Run(Init(nameId, t0), events).l.outbox ==> r.status != Pending
    requires forall j :: 0 <= j < |events| && events[j].PostCall? ==> Agrees(events[j].payload, accountId, code, parse)
    requires code in Run(Init(nameId, t0), events).l.accounts
    ensures var s := Run(Init(nameId, t0), events);
      OnNormalSide(s.l.accounts[code].kind, MirrorNet(s.mirror.legs, accountId, parse)) == s.l.accounts[code].balance
  {
    var s := Run(Init(nameId, t0), events);
    RunBook(nameId, t0, events);
    RunHoldsExactly(nameId, t0, events);
    LoggedAgree(nameId, t0, events, accountId, code, parse);
    MirrorNetIsBookNet(s.mirror.legs, s.log, accountId, code, parse);
  }

  lemma {:induction false} RunHoldsExactly(nameId: Option<int>, t0: int, events: seq<Event>)
    requires forall r :: r in Run(Init(nameId, t0), events).l.outbox ==> r.status != Pending
    ensures HoldsExactly(Run(Init(nameId, t0), events).mirror.legs, Run(Init(nameId, t0), events).log)
  {
    RunInv(nameId, t0, events);
    MirroredHoldsExactly(Run(Init(nameId, t0), events));
  }

  lemma MirroredHoldsExactly(s: System)
    requires Covered(s.l.outbox, s.log, s.mirror) && MirrorOk(s.mirror, s.log)
    requires forall r :: r in s.l.outbox ==> r.status != Pending
    ensures HoldsExactly(s.mirror.legs, s.log)
  {
    DrainedMeansMirrored(s);
    assert forall i :: 0 <= i < |s.log| ==> s.log[i] in s.log;
  }

  lemma {:induction false} LoggedAgree(nameId: Option<int>, t0: int, events: seq<Event>, accountId: int, code: string, parse: string -> int)
    requires forall j :: 0 <= j < |events| && events[j].PostCall? ==> Agrees(events[j].payload, accountId, code, parse)
    ensures var log := Run(Init(nameId, t0), events).log;
      forall i :: 0 <= i < |log| ==> Agrees(log[i].payload, accountId, code, parse)
  {
    LogGrows(Init(nameId, t0), events);
    var log := Run(Init(nameId, t0), events).log;
    forall i | 0 <= i < |log|
      ensures Agrees(log[i].payload, accountId, code, parse)
    {
      assert Submitted(events, log[i].payload);
    }
  }

  // ---------------------------------------------------------------- oversize postings

  ghost predicate MirroredAreSmall(log: seq<LogItem>, mirror: Mirror) {
    forall i :: 0 <= i < |log| && Complete(mirror, log[i]) ==> |log[i].payload.entries| <= 98
  }

  /** A batch makes nothing complete but its own postings. */
  lemma {:induction false} BatchCompletesOnlyItself(m: Mirror, log: seq<LogItem>, items: seq<LogItem>, x: LogItem)
    requires DistinctTx(log) && x in log && x !in items
    requires forall y :: y in items ==> y in log
    requires Complete(MirrorAll(m, items), x)
    ensures Complete(m, x)
  {
    if items != [] {
      var init, it := items[..|items| - 1], items[|items| - 1];
      assert items == init + [it];
      assert it in items && it in log;
      var i :| 0 <= i < |log| && log[i] == x;
      var j :| 0 <= j < |log| && log[j] == it;
      assert x.payload.txId != it.payload.txId;
      MirrorPostingFrame(MirrorAll(m, init), it, x.payload.txId);
      BatchCompletesOnlyItself(m, log, init, x);
    }
  }

  lemma {:induction false} ApplyKeepsSmall(dr: Drain, outbox: seq<OutboxRow>, nextId: nat, log: seq<LogItem>, mirror: Mirror)
    requires DrainInv(dr, outbox, nextId, log, mirror) && DistinctTx(log) && MirroredAreSmall(log, mirror)
    ensures MirroredAreSmall(log, ExecAll(mirror, BatchStatements(ItemsOf(dr.rows))))
  {
    var items := ItemsOf(dr.rows);
    BatchIsMirrorAll(mirror, items);
    HeldItemsLogged(dr, outbox, nextId, log, mirror);
    forall i | 0 <= i < |log| && Complete(MirrorAll(mirror, items), log[i])
      ensures |log[i].payload.entries| <= 98
    {
      if log[i] in items {
        var k :| 0 <= k < |items| && items[k] == log[i];
        assert HeldInv(dr.rows[k], outbox, nextId, log);
      } else {
        BatchCompletesOnlyItself(mirror, log, items, log[i]);
      }
    }
  }

  lemma CommitKeepsSmall(log: seq<LogItem>, mirror: Mirror, it: LogItem)
    requires MirroredAreSmall(log, mirror) && MirrorOk(mirror, log) && !InLog(log, it.payload.txId)
    ensures MirroredAreSmall(log + [it], mirror)
  {
    assert it.payload.txId !in mirror.headers;
  }

  lemma StepKeepsSmall(s: System, e: Event)
    requires Inv(s) && MirroredAreSmall(s.log, s.mirror)
    ensures MirroredAreSmall(Step(s, e).log, Step(s, e).mirror)
  {
    match e {
      case PostCall(p, now, fault) =>
        PostOnOutbox(s.l, s.log, p, now, fault);
        if p.txId !in s.l.posted { CommitKeepsSmall(s.log, s.mirror, LogItem(p, now)); }
      case D1Apply(d) =>
        if d in s.drains { ApplyKeepsSmall(s.drains[d], s.l.outbox, s.l.nextId, s.log, s.mirror); }
      case _ => StepKeepsMirror(s, e);
    }
  }

  lemma StepKeepsMirror(s: System, e: Event)
    requires !e.PostCall? && !e.D1Apply?
    ensures Step(s, e).mirror == s.mirror && Step(s, e).log == s.log
  {}

  lemma {:induction false} RunKeepsSmall(nameId: Option<int>, t0: int, events: seq<Event>)
    ensures MirroredAreSmall(Run(Init(nameId, t0), events).log, Run(Init(nameId, t0), events).mirror)
  {
    if events != [] {
      RunKeepsSmall(nameId, t0, events[..|events| - 1]);
      RunInv(nameId, t0, events[..|events| - 1]);
      StepKeepsSmall(Run(Init(nameId, t0), events[..|events| - 1]), events[|events| - 1]);
    }
  }

  /**
   * A posting of more than 98 legs passes validation and is committed, but in no run is it ever
   * mirrored: it stays pending for ever.
   */
  lemma {:induction false} OversizeNeverMirrored(nameId: Option<int>, t0: int, events: seq<Event>, it: LogItem)
    requires it in Run(Init(nameId, t0), events).log && |it.payload.entries| > 98
    ensures var s := Run(Init(nameId, t0), events);
      Absent(s.mirror, it.payload.txId) && PendingFor(s.l.outbox, it)
  {
    var s := Run(Init(nameId, t0), events);
    RunInv(nameId, t0, events);
    RunKeepsSmall(nameId, t0, events);
    var i :| 0 <= i < |s.log| && s.log[i] == it;
  }
}
