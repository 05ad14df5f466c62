/**
 * The per-merchant book and the posting path (src/do/ledger-do.ts, src/types/ledger.ts),
 * stated on values: what one posting call does to the book, and what every call keeps.
 * The class in LedgerDO.dfy works in place and is proved equal to these functions.
 */
module Posting {
  import opened Common
  import opened Chart
  import opened Journal

  /** Upper bound of one leg, in minor units. */
  const MAX_AMOUNT_MINOR: int := 9_000_000_000_000

  /** A JavaScript number seen through Number.isInteger. */
  datatype Amount = Whole(minor: int) | NotInteger

  datatype PostingEntry = PostingEntry(
    accountCode: string, d1AccountId: int, direction: Direction, amount: string, amountMinor: Amount)

  datatype Payload = Payload(txId: string, merchantId: int, currency: string, entries: seq<PostingEntry>)

  datatype ErrorCode = Unbalanced | InsufficientFunds | UnknownAccount | Invalid | CurrencyMismatch | Internal

  datatype PostResult = Posted(at: int) | Duplicate(at: int) | Failed(code: ErrorCode)

  /** Where an unexpected exception strikes a posting call, if anywhere; seeding may stop after any number of inserts. */
  datatype Fault = NoFault | DuringSeeding(inserts: nat) | BeforeCommit | AfterCommit

  datatype Account = Account(kind: AccountType, currency: string, balance: int)

  datatype PostedTx = PostedTx(currency: string, postedAt: int)

  datatype OutboxStatus = Pending | Synced

  datatype OutboxRow = OutboxRow(
    id: nat, eventId: string, payload: Payload, postedAt: int,
    status: OutboxStatus, retryCount: nat, nextRetryAt: Option<int>, syncedAt: int)

  /**
   * Everything one ledger object holds: its SQLite tables, its alarm, two stored timestamps and
   * its two in-memory caches.  `nameId` is the id encoded in the object's name, if there is one;
   * `chart` is the chart of accounts it seeds, DEFAULT_CHART_OF_ACCOUNTS in the program.
   */
  datatype Ledger = Ledger(
    nameId: Option<int>,
    chart: seq<ChartAccount>,
    accounts: map<string, Account>,
    posted: map<string, PostedTx>,
    journal: seq<Row>,
    outbox: seq<OutboxRow>,
    nextId: nat,
    alarm: Option<int>,
    lastSnapshotAt: int,
    lastCleanupAt: int,
    merchantId: Option<int>,
    seededCurrency: Option<string>)

  // ---------------------------------------------------------------- one posting

  function MinorOf(a: Amount): int {
    if a.Whole? then a.minor else 0
  }

  function RowOf(p: Payload, e: PostingEntry, at: int): Row {
    Row(p.txId, e.accountCode, e.direction, MinorOf(e.amountMinor), at)
  }

  function RowsOf(p: Payload, at: int): (rows: seq<Row>)
    ensures |rows| == |p.entries|
    ensures forall i :: 0 <= i < |rows| ==> rows[i] == RowOf(p, p.entries[i], at)
  {
    seq(|p.entries|, i requires 0 <= i < |p.entries| => RowOf(p, p.entries[i], at))
  }

  predicate EntryShapeOk(e: PostingEntry) {
    && (e.direction == Debit || e.direction == Credit)
    && e.amountMinor.Whole?
    && 0 < e.amountMinor.minor <= MAX_AMOUNT_MINOR
    && e.accountCode != ""
  }

  predicate ShapeOk(p: Payload) {
    && p.txId != ""
    && |p.entries| >= 2
    && forall i :: 0 <= i < |p.entries| ==> EntryShapeOk(p.entries[i])
  }

  function ShapeError(p: Payload): Option<ErrorCode> {
    if !ShapeOk(p) then Some(Invalid)
    else if DebitTotal(RowsOf(p, 0)) != CreditTotal(RowsOf(p, 0)) then Some(Unbalanced)
    else None
  }

  function EntryError(accounts: map<string, Account>, e: PostingEntry, currency: string): Option<ErrorCode> {
    if e.accountCode !in accounts then Some(UnknownAccount)
    else if accounts[e.accountCode].currency != currency then Some(CurrencyMismatch)
    else None
  }

  /** The error of the first leg that has one. */
  function FirstEntryError(accounts: map<string, Account>, es: seq<PostingEntry>, currency: string): Option<ErrorCode> {
    if es == [] then None
    else
      var before := FirstEntryError(accounts, es[..|es| - 1], currency);
      if before.Some? then before else EntryError(accounts, es[|es| - 1], currency)
  }

  /** Net movement of one account under a posting, on the account's normal side. */
  function Delta(accounts: map<string, Account>, p: Payload, code: string): int
    requires code in accounts
  {
    OnNormalSide(accounts[code].kind, Net(RowsOf(p, 0), code))
  }

  predicate Overdraws(accounts: map<string, Account>, p: Payload, e: PostingEntry) {
    e.accountCode in accounts && accounts[e.accountCode].balance + Delta(accounts, p, e.accountCode) < 0
  }

  function BalanceError(accounts: map<string, Account>, p: Payload): Option<ErrorCode> {
    var unknown := FirstEntryError(accounts, p.entries, p.currency);
    if unknown.Some? then unknown
    else if exists i :: 0 <= i < |p.entries| && Overdraws(accounts, p, p.entries[i]) then Some(InsufficientFunds)
    else None
  }

  /** INSERT OR IGNORE of every chart account, in chart order, at balance zero. */
  function SeedAccounts(accounts: map<string, Account>, chart: seq<ChartAccount>, currency: string): map<string, Account> {
    if chart == [] then accounts
    else
      var m := SeedAccounts(accounts, chart[..|chart| - 1], currency);
      var a := chart[|chart| - 1];
      if a.code in m then m else m[a.code := Account(a.kind, currency, 0)]
  }

  function SeedChart(l: Ledger, currency: string): Ledger {
    if l.seededCurrency == Some(currency) then l
    else l.(accounts := SeedAccounts(l.accounts, l.chart, currency), seededCurrency := Some(currency))
  }

  /** How many of n inserts a call's seeding gets to. */
  function ReachOf(fault: Fault, n: nat): (r: nat)
    ensures r <= n
  {
    if fault.DuringSeeding? && fault.inserts < n then fault.inserts else n
  }

  /** The inserts are skipped when this object has already done them for the currency. */
  predicate SeedingFails(l: Ledger, p: Payload, fault: Fault) {
    fault.DuringSeeding? && l.seededCurrency != Some(p.currency)
  }

  /** Seeding that stops after some inserts: they stay, and the object does not remember it as done. */
  function SeedPart(l: Ledger, currency: string, fault: Fault): Ledger {
    l.(accounts := SeedAccounts(l.accounts, l.chart[..ReachOf(fault, |l.chart|)], currency))
  }

  /** The cached merchant id, or the one in the object's name; ids are positive. */
  function MerchantIdOf(l: Ledger): Option<int> {
    if l.merchantId.Some? && l.merchantId.value > 0 then l.merchantId
    else if l.nameId.Some? && l.nameId.value > 0 then l.nameId
    else None
  }

  const EVENT_KIND: string := "posting:"

  /** `m<merchant>:posting:<tx>` */
  function EventId(merchantId: int, txId: string): string {
    ['m'] + (Decimal(merchantId) + [':'] + (EVENT_KIND + txId))
  }

  predicate EventIdTaken(outbox: seq<OutboxRow>, eventId: string) {
    exists i :: 0 <= i < |outbox| && outbox[i].eventId == eventId
  }

  function ApplyDeltas(accounts: map<string, Account>, p: Payload): map<string, Account> {
    map c | c in accounts :: accounts[c].(balance := accounts[c].balance + Delta(accounts, p, c))
  }

  function Identify(l: Ledger, p: Payload): Ledger {
    if p.merchantId > 0 then l.(merchantId := Some(p.merchantId))
    else l.(merchantId := if MerchantIdOf(l).Some? then MerchantIdOf(l) else l.merchantId)
  }

  function EventIdFor(l: Ledger, p: Payload): string {
    EventId(if MerchantIdOf(l).Some? then MerchantIdOf(l).value else p.merchantId, p.txId)
  }

  /** The atomic local commit: registry, journal, balances and outbox row together. */
  function Commit(l: Ledger, p: Payload, at: int): Ledger {
    l.(posted := l.posted[p.txId := PostedTx(p.currency, at)],
       journal := l.journal + RowsOf(p, at),
       accounts := ApplyDeltas(l.accounts, p),
       outbox := l.outbox + [OutboxRow(l.nextId, EventIdFor(l, p), p, at, Pending, 0, None, 0)],
       nextId := l.nextId + 1)
  }

  const OUTBOX_DRAIN_KICK_MS: int := 100
  const OUTBOX_DRAIN_MAX_BACKOFF_MS: int := 60_000

  /** Nudge the alarm, without shortening a backoff that is already armed. */
  function KickAlarm(alarm: Option<int>, now: int): Option<int> {
    if alarm.Some? && now < alarm.value && alarm.value - now <= OUTBOX_DRAIN_MAX_BACKOFF_MS then alarm
    else if alarm.None? || alarm.value > now + OUTBOX_DRAIN_KICK_MS then Some(now + OUTBOX_DRAIN_KICK_MS)
    else alarm
  }

  /** One call of postTransaction: the book afterwards and the answer the caller gets. */
  function Post(l: Ledger, p: Payload, now: int, fault: Fault): (Ledger, PostResult) {
    if SeedingFails(l, p, fault) then (SeedPart(l, p.currency, fault), Failed(Internal))
    else PostSeeded(SeedChart(l, p.currency), p, now, fault)
  }

  /** The rest of the call, once the chart has been seeded. */
  function PostSeeded(l: Ledger, p: Payload, now: int, fault: Fault): (Ledger, PostResult) {
    if ShapeError(p).Some? then (l, Failed(ShapeError(p).value))
    else if p.txId in l.posted then (l, Duplicate(l.posted[p.txId].postedAt))
    else if BalanceError(l.accounts, p).Some? then (l, Failed(BalanceError(l.accounts, p).value))
    else if fault == BeforeCommit then (l, Failed(Internal))
    else if EventIdTaken(l.outbox, EventIdFor(Identify(l, p), p)) then (Identify(l, p), Failed(Internal))
    else
      var l' := Commit(Identify(l, p), p, now);
      if fault == AfterCommit then (l', Failed(Internal))
      else (l'.(alarm := KickAlarm(l'.alarm, now)), Posted(now))
  }

  // ---------------------------------------------------------------- the log of commits

  /** What a reader of the whole history would write down: the commits, in order. */
  datatype LogItem = LogItem(payload: Payload, at: int)

  function JournalOf(log: seq<LogItem>): seq<Row> {
    if log == [] then [] else JournalOf(log[..|log| - 1]) + RowsOf(log[|log| - 1].payload, log[|log| - 1].at)
  }

  predicate InLog(log: seq<LogItem>, tx: string) {
    exists i :: 0 <= i < |log| && log[i].payload.txId == tx
  }

  ghost predicate DistinctTx(log: seq<LogItem>) {
    forall i, j :: 0 <= i < j < |log| ==> log[i].payload.txId != log[j].payload.txId
  }

  ghost predicate Full(accounts: map<string, Account>, chart: seq<ChartAccount>) {
    forall i :: 0 <= i < |chart| ==> chart[i].code in accounts
  }

  /** Accounts of the chart only, with the chart's types. */
  ghost predicate FromChart(accounts: map<string, Account>, chart: seq<ChartAccount>) {
    && (forall c :: c in accounts ==> InChart(chart, c))
    && (forall i :: 0 <= i < |chart| && chart[i].code in accounts ==> accounts[chart[i].code].kind == chart[i].kind)
  }

  ghost predicate SeedState(l: Ledger) {
    && DistinctCodes(l.chart) && FromChart(l.accounts, l.chart)
    && (l.seededCurrency.Some? ==> Full(l.accounts, l.chart))
  }

  /** A leg names an account of its posting's currency. */
  predicate LegHeld(accounts: map<string, Account>, e: PostingEntry, currency: string) {
    e.accountCode in accounts && accounts[e.accountCode].currency == currency
  }

  ghost predicate LogOk(log: seq<LogItem>, accounts: map<string, Account>) {
    forall i :: 0 <= i < |log| ==>
      && ShapeError(log[i].payload).None?
      && forall j :: 0 <= j < |log[i].payload.entries| ==> LegHeld(accounts, log[i].payload.entries[j], log[i].payload.currency)
  }

  ghost predicate Registry(posted: map<string, PostedTx>, log: seq<LogItem>) {
    && (forall tx :: tx in posted <==> InLog(log, tx))
    && forall i :: 0 <= i < |log| ==> log[i].payload.txId in posted
                                      && posted[log[i].payload.txId] == PostedTx(log[i].payload.currency, log[i].at)
  }

  ghost predicate BalancesDerived(accounts: map<string, Account>, journal: seq<Row>) {
    forall c :: c in accounts ==> 0 <= accounts[c].balance == OnNormalSide(accounts[c].kind, Net(journal, c))
  }

  /** The book is the replay of its log of commits. */
  ghost predicate BookInv(l: Ledger, log: seq<LogItem>) {
    && SeedState(l)
    && (log != [] ==> Full(l.accounts, l.chart))
    && LogOk(log, l.accounts)
    && DistinctTx(log)
    && Registry(l.posted, log)
    && l.journal == JournalOf(log)
    && BalancesDerived(l.accounts, l.journal)
  }

  /** All checks pass and nothing fails before the commit. */
  predicate Commits(l: Ledger, p: Payload, fault: Fault) {
    && ShapeError(p).None?
    && p.txId !in l.posted
    && BalanceError(l.accounts, p).None?
    && fault != BeforeCommit
    && !EventIdTaken(l.outbox, EventIdFor(Identify(l, p), p))
  }

  /** The call commits. */
  predicate CommitsIn(l: Ledger, p: Payload, fault: Fault) {
    !SeedingFails(l, p, fault) && Commits(SeedChart(l, p.currency), p, fault)
  }

  /** The log after a posting call. */
  function LogAfter(l: Ledger, log: seq<LogItem>, p: Payload, now: int, fault: Fault): seq<LogItem> {
    if CommitsIn(l, p, fault) then log + [LogItem(p, now)] else log
  }

  // ---------------------------------------------------------------- seeding

  lemma {:induction false} SeedIgnoresPresent(accounts: map<string, Account>, chart: seq<ChartAccount>, currency: string)
    requires forall i :: 0 <= i < |chart| ==> chart[i].code in accounts
    ensures SeedAccounts(accounts, chart, currency) == accounts
  {
    if chart != [] {
      SeedIgnoresPresent(accounts, chart[..|chart| - 1], currency);
    }
  }

  /** What is there stays, and every chart account that was missing is there at zero in the given currency. */
  ghost predicate Filled(m: map<string, Account>, accounts: map<string, Account>, chart: seq<ChartAccount>, currency: string) {
    && (forall c :: c in accounts ==> c in m && m[c] == accounts[c])
    && (forall c :: c in m ==> c in accounts || InChart(chart, c))
    && (forall i :: 0 <= i < |chart| ==> EntryFilled(m, accounts, chart[i], currency))
  }

  predicate EntryFilled(m: map<string, Account>, accounts: map<string, Account>, a: ChartAccount, currency: string) {
    a.code in m && (a.code !in accounts ==> m[a.code] == Account(a.kind, currency, 0))
  }

  lemma {:induction false} SeedingFills(accounts: map<string, Account>, chart: seq<ChartAccount>, currency: string)
    requires DistinctCodes(chart)
    ensures Filled(SeedAccounts(accounts, chart, currency), accounts, chart, currency)
  {
    if chart != [] {
      SeedingFills(accounts, chart[..|chart| - 1], currency);
      FillOne(SeedAccounts(accounts, chart[..|chart| - 1], currency), accounts, chart, currency);
    }
  }

  lemma FillOne(m: map<string, Account>, accounts: map<string, Account>, chart: seq<ChartAccount>, currency: string)
    requires chart != [] && DistinctCodes(chart) && Filled(m, accounts, chart[..|chart| - 1], currency)
    ensures var a := chart[|chart| - 1];
      Filled(if a.code in m then m else m[a.code := Account(a.kind, currency, 0)], accounts, chart, currency)
  {
    var init, a := chart[..|chart| - 1], chart[|chart| - 1];
    var m' := if a.code in m then m else m[a.code := Account(a.kind, currency, 0)];
    assert !InChart(init, a.code);
    assert chart[|chart| - 1].code == a.code;
    forall c | c in m' && c !in accounts && c != a.code
      ensures InChart(chart, c)
    {
      var i :| 0 <= i < |init| && init[i].code == c;
      assert chart[i].code == c;
    }
    forall i | 0 <= i < |init|
      ensures EntryFilled(m', accounts, chart[i], currency)
    {
      assert EntryFilled(m, accounts, init[i], currency);
    }
  }

  lemma FullIsFilled(accounts: map<string, Account>, chart: seq<ChartAccount>, currency: string)
    requires Full(accounts, chart)
    ensures Filled(accounts, accounts, chart, currency)
  {}

  /** There is only one way to fill an accounts table. */
  lemma FilledUnique(m: map<string, Account>, n: map<string, Account>, accounts: map<string, Account>, chart: seq<ChartAccount>, currency: string)
    requires Filled(m, accounts, chart, currency) && Filled(n, accounts, chart, currency)
    ensures m == n
  {
    forall c
      ensures c in m <==> c in n
      ensures c in m ==> m[c] == n[c]
    {
      if c !in accounts && InChart(chart, c) {
        var i :| 0 <= i < |chart| && chart[i].code == c;
        assert EntryFilled(m, accounts, chart[i], currency) && EntryFilled(n, accounts, chart[i], currency);
      }
    }
  }

  /** Seeding creates what the chart still lacks, at zero and in the caller's currency, and changes nothing else. */
  lemma SeedChartEffect(l: Ledger, currency: string)
    requires SeedState(l)
    ensures var l1 := SeedChart(l, currency);
      && SeedState(l1) && Full(l1.accounts, l1.chart)
      && l1 == l.(accounts := l1.accounts, seededCurrency := Some(currency))
      && Filled(l1.accounts, l.accounts, l.chart, currency)
      && (Full(l.accounts, l.chart) ==> l1.accounts == l.accounts)
  {
    var l1 := SeedChart(l, currency);
    if l.seededCurrency == Some(currency) {
      FullIsFilled(l.accounts, l.chart, currency);
    } else {
      SeedingFills(l.accounts, l.chart, currency);
      FilledFromChart(l1.accounts, l.accounts, l.chart, |l.chart|, currency);
      if Full(l.accounts, l.chart) {
        SeedIgnoresPresent(l.accounts, l.chart, currency);
      }
    }
  }

  lemma FilledFromChart(m: map<string, Account>, accounts: map<string, Account>, chart: seq<ChartAccount>, k: nat, currency: string)
    requires k <= |chart| && FromChart(accounts, chart) && Filled(m, accounts, chart[..k], currency) && DistinctCodes(chart)
    ensures FromChart(m, chart) && (k == |chart| ==> Full(m, chart))
  {
    forall c | c in m
      ensures InChart(chart, c)
    {
      if c !in accounts {
        var i :| 0 <= i < k && chart[..k][i].code == c;
        assert chart[i].code == c;
      }
    }
    forall i | 0 <= i < |chart|
      ensures chart[i].code in m ==> m[chart[i].code].kind == chart[i].kind
      ensures i < k ==> chart[i].code in m
    {
      if i < k {
        assert chart[..k][i] == chart[i] && EntryFilled(m, accounts, chart[..k][i], currency);
      } else if chart[i].code !in accounts {
        assert !InChart(chart[..k], chart[i].code);
      }
    }
  }

  /** The currency of the account at a chart position, if there is one yet. */
  function CurrencyOf(accounts: map<string, Account>, code: string): Option<string> {
    if code in accounts then Some(accounts[code].currency) else None
  }

  /** The currency of an account after a seeding that may reach it. */
  function SeededCurrency(accounts: map<string, Account>, code: string, reached: bool, currency: string): Option<string> {
    if code in accounts then CurrencyOf(accounts, code) else if reached then Some(currency) else None
  }

  /** After seeding up to position k, accounts that were there keep their currency and those up to k have one. */
  lemma {:induction false} SeedingCurrencies(l: Ledger, currency: string, k: nat)
    requires SeedState(l) && k <= |l.chart|
    ensures var m := SeedAccounts(l.accounts, l.chart[..k], currency);
      forall i :: 0 <= i < |l.chart| ==>
        CurrencyOf(m, l.chart[i].code) == SeededCurrency(l.accounts, l.chart[i].code, i < k, currency)
  {
    var m := SeedAccounts(l.accounts, l.chart[..k], currency);
    SeedingFills(l.accounts, l.chart[..k], currency);
    forall i | 0 <= i < |l.chart| && l.chart[i].code !in l.accounts
      ensures CurrencyOf(m, l.chart[i].code) == if i < k then Some(currency) else None
    {
      if i < k {
        assert l.chart[..k][i] == l.chart[i] && EntryFilled(m, l.accounts, l.chart[..k][i], currency);
      } else {
        assert !InChart(l.chart[..k], l.chart[i].code);
      }
    }
  }

  /** Interrupted seeding and its completion in the same currency come to one seeding. */
  lemma SeedInTwoSteps(l: Ledger, currency: string, fault: Fault)
    requires SeedState(l) && l.seededCurrency != Some(currency)
    ensures SeedChart(SeedPart(l, currency, fault), currency) == SeedChart(l, currency)
  {
    var k := ReachOf(fault, |l.chart|);
    var part := SeedAccounts(l.accounts, l.chart[..k], currency);
    SeedingFills(l.accounts, l.chart[..k], currency);
    SeedingFills(part, l.chart, currency);
    SeedingFills(l.accounts, l.chart, currency);
    TwiceFilled(SeedAccounts(part, l.chart, currency), part, l.accounts, l.chart, k, currency);
    FilledUnique(SeedAccounts(part, l.chart, currency), SeedAccounts(l.accounts, l.chart, currency), l.accounts, l.chart, currency);
  }

  lemma TwiceFilled(
      m: map<string, Account>, part: map<string, Account>, accounts: map<string, Account>, chart: seq<ChartAccount>, k: nat, currency: string)
    requires k <= |chart| && DistinctCodes(chart)
    requires Filled(part, accounts, chart[..k], currency) && Filled(m, part, chart, currency)
    ensures Filled(m, accounts, chart, currency)
  {
    forall c | c in m && c !in accounts
      ensures InChart(chart, c)
    {
      if c in part {
        var i :| 0 <= i < k && chart[..k][i].code == c;
        assert chart[i].code == c;
      }
    }
    forall i | 0 <= i < |chart|
      ensures EntryFilled(m, accounts, chart[i], currency)
    {
      assert EntryFilled(m, part, chart[i], currency);
      if chart[i].code in part && chart[i].code !in accounts {
        var j :| 0 <= j < k && chart[..k][j].code == chart[i].code;
        assert EntryFilled(part, accounts, chart[..k][j], currency);
        assert i == j;
      }
    }
  }

  // ---------------------------------------------------------------- interrupted seeding

  /**
   * The seeding inserts are not one transaction.  If the first call fails after k of them and a later
   * call, in another currency, completes the chart, the book is in one currency if and only if
   * the first call wrote no account or all of them, or both calls name the same currency.
   */
  lemma {:induction false} InterruptedSeedingIff(chart: seq<ChartAccount>, first: string, second: string, k: nat)
    requires DistinctCodes(chart) && k <= |chart|
    ensures var m := SeedAccounts(SeedAccounts(map[], chart[..k], first), chart, second);
      && (forall i :: 0 <= i < |chart| ==> chart[i].code in m && m[chart[i].code].currency == if i < k then first else second)
      && ((forall c, d :: c in m && d in m ==> m[c].currency == m[d].currency) <==> k == 0 || k == |chart| || first == second)
  {
    TwoSeedings(chart, first, second, k);
    OneCurrencyIff(SeedAccounts(SeedAccounts(map[], chart[..k], first), chart, second), chart, first, second, k);
  }

  lemma OneCurrencyIff(m: map<string, Account>, chart: seq<ChartAccount>, first: string, second: string, k: nat)
    requires k <= |chart| && forall c :: c in m ==> InChart(chart, c)
    requires forall i :: 0 <= i < |chart| ==> chart[i].code in m && m[chart[i].code].currency == if i < k then first else second
    ensures (forall c, d :: c in m && d in m ==> m[c].currency == m[d].currency) <==> k == 0 || k == |chart| || first == second
  {
    if 0 < k < |chart| {
      assert m[chart[0].code].currency == first && m[chart[k].code].currency == second;
    }
  }

  lemma {:induction false} TwoSeedings(chart: seq<ChartAccount>, first: string, second: string, k: nat)
    requires DistinctCodes(chart) && k <= |chart|
    ensures var m := SeedAccounts(SeedAccounts(map[], chart[..k], first), chart, second);
      && (forall c :: c in m ==> InChart(chart, c))
      && (forall i :: 0 <= i < |chart| ==> chart[i].code in m && m[chart[i].code].currency == if i < k then first else second)
  {
    var part := SeedAccounts(map[], chart[..k], first);
    var m := SeedAccounts(part, chart, second);
    SeedingFills(map[], chart[..k], first);
    SeedingFills(part, chart, second);
    forall i | 0 <= i < |chart|
      ensures m[chart[i].code].currency == if i < k then first else second
    {
      assert EntryFilled(m, part, chart[i], second);
      if i < k {
        assert chart[..k][i] == chart[i] && EntryFilled(part, map[], chart[i], first);
      } else {
        assert !InChart(chart[..k], chart[i].code);
      }
    }
    forall c | c in m
      ensures InChart(chart, c)
    {
      if c in part {
        var i :| 0 <= i < k && chart[..k][i].code == c;
        assert chart[i].code == c;
      }
    }
  }

  // ---------------------------------------------------------------- sums of one posting

  lemma {:induction false} SumsIgnoreTime(a: seq<Row>, b: seq<Row>, code: string)
    requires |a| == |b|
    requires forall i :: 0 <= i < |a| ==> a[i].code == b[i].code && a[i].direction == b[i].direction && a[i].amountMinor == b[i].amountMinor
    ensures DebitTotal(a) == DebitTotal(b) && CreditTotal(a) == CreditTotal(b) && Net(a, code) == Net(b, code)
  {
    if a != [] {
      SumsIgnoreTime(a[..|a| - 1], b[..|b| - 1], code);
    }
  }

  /** An account no leg names does not move. */
  lemma {:induction false} NetOfAbsent(rows: seq<Row>, code: string)
    requires forall i :: 0 <= i < |rows| ==> rows[i].code != code
    ensures Net(rows, code) == 0
  {
    if rows != [] {
      NetOfAbsent(rows[..|rows| - 1], code);
    }
  }

  lemma {:induction false} FirstEntryErrorNone(accounts: map<string, Account>, es: seq<PostingEntry>, currency: string)
    requires FirstEntryError(accounts, es, currency).None?
    ensures forall i :: 0 <= i < |es| ==> EntryError(accounts, es[i], currency).None?
  {
    if es != [] {
      FirstEntryErrorNone(accounts, es[..|es| - 1], currency);
    }
  }

  lemma {:induction false} FirstEntryErrorKind(accounts: map<string, Account>, es: seq<PostingEntry>, currency: string)
    ensures var e := FirstEntryError(accounts, es, currency); e == None || e == Some(UnknownAccount) || e == Some(CurrencyMismatch)
  {
    if es != [] {
      FirstEntryErrorKind(accounts, es[..|es| - 1], currency);
    }
  }

  lemma CommitKeepsBalances(accounts: map<string, Account>, journal: seq<Row>, p: Payload, at: int)
    requires BalancesDerived(accounts, journal)
    requires BalanceError(accounts, p).None?
    ensures BalancesDerived(ApplyDeltas(accounts, p), journal + RowsOf(p, at))
  {
    forall c | c in accounts
      ensures 0 <= ApplyDeltas(accounts, p)[c].balance == OnNormalSide(accounts[c].kind, Net(journal + RowsOf(p, at), c))
    {
      SumsAppend(journal, RowsOf(p, at), c);
      SumsIgnoreTime(RowsOf(p, at), RowsOf(p, 0), c);
      StaysSolvent(accounts, p, c);
    }
  }

  lemma StaysSolvent(accounts: map<string, Account>, p: Payload, c: string)
    requires BalanceError(accounts, p).None? && c in accounts && accounts[c].balance >= 0
    ensures accounts[c].balance + Delta(accounts, p, c) >= 0
  {
    if i :| 0 <= i < |p.entries| && p.entries[i].accountCode == c {
      assert !Overdraws(accounts, p, p.entries[i]);
    } else {
      NetOfAbsent(RowsOf(p, 0), c);
    }
  }

  // ---------------------------------------------------------------- what every posting call keeps

  lemma CommitKeepsSeed(l: Ledger, p: Payload, at: int)
    requires SeedState(l)
    ensures SeedState(Commit(l, p, at)) && (Full(l.accounts, l.chart) ==> Full(Commit(l, p, at).accounts, l.chart))
    ensures forall c :: CurrencyOf(Commit(l, p, at).accounts, c) == CurrencyOf(l.accounts, c)
  {
    var accounts' := ApplyDeltas(l.accounts, p);
    assert forall c :: c in accounts' <==> c in l.accounts;
  }

  lemma CommitKeepsRegistry(posted: map<string, PostedTx>, log: seq<LogItem>, p: Payload, at: int)
    requires DistinctTx(log) && Registry(posted, log) && p.txId !in posted
    ensures DistinctTx(log + [LogItem(p, at)])
    ensures Registry(posted[p.txId := PostedTx(p.currency, at)], log + [LogItem(p, at)])
  {
    var posted', log' := posted[p.txId := PostedTx(p.currency, at)], log + [LogItem(p, at)];
    forall tx
      ensures tx in posted' <==> InLog(log', tx)
    {
      if tx == p.txId {
        assert log'[|log|].payload.txId == tx;
      } else if InLog(log, tx) {
        var i :| 0 <= i < |log| && log[i].payload.txId == tx;
        assert log'[i].payload.txId == tx;
      } else {
        assert forall i :: 0 <= i < |log'| ==> log'[i].payload.txId != tx;
      }
    }
  }

  lemma CommitKeepsLog(accounts: map<string, Account>, log: seq<LogItem>, p: Payload, at: int)
    requires LogOk(log, accounts) && ShapeError(p).None? && BalanceError(accounts, p).None?
    ensures LogOk(log + [LogItem(p, at)], ApplyDeltas(accounts, p))
  {
    FirstEntryErrorNone(accounts, p.entries, p.currency);
    forall j | 0 <= j < |p.entries|
      ensures LegHeld(accounts, p.entries[j], p.currency)
    {
      assert EntryError(accounts, p.entries[j], p.currency).None?;
    }
    LogOkFrame(log + [LogItem(p, at)], accounts, ApplyDeltas(accounts, p));
  }

  /** Accounts keep their currency and none goes away. */
  ghost predicate KeepsCurrencies(accounts: map<string, Account>, m: map<string, Account>) {
    forall c :: c in accounts ==> c in m && m[c].currency == accounts[c].currency
  }

  lemma LogOkFrame(log: seq<LogItem>, accounts: map<string, Account>, m: map<string, Account>)
    requires LogOk(log, accounts) && KeepsCurrencies(accounts, m)
    ensures LogOk(log, m)
  {
    forall i, j | 0 <= i < |log| && 0 <= j < |log[i].payload.entries|
      ensures LegHeld(m, log[i].payload.entries[j], log[i].payload.currency)
    {
      assert LegHeld(accounts, log[i].payload.entries[j], log[i].payload.currency);
    }
  }

  lemma CommitKeepsBook(l: Ledger, log: seq<LogItem>, p: Payload, at: int)
    requires BookInv(l, log) && Full(l.accounts, l.chart)
    requires ShapeError(p).None? && p.txId !in l.posted
    requires BalanceError(l.accounts, p).None?
    ensures BookInv(Commit(l, p, at), log + [LogItem(p, at)])
  {
    CommitKeepsLog(l.accounts, log, p, at);
    CommitKeepsSeed(l, p, at);
    CommitKeepsRegistry(l.posted, log, p, at);
    CommitKeepsBalances(l.accounts, l.journal, p, at);
    assert (log + [LogItem(p, at)])[..|log|] == log;
  }

  /** Filling the accounts table keeps the book; nothing was posted while it was not full. */
  lemma FillingKeepsBook(l: Ledger, l': Ledger, log: seq<LogItem>, k: nat, currency: string)
    requires BookInv(l, log) && k <= |l.chart| && Filled(l'.accounts, l.accounts, l.chart[..k], currency)
    requires l' == l.(accounts := l'.accounts, seededCurrency := l'.seededCurrency)
    requires FromChart(l'.accounts, l.chart) && (l'.seededCurrency.Some? ==> Full(l'.accounts, l.chart))
    requires Full(l.accounts, l.chart) ==> l'.accounts == l.accounts
    ensures BookInv(l', log)
  {
    LogOkFrame(log, l.accounts, l'.accounts);
    if !Full(l.accounts, l.chart) {
      forall c | c in l'.accounts
        ensures 0 <= l'.accounts[c].balance == OnNormalSide(l'.accounts[c].kind, Net(l.journal, c))
      {
        if c !in l.accounts {
          var i :| 0 <= i < k && l.chart[..k][i].code == c;
          assert EntryFilled(l'.accounts, l.accounts, l.chart[..k][i], currency);
        }
      }
    }
  }

  lemma SeedKeepsBook(l: Ledger, log: seq<LogItem>, currency: string)
    requires BookInv(l, log)
    ensures BookInv(SeedChart(l, currency), log) && Full(SeedChart(l, currency).accounts, l.chart)
  {
    SeedChartEffect(l, currency);
    assert l.chart[..|l.chart|] == l.chart;
    FillingKeepsBook(l, SeedChart(l, currency), log, |l.chart|, currency);
  }

  lemma SeedPartKeepsBook(l: Ledger, log: seq<LogItem>, currency: string, fault: Fault)
    requires BookInv(l, log)
    ensures BookInv(SeedPart(l, currency, fault), log)
  {
    var k := ReachOf(fault, |l.chart|);
    var l' := SeedPart(l, currency, fault);
    SeedingFills(l.accounts, l.chart[..k], currency);
    FilledFromChart(l'.accounts, l.accounts, l.chart, k, currency);
    if Full(l.accounts, l.chart) {
      SeedIgnoresPresent(l.accounts, l.chart[..k], currency);
    }
    FillingKeepsBook(l, l', log, k, currency);
  }

  /** Only the book's own tables matter to it. */
  lemma BookInvFrame(l: Ledger, l': Ledger, log: seq<LogItem>)
    requires BookInv(l, log)
    requires l'.accounts == l.accounts && l'.posted == l.posted && l'.journal == l.journal && l'.chart == l.chart
    requires l'.seededCurrency == l.seededCurrency || l'.seededCurrency.None?
    ensures BookInv(l', log)
  {}

  /**
   * Every posting call, whatever its payload and wherever it fails, leaves the book equal to the
   * replay of its log; the call commits exactly when it answers `Posted` or fails after the commit.
   */
  lemma PostKeepsBook(l: Ledger, log: seq<LogItem>, p: Payload, now: int, fault: Fault)
    requires BookInv(l, log)
    ensures BookInv(Post(l, p, now, fault).0, LogAfter(l, log, p, now, fault))
    ensures Post(l, p, now, fault).1.Posted? ==> LogAfter(l, log, p, now, fault) == log + [LogItem(p, now)]
  {
    if SeedingFails(l, p, fault) {
      SeedPartKeepsBook(l, log, p.currency, fault);
    } else {
      SeedKeepsBook(l, log, p.currency);
      PostSeededCases(SeedChart(l, p.currency), p, now, fault);
      PostSeededKeepsBook(SeedChart(l, p.currency), log, p, now, fault);
    }
  }

  lemma PostSeededCases(l: Ledger, p: Payload, now: int, fault: Fault)
    ensures var (l', r) := PostSeeded(l, p, now, fault);
      if Commits(l, p, fault) then
        l' == Commit(Identify(l, p), p, now).(alarm := l'.alarm) && r == if fault == AfterCommit then Failed(Internal) else Posted(now)
      else
        l' == l.(merchantId := l'.merchantId) && !r.Posted?
  {}

  lemma CommitPathKeepsBook(l: Ledger, log: seq<LogItem>, p: Payload, now: int, fault: Fault)
    requires BookInv(l, log) && Full(l.accounts, l.chart) && Commits(l, p, fault)
    ensures BookInv(Commit(Identify(l, p), p, now), log + [LogItem(p, now)])
  {
    var l2 := Identify(l, p);
    BookInvFrame(l, l2, log);
    CommitKeepsBook(l2, log, p, now);
  }

  lemma PostSeededKeepsBook(l: Ledger, log: seq<LogItem>, p: Payload, now: int, fault: Fault)
    requires BookInv(l, log) && Full(l.accounts, l.chart)
    ensures BookInv(PostSeeded(l, p, now, fault).0, if Commits(l, p, fault) then log + [LogItem(p, now)] else log)
  {
    PostSeededCases(l, p, now, fault);
    var l' := PostSeeded(l, p, now, fault).0;
    if Commits(l, p, fault) {
      CommitPathKeepsBook(l, log, p, now, fault);
      BookInvFrame(Commit(Identify(l, p), p, now), l', log + [LogItem(p, now)]);
    } else {
      BookInvFrame(l, l', log);
    }
  }

  lemma PostSeededKeepsCurrencies(l: Ledger, p: Payload, now: int, fault: Fault)
    ensures forall c :: CurrencyOf(PostSeeded(l, p, now, fault).0.accounts, c) == CurrencyOf(l.accounts, c)
  {
    PostSeededCases(l, p, now, fault);
  }

  /** The first posting call whose seeding reaches an account, accepted or not, fixes the account's currency for good. */
  lemma CurrencyFixedByFirstCall(l: Ledger, p: Payload, now: int, fault: Fault, i: nat)
    requires SeedState(l) && i < |l.chart|
    ensures CurrencyOf(Post(l, p, now, fault).0.accounts, l.chart[i].code)
         == SeededCurrency(l.accounts, l.chart[i].code, i < ReachOf(fault, |l.chart|), p.currency)
  {
    SeedingCurrencies(l, p.currency, ReachOf(fault, |l.chart|));
    if !SeedingFails(l, p, fault) {
      SeedingCurrencies(l, p.currency, |l.chart|);
      assert l.chart[..|l.chart|] == l.chart;
      PostSeededKeepsCurrencies(SeedChart(l, p.currency), p, now, fault);
    }
  }

  /** A duplicate or a validation failure changes nothing but what the chart still lacked. */
  lemma RejectedCallChangesNothing(l: Ledger, p: Payload, now: int, fault: Fault)
    requires SeedState(l)
    requires var r := Post(l, p, now, fault).1; r.Duplicate? || (r.Failed? && r.code != Internal)
    ensures var l' := Post(l, p, now, fault).0;
      && l' == l.(accounts := l'.accounts, seededCurrency := Some(p.currency))
      && Filled(l'.accounts, l.accounts, l.chart, p.currency)
      && (Full(l.accounts, l.chart) ==> l'.accounts == l.accounts)
  {
    SeedChartEffect(l, p.currency);
    PostSeededCases(SeedChart(l, p.currency), p, now, fault);
    NotInternal(SeedChart(l, p.currency), p, now, fault);
  }

  lemma NotInternal(l: Ledger, p: Payload, now: int, fault: Fault)
    requires !PostSeeded(l, p, now, fault).1.Posted? && PostSeeded(l, p, now, fault).1 != Failed(Internal)
    ensures PostSeeded(l, p, now, fault).0 == l
  {}

  // ---------------------------------------------------------------- the accounting equation

  function DebitNormalTotal(chart: seq<ChartAccount>, accounts: map<string, Account>): int
    requires forall i :: 0 <= i < |chart| ==> chart[i].code in accounts
  {
    if chart == [] then 0
    else
      var a := accounts[chart[|chart| - 1].code];
      DebitNormalTotal(chart[..|chart| - 1], accounts) + if IsDebitNormal(a.kind) then a.balance else 0
  }

  function CreditNormalTotal(chart: seq<ChartAccount>, accounts: map<string, Account>): int
    requires forall i :: 0 <= i < |chart| ==> chart[i].code in accounts
  {
    if chart == [] then 0
    else
      var a := accounts[chart[|chart| - 1].code];
      CreditNormalTotal(chart[..|chart| - 1], accounts) + if IsDebitNormal(a.kind) then 0 else a.balance
  }

  lemma {:induction false} TotalsDifferByNet(chart: seq<ChartAccount>, accounts: map<string, Account>, journal: seq<Row>)
    requires forall i :: 0 <= i < |chart| ==> chart[i].code in accounts
    requires BalancesDerived(accounts, journal)
    ensures DebitNormalTotal(chart, accounts) - CreditNormalTotal(chart, accounts) == NetOver(chart, journal)
  {
    if chart != [] {
      TotalsDifferByNet(chart[..|chart| - 1], accounts, journal);
    }
  }

  lemma {:induction false} JournalBalanced(log: seq<LogItem>, accounts: map<string, Account>)
    requires LogOk(log, accounts)
    ensures DebitTotal(JournalOf(log)) == CreditTotal(JournalOf(log))
  {
    if log != [] {
      var init, it := log[..|log| - 1], log[|log| - 1];
      JournalBalanced(init, accounts);
      SumsAppend(JournalOf(init), RowsOf(it.payload, it.at), "");
      SumsIgnoreTime(RowsOf(it.payload, it.at), RowsOf(it.payload, 0), "");
      assert ShapeError(log[|log| - 1].payload).None?;
    }
  }

  ghost predicate RowOk(accounts: map<string, Account>, r: Row) {
    (r.direction == Debit || r.direction == Credit) && r.code in accounts
  }

  lemma {:induction false} JournalRowsOk(log: seq<LogItem>, accounts: map<string, Account>)
    requires LogOk(log, accounts)
    ensures forall i :: 0 <= i < |JournalOf(log)| ==> RowOk(accounts, JournalOf(log)[i])
  {
    if log != [] {
      var init, it := log[..|log| - 1], log[|log| - 1];
      JournalRowsOk(init, accounts);
      assert ShapeError(log[|log| - 1].payload).None?;
      forall j | 0 <= j < |it.payload.entries|
        ensures RowOk(accounts, RowsOf(it.payload, it.at)[j])
      {
        assert EntryShapeOk(it.payload.entries[j]) && LegHeld(accounts, it.payload.entries[j], it.payload.currency);
      }
    }
  }

  /** What trialBalance reports in its `balanced` field. */
  ghost predicate TrialBalanced(l: Ledger) {
    && DebitTotal(l.journal) == CreditTotal(l.journal)
    && forall c :: c in l.accounts ==> l.accounts[c].balance == OnNormalSide(l.accounts[c].kind, Net(l.journal, c))
  }

  /**
   * Assets plus expenses equal liabilities plus equity plus revenue, and the trial balance says so.
   * While seeding is incomplete nothing was posted.
   */
  lemma AccountingEquation(l: Ledger, log: seq<LogItem>)
    requires BookInv(l, log)
    ensures TrialBalanced(l)
    ensures if Full(l.accounts, l.chart) then DebitNormalTotal(l.chart, l.accounts) == CreditNormalTotal(l.chart, l.accounts)
            else l.journal == [] && l.posted == map[]
  {
    JournalBalanced(log, l.accounts);
    if Full(l.accounts, l.chart) {
      TotalsAgree(l.chart, l.accounts, log);
    } else {
      NothingRegistered(l.posted, log);
    }
  }

  lemma NothingRegistered(posted: map<string, PostedTx>, log: seq<LogItem>)
    requires Registry(posted, log) && log == []
    ensures posted == map[]
  {
    assert forall tx :: tx in posted ==> InLog(log, tx);
  }

  lemma {:induction false} TotalsAgree(chart: seq<ChartAccount>, accounts: map<string, Account>, log: seq<LogItem>)
    requires DistinctCodes(chart) && FromChart(accounts, chart) && Full(accounts, chart)
    requires LogOk(log, accounts) && BalancesDerived(accounts, JournalOf(log))
    ensures DebitNormalTotal(chart, accounts) == CreditNormalTotal(chart, accounts)
  {
    var journal := JournalOf(log);
    JournalBalanced(log, accounts);
    JournalRowsOk(log, accounts);
    assert forall i :: 0 <= i < |journal| ==> RowOk(accounts, journal[i]);
    ExchangeSums(chart, journal);
    TotalsDifferByNet(chart, accounts, journal);
  }

  // ---------------------------------------------------------------- event ids and number range

  /** An event id determines both the merchant and the transaction. */
  lemma EventIdInjective(m1: int, t1: string, m2: int, t2: string)
    requires EventId(m1, t1) == EventId(m2, t2)
    ensures m1 == m2 && t1 == t2
  {
    var x, y := EVENT_KIND + t1, EVENT_KIND + t2;
    var u, v := Decimal(m1) + [':'] + x, Decimal(m2) + [':'] + y;
    assert u == EventId(m1, t1)[1..] == EventId(m2, t2)[1..] == v;
    SplitAtFirst(Decimal(m1), x, Decimal(m2), y, ':');
    DecimalInjective(m1, m2);
    assert x[|EVENT_KIND|..] == t1 && y[|EVENT_KIND|..] == t2;
  }

  /** Every leg of a well-shaped posting is bounded, so up to 1000 legs sum exactly in a double. */
  lemma {:induction false} SumsStayExact(p: Payload, n: nat)
    requires ShapeOk(p) && n <= |p.entries| && n <= 1000
    ensures 0 <= DebitTotal(RowsOf(p, 0)[..n]) <= n * MAX_AMOUNT_MINOR <= 9_000_000_000_000_000 < 0x20_0000_0000_0000
    ensures 0 <= CreditTotal(RowsOf(p, 0)[..n]) <= n * MAX_AMOUNT_MINOR
  {
    if n > 0 {
      SumsStayExact(p, n - 1);
      assert RowsOf(p, 0)[..n][..n - 1] == RowsOf(p, 0)[..n - 1];
      assert EntryShapeOk(p.entries[n - 1]);
    }
  }
}
