/**
 * Balanced postings with any even number of legs, and what becomes of them: validation sets no
 * upper bound, so all of them are committed, while D1 batches hold 98 legs at most.
 */
module WidePostings {
  import opened Common
  import opened Chart
  import opened Journal
  import opened Posting
  import opened AuditMirror
  import opened Outbox
  import opened Protocol
  import opened LedgerTheorems

  const CASH: string := DEFAULT_CHART_OF_ACCOUNTS[0].code
  const EQUITY: string := DEFAULT_CHART_OF_ACCOUNTS[7].code

  const DEBIT_LEG: PostingEntry := PostingEntry(CASH, 1, Debit, "0.01", Whole(1))
  const CREDIT_LEG: PostingEntry := PostingEntry(EQUITY, 2, Credit, "0.01", Whole(1))

  /** k times one minor unit into cash, paid in by the owner. */
  function WideEntries(k: nat): (es: seq<PostingEntry>)
    ensures |es| == 2 * k && forall i :: 0 <= i < |es| ==> es[i] == DEBIT_LEG || es[i] == CREDIT_LEG
  {
    if k == 0 then [] else WideEntries(k - 1) + [DEBIT_LEG, CREDIT_LEG]
  }

  function WidePayload(tx: string, merchantId: int, currency: string, k: nat): Payload {
    Payload(tx, merchantId, currency, WideEntries(k))
  }

  lemma CodesDiffer()
    ensures CASH != EQUITY && CASH != "" && EQUITY != ""
  {
    assert CASH[0] == '1' && EQUITY[0] == '3';
  }

  ghost predicate SumsTo(rows: seq<Row>, k: int) {
    DebitTotal(rows) == k && CreditTotal(rows) == k && Net(rows, CASH) == k && Net(rows, EQUITY) == -k
  }

  lemma {:induction false} WideSums(tx: string, merchantId: int, currency: string, k: nat)
    ensures SumsTo(RowsOf(WidePayload(tx, merchantId, currency, k), 0), k)
  {
    if k > 0 {
      var p, q := WidePayload(tx, merchantId, currency, k), WidePayload(tx, merchantId, currency, k - 1);
      var d, c := RowOf(p, DEBIT_LEG, 0), RowOf(p, CREDIT_LEG, 0);
      assert RowsOf(p, 0) == RowsOf(q, 0) + [d] + [c];
      WideSums(tx, merchantId, currency, k - 1);
      PairSums(RowsOf(q, 0), d, c, k - 1);
    }
  }

  lemma PairSums(rows: seq<Row>, d: Row, c: Row, k: int)
    requires SumsTo(rows, k)
    requires d.code == CASH && d.direction == Debit && d.amountMinor == 1 && c.code == EQUITY && c.direction == Credit && c.amountMinor == 1
    ensures SumsTo(rows + [d] + [c], k + 1)
  {
    CodesDiffer();
    PushSums(rows, d);
    PushSums(rows + [d], c);
  }

  lemma {:induction false} PushSums(rows: seq<Row>, r: Row)
    ensures DebitTotal(rows + [r]) == DebitTotal(rows) + if r.direction == Debit then r.amountMinor else 0
    ensures CreditTotal(rows + [r]) == CreditTotal(rows) + if r.direction == Credit then r.amountMinor else 0
    ensures forall code :: Net(rows + [r], code) == Net(rows, code) + if r.code == code then Signed(r) else 0
  {
    assert (rows + [r])[..|rows|] == rows;
  }

  lemma {:induction false} KnownLegs(accounts: map<string, Account>, es: seq<PostingEntry>, currency: string)
    requires forall i :: 0 <= i < |es| ==> EntryError(accounts, es[i], currency).None?
    ensures FirstEntryError(accounts, es, currency).None?
  {
    if es != [] {
      KnownLegs(accounts, es[..|es| - 1], currency);
    }
  }

  lemma WideShape(tx: string, merchantId: int, currency: string, k: nat)
    requires tx != "" && k > 0
    ensures ShapeError(WidePayload(tx, merchantId, currency, k)).None?
  {
    CodesDiffer();
    WideSums(tx, merchantId, currency, k);
    assert EntryShapeOk(DEBIT_LEG) && EntryShapeOk(CREDIT_LEG);
  }

  lemma WideBalances(accounts: map<string, Account>, tx: string, merchantId: int, currency: string, k: nat)
    requires Filled(accounts, map[], DEFAULT_CHART_OF_ACCOUNTS, currency)
    ensures BalanceError(accounts, WidePayload(tx, merchantId, currency, k)).None?
  {
    var p, chart := WidePayload(tx, merchantId, currency, k), DEFAULT_CHART_OF_ACCOUNTS;
    assert chart[0].code == CASH && chart[7].code == EQUITY;
    assert EntryFilled(accounts, map[], chart[0], currency) && EntryFilled(accounts, map[], chart[7], currency);
    assert accounts[chart[0].code].kind == Asset && accounts[chart[7].code].kind == Equity;
    WideSums(tx, merchantId, currency, k);
    KnownLegs(accounts, p.entries, currency);
    forall i | 0 <= i < |p.entries|
      ensures !Overdraws(accounts, p, p.entries[i])
    {
      assert p.entries[i].accountCode == CASH || p.entries[i].accountCode == EQUITY;
    }
  }

  /** In a new ledger every such posting passes all checks, however many legs it has. */
  lemma WidePostingCommits(nameId: Option<int>, t0: int, p: Payload, k: nat, fault: Fault)
    requires p == WidePayload(p.txId, p.merchantId, p.currency, k) && p.txId != "" && k > 0 && (fault == NoFault || fault == AfterCommit)
    ensures CommitsIn(EmptyLedger(nameId, t0), p, fault)
  {
    var l := EmptyLedger(nameId, t0);
    DefaultChartDistinct();
    SeedingFills(map[], l.chart, p.currency);
    WideShape(p.txId, p.merchantId, p.currency, k);
    WideBalances(SeedChart(l, p.currency).accounts, p.txId, p.merchantId, p.currency, k);
  }

  /** A posting of 100 legs or more of this kind is posted, and then no events whatever get it mirrored. */
  lemma {:induction false} OversizePostingStuck(nameId: Option<int>, t0: int, p: Payload, k: nat, now: int, rest: seq<Event>)
    requires p == WidePayload(p.txId, p.merchantId, p.currency, k) && p.txId != "" && k >= 50
    ensures Answer(Init(nameId, t0), PostCall(p, now, NoFault)) == Posted(now)
    ensures var s := Run(Init(nameId, t0), [PostCall(p, now, NoFault)] + rest);
      Absent(s.mirror, p.txId) && PendingFor(s.l.outbox, LogItem(p, now))
  {
    var s0, e := Init(nameId, t0), PostCall(p, now, NoFault);
    WidePostingCommits(nameId, t0, p, k, NoFault);
    PostSeededCases(SeedChart(s0.l, p.currency), p, now, NoFault);
    CommitIsLogged(s0, e, rest);
    OversizeNeverMirrored(nameId, t0, [e] + rest, LogItem(p, now));
  }

  lemma {:induction false} CommitIsLogged(s: System, e: Event, rest: seq<Event>)
    requires e.PostCall? && CommitsIn(s.l, e.payload, e.fault)
    ensures LogItem(e.payload, e.now) in Run(s, [e] + rest).log
  {
    assert ([e] + rest)[..0] == [] && ([e] + rest)[1..] == rest;
    RunSplit(s, [e] + rest, 0);
    LogGrows(Step(s, e), rest);
    var log := Step(s, e).log;
    assert log[|s.log|] == LogItem(e.payload, e.now);
    assert Run(Step(s, e), rest).log[|s.log|] == log[|s.log|];
  }
}
