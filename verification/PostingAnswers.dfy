/**
 * What the caller of a posting is told, in every reachable state, and one posting in full: a payment
 * with a gateway fee (src/services/ledger.ts postPaymentLedgerEntry) on a new ledger.
 */
module PostingAnswers {
  import opened Common
  import opened Chart
  import opened Journal
  import opened Posting
  import opened PostingRules
  import opened Outbox
  import opened Protocol
  import opened LedgerTheorems

  /** The call got past its seeding. */
  predicate Seeded(l: Ledger, p: Payload, fault: Fault) {
    !(fault.DuringSeeding? && l.seededCurrency != Some(p.currency))
  }

  /** Well shaped, balanced, and not posted before. */
  ghost predicate New(l: Ledger, p: Payload) {
    !BadShape(p) && SideTotal(p.entries, Debit) == SideTotal(p.entries, Credit) && p.txId !in l.posted
  }

  /** Every answer of a posting call, as the rules decide it. */
  ghost predicate AnswerIs(l: Ledger, accounts: map<string, Account>, p: Payload, now: int, fault: Fault, answer: PostResult) {
    var held, short := LegsHeld(accounts, p, |p.entries|), SomeOverdraft(accounts, p);
    && (answer == Posted(now) <==> Seeded(l, p, fault) && New(l, p) && held && !short && fault != BeforeCommit && fault != AfterCommit)
    && (answer.Posted? ==> answer.at == now)
    && (answer.Duplicate? <==>
          Seeded(l, p, fault) && !BadShape(p) && SideTotal(p.entries, Debit) == SideTotal(p.entries, Credit) && p.txId in l.posted)
    && (answer.Duplicate? ==> p.txId in l.posted && answer.at == l.posted[p.txId].postedAt)
    && (answer == Failed(Invalid) <==> Seeded(l, p, fault) && BadShape(p))
    && (answer == Failed(Unbalanced) <==>
          Seeded(l, p, fault) && !BadShape(p) && SideTotal(p.entries, Debit) != SideTotal(p.entries, Credit))
    && (answer == Failed(InsufficientFunds) <==> Seeded(l, p, fault) && New(l, p) && held && short)
    && (answer == Failed(UnknownAccount) || answer == Failed(CurrencyMismatch) ==>
          exists i :: 0 <= i < |p.entries| && RefusedLeg(accounts, p, i, answer.code))
    && (answer == Failed(Internal) <==>
          !Seeded(l, p, fault) || (New(l, p) && held && !short && (fault == BeforeCommit || fault == AfterCommit)))
  }

  /** In every reachable state the answer is decided by the payload, the seeded accounts and where the call fails. */
  lemma {:induction false} AnswerDecided(nameId: Option<int>, t0: int, events: seq<Event>, p: Payload, now: int, fault: Fault)
    ensures var l := Run(Init(nameId, t0), events).l;
      AnswerIs(l, SeedChart(l, p.currency).accounts, p, now, fault, Post(l, p, now, fault).1)
  {
    RunInv(nameId, t0, events);
    StateDecides(Run(Init(nameId, t0), events), p, now, fault);
  }

  lemma StateDecides(s: System, p: Payload, now: int, fault: Fault)
    requires OutboxInv(s.l.outbox, s.l.nextId, s.log, s.mirror) && Registry(s.l.posted, s.log)
    ensures AnswerIs(s.l, SeedChart(s.l, p.currency).accounts, p, now, fault, Post(s.l, p, now, fault).1)
  {
    var l1 := SeedChart(s.l, p.currency);
    FreshCommitNeverAborts(s, p, fault);
    FreshCommitNeverAborts(s, p, NoFault);
    PostSeededCases(l1, p, now, fault);
    ShapeErrorIff(p);
    BalanceErrorIff(l1.accounts, p);
    FirstEntryErrorKind(l1.accounts, p.entries, p.currency);
  }

  // ---------------------------------------------------------------- a payment with a fee

  /** Gateway clearing receives the amount and pays the fee; both are whole minor units. */
  function FeeEntries(amount: int, fee: int, ids: seq<int>, texts: seq<string>): seq<PostingEntry>
    requires |ids| == 3 && |texts| == 2
  {
    [PostingEntry("1010", ids[0], Debit, texts[0], Whole(amount)),
     PostingEntry("4000", ids[1], Credit, texts[0], Whole(amount)),
     PostingEntry("5000", ids[2], Debit, texts[1], Whole(fee)),
     PostingEntry("1010", ids[0], Credit, texts[1], Whole(fee))]
  }

  lemma FourSlices<T>(x: seq<T>)
    requires |x| == 4
    ensures x[..3][..2] == x[..2] && x[..2][..1] == x[..1] && x[..1][..0] == []
    ensures x[..4] == x
  {}

  lemma CodesApart()
    ensures "1010" != "4000" && "1010" != "5000" && "4000" != "5000"
  {
    assert "1010"[0] == '1' && "4000"[0] == '4' && "5000"[0] == '5';
  }

  lemma {:induction false} FourLegs(es: seq<PostingEntry>, side: Direction)
    requires |es| == 4
    ensures SideTotal(es, side) == SideTotal(es[..1], side) + SideTotal(es[1..2], side) + SideTotal(es[2..3], side) + SideTotal(es[3..], side)
  {
    FourSlices(es);
    assert es[1..2][..0] == [] && es[2..3][..0] == [] && es[3..][..0] == [];
    assert SideTotal(es[..3], side) == SideTotal(es[..2], side) + SideTotal(es[2..3], side);
  }

  lemma {:induction false} FourRows(rows: seq<Row>, code: string)
    requires |rows| == 4
    ensures DebitsOn(rows, code) == DebitsOn(rows[..1], code) + DebitsOn(rows[1..2], code) + DebitsOn(rows[2..3], code) + DebitsOn(rows[3..], code)
    ensures CreditsOn(rows, code) == CreditsOn(rows[..1], code) + CreditsOn(rows[1..2], code) + CreditsOn(rows[2..3], code) + CreditsOn(rows[3..], code)
  {
    FourSlices(rows);
    assert rows[1..2][..0] == [] && rows[2..3][..0] == [] && rows[3..][..0] == [];
    assert DebitsOn(rows[..3], code) == DebitsOn(rows[..2], code) + DebitsOn(rows[2..3], code);
    assert CreditsOn(rows[..3], code) == CreditsOn(rows[..2], code) + CreditsOn(rows[2..3], code);
  }

  lemma {:induction false} FeeSums(p: Payload, amount: int, fee: int, ids: seq<int>, texts: seq<string>, code: string)
    requires |ids| == 3 && |texts| == 2 && p.entries == FeeEntries(amount, fee, ids, texts)
    ensures SideTotal(p.entries, Debit) == amount + fee == SideTotal(p.entries, Credit)
    ensures DebitsOn(RowsOf(p, 0), code) == if code == "1010" then amount else if code == "5000" then fee else 0
    ensures CreditsOn(RowsOf(p, 0), code) == if code == "4000" then amount else if code == "1010" then fee else 0
  {
    CodesApart();
    FourLegs(p.entries, Debit);
    FourLegs(p.entries, Credit);
    FourRows(RowsOf(p, 0), code);
  }

  /** What a new ledger holds for a chart account once it is seeded. */
  lemma SeededAccount(l: Ledger, currency: string, i: nat)
    requires l.chart == DEFAULT_CHART_OF_ACCOUNTS && l.accounts == map[] && l.seededCurrency == None && i < |l.chart|
    ensures var accounts := SeedChart(l, currency).accounts; var a := l.chart[i];
      a.code in accounts && accounts[a.code] == Account(a.kind, currency, 0)
  {
    DefaultChartDistinct();
    SeedingFills(map[], l.chart, currency);
    assert EntryFilled(SeedChart(l, currency).accounts, map[], l.chart[i], currency);
  }

  lemma SeededAtZero(l: Ledger, currency: string)
    requires l.chart == DEFAULT_CHART_OF_ACCOUNTS && l.accounts == map[] && l.seededCurrency == None
    ensures forall c :: c in SeedChart(l, currency).accounts ==> SeedChart(l, currency).accounts[c].balance == 0
  {
    DefaultChartDistinct();
    var accounts := SeedChart(l, currency).accounts;
    SeedingFills(map[], l.chart, currency);
    forall c | c in accounts
      ensures accounts[c].balance == 0
    {
      var i :| 0 <= i < |l.chart| && l.chart[i].code == c;
      SeededAccount(l, currency, i);
    }
  }

  /** The balances a payment with a fee leaves in a new ledger. */
  ghost predicate FeeBalances(accounts: map<string, Account>, currency: string, amount: int, fee: int) {
    && "1010" in accounts && accounts["1010"] == Account(Asset, currency, amount - fee)
    && "4000" in accounts && accounts["4000"] == Account(Revenue, currency, amount)
    && "5000" in accounts && accounts["5000"] == Account(Expense, currency, fee)
    && forall c :: c in accounts && c != "1010" && c != "4000" && c != "5000" ==> accounts[c].balance == 0
  }

  lemma FeeMoves(accounts: map<string, Account>, p: Payload, amount: int, fee: int, ids: seq<int>, texts: seq<string>, c: string)
    requires |ids| == 3 && |texts| == 2 && p.entries == FeeEntries(amount, fee, ids, texts)
    requires c in accounts && accounts[c].balance == 0
    requires c == "1010" ==> accounts[c].kind == Asset
    requires c == "4000" ==> accounts[c].kind == Revenue
    requires c == "5000" ==> accounts[c].kind == Expense
    ensures BalanceAfter(accounts[c], p, c) == if c == "1010" then amount - fee else if c == "4000" then amount else if c == "5000" then fee else 0
  {
    CodesApart();
    FeeSums(p, amount, fee, ids, texts, c);
  }

  lemma FeeShape(p: Payload, amount: int, fee: int, ids: seq<int>, texts: seq<string>)
    requires |ids| == 3 && |texts| == 2 && p.entries == FeeEntries(amount, fee, ids, texts) && p.txId != ""
    requires 0 < amount <= 9_000_000_000_000 && 0 < fee <= 9_000_000_000_000
    ensures !BadShape(p) && SideTotal(p.entries, Debit) == SideTotal(p.entries, Credit)
  {
    FeeSums(p, amount, fee, ids, texts, "");
    forall i | 0 <= i < |p.entries|
      ensures !BadLeg(p.entries[i])
    {}
  }

  /** Clearing, revenue and fee accounts of a new ledger, seeded. */
  ghost predicate FeeAccounts(accounts: map<string, Account>, currency: string) {
    && "1010" in accounts && accounts["1010"] == Account(Asset, currency, 0)
    && "4000" in accounts && accounts["4000"] == Account(Revenue, currency, 0)
    && "5000" in accounts && accounts["5000"] == Account(Expense, currency, 0)
    && forall c :: c in accounts ==> accounts[c].balance == 0
  }

  lemma NewLedgerFeeAccounts(l: Ledger, currency: string)
    requires l.chart == DEFAULT_CHART_OF_ACCOUNTS && l.accounts == map[] && l.seededCurrency == None
    ensures FeeAccounts(SeedChart(l, currency).accounts, currency)
  {
    SeededAccount(l, currency, 1);
    SeededAccount(l, currency, 9);
    SeededAccount(l, currency, 11);
    SeededAtZero(l, currency);
  }

  lemma FeeOverdraft(accounts: map<string, Account>, p: Payload, amount: int, fee: int, ids: seq<int>, texts: seq<string>)
    requires |ids| == 3 && |texts| == 2 && p.entries == FeeEntries(amount, fee, ids, texts)
    requires FeeAccounts(accounts, p.currency) && 0 < amount && 0 < fee
    ensures LegsHeld(accounts, p, |p.entries|) && (SomeOverdraft(accounts, p) <==> fee > amount)
  {
    forall i | 0 <= i < |p.entries|
      ensures p.entries[i].accountCode in accounts && accounts[p.entries[i].accountCode].currency == p.currency
      ensures BalanceAfter(accounts[p.entries[i].accountCode], p, p.entries[i].accountCode) < 0 <==> p.entries[i].accountCode == "1010" && fee > amount
    {
      CodesApart();
      FeeMoves(accounts, p, amount, fee, ids, texts, p.entries[i].accountCode);
    }
    assert p.entries[0].accountCode == "1010";
  }

  /**
   * The first payment of a new ledger, with a fee: posted, with clearing at amount less fee, revenue at
   * the amount and fees at the fee, if and only if the fee is no larger than the amount; otherwise
   * clearing would be overdrawn.
   */
  lemma FeePosting(nameId: Option<int>, t0: int, p: Payload, amount: int, fee: int, ids: seq<int>, texts: seq<string>, now: int)
    requires |ids| == 3 && |texts| == 2 && p.entries == FeeEntries(amount, fee, ids, texts) && p.txId != ""
    requires 0 < amount <= 9_000_000_000_000 && 0 < fee <= 9_000_000_000_000
    ensures var (l', answer) := Post(EmptyLedger(nameId, t0), p, now, NoFault);
      if fee <= amount
      then answer == Posted(now) && FeeBalances(l'.accounts, p.currency, amount, fee) && Committed(SeedChart(EmptyLedger(nameId, t0), p.currency), l', p, now)
      else answer == Failed(InsufficientFunds) && l'.journal == [] && l'.outbox == []
  {
    var l := EmptyLedger(nameId, t0);
    var l1 := SeedChart(l, p.currency);
    NewLedgerFeeAccounts(l, p.currency);
    FeeShape(p, amount, fee, ids, texts);
    FeeOverdraft(l1.accounts, p, amount, fee, ids, texts);
    StateDecides(Init(nameId, t0), p, now, NoFault);
    FeeCommits(nameId, t0, p);
    if fee <= amount {
      CommitEffect(l, p, now, NoFault);
      FeeCommitted(l1.accounts, Post(l, p, now, NoFault).0.accounts, p, amount, fee, ids, texts);
    } else {
      PostSeededCases(l1, p, now, NoFault);
    }
  }

  lemma FeeCommits(nameId: Option<int>, t0: int, p: Payload)
    requires !BadShape(p) && SideTotal(p.entries, Debit) == SideTotal(p.entries, Credit)
    ensures var l := EmptyLedger(nameId, t0); var accounts := SeedChart(l, p.currency).accounts;
      CommitsIn(l, p, NoFault) <==> LegsHeld(accounts, p, |p.entries|) && !SomeOverdraft(accounts, p)
  {
    var s := Init(nameId, t0);
    FreshCommitNeverAborts(s, p, NoFault);
    ShapeErrorIff(p);
    BalanceErrorIff(SeedChart(s.l, p.currency).accounts, p);
  }

  lemma FeeCommitted(
      accounts: map<string, Account>, accounts': map<string, Account>, p: Payload, amount: int, fee: int, ids: seq<int>, texts: seq<string>)
    requires |ids| == 3 && |texts| == 2 && p.entries == FeeEntries(amount, fee, ids, texts)
    requires FeeAccounts(accounts, p.currency) && Moved(accounts, accounts', p)
    ensures FeeBalances(accounts', p.currency, amount, fee)
  {
    CodesApart();
    forall c | c in accounts
      ensures BalanceAfter(accounts[c], p, c) == if c == "1010" then amount - fee else if c == "4000" then amount else if c == "5000" then fee else 0
    {
      FeeMoves(accounts, p, amount, fee, ids, texts, c);
    }
  }
}
