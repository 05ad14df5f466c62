/**
 * The rules a posting obeys, account kind by account kind: when it is refused and what it does to
 * each balance.  Nothing here refers to the sign convention the program computes with.
 */
module PostingRules {
  import opened Common
  import opened Chart
  import opened Journal
  import opened Posting

  /** Minor units debited to an account. */
  function DebitsOn(rows: seq<Row>, code: string): int {
    if rows == [] then 0
    else
      var r := rows[|rows| - 1];
      DebitsOn(rows[..|rows| - 1], code) + if r.code == code && r.direction == Debit then r.amountMinor else 0
  }

  /** Minor units credited to an account; whatever is not a debit is a credit. */
  function CreditsOn(rows: seq<Row>, code: string): int {
    if rows == [] then 0
    else
      var r := rows[|rows| - 1];
      CreditsOn(rows[..|rows| - 1], code) + if r.code == code && r.direction != Debit then r.amountMinor else 0
  }

  /** What debits and credits come to on an account of a kind. */
  function Movement(kind: AccountType, debits: int, credits: int): int {
    match kind
    case Asset => debits - credits
    case Expense => debits - credits
    case Liability => credits - debits
    case Equity => credits - debits
    case Revenue => credits - debits
  }

  /** The balance an account has after a posting. */
  function BalanceAfter(a: Account, p: Payload, code: string): int {
    a.balance + Movement(a.kind, DebitsOn(RowsOf(p, 0), code), CreditsOn(RowsOf(p, 0), code))
  }

  lemma {:induction false} NetIsDebitsLessCredits(rows: seq<Row>, code: string)
    ensures Net(rows, code) == DebitsOn(rows, code) - CreditsOn(rows, code)
  {
    if rows != [] {
      NetIsDebitsLessCredits(rows[..|rows| - 1], code);
    }
  }

  lemma DeltaByKind(accounts: map<string, Account>, p: Payload, code: string)
    requires code in accounts
    ensures accounts[code].balance + Delta(accounts, p, code) == BalanceAfter(accounts[code], p, code)
  {
    NetIsDebitsLessCredits(RowsOf(p, 0), code);
  }

  // ---------------------------------------------------------------- when a posting is refused

  ghost predicate BadLeg(e: PostingEntry) {
    || (e.direction != Debit && e.direction != Credit)
    || e.amountMinor == NotInteger || e.amountMinor.minor <= 0 || e.amountMinor.minor > 9_000_000_000_000
    || e.accountCode == ""
  }

  ghost predicate BadShape(p: Payload) {
    p.txId == "" || |p.entries| < 2 || exists i :: 0 <= i < |p.entries| && BadLeg(p.entries[i])
  }

  /** Minor units on one side of a posting. */
  function SideTotal(es: seq<PostingEntry>, side: Direction): int {
    if es == [] then 0
    else
      var e := es[|es| - 1];
      SideTotal(es[..|es| - 1], side) + if e.direction == side && e.amountMinor.Whole? then e.amountMinor.minor else 0
  }

  lemma {:induction false} TotalsOfLegs(p: Payload, n: nat)
    requires n <= |p.entries|
    ensures DebitTotal(RowsOf(p, 0)[..n]) == SideTotal(p.entries[..n], Debit)
    ensures CreditTotal(RowsOf(p, 0)[..n]) == SideTotal(p.entries[..n], Credit)
  {
    if n > 0 {
      TotalsOfLegs(p, n - 1);
      assert RowsOf(p, 0)[..n][..n - 1] == RowsOf(p, 0)[..n - 1] && p.entries[..n][..n - 1] == p.entries[..n - 1];
    }
  }

  /** INVALID for a bad shape, UNBALANCED for a good one whose sides differ, and nothing else. */
  lemma ShapeErrorIff(p: Payload)
    ensures ShapeError(p) == Some(Invalid) <==> BadShape(p)
    ensures ShapeError(p) == Some(Unbalanced) <==> !BadShape(p) && SideTotal(p.entries, Debit) != SideTotal(p.entries, Credit)
    ensures ShapeError(p).None? <==> !BadShape(p) && SideTotal(p.entries, Debit) == SideTotal(p.entries, Credit)
  {
    TotalsOfLegs(p, |p.entries|);
    assert RowsOf(p, 0)[..|p.entries|] == RowsOf(p, 0) && p.entries[..|p.entries|] == p.entries;
    forall i | 0 <= i < |p.entries|
      ensures EntryShapeOk(p.entries[i]) <==> !BadLeg(p.entries[i])
    {}
  }

  /** Every leg up to the n-th names an account in the posting's currency. */
  ghost predicate LegsHeld(accounts: map<string, Account>, p: Payload, n: nat)
    requires n <= |p.entries|
  {
    forall i :: 0 <= i < n ==> p.entries[i].accountCode in accounts && accounts[p.entries[i].accountCode].currency == p.currency
  }

  /** A touched account would go below zero. */
  ghost predicate SomeOverdraft(accounts: map<string, Account>, p: Payload) {
    exists i :: 0 <= i < |p.entries| && p.entries[i].accountCode in accounts
                && BalanceAfter(accounts[p.entries[i].accountCode], p, p.entries[i].accountCode) < 0
  }

  /** The first leg that is refused names no account, or one in another currency. */
  ghost predicate RefusedLeg(accounts: map<string, Account>, p: Payload, i: nat, error: ErrorCode) {
    && i < |p.entries| && LegsHeld(accounts, p, i)
    && if p.entries[i].accountCode in accounts
       then accounts[p.entries[i].accountCode].currency != p.currency && error == CurrencyMismatch
       else error == UnknownAccount
  }

  lemma {:induction false} FirstRefusal(accounts: map<string, Account>, p: Payload, n: nat)
    requires n <= |p.entries|
    ensures var e := FirstEntryError(accounts, p.entries[..n], p.currency);
      if e.None? then LegsHeld(accounts, p, n) else exists i :: 0 <= i < n && RefusedLeg(accounts, p, i, e.value)
  {
    if n > 0 {
      FirstRefusal(accounts, p, n - 1);
      assert p.entries[..n][..n - 1] == p.entries[..n - 1];
      var e := FirstEntryError(accounts, p.entries[..n], p.currency);
      if FirstEntryError(accounts, p.entries[..n - 1], p.currency).None? && e.Some? {
        assert RefusedLeg(accounts, p, n - 1, e.value);
      }
    }
  }

  lemma OverdraftIff(accounts: map<string, Account>, p: Payload)
    ensures (exists i :: 0 <= i < |p.entries| && Overdraws(accounts, p, p.entries[i])) <==> SomeOverdraft(accounts, p)
  {
    forall i | 0 <= i < |p.entries| && p.entries[i].accountCode in accounts
      ensures Overdraws(accounts, p, p.entries[i]) <==> BalanceAfter(accounts[p.entries[i].accountCode], p, p.entries[i].accountCode) < 0
    {
      DeltaByKind(accounts, p, p.entries[i].accountCode);
    }
  }

  /**
   * The balance check passes if and only if every leg names an account in the posting's currency and
   * no touched account goes below zero; otherwise it names the first refused leg's error, or
   * INSUFFICIENT_FUNDS if there is none.
   */
  lemma BalanceErrorIff(accounts: map<string, Account>, p: Payload)
    ensures var e := BalanceError(accounts, p);
      && (e.None? <==> LegsHeld(accounts, p, |p.entries|) && !SomeOverdraft(accounts, p))
      && (e == Some(InsufficientFunds) <==> LegsHeld(accounts, p, |p.entries|) && SomeOverdraft(accounts, p))
      && (e.Some? && e.value != InsufficientFunds ==> exists i :: 0 <= i < |p.entries| && RefusedLeg(accounts, p, i, e.value))
  {
    FirstRefusal(accounts, p, |p.entries|);
    FirstEntryErrorKind(accounts, p.entries, p.currency);
    assert p.entries[..|p.entries|] == p.entries;
    OverdraftIff(accounts, p);
  }

  // ---------------------------------------------------------------- what a posting does

  /** Each account moves by its own debits and credits, and keeps kind and currency. */
  ghost predicate Moved(accounts: map<string, Account>, accounts': map<string, Account>, p: Payload) {
    accounts'.Keys == accounts.Keys
    && forall c :: c in accounts ==> accounts'[c] == Account(accounts[c].kind, accounts[c].currency, BalanceAfter(accounts[c], p, c))
  }

  /** The journal row of a leg. */
  ghost predicate IsRowOf(r: Row, p: Payload, e: PostingEntry, at: int) {
    && r.txId == p.txId && r.code == e.accountCode && r.direction == e.direction && r.postedAt == at
    && (e.amountMinor.Whole? ==> r.amountMinor == e.amountMinor.minor)
  }

  /** Registry, journal, balances and outbox row of one commit. */
  ghost predicate Committed(l: Ledger, l': Ledger, p: Payload, at: int) {
    && l'.posted == l.posted[p.txId := PostedTx(p.currency, at)]
    && |l'.journal| == |l.journal| + |p.entries| && l'.journal[..|l.journal|] == l.journal
    && (forall i :: 0 <= i < |p.entries| ==> IsRowOf(l'.journal[|l.journal| + i], p, p.entries[i], at))
    && Moved(l.accounts, l'.accounts, p)
    && |l'.outbox| == |l.outbox| + 1 && l'.outbox[..|l.outbox|] == l.outbox
    && var r := l'.outbox[|l.outbox|];
      && r.id == l.nextId && l'.nextId == l.nextId + 1 && r.payload == p && r.postedAt == at
      && r.status == Pending && r.retryCount == 0 && r.nextRetryAt == None
      && (p.merchantId > 0 ==> r.eventId == "m" + Decimal(p.merchantId) + ":posting:" + p.txId)
  }

  lemma EventIdReads(merchantId: int, txId: string)
    ensures EventId(merchantId, txId) == "m" + Decimal(merchantId) + ":posting:" + txId
  {
    assert [':'] + (EVENT_KIND + txId) == ":posting:" + txId;
  }

  lemma AppliedMoves(accounts: map<string, Account>, p: Payload)
    ensures Moved(accounts, ApplyDeltas(accounts, p), p)
  {
    var accounts' := ApplyDeltas(accounts, p);
    forall c | c in accounts
      ensures accounts'[c] == Account(accounts[c].kind, accounts[c].currency, BalanceAfter(accounts[c], p, c))
    {
      DeltaByKind(accounts, p, c);
    }
  }

  lemma RowsCommitted(journal: seq<Row>, journal': seq<Row>, p: Payload, at: int)
    requires journal' == journal + RowsOf(p, at)
    ensures |journal'| == |journal| + |p.entries| && journal'[..|journal|] == journal
    ensures forall i :: 0 <= i < |p.entries| ==> IsRowOf(journal'[|journal| + i], p, p.entries[i], at)
  {
    forall i | 0 <= i < |p.entries|
      ensures IsRowOf(journal'[|journal| + i], p, p.entries[i], at)
    {
      assert journal'[|journal| + i] == RowsOf(p, at)[i];
    }
  }

  lemma CommitIsCommitted(l: Ledger, l': Ledger, p: Payload, at: int)
    requires l' == Commit(l, p, at).(alarm := l'.alarm)
    requires p.merchantId > 0 ==> l.merchantId == Some(p.merchantId)
    ensures Committed(l, l', p, at)
  {
    AppliedMoves(l.accounts, p);
    EventIdReads(p.merchantId, p.txId);
    RowsCommitted(l.journal, l'.journal, p, at);
  }

  lemma CommittedFrame(l: Ledger, l0: Ledger, l': Ledger, p: Payload, at: int)
    requires Committed(l0, l', p, at) && l0 == l.(merchantId := l0.merchantId)
    ensures Committed(l, l', p, at)
  {}

  /** A call that commits does all of it to the seeded book, and nothing else to the book. */
  lemma CommitEffect(l: Ledger, p: Payload, now: int, fault: Fault)
    requires CommitsIn(l, p, fault)
    ensures var l' := Post(l, p, now, fault).0; Committed(SeedChart(l, p.currency), l', p, now) && l'.chart == l.chart
    ensures Post(l, p, now, fault).1 == if fault == AfterCommit then Failed(Internal) else Posted(now)
  {
    var l1 := SeedChart(l, p.currency);
    var l' := Post(l, p, now, fault).0;
    PostSeededCases(l1, p, now, fault);
    CommitIsCommitted(Identify(l1, p), l', p, now);
    CommittedFrame(l1, Identify(l1, p), l', p, now);
  }

  // ---------------------------------------------------------------- the accounting equation

  /** Sum of the balances of all accounts of a kind. */
  function KindTotal(chart: seq<ChartAccount>, accounts: map<string, Account>, kind: AccountType): int
    requires forall i :: 0 <= i < |chart| ==> chart[i].code in accounts
  {
    if chart == [] then 0
    else
      var a := accounts[chart[|chart| - 1].code];
      KindTotal(chart[..|chart| - 1], accounts, kind) + if a.kind == kind then a.balance else 0
  }

  lemma {:induction false} TotalsByKind(chart: seq<ChartAccount>, accounts: map<string, Account>)
    requires forall i :: 0 <= i < |chart| ==> chart[i].code in accounts
    ensures DebitNormalTotal(chart, accounts) == KindTotal(chart, accounts, Asset) + KindTotal(chart, accounts, Expense)
    ensures CreditNormalTotal(chart, accounts)
         == KindTotal(chart, accounts, Liability) + KindTotal(chart, accounts, Equity) + KindTotal(chart, accounts, Revenue)
  {
    if chart != [] {
      TotalsByKind(chart[..|chart| - 1], accounts);
    }
  }

  /** Every balance is what the journal says, kind by kind. */
  ghost predicate DerivedByKind(accounts: map<string, Account>, journal: seq<Row>) {
    forall c :: c in accounts ==> accounts[c].balance == Movement(accounts[c].kind, DebitsOn(journal, c), CreditsOn(journal, c))
  }

  lemma BalancesByKind(accounts: map<string, Account>, journal: seq<Row>)
    requires BalancesDerived(accounts, journal)
    ensures DerivedByKind(accounts, journal)
  {
    forall c | c in accounts
      ensures accounts[c].balance == Movement(accounts[c].kind, DebitsOn(journal, c), CreditsOn(journal, c))
    {
      NetIsDebitsLessCredits(journal, c);
    }
  }

  /** Assets and expenses equal liabilities, equity and revenue, in every seeded book that replays its log. */
  lemma EquationByKind(l: Ledger, log: seq<LogItem>)
    requires BookInv(l, log)
    ensures DerivedByKind(l.accounts, l.journal)
    ensures Full(l.accounts, l.chart) ==>
      KindTotal(l.chart, l.accounts, Asset) + KindTotal(l.chart, l.accounts, Expense)
      == KindTotal(l.chart, l.accounts, Liability) + KindTotal(l.chart, l.accounts, Equity) + KindTotal(l.chart, l.accounts, Revenue)
  {
    BalancesByKind(l.accounts, l.journal);
    AccountingEquation(l, log);
    if Full(l.accounts, l.chart) {
      TotalsByKind(l.chart, l.accounts);
    }
  }
}
