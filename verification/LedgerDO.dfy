/**
 * The ledger object itself, updating its tables in place (src/do/ledger-do.ts).  Each method is
 * proved to do exactly what the value-level functions of Posting, Outbox and Delivery say, so the
 * theorems about runs of those functions are theorems about runs of this object.
 */
module LedgerObject {
  import opened Common
  import opened Chart
  import opened Journal
  import opened Posting
  import opened PostingRules
  import opened Outbox
  import opened OutboxRules
  import opened Protocol
  import opened Delivery

  class LedgerDO {
    const nameId: Option<int>
    const chart: seq<ChartAccount> := DEFAULT_CHART_OF_ACCOUNTS
    var accounts: map<string, Account>
    var posted: map<string, PostedTx>
    var journal: seq<Row>
    var outbox: seq<OutboxRow>
    var nextId: nat
    var alarm: Option<int>
    var lastSnapshotAt: int
    var lastCleanupAt: int
    var merchantId: Option<int>
    var seededCurrency: Option<string>

    ghost function View(): Ledger
      reads this
    {
      Ledger(nameId, chart, accounts, posted, journal, outbox, nextId, alarm, lastSnapshotAt, lastCleanupAt, merchantId, seededCurrency)
    }

    /** Row ids come from an autoincrement column. */
    ghost predicate Valid()
      reads this
    {
      AscendingIds(outbox) && forall i :: 0 <= i < |outbox| ==> outbox[i].id < nextId
    }

    constructor (nameId: Option<int>, now: int)
      ensures Valid() && View() == EmptyLedger(nameId, now)
    {
      this.nameId := nameId;
      accounts, posted, journal, outbox := map[], map[], [], [];
      nextId, alarm := 1, Some(now + SNAPSHOT_INTERVAL_MS);
      lastSnapshotAt, lastCleanupAt := 0, 0;
      merchantId, seededCurrency := None, None;
    }

    // -------------------------------------------------------------- posting

    /** The seeding inserts; an exception during seeding strikes after some of them. */
    method SeedChartInPlace(currency: string, fault: Fault) returns (failed: bool)
      modifies `accounts, `seededCurrency
      ensures failed == (fault.DuringSeeding? && old(seededCurrency) != Some(currency))
      ensures View() == if failed then SeedPart(old(View()), currency, fault) else SeedChart(old(View()), currency)
    {
      if seededCurrency == Some(currency) {
        return false;
      }
      InsertAccounts(currency, ReachOf(fault, |chart|));
      failed := fault.DuringSeeding?;
      if !failed {
        assert chart[..|chart|] == chart;
        seededCurrency := Some(currency);
      }
    }

    /** INSERT OR IGNORE of the first chart accounts, one by one. */
    method InsertAccounts(currency: string, reach: nat)
      requires reach <= |chart|
      modifies `accounts
      ensures accounts == SeedAccounts(old(accounts), chart[..reach], currency)
    {
      for i := 0 to reach
        invariant accounts == SeedAccounts(old(accounts), chart[..i], currency)
      {
        assert chart[..i + 1][..i] == chart[..i];
        var a := chart[i];
        if a.code !in accounts {
          accounts := accounts[a.code := Account(a.kind, currency, 0)];
        }
      }
    }

    /** The shape checks, in one pass that also sums both sides. */
    static method ValidatePostingShape(p: Payload) returns (error: Option<ErrorCode>)
      ensures error == ShapeError(p)
      ensures error == Some(Invalid) <==> BadShape(p)
      ensures error == Some(Unbalanced) <==> !BadShape(p) && SideTotal(p.entries, Debit) != SideTotal(p.entries, Credit)
    {
      ShapeErrorIff(p);
      if p.txId == "" || |p.entries| < 2 {
        return Some(Invalid);
      }
      var debits, credits := 0, 0;
      ghost var rows := RowsOf(p, 0);
      for i := 0 to |p.entries|
        invariant forall j :: 0 <= j < i ==> EntryShapeOk(p.entries[j])
        invariant debits == DebitTotal(rows[..i]) && credits == CreditTotal(rows[..i])
      {
        var e := p.entries[i];
        assert rows[..i + 1][..i] == rows[..i];
        if e.direction != Debit && e.direction != Credit {
          return Some(Invalid);
        }
        if !e.amountMinor.Whole? || e.amountMinor.minor <= 0 || e.amountMinor.minor > MAX_AMOUNT_MINOR {
          return Some(Invalid);
        }
        if e.accountCode == "" {
          return Some(Invalid);
        }
        if e.direction == Debit {
          debits := debits + e.amountMinor.minor;
        } else {
          credits := credits + e.amountMinor.minor;
        }
      }
      assert rows[..|p.entries|] == rows;
      error := if debits != credits then Some(Unbalanced) else None;
    }

    /** What an accumulated map of movements stands for: the first n legs of the posting. */
    ghost predicate Accumulated(deltas: map<string, int>, p: Payload, n: nat)
      requires n <= |p.entries|
      reads this
    {
      && deltas.Keys <= accounts.Keys
      && (forall c :: c in deltas <==> exists j :: 0 <= j < n && p.entries[j].accountCode == c)
      && forall c :: c in accounts ==> (if c in deltas then deltas[c] else 0) == OnNormalSide(accounts[c].kind, Net(RowsOf(p, 0)[..n], c))
    }

    /** The movement after one more leg. */
    function AddLeg(deltas: map<string, int>, e: PostingEntry): map<string, int>
      requires e.accountCode in accounts
      reads this
    {
      var kind := accounts[e.accountCode].kind;
      var increases := if e.direction == Debit then IsDebitNormal(kind) else !IsDebitNormal(kind);
      var before := if e.accountCode in deltas then deltas[e.accountCode] else 0;
      deltas[e.accountCode := before + if increases then MinorOf(e.amountMinor) else -MinorOf(e.amountMinor)]
    }

    lemma {:induction false} NetOfNextLeg(p: Payload, n: nat, c: string)
      requires n < |p.entries|
      ensures var r := RowOf(p, p.entries[n], 0); Net(RowsOf(p, 0)[..n + 1], c) == Net(RowsOf(p, 0)[..n], c) + if r.code == c then Signed(r) else 0
    {
      assert RowsOf(p, 0)[..n + 1][..n] == RowsOf(p, 0)[..n];
    }

    lemma AddLegAccumulates(deltas: map<string, int>, p: Payload, n: nat)
      requires n < |p.entries| && Accumulated(deltas, p, n)
      requires p.entries[n].accountCode in accounts
      ensures Accumulated(AddLeg(deltas, p.entries[n]), p, n + 1)
    {
      var e := p.entries[n];
      var deltas' := AddLeg(deltas, e);
      assert deltas'.Keys == deltas.Keys + {e.accountCode};
      forall c | c in accounts
        ensures (if c in deltas' then deltas'[c] else 0) == OnNormalSide(accounts[c].kind, Net(RowsOf(p, 0)[..n + 1], c))
      {
        NetOfNextLeg(p, n, c);
      }
      forall c
        ensures c in deltas' <==> exists j :: 0 <= j < n + 1 && p.entries[j].accountCode == c
      {
        if c == e.accountCode {
          assert p.entries[n].accountCode == c;
        }
      }
    }

    /** The signed movement per account, or the first leg's reason to refuse the posting. */
    method AccumulateDeltas(p: Payload) returns (error: Option<ErrorCode>, deltas: map<string, int>)
      ensures error == FirstEntryError(accounts, p.entries, p.currency)
      ensures error.None? ==> Accumulated(deltas, p, |p.entries|)
      ensures error.None? <==> LegsHeld(accounts, p, |p.entries|)
      ensures error.None? ==> forall c :: c in deltas ==> accounts[c].balance + deltas[c] == BalanceAfter(accounts[c], p, c)
    {
      error, deltas := AccumulateLegs(p);
      FirstRefusal(accounts, p, |p.entries|);
      assert p.entries[..|p.entries|] == p.entries;
      if error.None? {
        AccumulatedByKind(deltas, p);
      }
    }

    /** The loop over the legs. */
    method AccumulateLegs(p: Payload) returns (error: Option<ErrorCode>, deltas: map<string, int>)
      ensures error == FirstEntryError(accounts, p.entries, p.currency)
      ensures error.None? ==> Accumulated(deltas, p, |p.entries|)
    {
      deltas := map[];
      for i := 0 to |p.entries|
        invariant FirstEntryError(accounts, p.entries[..i], p.currency).None?
        invariant Accumulated(deltas, p, i)
      {
        var e := p.entries[i];
        assert p.entries[..i + 1][..i] == p.entries[..i];
        if e.accountCode !in accounts {
          FirstErrorStays(accounts, p.entries, p.currency, i + 1);
          return Some(UnknownAccount), deltas;
        }
        if accounts[e.accountCode].currency != p.currency {
          FirstErrorStays(accounts, p.entries, p.currency, i + 1);
          return Some(CurrencyMismatch), deltas;
        }
        AddLegAccumulates(deltas, p, i);
        deltas := AddLeg(deltas, e);
      }
      assert p.entries[..|p.entries|] == p.entries;
      error := None;
    }

    /** The accumulated movements are debits less credits or the reverse, by the kind of account. */
    lemma AccumulatedByKind(deltas: map<string, int>, p: Payload)
      requires Accumulated(deltas, p, |p.entries|)
      ensures forall c :: c in deltas ==> accounts[c].balance + deltas[c] == BalanceAfter(accounts[c], p, c)
    {
      assert RowsOf(p, 0)[..|p.entries|] == RowsOf(p, 0);
      forall c | c in deltas
        ensures accounts[c].balance + deltas[c] == BalanceAfter(accounts[c], p, c)
      {
        DeltaByKind(accounts, p, c);
      }
    }

    /** Per-account movements, or the reason to refuse the posting; nothing is written. */
    method CheckBalances(p: Payload) returns (error: Option<ErrorCode>, deltas: map<string, int>)
      ensures error == BalanceError(accounts, p)
      ensures error.None? ==> Accumulated(deltas, p, |p.entries|)
      ensures error.None? <==> LegsHeld(accounts, p, |p.entries|) && !SomeOverdraft(accounts, p)
      ensures error == Some(InsufficientFunds) <==> LegsHeld(accounts, p, |p.entries|) && SomeOverdraft(accounts, p)
      ensures error.None? ==> forall c :: c in deltas ==> accounts[c].balance + deltas[c] == BalanceAfter(accounts[c], p, c)
    {
      BalanceErrorIff(accounts, p);
      error, deltas := AccumulateDeltas(p);
      if error.None? {
        error := FindOverdraft(p, deltas);
      }
    }

    /** The loop over the accumulated movements. */
    method FindOverdraft(p: Payload, deltas: map<string, int>) returns (error: Option<ErrorCode>)
      requires FirstEntryError(accounts, p.entries, p.currency).None? && Accumulated(deltas, p, |p.entries|)
      ensures error == BalanceError(accounts, p)
    {
      assert RowsOf(p, 0)[..|p.entries|] == RowsOf(p, 0);
      var todo := deltas.Keys;
      while todo != {}
        invariant todo <= deltas.Keys
        invariant forall c :: c in deltas.Keys && c !in todo ==> accounts[c].balance + deltas[c] >= 0
        decreases |todo|
      {
        var code :| code in todo;
        if accounts[code].balance + deltas[code] < 0 {
          var j :| 0 <= j < |p.entries| && p.entries[j].accountCode == code;
          assert Overdraws(accounts, p, p.entries[j]);
          return Some(InsufficientFunds);
        }
        todo := todo - {code};
      }
      assert forall j :: 0 <= j < |p.entries| ==> p.entries[j].accountCode in deltas;
      error := None;
    }

    /** UPDATE accounts SET balance_minor = balance_minor + delta, one account at a time. */
    method AddToBalances(deltas: map<string, int>)
      requires deltas.Keys <= accounts.Keys
      modifies `accounts
      ensures accounts == Added(old(accounts), deltas)
    {
      var todo := deltas.Keys;
      while todo != {}
        invariant todo <= deltas.Keys && accounts.Keys == old(accounts).Keys
        invariant forall c :: c in accounts ==>
          accounts[c] == if c in deltas && c !in todo then Added(old(accounts), deltas)[c] else old(accounts)[c]
        decreases |todo|
      {
        var code :| code in todo;
        accounts := accounts[code := accounts[code].(balance := accounts[code].balance + deltas[code])];
        todo := todo - {code};
      }
    }

    lemma AccumulatedIsDelta(deltas: map<string, int>, p: Payload)
      requires Accumulated(deltas, p, |p.entries|)
      ensures Added(accounts, deltas) == ApplyDeltas(accounts, p)
    {
      assert RowsOf(p, 0)[..|p.entries|] == RowsOf(p, 0);
    }

    method GetMerchantId() returns (id: Option<int>)
      modifies `merchantId
      ensures id == MerchantIdOf(old(View()))
      ensures id.Some? ==> id.value > 0 && merchantId == id
      ensures id.None? ==> merchantId == old(merchantId) && forall m :: m > 0 ==> merchantId != Some(m) && nameId != Some(m)
      ensures MerchantIdOf(View()) == id
    {
      if merchantId.Some? && merchantId.value > 0 {
        return merchantId;
      }
      if nameId.Some? && nameId.value > 0 {
        merchantId := nameId;
        return nameId;
      }
      return None;
    }

    method KickOutboxAlarm(now: int)
      modifies `alarm
      ensures alarm == KickAlarm(old(alarm), now)
      ensures Nudged(old(alarm), alarm, now)
      ensures alarm.Some? && alarm.value <= now + OUTBOX_DRAIN_MAX_BACKOFF_MS
      ensures old(alarm).Some? ==> alarm.value <= old(alarm).value
      ensures old(alarm).Some? && now < old(alarm).value <= now + OUTBOX_DRAIN_MAX_BACKOFF_MS ==> alarm == old(alarm)
    {
      if alarm.Some? && alarm.value > now && alarm.value - now <= OUTBOX_DRAIN_MAX_BACKOFF_MS {
        return;
      }
      var target := now + OUTBOX_DRAIN_KICK_MS;
      if alarm.None? || alarm.value > target {
        alarm := Some(target);
      }
    }

    /** One posting call; `fault` says where, if anywhere, something unexpected is thrown. */
    method PostTransaction(p: Payload, now: int, fault: Fault) returns (result: PostResult)
      requires Valid()
      modifies this
      ensures Valid()
      ensures (View(), result) == Post(old(View()), p, now, fault)
    {
      var failed := SeedChartInPlace(p.currency, fault);
      if failed {
        return Failed(Internal);
      }
      result := PostToSeededChart(p, now, fault);
    }

    method PostToSeededChart(p: Payload, now: int, fault: Fault) returns (result: PostResult)
      requires Valid()
      modifies this
      ensures Valid()
      ensures (View(), result) == PostSeeded(old(View()), p, now, fault)
    {
      var shape := ValidatePostingShape(p);
      if shape.Some? {
        return Failed(shape.value);
      }
      if p.txId in posted {
        return Duplicate(posted[p.txId].postedAt);
      }
      var refusal, deltas := CheckBalances(p);
      if refusal.Some? {
        return Failed(refusal.value);
      }
      if fault == BeforeCommit {
        return Failed(Internal);
      }
      result := CommitAndKick(p, deltas, now, fault);
    }

    method CommitAndKick(p: Payload, deltas: map<string, int>, now: int, fault: Fault) returns (result: PostResult)
      requires Valid() && Accumulated(deltas, p, |p.entries|)
      modifies this
      ensures Valid()
      ensures var named := Identify(old(View()), p);
        var committed := Commit(named, p, now);
        (View(), result) ==
          if EventIdTaken(old(outbox), EventIdFor(named, p)) then (named, Failed(Internal))
          else if fault == AfterCommit then (committed, Failed(Internal))
          else (committed.(alarm := KickAlarm(old(alarm), now)), Posted(now))
    {
      var eventId := NameEvent(p);
      if EventIdTaken(outbox, eventId) {
        return Failed(Internal);
      }
      CommitInPlace(p, deltas, eventId, now);
      if fault == AfterCommit {
        return Failed(Internal);
      }
      KickOutboxAlarm(now);
      result := Posted(now);
    }

    /** Remembers the payload's merchant and names the outbox event after it. */
    method NameEvent(p: Payload) returns (eventId: string)
      modifies `merchantId
      ensures View() == Identify(old(View()), p) && eventId == EventIdFor(View(), p)
    {
      if p.merchantId > 0 {
        merchantId := Some(p.merchantId);
      }
      var known := GetMerchantId();
      eventId := EventId(if known.Some? then known.value else p.merchantId, p.txId);
    }

    /** transactionSync: registry, journal rows, balances and the outbox row. */
    method CommitInPlace(p: Payload, deltas: map<string, int>, eventId: string, now: int)
      requires Valid() && eventId == EventIdFor(View(), p)
      requires Accumulated(deltas, p, |p.entries|)
      modifies `posted, `journal, `accounts, `outbox, `nextId
      ensures Valid() && View() == Commit(old(View()), p, now)
      ensures (p.merchantId > 0 ==> merchantId == Some(p.merchantId)) ==> Committed(old(View()), View(), p, now)
    {
      ghost var before := View();
      WriteCommit(p, deltas, eventId, now);
      if p.merchantId > 0 ==> merchantId == Some(p.merchantId) {
        CommitIsCommitted(before, View(), p, now);
      }
    }

    method WriteCommit(p: Payload, deltas: map<string, int>, eventId: string, now: int)
      requires Valid() && eventId == EventIdFor(View(), p)
      requires Accumulated(deltas, p, |p.entries|)
      modifies `posted, `journal, `accounts, `outbox, `nextId
      ensures Valid() && View() == Commit(old(View()), p, now)
    {
      posted := posted[p.txId := PostedTx(p.currency, now)];
      ghost var rows := RowsOf(p, now);
      for i := 0 to |p.entries|
        invariant journal == old(journal) + rows[..i]
        invariant posted == old(posted)[p.txId := PostedTx(p.currency, now)]
        invariant accounts == old(accounts) && outbox == old(outbox) && nextId == old(nextId)
      {
        journal := journal + [RowOf(p, p.entries[i], now)];
        assert rows[..i + 1] == rows[..i] + [rows[i]];
      }
      assert rows[..|p.entries|] == rows;
      AccumulatedIsDelta(deltas, p);
      AddToBalances(deltas);
      outbox := outbox + [OutboxRow(nextId, eventId, p, now, Pending, 0, None, 0)];
      nextId := nextId + 1;
    }

    /** Totals per direction, the balance each account's journal implies, and whether all agree. */
    method TrialBalance() returns (balanced: bool, totalDebit: int, totalCredit: int, derived: map<string, int>)
      ensures totalDebit == DebitTotal(journal) && totalCredit == CreditTotal(journal)
      ensures derived.Keys == accounts.Keys
      ensures forall c :: c in accounts ==> derived[c] == OnNormalSide(accounts[c].kind, Net(journal, c))
      ensures balanced <==> TrialBalanced(View())
      ensures forall c :: c in accounts ==> derived[c] == Movement(accounts[c].kind, DebitsOn(journal, c), CreditsOn(journal, c))
    {
      totalDebit, totalCredit := 0, 0;
      var nets: map<string, int> := map[];
      for i := 0 to |journal|
        invariant totalDebit == DebitTotal(journal[..i]) && totalCredit == CreditTotal(journal[..i])
        invariant forall c :: (if c in nets then nets[c] else 0) == Net(journal[..i], c)
      {
        var r := journal[i];
        assert journal[..i + 1][..i] == journal[..i];
        totalDebit := totalDebit + if r.direction == Debit then r.amountMinor else 0;
        totalCredit := totalCredit + if r.direction == Credit then r.amountMinor else 0;
        nets := nets[r.code := (if r.code in nets then nets[r.code] else 0) + Signed(r)];
      }
      assert journal[..|journal|] == journal;
      derived := map c | c in accounts :: OnNormalSide(accounts[c].kind, if c in nets then nets[c] else 0);
      forall c | c in accounts
        ensures derived[c] == Movement(accounts[c].kind, DebitsOn(journal, c), CreditsOn(journal, c))
      {
        NetIsDebitsLessCredits(journal, c);
      }
      balanced := totalDebit == totalCredit && forall c :: c in accounts ==> accounts[c].balance == derived[c];
    }

    // -------------------------------------------------------------- outbox

    /** Composes one batch, bounded by statement count, from the rows the query returned. */
    static method ComposeBatch(rows: seq<OutboxRow>) returns (included: seq<OutboxRow>)
      ensures included == Included(rows)
      ensures FillsBatch(rows, |included|) && included == rows[..|included|]
    {
      IncludedFills(rows);
      included := [];
      var statements := 0;
      var i := 0;
      while i < |rows| && statements + Cost(rows[i]) <= OUTBOX_MAX_STATEMENTS
        invariant 0 <= i <= |rows| && included == rows[..i]
        invariant statements == TotalCost(rows[..i]) <= OUTBOX_MAX_STATEMENTS
      {
        assert rows[..i + 1][..i] == rows[..i];
        statements := statements + Cost(rows[i]);
        included := included + [rows[i]];
        i := i + 1;
      }
      LongestFitUnique(rows, i);
    }

    method MarkOutboxRetry(ids: seq<nat>, now: int)
      requires forall i, j :: 0 <= i < j < |ids| ==> ids[i] != ids[j]
      modifies `outbox
      ensures outbox == MarkRetry(old(outbox), IdSet(ids), now)
      ensures |outbox| == |old(outbox)|
      ensures forall i :: 0 <= i < |outbox| ==>
        outbox[i] == if old(outbox)[i].id !in ids then old(outbox)[i]
                     else old(outbox)[i].(retryCount := old(outbox)[i].retryCount + 1, nextRetryAt := Some(now + RetryWait(old(outbox)[i].retryCount + 1)))
    {
      MarkRetryPutsOff(outbox, IdSet(ids), now);
      for k := 0 to |ids|
        invariant |outbox| == |old(outbox)|
        invariant forall i :: 0 <= i < |outbox| ==> outbox[i] == RetryRow(old(outbox)[i], IdSet(ids[..k]), now)
      {
        assert ids[..k + 1] == ids[..k] + [ids[k]];
        outbox := MarkRetry(outbox, {ids[k]}, now);
      }
      assert ids[..|ids|] == ids;
    }

    method MarkOutboxSynced(ids: seq<nat>, now: int)
      modifies `outbox
      ensures outbox == MarkSynced(old(outbox), IdSet(ids), now)
      ensures DeliveredOnly(old(outbox), outbox, IdSet(ids), now)
    {
      for k := 0 to |ids|
        invariant |outbox| == |old(outbox)|
        invariant forall i :: 0 <= i < |outbox| ==> outbox[i] == SyncRow(old(outbox)[i], IdSet(ids[..k]), now)
      {
        assert ids[..k + 1] == ids[..k] + [ids[k]];
        outbox := MarkSynced(outbox, {ids[k]}, now);
      }
      assert ids[..|ids|] == ids;
    }

    /** The query of a drain. */
    method SelectPending(now: int, force: bool) returns (rows: seq<OutboxRow>)
      requires Valid()
      ensures rows == Candidates(outbox, now, force) && Taken(rows, outbox, now, force)
    {
      CandidatesTaken(outbox, now, force);
      rows := Candidates(outbox, now, force);
    }

    /** Chooses what to send and remembers the merchant id it had to look up. */
    method SelectBatch(now: int, force: bool) returns (choice: Choice)
      requires Valid()
      modifies `merchantId
      ensures choice == Choose(old(View()), now, force)
      ensures View() == CacheMerchant(old(View()), now, force)
    {
      var rows := SelectPending(now, force);
      if rows == [] {
        return Nothing;
      }
      var known := GetMerchantId();
      if known.None? && rows[0].payload.merchantId > 0 {
        known := Some(rows[0].payload.merchantId);
        merchantId := known;
      }
      if known.None? {
        return NoMerchant(rows);
      }
      var included := ComposeBatch(rows);
      choice := if included == [] then TooLarge(rows[0]) else Batch(included);
    }

    /** A whole drain; `accepted` is D1's answer to the batch, if one is sent, and comes at `done`. */
    method DrainOutbox(now: int, done: int, force: bool, accepted: bool) returns (drained: nat, failed: nat)
      requires Valid()
      modifies this
      ensures Valid() && View() == DrainLedger(old(View()), now, done, force, accepted)
      ensures (drained, failed) == Tally(Choose(old(View()), now, force), accepted)
      ensures exists rows :: Taken(rows, old(outbox), now, force) && DrainWrites(old(View()), outbox, rows, now, done, accepted)
                             && Reports(old(View()), rows, drained, failed, accepted)
    {
      CandidatesTaken(outbox, now, force);
      TallyReports(View(), now, force, accepted);
      DrainWritesOut(View(), now, done, force, accepted);
      var choice := SelectBatch(now, force);
      SelectedAscending(old(View()), now, force);
      drained, failed := Settle(choice, accepted, SettledAt(choice, now, done));
    }

    method Settle(choice: Choice, accepted: bool, now: int) returns (drained: nat, failed: nat)
      requires Valid() && AscendingIds(RowsIn(choice))
      modifies `outbox
      ensures Valid() && outbox == AfterDrain(old(outbox), choice, accepted, now)
      ensures (drained, failed) == Tally(choice, accepted)
    {
      drained, failed := 0, 0;
      match choice {
        case Nothing =>
        case NoMerchant(rows) =>
          MarkOutboxRetry(IdSeq(rows), now);
          failed := |rows|;
        case TooLarge(row) =>
          assert IdSet([row.id]) == {row.id};
          MarkOutboxRetry([row.id], now);
          failed := 1;
        case Batch(rows) =>
          if accepted {
            MarkOutboxSynced(IdSeq(rows), now);
            drained := |rows|;
          } else {
            MarkOutboxRetry(IdSeq(rows), now);
            failed := |rows|;
          }
      }
    }

    method MaybeCleanupOutbox(now: int)
      requires Valid()
      modifies `outbox, `lastCleanupAt
      ensures Valid() && View() == Cleanup(old(View()), now)
      ensures Swept(old(View()), outbox, now) && lastCleanupAt == if now - old(lastCleanupAt) < 3_600_000 then old(lastCleanupAt) else now
    {
      if now - lastCleanupAt < CLEANUP_INTERVAL_MS {
        return;
      }
      UnexpiredIds(outbox, now);
      outbox := Unexpired(outbox, now);
      lastCleanupAt := now;
      forall i | 0 <= i < |outbox|
        ensures outbox[i].id < nextId
      {
        assert outbox[i] in outbox;
      }
    }

    method ScheduleNextAlarm(now: int)
      modifies `alarm
      ensures View() == Reschedule(old(View()), now)
      ensures exists t :: RingsAt(old(View()), now, t) && alarm == Some(if old(alarm).Some? then Min(old(alarm).value, t) else t)
      ensures alarm.Some? && (old(alarm).Some? ==> alarm.value <= old(alarm).value)
      ensures forall r :: r in outbox && r.status == Pending ==> alarm.value <= Max(now + OUTBOX_DRAIN_KICK_MS, RetryAt(r, now))
      ensures (forall r :: r in outbox ==> r.status != Pending) ==> alarm.value <= lastSnapshotAt + SNAPSHOT_INTERVAL_MS
    {
      TargetRings(View(), now);
      var next := EarliestRetry(outbox, now);
      var target;
      if next.Some? && next.value <= now {
        target := now + OUTBOX_DRAIN_KICK_MS;
      } else if next.Some? {
        target := next.value;
      } else {
        target := lastSnapshotAt + SNAPSHOT_INTERVAL_MS;
      }
      if alarm.None? || alarm.value > target {
        alarm := Some(target);
      }
    }

    /** The alarm handler; the platform clears the alarm before it runs. */
    method Alarm(now: int, done: int, accepted: bool, snapshotOk: bool)
      requires Valid()
      modifies this
      ensures Valid()
      ensures View() == AlarmLedger(old(View()), now, done, accepted, done - old(lastSnapshotAt) >= SNAPSHOT_INTERVAL_MS && snapshotOk)
    {
      alarm := None;
      var _, _ := DrainOutbox(now, done, false, accepted);
      if done - lastSnapshotAt >= SNAPSHOT_INTERVAL_MS && snapshotOk {
        lastSnapshotAt := done;
      }
      MaybeCleanupOutbox(done);
      ScheduleNextAlarm(done);
    }
  }

  // ---------------------------------------------------------------- lemmas the methods use

  function Added(accounts: map<string, Account>, deltas: map<string, int>): map<string, Account> {
    map c | c in accounts :: accounts[c].(balance := accounts[c].balance + if c in deltas then deltas[c] else 0)
  }

  /** Once a leg is refused, later legs do not change the reason. */
  lemma {:induction false} FirstErrorStays(accounts: map<string, Account>, es: seq<PostingEntry>, currency: string, k: nat)
    requires k <= |es| && FirstEntryError(accounts, es[..k], currency).Some?
    ensures FirstEntryError(accounts, es, currency) == FirstEntryError(accounts, es[..k], currency)
    decreases |es|
  {
    if k == |es| {
      assert es[..k] == es;
    } else {
      var init := es[..|es| - 1];
      assert init[..k] == es[..k];
      FirstErrorStays(accounts, init, currency, k);
    }
  }

  lemma LongestFitUnique(rows: seq<OutboxRow>, i: nat)
    requires i <= |rows| && TotalCost(rows[..i]) <= OUTBOX_MAX_STATEMENTS
    requires i < |rows| ==> TotalCost(rows[..i]) + Cost(rows[i]) > OUTBOX_MAX_STATEMENTS
    ensures rows[..i] == Included(rows)
  {
    IncludedIsLongestFit(rows, i);
    if i < |rows| {
      assert rows[..i + 1][..i] == rows[..i];
      IncludedIsLongestFit(rows, i + 1);
    }
  }

  function IdSet(ids: seq<nat>): set<nat> {
    set id | id in ids
  }

  function IdSeq(rows: seq<OutboxRow>): (ids: seq<nat>)
    ensures |ids| == |rows| && forall i :: 0 <= i < |rows| ==> ids[i] == rows[i].id
    ensures IdSet(ids) == IdsOf(rows)
  {
    var ids := seq(|rows|, i requires 0 <= i < |rows| => rows[i].id);
    assert forall i :: 0 <= i < |rows| ==> rows[i] in rows && ids[i] in ids;
    ids
  }

  function RowsIn(choice: Choice): seq<OutboxRow> {
    match choice
    case Nothing => []
    case NoMerchant(rows) => rows
    case TooLarge(row) => [row]
    case Batch(rows) => rows
  }

  /** The counts a drain reports: delivered and put off. */
  function Tally(choice: Choice, accepted: bool): (nat, nat) {
    if choice.Batch? && accepted then (|choice.rows|, 0) else (0, |RowsIn(choice)|)
  }

  lemma TallyReports(l: Ledger, now: int, force: bool, accepted: bool)
    ensures var (drained, failed) := Tally(Choose(l, now, force), accepted);
      Reports(l, Candidates(l.outbox, now, force), drained, failed, accepted)
  {
    var rows := Candidates(l.outbox, now, force);
    ChoiceByRows(l, now, force);
    if rows != [] && |rows[0].payload.entries| <= 98 {
      BatchReports(rows);
    }
  }

  lemma SelectedAscending(l: Ledger, now: int, force: bool)
    requires AscendingIds(l.outbox)
    ensures AscendingIds(RowsIn(Choose(l, now, force)))
  {
    EligibleAscending(l.outbox, now, force);
  }
}
