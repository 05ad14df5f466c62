/**
 * The D1 audit mirror of the book, statement by statement (src/services/ledger-audit.ts).
 * A drain sends the statements of several postings as one atomic batch; a batch may be sent
 * again after its answer was lost, so what matters is that re-running it changes nothing.
 */
module AuditMirror {
  import opened Common
  import opened Chart
  import opened Journal
  import opened Posting

  datatype Statement =
    | UpsertPosting(txId: string, postedAt: int)
    | InsertHeader(uuid: string, merchantId: int, postedAt: int)
    | InsertLeg(leg: MirrorLeg)

  datatype Header = Header(merchantId: int, postedAt: int)

  /** One op_ledger_entries row; `uuid` stands for the id of the header it belongs to. */
  datatype MirrorLeg = MirrorLeg(
    uuid: string, order: nat, accountId: int, direction: Direction, amount: string, currency: string, createdAt: int)

  datatype Mirror = Mirror(postings: map<string, int>, headers: map<string, Header>, legs: seq<MirrorLeg>)

  predicate HasLeg(legs: seq<MirrorLeg>, uuid: string, order: nat) {
    exists k :: 0 <= k < |legs| && legs[k].uuid == uuid && legs[k].order == order
  }

  /** Upsert keyed on tx_id, insert-or-nothing keyed on uuid, guarded insert keyed on (uuid, order). */
  function Exec(m: Mirror, st: Statement): Mirror {
    match st
    case UpsertPosting(tx, at) => m.(postings := m.postings[tx := at])
    case InsertHeader(uuid, merchant, at) =>
      if uuid in m.headers then m else m.(headers := m.headers[uuid := Header(merchant, at)])
    case InsertLeg(leg) =>
      if leg.uuid in m.headers && !HasLeg(m.legs, leg.uuid, leg.order) then m.(legs := m.legs + [leg]) else m
  }

  function ExecAll(m: Mirror, sts: seq<Statement>): Mirror {
    if sts == [] then m else Exec(ExecAll(m, sts[..|sts| - 1]), sts[|sts| - 1])
  }

  function LegOf(it: LogItem, i: nat): MirrorLeg
    requires i < |it.payload.entries|
  {
    var e := it.payload.entries[i];
    MirrorLeg(it.payload.txId, i + 1, e.d1AccountId, e.direction, e.amount, it.payload.currency, it.at)
  }

  /** The rows a posting should have in the mirror, in leg order. */
  function ExpectedLegs(it: LogItem): (legs: seq<MirrorLeg>)
    ensures |legs| == |it.payload.entries|
    ensures forall i :: 0 <= i < |legs| ==> legs[i] == LegOf(it, i)
  {
    seq(|it.payload.entries|, i requires 0 <= i < |it.payload.entries| => LegOf(it, i))
  }

  function LegStatements(legs: seq<MirrorLeg>): (sts: seq<Statement>)
    ensures |sts| == |legs|
    ensures forall i :: 0 <= i < |sts| ==> sts[i] == InsertLeg(legs[i])
  {
    seq(|legs|, i requires 0 <= i < |legs| => InsertLeg(legs[i]))
  }

  /** The statements that mirror one posting: registry, header, then one per leg. */
  function Statements(it: LogItem): (sts: seq<Statement>)
    ensures |sts| == 2 + |it.payload.entries|
  {
    [UpsertPosting(it.payload.txId, it.at), InsertHeader(it.payload.txId, it.payload.merchantId, it.at)]
    + LegStatements(ExpectedLegs(it))
  }

  function BatchStatements(items: seq<LogItem>): seq<Statement> {
    if items == [] then [] else BatchStatements(items[..|items| - 1]) + Statements(items[|items| - 1])
  }

  function LegsFor(legs: seq<MirrorLeg>, tx: string): seq<MirrorLeg> {
    if legs == [] then []
    else if legs[|legs| - 1].uuid == tx then LegsFor(legs[..|legs| - 1], tx) + [legs[|legs| - 1]]
    else LegsFor(legs[..|legs| - 1], tx)
  }

  ghost predicate Absent(m: Mirror, tx: string) {
    tx !in m.postings && tx !in m.headers && LegsFor(m.legs, tx) == []
  }

  /** A posting is mirrored with exactly its own legs, each once, in order. */
  ghost predicate Complete(m: Mirror, it: LogItem) {
    var tx := it.payload.txId;
    && tx in m.postings && m.postings[tx] == it.at
    && tx in m.headers && m.headers[tx] == Header(it.payload.merchantId, it.at)
    && LegsFor(m.legs, tx) == ExpectedLegs(it)
  }

  /** Two mirrors agree on a transaction. */
  ghost predicate SameTx(m: Mirror, m': Mirror, tx: string) {
    && (tx in m.headers <==> tx in m'.headers)
    && (tx in m.headers ==> m.headers[tx] == m'.headers[tx])
    && (tx in m.postings <==> tx in m'.postings)
    && (tx in m.postings ==> m.postings[tx] == m'.postings[tx])
    && LegsFor(m.legs, tx) == LegsFor(m'.legs, tx)
  }

  // ---------------------------------------------------------------- executing statements

  lemma {:induction false} ExecAllAppend(m: Mirror, a: seq<Statement>, b: seq<Statement>)
    ensures ExecAll(m, a + b) == ExecAll(ExecAll(m, a), b)
  {
    if b == [] {
      assert a + b == a;
    } else {
      ExecAllAppend(m, a, b[..|b| - 1]);
      assert (a + b)[..|a + b| - 1] == a + b[..|b| - 1];
    }
  }

  lemma {:induction false} HasLegInLegsFor(legs: seq<MirrorLeg>, tx: string, order: nat)
    ensures HasLeg(legs, tx, order) <==> HasLeg(LegsFor(legs, tx), tx, order)
  {
    if legs != [] {
      var init, last := legs[..|legs| - 1], legs[|legs| - 1];
      HasLegInLegsFor(init, tx, order);
      if last.uuid == tx && last.order == order {
        assert legs[|legs| - 1].uuid == tx;
        assert LegsFor(legs, tx)[|LegsFor(init, tx)|] == last;
      } else {
        HasLegSplit(init, [last], tx, order);
        HasLegSplit(LegsFor(init, tx), [last], tx, order);
        assert init + [last] == legs;
      }
    }
  }

  lemma HasLegSplit(a: seq<MirrorLeg>, b: seq<MirrorLeg>, tx: string, order: nat)
    ensures HasLeg(a + b, tx, order) <==> HasLeg(a, tx, order) || HasLeg(b, tx, order)
  {
    if HasLeg(a, tx, order) {
      var k :| 0 <= k < |a| && a[k].uuid == tx && a[k].order == order;
      assert (a + b)[k] == a[k];
    }
    if HasLeg(b, tx, order) {
      var k :| 0 <= k < |b| && b[k].uuid == tx && b[k].order == order;
      assert (a + b)[|a| + k] == b[k];
    }
  }

  /** Inserting the first n legs of a transaction that has none gives it exactly those. */
  lemma {:induction false} LegInsertsFill(m: Mirror, it: LogItem, n: nat)
    requires n <= |it.payload.entries| && it.payload.txId in m.headers
    requires LegsFor(m.legs, it.payload.txId) == []
    ensures var m' := ExecAll(m, LegStatements(ExpectedLegs(it)[..n]));
      m' == m.(legs := m'.legs) && LegsFor(m'.legs, it.payload.txId) == ExpectedLegs(it)[..n]
  {
    if n > 0 {
      var tx, leg := it.payload.txId, ExpectedLegs(it)[n - 1];
      LegInsertsFill(m, it, n - 1);
      LegStatementsPush(it, n);
      var m1 := ExecAll(m, LegStatements(ExpectedLegs(it)[..n - 1]));
      HasLegInLegsFor(m1.legs, tx, n);
      assert (m1.legs + [leg])[..|m1.legs|] == m1.legs;
    }
  }

  /** Inserting the legs of a transaction that has them all changes nothing. */
  lemma {:induction false} LegInsertsIdempotent(m: Mirror, it: LogItem, n: nat)
    requires n <= |it.payload.entries|
    requires LegsFor(m.legs, it.payload.txId) == ExpectedLegs(it)
    ensures ExecAll(m, LegStatements(ExpectedLegs(it)[..n])) == m
  {
    if n > 0 {
      LegInsertsIdempotent(m, it, n - 1);
      LegStatementsPush(it, n);
      HasLegInLegsFor(m.legs, it.payload.txId, n);
      assert ExpectedLegs(it)[n - 1].order == n;
    }
  }

  lemma LegStatementsPush(it: LogItem, n: nat)
    requires 0 < n <= |it.payload.entries|
    ensures var sts := LegStatements(ExpectedLegs(it)[..n]);
      sts[..n - 1] == LegStatements(ExpectedLegs(it)[..n - 1]) && sts[n - 1] == InsertLeg(LegOf(it, n - 1))
  {
    assert ExpectedLegs(it)[..n][..n - 1] == ExpectedLegs(it)[..n - 1];
  }

  lemma {:induction false} LegInsertsFrame(m: Mirror, legs: seq<MirrorLeg>, tx: string)
    requires forall i :: 0 <= i < |legs| ==> legs[i].uuid != tx
    ensures LegsFor(ExecAll(m, LegStatements(legs)).legs, tx) == LegsFor(m.legs, tx)
  {
    if legs != [] {
      var init := legs[..|legs| - 1];
      LegInsertsFrame(m, init, tx);
      assert LegStatements(legs)[..|legs| - 1] == LegStatements(init);
      var m1 := ExecAll(m, LegStatements(init));
      assert (m1.legs + [legs[|legs| - 1]])[..|m1.legs|] == m1.legs;
    }
  }

  lemma {:induction false} HeadStatements(m: Mirror, it: LogItem)
    ensures var tx := it.payload.txId;
      var h := Exec(Exec(m, UpsertPosting(tx, it.at)), InsertHeader(tx, it.payload.merchantId, it.at));
      ExecAll(m, Statements(it)) == ExecAll(h, LegStatements(ExpectedLegs(it)))
  {
    var tx := it.payload.txId;
    var u, h := UpsertPosting(tx, it.at), InsertHeader(tx, it.payload.merchantId, it.at);
    ExecAllAppend(m, [u, h], LegStatements(ExpectedLegs(it)));
    assert [u, h][..1] == [u] && [u][..0] == [];
    assert ExecAll(m, [u]) == Exec(ExecAll(m, []), u);
  }

  /** Mirroring one posting completes it, whether or not it was there already, and is idempotent. */
  lemma {:induction false} MirrorPosting(m: Mirror, it: LogItem)
    requires Absent(m, it.payload.txId) || Complete(m, it)
    ensures Complete(ExecAll(m, Statements(it)), it)
    ensures Complete(m, it) ==> ExecAll(m, Statements(it)) == m
  {
    var tx := it.payload.txId;
    HeadStatements(m, it);
    var h := Exec(Exec(m, UpsertPosting(tx, it.at)), InsertHeader(tx, it.payload.merchantId, it.at));
    assert ExpectedLegs(it)[..|it.payload.entries|] == ExpectedLegs(it);
    if Complete(m, it) {
      assert m.postings[tx := it.at] == m.postings;
      LegInsertsIdempotent(m, it, |it.payload.entries|);
    } else {
      LegInsertsFill(h, it, |it.payload.entries|);
    }
  }

  lemma {:induction false} LegInsertsKeepHeaders(m: Mirror, legs: seq<MirrorLeg>)
    ensures ExecAll(m, LegStatements(legs)) == m.(legs := ExecAll(m, LegStatements(legs)).legs)
  {
    if legs != [] {
      LegInsertsKeepHeaders(m, legs[..|legs| - 1]);
      assert LegStatements(legs)[..|legs| - 1] == LegStatements(legs[..|legs| - 1]);
    }
  }

  lemma {:induction false} MirrorPostingFrame(m: Mirror, it: LogItem, tx: string)
    requires tx != it.payload.txId
    ensures SameTx(m, ExecAll(m, Statements(it)), tx)
  {
    HeadStatements(m, it);
    var h := Exec(Exec(m, UpsertPosting(it.payload.txId, it.at)), InsertHeader(it.payload.txId, it.payload.merchantId, it.at));
    LegInsertsFrame(h, ExpectedLegs(it), tx);
    LegInsertsKeepHeaders(h, ExpectedLegs(it));
  }

  // ---------------------------------------------------------------- batches against the log

  /** Every committed posting is mirrored wholly or not at all, and nothing else is mirrored. */
  ghost predicate MirrorOk(m: Mirror, log: seq<LogItem>) {
    && (forall i :: 0 <= i < |log| ==> Absent(m, log[i].payload.txId) || Complete(m, log[i]))
    && (forall tx :: tx in m.headers || tx in m.postings || LegsFor(m.legs, tx) != [] ==> InLog(log, tx))
  }

  lemma {:induction false} PostingKeepsMirrorOk(m: Mirror, log: seq<LogItem>, k: nat)
    requires MirrorOk(m, log) && DistinctTx(log) && k < |log|
    ensures MirrorOk(ExecAll(m, Statements(log[k])), log)
    ensures Complete(ExecAll(m, Statements(log[k])), log[k])
    ensures forall x :: x in log && Complete(m, x) ==> Complete(ExecAll(m, Statements(log[k])), x)
  {
    var m' := ExecAll(m, Statements(log[k]));
    MirrorPosting(m, log[k]);
    forall tx | tx != log[k].payload.txId
      ensures SameTx(m, m', tx)
    {
      MirrorPostingFrame(m, log[k], tx);
    }
    forall i | 0 <= i < |log|
      ensures Absent(m', log[i].payload.txId) || Complete(m', log[i])
      ensures Complete(m, log[i]) ==> Complete(m', log[i])
    {
      if i != k {
        assert log[i].payload.txId != log[k].payload.txId;
        assert SameTx(m, m', log[i].payload.txId);
      }
    }
    forall tx | tx in m'.headers || tx in m'.postings || LegsFor(m'.legs, tx) != []
      ensures InLog(log, tx)
    {
      if tx == log[k].payload.txId {
      } else {
        assert SameTx(m, m', tx);
      }
    }
  }

  /** The batch, one posting after the other. */
  function MirrorAll(m: Mirror, items: seq<LogItem>): Mirror {
    if items == [] then m else ExecAll(MirrorAll(m, items[..|items| - 1]), Statements(items[|items| - 1]))
  }

  lemma {:induction false} BatchIsMirrorAll(m: Mirror, items: seq<LogItem>)
    ensures ExecAll(m, BatchStatements(items)) == MirrorAll(m, items)
  {
    if items != [] {
      BatchIsMirrorAll(m, items[..|items| - 1]);
      ExecAllAppend(m, BatchStatements(items[..|items| - 1]), Statements(items[|items| - 1]));
    }
  }

  /** A whole batch of committed postings is mirrored completely and disturbs none already there. */
  lemma {:induction false} BatchKeepsMirrorOk(m: Mirror, log: seq<LogItem>, items: seq<LogItem>)
    requires MirrorOk(m, log) && DistinctTx(log)
    requires forall x :: x in items ==> x in log
    ensures MirrorOk(MirrorAll(m, items), log)
    ensures forall x :: x in items ==> Complete(MirrorAll(m, items), x)
    ensures forall x :: x in log && Complete(m, x) ==> Complete(MirrorAll(m, items), x)
  {
    if items != [] {
      var init, it := items[..|items| - 1], items[|items| - 1];
      assert items == init + [it];
      BatchKeepsMirrorOk(m, log, init);
      assert it in items;
      var k :| 0 <= k < |log| && log[k] == it;
      PostingKeepsMirrorOk(MirrorAll(m, init), log, k);
      forall x | x in items
        ensures Complete(MirrorAll(m, items), x)
      {
        if x != it {
          assert x in init && x in log;
        }
      }
    }
  }

  /** A new commit is not in the mirror yet. */
  lemma MirrorOkGrows(m: Mirror, log: seq<LogItem>, it: LogItem)
    requires MirrorOk(m, log) && !InLog(log, it.payload.txId)
    ensures MirrorOk(m, log + [it])
  {
    var log' := log + [it];
    assert Absent(m, it.payload.txId);
    forall tx | InLog(log, tx)
      ensures InLog(log', tx)
    {
      var i :| 0 <= i < |log| && log[i].payload.txId == tx;
      assert log'[i].payload.txId == tx;
    }
  }

  // ---------------------------------------------------------------- aggregates

  /** Debits minus credits of one mirror account, reading the decimal text with `parse`. */
  function MirrorNet(legs: seq<MirrorLeg>, accountId: int, parse: string -> int): int {
    if legs == [] then 0
    else
      var l := legs[|legs| - 1];
      MirrorNet(legs[..|legs| - 1], accountId, parse)
      + if l.accountId != accountId then 0 else if l.direction == Debit then parse(l.amount) else -parse(l.amount)
  }

  function LegsBut(legs: seq<MirrorLeg>, tx: string): seq<MirrorLeg> {
    if legs == [] then []
    else if legs[|legs| - 1].uuid == tx then LegsBut(legs[..|legs| - 1], tx)
    else LegsBut(legs[..|legs| - 1], tx) + [legs[|legs| - 1]]
  }

  lemma {:induction false} MirrorNetPush(legs: seq<MirrorLeg>, leg: MirrorLeg, accountId: int, parse: string -> int)
    ensures MirrorNet(legs + [leg], accountId, parse) == MirrorNet(legs, accountId, parse) + MirrorNet([leg], accountId, parse)
  {
    assert (legs + [leg])[..|legs|] == legs;
    assert [leg][..0] == [];
  }

  lemma {:induction false} SplitByTx(legs: seq<MirrorLeg>, tx: string, accountId: int, parse: string -> int)
    ensures MirrorNet(legs, accountId, parse)
         == MirrorNet(LegsFor(legs, tx), accountId, parse) + MirrorNet(LegsBut(legs, tx), accountId, parse)
  {
    if legs != [] {
      var init, last := legs[..|legs| - 1], legs[|legs| - 1];
      SplitByTx(init, tx, accountId, parse);
      assert init + [last] == legs;
      MirrorNetPush(init, last, accountId, parse);
      MirrorNetPush(if last.uuid == tx then LegsFor(init, tx) else LegsBut(init, tx), last, accountId, parse);
    }
  }

  lemma {:induction false} LegsButFor(legs: seq<MirrorLeg>, tx: string, other: string)
    ensures LegsFor(LegsBut(legs, tx), other) == if other == tx then [] else LegsFor(legs, other)
  {
    if legs != [] {
      var init, last := legs[..|legs| - 1], legs[|legs| - 1];
      LegsButFor(init, tx, other);
      if last.uuid != tx {
        assert LegsBut(legs, tx)[..|LegsBut(init, tx)|] == LegsBut(init, tx);
      }
    }
  }

  lemma {:induction false} NoLegsAtAll(legs: seq<MirrorLeg>)
    requires forall tx :: LegsFor(legs, tx) == []
    ensures legs == []
  {
    assert legs != [] ==> LegsFor(legs, legs[|legs| - 1].uuid) == [];
  }

  /** A posting's legs name the same account and the same amount on both sides. */
  ghost predicate Agrees(p: Payload, accountId: int, code: string, parse: string -> int) {
    forall i :: 0 <= i < |p.entries| ==>
      && (p.entries[i].d1AccountId == accountId <==> p.entries[i].accountCode == code)
      && parse(p.entries[i].amount) == MinorOf(p.entries[i].amountMinor)
  }

  lemma {:induction false} PostingNet(it: LogItem, n: nat, accountId: int, code: string, parse: string -> int)
    requires n <= |it.payload.entries| && Agrees(it.payload, accountId, code, parse)
    ensures MirrorNet(ExpectedLegs(it)[..n], accountId, parse) == Net(RowsOf(it.payload, it.at)[..n], code)
  {
    if n > 0 {
      PostingNet(it, n - 1, accountId, code, parse);
      assert ExpectedLegs(it)[..n][..n - 1] == ExpectedLegs(it)[..n - 1];
      assert RowsOf(it.payload, it.at)[..n][..n - 1] == RowsOf(it.payload, it.at)[..n - 1];
      assert ExpectedLegs(it)[..n][n - 1] == LegOf(it, n - 1);
    }
  }

  lemma {:induction false} WholePostingNet(it: LogItem, accountId: int, code: string, parse: string -> int)
    requires Agrees(it.payload, accountId, code, parse)
    ensures MirrorNet(ExpectedLegs(it), accountId, parse) == Net(RowsOf(it.payload, it.at), code)
  {
    var n := |it.payload.entries|;
    assert ExpectedLegs(it)[..n] == ExpectedLegs(it) && RowsOf(it.payload, it.at)[..n] == RowsOf(it.payload, it.at);
    PostingNet(it, n, accountId, code, parse);
  }

  ghost predicate HoldsExactly(legs: seq<MirrorLeg>, log: seq<LogItem>) {
    && (forall i :: 0 <= i < |log| ==> LegsFor(legs, log[i].payload.txId) == ExpectedLegs(log[i]))
    && (forall tx :: LegsFor(legs, tx) != [] ==> InLog(log, tx))
  }

  lemma {:induction false} WithoutLast(legs: seq<MirrorLeg>, log: seq<LogItem>)
    requires log != [] && DistinctTx(log) && HoldsExactly(legs, log)
    ensures HoldsExactly(LegsBut(legs, log[|log| - 1].payload.txId), log[..|log| - 1])
  {
    var init, tx := log[..|log| - 1], log[|log| - 1].payload.txId;
    forall i | 0 <= i < |init|
      ensures LegsFor(LegsBut(legs, tx), init[i].payload.txId) == ExpectedLegs(init[i])
    {
      LegsButFor(legs, tx, init[i].payload.txId);
    }
    forall other | LegsFor(LegsBut(legs, tx), other) != []
      ensures InLog(init, other)
    {
      LegsButFor(legs, tx, other);
      var i :| 0 <= i < |log| && log[i].payload.txId == other;
      assert init[i].payload.txId == other;
    }
  }

  /**
   * Once every committed posting is mirrored, the mirror's net movement of an account equals the
   * book's, however the drains batched, repeated or reordered the postings.
   */
  lemma {:induction false} MirrorNetIsBookNet(
      legs: seq<MirrorLeg>, log: seq<LogItem>, accountId: int, code: string, parse: string -> int)
    requires DistinctTx(log) && HoldsExactly(legs, log)
    requires forall i :: 0 <= i < |log| ==> Agrees(log[i].payload, accountId, code, parse)
    ensures MirrorNet(legs, accountId, parse) == Net(JournalOf(log), code)
    decreases |log|
  {
    if log == [] {
      NoLegsAtAll(legs);
    } else {
      var init, it := log[..|log| - 1], log[|log| - 1];
      var tx := it.payload.txId;
      WithoutLast(legs, log);
      MirrorNetIsBookNet(LegsBut(legs, tx), init, accountId, code, parse);
      SplitByTx(legs, tx, accountId, parse);
      WholePostingNet(it, accountId, code, parse);
      SumsAppend(JournalOf(init), RowsOf(it.payload, it.at), code);
    }
  }

  // ---------------------------------------------------------------- what the mirror's rows say

  /**
   * The mirror's rows of a posting, written out: registry row, header, and for the i-th leg one row of
   * order i + 1 with that leg's account, direction and amount, in the posting's currency.
   */
  ghost predicate Mirrored(m: Mirror, p: Payload, at: int) {
    && p.txId in m.postings && m.postings[p.txId] == at
    && p.txId in m.headers && m.headers[p.txId] == Header(p.merchantId, at)
    && (forall i :: 0 <= i < |p.entries| ==>
          var e := p.entries[i]; MirrorLeg(p.txId, i + 1, e.d1AccountId, e.direction, e.amount, p.currency, at) in m.legs)
    && (forall leg :: leg in m.legs && leg.uuid == p.txId ==> 1 <= leg.order <= |p.entries|)
    && (forall j, k :: 0 <= j < k < |m.legs| && m.legs[j].uuid == p.txId && m.legs[k].uuid == p.txId ==> m.legs[j].order < m.legs[k].order)
  }

  lemma {:induction false} LegsForMembers(legs: seq<MirrorLeg>, tx: string)
    ensures forall leg :: leg in LegsFor(legs, tx) <==> leg in legs && leg.uuid == tx
  {
    if legs != [] {
      var init, last := legs[..|legs| - 1], legs[|legs| - 1];
      LegsForMembers(init, tx);
      assert legs == init + [last];
    }
  }

  ghost predicate AscendingOrders(legs: seq<MirrorLeg>) {
    forall j, k :: 0 <= j < k < |legs| ==> legs[j].order < legs[k].order
  }

  lemma {:induction false} LegsForOrdered(legs: seq<MirrorLeg>, tx: string)
    requires AscendingOrders(LegsFor(legs, tx))
    ensures forall j, k :: 0 <= j < k < |legs| && legs[j].uuid == tx && legs[k].uuid == tx ==> legs[j].order < legs[k].order
  {
    if legs != [] {
      var init, last := legs[..|legs| - 1], legs[|legs| - 1];
      var mine := LegsFor(init, tx);
      assert mine <= LegsFor(legs, tx);
      assert AscendingOrders(mine) by {
        forall j, k | 0 <= j < k < |mine|
          ensures mine[j].order < mine[k].order
        {
          assert mine[j] == LegsFor(legs, tx)[j] && mine[k] == LegsFor(legs, tx)[k];
        }
      }
      LegsForOrdered(init, tx);
      LegsForMembers(init, tx);
      forall j | 0 <= j < |init| && init[j].uuid == tx && last.uuid == tx
        ensures init[j].order < last.order
      {
        var i :| 0 <= i < |mine| && mine[i] == init[j];
        assert LegsFor(legs, tx)[i] == mine[i] && LegsFor(legs, tx)[|mine|] == last;
      }
    }
  }

  /** A complete posting is mirrored leg by leg. */
  lemma CompleteIsMirrored(m: Mirror, it: LogItem)
    requires Complete(m, it)
    ensures Mirrored(m, it.payload, it.at)
  {
    var p, legs := it.payload, ExpectedLegs(it);
    LegsForMembers(m.legs, p.txId);
    LegsForOrdered(m.legs, p.txId);
    forall i | 0 <= i < |p.entries|
      ensures MirrorLeg(p.txId, i + 1, p.entries[i].d1AccountId, p.entries[i].direction, p.entries[i].amount, p.currency, it.at) in m.legs
    {
      assert legs[i] in LegsFor(m.legs, p.txId);
    }
    forall leg | leg in m.legs && leg.uuid == p.txId
      ensures 1 <= leg.order <= |p.entries|
    {
      var i :| 0 <= i < |legs| && legs[i] == leg;
    }
  }

  /** Nothing at all of a transaction is in the mirror. */
  ghost predicate NothingOf(m: Mirror, tx: string) {
    tx !in m.postings && tx !in m.headers && forall leg :: leg in m.legs ==> leg.uuid != tx
  }

  lemma AbsentIsNothing(m: Mirror, tx: string)
    requires Absent(m, tx)
    ensures NothingOf(m, tx)
  {
    LegsForMembers(m.legs, tx);
  }

  /** Every leg has its header, and no header has two legs of one order. */
  ghost predicate SoundRows(m: Mirror) {
    && (forall k :: 0 <= k < |m.legs| ==> m.legs[k].uuid in m.headers)
    && (forall j, k :: 0 <= j < k < |m.legs| ==> m.legs[j].uuid != m.legs[k].uuid || m.legs[j].order != m.legs[k].order)
  }

  /** Whatever statements run, of however many batches: rows stay sound, and headers and legs that are there stay as they are. */
  lemma {:induction false} StatementsKeepRows(m: Mirror, sts: seq<Statement>)
    requires SoundRows(m)
    ensures var m' := ExecAll(m, sts);
      && SoundRows(m') && m.legs <= m'.legs
      && (forall tx :: tx in m.headers ==> tx in m'.headers && m'.headers[tx] == m.headers[tx])
      && (forall tx :: tx in m.postings ==> tx in m'.postings)
  {
    if sts != [] {
      StatementsKeepRows(m, sts[..|sts| - 1]);
    }
  }
}
