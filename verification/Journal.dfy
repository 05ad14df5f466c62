/**
 * Double-entry sums over journal rows.  The ledger keeps per-account balances; the trial
 * balance sums the journal per account and per direction.  The lemmas here relate the two.
 */
module Journal {
  import opened Chart

  /** `OtherDirection` stands for any text that is neither 'debit' nor 'credit'. */
  datatype Direction = Debit | Credit | OtherDirection

  datatype Row = Row(txId: string, code: string, direction: Direction, amountMinor: int, postedAt: int)

  function Signed(r: Row): int {
    if r.direction == Debit then r.amountMinor else -r.amountMinor
  }

  /** SUM(CASE WHEN direction = 'debit' THEN amount_minor ELSE 0 END) */
  function DebitTotal(rows: seq<Row>): int {
    if rows == [] then 0
    else DebitTotal(rows[..|rows| - 1]) + (var r := rows[|rows| - 1]; if r.direction == Debit then r.amountMinor else 0)
  }

  /** SUM(CASE WHEN direction = 'credit' THEN amount_minor ELSE 0 END) */
  function CreditTotal(rows: seq<Row>): int {
    if rows == [] then 0
    else CreditTotal(rows[..|rows| - 1]) + (var r := rows[|rows| - 1]; if r.direction == Credit then r.amountMinor else 0)
  }

  /** Debits minus credits of one account (GROUP BY account_code). */
  function Net(rows: seq<Row>, code: string): int {
    if rows == [] then 0
    else Net(rows[..|rows| - 1], code) + (var r := rows[|rows| - 1]; if r.code == code then Signed(r) else 0)
  }

  /** A balance is stored positive on the account's normal side. */
  function OnNormalSide(kind: AccountType, net: int): int {
    if IsDebitNormal(kind) then net else -net
  }

  lemma {:induction false} SumsAppend(a: seq<Row>, b: seq<Row>, code: string)
    ensures DebitTotal(a + b) == DebitTotal(a) + DebitTotal(b)
    ensures CreditTotal(a + b) == CreditTotal(a) + CreditTotal(b)
    ensures Net(a + b, code) == Net(a, code) + Net(b, code)
  {
    if b == [] {
      assert a + b == a;
    } else {
      SumsAppend(a, b[..|b| - 1], code);
      assert (a + b)[..|a + b| - 1] == a + b[..|b| - 1];
    }
  }

  /** Sum over the accounts of a chart of each account's net movement. */
  function NetOver(chart: seq<ChartAccount>, rows: seq<Row>): int {
    if chart == [] then 0
    else NetOver(chart[..|chart| - 1], rows) + Net(rows, chart[|chart| - 1].code)
  }

  lemma {:induction false} NetOverEmpty(chart: seq<ChartAccount>)
    ensures NetOver(chart, []) == 0
  {
    if chart != [] {
      NetOverEmpty(chart[..|chart| - 1]);
    }
  }

  /** One more row moves the sum over all accounts by its signed amount, once. */
  lemma {:induction false} NetOverPush(chart: seq<ChartAccount>, rows: seq<Row>, r: Row)
    requires DistinctCodes(chart)
    ensures NetOver(chart, rows + [r]) == NetOver(chart, rows) + if InChart(chart, r.code) then Signed(r) else 0
  {
    if chart != [] {
      var init, last := chart[..|chart| - 1], chart[|chart| - 1];
      NetOverPush(init, rows, r);
      assert (rows + [r])[..|rows|] == rows;
      if last.code == r.code {
        assert !InChart(init, r.code);
        assert chart[|chart| - 1].code == r.code;
      } else if InChart(chart, r.code) {
        var i :| 0 <= i < |chart| && chart[i].code == r.code;
        assert init[i].code == r.code;
      } else {
        assert forall i :: 0 <= i < |init| ==> init[i] == chart[i];
      }
    }
  }

  ghost predicate TwoSided(rows: seq<Row>) {
    forall i :: 0 <= i < |rows| ==> rows[i].direction == Debit || rows[i].direction == Credit
  }

  /** Exchange of summation order: per-account nets add up to total debits minus total credits. */
  lemma {:induction false} ExchangeSums(chart: seq<ChartAccount>, rows: seq<Row>)
    requires DistinctCodes(chart)
    requires TwoSided(rows)
    requires forall i :: 0 <= i < |rows| ==> InChart(chart, rows[i].code)
    ensures NetOver(chart, rows) == DebitTotal(rows) - CreditTotal(rows)
  {
    if rows == [] {
      NetOverEmpty(chart);
    } else {
      var init, last := rows[..|rows| - 1], rows[|rows| - 1];
      ExchangeSums(chart, init);
      NetOverPush(chart, init, last);
      assert init + [last] == rows;
    }
  }
}
