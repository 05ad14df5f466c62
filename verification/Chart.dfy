/** The default chart of accounts and its sign convention (src/lib/ledger-chart.ts). */
module Chart {

  datatype AccountType = Asset | Liability | Equity | Revenue | Expense

  datatype ChartAccount = ChartAccount(code: string, name: string, kind: AccountType)

  const DEFAULT_CHART_OF_ACCOUNTS: seq<ChartAccount> := [
    ChartAccount("1000", "Cash at Bank", Asset),
    ChartAccount("1010", "Gateway Clearing", Asset),
    ChartAccount("1100", "Accounts Receivable", Asset),
    ChartAccount("1200", "Prepaid Fees", Asset),
    ChartAccount("2000", "Accounts Payable", Liability),
    ChartAccount("2100", "Customer Credits", Liability),
    ChartAccount("2200", "Refunds Payable", Liability),
    ChartAccount("3000", "Owner Equity", Equity),
    ChartAccount("3100", "Retained Earnings", Equity),
    ChartAccount("4000", "Payment Revenue", Revenue),
    ChartAccount("4100", "Gateway Fees Revenue", Revenue),
    ChartAccount("5000", "Gateway Fees Expense", Expense),
    ChartAccount("5100", "Refund Expense", Expense),
    ChartAccount("5200", "Chargeback Expense", Expense)
  ]

  /** Asset and expense balances grow with debits; all others grow with credits. */
  predicate IsDebitNormal(kind: AccountType) {
    kind == Asset || kind == Expense
  }

  ghost predicate DistinctCodes(chart: seq<ChartAccount>) {
    forall i, j :: 0 <= i < j < |chart| ==> chart[i].code != chart[j].code
  }

  ghost predicate InChart(chart: seq<ChartAccount>, code: string) {
    exists i :: 0 <= i < |chart| && chart[i].code == code
  }

  lemma DefaultChartDistinct()
    ensures DistinctCodes(DEFAULT_CHART_OF_ACCOUNTS)
  {
    var chart := DEFAULT_CHART_OF_ACCOUNTS;
    forall i, j | 0 <= i < j < |chart|
      ensures chart[i].code != chart[j].code
    {
      assert |chart[i].code| == 4 && |chart[j].code| == 4;
    }
  }

  /** The first digit of a code says what kind of account it is. */
  lemma KindByFirstDigit(i: nat)
    requires i < |DEFAULT_CHART_OF_ACCOUNTS|
    ensures var a := DEFAULT_CHART_OF_ACCOUNTS[i];
      && |a.code| == 4
      && a.kind == match a.code[0]
                   case '1' => Asset
                   case '2' => Liability
                   case '3' => Equity
                   case '4' => Revenue
                   case _ => Expense
  {}
}
