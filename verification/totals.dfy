/** The three summary figures: balance, income and expense. `updateValues`
    computes them by filtering the amounts by sign; the line chart accumulates
    the same three quantities transaction by transaction. Both views are
    defined here and proved to agree. */
module Totals {
  import opened Seqs
  import opened Ledger

  /** The three quantities the tracker follows. */
  datatype Metric = Net | Income | Expense

  function Abs(x: int): nat
  {
    if x < 0 then -x else x
  }

  /** What one amount adds to a running total of metric `m`: the net total
      takes the signed amount; income takes positive amounts; expense takes
      the magnitude of the others (the chart's `else` branch). */
  function Contribution(m: Metric, amount: int): int
  {
    match m
    case Net => amount
    case Income => if amount > 0 then amount else 0
    case Expense => if amount > 0 then 0 else Abs(amount)
  }

  function Weight(m: Metric): Transaction -> int
  {
    (t: Transaction) => Contribution(m, t.amount)
  }

  /** The total of metric `m` over `ts`. */
  function Total(m: Metric, ts: seq<Transaction>): int
  {
    Sum(ts, Weight(m))
  }

  datatype Summary = Summary(balance: int, income: int, expense: int)

  function AmountOf(t: Transaction): int
  {
    t.amount
  }

  predicate IsCredit(t: Transaction)
  {
    t.amount > 0
  }

  predicate IsDebit(t: Transaction)
  {
    t.amount < 0
  }

  /** The figures shown above the charts: the sum of all amounts, the sum of
      the positive ones, and the negated sum of the negative ones. */
  function ComputeTotals(ts: seq<Transaction>): (r: Summary)
    ensures r.balance == r.income - r.expense
    ensures r.income >= 0 && r.expense >= 0
    ensures |ts| == 0 ==> r == Summary(0, 0, 0)
    ensures r.balance == Total(Net, ts)
    ensures r.income == Total(Income, ts)
    ensures r.expense == Total(Expense, ts)
  {
    CreditsAreIncome(ts);
    DebitsAreExpense(ts);
    NetIsSignedSum(ts);
    NetSplits(ts);
    SumNonnegative(ts, Weight(Income));
    SumNonnegative(ts, Weight(Expense));
    Summary(
      Sum(ts, AmountOf),
      Sum(Filter(ts, IsCredit), AmountOf),
      -Sum(Filter(ts, IsDebit), AmountOf))
  }

  lemma {:induction false} CreditsAreIncome(ts: seq<Transaction>)
    ensures Sum(Filter(ts, IsCredit), AmountOf) == Total(Income, ts)
    decreases |ts|
  {
    if |ts| > 0 {
      var init, t := ts[..|ts| - 1], ts[|ts| - 1];
      CreditsAreIncome(init);
      if IsCredit(t) {
        SumConcat(Filter(init, IsCredit), [t], AmountOf);
        SumSingleton(t, AmountOf);
      }
    }
  }

  lemma {:induction false} DebitsAreExpense(ts: seq<Transaction>)
    ensures -Sum(Filter(ts, IsDebit), AmountOf) == Total(Expense, ts)
    decreases |ts|
  {
    if |ts| > 0 {
      var init, t := ts[..|ts| - 1], ts[|ts| - 1];
      DebitsAreExpense(init);
      if IsDebit(t) {
        SumConcat(Filter(init, IsDebit), [t], AmountOf);
        SumSingleton(t, AmountOf);
      }
    }
  }

  lemma NetIsSignedSum(ts: seq<Transaction>)
    ensures Sum(ts, AmountOf) == Total(Net, ts)
  {
    SumAgree(ts, AmountOf, Weight(Net));
  }

  /** Every amount is split between income and expense. */
  lemma {:induction false} NetSplits(ts: seq<Transaction>)
    ensures Total(Net, ts) == Total(Income, ts) - Total(Expense, ts)
    decreases |ts|
  {
    if |ts| > 0 {
      NetSplits(ts[..|ts| - 1]);
    }
  }

  /** The figures of two stores together are the sums of their figures. */
  lemma TotalsConcat(a: seq<Transaction>, b: seq<Transaction>)
    ensures ComputeTotals(a + b).balance == ComputeTotals(a).balance + ComputeTotals(b).balance
    ensures ComputeTotals(a + b).income == ComputeTotals(a).income + ComputeTotals(b).income
    ensures ComputeTotals(a + b).expense == ComputeTotals(a).expense + ComputeTotals(b).expense
  {
    SumConcat(a, b, Weight(Net));
    SumConcat(a, b, Weight(Income));
    SumConcat(a, b, Weight(Expense));
  }

  /** The figures do not depend on the order of the store. */
  lemma TotalsPermutation(a: seq<Transaction>, b: seq<Transaction>)
    requires multiset(a) == multiset(b)
    ensures ComputeTotals(a) == ComputeTotals(b)
  {
    SumPermutation(a, b, Weight(Net));
    SumPermutation(a, b, Weight(Income));
    SumPermutation(a, b, Weight(Expense));
  }
}
