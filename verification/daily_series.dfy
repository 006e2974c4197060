/** The data behind the trend chart: for the selected month, three arrays with
    one entry per day holding the running balance, running income and running
    expense. The imperative walk of the source (zero-fill the days before the
    first transaction, then stamp each new running total from the
    transaction's day to the end of the month) is proved equal to the
    functional meaning: entry i holds the totals over every transaction of the
    month dated on or before day i + 1. */
module DailySeries {
  import opened Seqs
  import opened Dates
  import opened Ledger
  import opened Totals
  import opened StableSort

  /** One point of a chart series: `null` (no data) or an amount. */
  datatype Cell = Gap | Filled(amount: int)

  function UpToDay(m: Metric, d: int): Transaction -> int
  {
    (t: Transaction) => if t.date.day <= d then Contribution(m, t.amount) else 0
  }

  /** The running total of metric `m` over the transactions of `ts` dated on
      or before day `d` of the month. */
  function Cumulative(m: Metric, ts: seq<Transaction>, d: int): int
  {
    Sum(ts, UpToDay(m, d))
  }

  /** Every transaction is a valid date of month `ym`. */
  predicate AllInMonth(ts: seq<Transaction>, ym: YearMonth)
  {
    forall i :: 0 <= i < |ts| ==> ValidDate(ts[i].date) && MonthOf(ts[i].date) == ym
  }

  /** Days never decrease along `ts`. */
  predicate DaySorted(ts: seq<Transaction>)
  {
    forall i, j :: 0 <= i < j < |ts| ==> ts[i].date.day <= ts[j].date.day
  }

  lemma MonthlyAllInMonth(ts: seq<Transaction>, ym: YearMonth)
    requires ValidLedger(ts)
    ensures AllInMonth(MonthlyTransactions(ts, ym), ym)
  {
    var r := MonthlyTransactions(ts, ym);
    forall i | 0 <= i < |r| ensures ValidDate(r[i].date) && MonthOf(r[i].date) == ym {
      assert r[i] in r;
    }
  }

  /** Sorting the month's transactions by date sorts them by day. */
  lemma SortedByDay(ts: seq<Transaction>, ym: YearMonth)
    requires AllInMonth(ts, ym)
    ensures AllInMonth(SortByDate(ts), ym)
    ensures DaySorted(SortByDate(ts))
  {
    var s := SortByDate(ts);
    SortByMembers(ts, DateKey);
    forall i | 0 <= i < |s| ensures ValidDate(s[i].date) && MonthOf(s[i].date) == ym {
      assert s[i] in ts;
    }
  }

  /** The 0-based day of the first transaction after the sort, or `days` when
      the month has none (`firstTransactionDay`). It is the earliest day of
      the month's transactions. */
  function FirstTransactionDay(ts: seq<Transaction>, ym: YearMonth): (first: int)
    requires ValidMonth(ym) && ValidLedger(ts)
    ensures 0 <= first <= DaysInMonth(ym)
    ensures |MonthlyTransactions(ts, ym)| == 0 ==> first == DaysInMonth(ym)
    ensures forall t :: t in MonthlyTransactions(ts, ym) ==> first <= t.date.day - 1
    ensures |MonthlyTransactions(ts, ym)| > 0 ==>
              exists t :: t in MonthlyTransactions(ts, ym) && first == t.date.day - 1
  {
    var monthly := MonthlyTransactions(ts, ym);
    var sorted := SortByDate(monthly);
    MonthlyAllInMonth(ts, ym);
    SortedByDay(monthly, ym);
    SortByMembers(monthly, DateKey);
    if |sorted| > 0 then
      assert sorted[0] in monthly;
      assert forall t :: t in monthly ==> sorted[0].date.day <= t.date.day by {
        forall t | t in monthly ensures sorted[0].date.day <= t.date.day {
          assert t in sorted;
        }
      }
      sorted[0].date.day - 1
    else
      DaysInMonth(ym)
  }

  /** The value of entry `x` after the first `k` sorted transactions have
      been walked, given the zero prefix below `first`. */
  function Expected(m: Metric, sorted: seq<Transaction>, k: int, first: int, x: int): Cell
    requires 0 <= k <= |sorted|
  {
    if x < first then Filled(0)
    else if k == 0 then Gap
    else Filled(Cumulative(m, sorted[..k], x + 1))
  }

  ghost predicate Walked(cells: seq<Cell>, m: Metric, sorted: seq<Transaction>, k: int, first: int)
    requires 0 <= k <= |sorted|
  {
    forall x :: 0 <= x < |cells| ==> cells[x] == Expected(m, sorted, k, first, x)
  }

  lemma TotalStep(m: Metric, s: seq<Transaction>, k: int)
    requires 0 <= k < |s|
    ensures Total(m, s[..k + 1]) == Total(m, s[..k]) + Contribution(m, s[k].amount)
  {
    assert s[..k + 1][..k] == s[..k];
  }

  /** Stamping the running total of the first `k + 1` transactions from day
      `sorted[k]` on yields the state after `k + 1` transactions. */
  lemma StampStep(m: Metric, sorted: seq<Transaction>, k: int, first: int, x: int)
    requires DaySorted(sorted)
    requires 0 <= k < |sorted|
    requires first == sorted[0].date.day - 1
    requires 0 <= x
    ensures Expected(m, sorted, k + 1, first, x)
         == if sorted[k].date.day - 1 <= x then Filled(Total(m, sorted[..k + 1]))
            else Expected(m, sorted, k, first, x)
  {
    var s := sorted[..k + 1];
    if sorted[k].date.day - 1 <= x {
      assert x >= first by {
        if k > 0 {
          assert sorted[0].date.day <= sorted[k].date.day;
        }
      }
      SumAgree(s, UpToDay(m, x + 1), Weight(m));
    } else if x >= first {
      assert s[..k] == sorted[..k];
    }
  }

  /** After the walk, every entry is the running total up to its day. */
  lemma WalkComplete(m: Metric, monthly: seq<Transaction>, sorted: seq<Transaction>, first: int, x: int)
    requires multiset(sorted) == multiset(monthly)
    requires DaySorted(sorted)
    requires |sorted| > 0 ==> first == sorted[0].date.day - 1
    requires |sorted| == 0 ==> first > x
    requires 0 <= x
    ensures Expected(m, sorted, |sorted|, first, x) == Filled(Cumulative(m, monthly, x + 1))
  {
    SumPermutation(sorted, monthly, UpToDay(m, x + 1));
    if x < first {
      forall i | 0 <= i < |sorted| ensures UpToDay(m, x + 1)(sorted[i]) == 0 {
        assert sorted[0].date.day <= sorted[i].date.day;
      }
      SumZero(sorted, UpToDay(m, x + 1));
    } else {
      assert sorted[..|sorted|] == sorted;
    }
  }

  /** One step of the walk on one series: stamping the new running total from
      the transaction's day on turns the state after `k` transactions into the
      state after `k + 1`. */
  lemma WalkStep(before: seq<Cell>, after: seq<Cell>, m: Metric, sorted: seq<Transaction>, k: int, first: int,
                 day: int, v: int)
    requires DaySorted(sorted)
    requires 0 <= k < |sorted|
    requires first == sorted[0].date.day - 1
    requires day == sorted[k].date.day - 1 && v == Total(m, sorted[..k + 1])
    requires Walked(before, m, sorted, k, first)
    requires |after| == |before|
    requires forall x :: 0 <= x < |after| ==> after[x] == if day <= x then Filled(v) else before[x]
    ensures Walked(after, m, sorted, k + 1, first)
  {
    forall x | 0 <= x < |after| ensures after[x] == Expected(m, sorted, k + 1, first, x) {
      StampStep(m, sorted, k, first, x);
    }
  }

  lemma WalkDone(cells: seq<Cell>, m: Metric, monthly: seq<Transaction>, sorted: seq<Transaction>, first: int)
    requires multiset(sorted) == multiset(monthly)
    requires DaySorted(sorted)
    requires |sorted| > 0 ==> first == sorted[0].date.day - 1
    requires |sorted| == 0 ==> first >= |cells|
    requires Walked(cells, m, sorted, |sorted|, first)
    ensures forall x :: 0 <= x < |cells| ==> cells[x] == Filled(Cumulative(m, monthly, x + 1))
  {
    forall x | 0 <= x < |cells| ensures cells[x] == Filled(Cumulative(m, monthly, x + 1)) {
      WalkComplete(m, monthly, sorted, first, x);
    }
  }

  /** Writes `v` into entries `lo` to `hi - 1` of `cells`, one index at a time
      (the `for` loops of `updateLineChart` that zero-fill and stamp). */
  method Fill(cells: seq<Cell>, lo: int, hi: int, v: Cell) returns (r: seq<Cell>)
    requires 0 <= lo <= hi <= |cells|
    ensures |r| == |cells|
    ensures forall x :: 0 <= x < |r| ==> r[x] == if lo <= x < hi then v else cells[x]
  {
    r := cells;
    var j := lo;
    while j < hi
      invariant lo <= j <= hi
      invariant |r| == |cells|
      invariant forall x :: 0 <= x < |r| ==> r[x] == if lo <= x < j then v else cells[x]
    {
      r := r[j := v];
      j := j + 1;
    }
  }

  /** Writes the running total `v` of the first `k + 1` sorted transactions
      from the day of transaction `k` to the end of the month. */
  method Stamp(cells: seq<Cell>, m: Metric, sorted: seq<Transaction>, k: int, first: int, v: int)
    returns (r: seq<Cell>)
    requires DaySorted(sorted)
    requires 0 <= k < |sorted|
    requires first == sorted[0].date.day - 1
    requires 1 <= sorted[k].date.day <= |cells| + 1
    requires v == Total(m, sorted[..k + 1])
    requires Walked(cells, m, sorted, k, first)
    ensures |r| == |cells|
    ensures Walked(r, m, sorted, k + 1, first)
  {
    var day := sorted[k].date.day - 1;
    r := Fill(cells, day, |cells|, Filled(v));
    WalkStep(cells, r, m, sorted, k, first, day, v);
  }

  /** The walk over the date-sorted transactions: keeps the three running
      totals and stamps each one from the transaction's day to the end of the
      month. */
  method Walk(sorted: seq<Transaction>, first: int, net0: seq<Cell>, income0: seq<Cell>, expense0: seq<Cell>)
    returns (net: seq<Cell>, income: seq<Cell>, expense: seq<Cell>)
    requires DaySorted(sorted)
    requires |sorted| > 0 ==> first == sorted[0].date.day - 1
    requires |income0| == |net0| && |expense0| == |net0|
    requires forall i :: 0 <= i < |sorted| ==> 1 <= sorted[i].date.day <= |net0|
    requires Walked(net0, Net, sorted, 0, first)
    requires Walked(income0, Income, sorted, 0, first)
    requires Walked(expense0, Expense, sorted, 0, first)
    ensures |net| == |net0| && |income| == |net0| && |expense| == |net0|
    ensures Walked(net, Net, sorted, |sorted|, first)
    ensures Walked(income, Income, sorted, |sorted|, first)
    ensures Walked(expense, Expense, sorted, |sorted|, first)
  {
    net, income, expense := net0, income0, expense0;
    var runningTotal, runningIncome, runningExpense := 0, 0, 0;
    var k := 0;
    while k < |sorted|
      invariant 0 <= k <= |sorted|
      invariant |net| == |net0| && |income| == |net0| && |expense| == |net0|
      invariant Walked(net, Net, sorted, k, first)
      invariant Walked(income, Income, sorted, k, first)
      invariant Walked(expense, Expense, sorted, k, first)
      invariant runningTotal == Total(Net, sorted[..k])
      invariant runningIncome == Total(Income, sorted[..k])
      invariant runningExpense == Total(Expense, sorted[..k])
    {
      var t := sorted[k];
      runningTotal := runningTotal + t.amount;
      if t.amount > 0 {
        runningIncome := runningIncome + t.amount;
      } else {
        runningExpense := runningExpense + Abs(t.amount);
      }
      TotalStep(Net, sorted, k);
      TotalStep(Income, sorted, k);
      TotalStep(Expense, sorted, k);
      net := Stamp(net, Net, sorted, k, first, runningTotal);
      income := Stamp(income, Income, sorted, k, first, runningIncome);
      expense := Stamp(expense, Expense, sorted, k, first, runningExpense);
      k := k + 1;
    }
  }

  /** `updateLineChart`'s arrays for month `ym`: the transactions of the month
      are sorted by date, the days before the first one are set to 0, and each
      transaction's running totals are written from its day to the end of the
      month. Every entry ends up filled with the running total up to its day. */
  method ComputeDailySeries(ts: seq<Transaction>, ym: YearMonth)
    returns (net: seq<Cell>, income: seq<Cell>, expense: seq<Cell>)
    requires ValidMonth(ym)
    requires ValidLedger(ts)
    ensures |net| == DaysInMonth(ym) && |income| == DaysInMonth(ym) && |expense| == DaysInMonth(ym)
    ensures forall x :: 0 <= x < |net| ==>
              net[x] == Filled(Cumulative(Net, MonthlyTransactions(ts, ym), x + 1))
    ensures forall x :: 0 <= x < |income| ==>
              income[x] == Filled(Cumulative(Income, MonthlyTransactions(ts, ym), x + 1))
    ensures forall x :: 0 <= x < |expense| ==>
              expense[x] == Filled(Cumulative(Expense, MonthlyTransactions(ts, ym), x + 1))
  {
    var days := DaysInMonth(ym);
    var monthly := MonthlyTransactions(ts, ym);
    var sorted := SortByDate(monthly);
    MonthlyAllInMonth(ts, ym);
    SortedByDay(monthly, ym);

    net := seq(days, _ => Gap);
    income := seq(days, _ => Gap);
    expense := seq(days, _ => Gap);
    var first := FirstTransactionDay(ts, ym);
    net := Fill(net, 0, first, Filled(0));
    income := Fill(income, 0, first, Filled(0));
    expense := Fill(expense, 0, first, Filled(0));

    assert forall i :: 0 <= i < |sorted| ==> 1 <= sorted[i].date.day <= days by {
      forall i | 0 <= i < |sorted| ensures 1 <= sorted[i].date.day <= days {
        assert ValidDate(sorted[i].date) && MonthOf(sorted[i].date) == ym;
      }
    }
    net, income, expense := Walk(sorted, first, net, income, expense);

    WalkDone(net, Net, monthly, sorted, first);
    WalkDone(income, Income, monthly, sorted, first);
    WalkDone(expense, Expense, monthly, sorted, first);
  }

  // ----- Properties of the series ------------------------------------------

  /** Every day before the first transaction's day reads 0 in all three
      series, and so does every day of a month without transactions. */
  lemma ZeroPrefix(ts: seq<Transaction>, ym: YearMonth, m: Metric, x: int)
    requires ValidMonth(ym) && ValidLedger(ts)
    requires 0 <= x < FirstTransactionDay(ts, ym)
    ensures Cumulative(m, MonthlyTransactions(ts, ym), x + 1) == 0
  {
    var monthly := MonthlyTransactions(ts, ym);
    forall i | 0 <= i < |monthly| ensures UpToDay(m, x + 1)(monthly[i]) == 0 {
      assert monthly[i] in monthly;
    }
    SumZero(monthly, UpToDay(m, x + 1));
  }

  /** The income and expense series never go below 0 and never decrease from
      one day to the next. */
  lemma IncomeExpenseMonotone(ts: seq<Transaction>, m: Metric, d: int)
    requires m == Income || m == Expense
    ensures 0 <= Cumulative(m, ts, d) <= Cumulative(m, ts, d + 1)
  {
    SumNonnegative(ts, UpToDay(m, d));
    SumMonotone(ts, UpToDay(m, d), UpToDay(m, d + 1));
  }

  /** On every day the balance is the income so far minus the expense so far. */
  lemma {:induction false} BalanceIsIncomeMinusExpense(ts: seq<Transaction>, d: int)
    ensures Cumulative(Net, ts, d) == Cumulative(Income, ts, d) - Cumulative(Expense, ts, d)
    decreases |ts|
  {
    if |ts| > 0 {
      BalanceIsIncomeMinusExpense(ts[..|ts| - 1], d);
    }
  }

  /** The last day of the month carries the month's summary figures. */
  lemma {:induction false} LastDayIsMonthTotal(ts: seq<Transaction>, ym: YearMonth)
    requires ValidMonth(ym) && ValidLedger(ts)
    ensures Cumulative(Net, MonthlyTransactions(ts, ym), DaysInMonth(ym))
         == ComputeTotals(MonthlyTransactions(ts, ym)).balance
    ensures Cumulative(Income, MonthlyTransactions(ts, ym), DaysInMonth(ym))
         == ComputeTotals(MonthlyTransactions(ts, ym)).income
    ensures Cumulative(Expense, MonthlyTransactions(ts, ym), DaysInMonth(ym))
         == ComputeTotals(MonthlyTransactions(ts, ym)).expense
  {
    var monthly := MonthlyTransactions(ts, ym);
    var days := DaysInMonth(ym);
    MonthlyAllInMonth(ts, ym);
    SumAgree(monthly, UpToDay(Net, days), Weight(Net));
    SumAgree(monthly, UpToDay(Income, days), Weight(Income));
    SumAgree(monthly, UpToDay(Expense, days), Weight(Expense));
  }

  /** The running totals depend only on which transactions the month holds,
      not on their order: same-day transactions collapse to the total after
      the last of them, whatever order they were stored in. */
  lemma CumulativeOrderFree(a: seq<Transaction>, b: seq<Transaction>, m: Metric, d: int)
    requires multiset(a) == multiset(b)
    ensures Cumulative(m, a, d) == Cumulative(m, b, d)
  {
    SumPermutation(a, b, UpToDay(m, d));
  }

  /** +100 on the 1st and -30 on the 5th: income stays at 100, expense is 0
      until the 4th and 30 from the 5th, the balance goes from 100 to 70. */
  lemma TwoTransactionExample(d: int)
    requires 1 <= d <= 31
    ensures var ts := [Transaction(1, "pay", 100, "Salary", Date(2024, 3, 1)),
                       Transaction(2, "lunch", -30, "Food", Date(2024, 3, 5))];
            && Cumulative(Income, ts, d) == 100
            && Cumulative(Expense, ts, d) == (if d < 5 then 0 else 30)
            && Cumulative(Net, ts, d) == (if d < 5 then 100 else 70)
  {
    var ts := [Transaction(1, "pay", 100, "Salary", Date(2024, 3, 1)),
               Transaction(2, "lunch", -30, "Food", Date(2024, 3, 5))];
    assert ts == [ts[0]] + [ts[1]];
    forall m: Metric
      ensures Cumulative(m, ts, d) == UpToDay(m, d)(ts[0]) + UpToDay(m, d)(ts[1])
    {
      SumConcat([ts[0]], [ts[1]], UpToDay(m, d));
      SumSingleton(ts[0], UpToDay(m, d));
      SumSingleton(ts[1], UpToDay(m, d));
    }
  }
}
