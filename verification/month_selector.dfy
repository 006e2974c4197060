/** The months offered by the month selector (`updateMonthSelector`): every
    month that has a transaction, plus the current month, newest first. */
module MonthSelector {
  import opened Seqs
  import opened Dates
  import opened Ledger
  import opened StableSort

  /** The month of each transaction, in store order. */
  function TransactionMonths(ts: seq<Transaction>): (ms: seq<YearMonth>)
    ensures |ms| == |ts|
    ensures forall i :: 0 <= i < |ts| ==> ms[i] == MonthOf(ts[i].date)
  {
    if |ts| == 0 then [] else TransactionMonths(ts[..|ts| - 1]) + [MonthOf(ts[|ts| - 1].date)]
  }

  /** Sort key putting later months first. */
  function Newest(ym: YearMonth): int
  {
    -MonthIndex(ym)
  }

  /** The selector's months: the distinct transaction months with the current
      month added when missing, sorted from newest to oldest. */
  function MonthOptions(ts: seq<Transaction>, current: YearMonth): (r: seq<YearMonth>)
    requires ValidLedger(ts) && ValidMonth(current)
    ensures Distinct(r)
    ensures current in r
    ensures forall i :: 0 <= i < |ts| ==> MonthOf(ts[i].date) in r
    ensures forall ym :: ym in r <==> ym == current || ym in TransactionMonths(ts)
    ensures forall i :: 0 <= i < |r| ==> ValidMonth(r[i])
    ensures forall i, j :: 0 <= i < j < |r| ==> MonthBefore(r[j], r[i])
  {
    var months := Dedup(TransactionMonths(ts));
    var all := if current in months then months else months + [current];
    CandidateMonths(ts, current, months, all);
    var r := SortBy(all, Newest);
    NewestFirst(all, r);
    forall i | 0 <= i < |ts| ensures MonthOf(ts[i].date) in r {
      assert TransactionMonths(ts)[i] == MonthOf(ts[i].date);
    }
    r
  }

  /** The months before sorting: distinct, valid, and exactly the current
      month together with the transactions' months. */
  lemma CandidateMonths(ts: seq<Transaction>, current: YearMonth, months: seq<YearMonth>, all: seq<YearMonth>)
    requires ValidLedger(ts) && ValidMonth(current)
    requires months == Dedup(TransactionMonths(ts))
    requires all == if current in months then months else months + [current]
    ensures Distinct(all)
    ensures forall ym :: ym in all <==> ym == current || ym in TransactionMonths(ts)
    ensures forall ym :: ym in all ==> ValidMonth(ym)
  {
    if current !in months {
      DistinctAppend(months, current);
    }
    forall ym | ym in all ensures ValidMonth(ym) {
      if ym != current {
        MonthsValid(ts, ym);
      }
    }
  }

  /** Sorting by `Newest` a distinct sequence of months keeps its months and
      orders them strictly from newest to oldest. */
  lemma NewestFirst(all: seq<YearMonth>, r: seq<YearMonth>)
    requires Distinct(all) && forall ym :: ym in all ==> ValidMonth(ym)
    requires multiset(r) == multiset(all) && SortedBy(r, Newest)
    ensures Distinct(r)
    ensures forall ym :: ym in r <==> ym in all
    ensures forall i :: 0 <= i < |r| ==> ValidMonth(r[i])
    ensures forall i, j :: 0 <= i < j < |r| ==> MonthBefore(r[j], r[i])
  {
    DistinctPermutation(all, r);
    forall ym ensures ym in r <==> ym in all {
      assert ym in r <==> ym in multiset(r);
      assert ym in all <==> ym in multiset(all);
    }
    forall i | 0 <= i < |r| ensures ValidMonth(r[i]) {
      assert r[i] in all;
    }
    forall i, j | 0 <= i < j < |r| ensures MonthBefore(r[j], r[i]) {
      MonthIndexOrder(r[j], r[i]);
    }
  }

  lemma MonthsValid(ts: seq<Transaction>, ym: YearMonth)
    requires ValidLedger(ts)
    requires ym in TransactionMonths(ts)
    ensures ValidMonth(ym)
  {
    var k :| 0 <= k < |ts| && TransactionMonths(ts)[k] == ym;
  }

  /** Every stored date and the current month have four-digit years. */
  predicate FourDigitYears(ts: seq<Transaction>, current: YearMonth)
  {
    0 <= current.year <= 9999 && forall i :: 0 <= i < |ts| ==> 0 <= ts[i].date.year <= 9999
  }

  /** On the "YYYY-MM" keys the source works with, the options are distinct
      keys in descending string order (`b.localeCompare(a)`): a `Set` of keys
      and the set of months hold the same months, sorted the same way. */
  lemma OptionKeysDescending(ts: seq<Transaction>, current: YearMonth)
    requires ValidLedger(ts) && ValidMonth(current) && FourDigitYears(ts, current)
    ensures var r := MonthOptions(ts, current);
      (forall i :: 0 <= i < |r| ==> 0 <= r[i].year <= 9999) &&
      forall i, j :: 0 <= i < j < |r| ==>
        LexLess(MonthKey(r[j]), MonthKey(r[i])) && MonthKey(r[j]) != MonthKey(r[i])
  {
    var r := MonthOptions(ts, current);
    forall i | 0 <= i < |r| ensures 0 <= r[i].year <= 9999 {
      assert r[i] in r;
      if r[i] != current {
        var k :| 0 <= k < |ts| && TransactionMonths(ts)[k] == r[i];
      }
    }
    forall i, j | 0 <= i < j < |r|
      ensures LexLess(MonthKey(r[j]), MonthKey(r[i])) && MonthKey(r[j]) != MonthKey(r[i])
    {
      assert MonthBefore(r[j], r[i]);
      MonthKeyOrder(r[j], r[i]);
    }
  }

  /** With no transactions the selector offers the current month alone. */
  lemma EmptyStoreOffersCurrent(current: YearMonth)
    requires ValidMonth(current)
    ensures MonthOptions([], current) == [current]
  {
    var r := MonthOptions([], current);
    assert forall ym :: ym in r ==> ym == current;
  }
}
