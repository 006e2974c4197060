/** The transaction store: the records themselves, the month filter that feeds
    both charts, and deletion by identifier. */
module Ledger {
  import opened Seqs
  import opened Dates
  import opened StableSort

  /** One recorded income or expense. `amount` is in cents: positive for
      income, negative for an expense. */
  datatype Transaction = Transaction(
    id: int,
    description: string,
    amount: int,
    category: string,
    date: Date)

  /** Every stored date is one a date input can produce. */
  predicate ValidLedger(ts: seq<Transaction>)
  {
    forall i :: 0 <= i < |ts| ==> ValidDate(ts[i].date)
  }

  predicate InMonth(t: Transaction, ym: YearMonth)
  {
    MonthOf(t.date) == ym
  }

  function OfMonth(ym: YearMonth): Transaction -> bool
  {
    (t: Transaction) => InMonth(t, ym)
  }

  function OtherThan(id: int): Transaction -> bool
  {
    (t: Transaction) => t.id != id
  }

  /** The transactions of the selected month, in store order
      (`t.date.startsWith(selectedMonth)`). */
  function MonthlyTransactions(ts: seq<Transaction>, ym: YearMonth): (r: seq<Transaction>)
    ensures forall t :: t in r <==> t in ts && MonthOf(t.date) == ym
    ensures ValidLedger(ts) ==> ValidLedger(r)
    ensures (forall i :: 0 <= i < |ts| ==> MonthOf(ts[i].date) == ym) ==> r == ts
  {
    Filter(ts, OfMonth(ym))
  }

  /** The month filter keeps the store's order and multiplicity: it acts on
      each part of a store independently. */
  lemma MonthlyKeepsOrder(a: seq<Transaction>, b: seq<Transaction>, ym: YearMonth)
    ensures MonthlyTransactions(a + b, ym) == MonthlyTransactions(a, ym) + MonthlyTransactions(b, ym)
  {
    FilterConcat(a, b, OfMonth(ym));
  }

  /** Comparing the "YYYY-MM" prefix of a date's ISO string with the selected
      month's key selects exactly the transactions of that month. */
  lemma {:induction false} MonthPrefixSelectsMonth(t: Transaction, ym: YearMonth)
    requires ValidDate(t.date) && 0 <= t.date.year <= 9999
    requires ValidMonth(ym) && 0 <= ym.year <= 9999
    ensures MonthKey(MonthOf(t.date)) == MonthKey(ym) <==> InMonth(t, ym)
  {
    MonthKeyOrder(MonthOf(t.date), ym);
  }

  /** The sort key of `new Date(a.date) - new Date(b.date)`. */
  function DateKey(t: Transaction): int
  {
    DateOrdinal(t.date)
  }

  /** The month's transactions sorted by date, same-day ones in store order.
      The line chart sorts the month's array in place, so the category chart,
      which is handed the same array afterwards, also sees this order. */
  function SortByDate(ts: seq<Transaction>): seq<Transaction>
  {
    SortBy(ts, DateKey)
  }

  /** The store after deleting every transaction with identifier `id`. */
  function RemoveTransaction(ts: seq<Transaction>, id: int): (r: seq<Transaction>)
    ensures forall t :: t in r <==> t in ts && t.id != id
    ensures (forall i :: 0 <= i < |ts| ==> ts[i].id != id) ==> r == ts
  {
    Filter(ts, OtherThan(id))
  }

  /** Deletion keeps the surviving transactions in their original order: it
      acts on each part of a store independently. */
  lemma RemoveKeepsOrder(a: seq<Transaction>, b: seq<Transaction>, id: int)
    ensures RemoveTransaction(a + b, id) == RemoveTransaction(a, id) + RemoveTransaction(b, id)
  {
    FilterConcat(a, b, OtherThan(id));
  }

  /** Deleting the same identifier twice is deleting it once. */
  lemma RemoveIdempotent(ts: seq<Transaction>, id: int)
    ensures RemoveTransaction(RemoveTransaction(ts, id), id) == RemoveTransaction(ts, id)
  {
    var r := RemoveTransaction(ts, id);
    assert forall i :: 0 <= i < |r| ==> r[i].id != id by {
      forall i | 0 <= i < |r| ensures r[i].id != id {
        assert r[i] in r;
      }
    }
  }
}
