/** The data behind the category chart (`updatePieChart`): the absolute
    amounts of the month's transactions summed per category name, as
    `{name, value}` pairs sorted by value, largest first. Income and expense
    categories are not told apart; only the name counts. */
module Breakdown {
  import opened Seqs
  import opened Dates
  import opened Ledger
  import opened Totals
  import opened StableSort

  /** One `{name, value}` entry of the chart. */
  datatype Slice = Slice(name: string, value: int)

  function Names(sl: seq<Slice>): (names: seq<string>)
    ensures |names| == |sl|
    ensures forall i :: 0 <= i < |sl| ==> names[i] == sl[i].name
  {
    seq(|sl|, i requires 0 <= i < |sl| => sl[i].name)
  }

  function CategoryNames(ts: seq<Transaction>): (cs: seq<string>)
    ensures |cs| == |ts|
    ensures forall i :: 0 <= i < |ts| ==> cs[i] == ts[i].category
  {
    if |ts| == 0 then [] else CategoryNames(ts[..|ts| - 1]) + [ts[|ts| - 1].category]
  }

  function SliceValue(s: Slice): int
  {
    s.value
  }

  function AbsAmount(t: Transaction): int
  {
    Abs(t.amount)
  }

  function InCategory(c: string): Transaction -> int
  {
    (t: Transaction) => if t.category == c then Abs(t.amount) else 0
  }

  /** The sum of `|amount|` over the transactions of category `c`. */
  function CategoryTotal(ts: seq<Transaction>, c: string): int
  {
    Sum(ts, InCategory(c))
  }

  /** Position of `name` in `names`. */
  function IndexOf(names: seq<string>, name: string): (i: int)
    requires name in names
    ensures 0 <= i < |names| && names[i] == name
  {
    if names[0] == name then 0 else 1 + IndexOf(names[1..], name)
  }

  /** `categoryData[name] += value`, creating the entry at 0 first when the
      name is new; a new name goes last, as a new key of an object does. */
  function AddTo(sl: seq<Slice>, name: string, v: int): (r: seq<Slice>)
    requires Distinct(Names(sl))
    ensures Distinct(Names(r))
    ensures Names(r) == if name in Names(sl) then Names(sl) else Names(sl) + [name]
    ensures forall i :: 0 <= i < |sl| ==> r[i].value == sl[i].value + (if sl[i].name == name then v else 0)
    ensures name !in Names(sl) ==> r[|sl|].value == v
    ensures Sum(r, SliceValue) == Sum(sl, SliceValue) + v
  {
    if name in Names(sl) then
      var i := IndexOf(Names(sl), name);
      var r := sl[i := Slice(name, sl[i].value + v)];
      SumUpdate(sl, i, Slice(name, sl[i].value + v), SliceValue);
      assert Names(r) == Names(sl);
      r
    else
      var r := sl + [Slice(name, v)];
      SumConcat(sl, [Slice(name, v)], SliceValue);
      SumSingleton(Slice(name, v), SliceValue);
      assert Names(r) == Names(sl) + [name];
      r
  }

  lemma AbsentCategory(ts: seq<Transaction>, c: string)
    requires c !in CategoryNames(ts)
    ensures CategoryTotal(ts, c) == 0
  {
    forall i | 0 <= i < |ts| ensures InCategory(c)(ts[i]) == 0 {
      assert CategoryNames(ts)[i] == ts[i].category;
    }
    SumZero(ts, InCategory(c));
  }

  /** The per-category totals in order of first occurrence of each category
      (the `forEach` that fills `categoryData`). */
  function Aggregate(ts: seq<Transaction>): (r: seq<Slice>)
    ensures Names(r) == Dedup(CategoryNames(ts))
    ensures forall i :: 0 <= i < |r| ==> r[i].value == CategoryTotal(ts, r[i].name)
    ensures Sum(r, SliceValue) == Sum(ts, AbsAmount)
  {
    if |ts| == 0 then
      assert Names([]) == [];
      []
    else
      var init, t := ts[..|ts| - 1], ts[|ts| - 1];
      var sl := Aggregate(init);
      var r := AddTo(sl, t.category, Abs(t.amount));
      AggregateNames(ts, sl, r);
      AggregateValues(ts, sl, r);
      r
  }

  lemma AggregateNames(ts: seq<Transaction>, sl: seq<Slice>, r: seq<Slice>)
    requires |ts| > 0
    requires Names(sl) == Dedup(CategoryNames(ts[..|ts| - 1]))
    requires r == AddTo(sl, ts[|ts| - 1].category, Abs(ts[|ts| - 1].amount))
    ensures Names(r) == Dedup(CategoryNames(ts))
  {
    var cs, c := CategoryNames(ts), ts[|ts| - 1].category;
    var before := Dedup(CategoryNames(ts[..|ts| - 1]));
    assert cs == CategoryNames(ts[..|ts| - 1]) + [c];
    assert cs[..|cs| - 1] == CategoryNames(ts[..|ts| - 1]);
    assert Dedup(cs) == if c in before then before else before + [c];
  }

  lemma AggregateValues(ts: seq<Transaction>, sl: seq<Slice>, r: seq<Slice>)
    requires |ts| > 0
    requires Distinct(Names(sl)) && forall x :: x in CategoryNames(ts[..|ts| - 1]) ==> x in Names(sl)
    requires forall i :: 0 <= i < |sl| ==> sl[i].value == CategoryTotal(ts[..|ts| - 1], sl[i].name)
    requires r == AddTo(sl, ts[|ts| - 1].category, Abs(ts[|ts| - 1].amount))
    ensures forall i :: 0 <= i < |r| ==> r[i].value == CategoryTotal(ts, r[i].name)
  {
    var c := ts[|ts| - 1].category;
    forall i | 0 <= i < |sl| ensures r[i].value == CategoryTotal(ts, r[i].name) {
      assert Names(r)[i] == Names(sl)[i];
      CategoryStep(ts, sl[i].name);
    }
    if c !in Names(sl) {
      assert Names(r)[|sl|] == c;
      AbsentCategory(ts[..|ts| - 1], c);
      CategoryStep(ts, c);
    }
  }

  /** One more transaction adds its magnitude to its own category only. */
  lemma CategoryStep(ts: seq<Transaction>, c: string)
    requires |ts| > 0
    ensures CategoryTotal(ts, c) ==
      CategoryTotal(ts[..|ts| - 1], c) + (if ts[|ts| - 1].category == c then Abs(ts[|ts| - 1].amount) else 0)
  {
  }

  /** The sort key of `(a, b) => b.value - a.value`: larger values first. */
  function LargestFirst(s: Slice): int
  {
    -s.value
  }

  lemma DistinctNamesPermutation(a: seq<Slice>, b: seq<Slice>)
    requires multiset(a) == multiset(b)
    requires Distinct(Names(a))
    ensures Distinct(Names(b))
  {
    assert Distinct(a) by {
      forall i, j | 0 <= i < j < |a| ensures a[i] != a[j] {
        assert Names(a)[i] != Names(a)[j];
      }
    }
    DistinctPermutation(a, b);
    forall i, j | 0 <= i < j < |b| ensures Names(b)[i] != Names(b)[j] {
      assert b[i] in multiset(a) && b[j] in multiset(a);
      var p :| 0 <= p < |a| && a[p] == b[i];
      var q :| 0 <= q < |a| && a[q] == b[j];
      assert Names(a)[p] == b[i].name && Names(a)[q] == b[j].name;
    }
  }

  /** A reordering of the per-category totals keeps names unique, keeps the
      same names with the same values, and keeps their sum. */
  lemma {:induction false} ReorderSlices(sl: seq<Slice>, r: seq<Slice>, ts: seq<Transaction>)
    requires multiset(sl) == multiset(r)
    requires Distinct(Names(sl))
    requires forall i :: 0 <= i < |sl| ==> sl[i].value == CategoryTotal(ts, sl[i].name)
    ensures Distinct(Names(r))
    ensures forall c :: c in Names(r) <==> c in Names(sl)
    ensures forall i :: 0 <= i < |r| ==> r[i].value == CategoryTotal(ts, r[i].name)
    ensures Sum(r, SliceValue) == Sum(sl, SliceValue)
  {
    SumPermutation(sl, r, SliceValue);
    DistinctNamesPermutation(sl, r);
    forall c ensures c in Names(r) <==> c in Names(sl) {
      if c in Names(r) {
        var i :| 0 <= i < |r| && Names(r)[i] == c;
        assert r[i] in multiset(sl);
        var j :| 0 <= j < |sl| && sl[j] == r[i];
        assert Names(sl)[j] == c;
      }
      if c in Names(sl) {
        var i :| 0 <= i < |sl| && Names(sl)[i] == c;
        assert sl[i] in multiset(r);
        var j :| 0 <= j < |r| && r[j] == sl[i];
        assert Names(r)[j] == c;
      }
    }
    forall i | 0 <= i < |r| ensures r[i].value == CategoryTotal(ts, r[i].name) {
      assert r[i] in multiset(sl);
    }
  }

  /** Reordering transactions changes neither the categories present nor
      any category's total nor the overall magnitude. */
  lemma ReorderTransactions(a: seq<Transaction>, b: seq<Transaction>)
    requires multiset(a) == multiset(b)
    ensures forall c :: c in CategoryNames(a) <==> c in CategoryNames(b)
    ensures forall c :: CategoryTotal(a, c) == CategoryTotal(b, c)
    ensures Sum(a, AbsAmount) == Sum(b, AbsAmount)
  {
    SumPermutation(a, b, AbsAmount);
    forall c ensures CategoryTotal(a, c) == CategoryTotal(b, c) {
      SumPermutation(a, b, InCategory(c));
    }
    forall c ensures c in CategoryNames(a) <==> c in CategoryNames(b) {
      if c in CategoryNames(a) {
        var i :| 0 <= i < |a| && CategoryNames(a)[i] == c;
        assert a[i] in multiset(b);
        var j :| 0 <= j < |b| && b[j] == a[i];
        assert CategoryNames(b)[j] == c;
      }
      if c in CategoryNames(b) {
        var i :| 0 <= i < |b| && CategoryNames(b)[i] == c;
        assert b[i] in multiset(a);
        var j :| 0 <= j < |a| && a[j] == b[i];
        assert CategoryNames(a)[j] == c;
      }
    }
  }

  /** `updatePieChart`'s data for month `ym`. The month's transactions arrive
      already sorted by date (the line chart sorted the shared array), so
      categories enter the table in date order, and slices with equal values
      keep that order. */
  function CategoryBreakdown(ts: seq<Transaction>, ym: YearMonth): (r: seq<Slice>)
    ensures |MonthlyTransactions(ts, ym)| == 0 ==> r == []
    ensures Distinct(Names(r))
    ensures forall c :: c in Names(r) <==> c in CategoryNames(MonthlyTransactions(ts, ym))
    ensures forall i :: 0 <= i < |r| ==> r[i].value == CategoryTotal(MonthlyTransactions(ts, ym), r[i].name)
    ensures Sum(r, SliceValue) == Sum(MonthlyTransactions(ts, ym), AbsAmount)
    ensures forall i, j :: 0 <= i < j < |r| ==> r[i].value >= r[j].value
    ensures forall k :: WithKey(r, LargestFirst, k) ==
                        WithKey(Aggregate(SortByDate(MonthlyTransactions(ts, ym))), LargestFirst, k)
  {
    var monthly := MonthlyTransactions(ts, ym);
    var sl := Aggregate(SortByDate(monthly));
    var r := SortBy(sl, LargestFirst);
    SlicesOfMonth(monthly, sl, r);
    r
  }

  /** Any reordering of the per-category table of the date-sorted month
      describes the month itself. */
  lemma {:induction false} SlicesOfMonth(monthly: seq<Transaction>, sl: seq<Slice>, r: seq<Slice>)
    requires sl == Aggregate(SortByDate(monthly))
    requires multiset(sl) == multiset(r)
    ensures Distinct(Names(r))
    ensures forall c :: c in Names(r) <==> c in CategoryNames(monthly)
    ensures forall i :: 0 <= i < |r| ==> r[i].value == CategoryTotal(monthly, r[i].name)
    ensures Sum(r, SliceValue) == Sum(monthly, AbsAmount)
  {
    var sorted := SortByDate(monthly);
    ReorderTransactions(sorted, monthly);
    ReorderSlices(sl, r, sorted);
  }
}
