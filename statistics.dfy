/**
 * Summaries over the records of a period (code_cpp/src/Statistics.cpp).
 * A period is a date prefix ("2025-01" selects January 2025, the empty
 * period selects everything). The time summary adds up income and expense;
 * the category summary adds up the amounts per category in an ordered map,
 * gives each category its share of the grand total, and orders the
 * categories by amount, largest first.
 */
module Summaries {
  import opened Text
  import opened Records

  datatype Mode = TimeMode | CategoryMode

  datatype TimeSummary = TimeSummary(period: string, income: int, expense: int, balance: int, count: nat)

  datatype Item = Item(category: string, amount: int, percentage: real)

  // ---------------------------------------------------------------------
  // Which records a period selects, and what they add up to
  // ---------------------------------------------------------------------

  /** The date starts with the period; the empty period accepts every date. */
  predicate InPeriod(date: string, period: string) {
    period == "" || period <= date
  }

  /** The records of the period, in input order. */
  function Included(rs: seq<Record>, period: string): seq<Record> {
    if |rs| == 0 then []
    else
      var r := rs[|rs| - 1];
      Included(rs[..|rs| - 1], period) + (if InPeriod(r.date, period) then [r] else [])
  }

  function IncomeTotal(rs: seq<Record>): int {
    if |rs| == 0 then 0
    else IncomeTotal(rs[..|rs| - 1]) + (if rs[|rs| - 1].kind == Income then rs[|rs| - 1].amount else 0)
  }

  function ExpenseTotal(rs: seq<Record>): int {
    if |rs| == 0 then 0
    else ExpenseTotal(rs[..|rs| - 1]) + (if rs[|rs| - 1].kind == Expense then rs[|rs| - 1].amount else 0)
  }

  /** All amounts added up, whatever their type. */
  function AmountSum(rs: seq<Record>): int {
    if |rs| == 0 then 0 else AmountSum(rs[..|rs| - 1]) + rs[|rs| - 1].amount
  }

  /** The amounts of one category added up. */
  function CategoryTotal(rs: seq<Record>, cat: string): int {
    if |rs| == 0 then 0
    else CategoryTotal(rs[..|rs| - 1], cat) + (if rs[|rs| - 1].category == cat then rs[|rs| - 1].amount else 0)
  }

  ghost function CategoriesOf(rs: seq<Record>): set<string> {
    set r | r in rs :: r.category
  }

  /** A category's share of the grand total in percent; zero unless the total is positive. */
  function Percentage(amount: int, grand: int): real {
    if grand > 0 then (amount as real / grand as real) * 100.0 else 0.0
  }

  // ---------------------------------------------------------------------
  // The ordered map from category to running total (std::map)
  // ---------------------------------------------------------------------

  /** Map entries in iteration order: keys strictly increasing. */
  predicate SortedKeys(t: seq<(string, int)>) {
    |t| <= 1 || (LexLess(t[0].0, t[1].0) && SortedKeys(t[1..]))
  }

  function KeySet(t: seq<(string, int)>): set<string> {
    if |t| == 0 then {} else {t[0].0} + KeySet(t[1..])
  }

  /** The value stored under k, or 0 when there is none (what operator[] starts from). */
  function Lookup(t: seq<(string, int)>, k: string): int {
    if |t| == 0 then 0 else if t[0].0 == k then t[0].1 else Lookup(t[1..], k)
  }

  function SumValues(t: seq<(string, int)>): int {
    if |t| == 0 then 0 else t[0].1 + SumValues(t[1..])
  }

  /** totals[cat] += a: add to the entry of cat, or insert it at its place in key order. */
  function AddAmount(t: seq<(string, int)>, cat: string, a: int): seq<(string, int)> {
    if |t| == 0 then [(cat, a)]
    else if t[0].0 == cat then [(cat, t[0].1 + a)] + t[1..]
    else if LexLess(cat, t[0].0) then [(cat, a)] + t
    else [t[0]] + AddAmount(t[1..], cat, a)
  }

  /** The per-category totals of rs, in the map built record by record. */
  function CategoryTotals(rs: seq<Record>): seq<(string, int)> {
    if |rs| == 0 then []
    else AddAmount(CategoryTotals(rs[..|rs| - 1]), rs[|rs| - 1].category, rs[|rs| - 1].amount)
  }

  // ---------------------------------------------------------------------
  // Sorting by amount, largest first (std::sort with a.amount > b.amount)
  // ---------------------------------------------------------------------

  predicate NonIncreasing(items: seq<Item>) {
    forall i, j :: 0 <= i < j < |items| ==> items[i].amount >= items[j].amount
  }

  /** Insert x into a list ordered largest first, after the items at least as large. */
  function InsertByAmount(s: seq<Item>, x: Item): seq<Item> {
    if |s| == 0 then [x]
    else if s[0].amount >= x.amount then [s[0]] + InsertByAmount(s[1..], x)
    else [x] + s
  }

  function SortByAmount(s: seq<Item>): seq<Item> {
    if |s| == 0 then [] else InsertByAmount(SortByAmount(s[..|s| - 1]), s[|s| - 1])
  }

  // ---------------------------------------------------------------------
  // What a category summary is
  // ---------------------------------------------------------------------

  /**
   * One item per category of rs, each carrying that category's total and
   * its share of the total of all amounts in rs.
   */
  ghost predicate DescribesCategories(items: seq<Item>, rs: seq<Record>) {
    && |items| == |CategoriesOf(rs)|
    && (forall c :: c in CategoriesOf(rs) ==> exists i :: 0 <= i < |items| && items[i].category == c)
    && (forall i :: 0 <= i < |items| ==>
          && items[i].category in CategoriesOf(rs)
          && items[i].amount == CategoryTotal(rs, items[i].category)
          && items[i].percentage == Percentage(items[i].amount, AmountSum(rs)))
  }

  ghost predicate IsCategorySummary(items: seq<Item>, rs: seq<Record>) {
    NonIncreasing(items) && DescribesCategories(items, rs)
  }

  function AmountOfItems(items: seq<Item>): int {
    if |items| == 0 then 0 else items[0].amount + AmountOfItems(items[1..])
  }

  function ShareOfItems(items: seq<Item>): real {
    if |items| == 0 then 0.0 else items[0].percentage + ShareOfItems(items[1..])
  }

  class Statistics {
    var period: string
    var mode: Mode

    constructor (period: string, mode: Mode)
      ensures this.period == period && this.mode == mode
    {
      this.period := period;
      this.mode := mode;
    }

    method SetPeriod(p: string)
      modifies this
      ensures period == p && mode == old(mode)
    {
      period := p;
    }

    method SetMode(m: Mode)
      modifies this
      ensures mode == m && period == old(period)
    {
      mode := m;
    }

    /** Income, expense, their difference and the number of records in the period. */
    method GenerateByTime(records: seq<Record>) returns (s: TimeSummary)
      ensures s.period == period
      ensures s.income == IncomeTotal(Included(records, period))
      ensures s.expense == ExpenseTotal(Included(records, period))
      ensures s.balance == s.income - s.expense
      ensures s.count == |Included(records, period)|
    {
      var income, expense, count := 0, 0, 0;
      for i := 0 to |records|
        invariant income == IncomeTotal(Included(records[..i], period))
        invariant expense == ExpenseTotal(Included(records[..i], period))
        invariant count == |Included(records[..i], period)|
      {
        var r := records[i];
        assert records[..i + 1][..i] == records[..i];
        if period != "" && !(period <= r.date) {
          assert Included(records[..i + 1], period) == Included(records[..i], period) + [];
          assert Included(records[..i], period) + [] == Included(records[..i], period);
          continue;
        }
        var inc := Included(records[..i], period);
        assert Included(records[..i + 1], period) == inc + [r];
        assert (inc + [r])[..|inc|] == inc;
        if r.kind == Income {
          income := income + r.amount;
        } else {
          expense := expense + r.amount;
        }
        count := count + 1;
      }
      assert records[..|records|] == records;
      s := TimeSummary(period, income, expense, income - expense, count);
    }

    /** The categories of the period with their totals and shares, largest first. */
    method GenerateByCategory(records: seq<Record>) returns (items: seq<Item>)
      ensures IsCategorySummary(items, Included(records, period))
      ensures AmountOfItems(items) == AmountSum(Included(records, period))
      ensures AmountSum(Included(records, period)) > 0 ==> ShareOfItems(items) == 100.0
    {
      var totals: seq<(string, int)> := [];
      for i := 0 to |records|
        invariant totals == CategoryTotals(Included(records[..i], period))
      {
        var r := records[i];
        assert records[..i + 1][..i] == records[..i];
        if period != "" && !(period <= r.date) {
          assert Included(records[..i + 1], period) == Included(records[..i], period) + [];
          assert Included(records[..i], period) + [] == Included(records[..i], period);
          continue;
        }
        var inc := Included(records[..i], period);
        assert Included(records[..i + 1], period) == inc + [r];
        assert (inc + [r])[..|inc|] == inc;
        totals := AddAmount(totals, r.category, r.amount);
      }
      assert records[..|records|] == records;

      var grand := 0;
      for i := 0 to |totals|
        invariant grand == SumValues(totals[..i])
      {
        SumValuesAppend(totals[..i], [totals[i]]);
        assert totals[..i + 1] == totals[..i] + [totals[i]];
        grand := grand + totals[i].1;
      }
      assert totals[..|totals|] == totals;

      var unsorted: seq<Item> := [];
      for i := 0 to |totals|
        invariant |unsorted| == i
        invariant forall j :: 0 <= j < i ==>
          unsorted[j] == Item(totals[j].0, totals[j].1, Percentage(totals[j].1, grand))
      {
        unsorted := unsorted + [Item(totals[i].0, totals[i].1, Percentage(totals[i].1, grand))];
      }

      items := SortByAmount(unsorted);
      SortedItemsSummarize(Included(records, period), unsorted);
      SortedItemsAddUp(Included(records, period), unsorted);
    }
  }

  // ---------------------------------------------------------------------
  // Properties of period selection and of the time summary
  // ---------------------------------------------------------------------

  /** A record is selected exactly when it is in the input and its date lies in the period. */
  lemma {:induction false} IncludedMembership(rs: seq<Record>, period: string, x: Record)
    ensures x in Included(rs, period) <==> x in rs && InPeriod(x.date, period)
  {
    if |rs| > 0 {
      var init := rs[..|rs| - 1];
      IncludedMembership(init, period, x);
      assert rs == init + [rs[|rs| - 1]];
    }
  }

  /** The empty period selects every record. */
  lemma {:induction false} EmptyPeriodIncludesAll(rs: seq<Record>)
    ensures Included(rs, "") == rs
  {
    if |rs| > 0 {
      EmptyPeriodIncludesAll(rs[..|rs| - 1]);
      assert rs[..|rs| - 1] + [rs[|rs| - 1]] == rs;
    }
  }

  /** Every record is either income or expense, so the two totals make up all amounts. */
  lemma {:induction false} IncomeExpenseSplit(rs: seq<Record>)
    ensures IncomeTotal(rs) + ExpenseTotal(rs) == AmountSum(rs)
  {
    if |rs| > 0 {
      IncomeExpenseSplit(rs[..|rs| - 1]);
    }
  }

  // ---------------------------------------------------------------------
  // Properties of the ordered map
  // ---------------------------------------------------------------------

  lemma {:induction false} KeySetIndex(t: seq<(string, int)>, k: string)
    ensures k in KeySet(t) <==> exists i :: 0 <= i < |t| && t[i].0 == k
  {
    if |t| > 0 {
      KeySetIndex(t[1..], k);
      if k in KeySet(t[1..]) {
        var i :| 0 <= i < |t[1..]| && t[1..][i].0 == k;
        assert t[i + 1].0 == k;
      }
      if exists i :: 0 <= i < |t| && t[i].0 == k {
        var i :| 0 <= i < |t| && t[i].0 == k;
        if i > 0 {
          assert t[1..][i - 1].0 == k;
        }
      }
    }
  }

  /** In a sorted map every key after the first is larger than the first. */
  lemma {:induction false} SortedTailAbove(t: seq<(string, int)>, k: string)
    requires SortedKeys(t) && |t| > 0
    requires k in KeySet(t[1..])
    ensures LexLess(t[0].0, k)
  {
    var u := t[1..];
    if u[0].0 != k {
      assert k in KeySet(u[1..]);
      SortedTailAbove(u, k);
      LexLessTransitive(t[0].0, u[0].0, k);
    }
  }

  /** A key below the first key of a sorted map is not in it. */
  lemma SortedBelowHead(t: seq<(string, int)>, k: string)
    requires SortedKeys(t) && |t| > 0
    requires LexLess(k, t[0].0)
    ensures k !in KeySet(t)
  {
    LexLessIrreflexive(k);
    if k in KeySet(t[1..]) {
      SortedTailAbove(t, k);
      LexLessAsymmetric(k, t[0].0);
    }
  }

  lemma {:induction false} LookupMissing(t: seq<(string, int)>, k: string)
    requires k !in KeySet(t)
    ensures Lookup(t, k) == 0
  {
    if |t| > 0 {
      LookupMissing(t[1..], k);
    }
  }

  /** A sorted map has one entry per key, and each entry holds the value looked up under its key. */
  lemma {:induction false} SortedEntries(t: seq<(string, int)>)
    requires SortedKeys(t)
    ensures |KeySet(t)| == |t|
    ensures forall i :: 0 <= i < |t| ==> Lookup(t, t[i].0) == t[i].1
  {
    if |t| > 0 {
      var u := t[1..];
      SortedEntries(u);
      if t[0].0 in KeySet(u) {
        SortedTailAbove(t, t[0].0);
        LexLessIrreflexive(t[0].0);
      }
      forall i | 0 < i < |t|
        ensures Lookup(t, t[i].0) == t[i].1
      {
        KeySetIndex(u, t[i].0);
        assert u[i - 1] == t[i];
      }
    }
  }

  /** The first key after an insertion is the inserted key or the old first key. */
  lemma AddAmountFirst(t: seq<(string, int)>, cat: string, a: int)
    ensures AddAmount(t, cat, a)[0].0 == cat || (|t| > 0 && AddAmount(t, cat, a)[0].0 == t[0].0)
  {
  }

  /** Adding an amount keeps the keys in order. */
  lemma {:induction false} AddAmountSorted(t: seq<(string, int)>, cat: string, a: int)
    requires SortedKeys(t)
    ensures SortedKeys(AddAmount(t, cat, a))
  {
    var r := AddAmount(t, cat, a);
    if |t| == 0 {
    } else if t[0].0 == cat {
      assert r[1..] == t[1..];
    } else if LexLess(cat, t[0].0) {
      assert r[1..] == t;
    } else {
      var rest := AddAmount(t[1..], cat, a);
      AddAmountSorted(t[1..], cat, a);
      assert r[1..] == rest;
      LexLessTotal(cat, t[0].0);
      AddAmountFirst(t[1..], cat, a);
    }
  }

  /** Adding an amount adds its category to the keys. */
  lemma {:induction false} AddAmountKeys(t: seq<(string, int)>, cat: string, a: int)
    ensures KeySet(AddAmount(t, cat, a)) == KeySet(t) + {cat}
  {
    var r := AddAmount(t, cat, a);
    if |t| == 0 {
    } else if t[0].0 == cat {
      assert r[1..] == t[1..];
    } else if LexLess(cat, t[0].0) {
      assert r[1..] == t;
    } else {
      AddAmountKeys(t[1..], cat, a);
      assert r[1..] == AddAmount(t[1..], cat, a);
    }
  }

  /** Adding an amount raises the value of its category by that amount and leaves the others. */
  lemma {:induction false} AddAmountLookup(t: seq<(string, int)>, cat: string, a: int, k: string)
    requires SortedKeys(t)
    ensures Lookup(AddAmount(t, cat, a), k) == Lookup(t, k) + (if k == cat then a else 0)
  {
    var r := AddAmount(t, cat, a);
    if |t| == 0 {
    } else if t[0].0 == cat {
      assert r[1..] == t[1..];
    } else if LexLess(cat, t[0].0) {
      assert r[1..] == t;
      SortedBelowHead(t, cat);
      LookupMissing(t, cat);
    } else {
      AddAmountLookup(t[1..], cat, a, k);
      assert r[1..] == AddAmount(t[1..], cat, a);
    }
  }

  /** Adding an amount raises the sum of the values by that amount. */
  lemma {:induction false} AddAmountSum(t: seq<(string, int)>, cat: string, a: int)
    ensures SumValues(AddAmount(t, cat, a)) == SumValues(t) + a
  {
    var r := AddAmount(t, cat, a);
    if |t| == 0 {
    } else if t[0].0 == cat {
      assert r[1..] == t[1..];
    } else if LexLess(cat, t[0].0) {
      assert r[1..] == t;
    } else {
      AddAmountSum(t[1..], cat, a);
      assert r[1..] == AddAmount(t[1..], cat, a);
    }
  }

  lemma {:induction false} SumValuesAppend(t: seq<(string, int)>, u: seq<(string, int)>)
    ensures SumValues(t + u) == SumValues(t) + SumValues(u)
  {
    if |t| == 0 {
      assert t + u == u;
    } else {
      assert (t + u)[1..] == t[1..] + u;
      SumValuesAppend(t[1..], u);
    }
  }

  /**
   * The map built from rs is sorted, has exactly the categories of rs as
   * keys, holds each category's total, and its values add up to all amounts.
   */
  lemma {:induction false} CategoryTotalsSpec(rs: seq<Record>)
    ensures SortedKeys(CategoryTotals(rs))
    ensures KeySet(CategoryTotals(rs)) == CategoriesOf(rs)
    ensures forall k :: Lookup(CategoryTotals(rs), k) == CategoryTotal(rs, k)
    ensures SumValues(CategoryTotals(rs)) == AmountSum(rs)
  {
    if |rs| > 0 {
      var init, r := rs[..|rs| - 1], rs[|rs| - 1];
      var t := CategoryTotals(init);
      CategoryTotalsSpec(init);
      AddAmountSorted(t, r.category, r.amount);
      AddAmountKeys(t, r.category, r.amount);
      AddAmountSum(t, r.category, r.amount);
      forall k ensures Lookup(CategoryTotals(rs), k) == CategoryTotal(rs, k) {
        AddAmountLookup(t, r.category, r.amount, k);
      }
      assert rs == init + [r];
      assert CategoriesOf(rs) == CategoriesOf(init) + {r.category};
    }
  }

  /** The whole of a positive total is 100 percent of it. */
  lemma WholeShare(g: int)
    requires g > 0
    ensures Percentage(g, g) == 100.0
  {
    var x := g as real;
    assert x / x == 1.0 by {
      assert x / x * x == x;
    }
  }

  /** The items built from the map, before sorting, describe the categories of rs. */
  lemma TotalsDescribeCategories(rs: seq<Record>, unsorted: seq<Item>)
    requires |unsorted| == |CategoryTotals(rs)|
    requires forall j :: 0 <= j < |unsorted| ==>
      unsorted[j] == Item(CategoryTotals(rs)[j].0, CategoryTotals(rs)[j].1,
                          Percentage(CategoryTotals(rs)[j].1, SumValues(CategoryTotals(rs))))
    ensures DescribesCategories(unsorted, rs)
  {
    var t := CategoryTotals(rs);
    CategoryTotalsSpec(rs);
    SortedEntries(t);
    forall c | c in CategoriesOf(rs)
      ensures exists i :: 0 <= i < |unsorted| && unsorted[i].category == c
    {
      KeySetIndex(t, c);
      var i :| 0 <= i < |t| && t[i].0 == c;
      assert unsorted[i].category == c;
    }
    forall i | 0 <= i < |unsorted|
      ensures unsorted[i].category in CategoriesOf(rs)
    {
      KeySetIndex(t, t[i].0);
    }
  }

  // ---------------------------------------------------------------------
  // Properties of the sort
  // ---------------------------------------------------------------------

  lemma {:induction false} InsertByAmountSpec(s: seq<Item>, x: Item)
    requires NonIncreasing(s)
    ensures NonIncreasing(InsertByAmount(s, x))
    ensures multiset(InsertByAmount(s, x)) == multiset(s) + multiset{x}
  {
    InsertByAmountPermutes(s, x);
    InsertByAmountOrders(s, x);
  }

  lemma {:induction false} InsertByAmountPermutes(s: seq<Item>, x: Item)
    ensures multiset(InsertByAmount(s, x)) == multiset(s) + multiset{x}
  {
    if |s| > 0 && s[0].amount >= x.amount {
      InsertByAmountPermutes(s[1..], x);
      assert s == [s[0]] + s[1..];
    }
  }

  lemma {:induction false} InsertByAmountOrders(s: seq<Item>, x: Item)
    requires NonIncreasing(s)
    ensures NonIncreasing(InsertByAmount(s, x))
  {
    if |s| > 0 && s[0].amount >= x.amount {
      var rest := InsertByAmount(s[1..], x);
      InsertByAmountOrders(s[1..], x);
      InsertByAmountPermutes(s[1..], x);
      var r := [s[0]] + rest;
      assert r == InsertByAmount(s, x);
      forall j | 0 <= j < |rest|
        ensures s[0].amount >= rest[j].amount
      {
        assert rest[j] in multiset(rest);
        if rest[j] != x {
          assert rest[j] in multiset(s[1..]);
          var k :| 0 <= k < |s[1..]| && s[1..][k] == rest[j];
          assert s[k + 1] == rest[j];
        }
      }
      forall i, j | 0 <= i < j < |r|
        ensures r[i].amount >= r[j].amount
      {
        assert r[j] == rest[j - 1];
        if i > 0 {
          assert r[i] == rest[i - 1];
        }
      }
    }
  }

  /** The sort orders by amount, largest first, and only reorders. */
  lemma {:induction false} SortByAmountSpec(s: seq<Item>)
    ensures NonIncreasing(SortByAmount(s))
    ensures multiset(SortByAmount(s)) == multiset(s)
  {
    if |s| > 0 {
      SortByAmountSpec(s[..|s| - 1]);
      InsertByAmountSpec(SortByAmount(s[..|s| - 1]), s[|s| - 1]);
      assert s == s[..|s| - 1] + [s[|s| - 1]];
    }
  }

  /** Sorting keeps the sum of the amounts and the sum of the shares. */
  lemma {:induction false} SortByAmountSums(s: seq<Item>)
    ensures AmountOfItems(SortByAmount(s)) == AmountOfItems(s)
    ensures ShareOfItems(SortByAmount(s)) == ShareOfItems(s)
  {
    if |s| > 0 {
      var init, x := s[..|s| - 1], s[|s| - 1];
      SortByAmountSums(init);
      InsertByAmountSums(SortByAmount(init), x);
      ItemSumsSnoc(init, x);
      assert s == init + [x];
    }
  }

  lemma {:induction false} InsertByAmountSums(s: seq<Item>, x: Item)
    ensures AmountOfItems(InsertByAmount(s, x)) == AmountOfItems(s) + x.amount
    ensures ShareOfItems(InsertByAmount(s, x)) == ShareOfItems(s) + x.percentage
  {
    if |s| > 0 && s[0].amount >= x.amount {
      InsertByAmountSums(s[1..], x);
      assert ([s[0]] + InsertByAmount(s[1..], x))[1..] == InsertByAmount(s[1..], x);
    } else if |s| > 0 {
      assert ([x] + s)[1..] == s;
    }
  }

  lemma {:induction false} ItemSumsSnoc(s: seq<Item>, x: Item)
    ensures AmountOfItems(s + [x]) == AmountOfItems(s) + x.amount
    ensures ShareOfItems(s + [x]) == ShareOfItems(s) + x.percentage
  {
    if |s| > 0 {
      assert (s + [x])[1..] == s[1..] + [x];
      ItemSumsSnoc(s[1..], x);
    } else {
      assert s + [x] == [x];
    }
  }

  /**
   * Items built entry by entry from a map add up to the map's values, and
   * when the grand total is positive their shares add up to the map's
   * values over the grand total, in percent.
   */
  lemma {:induction false} ItemsFromTotals(t: seq<(string, int)>, grand: int, items: seq<Item>)
    requires |items| == |t|
    requires forall j :: 0 <= j < |t| ==> items[j] == Item(t[j].0, t[j].1, Percentage(t[j].1, grand))
    ensures AmountOfItems(items) == SumValues(t)
    ensures grand > 0 ==> ShareOfItems(items) == (SumValues(t) as real / grand as real) * 100.0
  {
    if |t| > 0 {
      ItemsFromTotals(t[1..], grand, items[1..]);
      if grand > 0 {
        var g, a, b := grand as real, t[0].1 as real, SumValues(t[1..]) as real;
        assert (a + b) / g == a / g + b / g;
      }
    }
  }

  /** Sorting the items built from the map of rs gives the category summary of rs. */
  lemma SortedItemsSummarize(rs: seq<Record>, unsorted: seq<Item>)
    requires |unsorted| == |CategoryTotals(rs)|
    requires forall j :: 0 <= j < |unsorted| ==>
      unsorted[j] == Item(CategoryTotals(rs)[j].0, CategoryTotals(rs)[j].1,
                          Percentage(CategoryTotals(rs)[j].1, SumValues(CategoryTotals(rs))))
    ensures IsCategorySummary(SortByAmount(unsorted), rs)
  {
    TotalsDescribeCategories(rs, unsorted);
    SortByAmountSpec(unsorted);
    PermutationDescribes(unsorted, SortByAmount(unsorted), rs);
  }

  /** Its amounts add up to all amounts of rs, and its shares to 100 when that total is positive. */
  lemma SortedItemsAddUp(rs: seq<Record>, unsorted: seq<Item>)
    requires |unsorted| == |CategoryTotals(rs)|
    requires forall j :: 0 <= j < |unsorted| ==>
      unsorted[j] == Item(CategoryTotals(rs)[j].0, CategoryTotals(rs)[j].1,
                          Percentage(CategoryTotals(rs)[j].1, SumValues(CategoryTotals(rs))))
    ensures AmountOfItems(SortByAmount(unsorted)) == AmountSum(rs)
    ensures AmountSum(rs) > 0 ==> ShareOfItems(SortByAmount(unsorted)) == 100.0
  {
    var t := CategoryTotals(rs);
    CategoryTotalsSpec(rs);
    ItemsFromTotals(t, SumValues(t), unsorted);
    SortByAmountSums(unsorted);
    if AmountSum(rs) > 0 {
      WholeShare(AmountSum(rs));
    }
  }

  /** Reordering the items of a category description keeps it one. */
  lemma PermutationDescribes(a: seq<Item>, b: seq<Item>, rs: seq<Record>)
    requires DescribesCategories(a, rs)
    requires multiset(a) == multiset(b)
    ensures DescribesCategories(b, rs)
  {
    assert |a| == |multiset(a)| == |multiset(b)| == |b|;
    forall c | c in CategoriesOf(rs)
      ensures exists i :: 0 <= i < |b| && b[i].category == c
    {
      var j :| 0 <= j < |a| && a[j].category == c;
      assert a[j] in multiset(b);
      var i :| 0 <= i < |b| && b[i] == a[j];
    }
    forall i | 0 <= i < |b|
      ensures b[i].category in CategoriesOf(rs)
      ensures b[i].amount == CategoryTotal(rs, b[i].category)
      ensures b[i].percentage == Percentage(b[i].amount, AmountSum(rs))
    {
      assert b[i] in multiset(a);
      var j :| 0 <= j < |a| && a[j] == b[i];
    }
  }

  // ---------------------------------------------------------------------
  // A worked example
  // ---------------------------------------------------------------------

  /** Five records over January and February 2025. */
  function SampleRecords(): seq<Record> {
    [ Record("r1", "2025-01-01", 100, Income, "工资", "一月工资"),
      Record("r2", "2025-01-15", 50, Expense, "餐饮", "午餐"),
      Record("r3", "2025-01-20", 30, Expense, "餐饮", "晚餐"),
      Record("r4", "2025-02-01", 200, Income, "奖金", "年终奖"),
      Record("r5", "2025-02-10", 80, Expense, "购物", "买衣服") ]
  }

  /** Period 2025-01 selects the first three sample records, the January ones. */
  lemma JanuaryRecords()
    ensures Included(SampleRecords(), "2025-01") == SampleRecords()[..3]
  {
    var rs, p := SampleRecords(), "2025-01";
    assert rs[..1][..0] == [] && rs[..2][..1] == rs[..1] && rs[..3][..2] == rs[..2];
    assert rs[..4][..3] == rs[..3] && rs[..5][..4] == rs[..4] && rs[..5] == rs;
    assert InPeriod(rs[0].date, p) && InPeriod(rs[1].date, p) && InPeriod(rs[2].date, p);
    assert rs[3].date[6] != p[6] && rs[4].date[6] != p[6];
    assert Included(rs[..1], p) == rs[..1];
    assert Included(rs[..2], p) == rs[..2];
    assert Included(rs[..3], p) == rs[..3];
    assert Included(rs[..4], p) == rs[..3];
  }

  /** January 2025 of the sample: income 100, expense 80, balance 20, three records. */
  lemma JanuarySummary()
    ensures var inc := Included(SampleRecords(), "2025-01");
      IncomeTotal(inc) == 100 && ExpenseTotal(inc) == 80 && |inc| == 3
  {
    JanuaryRecords();
    var inc := SampleRecords()[..3];
    assert inc[..2][..1][..0] == [] && inc[..2] == inc[..|inc| - 1] && inc[..2][..1] == inc[..2][..|inc[..2]| - 1];
    assert IncomeTotal(inc[..2][..1]) == 100 && ExpenseTotal(inc[..2][..1]) == 0;
    assert IncomeTotal(inc[..2]) == 100 && ExpenseTotal(inc[..2]) == 50;
  }
}
