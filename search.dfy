/**
 * Record filters (code_cpp/src/Search.cpp): a Search object holds a
 * keyword, a category and a date range, and each of its three filters
 * keeps, in input order, the records that match its own criterion.
 */
module Searching {
  import opened Text
  import opened Records

  /** The criterion one of the three filters applies. */
  datatype Criterion =
    | ByKeyword(keyword: string)
    | ByCategory(category: string)
    | ByTime(from: string, to: string)

  /** from <= date <= to in string order, an empty bound leaving that side open. */
  predicate Between(date: string, from: string, to: string) {
    (from == "" || !LexLess(date, from)) && (to == "" || !LexLess(to, date))
  }

  /**
   * Whether a filter keeps a record. An empty keyword or category, or an
   * empty bound of the range, keeps nothing.
   */
  predicate Matches(c: Criterion, r: Record) {
    match c
    case ByKeyword(k) => k != "" && (IsSubstring(k, r.note) || IsSubstring(k, r.category))
    case ByCategory(cat) => cat != "" && r.category == cat
    case ByTime(from, to) => from != "" && to != "" && Between(r.date, from, to)
  }

  /** The records of rs that match c, in their order in rs. */
  function Filter(rs: seq<Record>, c: Criterion): seq<Record> {
    if |rs| == 0 then []
    else Filter(rs[..|rs| - 1], c) + (if Matches(c, rs[|rs| - 1]) then [rs[|rs| - 1]] else [])
  }

  /** The records of rs that match both a and b, in their order in rs. */
  ghost function FilterBoth(rs: seq<Record>, a: Criterion, b: Criterion): seq<Record> {
    if |rs| == 0 then []
    else
      var r := rs[|rs| - 1];
      FilterBoth(rs[..|rs| - 1], a, b) + (if Matches(a, r) && Matches(b, r) then [r] else [])
  }

  class Search {
    var keyword: string
    var category: string
    var timeRange: (string, string)

    /** A fresh Search has an empty keyword, category and range. */
    constructor ()
      ensures keyword == "" && category == "" && timeRange == ("", "")
    {
      keyword := "";
      category := "";
      timeRange := ("", "");
    }

    method SetKeyword(k: string)
      modifies this
      ensures keyword == k
      ensures category == old(category) && timeRange == old(timeRange)
    {
      keyword := k;
    }

    method SetCategory(cat: string)
      modifies this
      ensures category == cat
      ensures keyword == old(keyword) && timeRange == old(timeRange)
    {
      category := cat;
    }

    method SetTimeRange(from: string, to: string)
      modifies this
      ensures timeRange == (from, to)
      ensures keyword == old(keyword) && category == old(category)
    {
      timeRange := (from, to);
    }

    /** The records whose note or category contains the keyword; none for an empty keyword. */
    method SearchByKeyword(records: seq<Record>) returns (out: seq<Record>)
      ensures out == Filter(records, ByKeyword(keyword))
    {
      out := [];
      if keyword == "" {
        EmptyCriterionSelectsNothing(records, ByKeyword(keyword));
        return;
      }
      for i := 0 to |records|
        invariant out == Filter(records[..i], ByKeyword(keyword))
      {
        var r := records[i];
        assert records[..i + 1][..i] == records[..i];
        if IsSubstring(keyword, r.note) || IsSubstring(keyword, r.category) {
          out := out + [r];
        }
      }
      assert records[..|records|] == records;
    }

    /** The records whose category equals the criterion; none for an empty criterion. */
    method SearchByCategory(records: seq<Record>) returns (out: seq<Record>)
      ensures out == Filter(records, ByCategory(category))
    {
      out := [];
      if category == "" {
        EmptyCriterionSelectsNothing(records, ByCategory(category));
        return;
      }
      for i := 0 to |records|
        invariant out == Filter(records[..i], ByCategory(category))
      {
        var r := records[i];
        assert records[..i + 1][..i] == records[..i];
        if r.category == category {
          out := out + [r];
        }
      }
      assert records[..|records|] == records;
    }

    /** The records dated within the inclusive range; none when either bound is empty. */
    method SearchByTime(records: seq<Record>) returns (out: seq<Record>)
      ensures out == Filter(records, ByTime(timeRange.0, timeRange.1))
    {
      out := [];
      var (from, to) := timeRange;
      if from == "" || to == "" {
        EmptyCriterionSelectsNothing(records, ByTime(from, to));
        return;
      }
      for i := 0 to |records|
        invariant out == Filter(records[..i], ByTime(from, to))
      {
        var r := records[i];
        assert records[..i + 1][..i] == records[..i];
        if Between(r.date, from, to) {
          out := out + [r];
        }
      }
      assert records[..|records|] == records;
    }
  }

  // ---------------------------------------------------------------------
  // Properties of the filters
  // ---------------------------------------------------------------------

  /** A criterion with an empty keyword, category or bound selects nothing. */
  lemma {:induction false} EmptyCriterionSelectsNothing(rs: seq<Record>, c: Criterion)
    requires c.ByKeyword? ==> c.keyword == ""
    requires c.ByCategory? ==> c.category == ""
    requires c.ByTime? ==> c.from == "" || c.to == ""
    ensures Filter(rs, c) == []
  {
    if |rs| > 0 {
      EmptyCriterionSelectsNothing(rs[..|rs| - 1], c);
    }
  }

  /** A record is in the result exactly when it is in the input and matches. */
  lemma {:induction false} FilterMembership(rs: seq<Record>, c: Criterion, x: Record)
    ensures x in Filter(rs, c) <==> x in rs && Matches(c, x)
  {
    if |rs| > 0 {
      var init := rs[..|rs| - 1];
      FilterMembership(init, c, x);
      assert rs == init + [rs[|rs| - 1]];
    }
  }

  /** Every record of the result matches the criterion. */
  lemma {:induction false} FilterAllMatch(rs: seq<Record>, c: Criterion)
    ensures forall i :: 0 <= i < |Filter(rs, c)| ==> Matches(c, Filter(rs, c)[i])
  {
    if |rs| > 0 {
      FilterAllMatch(rs[..|rs| - 1], c);
    }
  }

  /** The result keeps input order and is no longer than the input. */
  lemma {:induction false} FilterIsSubsequence(rs: seq<Record>, c: Criterion)
    ensures IsSubsequence(Filter(rs, c), rs)
    ensures |Filter(rs, c)| <= |rs|
  {
    if |rs| > 0 {
      var init := rs[..|rs| - 1];
      FilterIsSubsequence(init, c);
      var f := Filter(rs, c);
      assert init + [rs[|rs| - 1]] == rs;
      if Matches(c, rs[|rs| - 1]) {
        assert f[..|f| - 1] == Filter(init, c);
        assert f[|f| - 1] == rs[|rs| - 1];
      } else {
        assert f == Filter(init, c);
        SubsequenceOfLonger(Filter(init, c), init, rs[|rs| - 1]);
      }
    }
  }

  /** Re-filtering a result keeps exactly the records that match both criteria, in order. */
  lemma {:induction false} FilterComposes(rs: seq<Record>, a: Criterion, b: Criterion)
    ensures Filter(Filter(rs, a), b) == FilterBoth(rs, a, b)
  {
    if |rs| > 0 {
      var init := rs[..|rs| - 1];
      var r := rs[|rs| - 1];
      FilterComposes(init, a, b);
      FilterAppend(Filter(init, a), if Matches(a, r) then [r] else [], b);
    }
  }

  /** Re-filtering in the other order gives the same records. */
  lemma FilterCommutes(rs: seq<Record>, a: Criterion, b: Criterion)
    ensures Filter(Filter(rs, a), b) == Filter(Filter(rs, b), a)
  {
    FilterComposes(rs, a, b);
    FilterComposes(rs, b, a);
    FilterBothSymmetric(rs, a, b);
  }

  lemma {:induction false} FilterBothSymmetric(rs: seq<Record>, a: Criterion, b: Criterion)
    ensures FilterBoth(rs, a, b) == FilterBoth(rs, b, a)
  {
    if |rs| > 0 {
      FilterBothSymmetric(rs[..|rs| - 1], a, b);
    }
  }

  lemma {:induction false} FilterAppend(xs: seq<Record>, ys: seq<Record>, c: Criterion)
    ensures Filter(xs + ys, c) == Filter(xs, c) + Filter(ys, c)
    decreases |ys|
  {
    if |ys| == 0 {
      assert xs + ys == xs;
    } else {
      var ys' := ys[..|ys| - 1];
      assert (xs + ys)[..|xs + ys| - 1] == xs + ys';
      FilterAppend(xs, ys', c);
    }
  }
}
