/**
 * The ledger of one user (code_cpp/src/User.cpp): the records kept sorted
 * by date and id, the categories (the built-in ones followed by the custom
 * ones loaded from storage, one per name), and the operations that tie the
 * record model, search, statistics and storage together.
 */
module Ledger {
  import opened Wrappers
  import opened Text
  import opened Records
  import opened Categories
  import opened Searching
  import opened Summaries
  import opened Persistence

  /** Which of the three filters of a Search to apply. */
  datatype SearchMode = KeywordSearch | CategorySearch | TimeSearch

  // ---------------------------------------------------------------------
  // Record order: by date, then by id (the comparator given to std::sort)
  // ---------------------------------------------------------------------

  predicate KeyLess(a: Record, b: Record) {
    if a.date == b.date then LexLess(a.id, b.id) else LexLess(a.date, b.date)
  }

  lemma KeyLessTransitive(a: Record, b: Record, c: Record)
    requires KeyLess(a, b) && KeyLess(b, c)
    ensures KeyLess(a, c)
  {
    if a.date == b.date && b.date == c.date {
      LexLessTransitive(a.id, b.id, c.id);
    } else if a.date == b.date {
    } else if b.date == c.date {
    } else {
      LexLessTransitive(a.date, b.date, c.date);
      if a.date == c.date {
        LexLessAsymmetric(a.date, b.date);
      }
    }
  }

  /** No record is placed before one with a smaller key. */
  predicate KeySorted(s: seq<Record>) {
    forall i, j :: 0 <= i < j < |s| ==> !KeyLess(s[j], s[i])
  }

  /** Insert x before the first record with a larger key. */
  function InsertByKey(s: seq<Record>, x: Record): seq<Record> {
    if |s| == 0 then [x]
    else if KeyLess(x, s[0]) then [x] + s
    else [s[0]] + InsertByKey(s[1..], x)
  }

  /** The records ordered by date, then id. */
  function SortByKey(s: seq<Record>): seq<Record> {
    if |s| == 0 then [] else InsertByKey(SortByKey(s[..|s| - 1]), s[|s| - 1])
  }

  lemma {:induction false} InsertByKeySpec(s: seq<Record>, x: Record)
    requires KeySorted(s)
    ensures KeySorted(InsertByKey(s, x))
    ensures multiset(InsertByKey(s, x)) == multiset(s) + multiset{x}
  {
    InsertByKeyPermutes(s, x);
    InsertByKeyOrders(s, x);
  }

  lemma {:induction false} InsertByKeyPermutes(s: seq<Record>, x: Record)
    ensures multiset(InsertByKey(s, x)) == multiset(s) + multiset{x}
  {
    if |s| > 0 && !KeyLess(x, s[0]) {
      InsertByKeyPermutes(s[1..], x);
      assert s == [s[0]] + s[1..];
    }
  }

  lemma {:induction false} InsertByKeyOrders(s: seq<Record>, x: Record)
    requires KeySorted(s)
    ensures KeySorted(InsertByKey(s, x))
  {
    if |s| == 0 {
    } else if KeyLess(x, s[0]) {
      var r := [x] + s;
      assert r == InsertByKey(s, x);
      forall j | 0 < j < |r|
        ensures !KeyLess(r[j], x)
      {
        assert r[j] == s[j - 1];
        if KeyLess(r[j], x) {
          KeyLessTransitive(r[j], x, s[0]);
          if j == 1 {
            LexLessIrreflexive(s[0].id);
          }
        }
      }
      forall i, j | 0 <= i < j < |r|
        ensures !KeyLess(r[j], r[i])
      {
        if i > 0 {
          assert r[i] == s[i - 1] && r[j] == s[j - 1];
        }
      }
    } else {
      var rest := InsertByKey(s[1..], x);
      InsertByKeyOrders(s[1..], x);
      InsertByKeyPermutes(s[1..], x);
      var r := [s[0]] + rest;
      assert r == InsertByKey(s, x);
      forall j | 0 <= j < |rest|
        ensures !KeyLess(rest[j], s[0])
      {
        assert rest[j] in multiset(rest);
        if rest[j] != x {
          assert rest[j] in multiset(s[1..]);
          var k :| 0 <= k < |s[1..]| && s[1..][k] == rest[j];
          assert s[k + 1] == rest[j];
        }
      }
      forall i, j | 0 <= i < j < |r|
        ensures !KeyLess(r[j], r[i])
      {
        assert r[j] == rest[j - 1];
        if i > 0 {
          assert r[i] == rest[i - 1];
        }
      }
    }
  }

  /** The sort orders by date and id and only reorders. */
  lemma {:induction false} SortByKeySpec(s: seq<Record>)
    ensures KeySorted(SortByKey(s))
    ensures multiset(SortByKey(s)) == multiset(s)
  {
    if |s| > 0 {
      SortByKeySpec(s[..|s| - 1]);
      InsertByKeySpec(SortByKey(s[..|s| - 1]), s[|s| - 1]);
      assert s == s[..|s| - 1] + [s[|s| - 1]];
    }
  }

  // ---------------------------------------------------------------------
  // Merging loaded categories into the built-in ones
  // ---------------------------------------------------------------------

  predicate HasName(cats: seq<Category>, name: string) {
    exists i :: 0 <= i < |cats| && cats[i].name == name
  }

  /** The base list, then each loaded category whose name is not in the list yet. */
  function MergeByName(base: seq<Category>, loaded: seq<Category>): seq<Category> {
    if |loaded| == 0 then base
    else
      var m := MergeByName(base, loaded[..|loaded| - 1]);
      var c := loaded[|loaded| - 1];
      if HasName(m, c.name) then m else m + [c]
  }

  predicate NamesDistinct(cats: seq<Category>) {
    forall i, j :: 0 <= i < j < |cats| ==> cats[i].name != cats[j].name
  }

  /**
   * The merge keeps the base list in front, holds only base and loaded
   * categories, has a category of every loaded name, and no name twice
   * when the base has none twice.
   */
  lemma {:induction false} MergeByNameSpec(base: seq<Category>, loaded: seq<Category>)
    ensures base <= MergeByName(base, loaded)
    ensures forall c :: c in MergeByName(base, loaded) ==> c in base || c in loaded
    ensures forall c :: c in loaded ==> HasName(MergeByName(base, loaded), c.name)
    ensures NamesDistinct(base) ==> NamesDistinct(MergeByName(base, loaded))
  {
    if |loaded| > 0 {
      var init, c := loaded[..|loaded| - 1], loaded[|loaded| - 1];
      MergeByNameSpec(base, init);
      var m := MergeByName(base, init);
      assert loaded == init + [c];
      if !HasName(m, c.name) {
        var m' := m + [c];
        assert m'[|m|] == c;
        forall d | d in loaded
          ensures HasName(m', d.name)
        {
          if d in init {
            var i :| 0 <= i < |m| && m[i].name == d.name;
            assert m'[i] == m[i];
          }
        }
      }
    }
  }

  /** What the merge adds after the base list is a part of the loaded list, in the order it was loaded. */
  lemma {:induction false} MergeKeepsLoadOrder(base: seq<Category>, loaded: seq<Category>)
    ensures base <= MergeByName(base, loaded)
    ensures IsSubsequence(MergeByName(base, loaded)[|base|..], loaded)
  {
    MergeByNameSpec(base, loaded);
    if |loaded| > 0 {
      var init, c := loaded[..|loaded| - 1], loaded[|loaded| - 1];
      MergeKeepsLoadOrder(base, init);
      var m := MergeByName(base, init);
      var added := m[|base|..];
      assert init + [c] == loaded;
      if !HasName(m, c.name) {
        assert (m + [c])[|base|..] == added + [c];
        assert (added + [c])[..|added|] == added;
      } else {
        SubsequenceOfLonger(added, init, c);
      }
    }
  }

  /** A loaded category is dropped when a category of the same name is already there. */
  lemma MergeDropsKnownName(base: seq<Category>, c: Category)
    requires HasName(base, c.name)
    ensures MergeByName(base, [c]) == base
  {
    assert [c][..0] == [];
  }

  lemma MergeStep(base: seq<Category>, loaded: seq<Category>, k: nat)
    requires k < |loaded|
    ensures var m := MergeByName(base, loaded[..k]);
      MergeByName(base, loaded[..k + 1]) == if HasName(m, loaded[k].name) then m else m + [loaded[k]]
  {
    assert loaded[..k + 1][..k] == loaded[..k];
  }

  /** Whether some category has the name: the scan that stops at the first match. */
  method ContainsName(cats: seq<Category>, name: string) returns (found: bool)
    ensures found == HasName(cats, name)
  {
    found := false;
    var j := 0;
    while j < |cats|
      invariant 0 <= j <= |cats|
      invariant !found ==> forall m :: 0 <= m < j ==> cats[m].name != name
      invariant found ==> HasName(cats, name)
    {
      if cats[j].name == name {
        found := true;
        break;
      }
      j := j + 1;
    }
  }

  class User {
    const userId: string
    const username: string
    var records: seq<Record>
    var categories: seq<Category>
    const storage: Storage

    /** A user whose data lives in the "data" directory of fs, loaded on creation. */
    constructor (userId: string, username: string, fs: FileSystem)
      ensures this.userId == userId && this.username == username
      ensures fresh(storage) && storage.dir == DEFAULT_DIR && storage.fs == fs
      ensures records == storage.StoredRecords()
      ensures categories == MergeByName(DefaultCategories(), storage.StoredCategories())
    {
      this.userId := userId;
      this.username := username;
      records := [];
      categories := DefaultCategories();
      storage := new Storage(DEFAULT_DIR, fs);
      new;
      var _ := Load();
    }

    /**
     * Re-reads records and categories from storage: the built-in categories,
     * then every loaded one whose name is new. Always reports success.
     */
    method Load() returns (ok: bool)
      modifies this
      ensures ok
      ensures records == storage.StoredRecords()
      ensures categories == MergeByName(DefaultCategories(), storage.StoredCategories())
    {
      records := storage.LoadRecords();
      var custom := storage.LoadCategories();
      categories := DefaultCategories();
      for k := 0 to |custom|
        invariant records == storage.StoredRecords()
        invariant categories == MergeByName(DefaultCategories(), custom[..k])
      {
        var cat := custom[k];
        MergeStep(DefaultCategories(), custom, k);
        var exists_ := ContainsName(categories, cat.name);
        if !exists_ {
          categories := categories + [cat];
        }
      }
      assert custom[..|custom|] == custom;
      return true;
    }

    /**
     * The files after saving recs and cats over files, given whether the data
     * directory could be had: each file written unless it cannot be opened.
     */
    ghost function FilesSavedFrom(files: map<string, string>, dirReady: bool, recs: seq<Record>, cats: seq<Category>): map<string, string>
      reads storage.fs
    {
      var f1 := if dirReady && storage.RecordsFile() !in storage.fs.readOnly
                then files[storage.RecordsFile() := RecordsText(recs)] else files;
      if dirReady && storage.CategoriesFile() !in storage.fs.readOnly
      then f1[storage.CategoriesFile() := CategoriesText(cats)] else f1
    }

    /** Writes the records and the categories; true only when both files were written. */
    method Save() returns (ok: bool)
      modifies storage.fs
      ensures ok == (old(storage.CanEnsureDir()) && storage.RecordsFile() !in storage.fs.readOnly
                     && storage.CategoriesFile() !in storage.fs.readOnly)
      ensures storage.fs.files == FilesSavedFrom(old(storage.fs.files), old(storage.CanEnsureDir()), records, categories)
      ensures storage.fs.dirs == old(storage.DirsAfterEnsure())
      ensures storage.fs.creatable == old(storage.fs.creatable) && storage.fs.readOnly == old(storage.fs.readOnly)
    {
      var okRecords := storage.SaveRecords(records);
      assert old(storage.CanEnsureDir()) ==> storage.CanEnsureDir();
      assert !old(storage.CanEnsureDir()) ==> storage.fs.dirs == old(storage.fs.dirs) && storage.fs.files == old(storage.fs.files);
      var okCategories := storage.SaveCategories(categories);
      ok := okRecords && okCategories;
    }

    /** Adds a record, keeps the records ordered by date and id, and saves when asked to. */
    method AddRecord(record: Record, autoSave: bool)
      modifies this, storage.fs
      ensures KeySorted(records)
      ensures multiset(records) == multiset(old(records)) + multiset{record}
      ensures categories == old(categories)
      ensures !autoSave ==> unchanged(storage.fs)
      ensures autoSave ==>
        storage.fs.files == FilesSavedFrom(old(storage.fs.files), old(storage.CanEnsureDir()), records, categories)
      ensures autoSave ==> storage.fs.dirs == old(storage.DirsAfterEnsure())
      ensures storage.fs.creatable == old(storage.fs.creatable) && storage.fs.readOnly == old(storage.fs.readOnly)
    {
      records := SortByKey(records + [record]);
      SortByKeySpec(old(records) + [record]);
      if autoSave {
        var _ := Save();
      }
    }

    /** The last count records, or all of them when there are fewer. */
    method GetRecentRecords(count: nat) returns (recent: seq<Record>)
      ensures |recent| == if |records| > count then count else |records|
      ensures records == records[..|records| - |recent|] + recent
    {
      recent := [];
      if |records| == 0 {
        return;
      }
      var start := if |records| > count then |records| - count else 0;
      for i := start to |records|
        invariant recent == records[start..i]
      {
        recent := recent + [records[i]];
      }
      assert records == records[..start] + records[start..];
    }

    /**
     * The time summary of the period; with the category mode and a place to
     * put them (wantItems), also the category summary.
     */
    method ViewStatistics(period: string, mode: Mode, wantItems: bool)
      returns (summary: TimeSummary, items: Option<seq<Item>>)
      ensures summary.period == period
      ensures summary.income == IncomeTotal(Included(records, period))
      ensures summary.expense == ExpenseTotal(Included(records, period))
      ensures summary.balance == summary.income - summary.expense
      ensures summary.count == |Included(records, period)|
      ensures items.Some? <==> mode == CategoryMode && wantItems
      ensures items.Some? ==> IsCategorySummary(items.value, Included(records, period))
    {
      var statistics := new Statistics(period, mode);
      summary := statistics.GenerateByTime(records);
      items := None;
      if mode == CategoryMode && wantItems {
        var generated := statistics.GenerateByCategory(records);
        items := Some(generated);
      } else if mode == CategoryMode {
        var _ := statistics.GenerateByCategory(records);
      }
    }

    /** The records the chosen filter of the search keeps. */
    method SearchRecords(criteria: Search, mode: SearchMode) returns (out: seq<Record>)
      ensures mode == KeywordSearch ==> out == Filter(records, ByKeyword(criteria.keyword))
      ensures mode == CategorySearch ==> out == Filter(records, ByCategory(criteria.category))
      ensures mode == TimeSearch ==> out == Filter(records, ByTime(criteria.timeRange.0, criteria.timeRange.1))
    {
      match mode
      case KeywordSearch => out := criteria.SearchByKeyword(records);
      case CategorySearch => out := criteria.SearchByCategory(records);
      case TimeSearch => out := criteria.SearchByTime(records);
    }

    /** Adds a custom category under a fresh custom_N id, then saves. */
    method AddCustomCategory(name: string)
      modifies this, storage.fs
      ensures records == old(records)
      ensures |categories| == |old(categories)| + 1 && categories[..|old(categories)|] == old(categories)
      ensures var added := categories[|categories| - 1];
        && added.isCustom
        && added.name == (if name == "" then PLACEHOLDER_NAME else name)
        && added.id !in IdSet(old(categories))
        && exists n :: 1 <= n <= |old(categories)| + 1 && added.id == CustomId(n) &&
             forall k :: 1 <= k < n ==> CustomId(k) in IdSet(old(categories))
      ensures storage.fs.files == FilesSavedFrom(old(storage.fs.files), old(storage.CanEnsureDir()), records, categories)
      ensures storage.fs.dirs == old(storage.DirsAfterEnsure())
      ensures storage.fs.creatable == old(storage.fs.creatable) && storage.fs.readOnly == old(storage.fs.readOnly)
    {
      var cats, added := Categories.AddCustomCategory(categories, name);
      categories := cats;
      assert categories[..|old(categories)|] == old(categories);
      var _ := Save();
    }
  }

  // ---------------------------------------------------------------------
  // Saving and loading the whole ledger
  // ---------------------------------------------------------------------

  /** A ledger whose category list is the built-in one followed by custom categories with new names. */
  ghost predicate WellFormedCategories(cats: seq<Category>) {
    && DefaultCategories() <= cats
    && (forall i :: |DefaultCategories()| <= i < |cats| ==> cats[i].isCustom && StorableCategory(cats[i]))
    && NamesDistinct(cats)
  }

  /** Saving such a category list and merging what loads back into the built-in ones restores it. */
  lemma CategoriesRestored(cats: seq<Category>)
    requires WellFormedCategories(cats)
    ensures MergeByName(DefaultCategories(), CategoriesOfLines(Lines(CategoriesText(cats)))) == cats
  {
    var d := DefaultCategories();
    var customs := cats[|d|..];
    DefaultsStorable();
    forall i | 0 <= i < |cats|
      ensures StorableCategory(cats[i])
    {
      if i < |d| {
        assert cats[i] == d[i];
      }
    }
    CategoriesSurviveSaveLoad(cats);
    assert cats == d + customs;
    CustomOnlyOfWellFormed(d, customs);
    MergeNewNames(d, customs);
  }

  lemma DefaultsStorable()
    ensures forall i :: 0 <= i < |DefaultCategories()| ==> StorableCategory(DefaultCategories()[i])
  {
    var d := DefaultCategories();
    forall i | 0 <= i < |d|
      ensures StorableCategory(d[i])
    {
      PlainText(d[i].id);
      PlainText(d[i].name);
    }
  }

  /** Text of printable characters holds neither tab nor newline. */
  lemma PlainText(s: string)
    requires forall k :: 0 <= k < |s| ==> s[k] >= ' '
    ensures TAB !in s && NEWLINE !in s
  {
  }

  lemma {:induction false} CustomOnlyOfWellFormed(d: seq<Category>, customs: seq<Category>)
    requires forall i :: 0 <= i < |d| ==> !d[i].isCustom
    requires forall i :: 0 <= i < |customs| ==> customs[i].isCustom
    ensures CustomOnly(d + customs) == customs
    decreases |customs|
  {
    if |customs| == 0 {
      assert d + customs == d;
      CustomOnlyNone(d);
    } else {
      var init := customs[..|customs| - 1];
      CustomOnlyOfWellFormed(d, init);
      assert (d + customs)[..|d + customs| - 1] == d + init;
      assert customs == init + [customs[|customs| - 1]];
    }
  }

  lemma {:induction false} CustomOnlyNone(d: seq<Category>)
    requires forall i :: 0 <= i < |d| ==> !d[i].isCustom
    ensures CustomOnly(d) == []
  {
    if |d| > 0 {
      CustomOnlyNone(d[..|d| - 1]);
    }
  }

  /** Loaded categories whose names are new and distinct are all appended, in order. */
  lemma {:induction false} MergeNewNames(base: seq<Category>, loaded: seq<Category>)
    requires NamesDistinct(base + loaded)
    ensures MergeByName(base, loaded) == base + loaded
  {
    if |loaded| > 0 {
      var init, c := loaded[..|loaded| - 1], loaded[|loaded| - 1];
      assert (base + loaded)[..|base| + |init|] == base + init;
      MergeNewNames(base, init);
      var all := base + loaded;
      assert all[|all| - 1] == c;
      forall i | 0 <= i < |base + init|
        ensures (base + init)[i].name != c.name
      {
        assert (base + init)[i] == all[i];
      }
      assert base + loaded == base + init + [c];
    }
  }
}
