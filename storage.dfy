/**
 * Plain-text persistence of the ledger (code_cpp/src/Storage.cpp): records
 * go to <dir>/records.txt, one tab-separated line each; custom categories
 * go to <dir>/categories.txt as "id<TAB>name<TAB>flag" lines. Saving
 * creates the directory when needed and truncates the file; loading skips
 * empty and malformed lines, and a missing file loads as nothing.
 */
module Persistence {
  import opened Wrappers
  import opened Text
  import opened Records
  import opened Categories

  const DEFAULT_DIR: string := "data"
  const RECORDS_FILE: string := "records.txt"
  const CATEGORIES_FILE: string := "categories.txt"

  /**
   * The file system as the storage layer sees it: file contents by path,
   * the directories that exist, the directories that could be created, and
   * the paths that cannot be opened for writing.
   */
  class FileSystem {
    var files: map<string, string>
    var dirs: set<string>
    var creatable: set<string>
    var readOnly: set<string>

    constructor (files: map<string, string>, dirs: set<string>, creatable: set<string>, readOnly: set<string>)
      ensures this.files == files && this.dirs == dirs
      ensures this.creatable == creatable && this.readOnly == readOnly
    {
      this.files := files;
      this.dirs := dirs;
      this.creatable := creatable;
      this.readOnly := readOnly;
    }

    /** Something, file or directory, exists at p. */
    predicate Exists(p: string)
      reads this
    {
      p in dirs || p in files
    }
  }

  // ---------------------------------------------------------------------
  // Paths and lines
  // ---------------------------------------------------------------------

  /**
   * dir / name on a POSIX path: the name itself after an empty dir, no
   * extra separator after a dir already ending in '/'.
   */
  function JoinPath(dir: string, name: string): (p: string)
    ensures p == DirPrefix(dir) + name
  {
    if dir == "" then name
    else if dir[|dir| - 1] == '/' then dir + name
    else dir + "/" + name
  }

  /** What comes before a file name in JoinPath: empty, or the directory ending in '/'. */
  function DirPrefix(dir: string): (p: string)
    ensures dir == "" ==> p == ""
    ensures dir != "" ==> |p| > 0 && p[|p| - 1] == '/' && dir <= p
  {
    if dir == "" then "" else if dir[|dir| - 1] == '/' then dir else dir + "/"
  }

  /** The records and the categories of one directory live in different files. */
  lemma DataFilesDistinct(dir: string)
    ensures JoinPath(dir, RECORDS_FILE) != JoinPath(dir, CATEGORIES_FILE)
  {
  }

  /** Lines each followed by a newline: what a sequence of `<< line << '\n'` writes. */
  function Terminated(lines: seq<string>): string {
    if |lines| == 0 then "" else lines[0] + [NEWLINE] + Terminated(lines[1..])
  }

  /**
   * The lines std::getline reads from a file's content: the pieces between
   * newlines, where a final newline does not start another line.
   */
  function Lines(content: string): seq<string> {
    if content == "" then []
    else
      var parts := Split(content, NEWLINE);
      if parts[|parts| - 1] == "" then parts[..|parts| - 1] else parts
  }

  lemma {:induction false} TerminatedSnoc(lines: seq<string>, l: string)
    ensures Terminated(lines + [l]) == Terminated(lines) + l + [NEWLINE]
  {
    if |lines| == 0 {
      assert lines + [l] == [l];
    } else {
      assert (lines + [l])[1..] == lines[1..] + [l];
      TerminatedSnoc(lines[1..], l);
    }
  }

  lemma {:induction false} SplitTerminated(lines: seq<string>)
    requires forall i :: 0 <= i < |lines| ==> NEWLINE !in lines[i]
    ensures Split(Terminated(lines), NEWLINE) == lines + [""]
  {
    if |lines| == 0 {
      SplitPlain("", NEWLINE);
    } else {
      SplitTerminated(lines[1..]);
      SplitAfterPlain(lines[0], NEWLINE, Terminated(lines[1..]));
      assert lines == [lines[0]] + lines[1..];
    }
  }

  /** Lines without newlines, each written with a newline after it, are read back as they were. */
  lemma LinesOfTerminated(lines: seq<string>)
    requires forall i :: 0 <= i < |lines| ==> NEWLINE !in lines[i]
    ensures Lines(Terminated(lines)) == lines
  {
    SplitTerminated(lines);
    var parts := lines + [""];
    assert parts[..|parts| - 1] == lines;
  }

  // ---------------------------------------------------------------------
  // The records file
  // ---------------------------------------------------------------------

  function TsvLines(rs: seq<Record>): (lines: seq<string>)
    ensures |lines| == |rs|
  {
    seq(|rs|, i requires 0 <= i < |rs| => ToTSV(rs[i]))
  }

  /** The content saveRecords writes: one line per record. */
  function RecordsText(rs: seq<Record>): string {
    Terminated(TsvLines(rs))
  }

  /** The records read from the lines of the records file, skipping empty and malformed lines. */
  function RecordsOf(lines: seq<string>): seq<Record> {
    if |lines| == 0 then []
    else
      var line := lines[|lines| - 1];
      RecordsOf(lines[..|lines| - 1]) +
        (if line == "" then [] else match FromTSV(line) case Some(r) => [r] case None => [])
  }

  /** A record is loaded exactly when some non-empty line of the file parses to it. */
  lemma {:induction false} RecordsOfMembership(lines: seq<string>, r: Record)
    ensures r in RecordsOf(lines) <==>
      exists i :: 0 <= i < |lines| && lines[i] != "" && FromTSV(lines[i]) == Some(r)
  {
    if |lines| > 0 {
      var init := lines[..|lines| - 1];
      RecordsOfMembership(init, r);
      if exists i :: 0 <= i < |lines| && lines[i] != "" && FromTSV(lines[i]) == Some(r) {
        var i :| 0 <= i < |lines| && lines[i] != "" && FromTSV(lines[i]) == Some(r);
        if i < |init| {
          assert init[i] == lines[i];
        }
      }
    }
  }

  /** Loading keeps file order: the records of two runs of lines are those of each run in turn. */
  lemma {:induction false} RecordsOfAppend(a: seq<string>, b: seq<string>)
    ensures RecordsOf(a + b) == RecordsOf(a) + RecordsOf(b)
    decreases |b|
  {
    if |b| == 0 {
      assert a + b == a;
    } else {
      var b' := b[..|b| - 1];
      assert (a + b)[..|a + b| - 1] == a + b';
      RecordsOfAppend(a, b');
    }
  }

  /** A record whose text fields hold neither tab nor newline fits on one line of the file. */
  predicate Storable(r: Record) {
    TabFree(r) && NEWLINE !in r.id && NEWLINE !in r.date && NEWLINE !in r.category && NEWLINE !in r.note
  }

  lemma StorableLine(r: Record)
    requires Storable(r)
    ensures NEWLINE !in ToTSV(r) && ToTSV(r) != ""
  {
    var f := TsvFields(r);
    assert forall i :: 0 <= i < |f[2]| ==> f[2][i] != NEWLINE;
    JoinAvoids(f, TAB, NEWLINE);
    assert ToTSV(r)[|r.id|] == TAB;
  }

  /** Each record as its line reads back, in order. */
  function RereadAll(rs: seq<Record>): (out: seq<Record>)
    ensures |out| == |rs|
    ensures forall i :: 0 <= i < |rs| ==> out[i] == Reread(rs[i])
  {
    seq(|rs|, i requires 0 <= i < |rs| => Reread(rs[i]))
  }

  /**
   * Saving records, then loading, gives each record back as its line reads
   * back: id, date, type, category and note equal, the amount passed
   * through its text form. This holds whatever that text form is.
   */
  lemma {:induction false} RecordsRereadAfterSaveLoad(rs: seq<Record>)
    requires forall i :: 0 <= i < |rs| ==> Storable(rs[i])
    ensures RecordsOf(Lines(RecordsText(rs))) == RereadAll(rs)
  {
    var lines := TsvLines(rs);
    forall i | 0 <= i < |lines|
      ensures NEWLINE !in lines[i]
    {
      StorableLine(rs[i]);
    }
    LinesOfTerminated(lines);
    RecordsOfTsvLinesReread(rs);
  }

  lemma {:induction false} RecordsOfTsvLinesReread(rs: seq<Record>)
    requires forall i :: 0 <= i < |rs| ==> Storable(rs[i])
    ensures RecordsOf(TsvLines(rs)) == RereadAll(rs)
  {
    if |rs| > 0 {
      var init, r := rs[..|rs| - 1], rs[|rs| - 1];
      RecordsOfTsvLinesReread(init);
      var lines := TsvLines(rs);
      assert lines[..|rs| - 1] == TsvLines(init);
      assert lines[|rs| - 1] == ToTSV(r);
      StorableLine(r);
      RecordRoundTrip(r);
      assert RecordsOf(lines) == RereadAll(init) + [Reread(r)];
      RereadAllSnoc(rs);
    }
  }

  lemma RereadAllSnoc(rs: seq<Record>)
    requires |rs| > 0
    ensures RereadAll(rs) == RereadAll(rs[..|rs| - 1]) + [Reread(rs[|rs| - 1])]
  {
    var a, b := RereadAll(rs), RereadAll(rs[..|rs| - 1]) + [Reread(rs[|rs| - 1])];
    assert |a| == |b|;
    forall i | 0 <= i < |a|
      ensures a[i] == b[i]
    {
      if i < |rs| - 1 {
        assert b[i] == RereadAll(rs[..|rs| - 1])[i];
      }
    }
  }

  /** Records with one-line fields are read back from the text saved for them, in order. */
  lemma {:induction false} RecordsSurviveSaveLoad(rs: seq<Record>)
    requires forall i :: 0 <= i < |rs| ==> Storable(rs[i])
    ensures RecordsOf(Lines(RecordsText(rs))) == rs
  {
    var lines := TsvLines(rs);
    forall i | 0 <= i < |lines|
      ensures NEWLINE !in lines[i]
    {
      StorableLine(rs[i]);
    }
    LinesOfTerminated(lines);
    RecordsOfTsvLines(rs);
  }

  lemma {:induction false} RecordsOfTsvLines(rs: seq<Record>)
    requires forall i :: 0 <= i < |rs| ==> Storable(rs[i])
    ensures RecordsOf(TsvLines(rs)) == rs
  {
    if |rs| > 0 {
      var init, r := rs[..|rs| - 1], rs[|rs| - 1];
      RecordsOfTsvLines(init);
      assert TsvLines(rs)[..|rs| - 1] == TsvLines(init);
      StorableLine(r);
      ExactRecordRoundTrip(r);
      assert rs == init + [r];
    }
  }

  /**
   * A newline inside a note ends the record's line: the note is read back
   * cut at the newline, and the rest of the note becomes a line of its own
   * that is skipped as empty or malformed (fewer than six fields).
   */
  lemma NewlineInNoteIsCut(r: Record, before: string, after: string)
    requires r.note == before + [NEWLINE] + after
    requires Storable(r.(note := before)) && NEWLINE !in after
    requires |Split(after, TAB)| < 6
    ensures RecordsOf(Lines(RecordsText([r]))) == [r.(note := before)]
  {
    var short := r.(note := before);
    var head := ToTSV(short);
    NewlineInNoteText(r, before, after);
    StorableLine(short);
    LinesOfTerminated([head, after]);
    ExactRecordRoundTrip(short);
    assert [head, after][..1] == [head] && [head][..0] == [];
    assert FromTSV(after).None?;
    assert RecordsOf([head]) == [short];
    assert RecordsOf([head, after]) == RecordsOf([head]) + [];
  }

  /** The text saved for a record whose note holds a newline: the line of the cut record, then the rest of the note as a line. */
  lemma NewlineInNoteText(r: Record, before: string, after: string)
    requires r.note == before + [NEWLINE] + after
    ensures RecordsText([r]) == Terminated([ToTSV(r.(note := before)), after])
  {
    var head := ToTSV(r.(note := before));
    assert ToTSV(r) == head + [NEWLINE] + after;
    assert TsvLines([r]) == [ToTSV(r)];
    assert [ToTSV(r)][1..] == [] && [head, after][1..] == [after] && [after][1..] == [];
  }

  // ---------------------------------------------------------------------
  // The categories file
  // ---------------------------------------------------------------------

  /** The line written for a category: id, name and "1" or "0" for custom, tab-separated. */
  function CategoryLine(c: Category): string {
    c.id + [TAB] + c.name + [TAB] + (if c.isCustom then "1" else "0")
  }

  /** The lines saveCategories writes: the custom categories only. */
  function CategoryLines(cats: seq<Category>): seq<string> {
    if |cats| == 0 then []
    else CategoryLines(cats[..|cats| - 1]) + (if cats[|cats| - 1].isCustom then [CategoryLine(cats[|cats| - 1])] else [])
  }

  function CategoriesText(cats: seq<Category>): string {
    Terminated(CategoryLines(cats))
  }

  function CustomOnly(cats: seq<Category>): seq<Category> {
    if |cats| == 0 then []
    else CustomOnly(cats[..|cats| - 1]) + (if cats[|cats| - 1].isCustom then [cats[|cats| - 1]] else [])
  }

  /**
   * std::getline(stream, field, '\t') on what is left of a line: fails when
   * nothing is left; otherwise yields the text up to the next tab (or the
   * end) and what follows that tab.
   */
  function NextField(rest: string): (r: Option<(string, string)>)
    ensures r.Some? <==> rest != ""
    ensures r.Some? ==> TAB !in r.value.0 && |r.value.1| < |rest|
  {
    if rest == "" then None
    else
      var k := FirstIndex(rest, TAB);
      FirstIndexSpec(rest, TAB);
      Some((rest[..k], if k < |rest| then rest[k + 1..] else ""))
  }

  /**
   * One categories line: an id and a name are required; a missing flag
   * counts as "1"; the category is custom exactly when the flag is "1".
   */
  function ParseCategoryLine(line: string): Option<Category> {
    match NextField(line)
    case None => None
    case Some((id, rest)) =>
      match NextField(rest)
      case None => None
      case Some((name, rest')) =>
        Some(Category(id, name, FlagField(rest') == "1"))
  }

  /** The categories read from the lines of the categories file, skipping empty and malformed lines. */
  function CategoriesOfLines(lines: seq<string>): seq<Category> {
    if |lines| == 0 then []
    else
      var line := lines[|lines| - 1];
      CategoriesOfLines(lines[..|lines| - 1]) +
        (if line == "" then [] else match ParseCategoryLine(line) case Some(c) => [c] case None => [])
  }

  /** A category whose id and name hold neither tab nor newline fits on one line of the file. */
  predicate StorableCategory(c: Category) {
    TAB !in c.id && TAB !in c.name && NEWLINE !in c.id && NEWLINE !in c.name
  }

  /** A line with no tab has no name and is skipped. */
  lemma CategoryLineNeedsName(line: string)
    requires TAB !in line
    ensures ParseCategoryLine(line) == None
  {
    if line != "" {
      FirstIndexOfPlain(line, TAB);
    }
  }

  /** A line that ends in a tab right after the id has no name to read and is skipped. */
  lemma CategoryLineEmptyAfterId(id: string)
    requires TAB !in id
    ensures ParseCategoryLine(id + [TAB]) == None
  {
    var line := id + [TAB];
    assert line == id + [TAB] + "";
    FirstIndexAfterPlain(id, TAB, "");
    assert line[..|id|] == id;
    assert NextField(line) == Some((id, ""));
  }

  /** A line of two fields is a custom category: the flag defaults to "1". */
  lemma CategoryFlagDefaultsToCustom(id: string, name: string)
    requires TAB !in id && TAB !in name && name != ""
    ensures ParseCategoryLine(id + [TAB] + name) == Some(Category(id, name, true))
  {
    FirstIndexAfterPlain(id, TAB, name);
    var line := id + [TAB] + name;
    assert line[..|id|] == id && line[|id| + 1..] == name;
    FirstIndexOfPlain(name, TAB);
    assert name[..|name|] == name;
  }

  /** The line written for a category reads back as that category. */
  lemma CategoryLineRoundTrip(c: Category)
    requires StorableCategory(c)
    ensures ParseCategoryLine(CategoryLine(c)) == Some(c)
  {
    var flag := if c.isCustom then "1" else "0";
    var line := CategoryLine(c);
    var rest := c.name + [TAB] + flag;
    assert line == c.id + [TAB] + rest;
    FirstIndexAfterPlain(c.id, TAB, rest);
    assert line[..|c.id|] == c.id && line[|c.id| + 1..] == rest;
    assert NextField(line) == Some((c.id, rest));
    FirstIndexAfterPlain(c.name, TAB, flag);
    assert rest[..|c.name|] == c.name && rest[|c.name| + 1..] == flag;
    assert NextField(rest) == Some((c.name, flag));
    FirstIndexOfPlain(flag, TAB);
    assert flag[..|flag|] == flag;
    assert NextField(flag) == Some((flag, ""));
  }

  /** The third field's text, as getline leaves it: "1" when there is nothing left to read. */
  function FlagField(rest: string): (flag: string)
    ensures rest == "" ==> flag == "1"
    ensures rest != "" ==> TAB !in flag && flag <= rest
  {
    match NextField(rest) case Some((f, _)) => f case None => "1"
  }

  /** After a tab-free id and name, the rest of the line decides the flag alone. */
  lemma CategoryLineAfterName(id: string, name: string, rest': string)
    requires TAB !in id && TAB !in name
    ensures ParseCategoryLine(id + [TAB] + name + [TAB] + rest')
         == Some(Category(id, name, FlagField(rest') == "1"))
  {
    var line := id + [TAB] + name + [TAB] + rest';
    var rest := name + [TAB] + rest';
    assert line == id + [TAB] + rest;
    FirstIndexAfterPlain(id, TAB, rest);
    assert line[..|id|] == id && line[|id| + 1..] == rest;
    assert NextField(line) == Some((id, rest));
    FirstIndexAfterPlain(name, TAB, rest');
    assert rest[..|name|] == name && rest[|name| + 1..] == rest';
    assert NextField(rest) == Some((name, rest'));
  }

  /**
   * A category is custom exactly when its third field is "1", whatever that
   * field holds (empty included) and whatever fields follow it; the one line
   * excluded, whose third field is empty and last, is the next lemma's.
   */
  lemma CategoryExtraFieldsIgnored(id: string, name: string, flag: string, tail: string)
    requires TAB !in id && TAB !in name && TAB !in flag
    requires tail == [] || tail[0] == TAB
    requires flag + tail != ""
    ensures ParseCategoryLine(id + [TAB] + name + [TAB] + flag + tail)
         == Some(Category(id, name, flag == "1"))
  {
    FlagFieldBeforeTab(flag, tail);
    assert id + [TAB] + name + [TAB] + flag + tail == id + [TAB] + name + [TAB] + (flag + tail);
    CategoryLineAfterName(id, name, flag + tail);
  }

  /** A tab-free field followed by nothing or by a tab is read whole. */
  lemma FlagFieldBeforeTab(flag: string, tail: string)
    requires TAB !in flag
    requires tail == [] || tail[0] == TAB
    requires flag + tail != ""
    ensures FlagField(flag + tail) == flag
  {
    var rest' := flag + tail;
    if tail == [] {
      assert rest' == flag;
      FirstIndexOfPlain(flag, TAB);
      assert flag[..|flag|] == flag;
    } else {
      assert rest' == flag + [TAB] + tail[1..];
      FirstIndexAfterPlain(flag, TAB, tail[1..]);
      assert rest'[..|flag|] == flag;
    }
    assert NextField(rest').value.0 == flag;
  }

  /** A line ending in a tab right after the name has no third field to read, so the category is custom. */
  lemma CategoryTrailingTabIsCustom(id: string, name: string)
    requires TAB !in id && TAB !in name
    ensures ParseCategoryLine(id + [TAB] + name + [TAB]) == Some(Category(id, name, true))
  {
    assert id + [TAB] + name + [TAB] == id + [TAB] + name + [TAB] + "";
    CategoryLineAfterName(id, name, "");
  }

  /** The line of a storable category is one non-empty line. */
  lemma CategoryLineIsOneLine(c: Category)
    requires StorableCategory(c)
    ensures CategoryLine(c) != "" && NEWLINE !in CategoryLine(c)
  {
    assert CategoryLine(c)[|c.id|] == TAB;
  }

  lemma {:induction false} CategoryLinesAreLines(cats: seq<Category>)
    requires forall i :: 0 <= i < |cats| ==> cats[i].isCustom ==> StorableCategory(cats[i])
    ensures forall i :: 0 <= i < |CategoryLines(cats)| ==> NEWLINE !in CategoryLines(cats)[i]
  {
    if |cats| > 0 {
      var c := cats[|cats| - 1];
      CategoryLinesAreLines(cats[..|cats| - 1]);
      if c.isCustom {
        CategoryLineIsOneLine(c);
      }
    }
  }

  lemma {:induction false} CategoriesOfCategoryLines(cats: seq<Category>)
    requires forall i :: 0 <= i < |cats| ==> cats[i].isCustom ==> StorableCategory(cats[i])
    ensures CategoriesOfLines(CategoryLines(cats)) == CustomOnly(cats)
  {
    if |cats| > 0 {
      var init, c := cats[..|cats| - 1], cats[|cats| - 1];
      CategoriesOfCategoryLines(init);
      if c.isCustom {
        var line := CategoryLine(c);
        CategoryLineRoundTrip(c);
        CategoryLineIsOneLine(c);
        var ls := CategoryLines(init) + [line];
        assert ls[..|ls| - 1] == CategoryLines(init);
      } else {
        assert CategoryLines(cats) == CategoryLines(init);
      }
    }
  }

  /** The text the records loop streams out: each record's line followed by a newline. */
  method WriteRecordLines(records: seq<Record>) returns (content: string)
    ensures content == RecordsText(records)
  {
    content := "";
    for i := 0 to |records|
      invariant content == Terminated(TsvLines(records[..i]))
    {
      TerminatedSnoc(TsvLines(records[..i]), ToTSV(records[i]));
      assert TsvLines(records[..i + 1]) == TsvLines(records[..i]) + [ToTSV(records[i])];
      content := content + ToTSV(records[i]) + [NEWLINE];
    }
    assert records[..|records|] == records;
  }

  /** The text the categories loop streams out: a line for each custom category, built-in ones skipped. */
  method WriteCategoryLines(categories: seq<Category>) returns (content: string)
    ensures content == CategoriesText(categories)
  {
    content := "";
    for i := 0 to |categories|
      invariant content == Terminated(CategoryLines(categories[..i]))
    {
      var c := categories[i];
      assert categories[..i + 1][..i] == categories[..i];
      if !c.isCustom {
        assert CategoryLines(categories[..i + 1]) == CategoryLines(categories[..i]) + [];
        assert CategoryLines(categories[..i]) + [] == CategoryLines(categories[..i]);
        continue;
      }
      TerminatedSnoc(CategoryLines(categories[..i]), CategoryLine(c));
      assert CategoryLines(categories[..i + 1]) == CategoryLines(categories[..i]) + [CategoryLine(c)];
      content := content + c.id + [TAB] + c.name + [TAB] + "1" + [NEWLINE];
    }
    assert categories[..|categories|] == categories;
  }

  /** Saving and loading categories keeps exactly the custom ones, in order. */
  lemma CategoriesSurviveSaveLoad(cats: seq<Category>)
    requires forall i :: 0 <= i < |cats| ==> cats[i].isCustom ==> StorableCategory(cats[i])
    ensures CategoriesOfLines(Lines(CategoriesText(cats))) == CustomOnly(cats)
  {
    CategoriesOfCategoryLines(cats);
    CategoryLinesAreLines(cats);
    LinesOfTerminated(CategoryLines(cats));
  }

  // ---------------------------------------------------------------------
  // The storage object
  // ---------------------------------------------------------------------

  class Storage {
    const dir: string
    const fs: FileSystem

    constructor (dir: string, fs: FileSystem)
      ensures this.dir == dir && this.fs == fs
    {
      this.dir := dir;
      this.fs := fs;
    }

    function RecordsFile(): string {
      JoinPath(dir, RECORDS_FILE)
    }

    function CategoriesFile(): string {
      JoinPath(dir, CATEGORIES_FILE)
    }

    /** The records the records file holds; none when there is no such file. */
    function StoredRecords(): seq<Record>
      reads fs
    {
      if RecordsFile() in fs.files then RecordsOf(Lines(fs.files[RecordsFile()])) else []
    }

    /** The categories the categories file holds; none when there is no such file. */
    function StoredCategories(): seq<Category>
      reads fs
    {
      if CategoriesFile() in fs.files then CategoriesOfLines(Lines(fs.files[CategoriesFile()])) else []
    }

    /** The data directory exists already or can be created. */
    predicate CanEnsureDir()
      reads fs
    {
      fs.Exists(dir) || dir in fs.creatable
    }

    /** The directories after ensureDataDir: the data directory added when it is created. */
    function DirsAfterEnsure(): set<string>
      reads fs
    {
      if !fs.Exists(dir) && dir in fs.creatable then fs.dirs + {dir} else fs.dirs
    }

    /** True when the directory exists; otherwise creates it if possible and reports whether it did. */
    method EnsureDataDir() returns (ok: bool)
      modifies fs
      ensures ok == old(CanEnsureDir())
      ensures fs.dirs == old(DirsAfterEnsure())
      ensures fs.files == old(fs.files) && fs.creatable == old(fs.creatable) && fs.readOnly == old(fs.readOnly)
      ensures ok ==> fs.Exists(dir)
    {
      if fs.Exists(dir) {
        return true;
      }
      if dir in fs.creatable {
        fs.dirs := fs.dirs + {dir};
        return true;
      }
      return false;
    }

    /** Rewrites the records file with one line per record; false when the directory or the file cannot be had. */
    method SaveRecords(records: seq<Record>) returns (ok: bool)
      modifies fs
      ensures ok == (old(CanEnsureDir()) && RecordsFile() !in fs.readOnly)
      ensures fs.dirs == old(DirsAfterEnsure())
      ensures fs.files == if ok then old(fs.files)[RecordsFile() := RecordsText(records)] else old(fs.files)
      ensures fs.creatable == old(fs.creatable) && fs.readOnly == old(fs.readOnly)
    {
      ok := EnsureDataDir();
      if !ok {
        return;
      }
      var path := RecordsFile();
      if path in fs.readOnly {
        return false;
      }
      var content := WriteRecordLines(records);
      fs.files := fs.files[path := content];
    }

    /** Rewrites the categories file with one line per custom category; false as for the records. */
    method SaveCategories(categories: seq<Category>) returns (ok: bool)
      modifies fs
      ensures ok == (old(CanEnsureDir()) && CategoriesFile() !in fs.readOnly)
      ensures fs.dirs == old(DirsAfterEnsure())
      ensures fs.files == if ok then old(fs.files)[CategoriesFile() := CategoriesText(categories)] else old(fs.files)
      ensures fs.creatable == old(fs.creatable) && fs.readOnly == old(fs.readOnly)
    {
      ok := EnsureDataDir();
      if !ok {
        return;
      }
      var path := CategoriesFile();
      if path in fs.readOnly {
        return false;
      }
      var content := WriteCategoryLines(categories);
      fs.files := fs.files[path := content];
    }

    /** The records of the records file in file order; none when there is no such file. */
    method LoadRecords() returns (out: seq<Record>)
      ensures out == StoredRecords()
      ensures RecordsFile() !in fs.files ==> out == []
    {
      out := [];
      var path := RecordsFile();
      if path !in fs.files {
        return;
      }
      var lines := Lines(fs.files[path]);
      for i := 0 to |lines|
        invariant out == RecordsOf(lines[..i])
      {
        var line := lines[i];
        assert lines[..i + 1][..i] == lines[..i];
        if line == "" {
          assert RecordsOf(lines[..i + 1]) == out + [];
          continue;
        }
        match FromTSV(line)
        case Some(r) =>
          out := out + [r];
        case None =>
          assert RecordsOf(lines[..i + 1]) == out + [];
      }
      assert lines[..|lines|] == lines;
    }

    /** The categories of the categories file in file order; none when there is no such file. */
    method LoadCategories() returns (out: seq<Category>)
      ensures out == StoredCategories()
      ensures CategoriesFile() !in fs.files ==> out == []
    {
      out := [];
      var path := CategoriesFile();
      if path !in fs.files {
        return;
      }
      var lines := Lines(fs.files[path]);
      for i := 0 to |lines|
        invariant out == CategoriesOfLines(lines[..i])
      {
        var line := lines[i];
        assert lines[..i + 1][..i] == lines[..i];
        if line == "" {
          assert CategoriesOfLines(lines[..i + 1]) == out + [];
          continue;
        }
        match ParseCategoryLine(line)
        case Some(c) =>
          out := out + [c];
        case None =>
          assert CategoriesOfLines(lines[..i + 1]) == out + [];
      }
      assert lines[..|lines|] == lines;
    }
  }
}
