# Personal ledger core, modelled in Dafny

This project models the core of a small console bookkeeping program. A
user keeps a list of income and expense records and a list of spending
categories. The user can:
- search the records by keyword, category or date range;
- summarise a period by totals or by category;
- save everything to two plain-text files, and load it back.

Each piece is modelled, and its properties are proved, in its own module:

| module | file | models |
|---|---|---|
| `Text` | text.dfy | decimal digits, `std::string` ordering, substring search, and split/join on one separator character |
| `Records` | records.dfy | the `Record` value and its tab-separated line (`splitTSV`, `toTSV`, `fromTSV`) |
| `Categories` | categories.dfy | the default categories, the allocation of fresh `custom_N` ids, and the name list |
| `Searching` | search.dfy | the `Search` object: its three criteria, their setters, and the three filters |
| `Summaries` | statistics.dfy | the `Statistics` object: the period summary, and the per-category summary with shares |
| `Persistence` | storage.dfy | the `Storage` object over a file-system model: the records file and the custom-categories file |
| `Ledger` | user.dfy | the `User` aggregate: sorted insertion, the recent view, load/save, statistics and search dispatch, and custom categories |
| `Json` | json.dfy | the JSON string escaper and its naive unquoting inverse |

**How the model is built**
- Where the source changes state step by step (the objects, their
  setters, and the loops that build vectors), the model is a `class` or a
  `method` with loop invariants.
- Each such method is proved against a specification function on values.
- The properties promised by the code and its tests are lemmas about
  those functions.

**Amounts and text**
- Amounts are integers in the smallest currency unit.
- Their text form is a decimal integer that reads back exactly.
- Text is a sequence of characters.

**The file system**
- It is a class of its own: file contents by path, existing directories,
  the directories that may be created, and the paths that cannot be
  opened for writing.
- Reading a file line by line is modelled as `std::getline` splits the
  content.

## Model

| member | source | states |
|---|---|---|
| Text.Decimal | code_cpp/src/Category.cpp:31 | `std::to_string` of a counter is a non-empty run of digits, at least two for numbers of 10 or more |
| Text.DecimalRoundTrip | code_cpp/src/Category.cpp:31 | reading the decimal text of n gives n back |
| Text.DecimalInjective | code_cpp/src/Category.cpp:27-37 | different counters give different decimal texts, so each `custom_N` candidate is new |
| Text.LexLess | code_cpp/src/User.cpp:21-23 | `<` on `std::string`: the first differing character decides, and a proper prefix is smaller than the longer text |
| Text.LexLessIrreflexive | code_cpp/src/User.cpp:19-24 | `std::string` `<` is irreflexive |
| Text.LexLessAsymmetric | code_cpp/src/User.cpp:19-24 | `std::string` `<` is asymmetric |
| Text.LexLessTransitive | code_cpp/src/User.cpp:19-24 | `std::string` `<` is transitive |
| Text.LexLessTotal | code_cpp/src/User.cpp:19-24 | of two different strings, one is smaller, so the comparator is a strict total order |
| Text.IsSubstring | code_cpp/src/Search.cpp:21-22 | `find(needle) != npos`: the needle occurs at some position of the text (the empty needle occurs everywhere) |
| Text.FirstIndexSpec | code_cpp/src/Record.cpp:37-50 | the next field ends at the first separator: there is none before it, and the separator is at it |
| Text.Split | code_cpp/src/Record.cpp:37-50 | splitting always yields at least one piece, since the last piece is pushed after the loop |
| Text.CountSplit | code_cpp/src/Record.cpp:37-50 | there is exactly one more piece than there are separators |
| Text.SplitPiecesHaveNoSeparator | code_cpp/src/Record.cpp:37-50 | no piece holds the separator |
| Text.JoinSplit | code_cpp/src/Record.cpp:37-50 | joining the pieces with the separator gives the input back |
| Text.SplitJoin | code_cpp/src/Record.cpp:64-68 | separator-free pieces that are joined split back into exactly those pieces |
| Text.SplitConcat | code_cpp/src/Record.cpp:37-50 | splitting text that has a separator in the middle gives the pieces of each side in turn, so fields after a line's sixth leave the first six pieces as they are |
| Records.FormatAmount | code_cpp/src/Record.cpp:66 | the amount text is non-empty and made of digits and a minus sign |
| Records.ParseAmount | code_cpp/src/Record.cpp:77 | the stand-in for `std::stod`: an optional minus sign and a run of digits read as that integer; any other text does not parse |
| Records.AmountOrZero | code_cpp/src/Record.cpp:75-78 | the amount stored for a field: the parsed value, or 0 when the text does not parse (the catch branch) |
| Records.AmountRoundTrip | code_cpp/src/Record.cpp:75-78 | the amount text parses back to the same amount, so the fallback 0 is never taken |
| Records.TypeCode | code_cpp/src/Record.cpp:66 | the code written is "I" exactly for Income, otherwise "E" |
| Records.TsvFields | code_cpp/src/Record.cpp:66 | a record has exactly six fields: id, date, amount, type code, category, note |
| Records.ToTSV | code_cpp/src/Record.cpp:64-68 | the line is the six fields in order, joined by single tabs |
| Records.SplitTSV | code_cpp/src/Record.cpp:37-50 | the character loop that pushes `cur` at each tab and at the end computes Split on tab |
| Records.SplitTSVShape | code_cpp/src/Record.cpp:37-50 | splitTSV gives tabs+1 parts, none of which holds a tab, and rejoining them gives the line |
| Records.FromTSV | code_cpp/src/Record.cpp:70-83 | None (the throw) when the line has fewer than six tab-separated parts. Otherwise the record of the first six parts: type "I" gives Income and anything else Expense, an amount that does not parse gives 0, and later parts are ignored |
| Records.Reread | code_cpp/src/Record.cpp:64-83 | the record as its line reads back: every field kept, the amount replaced by what its written text parses to |
| Records.FromTSVRejectsShortLines | code_cpp/src/Record.cpp:70-72 | parsing fails exactly when the line has fewer than five tabs, i.e. fewer than six parts |
| Records.FromTSVIgnoresExtraFields | code_cpp/src/Record.cpp:73-81 | parts after the sixth do not change the parsed record |
| Records.FromTSVTypeCode | code_cpp/src/Record.cpp:79 | the record is Income exactly when the fourth part is "I"; any other text means Expense |
| Records.FromTSVDefaultsAmount | code_cpp/src/Record.cpp:75-78 | an unparsable amount part yields a record with amount 0, not an error |
| Records.ToTSVFields | code_cpp/src/Record.cpp:64-68 | a record whose text fields have no tab splits back into exactly its six fields |
| Records.RecordRoundTrip | code_cpp/src/Record.cpp:64-83 | fromTSV(toTSV(r)) keeps id, date, type, category and note when they have no tab; the amount goes through its text |
| Records.ExactRecordRoundTrip | code_cpp/src/Record.cpp:64-83 | with the integer amount text, fromTSV(toTSV(r)) is r itself |
| Categories.DefaultCategories | code_cpp/src/Category.cpp:12-20 | five built-in categories, ids c_food, c_transport, c_shopping, c_salary, c_other in that order, none custom, ids and names pairwise distinct |
| Categories.CustomIdInjective | code_cpp/src/Category.cpp:29 | different counters give different `custom_N` ids |
| Categories.Pigeonhole | code_cpp/src/Category.cpp:28-37 | if custom_1 … custom_n are all taken, the list has at least n entries, so the id search stops by n = length + 1 |
| Categories.AddCustomCategory | code_cpp/src/Category.cpp:22-43 | appends exactly one custom category at the end, earlier entries unchanged. The name is the given one, or the placeholder when empty. The id is custom_N for the smallest unused N ≤ length + 1, distinct from every existing id; the returned category is the appended one |
| Categories.GetCategoryList | code_cpp/src/Category.cpp:45-52 | the names, same length and order as the categories |
| Searching.Search.constructor | code_cpp/src/Search.cpp:3 | a new search has empty keyword, category and time range |
| Searching.Search.SetKeyword | code_cpp/src/Search.cpp:5 | the keyword becomes the value set; the other criteria are unchanged |
| Searching.Search.SetCategory | code_cpp/src/Search.cpp:6 | the category becomes the value set; the other criteria are unchanged |
| Searching.Search.SetTimeRange | code_cpp/src/Search.cpp:7-9 | the range becomes (from, to); the other criteria are unchanged |
| Searching.Search.SearchByKeyword | code_cpp/src/Search.cpp:15-27 | the loop's result is the keyword filter of the records; the search object does not change |
| Searching.Search.SearchByCategory | code_cpp/src/Search.cpp:29-40 | the loop's result is the exact-category filter of the records |
| Searching.Search.SearchByTime | code_cpp/src/Search.cpp:42-58 | the loop's result is the inclusive date-range filter of the records |
| Searching.EmptyCriterionSelectsNothing | code_cpp/src/Search.cpp:15-47 | an empty keyword, an empty category, or a range with an empty bound selects nothing |
| Searching.Between | code_cpp/src/Search.cpp:56-58 | from <= date <= to in `std::string` order, an empty bound leaving that side open |
| Searching.Matches | code_cpp/src/Search.cpp:15-54 | whether a filter keeps a record: the keyword occurs in the note or the category, the category is equal, or the date is between the bounds. An empty keyword, an empty category or an empty bound keeps nothing |
| Searching.Filter | code_cpp/src/Search.cpp:15-54 | the records that match the criterion, in input order |
| Searching.FilterMembership | code_cpp/src/Search.cpp:15-58 | a record is in the result exactly when it is in the input and matches: note or category holds the keyword, category equal, or from ≤ date ≤ to |
| Searching.FilterAllMatch | code_cpp/src/Search.cpp:20-25 | every record of the result matches the criterion |
| Searching.FilterIsSubsequence | code_cpp/src/Search.cpp:15-54 | the result is a subsequence of the input, so input order is kept and it is no longer than the input |
| Searching.FilterComposes | code_cpp/tests/test_integration.cpp:92-109 | filtering the result of one search by another keeps exactly the records matching both, in order |
| Searching.FilterCommutes | code_cpp/tests/test_integration.cpp:92-109 | the order in which two searches are applied does not matter |
| Searching.FilterBothSymmetric | code_cpp/tests/test_integration.cpp:92-109 | "matches both" does not depend on the order of the two criteria |
| Searching.FilterAppend | code_cpp/src/Search.cpp:20-25 | filtering two runs of records gives the results of each run in turn |
| Summaries.Statistics.constructor | code_cpp/src/Statistics.cpp:9-10 | the object holds the given period and mode |
| Summaries.Statistics.SetPeriod | code_cpp/src/Statistics.cpp:12 | the period becomes the value set; the mode is unchanged |
| Summaries.Statistics.SetMode | code_cpp/src/Statistics.cpp:13 | the mode becomes the value set; the period is unchanged |
| Summaries.Statistics.GenerateByTime | code_cpp/src/Statistics.cpp:18-34 | the summary carries the period, the income and expense totals of the records in the period, balance = income − expense, and count = number of those records |
| Summaries.Statistics.GenerateByCategory | code_cpp/src/Statistics.cpp:36-64 | one item per distinct category of the period. Each item is that category's total and its share of the grand total (0 when the total is not positive). Items are ordered by amount, non-increasing. Item amounts add up to the grand total, and the shares add up to 100 when it is positive |
| Summaries.InPeriod | code_cpp/src/Statistics.cpp:22 | `rfind(period, 0) == 0`: the date starts with the period, and the empty period accepts every date |
| Summaries.Included | code_cpp/src/Statistics.cpp:21-24 | the records the loops do not skip, in input order |
| Summaries.IncludedMembership | code_cpp/src/Statistics.cpp:22 | a record counts exactly when the period is empty or a prefix of its date |
| Summaries.EmptyPeriodIncludesAll | code_cpp/src/Statistics.cpp:22 | the empty period includes every record |
| Summaries.IncomeExpenseSplit | code_cpp/src/Statistics.cpp:25-29 | every record goes either to income or to expense: the two totals add up to the sum of all amounts |
| Summaries.SortedEntries | code_cpp/src/Statistics.cpp:37 | an ordered map has one entry per key, and looking up a key gives its entry's value |
| Summaries.AddAmount | code_cpp/src/Statistics.cpp:42 | `totals[cat] += a` on the ordered map: adds a to the entry of cat, or inserts cat with a at its place in key order |
| Summaries.CategoryTotals | code_cpp/src/Statistics.cpp:38-43 | the ordered map built by adding each record's amount to its category, record by record (applied to the records of the period) |
| Summaries.AddAmountSorted | code_cpp/src/Statistics.cpp:42 | `totals[cat] += amount` keeps the keys in ascending order |
| Summaries.AddAmountKeys | code_cpp/src/Statistics.cpp:42 | `totals[cat] += amount` adds cat to the keys and no other key |
| Summaries.AddAmountLookup | code_cpp/src/Statistics.cpp:42 | `totals[cat] += amount` raises cat's value by the amount and leaves every other key's value alone |
| Summaries.AddAmountSum | code_cpp/src/Statistics.cpp:42 | `totals[cat] += amount` raises the sum of the values by the amount |
| Summaries.CategoryTotalsSpec | code_cpp/src/Statistics.cpp:37-48 | the map is ordered, its keys are the categories of the records, each key maps to that category's total, and the grand total over the map is the sum of all amounts |
| Summaries.WholeShare | code_cpp/src/Statistics.cpp:56 | the share of the grand total in itself is 100 |
| Summaries.TotalsDescribeCategories | code_cpp/src/Statistics.cpp:50-58 | the items built from the map describe the categories: one each, with its total and share |
| Summaries.ItemsFromTotals | code_cpp/src/Statistics.cpp:50-58 | the item amounts add up to the sum of the map, and the shares add up to that sum's share of the grand total |
| Summaries.InsertByAmountSpec | code_cpp/src/Statistics.cpp:60-62 | inserting into a non-increasing list keeps it non-increasing and adds exactly that item |
| Summaries.SortByAmountSpec | code_cpp/src/Statistics.cpp:60-62 | sorting by amount gives a non-increasing permutation |
| Summaries.SortByAmountSums | code_cpp/src/Statistics.cpp:60-62 | sorting does not change the total of amounts or shares |
| Summaries.PermutationDescribes | code_cpp/src/Statistics.cpp:60-62 | a reordering of a category summary is still a category summary, whatever order equal amounts take |
| Summaries.SortedItemsSummarize | code_cpp/src/Statistics.cpp:36-64 | the sorted items are a category summary of the records |
| Summaries.SortedItemsAddUp | code_cpp/src/Statistics.cpp:45-62 | the sorted items' amounts add up to the grand total, and their shares to 100 when it is positive |
| Summaries.JanuaryRecords | code_cpp/tests/test_integration.cpp:138-154 | on the sample ledger, period 2025-01 selects exactly the three January records, in order |
| Summaries.JanuarySummary | code_cpp/tests/test_integration.cpp:138-154 | on the sample ledger, period 2025-01 has income 100, expense 80 and three records |
| Persistence.JoinPath | code_cpp/src/Storage.cpp:10-20 | a data file's path is the directory, one '/' separator, then the file name |
| Persistence.DataFilesDistinct | code_cpp/src/Storage.cpp:10-20 | the records file and the categories file of a directory are different paths |
| Persistence.LinesOfTerminated | code_cpp/src/Storage.cpp:39-41 | lines written each followed by '\n' are read back by getline as exactly those lines, when none holds a newline |
| Persistence.RecordsOfMembership | code_cpp/src/Storage.cpp:72-82 | a record is loaded exactly when some non-empty line of the file parses to it |
| Persistence.RecordsOfAppend | code_cpp/src/Storage.cpp:72-82 | loading keeps file order, run by run |
| Persistence.StorableLine | code_cpp/src/Storage.cpp:39-41 | the line of a record with one-line fields is non-empty and has no newline |
| Persistence.Lines | code_cpp/src/Storage.cpp:72 | the lines `std::getline` reads from a file's content: the pieces between newlines, where a final newline does not start another line |
| Persistence.RecordsOf | code_cpp/src/Storage.cpp:72-82 | the records of the lines that are non-empty and parse, in file order; the other lines are skipped |
| Persistence.RecordsRereadAfterSaveLoad | code_cpp/src/Storage.cpp:31-85 | saving records with neither tab nor newline in their fields, then loading, gives each record back in order with id, date, type, category and note equal and the amount as its text reads back, whatever that text form is |
| Persistence.RecordsSurviveSaveLoad | code_cpp/src/Storage.cpp:31-85 | saving records with neither tab nor newline in their fields, then loading, gives the same records in the same order |
| Persistence.NewlineInNoteIsCut | code_cpp/src/Storage.cpp:31-85 | a note with a newline is read back cut at the newline, and what follows it is a line that is skipped |

| Persistence.NextField | code_cpp/src/Storage.cpp:102-108 | `getline(iss, field, '\t')` succeeds exactly when input is left; the field has no tab and the rest is shorter |
| Persistence.ParseCategoryLine | code_cpp/src/Storage.cpp:98-112 | None (the line is skipped) when the getline for the id or for the name fails. Otherwise the category with that id and name, custom exactly when the flag field is "1" |
| Persistence.FlagField | code_cpp/src/Storage.cpp:108-110 | the third field's text, or "1" when nothing is left after the name |
| Persistence.CategoryLineEmptyAfterId | code_cpp/src/Storage.cpp:105-107 | a line that ends in a tab right after the id has no name to read and is skipped |
| Persistence.CategoryLineNeedsName | code_cpp/src/Storage.cpp:102-107 | a line without a tab has no name field and is skipped |
| Persistence.CategoryFlagDefaultsToCustom | code_cpp/src/Storage.cpp:108-110 | a line with only id and name gives a custom category |
| Persistence.CategoryLineAfterName | code_cpp/src/Storage.cpp:101-112 | once a tab-free id and name are read, the line gives that category, custom exactly when the third field read (or "1" when nothing is left) is "1" |
| Persistence.CategoryExtraFieldsIgnored | code_cpp/src/Storage.cpp:108-112 | when a third field is read (any text, empty included, last or followed by more fields), the category is custom exactly when that field is "1"; fields after the third are ignored |
| Persistence.CategoryTrailingTabIsCustom | code_cpp/src/Storage.cpp:108-112 | a line that ends in a tab right after the name has no third field to read, so the flag defaults to "1" and the category is custom |
| Persistence.CategoryLineRoundTrip | code_cpp/src/Storage.cpp:57 | the line written for a category with tab-free id and name reads back as that category |
| Persistence.CategoriesSurviveSaveLoad | code_cpp/src/Storage.cpp:45-115 | saving categories then loading gives exactly the custom ones, in order, when the custom ones' ids and names have no tab or newline (built-in categories are never written, so they may hold anything) |
| Persistence.Storage.constructor | code_cpp/src/Storage.cpp:8 | the storage works in the given directory |
| Persistence.Storage.EnsureDataDir | code_cpp/src/Storage.cpp:22-29 | succeeds exactly when the directory exists or can be created, and then it exists; no file changes |
| Persistence.Storage.SaveRecords | code_cpp/src/Storage.cpp:31-43 | succeeds exactly when the directory can be ensured and the file opened. Then the file holds one toTSV line per record in order, and earlier content is gone. Otherwise no file changes |
| Persistence.Storage.SaveCategories | code_cpp/src/Storage.cpp:45-60 | succeeds under the same conditions, and then the file holds one `id TAB name TAB 1` line per custom category in order. Otherwise no file changes |
| Persistence.WriteRecordLines | code_cpp/src/Storage.cpp:39-41 | the loop streams exactly one toTSV line per record, in order, each followed by a newline |
| Persistence.WriteCategoryLines | code_cpp/src/Storage.cpp:53-58 | the loop streams one `id TAB name TAB 1` line per custom category, in order, skipping the built-in ones |
| Persistence.Storage.LoadRecords | code_cpp/src/Storage.cpp:62-85 | the loop's result is the records of the file's non-empty, parsable lines in order, and none when the file is missing |
| Persistence.Storage.LoadCategories | code_cpp/src/Storage.cpp:87-115 | the loop's result is the categories of the file's non-empty, well-formed lines in order, and none when the file is missing |
| Ledger.KeyLess | code_cpp/src/User.cpp:19-24 | the comparator given to `std::sort`: by date, then by id for equal dates, in `std::string` order |
| Ledger.KeyLessTransitive | code_cpp/src/User.cpp:19-24 | the (date, id) comparator is transitive |
| Ledger.InsertByKeySpec | code_cpp/src/User.cpp:18-24 | inserting into a list sorted by (date, id) keeps it sorted and adds exactly that record |
| Ledger.SortByKeySpec | code_cpp/src/User.cpp:19-24 | sorting by (date, id) gives a sorted permutation |
| Ledger.MergeByName | code_cpp/src/User.cpp:83-96 | the defaults, then each loaded category whose name is not in the list yet, in load order |
| Ledger.MergeByNameSpec | code_cpp/src/User.cpp:84-96 | the merge starts with the defaults and takes only defaults and loaded categories. Every loaded name ends up present, and names that were distinct stay distinct |
| Ledger.MergeDropsKnownName | code_cpp/src/User.cpp:86-95 | a loaded category whose name is already present is skipped |
| Ledger.MergeStep | code_cpp/src/User.cpp:85-95 | one turn of the merge loop: the next loaded category is appended exactly when no category of its name is in the list built so far, otherwise the list stays as it is |
| Ledger.MergeKeepsLoadOrder | code_cpp/src/User.cpp:83-96 | the defaults stay in front, and the categories after them are some of the loaded ones, in the order they were loaded |
| Ledger.MergeNewNames | code_cpp/src/User.cpp:84-96 | when no loaded name clashes, the result is the defaults followed by all loaded categories in file order |
| Ledger.ContainsName | code_cpp/src/User.cpp:86-92 | the inner scan with `break` finds exactly whether the name is present |
| Ledger.User.constructor | code_cpp/src/User.cpp:5-12 | a new user keeps its id and name, stores in "data", and holds what load gives |
| Ledger.User.Load | code_cpp/src/User.cpp:81-98 | records become the stored records, and categories the defaults merged by name with the stored customs; it always succeeds |
| Ledger.User.Save | code_cpp/src/User.cpp:100-104 | both writes are attempted, and it succeeds exactly when both do. A records write that succeeded stays even when the categories write fails |
| Ledger.User.AddRecord | code_cpp/src/User.cpp:17-28 | the records are the old ones plus the new one (no deduplication), sorted by (date, id). Files and directories change only when autoSave is set, and then as save writes them. Which directories may be created and which paths are read-only never change |
| Ledger.User.GetRecentRecords | code_cpp/src/User.cpp:34-44 | the last min(count, size) records in stored order, so empty for count 0 or no records |
| Ledger.User.ViewStatistics | code_cpp/src/User.cpp:46-57 | always the time summary of the period; category items only when the mode is Category and they are asked for, and then a category summary |
| Ledger.User.SearchRecords | code_cpp/src/User.cpp:59-70 | each mode runs its own filter over all records |
| Ledger.User.AddCustomCategory | code_cpp/src/User.cpp:72-75 | appends one custom category (placeholder name when empty) whose id is custom_N for the smallest N not yet taken, so no existing id. Leaves the records alone, then saves: the files are as save writes them and the data directory is created when it can be. Which directories may be created and which paths are read-only never change |
| Ledger.CategoriesRestored | code_cpp/src/User.cpp:81-104 | saving well-formed categories and loading them back gives the same category list |
| Json.HexDigit | code_cpp/src/SimpleJSON.h:23 | a hex digit of a `\u` escape is not a control character |
| Json.EscapeChar | code_cpp/src/SimpleJSON.h:13-27 | the text written for one character: backslash escapes for quote, backslash, backspace, form feed, newline, carriage return and tab; \u00 and two hex digits for other control characters; any other character as it is |
| Json.Escaped | code_cpp/src/SimpleJSON.h:10-30 | the escapes of the characters in turn |
| Json.EscapeJsonString | code_cpp/src/SimpleJSON.h:10-30 | the loop's result is the escape of each input character in turn |
| Json.EscapeCharSpec | code_cpp/src/SimpleJSON.h:13-27 | every character has a non-empty escape without control characters, and is copied unchanged exactly when it is neither a control character, a quote nor a backslash |
| Json.HexEscapeEncodesCode | code_cpp/src/SimpleJSON.h:22-23 | every control character without a short escape is written as \u00 and two lower-case hex digits whose value in base 16 is the character's code |
| Json.HexValue | code_cpp/src/SimpleJSON.h:23 | each lower-case hex digit has a value below 16 that the digit writer turns back into that digit |
| Json.EscapedHasNoControl | code_cpp/src/SimpleJSON.h:10-30 | escaped text holds no character below U+0020 |
| Json.EscapedNotShorter | code_cpp/src/SimpleJSON.h:10-30 | escaped text is at least as long as the input |
| Json.EscapedPlain | code_cpp/src/SimpleJSON.h:10-30 | text without quote, backslash or control character is left as it is |
| Json.Decode | code_cpp/src/SimpleJSON.h:37-50 | the inside of a quoted text read left to right: a backslash with a character after it gives newline, carriage return or tab for n, r or t and that character otherwise; a last backslash stays |
| Json.Unquoted | code_cpp/src/SimpleJSON.h:33-54 | a text with quotes at both ends gives the decoding of what is between them; any other text is returned as it is |
| Json.Unquote | code_cpp/src/SimpleJSON.h:33-54 | the index loop decodes the text between the quotes. Text that is not quoted comes back unchanged, and the result is no longer than the inside |
| Json.DecodeNotLonger | code_cpp/src/SimpleJSON.h:37-50 | decoding never lengthens the text |
| Json.DecodeEscapeChar | code_cpp/src/SimpleJSON.h:39-49 | the escape of a printable character, newline, CR or tab decodes back to that character |
| Json.DecodeEscaped | code_cpp/src/SimpleJSON.h:10-54 | the escape of text whose only control characters are newline, CR and tab decodes back to the text |
| Json.EscapeUnquoteRoundTrip | code_cpp/src/SimpleJSON.h:10-54 | unquote of the quoted escape of such a text gives the text back |
| Json.BackspaceDoesNotRoundTrip | code_cpp/src/SimpleJSON.h:16 | a backspace is escaped as \b, which unquote reads back as the letter b |
| Json.FormFeedDoesNotRoundTrip | code_cpp/src/SimpleJSON.h:17 | a form feed is escaped as \f, which unquote reads back as the letter f |
| Json.UnicodeEscapeDoesNotRoundTrip | code_cpp/src/SimpleJSON.h:21-23 | U+0001 is escaped as \u0001, which unquote reads back as "u0001" |
| Json.TrailingBackslashKept | code_cpp/src/SimpleJSON.h:39 | a backslash right before the closing quote is kept as a literal backslash |

## Left out

- The console UI, the clock and the entry point (code_cpp/src/MainUI.cpp, code_cpp/src/main.cpp) are I/O only. This includes record-id generation from a hidden counter.
- The fuzz driver (code_cpp/fuzz_test_target.cpp) and the defect tests exist only to drive crashes.
- The deliberately planted defects are not behaviour of the ledger. They are: the helpers in code_cpp/src/Search.cpp:60-108, code_cpp/src/Statistics.cpp:103-155, code_cpp/src/Category.cpp:54-68, code_cpp/src/User.cpp:106-123 and code_cpp/src/Storage.cpp:117-132, and the unused buffer in loadRecords.
- Records.FormatAmount: amounts are integers with an exact decimal text, not doubles printed with six significant digits and read by `std::stod`. The real format can lose precision (999999.99 prints as 1e+06), so the exact round trip holds only for this stand-in. RecordRoundTrip states the part that does not depend on it.
- Records.ParseAmount: reads only what Records.FormatAmount writes (an optional minus sign and digits). `std::stod` also accepts leading spaces, a plus sign, a decimal point, an exponent, and a number followed by other text, and these read as 0 here.
- Summaries.Percentage: shares are exact reals, so "the shares add up to 100" holds exactly here, where the floating-point source only comes close.
- `ensureUtf8` is the identity, as on non-Windows builds; the code-page conversion is a foreign API.
- Console rendering is output only: `showChart`, `showSummary` and `getRecordInfo`.
- Plain getters are left out; they return a field unchanged. This covers the getters of Record, Category, Search and Statistics, and getUserId, getUsername, getRecords and getCategories. The setters state the value a getter would then return.
- The file system is a model (the class Persistence.FileSystem). Directory creation either succeeds or leaves everything as it was. A file either opens or does not. File paths and directory paths are not related: a file can exist inside a directory that does not. A data-directory path held by a regular file counts as existing, as `std::filesystem::exists` says, so Persistence.Storage.EnsureDataDir succeeds. A real write into it then fails, while the model's write fails only for a path marked read-only. Partial writes and failures part-way through a write are not modelled.
- Summaries.Statistics.GenerateByCategory: `std::sort` is not stable. The contract fixes only the non-increasing order and the set of items, not the order of items with equal amounts.
- Text is a sequence of Unicode characters, whereas the source works on UTF-8 bytes. Tab and newline splitting, equality, prefix, substring and lexicographic order agree on the two. Json.EscapeJsonString passes every byte of 0x80 and above through unchanged, as the model does with characters from U+0080 up.
- Persistence.Storage.SaveRecords: a note holding a tab or newline cannot be stored faithfully by this line format (see NewlineInNoteIsCut). The round trip is stated only for records without them.
- Ledger.User.SearchRecords: the `default` branch of the switch returns nothing. It is unreachable, because the mode is one of the three enumerators.
