/**
 * One ledger entry and its single-line tab-separated form
 * (code_cpp/src/Record.cpp): the fields id, date, amount, type code,
 * category and note joined by tabs, and the tolerant parser that reads
 * such a line back.
 */
module Records {
  import opened Wrappers
  import opened Text

  datatype RecordType = Income | Expense

  /**
   * A ledger entry. The amount is an integer in the smallest currency unit;
   * the source keeps a double.
   */
  datatype Record = Record(id: string, date: string, amount: int, kind: RecordType, category: string, note: string)

  // ---------------------------------------------------------------------
  // Amount text
  // ---------------------------------------------------------------------

  /** The text written for an amount: decimal digits, with a leading '-' when negative. */
  function FormatAmount(a: int): (s: string)
    ensures |s| >= 1
    ensures forall i :: 0 <= i < |s| ==> IsDigit(s[i]) || s[i] == '-'
  {
    if a < 0 then "-" + Decimal(-a) else Decimal(a)
  }

  /** Reads an amount written by FormatAmount; any other text is unparsable. */
  function ParseAmount(s: string): Option<int> {
    if |s| >= 2 && s[0] == '-' && AllDigits(s[1..]) then Some(-(DigitsValue(s[1..]) as int))
    else if |s| >= 1 && AllDigits(s) then Some(DigitsValue(s))
    else None
  }

  /** The amount stored for a field: the parsed value, or 0 when the text does not parse. */
  function AmountOrZero(s: string): int {
    match ParseAmount(s)
    case Some(v) => v
    case None => 0
  }

  lemma AmountRoundTrip(a: int)
    ensures ParseAmount(FormatAmount(a)) == Some(a)
    ensures AmountOrZero(FormatAmount(a)) == a
  {
    var s := FormatAmount(a);
    if a < 0 {
      assert s[1..] == Decimal(-a);
      DecimalRoundTrip(-a);
    } else {
      assert IsDigit(s[0]);
      DecimalRoundTrip(a);
    }
  }

  // ---------------------------------------------------------------------
  // The tab-separated line
  // ---------------------------------------------------------------------

  /** The type code written for a record type. */
  function TypeCode(t: RecordType): (code: string)
    ensures code == "I" <==> t == Income
    ensures code == "I" || code == "E"
  {
    if t == Income then "I" else "E"
  }

  /** The six fields of a record, in the order the line holds them. */
  function TsvFields(r: Record): (fields: seq<string>)
    ensures |fields| == 6
  {
    [r.id, r.date, FormatAmount(r.amount), TypeCode(r.kind), r.category, r.note]
  }

  /** The text fields of r hold no tab, so each stays one field of the line. */
  predicate TabFree(r: Record) {
    TAB !in r.id && TAB !in r.date && TAB !in r.category && TAB !in r.note
  }

  /** Serializes a record as one line: the six fields separated by single tabs. */
  function ToTSV(r: Record): (line: string)
    ensures line == Join(TsvFields(r), TAB)
  {
    var f := TsvFields(r);
    assert Join(f[5..], TAB) == r.note;
    assert Join(f[4..], TAB) == r.category + [TAB] + r.note;
    assert Join(f[3..], TAB) == TypeCode(r.kind) + [TAB] + r.category + [TAB] + r.note;
    assert Join(f[2..], TAB) == FormatAmount(r.amount) + [TAB] + TypeCode(r.kind) + [TAB] + r.category + [TAB] + r.note;
    assert Join(f[1..], TAB) == r.date + [TAB] + FormatAmount(r.amount) + [TAB] + TypeCode(r.kind) + [TAB] + r.category + [TAB] + r.note;
    r.id + [TAB] + r.date + [TAB] + FormatAmount(r.amount) + [TAB] + TypeCode(r.kind) + [TAB] + r.category + [TAB] + r.note
  }

  /**
   * Parses one line: None (the source throws) when it has fewer than six
   * tab-separated parts; parts after the sixth are ignored, an unparsable
   * amount becomes 0 and any type code other than "I" means Expense.
   */
  function FromTSV(line: string): Option<Record> {
    var parts := Split(line, TAB);
    if |parts| < 6 then None
    else Some(Record(parts[0], parts[1], AmountOrZero(parts[2]),
                     if parts[3] == "I" then Income else Expense, parts[4], parts[5]))
  }

  /** The record as it reads back: every field kept, the amount passed through its text form. */
  function Reread(r: Record): Record {
    r.(amount := AmountOrZero(FormatAmount(r.amount)))
  }

  /** One step of the splitTSV loop: a tab closes the current part, any other character extends it. */
  lemma SplitStep(cur: string, c: char, rest: string)
    requires TAB !in cur
    ensures c == TAB ==> Split(cur + [c] + rest, TAB) == [cur] + Split("" + rest, TAB)
    ensures c != TAB ==> Split(cur + [c] + rest, TAB) == Split((cur + [c]) + rest, TAB)
  {
    if c == TAB {
      SplitAfterPlain(cur, TAB, rest);
      assert "" + rest == rest;
    }
  }

  /** Splits a line at every tab, with the character loop of splitTSV. */
  method SplitTSV(s: string) returns (out: seq<string>)
    ensures out == Split(s, TAB)
  {
    out := [];
    var cur := "";
    assert cur + s[0..] == s;
    for i := 0 to |s|
      invariant TAB !in cur
      invariant Split(s, TAB) == out + Split(cur + s[i..], TAB)
    {
      var c := s[i];
      assert cur + s[i..] == cur + [c] + s[i + 1..];
      SplitStep(cur, c, s[i + 1..]);
      if c == TAB {
        out := out + [cur];
        cur := "";
      } else {
        cur := cur + [c];
      }
    }
    assert cur + s[|s|..] == cur;
    SplitPlain(cur, TAB);
    out := out + [cur];
  }

  // ---------------------------------------------------------------------
  // Properties of the line format
  // ---------------------------------------------------------------------

  /** splitTSV yields one more part than the line has tabs, none containing a tab, and rejoining them restores the line. */
  lemma SplitTSVShape(s: string)
    ensures |Split(s, TAB)| == Count(s, TAB) + 1
    ensures forall k :: 0 <= k < |Split(s, TAB)| ==> TAB !in Split(s, TAB)[k]
    ensures Join(Split(s, TAB), TAB) == s
  {
    CountSplit(s, TAB);
    SplitPiecesHaveNoSeparator(s, TAB);
    JoinSplit(s, TAB);
  }

  /** A line is rejected exactly when it holds fewer than five tabs. */
  lemma FromTSVRejectsShortLines(line: string)
    ensures FromTSV(line).None? <==> Count(line, TAB) < 5
  {
    CountSplit(line, TAB);
  }

  /** Text appended after a sixth field does not change what is read. */
  lemma FromTSVIgnoresExtraFields(line: string, extra: string)
    requires FromTSV(line).Some?
    ensures FromTSV(line + [TAB] + extra) == FromTSV(line)
  {
    SplitConcat(line, TAB, extra);
    var p, q := Split(line, TAB), Split(line + [TAB] + extra, TAB);
    assert q[..|p|] == p;
  }

  /** The type read back is Income exactly when the fourth field is "I". */
  lemma FromTSVTypeCode(line: string)
    requires FromTSV(line).Some?
    ensures FromTSV(line).value.kind == Income <==> Split(line, TAB)[3] == "I"
  {
  }

  /** An amount field that does not parse is read as 0, and the rest of the line is still accepted. */
  lemma FromTSVDefaultsAmount(line: string)
    requires |Split(line, TAB)| >= 6
    requires ParseAmount(Split(line, TAB)[2]).None?
    ensures FromTSV(line).Some? && FromTSV(line).value.amount == 0
  {
  }

  /** The line of a record splits into its six fields in order. */
  lemma ToTSVFields(r: Record)
    requires TabFree(r)
    ensures Split(ToTSV(r), TAB) == TsvFields(r)
  {
    var f := TsvFields(r);
    forall k | 0 <= k < 6
      ensures TAB !in f[k]
    {
      if k == 2 {
        assert forall i :: 0 <= i < |f[2]| ==> f[2][i] != TAB;
      }
    }
    SplitJoin(f, TAB);
  }

  /** Reading back the line of a record gives the record, its amount passed through the amount text. */
  lemma {:induction false} RecordRoundTrip(r: Record)
    requires TabFree(r)
    ensures FromTSV(ToTSV(r)) == Some(Reread(r))
  {
    ToTSVFields(r);
  }

  /** With the integer amount text, the round trip is exact. */
  lemma ExactRecordRoundTrip(r: Record)
    requires TabFree(r)
    ensures FromTSV(ToTSV(r)) == Some(r)
  {
    RecordRoundTrip(r);
    AmountRoundTrip(r.amount);
  }
}
