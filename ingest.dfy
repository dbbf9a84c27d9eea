/**
 * The format-independent part of `load_qna_file` (test.py lines 200-249): picking the question
 * and answer columns of a CSV file from its header (lines 212-224) and splitting the lines of
 * a TXT file into question and answer (lines 236-247).
 *
 * Decoding the bytes, `csv.Sniffer`, the CSV reader and `str.splitlines` are library routines:
 * the model starts from the rows the CSV reader returns and from the lines of the text.
 */
module Ingest {
  import opened Wrappers
  import opened Text
  import opened Corpus

  /** The header names taken for the question column (`Q`) and the answer column (`A`). */
  const QuestionNames: set<String> := {"question", "q", "query", "prompt"}
  const AnswerNames: set<String> := {"answer", "a", "ans", "response", "reply"}

  function Max(x: nat, y: nat): nat { if x < y then y else x }

  /** What every stored entry looks like: a non-empty question and answer without surrounding
      whitespace, and the name of the file it came from. */
  predicate IsEntry(e: QnA, src: String) {
    e.q != [] && e.a != [] && Trimmed(e.q) && Trimmed(e.a) && e.src == src
  }

  lemma StripTrimmed(s: String)
    requires Trimmed(s)
    ensures Strip(s) == s
  {
    assert s[0..] == s && s[..|s|] == s;
  }

  lemma LowerNoUpper(s: String)
    requires NoUpper(s)
    ensures Lower(s) == s
  {
  }

  // ---------------------------------------------------------------------------------------
  // Collecting entries item by item
  // ---------------------------------------------------------------------------------------

  /** The entries `data` collects from `items`, in order, where `entry` says what one item
      contributes (`data.append(...)` or nothing). */
  function Gather<T>(items: seq<T>, entry: T -> Option<QnA>): seq<QnA>
    decreases |items|
  {
    if items == [] then []
    else
      var last := entry(items[|items| - 1]);
      Gather(items[..|items| - 1], entry) + (if last.Some? then [last.value] else [])
  }

  lemma GatherSnoc<T>(items: seq<T>, x: T, entry: T -> Option<QnA>)
    ensures Gather(items + [x], entry) ==
            Gather(items, entry) + (if entry(x).Some? then [entry(x).value] else [])
  {
    assert (items + [x])[..|items|] == items;
  }

  /** An entry is collected exactly when some item contributes it. */
  lemma {:induction false} GatherMembers<T>(items: seq<T>, entry: T -> Option<QnA>, e: QnA)
    ensures e in Gather(items, entry) <==> exists i :: 0 <= i < |items| && entry(items[i]) == Some(e)
    decreases |items|
  {
    if items != [] {
      var init := items[..|items| - 1];
      GatherMembers(init, entry, e);
      if e in Gather(init, entry) {
        var i :| 0 <= i < |init| && entry(init[i]) == Some(e);
        assert items[i] == init[i];
      }
      if exists i :: 0 <= i < |items| && entry(items[i]) == Some(e) {
        var i :| 0 <= i < |items| && entry(items[i]) == Some(e);
        if i < |init| {
          assert init[i] == items[i];
        }
      }
    }
  }

  /** A collection of entries of the same file keeps that property. */
  lemma {:induction false} GatherEntries<T>(items: seq<T>, entry: T -> Option<QnA>, src: String)
    requires forall x :: entry(x).Some? ==> IsEntry(entry(x).value, src)
    ensures forall k :: 0 <= k < |Gather(items, entry)| ==> IsEntry(Gather(items, entry)[k], src)
    decreases |items|
  {
    if items != [] {
      GatherEntries(items[..|items| - 1], entry, src);
    }
  }

  /** The loop `for r in body: ... data.append(...)`. */
  method Collect<T>(items: seq<T>, entry: T -> Option<QnA>) returns (data: seq<QnA>)
    ensures data == Gather(items, entry)
  {
    data := [];
    for i := 0 to |items|
      invariant data == Gather(items[..i], entry)
    {
      GatherSnoc(items[..i], items[i], entry);
      assert items[..i + 1] == items[..i] + [items[i]];
      var e := entry(items[i]);
      if e.Some? {
        data := data + [e.value];
      }
    }
    assert items[..|items|] == items;
  }

  // ---------------------------------------------------------------------------------------
  // CSV
  // ---------------------------------------------------------------------------------------

  /** The columns read from each row, and how many leading rows are skipped. */
  datatype Columns = Columns(q: nat, a: nat, skip: nat)

  /** `[c.strip().lower() for c in rows[0]]` */
  function Header(row: seq<String>): seq<String> {
    seq(|row|, i requires 0 <= i < |row| => Lower(Strip(row[i])))
  }

  /** `any(h in names for h in header)` */
  predicate HasName(header: seq<String>, names: set<String>) {
    exists i :: 0 <= i < |header| && header[i] in names
  }

  /** The last index of `header` holding one of `names`: what `q_idx` or `a_idx` holds after
      the header loop. */
  function LastIn(header: seq<String>, names: set<String>): Option<nat>
    decreases |header|
  {
    if header == [] then None
    else if header[|header| - 1] in names then Some(|header| - 1)
    else LastIn(header[..|header| - 1], names)
  }

  lemma {:induction false} LastInFacts(header: seq<String>, names: set<String>)
    ensures LastIn(header, names).None? <==> !HasName(header, names)
    ensures LastIn(header, names).Some? ==>
              var i := LastIn(header, names).value;
              i < |header| && header[i] in names && forall j :: i < j < |header| ==> header[j] !in names
    decreases |header|
  {
    if header != [] && header[|header| - 1] !in names {
      var init := header[..|header| - 1];
      LastInFacts(init, names);
      if HasName(header, names) {
        var i :| 0 <= i < |header| && header[i] in names;
        assert init[i] == header[i];
      }
      if HasName(init, names) {
        var i :| 0 <= i < |init| && init[i] in names;
        assert header[i] == init[i];
      }
    }
  }

  /** The column choice: with a known question name and a known answer name in the header,
      the last column of each kind, and the header row is skipped; otherwise columns 0 and 1,
      and every row is data. */
  function ChooseColumns(header: seq<String>): Columns {
    if HasName(header, QuestionNames) && HasName(header, AnswerNames) then
      LastInFacts(header, QuestionNames);
      LastInFacts(header, AnswerNames);
      Columns(LastIn(header, QuestionNames).value, LastIn(header, AnswerNames).value, 1)
    else
      Columns(0, 1, 0)
  }

  lemma ColumnsChoice(header: seq<String>)
    ensures var c := ChooseColumns(header);
            HasName(header, QuestionNames) && HasName(header, AnswerNames) ==>
              && c.skip == 1
              && c.q < |header| && header[c.q] in QuestionNames
              && (forall j :: c.q < j < |header| ==> header[j] !in QuestionNames)
              && c.a < |header| && header[c.a] in AnswerNames
              && (forall j :: c.a < j < |header| ==> header[j] !in AnswerNames)
    ensures !(HasName(header, QuestionNames) && HasName(header, AnswerNames)) ==>
              ChooseColumns(header) == Columns(0, 1, 0)
  {
    LastInFacts(header, QuestionNames);
    LastInFacts(header, AnswerNames);
  }

  lemma LastInSnoc(header: seq<String>, names: set<String>, i: nat)
    requires i < |header|
    ensures LastIn(header[..i + 1], names) ==
            if header[i] in names then Some(i) else LastIn(header[..i], names)
  {
    assert header[..i + 1][..i] == header[..i];
  }

  /** The header loop `for i,h in enumerate(header)`, run when both kinds of name occur. */
  method PickColumns(header: seq<String>) returns (cols: Columns)
    ensures cols == ChooseColumns(header)
  {
    if HasName(header, QuestionNames) && HasName(header, AnswerNames) {
      var qIdx: Option<nat> := None;
      var aIdx: Option<nat> := None;
      for i := 0 to |header|
        invariant qIdx == LastIn(header[..i], QuestionNames)
        invariant aIdx == LastIn(header[..i], AnswerNames)
      {
        LastInSnoc(header, QuestionNames, i);
        LastInSnoc(header, AnswerNames, i);
        if header[i] in QuestionNames {
          qIdx := Some(i);
        }
        if header[i] in AnswerNames {
          aIdx := Some(i);
        }
      }
      assert header[..|header|] == header;
      LastInFacts(header, QuestionNames);
      LastInFacts(header, AnswerNames);
      cols := Columns(qIdx.value, aIdx.value, 1);
    } else {
      cols := Columns(0, 1, 0);
    }
  }

  /** What one data row contributes: rows too short for both columns, and rows whose question
      or answer is blank, contribute nothing. */
  function RowEntry(row: seq<String>, cols: Columns, src: String): Option<QnA> {
    if |row| > Max(cols.q, cols.a) then
      var q, a := Strip(row[cols.q]), Strip(row[cols.a]);
      if q != [] && a != [] then Some(QnA(q, a, src)) else None
    else None
  }

  /** `RowEntry` as the function the row loop applies to each row. */
  function RowReader(cols: Columns, src: String): seq<String> -> Option<QnA> {
    r => RowEntry(r, cols, src)
  }

  /** The entries of a CSV file named `src` whose reader returned `rows`. */
  function CsvEntries(rows: seq<seq<String>>, src: String): seq<QnA> {
    if rows == [] then []
    else
      var cols := ChooseColumns(Header(rows[0]));
      Gather(rows[cols.skip..], RowReader(cols, src))
  }

  /** The entries collected from a suffix of the items are the entries of those items. */
  lemma GatherSuffix<T>(items: seq<T>, from: nat, entry: T -> Option<QnA>, e: QnA)
    requires from <= |items|
    ensures e in Gather(items[from..], entry) <==>
            exists i :: from <= i < |items| && entry(items[i]) == Some(e)
  {
    var suffix := items[from..];
    GatherMembers(suffix, entry, e);
    if exists i :: 0 <= i < |suffix| && entry(suffix[i]) == Some(e) {
      var i :| 0 <= i < |suffix| && entry(suffix[i]) == Some(e);
      assert items[from + i] == suffix[i];
    }
    if exists i :: from <= i < |items| && entry(items[i]) == Some(e) {
      var i :| from <= i < |items| && entry(items[i]) == Some(e);
      assert suffix[i - from] == items[i];
    }
  }

  lemma RowReaderEntries(cols: Columns, src: String)
    ensures forall r :: RowReader(cols, src)(r).Some? ==> IsEntry(RowReader(cols, src)(r).value, src)
  {
  }

  /** An entry of a CSV file is the entry of one of its data rows (the rows after the header
      when one was recognised, else all rows), and every entry is well formed. */
  lemma CsvMembers(rows: seq<seq<String>>, src: String, e: QnA)
    requires rows != []
    ensures var cols := ChooseColumns(Header(rows[0]));
            e in CsvEntries(rows, src) <==>
              exists i :: cols.skip <= i < |rows| && RowEntry(rows[i], cols, src) == Some(e)
    ensures forall k :: 0 <= k < |CsvEntries(rows, src)| ==> IsEntry(CsvEntries(rows, src)[k], src)
  {
    var cols := ChooseColumns(Header(rows[0]));
    assert cols.skip <= 1;
    GatherSuffix(rows, cols.skip, RowReader(cols, src), e);
    RowReaderEntries(cols, src);
    GatherEntries(rows[cols.skip..], RowReader(cols, src), src);
  }

  /** The CSV branch of `load_qna_file`. */
  method LoadCsv(rows: seq<seq<String>>, src: String) returns (data: seq<QnA>)
    ensures data == CsvEntries(rows, src)
  {
    if rows == [] {
      return [];
    }
    var cols := PickColumns(Header(rows[0]));
    data := Collect(rows[cols.skip..], RowReader(cols, src));
  }

  /** An entry as a CSV row: question, then answer. */
  function CsvRow(e: QnA): seq<String> {
    [e.q, e.a]
  }

  function DataRows(entries: seq<QnA>): seq<seq<String>>
    decreases |entries|
  {
    if entries == [] then [] else DataRows(entries[..|entries| - 1]) + [CsvRow(entries[|entries| - 1])]
  }

  /** A file written as a `question,answer` header followed by one row per entry. */
  function CsvRows(entries: seq<QnA>): seq<seq<String>> {
    [["question", "answer"]] + DataRows(entries)
  }

  /** A header of trimmed lower-case names reads as itself. */
  lemma HeaderOfNames(row: seq<String>)
    requires forall k :: 0 <= k < |row| ==> Trimmed(row[k]) && NoUpper(row[k])
    ensures Header(row) == row
  {
    forall k | 0 <= k < |row|
      ensures Header(row)[k] == row[k]
    {
      StripTrimmed(row[k]);
      LowerNoUpper(row[k]);
    }
  }

  lemma HeaderOfCsvRows()
    ensures Header(["question", "answer"]) == ["question", "answer"]
  {
    var row: seq<String> := ["question", "answer"];
    assert Trimmed(row[0]) && NoUpper(row[0]);
    assert Trimmed(row[1]) && NoUpper(row[1]);
    HeaderOfNames(row);
  }

  lemma ColumnsOfCsvRows()
    ensures ChooseColumns(["question", "answer"]) == Columns(0, 1, 1)
  {
    var row: seq<String> := ["question", "answer"];
    assert row[0] in QuestionNames && row[0] !in AnswerNames;
    assert row[1] in AnswerNames && row[1] !in QuestionNames;
    assert HasName(row, QuestionNames) && HasName(row, AnswerNames);
    assert row[..1] == ["question"];
  }

  lemma RowOfEntry(e: QnA, src: String)
    requires IsEntry(e, src)
    ensures RowEntry(CsvRow(e), Columns(0, 1, 1), src) == Some(e)
  {
    StripTrimmed(e.q);
    StripTrimmed(e.a);
  }

  lemma {:induction false} GatherRows(entries: seq<QnA>, src: String)
    requires forall k :: 0 <= k < |entries| ==> IsEntry(entries[k], src)
    ensures Gather(DataRows(entries), RowReader(Columns(0, 1, 1), src)) == entries
    decreases |entries|
  {
    if entries != [] {
      var init := entries[..|entries| - 1];
      var last := entries[|entries| - 1];
      GatherRows(init, src);
      GatherSnoc(DataRows(init), CsvRow(last), RowReader(Columns(0, 1, 1), src));
      RowOfEntry(last, src);
      assert entries == init + [last];
    }
  }

  /** Reading back such a file gives the entries again. */
  lemma CsvRoundTrip(entries: seq<QnA>, src: String)
    requires forall k :: 0 <= k < |entries| ==> IsEntry(entries[k], src)
    ensures CsvEntries(CsvRows(entries), src) == entries
  {
    var rows := CsvRows(entries);
    assert rows[0] == ["question", "answer"] && rows[1..] == DataRows(entries);
    HeaderOfCsvRows();
    ColumnsOfCsvRows();
    GatherRows(entries, src);
  }

  // ---------------------------------------------------------------------------------------
  // TXT
  // ---------------------------------------------------------------------------------------

  /** `l.split(sep, 1)` for a separator that occurs in `l`. */
  function SplitFirst(l: String, sep: String): (String, String)
    requires Contains(l, sep)
  {
    ContainsIff(l, sep);
    var i := IndexOf(l, sep).value;
    (l[..i], l[i + |sep|..])
  }

  /** The two parts put back together around the separator, and no occurrence of the
      separator lies wholly before the cut. */
  lemma SplitFirstFacts(l: String, sep: String)
    requires sep != [] && Contains(l, sep)
    ensures l == SplitFirst(l, sep).0 + sep + SplitFirst(l, sep).1
    ensures !Contains(SplitFirst(l, sep).0, sep)
  {
    ContainsIff(l, sep);
    var i := IndexOf(l, sep).value;
    assert OccursAt(l, sep, i);
    var x, y := l[..i], l[i + |sep|..];
    assert SplitFirst(l, sep) == (x, y);
    assert l == x + sep + y by {
      assert l == l[..i] + l[i..i + |sep|] + l[i + |sep|..];
    }
    if Contains(x, sep) {
      ContainsIff(x, sep);
      var j := IndexOf(x, sep).value;
      assert OccursAt(x, sep, j);
      assert l[j..j + |sep|] == x[j..j + |sep|];
      assert j < i && OccursAt(l, sep, j);
    }
  }

  /** The question and answer of a split line, kept when both are non-blank. */
  function PairEntry(parts: (String, String), src: String): Option<QnA> {
    var q, a := Strip(parts.0), Strip(parts.1);
    if q != [] && a != [] then Some(QnA(q, a, src)) else None
  }

  /** What one line of a TXT file contributes: blank lines and lines with neither `:::` nor
      `,` contribute nothing; a line is cut at its first `:::` if it has one, else at its first
      `,`. */
  function LineEntry(line: String, src: String): Option<QnA> {
    var l := Strip(line);
    if l == [] then None
    else if Contains(l, ":::") then PairEntry(SplitFirst(l, ":::"), src)
    else if Contains(l, ",") then PairEntry(SplitFirst(l, ","), src)
    else None
  }

  /** `LineEntry` as the function the line loop applies to each line. */
  function LineReader(src: String): String -> Option<QnA> {
    l => LineEntry(l, src)
  }

  /** The entries of a TXT file named `src` with the given lines. */
  function TxtEntries(lines: seq<String>, src: String): seq<QnA> {
    Gather(lines, LineReader(src))
  }

  lemma PairEntryShape(parts: (String, String), src: String)
    ensures PairEntry(parts, src).Some? ==> IsEntry(PairEntry(parts, src).value, src)
  {
  }

  /** A line without either separator is skipped, and every line that gives an entry gives a
      well-formed one. */
  lemma LineEntryFacts(line: String, src: String)
    ensures !Contains(Strip(line), ":::") && !Contains(Strip(line), ",") ==> LineEntry(line, src).None?
    ensures LineEntry(line, src).Some? ==> IsEntry(LineEntry(line, src).value, src)
  {
    var l := Strip(line);
    if Contains(l, ":::") {
      PairEntryShape(SplitFirst(l, ":::"), src);
    } else if Contains(l, ",") {
      PairEntryShape(SplitFirst(l, ","), src);
    }
  }

  /** An entry of a TXT file is the entry of one of its lines, and is well formed. */
  lemma TxtMembers(lines: seq<String>, src: String, e: QnA)
    ensures e in TxtEntries(lines, src) <==> exists i :: 0 <= i < |lines| && LineEntry(lines[i], src) == Some(e)
    ensures forall k :: 0 <= k < |TxtEntries(lines, src)| ==> IsEntry(TxtEntries(lines, src)[k], src)
  {
    GatherMembers(lines, LineReader(src), e);
    forall x | true
      ensures LineReader(src)(x).Some? ==> IsEntry(LineReader(src)(x).value, src)
    {
      LineEntryFacts(x, src);
    }
    GatherEntries(lines, LineReader(src), src);
  }

  /** The TXT branch of `load_qna_file`. */
  method LoadTxt(lines: seq<String>, src: String) returns (data: seq<QnA>)
    ensures data == TxtEntries(lines, src)
  {
    data := Collect(lines, LineReader(src));
  }

  /** An entry written as a `q ::: a` line. */
  function TxtLine(e: QnA): String {
    e.q + " ::: " + e.a
  }

  /** The blank before the separator stops any earlier `:::` from reaching into it. */
  lemma NoSeparatorBefore(e: QnA, j: int)
    requires !Contains(e.q, ":::") && 0 <= j <= |e.q|
    ensures !OccursAt(TxtLine(e), ":::", j)
  {
    var l := TxtLine(e);
    if j + 3 <= |e.q| {
      if OccursAt(l, ":::", j) {
        assert e.q[j..j + 3] == l[j..j + 3];
        assert OccursAt(e.q, ":::", j);
        ContainsIff(e.q, ":::");
      }
    } else {
      assert l[|e.q|] == ' ';
      assert j + 3 <= |l| ==> l[j..j + 3][|e.q| - j] == ' ';
    }
  }

  lemma FirstSeparator(e: QnA)
    requires !Contains(e.q, ":::")
    ensures IndexOf(TxtLine(e), ":::") == Some(|e.q| + 1)
  {
    var l := TxtLine(e);
    assert OccursAt(l, ":::", |e.q| + 1) by {
      assert l[|e.q| + 1..|e.q| + 4] == ":::";
    }
    forall j | 0 <= j < |e.q| + 1
      ensures !OccursAt(l, ":::", j)
    {
      NoSeparatorBefore(e, j);
    }
    IndexOfFirst(l, ":::", |e.q| + 1);
  }

  lemma StripPadded(s: String)
    requires s != [] && Trimmed(s)
    ensures Strip(s + " ") == s && Strip(" " + s) == s
  {
    var t := s + " ";
    assert LeadingSpaces(t) == 0;
    assert t[0..] == t;
    assert TrailingSpaces(t[..|t| - 1]) == 0;
    assert t[..|t| - 1] == s && s[..|s|] == s;
    var u := " " + s;
    assert LeadingSpaces(u) == 1 by {
      assert u[1..] == s;
    }
    assert TrailingSpaces(s) == 0 && s[0..] == s;
  }

  lemma StripTxtLine(e: QnA, src: String)
    requires IsEntry(e, src)
    ensures Strip(TxtLine(e)) == TxtLine(e)
  {
    var l := TxtLine(e);
    assert Trimmed(l) by {
      assert l[0] == e.q[0];
      assert l[|l| - 1] == e.a[|e.a| - 1];
    }
    StripTrimmed(l);
  }

  lemma SplitTxtLine(e: QnA)
    requires !Contains(e.q, ":::")
    ensures Contains(TxtLine(e), ":::")
    ensures SplitFirst(TxtLine(e), ":::") == (e.q + " ", " " + e.a)
  {
    var l := TxtLine(e);
    FirstSeparator(e);
    assert l[..|e.q| + 1] == e.q + " ";
    assert l[|e.q| + 4..] == " " + e.a;
  }

  lemma PairOfPadded(e: QnA, src: String)
    requires IsEntry(e, src)
    ensures PairEntry((e.q + " ", " " + e.a), src) == Some(e)
  {
    StripPadded(e.q);
    StripPadded(e.a);
  }

  /** Reading back a `q ::: a` line gives the entry again, provided its question holds no
      `:::`; the answer may hold anything, commas and `:::` included. */
  lemma TxtRoundTrip(e: QnA, src: String)
    requires IsEntry(e, src) && !Contains(e.q, ":::")
    ensures LineEntry(TxtLine(e), src) == Some(e)
  {
    StripTxtLine(e, src);
    SplitTxtLine(e);
    PairOfPadded(e, src);
  }
}
