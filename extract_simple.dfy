/**
 * extract_table_simple.py: `extract_table_to_markdown` turns the tables of a
 * Word document (the `cell.text` of every cell, row by row) into Markdown
 * lines and four-field records, and `clean_cell_text` tidies each data cell.
 *
 * The records are the function's result; the lines are what it writes to the
 * Markdown file, joined by line breaks. A document without tables writes no
 * file and yields no records.
 */
module ExtractSimple {
  import opened Wrappers
  import opened Text
  import opened MarkdownTable
  import DocxToMarkdown
  import TranslationMapping

  // ---------------------------------------------------------------------
  // clean_cell_text

  /** `text.replace('|', '\\|')`. */
  function Escape(s: string): string
  {
    ReplaceChar(s, '|', "\\|")
  }

  function EscapeAll(ws: seq<string>): seq<string>
  {
    seq(|ws|, i requires 0 <= i < |ws| => Escape(ws[i]))
  }

  /** `clean_cell_text(text)`: line breaks become spaces, `split()`/`join` collapses the
      whitespace, and every `|` is escaped. */
  function CleanText(text: string): string
  {
    Escape(NormalizeSpace(ReplaceChar(ReplaceChar(text, '\n', " "), '\r', " ")))
  }

  /** Escaping keeps a word a word. */
  lemma {:induction false} EscapeKeepsNoSpace(w: string)
    requires NoSpace(w)
    ensures NoSpace(Escape(w))
    ensures w != [] ==> Escape(w) != []
  {
    if w != [] {
      EscapeKeepsNoSpace(w[1..]);
      var p: string := if w[0] == '|' then "\\|" else [w[0]];
      assert Escape(w) == p + Escape(w[1..]);
      forall i | 0 <= i < |Escape(w)|
        ensures !IsSpace(Escape(w)[i])
      {
        if i >= |p| {
          assert Escape(w)[i] == Escape(w[1..])[i - |p|];
        }
      }
    }
  }

  lemma EscapeWords(ws: seq<string>)
    requires forall i :: 0 <= i < |ws| ==> ws[i] != [] && NoSpace(ws[i])
    ensures forall i :: 0 <= i < |EscapeAll(ws)| ==> EscapeAll(ws)[i] != [] && NoSpace(EscapeAll(ws)[i])
  {
    forall i | 0 <= i < |ws|
      ensures Escape(ws[i]) != [] && NoSpace(Escape(ws[i]))
    {
      EscapeKeepsNoSpace(ws[i]);
    }
  }

  /** Escaping a space-joined text escapes each part. */
  lemma {:induction false} EscapeJoin(ws: seq<string>)
    ensures Escape(Join(" ", ws)) == Join(" ", EscapeAll(ws))
  {
    if |ws| > 1 {
      EscapeJoin(ws[1..]);
      ReplaceCharAppend(ws[0] + " ", Join(" ", ws[1..]), '|', "\\|");
      ReplaceCharAppend(ws[0], " ", '|', "\\|");
      assert Escape(" ") == " ";
      assert EscapeAll(ws[1..]) == EscapeAll(ws)[1..];
    }
  }

  /** Every `|` of an escaped text follows a `\`, and none is added or lost. */
  lemma {:induction false} EscapeBars(s: string)
    ensures CountChar(Escape(s), '|') == CountChar(s, '|')
    ensures forall i :: 0 <= i < |Escape(s)| && Escape(s)[i] == '|' ==> i > 0 && Escape(s)[i - 1] == '\\'
  {
    if s != [] {
      EscapeBars(s[1..]);
      var p: string := if s[0] == '|' then "\\|" else [s[0]];
      var rest := Escape(s[1..]);
      assert Escape(s) == p + rest;
      CountCharAppend(p, rest, '|');
      forall i | 0 <= i < |p + rest| && (p + rest)[i] == '|'
        ensures i > 0 && (p + rest)[i - 1] == '\\'
      {
        if i >= |p| {
          assert (p + rest)[i] == rest[i - |p|];
          assert (p + rest)[i - 1] == rest[i - |p| - 1];
        }
      }
    }
  }

  /** The cleaned cell holds the words of the input, each with its `|` escaped, separated by
      single spaces. */
  lemma CleanTextWords(text: string)
    ensures CleanText(text) == Join(" ", EscapeAll(Words(text)))
    ensures Words(CleanText(text)) == EscapeAll(Words(text))
  {
    WordsSpaceSwap(text, '\n', ' ');
    WordsSpaceSwap(ReplaceChar(text, '\n', " "), '\r', ' ');
    EscapeJoin(Words(text));
    EscapeWords(Words(text));
    WordsOfJoinedWords(EscapeAll(Words(text)));
  }

  /** No whitespace at either end, and every whitespace character is a single space between
      two other characters. */
  lemma CleanTextShape(text: string)
    ensures var r := CleanText(text);
      Trimmed(r) && forall i :: 0 <= i < |r| && IsSpace(r[i]) ==>
        r[i] == ' ' && 0 < i < |r| - 1 && !IsSpace(r[i - 1]) && !IsSpace(r[i + 1])
  {
    var ws := EscapeAll(Words(text));
    CleanTextWords(text);
    EscapeWords(Words(text));
    JoinedWordsShape(ws);
  }

  /** In particular no line break is left. */
  lemma CleanTextNoBreaks(text: string)
    ensures '\n' !in CleanText(text) && '\r' !in CleanText(text)
  {
    CleanTextShape(text);
  }

  /** As many `|` as the input, each right after a `\`. */
  lemma CleanTextBars(text: string)
    ensures CountChar(CleanText(text), '|') == CountChar(text, '|')
    ensures forall i :: 0 <= i < |CleanText(text)| && CleanText(text)[i] == '|' ==>
      i > 0 && CleanText(text)[i - 1] == '\\'
  {
    var t := ReplaceChar(ReplaceChar(text, '\n', " "), '\r', " ");
    var n := NormalizeSpace(t);
    EscapeBars(n);
    WordsSpaceSwap(text, '\n', ' ');
    WordsSpaceSwap(ReplaceChar(text, '\n', " "), '\r', ' ');
    WordsOfJoinedWords(Words(t));
    CountInWords(n, '|');
    CountInWords(text, '|');
  }

  /** On text without `|` the cleaning is `' '.join(text.split())`. */
  lemma CleanTextWithoutBars(text: string)
    requires '|' !in text
    ensures CleanText(text) == NormalizeSpace(text)
  {
    var t := ReplaceChar(ReplaceChar(text, '\n', " "), '\r', " ");
    WordsSpaceSwap(text, '\n', ' ');
    WordsSpaceSwap(ReplaceChar(text, '\n', " "), '\r', ' ');
    var n := NormalizeSpace(text);
    assert forall i :: 0 <= i < |text| ==> text[i] != '|';
    CountCharAbsent(text, '|');
    WordsOfJoinedWords(Words(text));
    CountInWords(n, '|');
    CountInWords(text, '|');
    CountCharZero(n, '|');
    ReplaceCharAbsent(n, '|', "\\|");
  }

  /** A cell cleans to nothing exactly when it is all whitespace. */
  lemma CleanTextEmptyIff(text: string)
    ensures CleanText(text) == [] <==> AllSpace(text)
  {
    CleanTextWords(text);
    WordsEmptyIff(text);
    EscapeWords(Words(text));
  }

  // ---------------------------------------------------------------------
  // extract_table_to_markdown

  /** What an empty table is shown as. */
  const EmptyTableLine := "*(空表格)*\n"

  function Dashes(n: nat): seq<string>
  {
    seq(n, _ => "---")
  }

  /** The two header lines for the stripped texts of the first row. */
  function HeaderLines(headers: seq<string>): seq<string>
  {
    if |headers| >= 4 then [DocxToMarkdown.HeaderLine, DocxToMarkdown.SeparatorLine]
    else [DocxToMarkdown.RowLine(headers), SeparatorLineOf(|headers|)]
  }

  /** `[clean_cell_text(cell.text) for cell in cells]`. */
  function CleanRow(row: seq<string>): seq<string>
  {
    seq(|row|, i requires 0 <= i < |row| => CleanText(row[i]))
  }

  /** The cells padded with `""` up to four and cut to four. */
  function Fitted(cells: seq<string>): seq<string>
  {
    seq(4, i requires 0 <= i < 4 => if i < |cells| then cells[i] else "")
  }

  /** The four fields of a record, in column order. */
  function RecordCells(r: TableRow): seq<string>
  {
    [r.segmentId, r.status, r.source, r.target]
  }

  /** Lines and records produced so far. */
  datatype Emitted = Emitted(lines: seq<string>, records: seq<TableRow>)

  /** What one data row adds: nothing when its cleaned cells are all empty, otherwise the
      line and the record of its fitted cells. */
  function RowOut(row: seq<string>): Emitted
  {
    var cells := CleanRow(row);
    if AllEmpty(cells) then Emitted([], [])
    else Emitted([DocxToMarkdown.RowLine(Fitted(cells))], [RecordOf(Fitted(cells))])
  }

  /** What the data rows among the first `n` rows (all but row 0) add. */
  function DataRows(table: seq<seq<string>>, n: nat): Emitted
    requires n <= |table|
  {
    if n <= 1 then Emitted([], [])
    else
      var e := DataRows(table, n - 1);
      var o := RowOut(table[n - 1]);
      Emitted(e.lines + o.lines, e.records + o.records)
  }

  /** What table number `idx` adds. */
  function TableOut(idx: nat, table: seq<seq<string>>): Emitted
  {
    var heading := "## Table " + TranslationMapping.NatToString(idx) + "\n";
    if table == [] then Emitted([heading, EmptyTableLine], [])
    else
      var d := DataRows(table, |table|);
      Emitted([heading] + HeaderLines(StripAll(table[0])) + d.lines + [""], d.records)
  }

  /** What the first `n` tables add after the title. */
  function DocumentOut(tables: seq<seq<seq<string>>>, n: nat): Emitted
    requires n <= |tables|
  {
    if n == 0 then Emitted([DocxToMarkdown.Title], [])
    else
      var e := DocumentOut(tables, n - 1);
      var o := TableOut(n, tables[n - 1]);
      Emitted(e.lines + o.lines, e.records + o.records)
  }

  /** The `while len(cell_texts) < 4` padding loop. */
  method PadCells(cells: seq<string>) returns (padded: seq<string>)
    ensures |padded| == if |cells| < 4 then 4 else |cells|
    ensures padded[..|cells|] == cells
    ensures forall i :: |cells| <= i < |padded| ==> padded[i] == ""
    ensures padded[..4] == Fitted(cells)
  {
    padded := cells;
    while |padded| < 4
      invariant |cells| <= |padded| && (|padded| <= 4 || padded == cells)
      invariant padded[..|cells|] == cells
      invariant forall i :: |cells| <= i < |padded| ==> padded[i] == ""
      decreases 4 - |padded|
    {
      padded := padded + [""];
    }
  }

  /** The loop over `rows[1:]` of a table with at least one row, with its `row_count`. */
  method ExtractRows(table: seq<seq<string>>) returns (lines: seq<string>, records: seq<TableRow>, rowCount: nat)
    requires table != []
    ensures Emitted(lines, records) == DataRows(table, |table|)
    ensures rowCount == |records|
  {
    lines, records, rowCount := [], [], 0;
    var k := 1;
    while k < |table|
      invariant 1 <= k <= |table|
      invariant Emitted(lines, records) == DataRows(table, k)
      invariant rowCount == |records|
    {
      DataRowsNext(table, k);
      var rowLines, rowRecords := EmitRow(table[k]);
      lines := lines + rowLines;
      records := records + rowRecords;
      rowCount := rowCount + |rowRecords|;
      k := k + 1;
    }
  }

  /** One pass of the loop over `rows[1:]`: the row's line and record, or neither when its
      cleaned cells are all empty. */
  method EmitRow(row: seq<string>) returns (lines: seq<string>, records: seq<TableRow>)
    ensures Emitted(lines, records) == RowOut(row)
  {
    var cells := CleanRow(row);
    if AllEmpty(cells) {
      return [], [];
    }
    var padded := PadCells(cells);
    var four := padded[..4];
    lines := ["| " + Join(" | ", four) + " |"];
    records := [];
    if |four| >= 4 {
      records := [TableRow(four[0], four[1], four[2], four[3])];
    }
  }

  /** Row `k` extends what the rows before it added by what it adds itself. */
  lemma DataRowsNext(table: seq<seq<string>>, k: nat)
    requires 1 <= k < |table|
    ensures DataRows(table, k + 1)
      == Emitted(DataRows(table, k).lines + RowOut(table[k]).lines, DataRows(table, k).records + RowOut(table[k]).records)
  {
  }

  /** `extract_table_to_markdown` on the cell texts of the document's tables: the lines of the
      Markdown file (none when there is no table, as no file is written then) and the
      records. */
  method ExtractTableToMarkdown(tables: seq<seq<seq<string>>>) returns (markdown: Option<seq<string>>, records: seq<TableRow>)
    ensures tables == [] ==> markdown == None && records == []
    ensures tables != [] ==>
      (markdown == Some(DocumentOut(tables, |tables|).lines) && records == DocumentOut(tables, |tables|).records)
  {
    if tables == [] {
      return None, [];
    }
    var lines := [DocxToMarkdown.Title];
    records := [];
    var t := 0;
    while t < |tables|
      invariant t <= |tables|
      invariant Emitted(lines, records) == DocumentOut(tables, t)
    {
      var tableLines, tableRecords := EmitTable(t + 1, tables[t]);
      lines := lines + tableLines;
      records := records + tableRecords;
      t := t + 1;
    }
    markdown := Some(lines);
  }

  /** One pass of the loop over `doc.tables`, for table number `idx`. */
  method EmitTable(idx: nat, table: seq<seq<string>>) returns (lines: seq<string>, records: seq<TableRow>)
    ensures Emitted(lines, records) == TableOut(idx, table)
  {
    lines := ["## Table " + TranslationMapping.NatToString(idx) + "\n"];
    records := [];
    if table == [] {
      lines := lines + [EmptyTableLine];
      return;
    }
    var headers := StripAll(table[0]);
    if |headers| >= 4 {
      lines := lines + [DocxToMarkdown.HeaderLine, DocxToMarkdown.SeparatorLine];
    } else {
      lines := lines + ["| " + Join(" | ", headers) + " |", "|" + Join("|", Dashes(|headers|)) + "|"];
    }
    var rowLines, rowRecords, rowCount := ExtractRows(table);
    lines := lines + rowLines + [""];
    records := rowRecords;
  }

  // ---------------------------------------------------------------------
  // properties

  /** A row whose cells are all whitespace. */
  predicate BlankRow(row: seq<string>)
  {
    forall i :: 0 <= i < |row| ==> AllSpace(row[i])
  }

  lemma CleanRowEmptyIff(row: seq<string>)
    ensures AllEmpty(CleanRow(row)) <==> BlankRow(row)
  {
    var cells := CleanRow(row);
    forall i | 0 <= i < |row|
      ensures cells[i] == [] <==> AllSpace(row[i])
    {
      CleanTextEmptyIff(row[i]);
    }
  }

  /** A data row is skipped exactly when every cell is whitespace; otherwise it gives one line
      and one record, whose fields are the first four cleaned cells, `""` where the row is
      shorter, and the line shows exactly those fields. */
  lemma RowOutSpec(row: seq<string>)
    ensures RowOut(row).records == [] <==> BlankRow(row)
    ensures |RowOut(row).lines| == |RowOut(row).records| <= 1
    ensures RowOut(row).records != [] ==>
      RowOut(row).lines[0] == DocxToMarkdown.RowLine(RecordCells(RowOut(row).records[0]))
      && forall i :: 0 <= i < 4 ==>
        RecordCells(RowOut(row).records[0])[i] == (if i < |row| then CleanText(row[i]) else "")
  {
    CleanRowEmptyIff(row);
    var cells := Fitted(CleanRow(row));
    assert RecordCells(RecordOf(cells)) == cells;
  }

  /** The positions of the non-blank data rows among the first `n` rows. */
  ghost function KeptRows(table: seq<seq<string>>, n: nat): seq<nat>
    requires n <= |table|
  {
    if n <= 1 then [] else KeptRows(table, n - 1) + (if !AllEmpty(CleanRow(table[n - 1])) then [n - 1] else [])
  }

  /** The listed positions are rows after the first, ascending. */
  lemma {:induction false} KeptRowsOrder(table: seq<seq<string>>, n: nat)
    requires n <= |table|
    ensures forall j :: 0 <= j < |KeptRows(table, n)| ==> 1 <= KeptRows(table, n)[j] < n
    ensures forall j, k :: 0 <= j < k < |KeptRows(table, n)| ==> KeptRows(table, n)[j] < KeptRows(table, n)[k]
  {
    if n > 1 {
      KeptRowsOrder(table, n - 1);
    }
  }

  /** A row after the first is listed exactly when it is not blank. */
  lemma {:induction false} KeptRowsIff(table: seq<seq<string>>, n: nat)
    requires n <= |table|
    ensures forall i :: 1 <= i < n ==> (i in KeptRows(table, n) <==> !BlankRow(table[i]))
  {
    if n > 1 {
      KeptRowsIff(table, n - 1);
      KeptRowsOrder(table, n - 1);
      var ps := KeptRows(table, n - 1);
      CleanRowEmptyIff(table[n - 1]);
      var extra: seq<nat> := if !AllEmpty(CleanRow(table[n - 1])) then [n - 1] else [];
      assert KeptRows(table, n) == ps + extra;
      forall i | 1 <= i < n
        ensures i in ps + extra <==> !BlankRow(table[i])
      {
        assert i in ps + extra <==> i in ps || i in extra;
      }
    }
  }

  /** One line and one record per kept row, in row order: the record count is the number of
      data lines, and each line shows its record. */
  lemma {:induction false} DataRowsSpec(table: seq<seq<string>>, n: nat)
    requires n <= |table|
    ensures |DataRows(table, n).lines| == |DataRows(table, n).records| == |KeptRows(table, n)|
    ensures forall j :: 0 <= j < |KeptRows(table, n)| ==>
      KeptRows(table, n)[j] < |table| && !AllEmpty(CleanRow(table[KeptRows(table, n)[j]]))
      && DataRows(table, n).records[j] == RowOut(table[KeptRows(table, n)[j]]).records[0]
      && DataRows(table, n).lines[j] == RowOut(table[KeptRows(table, n)[j]]).lines[0]
  {
    if n > 1 {
      DataRowsSpec(table, n - 1);
      RowOutStep(table[n - 1]);
    }
  }

  /** A row adds a line and a record exactly when it is kept. */
  lemma RowOutStep(row: seq<string>)
    ensures AllEmpty(CleanRow(row)) ==> RowOut(row) == Emitted([], [])
    ensures !AllEmpty(CleanRow(row)) ==> |RowOut(row).lines| == |RowOut(row).records| == 1
  {
  }

  /** The column names of the fixed header. */
  const ColumnNames: seq<string> := ["Segment ID", "Status", "Source", "Target"]

  /** What the Markdown reader makes of the two header lines. With four or more header cells
      they are the fixed header, whose cells read back as the four column names, over a
      separator. With one to three header cells that are trimmed (as `cell.text.strip()` makes
      them) and hold no `|`, the first line reads back as the headers themselves and the second
      is a separator with one `---` cell per header. */
  lemma HeaderLinesReadBack(headers: seq<string>)
    ensures |HeaderLines(headers)| == 2
    ensures |headers| >= 4 ==>
      RowCells(HeaderLines(headers)[0]) == ColumnNames &&
      IsPipeLine(HeaderLines(headers)[1]) && IsSeparatorText(HeaderLines(headers)[1])
    ensures 1 <= |headers| < 4 && (forall i :: 0 <= i < |headers| ==> Trimmed(headers[i]) && '|' !in headers[i]) ==>
      RowCells(HeaderLines(headers)[0]) == headers &&
      IsPipeLine(HeaderLines(headers)[1]) && IsSeparatorText(HeaderLines(headers)[1]) &&
      RowCells(HeaderLines(headers)[1]) == Dashes(|headers|)
  {
    if |headers| >= 4 {
      FixedHeaderReadsBack();
    } else if 1 <= |headers| && forall i :: 0 <= i < |headers| ==> Trimmed(headers[i]) && '|' !in headers[i] {
      DocxToMarkdown.RowLineReadsBack(headers);
      SeparatorLineShape(|headers|);
      SeparatorLineCells(|headers|);
    }
  }

  /** The fixed header reads back as the column names, over a separator line. */
  lemma FixedHeaderReadsBack()
    ensures RowCells(DocxToMarkdown.HeaderLine) == ColumnNames
    ensures IsPipeLine(DocxToMarkdown.SeparatorLine) && IsSeparatorText(DocxToMarkdown.SeparatorLine)
  {
    FixedHeaderIsRowLine();
    ColumnNamesClean();
    DocxToMarkdown.RowLineReadsBack(ColumnNames);
    FixedSeparatorChars();
  }

  /** The fixed header is the row line of the column names. */
  lemma FixedHeaderIsRowLine()
    ensures DocxToMarkdown.HeaderLine == DocxToMarkdown.RowLine(ColumnNames)
  {
    FixedHeaderPieces();
    RowLineOfFour(ColumnNames[0], ColumnNames[1], ColumnNames[2], ColumnNames[3]);
  }

  /** The fixed header spelled out around the column names. */
  lemma FixedHeaderPieces()
    ensures DocxToMarkdown.HeaderLine ==
      "| " + "Segment ID" + " | " + "Status" + " | " + "Source" + " | " + "Target" + " |"
  {
  }

  /** The row line of four cells. */
  lemma RowLineOfFour(a: string, b: string, c: string, d: string)
    ensures DocxToMarkdown.RowLine([a, b, c, d]) == "| " + a + " | " + b + " | " + c + " | " + d + " |"
  {
    assert [a, b, c, d] == [a] + ([b] + ([c] + [d]));
    JoinCons(" | ", c, [d]);
    JoinCons(" | ", b, [c] + [d]);
    JoinCons(" | ", a, [b] + ([c] + [d]));
  }

  /** The column names are trimmed and hold no `|`. */
  lemma ColumnNamesClean()
    ensures forall i :: 0 <= i < |ColumnNames| ==> Trimmed(ColumnNames[i]) && '|' !in ColumnNames[i]
  {
  }

  /** The fixed separator is made of `|` and `-` only. */
  lemma FixedSeparatorChars()
    ensures IsPipeLine(DocxToMarkdown.SeparatorLine) && IsSeparatorText(DocxToMarkdown.SeparatorLine)
  {
    var sep := DocxToMarkdown.SeparatorLine;
    forall i | 0 <= i < |sep|
      ensures SeparatorChar(sep[i])
    {
      if i < 20 {
        if i < 10 {} else {}
      } else {
        if i < 30 {} else {}
      }
    }
    SeparatorIff(sep);
  }

  /** `"|" + "|".join(["---"] * n) + "|"`. */
  function SeparatorLineOf(n: nat): string
  {
    "|" + Join("|", Dashes(n)) + "|"
  }

  /** For at least one column the generated separator is a pipe line that the Markdown reader
      takes for a separator. */
  lemma SeparatorLineShape(n: nat)
    requires n >= 1
    ensures IsPipeLine(SeparatorLineOf(n)) && IsSeparatorText(SeparatorLineOf(n))
  {
    var sep := SeparatorLineOf(n);
    var x := Join("|", Dashes(n));
    DashesChars(n);
    SeparatorIff(sep);
    forall i | 0 <= i < |sep|
      ensures SeparatorChar(sep[i])
    {
      if 0 < i < |sep| - 1 {
        assert sep[i] == x[i - 1];
      }
    }
  }

  /** The generated separator's cells read back as one `---` per column. */
  lemma SeparatorLineCells(n: nat)
    requires n >= 1
    ensures RowCells(SeparatorLineOf(n)) == Dashes(n)
  {
    var sep := SeparatorLineOf(n);
    var x := Join("|", Dashes(n));
    assert sep == [] + ['|'] + (x + ['|'] + []);
    SplitOnJoin(Dashes(n), '|');
    SplitOnAround([], x + ['|'] + [], '|');
    SplitOnAround(x, [], '|');
    SplitOnAbsent([], '|');
    assert SplitOn(sep, '|') == [[]] + Dashes(n) + [[]];
    assert Inner(SplitOn(sep, '|')) == Dashes(n);
    StripOfTrimmed("---");
    assert StripAll(Dashes(n)) == Dashes(n);
  }

  /** The joined dashes are made of `-` and `|` only. */
  lemma {:induction false} DashesChars(n: nat)
    ensures forall i :: 0 <= i < |Join("|", Dashes(n))| ==> SeparatorChar(Join("|", Dashes(n))[i])
  {
    if n > 1 {
      DashesChars(n - 1);
      assert Dashes(n)[1..] == Dashes(n - 1);
      var x := Join("|", Dashes(n - 1));
      assert Join("|", Dashes(n)) == "---" + "|" + x;
      forall i | 0 <= i < |"---" + "|" + x|
        ensures SeparatorChar(("---" + "|" + x)[i])
      {
        if i >= 4 {
          assert ("---" + "|" + x)[i] == x[i - 4];
        }
      }
    }
  }

  /** The `|` count of a row line: one per cell boundary and those in the cells. */
  lemma RowLineBars(cells: seq<string>)
    requires cells != []
    ensures CountChar(DocxToMarkdown.RowLine(cells), '|') == SumCount(cells, '|') + |cells| + 1
  {
    var j := Join(" | ", cells);
    assert CountChar(" | ", '|') == 1;
    assert CountChar("| ", '|') == 1;
    assert CountChar(" |", '|') == 1;
    CountInJoin(" | ", cells, '|');
    CountCharAppend("| " + j, " |", '|');
    CountCharAppend("| ", j, '|');
  }

  /** Read back by the Markdown reader, an emitted row line has one cell more than four for
      every `|` in the first four cells of the row, so it gives back exactly the record's
      fields if and only if those cells hold no `|`: the `\|` escape is not honoured by the
      reader. */
  lemma RowReadsBack(row: seq<string>)
    requires RowOut(row).records != []
    ensures |RowCells(RowOut(row).lines[0])| == 4 + SumCount(Fitted(row), '|')
    ensures RowCells(RowOut(row).lines[0]) == RecordCells(RowOut(row).records[0]) <==> SumCount(Fitted(row), '|') == 0
  {
    CleanRowEmptyIff(row);
    var cells := Fitted(CleanRow(row));
    var line := DocxToMarkdown.RowLine(cells);
    assert RecordCells(RecordOf(cells)) == cells;
    forall i | 0 <= i < 4
      ensures CountChar(cells[i], '|') == CountChar(Fitted(row)[i], '|')
      ensures Trimmed(cells[i])
    {
      if i < |row| {
        CleanTextBars(row[i]);
        CleanTextShape(row[i]);
      }
    }
    SumCountSame(cells, Fitted(row), '|');
    RowLineBars(cells);
    SplitOnCount(line, '|');
    var bars := SumCount(Fitted(row), '|');
    assert |RowCells(line)| == 4 + bars;
    if bars == 0 {
      SumCountZero(cells, '|');
      forall i | 0 <= i < 4
        ensures '|' !in cells[i]
      {
        CountCharZero(cells[i], '|');
      }
      DocxToMarkdown.RowLineReadsBack(cells);
    }
  }
}
