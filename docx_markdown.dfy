/**
 * extract_table_to_markdown.py: turning the tables that docx2python hands
 * back into Markdown lines (`extract_with_docx2python`), with
 * `clean_cell_text` for the cells. The reader of the resulting file,
 * `parse_markdown_table`, is `MarkdownTable.LoadMarkdownTable`.
 */
module DocxToMarkdown {
  import opened Text
  import opened MarkdownTable
  import TranslationMapping

  /** What docx2python hands back for a cell: a string, or a list of such values. */
  datatype CellContent = Str(s: string) | List(items: seq<CellContent>)

  // ---------------------------------------------------------------------
  // clean_cell_text

  /** `clean_cell_text(cell_content)`. */
  function CleanCell(c: CellContent): string
    decreases c, 2
  {
    match c
    case Str(s) => ReplaceChar(Strip(s), '\n', " ")
    case List(items) => Join(" ", NonEmpty(ListParts(items)))
  }

  /** The `text_parts` the loop over a list's items collects: a nested list contributes the
      cleaned text of each of its items, any other item its stripped text. */
  function ListParts(items: seq<CellContent>): seq<string>
    decreases items, 1
  {
    if items == [] then []
    else
      (match items[0]
       case Str(s) => [Strip(s)]
       case List(sub) => CleanAll(sub))
      + ListParts(items[1..])
  }

  /** `[clean_cell_text(x) for x in items]`. */
  function CleanAll(items: seq<CellContent>): seq<string>
    decreases items, 0
  {
    if items == [] then [] else [CleanCell(items[0])] + CleanAll(items[1..])
  }

  /** `filter(None, parts)`. */
  function NonEmpty(parts: seq<string>): seq<string>
  {
    if parts == [] then []
    else (if parts[0] != [] then [parts[0]] else []) + NonEmpty(parts[1..])
  }

  lemma {:induction false} NonEmptyTrimmed(parts: seq<string>)
    requires forall i :: 0 <= i < |parts| ==> Trimmed(parts[i])
    ensures forall i :: 0 <= i < |NonEmpty(parts)| ==> NonEmpty(parts)[i] != [] && Trimmed(NonEmpty(parts)[i])
  {
    if parts != [] {
      NonEmptyTrimmed(parts[1..]);
    }
  }

  /** Joining non-empty trimmed pieces with single spaces gives a trimmed string. */
  lemma {:induction false} JoinTrimmed(parts: seq<string>)
    requires forall i :: 0 <= i < |parts| ==> parts[i] != [] && Trimmed(parts[i])
    ensures Trimmed(Join(" ", parts))
  {
    if |parts| > 1 {
      JoinTrimmed(parts[1..]);
      var t := Join(" ", parts[1..]);
      assert parts[1..][1..] == parts[2..];
      assert |parts| > 2 ==> t == parts[1] + " " + Join(" ", parts[2..]);
      assert t != [];
      var r := parts[0] + " " + t;
      assert Join(" ", parts) == r;
      assert r[0] == parts[0][0];
      assert r[|r| - 1] == t[|t| - 1];
    }
  }

  /** A line break inside a stripped string stays inside once it becomes a space. */
  lemma StrCleanTrimmed(s: string)
    ensures Trimmed(ReplaceChar(Strip(s), '\n', " "))
  {
    var t := Strip(s);
    StripTrimmed(s);
    ReplaceCharPointwise(t, '\n', ' ');
    assert IsSpace('\n');
  }

  /** The cleaned text of any cell has no whitespace at either end. */
  lemma {:induction false} CleanCellTrimmed(c: CellContent)
    ensures Trimmed(CleanCell(c))
    decreases c, 2
  {
    match c
    case Str(s) => StrCleanTrimmed(s);
    case List(items) =>
      ListPartsTrimmed(items);
      NonEmptyTrimmed(ListParts(items));
      JoinTrimmed(NonEmpty(ListParts(items)));
  }

  lemma {:induction false} ListPartsTrimmed(items: seq<CellContent>)
    ensures forall i :: 0 <= i < |ListParts(items)| ==> Trimmed(ListParts(items)[i])
    decreases items, 1
  {
    if items != [] {
      ListPartsTrimmed(items[1..]);
      match items[0]
      case Str(s) => StripTrimmed(s);
      case List(sub) => CleanAllTrimmed(sub);
    }
  }

  lemma {:induction false} CleanAllTrimmed(items: seq<CellContent>)
    ensures |CleanAll(items)| == |items|
    ensures forall i :: 0 <= i < |items| ==> Trimmed(CleanAll(items)[i])
    decreases items, 0
  {
    if items != [] {
      CleanCellTrimmed(items[0]);
      CleanAllTrimmed(items[1..]);
    }
  }

  /** No string directly inside a list holds a line break (nested lists may). */
  predicate FlatStrings(c: CellContent)
  {
    match c
    case Str(_) => true
    case List(items) => forall i :: 0 <= i < |items| ==> DirectFlat(items[i])
  }

  /** A list item that is a string has no line break; a nested list qualifies throughout. */
  predicate DirectFlat(c: CellContent)
  {
    match c
    case Str(s) => '\n' !in s
    case List(sub) => forall i :: 0 <= i < |sub| ==> FlatStrings(sub[i])
  }

  /** A plain string never keeps a line break; a list keeps one only from a string that sits
      directly in a list, which is stripped but not otherwise cleaned. */
  lemma {:induction false} CleanCellNoBreak(c: CellContent)
    requires FlatStrings(c)
    ensures '\n' !in CleanCell(c)
    decreases c, 2
  {
    match c
    case Str(s) =>
    case List(items) =>
      ListPartsNoBreak(items);
      NonEmptyKeepsOut(ListParts(items), '\n');
      JoinKeepsOut(" ", NonEmpty(ListParts(items)), '\n');
  }

  lemma {:induction false} ListPartsNoBreak(items: seq<CellContent>)
    requires forall i :: 0 <= i < |items| ==> DirectFlat(items[i])
    ensures forall i :: 0 <= i < |ListParts(items)| ==> '\n' !in ListParts(items)[i]
    decreases items, 1
  {
    if items != [] {
      ListPartsNoBreak(items[1..]);
      match items[0]
      case Str(s) => StripKeepsOut(s, '\n');
      case List(sub) => CleanAllNoBreak(sub);
    }
  }

  lemma {:induction false} CleanAllNoBreak(items: seq<CellContent>)
    requires forall i :: 0 <= i < |items| ==> FlatStrings(items[i])
    ensures |CleanAll(items)| == |items|
    ensures forall i :: 0 <= i < |items| ==> '\n' !in CleanAll(items)[i]
    decreases items, 0
  {
    if items != [] {
      CleanCellNoBreak(items[0]);
      CleanAllNoBreak(items[1..]);
    }
  }

  lemma {:induction false} NonEmptyKeepsOut(parts: seq<string>, c: char)
    requires forall i :: 0 <= i < |parts| ==> c !in parts[i]
    ensures forall i :: 0 <= i < |NonEmpty(parts)| ==> c !in NonEmpty(parts)[i]
  {
    if parts != [] {
      NonEmptyKeepsOut(parts[1..], c);
    }
  }

  /** The case the previous lemma leaves out does happen: a string directly in a list keeps
      its inner line break, and an empty list cleans to the empty string. */
  lemma DirectStringKeepsBreak()
    ensures CleanCell(List([Str("a\nb")])) == "a\nb"
    ensures CleanCell(Str("a\nb")) == "a b"
    ensures CleanCell(List([])) == ""
  {
    var s := "a\nb";
    assert !IsSpace('a') && !IsSpace('b');
    assert TrimLeft(s) == s;
    assert TrimRight(s) == s;
    assert ListParts([Str(s)]) == [s];
    assert NonEmpty([s]) == [s];
    assert ReplaceChar(s, '\n', " ") == "a b";
  }

  // ---------------------------------------------------------------------
  // Markdown rows, and reading them back

  /** `"| " + " | ".join(cells) + " |"`. */
  function RowLine(cells: seq<string>): string
  {
    "| " + Join(" | ", cells) + " |"
  }

  function Padded(c: string): string
  {
    " " + c + " "
  }

  function PadAll(cells: seq<string>): seq<string>
  {
    seq(|cells|, i requires 0 <= i < |cells| => Padded(cells[i]))
  }

  lemma {:induction false} JoinPadded(cells: seq<string>)
    requires |cells| >= 1
    ensures " " + Join(" | ", cells) + " " == Join("|", PadAll(cells))
  {
    if |cells| > 1 {
      JoinPadded(cells[1..]);
      assert PadAll(cells) == [Padded(cells[0])] + PadAll(cells[1..]);
      JoinCons("|", Padded(cells[0]), PadAll(cells[1..]));
      JoinCons(" | ", cells[0], cells[1..]);
      assert cells == [cells[0]] + cells[1..];
    }
  }

  /** A trimmed cell comes back unchanged from its padding. */
  lemma PaddedStrip(c: string)
    requires Trimmed(c)
    ensures Strip(Padded(c)) == c
  {
    var p := Padded(c);
    assert p[1..] == c + " ";
    assert TrimLeft(p) == TrimLeft(c + " ");
    if c == [] {
      assert c + " " == " ";
      assert TrimLeft(" ") == TrimLeft([]);
    } else {
      assert TrimLeft(c + " ") == c + " ";
      assert (c + " ")[..|c|] == c;
      assert TrimRight(c + " ") == TrimRight(c);
    }
  }

  /** A row line made of trimmed cells without `|` is a pipe line whose cells read back as
      exactly those cells. */
  lemma RowLineReadsBack(cells: seq<string>)
    requires |cells| >= 1
    requires forall i :: 0 <= i < |cells| ==> Trimmed(cells[i]) && '|' !in cells[i]
    ensures Strip(RowLine(cells)) == RowLine(cells) && IsPipeLine(RowLine(cells))
    ensures RowCells(RowLine(cells)) == cells
  {
    var line := RowLine(cells);
    var x := Join("|", PadAll(cells));
    JoinPadded(cells);
    assert line == [] + ['|'] + (x + ['|'] + []);
    forall i | 0 <= i < |cells|
      ensures '|' !in Padded(cells[i])
    {
    }
    SplitOnJoin(PadAll(cells), '|');
    SplitOnAround([], x + ['|'] + [], '|');
    SplitOnAround(x, [], '|');
    SplitOnAbsent([], '|');
    assert SplitOn(line, '|') == [[]] + PadAll(cells) + [[]];
    assert Inner(SplitOn(line, '|')) == PadAll(cells);
    forall i | 0 <= i < |cells|
      ensures Strip(Padded(cells[i])) == cells[i]
    {
      PaddedStrip(cells[i]);
    }
    assert Trimmed(line);
  }

  // ---------------------------------------------------------------------
  // extract_with_docx2python

  const Title := "# FC Insider Translation Table\n"
  const HeaderLine := "| Segment ID | Status | Source | Target |"
  const SeparatorLine := "|------------|--------|--------|--------|"

  /** The row lines after the first `n` rows: each row with at least four cells gives the
      line of its first four cleaned cells. */
  function RowLines(table: seq<seq<CellContent>>, n: nat): seq<string>
    requires n <= |table|
  {
    if n == 0 then []
    else RowLines(table, n - 1) + (if |table[n - 1]| >= 4 then [RowLine(CleanAll(table[n - 1][..4]))] else [])
  }

  /** The lines one table adds, numbered `idx`. */
  function TableBlock(idx: nat, table: seq<seq<CellContent>>): seq<string>
  {
    ["## Table " + TranslationMapping.NatToString(idx) + "\n"]
    + (if table != [] then
         (if |table[0]| >= 4 then [HeaderLine, SeparatorLine] else []) + RowLines(table, |table|)
       else [])
    + [""]
  }

  /** The lines after the first `n` tables. */
  function DocumentLines(tables: seq<seq<seq<CellContent>>>, n: nat): seq<string>
    requires n <= |tables|
  {
    if n == 0 then [Title] else DocumentLines(tables, n - 1) + TableBlock(n, tables[n - 1])
  }

  /** The row-emission loop for one table. */
  method EmitRows(table: seq<seq<CellContent>>) returns (lines: seq<string>)
    ensures lines == RowLines(table, |table|)
  {
    lines := [];
    var k := 0;
    while k < |table|
      invariant k <= |table|
      invariant lines == RowLines(table, k)
    {
      var row := table[k];
      if |row| >= 4 {
        var cells := CleanAll(row[..4]);
        lines := lines + ["| " + Join(" | ", cells) + " |"];
      }
      k := k + 1;
    }
  }

  /** `markdown_lines` as `extract_with_docx2python` builds it. */
  method BuildMarkdown(tables: seq<seq<seq<CellContent>>>) returns (lines: seq<string>)
    ensures lines == DocumentLines(tables, |tables|)
  {
    lines := [Title];
    var t := 0;
    while t < |tables|
      invariant t <= |tables|
      invariant lines == DocumentLines(tables, t)
    {
      var table := tables[t];
      lines := lines + ["## Table " + TranslationMapping.NatToString(t + 1) + "\n"];
      if table != [] {
        if |table[0]| >= 4 {
          lines := lines + [HeaderLine, SeparatorLine];
        }
        var rows := EmitRows(table);
        lines := lines + rows;
      }
      lines := lines + [""];
      t := t + 1;
    }
  }

  /** The positions of the rows with at least four cells among the first `n`. */
  ghost function WideRows(table: seq<seq<CellContent>>, n: nat): seq<nat>
    requires n <= |table|
  {
    if n == 0 then [] else WideRows(table, n - 1) + (if |table[n - 1]| >= 4 then [n - 1] else [])
  }

  /** The listed positions are exactly the rows with at least four cells, ascending. */
  lemma {:induction false} WideRowsSpec(table: seq<seq<CellContent>>, n: nat)
    requires n <= |table|
    ensures forall j :: 0 <= j < |WideRows(table, n)| ==> WideRows(table, n)[j] < n
    ensures forall j, k :: 0 <= j < k < |WideRows(table, n)| ==> WideRows(table, n)[j] < WideRows(table, n)[k]
    ensures forall i :: 0 <= i < n ==> (i in WideRows(table, n) <==> |table[i]| >= 4)
  {
    if n > 0 {
      WideRowsSpec(table, n - 1);
      var ps := WideRows(table, n - 1);
      var extra: seq<nat> := if |table[n - 1]| >= 4 then [n - 1] else [];
      assert WideRows(table, n) == ps + extra;
      forall i | 0 <= i < n
        ensures i in ps + extra <==> |table[i]| >= 4
      {
        assert i in ps + extra <==> i in ps || i in extra;
      }
    }
  }

  /** Every row with at least four cells, the first one included, gives exactly one line, in
      table order (see `WideRowsSpec`); shorter rows give none. */
  lemma {:induction false} RowLinesSpec(table: seq<seq<CellContent>>, n: nat)
    requires n <= |table|
    ensures |RowLines(table, n)| == |WideRows(table, n)|
    ensures forall j :: 0 <= j < |WideRows(table, n)| ==>
      WideRows(table, n)[j] < |table| && |table[WideRows(table, n)[j]]| >= 4
      && RowLines(table, n)[j] == RowLine(CleanAll(table[WideRows(table, n)[j]][..4]))
  {
    if n > 0 {
      RowLinesSpec(table, n - 1);
    }
  }

  /** Every emitted row line reads back, through the Markdown reader, as the four cleaned
      cells it was made of, as long as they hold no `|`. */
  lemma EmittedRowReadsBack(row: seq<CellContent>)
    requires |row| >= 4
    requires forall i :: 0 <= i < 4 ==> '|' !in CleanCell(row[i])
    ensures RowCells(RowLine(CleanAll(row[..4]))) == CleanAll(row[..4])
    ensures |CleanAll(row[..4])| == 4
  {
    CleanAllTrimmed(row[..4]);
    forall i | 0 <= i < 4
      ensures CleanAll(row[..4])[i] == CleanCell(row[i])
    {
      CleanAllAt(row[..4], i);
    }
    RowLineReadsBack(CleanAll(row[..4]));
  }

  lemma {:induction false} CleanAllAt(items: seq<CellContent>, i: nat)
    requires i < |items|
    ensures |CleanAll(items)| == |items| && CleanAll(items)[i] == CleanCell(items[i])
  {
    CleanAllTrimmed(items);
    if i > 0 {
      CleanAllAt(items[1..], i - 1);
    }
  }

  /** A table's block is its heading, the fixed header exactly when the first row has at least
      four cells, one line per such row, and a closing blank line. */
  lemma TableBlockLength(idx: nat, table: seq<seq<CellContent>>)
    requires table != []
    ensures |TableBlock(idx, table)| == 2 + (if |table[0]| >= 4 then 2 else 0) + |WideRows(table, |table|)|
  {
    RowLinesSpec(table, |table|);
  }
}
