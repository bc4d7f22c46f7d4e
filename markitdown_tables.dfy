/**
 * `parse_markdown_tables` in extract_table_markitdown.py: the reader for the
 * Markdown that a converter produced from the Word table.
 *
 * Unlike `MarkdownTable`, a table opens only at a line the separator regex
 * `^\|[\s\-:]+\|$` matches, or at a pipe line directly followed by such a
 * line. A non-empty line that does not start with `|` closes the table
 * again. Rows whose cells are all empty are skipped.
 *
 * That regex admits no `|` between the outer ones, so the separator of any
 * table with two or more columns never matches it and such a table is never
 * read. The scan therefore takes the separator pattern as a parameter: `AsWritten`
 * is the regex of the source, `Intended` also admits the inner `|`
 * (`^\|[\s\-:|]+\|$`), and the lemmas below show what each reads.
 */
module MarkitdownTables {
  import opened Text
  import opened MarkdownTable
  import DocxToMarkdown

  /** The characters `[\s\-:]` accepts. */
  predicate RuleChar(c: char)
  {
    IsSpace(c) || c == '-' || c == ':'
  }

  /** `re.match(r'^\|[\s\-:]+\|$', line)` on a stripped line. */
  predicate IsRule(l: string)
  {
    |l| >= 3 && l[0] == '|' && l[|l| - 1] == '|' && forall i :: 1 <= i < |l| - 1 ==> RuleChar(l[i])
  }

  /** The separator pattern with `|` added to the inner class: `^\|[\s\-:|]+\|$`. */
  predicate IsIntendedRule(l: string)
  {
    |l| >= 3 && l[0] == '|' && l[|l| - 1] == '|' && forall i :: 1 <= i < |l| - 1 ==> RuleChar(l[i]) || l[i] == '|'
  }

  /** Which separator pattern the scan uses. */
  datatype RulePattern = AsWritten | Intended

  predicate Matches(p: RulePattern, l: string)
  {
    match p
    case AsWritten => IsRule(l)
    case Intended => IsIntendedRule(l)
  }

  /** The loop state: `in_table`, `rows_data` and `table_count`. */
  datatype MdScan = MdScan(inTable: bool, rows: seq<TableRow>, tables: nat)

  /** Whether the line after position `i` exists and, stripped, is a separator. */
  predicate RuleFollows(p: RulePattern, lines: seq<string>, i: nat)
  {
    i + 1 < |lines| && Matches(p, Strip(lines[i + 1]))
  }

  /** What the loop makes of one line: a separator, a header (a pipe line followed by a
      separator), a data row, a text line that closes the table, or nothing. */
  datatype LineClass = Separator | Header | Data(row: TableRow) | Closing | Ignored

  /** The class of the line at position `i`. */
  function Classify(p: RulePattern, lines: seq<string>, i: nat): LineClass
    requires i < |lines|
  {
    var l := Strip(lines[i]);
    if IsPipeLine(l) then
      if Matches(p, l) then Separator
      else if RuleFollows(p, lines, i) then Header
      else
        var cells := RowCells(l);
        if !AllEmpty(cells) && |cells| >= 4 then Data(RecordOf(cells)) else Ignored
    else if l != [] && l[0] != '|' then Closing
    else Ignored
  }

  /** The effect of a line of class `c` on the loop state: a data row is kept only inside a
      table, and closing outside a table changes nothing. */
  function Apply(s: MdScan, c: LineClass): MdScan
  {
    match c
    case Separator => MdScan(true, s.rows, s.tables + 1)
    case Header => MdScan(true, s.rows, s.tables)
    case Data(r) => if s.inTable then MdScan(true, s.rows + [r], s.tables) else s
    case Closing => MdScan(false, s.rows, s.tables)
    case Ignored => s
  }

  /** One iteration of the loop, for the line at position `i`. */
  function MdStep(p: RulePattern, s: MdScan, lines: seq<string>, i: nat): MdScan
    requires i < |lines|
  {
    var l := Strip(lines[i]);
    if IsPipeLine(l) then
      if Matches(p, l) then MdScan(true, s.rows, s.tables + 1)
      else if RuleFollows(p, lines, i) then MdScan(true, s.rows, s.tables)
      else if s.inTable then
        var cells := RowCells(l);
        if AllEmpty(cells) then s
        else if |cells| >= 4 then MdScan(s.inTable, s.rows + [RecordOf(cells)], s.tables)
        else s
      else s
    else if s.inTable && l != [] && l[0] != '|' then MdScan(false, s.rows, s.tables)
    else s
  }

  /** The step is the effect of the line's class. */
  lemma MdStepIsApply(p: RulePattern, s: MdScan, lines: seq<string>, i: nat)
    requires i < |lines|
    ensures MdStep(p, s, lines, i) == Apply(s, Classify(p, lines, i))
  {
  }

  /** The loop state after the first `n` lines. */
  function MdScanned(p: RulePattern, lines: seq<string>, n: nat): MdScan
    requires n <= |lines|
  {
    if n == 0 then MdScan(false, [], 0) else MdStep(p, MdScanned(p, lines, n - 1), lines, n - 1)
  }

  /** `parse_markdown_tables(markdown_content)`: the records, and the number of tables announced,
      with the separator pattern `p` (`AsWritten` is the source). */
  method ParseMarkdownTables(p: RulePattern, content: string) returns (rows: seq<TableRow>, tableCount: nat)
    ensures var s := MdScanned(p, SplitOn(content, '\n'), |SplitOn(content, '\n')|);
      rows == s.rows && tableCount == s.tables
  {
    var lines := SplitOn(content, '\n');
    rows := [];
    tableCount := 0;
    var inTable := false;
    var i := 0;
    while i < |lines|
      invariant i <= |lines|
      invariant MdScan(inTable, rows, tableCount) == MdScanned(p, lines, i)
    {
      inTable, rows, tableCount := ScanLine(p, lines, i, inTable, rows, tableCount);
      i := i + 1;
    }
  }

  /** The body of the loop of `parse_markdown_tables`, for the line at position `i`. */
  method ScanLine(p: RulePattern, lines: seq<string>, i: nat, inTable: bool, rows: seq<TableRow>, tableCount: nat)
    returns (inTable': bool, rows': seq<TableRow>, tableCount': nat)
    requires i < |lines|
    ensures MdScan(inTable', rows', tableCount') == MdStep(p, MdScan(inTable, rows, tableCount), lines, i)
  {
    inTable', rows', tableCount' := inTable, rows, tableCount;
    var line := Strip(lines[i]);
    if IsPipeLine(line) {
      if Matches(p, line) {
        inTable' := true;
        tableCount' := tableCount + 1;
      } else if i + 1 < |lines| && Matches(p, Strip(lines[i + 1])) {
        inTable' := true;
      } else if inTable {
        var cells := RowCells(line);
        if !AllEmpty(cells) && |cells| >= 4 {
          rows' := rows + [TableRow(cells[0], cells[1], cells[2], cells[3])];
        }
      }
    } else if inTable && line != [] && line[0] != '|' {
      inTable' := false;
    }
  }

  // ---------------------------------------------------------------------
  // properties

  /** A line the rule regex matches holds exactly two `|`: a multi-column separator such as
      `|---|---|` never matches. */
  lemma RuleHasTwoBars(l: string)
    requires IsRule(l)
    ensures CountChar(l, '|') == 2
  {
    var mid := l[1..|l| - 1];
    assert l == [l[0]] + mid + [l[|l| - 1]];
    CountCharAbsent(mid, '|');
    CountCharAppend([l[0]] + mid, [l[|l| - 1]], '|');
    CountCharAppend([l[0]], mid, '|');
  }

  /** Every stripped pipe line among the given ones has at least three `|`. */
  predicate OnlyWidePipeLines(lines: seq<string>)
  {
    forall i :: 0 <= i < |lines| ==> (IsPipeLine(Strip(lines[i])) ==> CountChar(Strip(lines[i]), '|') >= 3)
  }

  /** If every pipe line has three or more `|` (the usual multi-column table), no table ever
      opens and nothing is read. */
  lemma {:induction false} WideTablesReadNothing(lines: seq<string>, n: nat)
    requires n <= |lines|
    requires OnlyWidePipeLines(lines)
    ensures MdScanned(AsWritten, lines, n) == MdScan(false, [], 0)
  {
    if n > 0 {
      WideTablesReadNothing(lines, n - 1);
      var l := Strip(lines[n - 1]);
      if IsRule(l) {
        RuleHasTwoBars(l);
      }
      if RuleFollows(AsWritten, lines, n - 1) {
        RuleHasTwoBars(Strip(lines[n]));
      }
    }
  }

  /** The table closes exactly at a non-empty line that does not start with `|`; in
      particular a blank line never closes it. */
  lemma MdStepCloses(p: RulePattern, s: MdScan, lines: seq<string>, i: nat)
    requires i < |lines|
    requires s.inTable
    ensures !MdStep(p, s, lines, i).inTable <==> Strip(lines[i]) != [] && Strip(lines[i])[0] != '|'
  {
  }

  /** A record is read only inside a table, from a pipe line that is neither a rule nor
      followed by one, and whose cells are not all empty; its fields are the first four
      cells. Each line adds at most one record. */
  lemma MdStepReads(p: RulePattern, s: MdScan, lines: seq<string>, i: nat)
    requires i < |lines|
    ensures var l := Strip(lines[i]);
      var t := MdStep(p, s, lines, i);
      (t.rows != s.rows <==>
        s.inTable && IsPipeLine(l) && !Matches(p, l) && !RuleFollows(p, lines, i)
        && !AllEmpty(RowCells(l)) && |RowCells(l)| >= 4)
      && (t.rows == s.rows || t.rows == s.rows + [RecordOf(RowCells(l))])
  {
  }

  /** Only a rule line announces a table. */
  lemma MdStepTables(p: RulePattern, s: MdScan, lines: seq<string>, i: nat)
    requires i < |lines|
    ensures MdStep(p, s, lines, i).tables == s.tables + (if Matches(p, Strip(lines[i])) then 1 else 0)
  {
  }

  /** At most one record per line, and the table count is the number of rule lines seen. */
  lemma {:induction false} MdScannedCounts(p: RulePattern, lines: seq<string>, n: nat)
    requires n <= |lines|
    ensures |MdScanned(p, lines, n).rows| <= n
    ensures MdScanned(p, lines, n).tables == RuleCount(p, lines, n)
  {
    if n > 0 {
      MdScannedCounts(p, lines, n - 1);
      MdStepTables(p, MdScanned(p, lines, n - 1), lines, n - 1);
      MdStepReads(p, MdScanned(p, lines, n - 1), lines, n - 1);
    }
  }

  /** How many of the first `n` lines are rules once stripped. */
  function RuleCount(p: RulePattern, lines: seq<string>, n: nat): nat
    requires n <= |lines|
  {
    if n == 0 then 0 else RuleCount(p, lines, n - 1) + (if Matches(p, Strip(lines[n - 1])) then 1 else 0)
  }

  // ---------------------------------------------------------------------
  // the separator pattern

  /** The intended pattern accepts every line the written one does. */
  lemma RuleIsIntendedRule(l: string)
    requires IsRule(l)
    ensures IsIntendedRule(l)
  {
  }

  /** The separator line the extractors write for a four-column table matches the intended
      pattern but not the written one. */
  lemma StandardSeparatorMissed()
    ensures IsIntendedRule(DocxToMarkdown.SeparatorLine)
    ensures !IsRule(DocxToMarkdown.SeparatorLine)
    ensures Strip(DocxToMarkdown.SeparatorLine) == DocxToMarkdown.SeparatorLine
  {
    var l := DocxToMarkdown.SeparatorLine;
    assert l[13] == '|';
    StripOfTrimmed(l);
  }

  /** A data line of a table read with pattern `p`: a pipe line that is not a separator, with
      at least four cells that are not all empty. */
  predicate DataLine(p: RulePattern, line: string)
  {
    var l := Strip(line);
    IsPipeLine(l) && !Matches(p, l) && !AllEmpty(RowCells(l)) && |RowCells(l)| >= 4
  }

  /** The classes of the first `n` lines. */
  function ClassesOf(p: RulePattern, lines: seq<string>, n: nat): (cs: seq<LineClass>)
    requires n <= |lines|
    ensures |cs| == n
  {
    if n == 0 then [] else ClassesOf(p, lines, n - 1) + [Classify(p, lines, n - 1)]
  }

  lemma {:induction false} ClassesOfAt(p: RulePattern, lines: seq<string>, n: nat, j: nat)
    requires j < n <= |lines|
    ensures ClassesOf(p, lines, n)[j] == Classify(p, lines, j)
  {
    if j < n - 1 {
      ClassesOfAt(p, lines, n - 1, j);
    }
  }

  /** Applying a sequence of classes in order. */
  function Run(s: MdScan, cs: seq<LineClass>): MdScan
  {
    if cs == [] then s else Apply(Run(s, cs[..|cs| - 1]), cs[|cs| - 1])
  }

  /** The scan is the run of the lines' classes. */
  lemma {:induction false} MdScannedRun(p: RulePattern, lines: seq<string>, n: nat)
    requires n <= |lines|
    ensures MdScanned(p, lines, n) == Run(MdScan(false, [], 0), ClassesOf(p, lines, n))
  {
    if n > 0 {
      MdScannedRun(p, lines, n - 1);
      MdStepIsApply(p, MdScanned(p, lines, n - 1), lines, n - 1);
      assert ClassesOf(p, lines, n)[..n - 1] == ClassesOf(p, lines, n - 1);
    }
  }

  lemma {:induction false} RunAppend(s: MdScan, a: seq<LineClass>, b: seq<LineClass>)
    ensures Run(s, a + b) == Run(Run(s, a), b)
  {
    if b != [] {
      assert (a + b)[..|a + b| - 1] == a + b[..|b| - 1];
      RunAppend(s, a, b[..|b| - 1]);
    } else {
      assert a + b == a;
    }
  }

  /** Inside a table, data rows are appended in order and nothing else changes. */
  lemma {:induction false} RunData(s: MdScan, cs: seq<LineClass>)
    requires s.inTable
    requires forall j :: 0 <= j < |cs| ==> cs[j].Data?
    ensures Run(s, cs).inTable && Run(s, cs).tables == s.tables
    ensures |Run(s, cs).rows| == |s.rows| + |cs| && Run(s, cs).rows[..|s.rows|] == s.rows
    ensures forall j :: 0 <= j < |cs| ==> Run(s, cs).rows[|s.rows| + j] == cs[j].row
  {
    if cs != [] {
      RunData(s, cs[..|cs| - 1]);
    }
  }

  /** A data line followed by a data line or by nothing is classed as that row. */
  lemma DataLineClass(p: RulePattern, lines: seq<string>, i: nat)
    requires i < |lines|
    requires DataLine(p, lines[i])
    requires i + 1 < |lines| ==> DataLine(p, lines[i + 1])
    ensures Classify(p, lines, i) == Data(RecordOf(RowCells(Strip(lines[i]))))
  {
  }

  /** A separator line is classed as one. */
  lemma SeparatorClass(p: RulePattern, lines: seq<string>, i: nat)
    requires i < |lines| && Matches(p, Strip(lines[i]))
    ensures Classify(p, lines, i) == Separator
  {
    assert IsPipeLine(Strip(lines[i]));
  }

  /** A pipe line that is no separator but is followed by one is classed as a header. */
  lemma HeaderClass(p: RulePattern, lines: seq<string>, i: nat)
    requires i + 1 < |lines|
    requires IsPipeLine(Strip(lines[i])) && !Matches(p, Strip(lines[i]))
    requires Matches(p, Strip(lines[i + 1]))
    ensures Classify(p, lines, i) == Header
  {
    assert RuleFollows(p, lines, i);
  }

  /** The classes of a header line, a separator and data lines under the intended pattern. */
  lemma TableClasses(lines: seq<string>)
    requires |lines| >= 2
    requires IsPipeLine(Strip(lines[0])) && !IsIntendedRule(Strip(lines[0]))
    requires IsIntendedRule(Strip(lines[1]))
    requires forall j :: 2 <= j < |lines| ==> DataLine(Intended, lines[j])
    ensures var cs := ClassesOf(Intended, lines, |lines|);
      cs[0] == Header && cs[1] == Separator
      && forall j :: 2 <= j < |lines| ==>
           |RowCells(Strip(lines[j]))| >= 4 && cs[j] == Data(RecordOf(RowCells(Strip(lines[j]))))
  {
    ClassesOfAt(Intended, lines, |lines|, 0);
    HeaderClass(Intended, lines, 0);
    ClassesOfAt(Intended, lines, |lines|, 1);
    SeparatorClass(Intended, lines, 1);
    forall j | 2 <= j < |lines|
      ensures |RowCells(Strip(lines[j]))| >= 4
        && ClassesOf(Intended, lines, |lines|)[j] == Data(RecordOf(RowCells(Strip(lines[j]))))
    {
      ClassesOfAt(Intended, lines, |lines|, j);
      DataLineClass(Intended, lines, j);
    }
  }

  /** A header, a separator and data rows, from the start: the table is open, counted once, and
      holds the rows in order. */
  lemma TableRun(cs: seq<LineClass>)
    requires |cs| >= 2 && cs[0] == Header && cs[1] == Separator
    requires forall j :: 2 <= j < |cs| ==> cs[j].Data?
    ensures var t := Run(MdScan(false, [], 0), cs);
      t.inTable && t.tables == 1 && |t.rows| == |cs| - 2
      && forall j :: 2 <= j < |cs| ==> t.rows[j - 2] == cs[j].row
  {
    var init := MdScan(false, [], 0);
    assert cs == [Header, Separator] + cs[2..];
    RunAppend(init, [Header, Separator], cs[2..]);
    assert [Header, Separator][..1] == [Header];
    assert Run(init, [Header, Separator]) == MdScan(true, [], 1);
    var rest := cs[2..];
    RunData(MdScan(true, [], 1), rest);
    var t := Run(init, cs);
    forall j | 2 <= j < |cs|
      ensures t.rows[j - 2] == cs[j].row
    {
      assert rest[j - 2] == cs[j];
    }
  }

  /** With the intended pattern, lines made of a header line, a separator and data lines read
      one record per data line, in order, holding the line's first four cells, and count one
      table. */
  lemma IntendedReadsTable(lines: seq<string>)
    requires |lines| >= 2
    requires IsPipeLine(Strip(lines[0])) && !IsIntendedRule(Strip(lines[0]))
    requires IsIntendedRule(Strip(lines[1]))
    requires forall j :: 2 <= j < |lines| ==> DataLine(Intended, lines[j])
    ensures var t := MdScanned(Intended, lines, |lines|);
      t.inTable && t.tables == 1 && |t.rows| == |lines| - 2
      && forall j :: 2 <= j < |lines| ==>
           |RowCells(Strip(lines[j]))| >= 4 && t.rows[j - 2] == RecordOf(RowCells(Strip(lines[j])))
  {
    TableClasses(lines);
    TableRun(ClassesOf(Intended, lines, |lines|));
    MdScannedRun(Intended, lines, |lines|);
  }

  /** With the written pattern the same lines read nothing whenever the header and the
      separator have an inner `|`, as those of every table of two or more columns do. */
  lemma AsWrittenMissesTable(lines: seq<string>)
    requires |lines| >= 2
    requires IsPipeLine(Strip(lines[0])) && CountChar(Strip(lines[0]), '|') >= 3
    requires IsPipeLine(Strip(lines[1])) && CountChar(Strip(lines[1]), '|') >= 3
    requires forall j :: 2 <= j < |lines| ==> DataLine(Intended, lines[j])
    ensures MdScanned(AsWritten, lines, |lines|) == MdScan(false, [], 0)
  {
    forall i | 0 <= i < |lines| && IsPipeLine(Strip(lines[i]))
      ensures CountChar(Strip(lines[i]), '|') >= 3
    {
      if i == 0 {
        assert Strip(lines[i]) == Strip(lines[0]);
      } else if i == 1 {
        assert Strip(lines[i]) == Strip(lines[1]);
      } else {
        DataLineWide(lines[i]);
      }
    }
    WideTablesReadNothing(lines, |lines|);
  }

  /** A data line holds at least five bars. */
  lemma DataLineWide(line: string)
    requires DataLine(Intended, line)
    ensures CountChar(Strip(line), '|') >= 3
  {
    PipeLineBars(Strip(line));
  }

  /** A line split into cells holds at least one bar more than it has cells. */
  lemma PipeLineBars(l: string)
    ensures RowCells(l) != [] ==> CountChar(l, '|') >= |RowCells(l)| + 1
  {
    SplitOnCount(l, '|');
    assert |RowCells(l)| == |Inner(SplitOn(l, '|'))|;
  }
}
