/**
 * The Markdown pipe-table reader that `load_markdown_table`
 * (generate_translation_mapping.py) and `parse_markdown_table`
 * (extract_table_to_markdown.py) both implement, line for line.
 *
 * Each line is stripped. Only lines that start and end with `|` matter. A
 * separator line (nothing but `|`, `-` and whitespace) or a header line
 * (one that mentions the segment-id column) opens the table; from then on
 * every other pipe line with at least four cells becomes a record.
 */
module MarkdownTable {
  import opened Text

  /** One record of the four-column translation table. */
  datatype TableRow = TableRow(segmentId: string, status: string, source: string, target: string)

  /** `line.startswith('|') and line.endswith('|')`. */
  predicate IsPipeLine(l: string)
  {
    l != [] && l[0] == '|' && l[|l| - 1] == '|'
  }

  /** `set(line.replace('|', '').replace('-', '').strip()) == set()`. */
  predicate IsSeparatorText(l: string)
  {
    Strip(ReplaceChar(ReplaceChar(l, '|', []), '-', [])) == []
  }

  /** The characters a separator line may be made of. */
  predicate SeparatorChar(c: char)
  {
    c == '|' || c == '-' || IsSpace(c)
  }

  function LowerChar(c: char): char
  {
    if 'A' <= c <= 'Z' then (c as int + 32) as char else c
  }

  /** `s.lower()` on the ASCII letters (see README for why this is exact here). */
  function LowerAscii(s: string): string
  {
    seq(|s|, i requires 0 <= i < |s| => LowerChar(s[i]))
  }

  /** `'Segment ID' in line or 'segment_id' in line.lower()`. */
  predicate IsHeaderText(l: string)
  {
    Contains(l, "Segment ID") || Contains(LowerAscii(l), "segment_id")
  }

  /** `parts[1:-1]`. */
  function Inner(parts: seq<string>): seq<string>
  {
    if |parts| <= 2 then [] else parts[1..|parts| - 1]
  }

  function StripAll(ps: seq<string>): seq<string>
  {
    seq(|ps|, i requires 0 <= i < |ps| => Strip(ps[i]))
  }

  lemma StripAllClean(ps: seq<string>)
    requires forall i :: 0 <= i < |ps| ==> '|' !in ps[i]
    ensures forall i :: 0 <= i < |StripAll(ps)| ==> '|' !in StripAll(ps)[i] && Strip(StripAll(ps)[i]) == StripAll(ps)[i]
  {
    forall i | 0 <= i < |ps|
      ensures '|' !in Strip(ps[i]) && Strip(Strip(ps[i])) == Strip(ps[i])
    {
      StripKeepsOut(ps[i], '|');
      StripIdempotent(ps[i]);
    }
  }

  /** `[cell.strip() for cell in line.split('|')[1:-1]]`. */
  function RowCells(l: string): seq<string>
  {
    StripAll(Inner(SplitOn(l, '|')))
  }

  /** Every cell is stripped and holds no `|`. */
  lemma RowCellsClean(l: string)
    ensures forall i :: 0 <= i < |RowCells(l)| ==> '|' !in RowCells(l)[i] && Strip(RowCells(l)[i]) == RowCells(l)[i]
  {
    var inner := Inner(SplitOn(l, '|'));
    assert forall i :: 0 <= i < |inner| ==> '|' !in inner[i];
    StripAllClean(inner);
  }

  /** `all(not text for text in cells)`. */
  predicate AllEmpty(cells: seq<string>)
  {
    forall i :: 0 <= i < |cells| ==> cells[i] == []
  }

  /** The record built from the first four cells. */
  function RecordOf(cells: seq<string>): TableRow
    requires |cells| >= 4
  {
    TableRow(cells[0], cells[1], cells[2], cells[3])
  }

  /** The loop state: the `in_table` flag and the records so far. */
  datatype Scan = Scan(inTable: bool, rows: seq<TableRow>)

  /** One iteration of the loop over `lines`. */
  function LoadStep(s: Scan, line: string): Scan
  {
    var l := Strip(line);
    if !IsPipeLine(l) then s
    else if IsSeparatorText(l) || IsHeaderText(l) then Scan(true, s.rows)
    else if s.inTable && |RowCells(l)| >= 4 then Scan(true, s.rows + [RecordOf(RowCells(l))])
    else s
  }

  /** The loop state after the given lines, starting from `s`. */
  function LoadFrom(s: Scan, lines: seq<string>): Scan
  {
    if lines == [] then s
    else LoadStep(LoadFrom(s, lines[..|lines| - 1]), lines[|lines| - 1])
  }

  /** The loop state after the given lines. */
  function Loaded(lines: seq<string>): Scan
  {
    LoadFrom(Scan(false, []), lines)
  }

  /** A stripped line that opens the table. */
  predicate IsMarker(l: string)
  {
    IsPipeLine(l) && (IsSeparatorText(l) || IsHeaderText(l))
  }

  /** The record a line stands for inside a table, if any. */
  function DataOf(line: string): seq<TableRow>
  {
    var l := Strip(line);
    if IsPipeLine(l) && !IsMarker(l) && |RowCells(l)| >= 4 then [RecordOf(RowCells(l))] else []
  }

  /** The records of all data lines, whatever comes before them. */
  function AllData(lines: seq<string>): seq<TableRow>
  {
    if lines == [] then [] else AllData(lines[..|lines| - 1]) + DataOf(lines[|lines| - 1])
  }

  /** `load_markdown_table` / `parse_markdown_table` over the lines of the file. */
  method LoadMarkdownTable(lines: seq<string>) returns (rows: seq<TableRow>)
    ensures rows == Loaded(lines).rows
  {
    rows := [];
    var inTable := false;
    var k := 0;
    while k < |lines|
      invariant k <= |lines|
      invariant Scan(inTable, rows) == Loaded(lines[..k])
    {
      assert lines[..k + 1][..k] == lines[..k];
      var line := Strip(lines[k]);
      if IsPipeLine(line) {
        if IsSeparatorText(line) {
          inTable := true;
        } else if IsHeaderText(line) {
          inTable := true;
        } else if inTable {
          var cells := RowCells(line);
          if |cells| >= 4 {
            rows := rows + [TableRow(cells[0], cells[1], cells[2], cells[3])];
          }
        }
      }
      k := k + 1;
    }
    assert lines[..k] == lines;
  }

  // ---------------------------------------------------------------------
  // properties

  /** Removing a character keeps exactly the other characters. */
  lemma {:induction false} RemoveCharIn(s: string, c: char, x: char)
    ensures x in ReplaceChar(s, c, []) <==> x in s && x != c
  {
    if s != [] {
      RemoveCharIn(s[1..], c, x);
      assert x in s <==> x == s[0] || x in s[1..];
    }
  }

  /** A separator line is one made only of `|`, `-` and whitespace. */
  lemma SeparatorIff(l: string)
    ensures IsSeparatorText(l) <==> forall i :: 0 <= i < |l| ==> SeparatorChar(l[i])
  {
    var r := ReplaceChar(ReplaceChar(l, '|', []), '-', []);
    StripEmptyIff(r);
    forall x
      ensures x in r <==> x in l && x != '|' && x != '-'
    {
      RemoveCharIn(ReplaceChar(l, '|', []), '-', x);
      RemoveCharIn(l, '|', x);
    }
    if IsSeparatorText(l) {
      forall i | 0 <= i < |l|
        ensures SeparatorChar(l[i])
      {
        if l[i] != '|' && l[i] != '-' {
          assert l[i] in r;
          var j :| 0 <= j < |r| && r[j] == l[i];
        }
      }
    } else {
      var j :| 0 <= j < |r| && !IsSpace(r[j]);
      assert r[j] in l;
    }
  }

  /** One line opens the table exactly when it is a marker, and a closed table reads nothing. */
  lemma LoadStepFlag(s: Scan, line: string)
    ensures LoadStep(s, line).inTable <==> s.inTable || IsMarker(Strip(line))
    ensures !s.inTable ==> LoadStep(s, line).rows == s.rows
    ensures s.inTable ==> LoadStep(s, line) == Scan(true, s.rows + DataOf(line))
  {
  }

  /** The table is open exactly when some line so far opened it; before that nothing is read. */
  lemma {:induction false} LoadedOpenIff(lines: seq<string>)
    ensures Loaded(lines).inTable <==> exists i :: 0 <= i < |lines| && IsMarker(Strip(lines[i]))
    ensures !Loaded(lines).inTable ==> Loaded(lines).rows == []
  {
    if lines != [] {
      var init := lines[..|lines| - 1];
      LoadedOpenIff(init);
      LoadStepFlag(Loaded(init), lines[|lines| - 1]);
      assert forall i :: 0 <= i < |init| ==> init[i] == lines[i];
    }
  }

  /** Reading `a + b` is reading `b` from where `a` left off. */
  lemma {:induction false} LoadFromAppend(s: Scan, a: seq<string>, b: seq<string>)
    ensures LoadFrom(s, a + b) == LoadFrom(LoadFrom(s, a), b)
  {
    if b == [] {
      assert a + b == a;
    } else {
      LoadFromAppend(s, a, b[..|b| - 1]);
      assert (a + b)[..|a + b| - 1] == a + b[..|b| - 1];
    }
  }

  /** Inside an open table every data line is read, and the table stays open. */
  lemma {:induction false} LoadFromOpen(s: Scan, b: seq<string>)
    requires s.inTable
    ensures LoadFrom(s, b) == Scan(true, s.rows + AllData(b))
  {
    if b != [] {
      var init, last := b[..|b| - 1], b[|b| - 1];
      var t := LoadFrom(s, init);
      LoadFromOpen(s, init);
      LoadStepFlag(t, last);
      assert LoadFrom(s, b) == LoadStep(t, last);
      assert AllData(b) == AllData(init) + DataOf(last);
      assert s.rows + AllData(init) + DataOf(last) == s.rows + AllData(b);
    }
  }

  /** Once open, the table never closes, and every later data line is read. */
  lemma LoadedAppend(a: seq<string>, b: seq<string>)
    requires Loaded(a).inTable
    ensures Loaded(a + b) == Scan(true, Loaded(a).rows + AllData(b))
  {
    LoadFromAppend(Scan(false, []), a, b);
    LoadFromOpen(Loaded(a), b);
  }

  /** At most one record per line, and every field is stripped and free of `|`. */
  lemma {:induction false} LoadedRowsShape(lines: seq<string>)
    ensures |Loaded(lines).rows| <= |lines|
    ensures forall j :: 0 <= j < |Loaded(lines).rows| ==>
      var t := Loaded(lines).rows[j];
      (Strip(t.segmentId) == t.segmentId && Strip(t.status) == t.status && Strip(t.source) == t.source
        && Strip(t.target) == t.target && '|' !in t.segmentId + t.status + t.source + t.target)
  {
    if lines != [] {
      LoadedRowsShape(lines[..|lines| - 1]);
      RowCellsClean(Strip(lines[|lines| - 1]));
    }
  }
}
