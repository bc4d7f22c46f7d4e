/**
 * The "smart filter" update script: it reads the target cell's text,
 * cuts out the placeholders and normalises the whitespace, compares the
 * result with the expected old translation, and on a match replaces the
 * cell's runs by a tracked deletion of the old text followed by a tracked
 * insertion of the new one.
 */
module SmartUpdate {
  import opened Wrappers
  import opened Text
  import opened Docx
  import opened Placeholders
  import opened RowIndex
  import opened Translations

  /** The revision id of the batch's first edit. */
  const FirstRevisionId: int := 1000

  // ---------------------------------------------------------------------
  // smart_filter_placeholders

  /** Steps 1 and 2 of the filter: quoted placeholders, then bare ones, are cut out. */
  function StripPlaceholders(text: string): string
  {
    RemoveAll(Bare, RemoveAll(Quoted, text))
  }

  /** `smart_filter_placeholders`: placeholders cut out, lines stripped, blank lines
      dropped, whitespace runs collapsed to one space, and the result stripped. */
  function SmartFilter(text: string): string
  {
    var lines := NonBlankStripped(SplitOn(StripPlaceholders(text), '\n'));
    Strip(CollapseSpace(Join("\n", lines)))
  }

  /** The filter is whitespace normalisation of the text with its placeholders cut out. */
  lemma SmartFilterNormalizes(text: string)
    ensures SmartFilter(text) == NormalizeSpace(StripPlaceholders(text))
  {
    var s := StripPlaceholders(text);
    var joined := Join("\n", NonBlankStripped(SplitOn(s, '\n')));
    StripCollapse(joined);
    LinesKeepWords(s, '\n');
  }

  /** The filter's output has no edge whitespace and no line break, and its only
      whitespace is single spaces between non-space characters. */
  lemma SmartFilterShape(text: string)
    ensures var r := SmartFilter(text);
      Strip(r) == r && '\n' !in r &&
      forall i :: 0 <= i < |r| && IsSpace(r[i]) ==>
        r[i] == ' ' && 0 < i < |r| - 1 && !IsSpace(r[i - 1]) && !IsSpace(r[i + 1])
  {
    SmartFilterNormalizes(text);
    NormalizeSpaceShape(StripPlaceholders(text));
    var r := SmartFilter(text);
    assert forall i :: 0 <= i < |r| ==> r[i] != '\n' by {
      assert IsSpace('\n');
    }
  }

  /** On text without `<` the filter is `' '.join(text.split())`. */
  lemma SmartFilterPlain(text: string)
    requires '<' !in text
    ensures SmartFilter(text) == NormalizeSpace(text)
  {
    RemoveAllWithoutOpen(Quoted, text);
    RemoveAllWithoutOpen(Bare, text);
    SmartFilterNormalizes(text);
  }

  /** The documented example: the quoted placeholder goes with its quotes, the bare one
      alone, and the two spaces around it become one. */
  lemma SmartFilterExample()
    ensures SmartFilter("\"<0/>\"在第 <1/> 頁") == "在第 頁"
  {
    ExampleQuotedPass("\"<0/>\"在第 <1/> 頁", "在第 <1/> 頁");
    ExampleBarePass();
    ExampleWords();
    SmartFilterNormalizes("\"<0/>\"在第 <1/> 頁");
  }

  /** A quoted placeholder in front of text without quotes is cut out with its quotes. */
  lemma QuotedPassBefore(ds: string, x: string)
    requires ds != [] && AllDigits(ds) && '"' !in x
    ensures RemoveAll(Quoted, "\"<" + ds + "/>\"" + x) == x
  {
    RemoveQuotedAt(ds, x);
    RemoveQuotedWithoutQuote(x);
  }

  lemma ExampleQuotedPass(s: string, rest: string)
    requires rest == "在第 <1/> 頁" && s == "\"<0/>\"" + rest
    ensures RemoveAll(Quoted, s) == rest
  {
    assert '"' !in rest;
    assert "\"<0/>\"" == "\"<" + "0" + "/>\"";
    QuotedPassBefore("0", rest);
  }

  /** A bare placeholder between text free of `<` is cut out, leaving the text around it. */
  lemma BarePassBetween(a: string, ds: string, x: string)
    requires '<' !in a && '<' !in x && ds != [] && AllDigits(ds)
    ensures RemoveAll(Bare, a + ("<" + ds + "/>" + x)) == a + x
  {
    RemoveAllKeeps(Bare, a, "<" + ds + "/>" + x);
    RemoveBareAt(ds, x);
    RemoveAllWithoutOpen(Bare, x);
  }

  lemma ExampleBarePass()
    ensures RemoveAll(Bare, "在第 <1/> 頁") == "在第  頁"
  {
    assert "在第 <1/> 頁" == "在第 " + ("<" + "1" + "/>" + " 頁");
    BarePassBetween("在第 ", "1", " 頁");
    assert "在第 " + " 頁" == "在第  頁";
  }

  lemma WordsOfTwo(a: string, b: string)
    requires a != [] && NoSpace(a) && b != [] && NoSpace(b)
    ensures Words(a + [' '] + ([' '] + b)) == [a, b]
  {
    var t := [' '] + b;
    WordsConcatSpace(a, ' ', t);
    assert t[0] == ' ' && t[1..] == b;
    assert Words(t) == Words(b);
    WordsOfWord(a);
    WordsOfWord(b);
  }

  /** Two words around two spaces normalise to the two words around one space. */
  lemma NormalizeTwoWords(a: string, b: string)
    requires a != [] && NoSpace(a) && b != [] && NoSpace(b)
    ensures NormalizeSpace(a + "  " + b) == a + " " + b
  {
    assert a + "  " + b == a + [' '] + ([' '] + b);
    WordsOfTwo(a, b);
    JoinCons(" ", a, [b]);
  }

  lemma ExampleWords()
    ensures NormalizeSpace("在第  頁") == "在第 頁"
  {
    assert "在第  頁" == "在第" + "  " + "頁";
    NormalizeTwoWords("在第", "頁");
    assert "在第" + " " + "頁" == "在第 頁";
  }

  /** Cutting the bare placeholders first would leave the quotes behind. */
  lemma QuotedPassMustComeFirst()
    ensures RemoveAll(Quoted, RemoveAll(Bare, "\"<0/>\"")) == "\"\""
    ensures StripPlaceholders("\"<0/>\"") == ""
  {
    var s := "\"<0/>\"";
    assert DigitLen("0/>\"") == 1;
    assert MatchLen(Bare, s) == 0;
    assert MatchLen(Bare, s[1..]) == 4;
    assert s[1..][4..] == "\"";
    assert RemoveAll(Bare, s) == "\"\"";
    assert MatchLen(Quoted, "\"\"") == 0;
    assert MatchLen(Quoted, s) == 6;
    assert s[6..] == [];
  }

  // ---------------------------------------------------------------------
  // get_cell_text_smart

  /** `get_cell_text_smart`: the stripped, non-blank paragraph texts joined with line
      breaks, then filtered. */
  function CellTextSmart(ps: seq<Paragraph>): string
  {
    SmartFilter(Join("\n", NonBlankStripped(ParagraphTexts(ps))))
  }

  /** On a cell without `<` the smart reading is the whitespace-normalised `cell.text`. */
  lemma CellTextSmartPlain(ps: seq<Paragraph>)
    requires forall i :: 0 <= i < |ps| ==> '<' !in ParagraphText(ps[i])
    ensures CellTextSmart(ps) == NormalizeSpace(CellText(ps))
  {
    var ts := ParagraphTexts(ps);
    var lines := NonBlankStripped(ts);
    NonBlankStrippedKeepsOut(ts, '<');
    JoinKeepsOut("\n", lines, '<');
    SmartFilterPlain(Join("\n", lines));
    JoinedLinesKeepWords(ts);
  }

  method ReadCellSmart(cell: Cell) returns (text: string)
    ensures text == CellTextSmart(cell.paragraphs)
  {
    var ps := cell.paragraphs;
    ghost var texts := ParagraphTexts(ps);
    var parts: seq<string> := [];
    var i := 0;
    while i < |ps|
      invariant 0 <= i <= |ps|
      invariant parts == NonBlankStripped(texts[..i])
    {
      var t := Strip(ParagraphText(ps[i]));
      NonBlankStrippedSnoc(texts, i);
      if t != [] {
        parts := parts + [t];
      }
      i := i + 1;
    }
    assert texts[..i] == texts;
    text := SmartFilter(Join("\n", parts));
  }

  // ---------------------------------------------------------------------
  // get_cell_text_by_style_smart

  /** Whether the reader takes run `r` for the style choice `target`. */
  predicate Includes(target: Option<string>, r: Run)
  {
    target.None? || (target == Some("Tag") && IsTagRun(r)) || (target == Some("NotTag") && !IsTagRun(r))
  }

  /** The texts of the runs taken, concatenated. */
  function SelectedRunsText(rs: seq<Run>, target: Option<string>): string
  {
    if rs == [] then []
    else (if Includes(target, rs[0]) && RunText(rs[0]) != [] then RunText(rs[0]) else []) + SelectedRunsText(rs[1..], target)
  }

  /** The texts of the runs taken from every paragraph, concatenated in document order. */
  function SelectedText(ps: seq<Paragraph>, target: Option<string>): string
  {
    if ps == [] then [] else SelectedRunsText(Runs(ps[0].children), target) + SelectedText(ps[1..], target)
  }

  /** `get_cell_text_by_style_smart`. */
  function CellTextByStyle(ps: seq<Paragraph>, target: Option<string>): string
  {
    SmartFilter(SelectedText(ps, target))
  }

  lemma {:induction false} SelectedRunsTextAll(rs: seq<Run>)
    ensures SelectedRunsText(rs, None) == RunsText(rs)
  {
    if rs != [] {
      SelectedRunsTextAll(rs[1..]);
    }
  }

  /** With no style choice every run is taken: the text is the paragraphs' texts, concatenated. */
  lemma {:induction false} SelectedTextAll(ps: seq<Paragraph>)
    ensures SelectedText(ps, None) == Concat(ParagraphTexts(ps))
  {
    if ps != [] {
      SelectedRunsTextAll(Runs(ps[0].children));
      SelectedTextAll(ps[1..]);
      assert ParagraphTexts(ps)[1..] == ParagraphTexts(ps[1..]);
    }
  }

  lemma {:induction false} SelectedRunsTextSplit(rs: seq<Run>)
    ensures |SelectedRunsText(rs, Some("Tag"))| + |SelectedRunsText(rs, Some("NotTag"))| == |SelectedRunsText(rs, None)|
  {
    if rs != [] {
      SelectedRunsTextSplit(rs[1..]);
    }
  }

  /** `"Tag"` and `"NotTag"` split the runs between them: every character of the full text
      is read under exactly one of the two choices. */
  lemma {:induction false} SelectedTextSplit(ps: seq<Paragraph>)
    ensures |SelectedText(ps, Some("Tag"))| + |SelectedText(ps, Some("NotTag"))| == |SelectedText(ps, None)|
  {
    if ps != [] {
      SelectedRunsTextSplit(Runs(ps[0].children));
      SelectedTextSplit(ps[1..]);
    }
  }

  lemma {:induction false} SelectedRunsTextOther(rs: seq<Run>, style: string)
    requires style != "Tag" && style != "NotTag"
    ensures SelectedRunsText(rs, Some(style)) == []
  {
    if rs != [] {
      SelectedRunsTextOther(rs[1..], style);
    }
  }

  /** Any other style choice takes no run, so the reading is empty. */
  lemma {:induction false} CellTextByOtherStyle(ps: seq<Paragraph>, style: string)
    requires style != "Tag" && style != "NotTag"
    ensures CellTextByStyle(ps, Some(style)) == []
  {
    SelectedTextOther(ps, style);
    assert SplitOn([], '\n') == [[]];
  }

  lemma {:induction false} SelectedTextOther(ps: seq<Paragraph>, style: string)
    requires style != "Tag" && style != "NotTag"
    ensures SelectedText(ps, Some(style)) == []
  {
    if ps != [] {
      SelectedRunsTextOther(Runs(ps[0].children), style);
      SelectedTextOther(ps[1..], style);
    }
  }

  lemma {:induction false} SelectedRunsTextAppend(a: seq<Run>, b: seq<Run>, target: Option<string>)
    ensures SelectedRunsText(a + b, target) == SelectedRunsText(a, target) + SelectedRunsText(b, target)
  {
    if a != [] {
      TailOfAppend(a, b);
      SelectedRunsTextAppend(a[1..], b, target);
      var first := if Includes(target, a[0]) && RunText(a[0]) != [] then RunText(a[0]) else [];
      AppendAssoc(first, SelectedRunsText(a[1..], target), SelectedRunsText(b, target));
    } else {
      assert a + b == b;
    }
  }

  lemma {:induction false} SelectedTextAppend(a: seq<Paragraph>, b: seq<Paragraph>, target: Option<string>)
    ensures SelectedText(a + b, target) == SelectedText(a, target) + SelectedText(b, target)
  {
    if a != [] {
      TailOfAppend(a, b);
      SelectedTextAppend(a[1..], b, target);
      AppendAssoc(SelectedRunsText(Runs(a[0].children), target), SelectedText(a[1..], target), SelectedText(b, target));
    } else {
      assert a + b == b;
    }
  }

  /** The text run `r` contributes under `target`. */
  function Contribution(target: Option<string>, r: Run): string
  {
    if Includes(target, r) && RunText(r) != [] then RunText(r) else []
  }

  lemma SelectedRunsTextSnoc(rs: seq<Run>, k: nat, target: Option<string>)
    requires k < |rs|
    ensures SelectedRunsText(rs[..k + 1], target) == SelectedRunsText(rs[..k], target) + Contribution(target, rs[k])
  {
    assert rs[..k + 1] == rs[..k] + [rs[k]];
    SelectedRunsTextAppend(rs[..k], [rs[k]], target);
    assert SelectedRunsText([rs[k]], target) == Contribution(target, rs[k]) + SelectedRunsText([], target);
  }

  lemma SelectedTextSnoc(ps: seq<Paragraph>, i: nat, target: Option<string>)
    requires i < |ps|
    ensures SelectedText(ps[..i + 1], target) == SelectedText(ps[..i], target) + SelectedRunsText(Runs(ps[i].children), target)
  {
    assert ps[..i + 1] == ps[..i] + [ps[i]];
    SelectedTextAppend(ps[..i], [ps[i]], target);
    assert SelectedText([ps[i]], target) == SelectedRunsText(Runs(ps[i].children), target) + SelectedText([], target);
  }

  method ReadCellByStyle(cell: Cell, target: Option<string>) returns (text: string)
    ensures text == CellTextByStyle(cell.paragraphs, target)
  {
    var ps := cell.paragraphs;
    var acc: string := [];
    var i := 0;
    while i < |ps|
      invariant 0 <= i <= |ps|
      invariant acc == SelectedText(ps[..i], target)
    {
      var rs := Runs(ps[i].children);
      ghost var before := acc;
      var k := 0;
      while k < |rs|
        invariant 0 <= k <= |rs|
        invariant acc == before + SelectedRunsText(rs[..k], target)
      {
        var r := rs[k];
        SelectedRunsTextSnoc(rs, k, target);
        if Includes(target, r) && RunText(r) != [] {
          acc := acc + RunText(r);
        }
        AppendAssoc(before, SelectedRunsText(rs[..k], target), Contribution(target, r));
        k := k + 1;
      }
      assert rs[..k] == rs;
      SelectedTextSnoc(ps, i, target);
      i := i + 1;
    }
    assert ps[..i] == ps;
    text := SmartFilter(acc);
  }

  // ---------------------------------------------------------------------
  // replace_cell_with_track_changes_smart

  /** The reading strategy: `tag_only`, `non_tag_only`, and anything else reads the whole cell. */
  function ReadStrategy(strategy: string, ps: seq<Paragraph>): string
  {
    if strategy == "tag_only" then CellTextByStyle(ps, Some("Tag"))
    else if strategy == "non_tag_only" then CellTextByStyle(ps, Some("NotTag"))
    else CellTextSmart(ps)
  }

  /** The run of the insertion: one `w:t` holding the new text as given. */
  function InsertedRun(newText: string): Run
  {
    Run(None, [T(newText)])
  }

  /** The cell after a successful replacement: every paragraph without its direct runs,
      at least one paragraph, and paragraph 0 ending with the deletion of the old text
      (id `rid`) and the insertion of the new one (id `rid + 1`). */
  function SmartRewrite(ps: seq<Paragraph>, oldText: string, newText: string, author: string, date: string, rid: int): seq<Paragraph>
  {
    AppendTo(EnsureParagraph(ParagraphsWithoutRuns(ps)), 0,
      RevisionBlocks(Some(NewRun(oldText)), Some(InsertedRun(newText)), author, date, rid))
  }

  /** After the rewrite no paragraph has a direct run, every other child is where it
      was, and paragraph 0 ends with the deletion and then the insertion. */
  lemma SmartRewriteShape(ps: seq<Paragraph>, oldText: string, newText: string, author: string, date: string, rid: int)
    ensures var r := SmartRewrite(ps, oldText, newText, author, date, rid);
      var blocks := [Del(Revision(rid, author, date, [NewRun(oldText)])),
                     Ins(Revision(rid + 1, author, date, [InsertedRun(newText)]))];
      |r| == (if ps == [] then 1 else |ps|) &&
      (forall j :: 0 <= j < |r| ==> Runs(r[j].children) == []) &&
      (forall j :: 1 <= j < |ps| ==> r[j] == NoRuns(ps[j])) &&
      (ps != [] ==> r[0].children == Without(ps[0].children, IsRunNode) + blocks) &&
      (ps == [] ==> r[0].children == blocks)
  {
    var r := SmartRewrite(ps, oldText, newText, author, date, rid);
    var blocks := [Del(Revision(rid, author, date, [NewRun(oldText)])),
                   Ins(Revision(rid + 1, author, date, [InsertedRun(newText)]))];
    assert RevisionBlocks(Some(NewRun(oldText)), Some(InsertedRun(newText)), author, date, rid) == blocks;
    assert Runs(blocks) == [] by {
      assert blocks[1..] == [blocks[1]];
    }
    forall j | 0 <= j < |r|
      ensures Runs(r[j].children) == []
    {
      if ps == [] {
        assert r[0].children == [] + blocks;
      } else {
        NoRunsLeft(ps[j].children);
        if j == 0 {
          RunsAppend(Without(ps[0].children, IsRunNode), blocks);
        }
      }
    }
  }

  /** The deletion reads back as the old text, each carriage return read as a line feed
      since `add_run` writes both as `w:br`, and the insertion as the new text. */
  lemma SmartRewriteBlocksText(ps: seq<Paragraph>, oldText: string, newText: string, author: string, date: string, rid: int)
    ensures var kids := SmartRewrite(ps, oldText, newText, author, date, rid)[0].children;
      |kids| >= 2 &&
      kids[|kids| - 2].Del? && |kids[|kids| - 2].rev.runs| == 1 && RunText(kids[|kids| - 2].rev.runs[0]) == CrToLf(oldText) &&
      kids[|kids| - 1].Ins? && |kids[|kids| - 1].rev.runs| == 1 && RunText(kids[|kids| - 1].rev.runs[0]) == newText
  {
    NewRunText(oldText);
    assert ItemsText([T(newText)]) == newText;
  }

  /** A rewritten cell reads as empty text: python-docx does not see inside `w:del` and
      `w:ins`, so the same edit applied again fails unless its old text is empty. */
  lemma SmartRewriteReadsEmpty(ps: seq<Paragraph>, oldText: string, newText: string, author: string, date: string, rid: int)
    ensures CellTextSmart(SmartRewrite(ps, oldText, newText, author, date, rid)) == []
  {
    var r := SmartRewrite(ps, oldText, newText, author, date, rid);
    SmartRewriteShape(ps, oldText, newText, author, date, rid);
    var ts := ParagraphTexts(r);
    assert forall j :: 0 <= j < |ts| ==> ts[j] == [];
    NonBlankStrippedBlank(ts);
    assert SplitOn([], '\n') == [[]];
  }

  /** `replace_cell_with_track_changes_smart`: reads the cell by the strategy, and only when
      the reading equals `oldText` rewrites the cell. */
  method ReplaceCellSmart(cell: Cell, oldText: string, newText: string, author: string, date: string,
                          rid: int, strategy: string) returns (ok: bool)
    modifies cell
    ensures ok <==> ReadStrategy(strategy, old(cell.paragraphs)) == oldText
    ensures ok ==> cell.paragraphs == SmartRewrite(old(cell.paragraphs), oldText, newText, author, date, rid)
    ensures !ok ==> cell.paragraphs == old(cell.paragraphs)
  {
    var current: string;
    if strategy == "all" {
      current := ReadCellSmart(cell);
    } else if strategy == "tag_only" {
      current := ReadCellByStyle(cell, Some("Tag"));
    } else if strategy == "non_tag_only" {
      current := ReadCellByStyle(cell, Some("NotTag"));
    } else {
      current := ReadCellSmart(cell);
    }
    if current != oldText {
      return false;
    }
    cell.RemoveDirectRuns();
    cell.EnsureOneParagraph();
    var next := cell.AppendRevisions(0, Some(NewRun(oldText)), Some(InsertedRun(newText)), author, date, rid);
    ok := true;
  }

  // ---------------------------------------------------------------------
  // update_translations

  /** The row an entry names: its `segment_id` must be present, non-empty and indexed. */
  function TargetRow(rowMap: map<string, nat>, entry: Record): Option<nat>
  {
    match Get(entry, "segment_id")
    case None => None
    case Some(id) => if id == [] || id !in rowMap then None else Some(rowMap[id])
  }

  /** Against the index of a table, an entry names the last data row whose first cell reads
      as its id, and names no row exactly when its id is missing, empty or carried by no
      data row with four cells. */
  lemma TargetRowSpec(table: seq<Row>, entry: Record)
    ensures var r := TargetRow(RowMap(table), entry);
      (r.Some? ==>
        1 <= r.value < |table| && |table[r.value].cells| >= 4 &&
        Strip(CellText(table[r.value].cells[0].paragraphs)) == entry["segment_id"] &&
        forall j :: r.value < j < |table| ==> RowKey(table[j]) != Some(entry["segment_id"])) &&
      (r.None? <==>
        "segment_id" !in entry || entry["segment_id"] == [] ||
        forall i :: 1 <= i < |table| ==> RowKey(table[i]) != Some(entry["segment_id"]))
  {
    RowMapSpec(table);
  }

  /** The cell an entry edits: the fourth cell of the row it names. */
  function TargetCell(table: seq<Row>, rowMap: map<string, nat>, entry: Record): (c: Option<Cell>)
    requires IndexesTable(table, rowMap)
    ensures c.Some? ==> c.value in CellsOf(table)
  {
    match TargetRow(rowMap, entry)
    case None => None
    case Some(r) => CellInTable(table, r, 3); Some(table[r].cells[3])
  }

  function OldTranslationOf(entry: Record): string
  {
    Strip(GetOr(entry, "old_translation", ""))
  }

  function NewTranslationOf(entry: Record): string
  {
    Strip(GetOr(entry, "new_translation", ""))
  }

  /** What the loop has done so far: the cells, both counters and the next revision id. */
  datatype Progress = Progress(state: TableState, success: nat, fail: nat, rid: int)

  /** One pass of the loop body: an entry without a target counts as a failure; otherwise
      its cell is rewritten when it reads as the old text, and the entry fails when not. */
  function Step(table: seq<Row>, rowMap: map<string, nat>, author: string, date: string, strategy: string,
                entry: Record, p: Progress): (q: Progress)
    requires IndexesTable(table, rowMap) && CellsOf(table) <= p.state.Keys
    ensures q.state.Keys == p.state.Keys
  {
    match TargetCell(table, rowMap, entry)
    case None => p.(fail := p.fail + 1)
    case Some(c) =>
      var ps := p.state[c];
      if ReadStrategy(strategy, ps) == OldTranslationOf(entry) then
        Progress(p.state[c := SmartRewrite(ps, OldTranslationOf(entry), NewTranslationOf(entry), author, date, p.rid)],
          p.success + 1, p.fail, p.rid + 2)
      else p.(fail := p.fail + 1)
  }

  /** The loop over the first `n` entries, from the cells `start`. */
  function Batch(table: seq<Row>, rowMap: map<string, nat>, author: string, date: string, strategy: string,
                 entries: seq<Record>, n: nat, start: TableState): (q: Progress)
    requires IndexesTable(table, rowMap) && CellsOf(table) <= start.Keys && n <= |entries|
    ensures q.state.Keys == start.Keys
  {
    if n == 0 then Progress(start, 0, 0, FirstRevisionId)
    else Step(table, rowMap, author, date, strategy, entries[n - 1],
      Batch(table, rowMap, author, date, strategy, entries, n - 1, start))
  }

  /** Every entry is counted once, and the revision id moves by 2 per success only. */
  lemma {:induction false} BatchCounts(table: seq<Row>, rowMap: map<string, nat>, author: string, date: string,
                                      strategy: string, entries: seq<Record>, n: nat, start: TableState)
    requires IndexesTable(table, rowMap) && CellsOf(table) <= start.Keys && n <= |entries|
    ensures var q := Batch(table, rowMap, author, date, strategy, entries, n, start);
      q.success + q.fail == n && q.rid == FirstRevisionId + 2 * q.success
  {
    if n > 0 {
      var p := Batch(table, rowMap, author, date, strategy, entries, n - 1, start);
      BatchCounts(table, rowMap, author, date, strategy, entries, n - 1, start);
      StepCounts(table, rowMap, author, date, strategy, entries[n - 1], p);
    }
  }

  lemma StepCounts(table: seq<Row>, rowMap: map<string, nat>, author: string, date: string, strategy: string,
                   entry: Record, p: Progress)
    requires IndexesTable(table, rowMap) && CellsOf(table) <= p.state.Keys
    ensures var q := Step(table, rowMap, author, date, strategy, entry, p);
      q.success + q.fail == p.success + p.fail + 1 && q.rid == p.rid + 2 * (q.success - p.success)
  {
  }

  /** An entry succeeds exactly when it names a row and that row's fourth cell, as the
      earlier entries left it, reads as its old text; only a success touches a cell, and
      only its own. */
  lemma StepOutcome(table: seq<Row>, rowMap: map<string, nat>, author: string, date: string, strategy: string,
                    entry: Record, p: Progress)
    requires IndexesTable(table, rowMap) && CellsOf(table) <= p.state.Keys
    ensures var q := Step(table, rowMap, author, date, strategy, entry, p);
      var c := TargetCell(table, rowMap, entry);
      (q.success == p.success + 1 <==> c.Some? && ReadStrategy(strategy, p.state[c.value]) == OldTranslationOf(entry)) &&
      (q.success == p.success ==> q.state == p.state && q.fail == p.fail + 1 && q.rid == p.rid) &&
      (q.success == p.success + 1 ==> q.state == p.state[c.value :=
        SmartRewrite(p.state[c.value], OldTranslationOf(entry), NewTranslationOf(entry), author, date, p.rid)])
  {
  }

  /** A cell that no entry names keeps its paragraphs. */
  lemma {:induction false} BatchUntouched(table: seq<Row>, rowMap: map<string, nat>, author: string, date: string,
                                         strategy: string, entries: seq<Record>, n: nat, start: TableState, c: Cell)
    requires IndexesTable(table, rowMap) && CellsOf(table) <= start.Keys && n <= |entries|
    requires c in start && forall k :: 0 <= k < n ==> TargetCell(table, rowMap, entries[k]) != Some(c)
    ensures Batch(table, rowMap, author, date, strategy, entries, n, start).state[c] == start[c]
  {
    if n > 0 {
      var p := Batch(table, rowMap, author, date, strategy, entries, n - 1, start);
      BatchUntouched(table, rowMap, author, date, strategy, entries, n - 1, start, c);
      StepOutcome(table, rowMap, author, date, strategy, entries[n - 1], p);
    }
  }

  /** When no entry names a row, every entry fails and the document is left as it was. */
  lemma {:induction false} BatchUnknownIds(table: seq<Row>, rowMap: map<string, nat>, author: string, date: string,
                                          strategy: string, entries: seq<Record>, n: nat, start: TableState)
    requires IndexesTable(table, rowMap) && CellsOf(table) <= start.Keys && n <= |entries|
    requires forall k :: 0 <= k < n ==> TargetRow(rowMap, entries[k]).None?
    ensures Batch(table, rowMap, author, date, strategy, entries, n, start) == Progress(start, 0, n, FirstRevisionId)
  {
    if n > 0 {
      var p := Batch(table, rowMap, author, date, strategy, entries, n - 1, start);
      BatchUnknownIds(table, rowMap, author, date, strategy, entries, n - 1, start);
      StepOutcome(table, rowMap, author, date, strategy, entries[n - 1], p);
    }
  }

  /** `replace_cell_with_track_changes_smart` on a cell of the table, seen on the whole table. */
  method EditTarget(table: seq<Row>, cell: Cell, oldText: string, newText: string, author: string, date: string,
                    rid: int, strategy: string) returns (ok: bool)
    requires cell in CellsOf(table)
    modifies cell
    ensures var before := old(StateOf(table));
      (ok <==> ReadStrategy(strategy, before[cell]) == oldText) &&
      StateOf(table) == if ok then before[cell := SmartRewrite(before[cell], oldText, newText, author, date, rid)] else before
  {
    ghost var before := StateOf(table);
    ok := ReplaceCellSmart(cell, oldText, newText, author, date, rid, strategy);
    EditedOneCell(table, before, cell);
  }

  /** One pass of the loop body, on the cells as the table holds them. */
  method ApplyEntry(table: seq<Row>, rowMap: map<string, nat>, author: string, date: string, strategy: string,
                    entry: Record, success: nat, fail: nat, rid: int)
    returns (success': nat, fail': nat, rid': int)
    requires IndexesTable(table, rowMap)
    modifies CellsOf(table)
    ensures Progress(StateOf(table), success', fail', rid') ==
      Step(table, rowMap, author, date, strategy, entry, old(Progress(StateOf(table), success, fail, rid)))
  {
    success', fail', rid' := success, fail, rid;
    ghost var p := Progress(StateOf(table), success, fail, rid);
    var oldText := Strip(GetOr(entry, "old_translation", ""));
    var newText := Strip(GetOr(entry, "new_translation", ""));
    var target := TargetRow(rowMap, entry);
    if target.None? {
      fail' := fail + 1;
      return;
    }
    CellInTable(table, target.value, 3);
    var cell := table[target.value].cells[3];
    assert TargetCell(table, rowMap, entry) == Some(cell);
    var ok := EditTarget(table, cell, oldText, newText, author, date, rid, strategy);
    assert ok <==> ReadStrategy(strategy, p.state[cell]) == OldTranslationOf(entry);
    if ok {
      success' := success + 1;
      rid' := rid + 2;
    } else {
      fail' := fail + 1;
    }
  }

  /** The loop of `update_translations`, against the index built beforehand: the cells,
      the counters and the next revision id are those of `Batch` over every entry. */
  method UpdateTranslations(table: seq<Row>, translations: seq<Record>, author: string, date: string, strategy: string)
    returns (success: nat, fail: nat, nextId: int)
    modifies CellsOf(table)
    ensures var q := Batch(table, old(RowMap(table)), author, date, strategy, translations, |translations|, old(StateOf(table)));
      StateOf(table) == q.state && success == q.success && fail == q.fail && nextId == q.rid
  {
    var rowMap := BuildRowMap(table);
    ghost var start := StateOf(table);
    success, fail := 0, 0;
    var rid := FirstRevisionId;
    var k := 0;
    while k < |translations|
      invariant 0 <= k <= |translations|
      invariant Batch(table, rowMap, author, date, strategy, translations, k, start) ==
        Progress(StateOf(table), success, fail, rid)
    {
      success, fail, rid := ApplyEntry(table, rowMap, author, date, strategy, translations[k], success, fail, rid);
      k := k + 1;
    }
    nextId := rid;
  }
}
