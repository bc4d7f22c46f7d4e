/**
 * The third version of the update script, which works on the document's DOM
 * directly. It finds the row whose first cell has a paragraph reading as the
 * segment id. In that row's fourth cell it picks the paragraph holding visible
 * non-Tag text, and takes that paragraph's formatting and non-Tag text. It then
 * removes every direct run of the paragraph and only afterwards checks that the
 * text contains the protected old text. Finally it appends a deletion and an
 * insertion whose ids come from the entry's position: entry `i` uses `2i`
 * and `2i + 1`.
 */
module V3Update {
  import opened Wrappers
  import opened Text
  import opened Docx
  import opened Translations
  import opened TagProtector
  import SimpleUpdate
  import TrackedUpdate

  /** Why an entry fails; the entry is then recorded in `failed`. */
  datatype V3Error = SegmentNotFound | NoTargetCell | NoParagraph | TextMismatch
    /** As written, appending a node of the other XML library raises. */
    | ForeignNode

  // ---------------------------------------------------------------------
  // get_direct_children_by_tagname

  /** The direct children whose element name is `name`. */
  function ChildrenNamed(cs: seq<Node>, name: string): seq<Node>
  {
    Without(cs, (n: Node) => NodeName(n) != name)
  }

  /** Exactly the children with that name are returned: each of them, and nothing else. */
  lemma ChildrenNamedIff(cs: seq<Node>, name: string, x: Node)
    ensures x in ChildrenNamed(cs, name) <==> x in cs && NodeName(x) == name
  {
    if x in cs && NodeName(x) == name {
      WithoutKeeps(cs, (n: Node) => NodeName(n) != name, x);
    }
    if x in ChildrenNamed(cs, name) {
      WithoutSubset(cs, (n: Node) => NodeName(n) != name, x);
    }
  }

  /** Order is kept: the children named are those of a prefix followed by those of the rest. */
  lemma ChildrenNamedAppend(a: seq<Node>, b: seq<Node>, name: string)
    ensures ChildrenNamed(a + b, name) == ChildrenNamed(a, name) + ChildrenNamed(b, name)
  {
    WithoutAppend(a, b, (n: Node) => NodeName(n) != name);
  }

  // ---------------------------------------------------------------------
  // get_normalized_formats_and_text

  /** The `w:t` values of a run, concatenated. */
  function TText(r: Run): string
  {
    TrackedUpdate.TTextOf(r.items)
  }

  /** The `w:rPr` copied onto the new runs: that of the first run that has one and is not a
      Tag run; runs without `w:rPr` are passed over. */
  function FormatOf(rs: seq<Run>): (f: Option<RunProps>)
    ensures f.Some? ==> exists k :: (0 <= k < |rs| && rs[k].rPr == f && !IsTagRun(rs[k]) &&
      forall j :: 0 <= j < k ==> rs[j].rPr.None? || IsTagRun(rs[j]))
    ensures f.None? <==> forall k :: 0 <= k < |rs| ==> rs[k].rPr.None? || IsTagRun(rs[k])
  {
    if rs == [] then None
    else if rs[0].rPr.Some? && !IsTagRun(rs[0]) then rs[0].rPr
    else
      var f := FormatOf(rs[1..]);
      assert forall k :: 1 <= k < |rs| ==> rs[k] == rs[1..][k - 1];
      f
  }

  /** The `w:t` text of the runs that are not Tag runs, concatenated. */
  function NonTagText(rs: seq<Run>): string
  {
    if rs == [] then [] else (if IsTagRun(rs[0]) then [] else TText(rs[0])) + NonTagText(rs[1..])
  }

  /** The text the check searches: the non-Tag text, unescaped by `unescape` (the library's
      `html.unescape`), then protected. */
  function Aggregated(rs: seq<Run>, unescape: string -> string): string
  {
    ProtectTags(unescape(NonTagText(rs)))
  }

  lemma {:induction false} NonTagTextSkipsTags(rs: seq<Run>)
    requires forall k :: 0 <= k < |rs| ==> IsTagRun(rs[k])
    ensures NonTagText(rs) == []
  {
    if rs != [] {
      NonTagTextSkipsTags(rs[1..]);
    }
  }

  /** Tag runs add nothing to the searched text, whatever they hold. */
  lemma {:induction false} NonTagTextAppendTag(a: seq<Run>, r: Run)
    requires IsTagRun(r)
    ensures NonTagText(a + [r]) == NonTagText(a)
  {
    if a == [] {
      assert [] + [r] == [r];
    } else {
      TailOfAppend(a, [r]);
      NonTagTextAppendTag(a[1..], r);
    }
  }

  /** `get_normalized_formats_and_text` on paragraph `pi`: returns the format and the
      searched text, and removes every direct run of the paragraph, Tag runs included. */
  method NormalizeParagraph(cell: Cell, pi: nat, unescape: string -> string) returns (f: Option<RunProps>, text: string)
    requires pi < |cell.paragraphs|
    modifies cell
    ensures f == FormatOf(Runs(old(cell.paragraphs[pi].children)))
    ensures text == Aggregated(Runs(old(cell.paragraphs[pi].children)), unescape)
    ensures cell.paragraphs == old(cell.paragraphs)[pi := NoRuns(old(cell.paragraphs[pi]))]
  {
    var rs := Runs(cell.paragraphs[pi].children);
    f := FormatOf(rs);
    text := Aggregated(rs, unescape);
    cell.RemoveChildrenWhere(pi, IsRunNode);
  }

  // ---------------------------------------------------------------------
  // find_target_paragraph_in_cell

  /** A run item `w:t` whose text is not blank. */
  predicate HasVisibleText(r: Run)
  {
    exists m :: 0 <= m < |r.items| && r.items[m].T? && Strip(r.items[m].text) != []
  }

  /** A paragraph holding a direct run that is not a Tag run and shows some text. */
  predicate HasNonTagText(p: Paragraph)
  {
    exists k :: 0 <= k < |Runs(p.children)| && !IsTagRun(Runs(p.children)[k]) && HasVisibleText(Runs(p.children)[k])
  }

  function FirstWithText(ps: seq<Paragraph>, i: nat): (r: Option<nat>)
    requires i <= |ps|
    ensures r.Some? ==> (i <= r.value < |ps| && HasNonTagText(ps[r.value]) &&
      forall j :: i <= j < r.value ==> !HasNonTagText(ps[j]))
    ensures r.None? ==> forall j :: i <= j < |ps| ==> !HasNonTagText(ps[j])
    decreases |ps| - i
  {
    if i == |ps| then None
    else if HasNonTagText(ps[i]) then Some(i)
    else FirstWithText(ps, i + 1)
  }

  /** `find_target_paragraph_in_cell`: the first paragraph showing non-Tag text, else the
      first paragraph, and none in a cell without paragraphs. */
  function TargetParagraph(ps: seq<Paragraph>): (r: Option<nat>)
    ensures r.None? <==> ps == []
    ensures r.Some? ==> r.value < |ps| && forall j :: 0 <= j < r.value ==> !HasNonTagText(ps[j])
    ensures r.Some? ==> HasNonTagText(ps[r.value]) || (r.value == 0 && forall j :: 0 <= j < |ps| ==> !HasNonTagText(ps[j]))
  {
    if ps == [] then None
    else
      var found := FirstWithText(ps, 0);
      if found.Some? then found else Some(0)
  }

  // ---------------------------------------------------------------------
  // locate_row_by_segment_id, find_target_cell_in_row

  /** The stripped text of a paragraph's direct runs, `w:t` values only. */
  function ParagraphRunText(p: Paragraph): string
  {
    Strip(TrackedUpdate.RunsTText(Runs(p.children)))
  }

  /** Row `j` matches when it has a first cell, and that cell, as the cells `st` hold it,
      has a paragraph reading as the stripped segment id. */
  predicate RowMatches(rows: seq<Row>, st: TableState, j: nat, segmentId: string)
    requires CellsOf(rows) <= st.Keys && j < |rows|
  {
    if |rows[j].cells| == 0 then false
    else
      CellInTable(rows, j, 0);
      var ps := st[rows[j].cells[0]];
      exists p :: 0 <= p < |ps| && ParagraphRunText(ps[p]) == Strip(segmentId)
  }

  function FirstRowFrom(rows: seq<Row>, st: TableState, segmentId: string, i: nat): (r: Option<nat>)
    requires CellsOf(rows) <= st.Keys && i <= |rows|
    ensures r.Some? ==> (i <= r.value < |rows| && RowMatches(rows, st, r.value, segmentId) &&
      forall j :: i <= j < r.value ==> !RowMatches(rows, st, j, segmentId))
    ensures r.None? ==> forall j :: i <= j < |rows| ==> !RowMatches(rows, st, j, segmentId)
    decreases |rows| - i
  {
    if i == |rows| then None
    else if RowMatches(rows, st, i, segmentId) then Some(i)
    else FirstRowFrom(rows, st, segmentId, i + 1)
  }

  /** `locate_row_by_segment_id`: the first row, in document order, that matches. */
  function LocateRow(rows: seq<Row>, st: TableState, segmentId: string): (r: Option<nat>)
    requires CellsOf(rows) <= st.Keys
    ensures r.Some? ==> (r.value < |rows| && RowMatches(rows, st, r.value, segmentId) &&
      forall j :: 0 <= j < r.value ==> !RowMatches(rows, st, j, segmentId))
    ensures r.None? ==> forall j :: 0 <= j < |rows| ==> !RowMatches(rows, st, j, segmentId)
  {
    FirstRowFrom(rows, st, segmentId, 0)
  }

  // ---------------------------------------------------------------------
  // The edit of one cell

  /** The check: a blank old text is always accepted; otherwise the protected old text must
      occur in the searched text. */
  predicate Accepts(oldText: string, aggregated: string)
  {
    Strip(oldText) == [] || Contains(aggregated, ProtectTags(oldText))
  }

  /** When the unescaped paragraph text (free of the protection marks) contains the old
      text, the check passes. */
  lemma AcceptsUnescaped(oldText: string, raw: string, unescape: string -> string)
    requires OpenMark !in unescape(raw) && CloseMark !in unescape(raw)
    requires OpenMark !in oldText && CloseMark !in oldText
    requires Contains(unescape(raw), oldText)
    ensures Accepts(oldText, ProtectTags(unescape(raw)))
  {
    ProtectContains(unescape(raw), oldText);
  }

  /** What an edit of a cell yields: the outcome (the next id on success) and the cell. */
  datatype Edit = Edit(outcome: Result<int, V3Error>, paragraphs: seq<Paragraph>)

  /** The blocks written into the target paragraph; the same builders as the simple
      script's, with the format of the target paragraph. */
  function Blocks(oldText: string, newText: string, f: Option<RunProps>, author: string, date: string, rid: int): seq<Node>
  {
    RevisionBlocks(SimpleUpdate.DelBlock(oldText, f), SimpleUpdate.InsBlock(newText, f), author, date, rid)
  }

  /** The edit of a cell with paragraphs `ps`. The runs of the target paragraph are removed
      before the check, so a mismatch leaves them removed. */
  function EditCell(ps: seq<Paragraph>, oldText: string, newText: string, author: string, date: string,
                    rid: int, unescape: string -> string): Edit
  {
    if ps == [] then Edit(Failure(NoParagraph), ps)
    else
      var pi := TargetParagraph(ps).value;
      var rs := Runs(ps[pi].children);
      var cleared := ps[pi := NoRuns(ps[pi])];
      if !Accepts(oldText, Aggregated(rs, unescape)) then Edit(Failure(TextMismatch), cleared)
      else
        var f := FormatOf(rs);
        Edit(Success(rid + BlockCount(SimpleUpdate.DelBlock(oldText, f), SimpleUpdate.InsBlock(newText, f))),
             AppendTo(cleared, pi, Blocks(oldText, newText, f, author, date, rid)))
  }

  /** The edit fails exactly when the cell has no paragraph or the check refuses; only the
      target paragraph changes, and it is left without direct runs whatever the outcome. */
  lemma EditShape(ps: seq<Paragraph>, oldText: string, newText: string, author: string, date: string,
                  rid: int, unescape: string -> string)
    requires ps != []
    ensures var e := EditCell(ps, oldText, newText, author, date, rid, unescape);
      var pi := TargetParagraph(ps).value;
      (e.outcome.Failure? <==> !Accepts(oldText, Aggregated(Runs(ps[pi].children), unescape))) &&
      |e.paragraphs| == |ps| &&
      (forall j :: 0 <= j < |ps| && j != pi ==> e.paragraphs[j] == ps[j]) &&
      Runs(e.paragraphs[pi].children) == [] &&
      e.paragraphs[pi].children == Without(ps[pi].children, IsRunNode) +
        (if e.outcome.Failure? then []
         else Blocks(oldText, newText, FormatOf(Runs(ps[pi].children)), author, date, rid))
  {
    var pi := TargetParagraph(ps).value;
    var f := FormatOf(Runs(ps[pi].children));
    NoRunsLeft(ps[pi].children);
    SimpleUpdate.BlocksHaveNoRuns(SimpleUpdate.DelBlock(oldText, f), SimpleUpdate.InsBlock(newText, f), author, date, rid);
    RunsAppend(Without(ps[pi].children, IsRunNode), Blocks(oldText, newText, f, author, date, rid));
    assert Without(ps[pi].children, IsRunNode) + [] == Without(ps[pi].children, IsRunNode);
  }

  /** The blocks an edit of a cell with paragraphs `ps` appends when it succeeds. */
  function EditBlocksOf(ps: seq<Paragraph>, oldText: string, newText: string, author: string, date: string, rid: int): seq<Node>
  {
    if ps == [] then []
    else Blocks(oldText, newText, FormatOf(Runs(ps[TargetParagraph(ps).value].children)), author, date, rid)
  }

  /** The blocks number at most two and carry the consecutive ids from `rid` on. */
  lemma EditBlocksShape(ps: seq<Paragraph>, oldText: string, newText: string, author: string, date: string, rid: int)
    ensures var b := EditBlocksOf(ps, oldText, newText, author, date, rid);
      |b| <= 2 && IdsFrom(b, rid)
  {
    if ps != [] {
      var f := FormatOf(Runs(ps[TargetParagraph(ps).value].children));
      RevisionBlocksShape(SimpleUpdate.DelBlock(oldText, f), SimpleUpdate.InsBlock(newText, f), author, date, rid);
    }
  }

  /** A successful edit appends at most two blocks, with the consecutive ids from `rid` on,
      and returns the first id after them. */
  lemma EditIds(ps: seq<Paragraph>, oldText: string, newText: string, author: string, date: string,
                rid: int, unescape: string -> string)
    ensures var e := EditCell(ps, oldText, newText, author, date, rid, unescape);
      var b := EditBlocksOf(ps, oldText, newText, author, date, rid);
      e.outcome.Success? ==> e.outcome.value == rid + |b| && |b| <= 2 && IdsFrom(b, rid)
  {
    if ps != [] {
      var f := FormatOf(Runs(ps[TargetParagraph(ps).value].children));
      RevisionBlocksShape(SimpleUpdate.DelBlock(oldText, f), SimpleUpdate.InsBlock(newText, f), author, date, rid);
    }
  }

  /** Both new runs carry the format taken from the target paragraph. */
  lemma BlocksCarryFormat(oldText: string, newText: string, f: Option<RunProps>, author: string, date: string, rid: int)
    ensures var b := Blocks(oldText, newText, f, author, date, rid);
      forall k :: 0 <= k < |b| ==> b[k].rev.runs == [Run(f, b[k].rev.runs[0].items)]
  {
    RevisionBlocksShape(SimpleUpdate.DelBlock(oldText, f), SimpleUpdate.InsBlock(newText, f), author, date, rid);
  }

  /** The edit as written. The blocks are built as `python-docx` (lxml) elements, the
      captured `w:rPr` is parsed back with `minidom` and appended to an lxml run, and each
      block is appended to the `minidom` paragraph with `append`, which a `minidom` element
      does not have. Building or appending the first block therefore raises, after the
      runs were removed; only an entry with blank old and new text writes nothing and
      succeeds. */
  function EditCellAsWritten(ps: seq<Paragraph>, oldText: string, newText: string, author: string, date: string,
                             rid: int, unescape: string -> string): Edit
  {
    if ps == [] then Edit(Failure(NoParagraph), ps)
    else
      var pi := TargetParagraph(ps).value;
      var rs := Runs(ps[pi].children);
      var cleared := ps[pi := NoRuns(ps[pi])];
      if !Accepts(oldText, Aggregated(rs, unescape)) then Edit(Failure(TextMismatch), cleared)
      else if Blocks(oldText, newText, FormatOf(rs), author, date, rid) != [] then Edit(Failure(ForeignNode), cleared)
      else Edit(Success(rid), cleared)
  }

  /** As written, every entry that passes the check and has text to write fails, and its
      paragraph has lost its runs and gained nothing; the intended edit succeeds on the
      same input and writes the blocks. */
  lemma AsWrittenLosesText(ps: seq<Paragraph>, oldText: string, newText: string, author: string, date: string,
                           rid: int, unescape: string -> string)
    requires ps != []
    requires Accepts(oldText, Aggregated(Runs(ps[TargetParagraph(ps).value].children), unescape))
    requires Strip(ProtectTags(oldText)) != [] || Strip(ProtectTags(newText)) != []
    ensures var pi := TargetParagraph(ps).value;
      var w := EditCellAsWritten(ps, oldText, newText, author, date, rid, unescape);
      var e := EditCell(ps, oldText, newText, author, date, rid, unescape);
      w.outcome == Failure(ForeignNode) && Runs(w.paragraphs[pi].children) == [] &&
      w.paragraphs[pi].children == Without(ps[pi].children, IsRunNode) &&
      e.outcome.Success? && |e.paragraphs[pi].children| > |w.paragraphs[pi].children|
  {
    var pi := TargetParagraph(ps).value;
    var f := FormatOf(Runs(ps[pi].children));
    RevisionBlocksShape(SimpleUpdate.DelBlock(oldText, f), SimpleUpdate.InsBlock(newText, f), author, date, rid);
    NoRunsLeft(ps[pi].children);
  }

  /** The runs removed from the target paragraph and the check, then the blocks, on the cell. */
  method ReplaceInCell(cell: Cell, oldText: string, newText: string, author: string, date: string,
                       rid: int, unescape: string -> string) returns (outcome: Result<int, V3Error>)
    modifies cell
    ensures Edit(outcome, cell.paragraphs) == EditCell(old(cell.paragraphs), oldText, newText, author, date, rid, unescape)
  {
    var target := TargetParagraph(cell.paragraphs);
    if target.None? {
      return Failure(NoParagraph);
    }
    var pi := target.value;
    var f, aggregated := NormalizeParagraph(cell, pi, unescape);
    if !Accepts(oldText, aggregated) {
      return Failure(TextMismatch);
    }
    var del, ins := SimpleUpdate.DelBlock(oldText, f), SimpleUpdate.InsBlock(newText, f);
    var next := cell.AppendRevisions(pi, del, ins, author, date, rid);
    outcome := Success(next);
  }

  // ---------------------------------------------------------------------
  // update_translations

  /** `trans.get('segment_id', 'Unknown')`. */
  function SegmentIdOf(entry: Record): string
  {
    GetOr(entry, "segment_id", "Unknown")
  }

  function OldTextOf(entry: Record): string
  {
    GetOr(entry, "old_text", "")
  }

  function NewTextOf(entry: Record): string
  {
    GetOr(entry, "new_text", "")
  }

  /** What the loop has done so far: the cells, the success count, and the failures in
      order with the id each was reported under. */
  datatype Progress = Progress(state: TableState, successful: nat, failed: seq<(string, V3Error)>)

  /** The `try` block for entry `i` (counting from 1): find the row and its fourth cell,
      then edit the cell with ids from `2i`. A failure is recorded under the entry's id;
      the cell keeps what the edit did to it, so a refused check leaves its target
      paragraph without runs. */
  function Step(rows: seq<Row>, author: string, date: string, unescape: string -> string, i: nat, entry: Record,
                p: Progress): (q: Progress)
    requires CellsOf(rows) <= p.state.Keys
    ensures q.state.Keys == p.state.Keys
    ensures (q.successful == p.successful + 1 && q.failed == p.failed) ||
      (q.successful == p.successful && |q.failed| == |p.failed| + 1)
    ensures forall c :: c in p.state && c !in ColumnCells(rows, 3) ==> q.state[c] == p.state[c]
  {
    match LocateRow(rows, p.state, SegmentIdOf(entry))
    case None => p.(failed := p.failed + [(SegmentIdOf(entry), SegmentNotFound)])
    case Some(r) =>
      if |rows[r].cells| < 4 then p.(failed := p.failed + [(SegmentIdOf(entry), NoTargetCell)])
      else
        CellInTable(rows, r, 3);
        var c := rows[r].cells[3];
        assert c in ColumnCells(rows, 3);
        var e := EditCell(p.state[c], OldTextOf(entry), NewTextOf(entry), author, date, 2 * i, unescape);
        match e.outcome
        case Success(_) => Progress(p.state[c := e.paragraphs], p.successful + 1, p.failed)
        case Failure(err) => Progress(p.state[c := e.paragraphs], p.successful, p.failed + [(SegmentIdOf(entry), err)])
  }

  /** The loop over the first `n` entries, from the cells `start`: every entry is a
      success or a failure, and only fourth cells change. */
  function Batch(rows: seq<Row>, author: string, date: string, unescape: string -> string, entries: seq<Record>, n: nat,
                 start: TableState): (q: Progress)
    requires CellsOf(rows) <= start.Keys && n <= |entries|
    ensures q.state.Keys == start.Keys
    ensures q.successful + |q.failed| == n
    ensures forall c :: c in start && c !in ColumnCells(rows, 3) ==> q.state[c] == start[c]
  {
    if n == 0 then Progress(start, 0, [])
    else Step(rows, author, date, unescape, n, entries[n - 1], Batch(rows, author, date, unescape, entries, n - 1, start))
  }

  /** Entry `i` succeeds exactly when its row is found, has a fourth cell, and the edit of
      that cell (as the earlier entries left it) succeeds; an unknown segment or a missing
      fourth cell changes nothing, and otherwise the fourth cell becomes what the edit
      makes of it, with the blocks numbered from `2i`. */
  lemma StepOutcome(rows: seq<Row>, author: string, date: string, unescape: string -> string, i: nat, entry: Record,
                    p: Progress)
    requires CellsOf(rows) <= p.state.Keys
    ensures var q := Step(rows, author, date, unescape, i, entry, p);
      var r := LocateRow(rows, p.state, SegmentIdOf(entry));
      (r.None? || |rows[r.value].cells| < 4 ==>
        q.state == p.state && q.successful == p.successful &&
        q.failed == p.failed + [(SegmentIdOf(entry), if r.None? then SegmentNotFound else NoTargetCell)]) &&
      (r.Some? && |rows[r.value].cells| >= 4 ==>
        var c := rows[r.value].cells[3];
        c in p.state &&
        var e := EditCell(p.state[c], OldTextOf(entry), NewTextOf(entry), author, date, 2 * i, unescape);
        q.state == p.state[c := e.paragraphs] &&
        (q.successful == p.successful + 1 <==> e.outcome.Success?) &&
        (e.outcome.Failure? ==> q.failed == p.failed + [(SegmentIdOf(entry), e.outcome.error)]))
  {
    var r := LocateRow(rows, p.state, SegmentIdOf(entry));
    if r.Some? && |rows[r.value].cells| >= 4 {
      CellInTable(rows, r.value, 3);
    }
  }

  /** The ids of the blocks entry `i` writes are `2i` and `2i + 1` at most, so a block of
      an earlier entry has a smaller id than any block of a later one and no two blocks
      of a batch share an id. */
  lemma IdsNeverCollide(ps: seq<Paragraph>, ps': seq<Paragraph>, e: Record, e': Record, author: string, date: string,
                        i: nat, j: nat, a: nat, b: nat)
    requires i < j
    requires a < |EditBlocksOf(ps, OldTextOf(e), NewTextOf(e), author, date, 2 * i)|
    requires b < |EditBlocksOf(ps', OldTextOf(e'), NewTextOf(e'), author, date, 2 * j)|
    ensures var x := EditBlocksOf(ps, OldTextOf(e), NewTextOf(e), author, date, 2 * i)[a];
      var y := EditBlocksOf(ps', OldTextOf(e'), NewTextOf(e'), author, date, 2 * j)[b];
      (x.Del? || x.Ins?) && (y.Del? || y.Ins?) && x.rev.id < y.rev.id
  {
    EditBlocksShape(ps, OldTextOf(e), NewTextOf(e), author, date, 2 * i);
    EditBlocksShape(ps', OldTextOf(e'), NewTextOf(e'), author, date, 2 * j);
  }

  /** The edit of the fourth cell, seen on the whole table. */
  method EditTarget(rows: seq<Row>, cell: Cell, oldText: string, newText: string, author: string, date: string,
                    rid: int, unescape: string -> string) returns (outcome: Result<int, V3Error>)
    requires cell in CellsOf(rows)
    modifies cell
    ensures var before := old(StateOf(rows));
      var e := EditCell(before[cell], oldText, newText, author, date, rid, unescape);
      outcome == e.outcome && StateOf(rows) == before[cell := e.paragraphs]
  {
    ghost var before := StateOf(rows);
    outcome := ReplaceInCell(cell, oldText, newText, author, date, rid, unescape);
    EditedOneCell(rows, before, cell);
  }

  /** The `try` block of `update_translations` for entry `i`, on the cells as the table
      holds them. */
  method ApplyEntry(rows: seq<Row>, author: string, date: string, unescape: string -> string, i: nat, entry: Record,
                    successful: nat, failed: seq<(string, V3Error)>)
    returns (successful': nat, failed': seq<(string, V3Error)>)
    modifies CellsOf(rows)
    ensures Progress(StateOf(rows), successful', failed') ==
      Step(rows, author, date, unescape, i, entry, old(Progress(StateOf(rows), successful, failed)))
  {
    StepOutcome(rows, author, date, unescape, i, entry, Progress(StateOf(rows), successful, failed));
    successful', failed' := successful, failed;
    var segmentId := SegmentIdOf(entry);
    var row := LocateRow(rows, StateOf(rows), segmentId);
    if row.None? {
      failed' := failed + [(segmentId, SegmentNotFound)];
      return;
    }
    if |rows[row.value].cells| < 4 {
      failed' := failed + [(segmentId, NoTargetCell)];
      return;
    }
    CellInTable(rows, row.value, 3);
    var outcome := EditTarget(rows, rows[row.value].cells[3], OldTextOf(entry), NewTextOf(entry), author, date, 2 * i,
                              unescape);
    if outcome.Failure? {
      failed' := failed + [(segmentId, outcome.error)];
      return;
    }
    successful' := successful + 1;
  }

  /** The loop of `update_translations`, entries counted from 1: the cells, the success
      count and the failures are those of `Batch` over every entry. */
  method UpdateTranslations(rows: seq<Row>, translations: seq<Record>, author: string, date: string,
                            unescape: string -> string)
    returns (successful: nat, failed: seq<(string, V3Error)>)
    modifies CellsOf(rows)
    ensures Progress(StateOf(rows), successful, failed) ==
      Batch(rows, author, date, unescape, translations, |translations|, old(StateOf(rows)))
  {
    ghost var start := StateOf(rows);
    successful, failed := 0, [];
    var k := 0;
    while k < |translations|
      invariant 0 <= k <= |translations|
      invariant Batch(rows, author, date, unescape, translations, k, start) == Progress(StateOf(rows), successful, failed)
    {
      successful, failed := ApplyEntry(rows, author, date, unescape, k + 1, translations[k], successful, failed);
      k := k + 1;
    }
  }
}
