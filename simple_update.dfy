/**
 * The simple update script. It reads a cell as `cell.text`, stripped, checks
 * that the protected old text occurs in the protected cell text, and in the
 * cell's first paragraph replaces every run, revision, hyperlink and bookmark
 * by a tracked deletion of the protected old text and a tracked insertion of
 * the protected new text, each written only when its text is not blank. The
 * fuzzy script shares the edit, the row search and the final tag restoration.
 */
module SimpleUpdate {
  import opened Wrappers
  import opened Text
  import opened Docx
  import opened Translations
  import opened TagProtector
  import TrackedUpdate

  /** Why an entry of the batch failed; the script records the exception message. */
  datatype UpdateError =
    | SegmentNotFound
    | NoFirstCell
    | TooFewColumns
    | TextMismatch

  // ---------------------------------------------------------------------
  // Validation

  /** `cell.text.strip()`. */
  function CurrentText(ps: seq<Paragraph>): string
  {
    Strip(CellText(ps))
  }

  /** A blank old text is always accepted; otherwise the protected old text, as given,
      must occur in the protected current text. */
  predicate Accepts(oldText: string, current: string)
  {
    Strip(oldText) == [] || Contains(ProtectTags(current), ProtectTags(oldText))
  }

  /** On text without protection marks, the check is a plain substring test of the old
      text in the cell text, in that direction only. */
  lemma AcceptsIff(oldText: string, current: string)
    requires OpenMark !in oldText && CloseMark !in oldText
    requires OpenMark !in current && CloseMark !in current
    ensures Accepts(oldText, current) <==> Strip(oldText) == [] || Contains(current, oldText)
  {
    ProtectContains(current, oldText);
  }

  /** The cell's own reading is accepted. */
  lemma AcceptsOwnReading(current: string)
    ensures Accepts(current, current)
  {
    ContainsSelf(ProtectTags(current));
  }

  /** The old text is not stripped before the test, and the test goes one way only:
      an old text with a trailing space, or one longer than the cell, is refused. */
  lemma AcceptsIsStrictExample()
    ensures !Accepts("ab ", "ab") && !Accepts("abc", "ab") && Accepts("b", "abc")
  {
    StrictCases("ab ", "abc", "ab", "b");
  }

  lemma StrictCases(spaced: string, longer: string, cell: string, inner: string)
    requires spaced == "ab " && longer == "abc" && cell == "ab" && inner == "b"
    ensures !Accepts(spaced, cell) && !Accepts(longer, cell) && Accepts(inner, longer)
  {
    StripEmptyIff(spaced);
    assert !IsSpace(spaced[0]);
    RefusesLonger(spaced, cell);
    StripEmptyIff(longer);
    assert !IsSpace(longer[0]);
    RefusesLonger(longer, cell);
    assert OccursAt(longer, inner, 1);
    AcceptsOccurrence(inner, longer, 1);
  }

  /** An old text longer than the cell text is refused unless it is blank. */
  lemma RefusesLonger(oldText: string, current: string)
    requires Strip(oldText) != [] && |oldText| > |current|
    ensures !Accepts(oldText, current)
  {
    ContainsAt(ProtectTags(current), ProtectTags(oldText));
  }

  /** Any piece of the cell text, taken as it stands, is accepted. */
  lemma AcceptsOccurrence(oldText: string, current: string, k: nat)
    requires OccursAt(current, oldText, k)
    ensures Accepts(oldText, current)
  {
    var pc, po := ProtectTags(current), ProtectTags(oldText);
    assert pc[k..k + |po|] == po;
    assert OccursAt(pc, po, k);
    ContainsAt(pc, po);
  }

  // ---------------------------------------------------------------------
  // The edit

  /** The children cleared from the first paragraph; `w:pPr` and anything else stay. */
  predicate Clearable(n: Node)
  {
    n.R? || n.Del? || n.Ins? || n.Hyperlink? || n.BookmarkStart? || n.BookmarkEnd?
  }

  /** The formatting the new runs carry: the `w:rPr` of the paragraph's first direct run,
      when it has one. */
  function FirstRunFormat(children: seq<Node>): Option<RunProps>
  {
    var rs := Runs(children);
    if rs == [] then None else rs[0].rPr
  }

  /** `create_delete_element`'s run: the formatting and one `w:delText`. */
  function DeleteRun(text: string, f: Option<RunProps>): Run
  {
    Run(f, [DelText(text)])
  }

  /** `create_insert_element`'s run: the formatting and one `w:t`. */
  function InsertRun(text: string, f: Option<RunProps>): Run
  {
    Run(f, [T(text)])
  }

  /** The deletion is written iff the stripped protected old text is non-empty. */
  function DelBlock(oldText: string, f: Option<RunProps>): Option<Run>
  {
    if Strip(ProtectTags(oldText)) != [] then Some(DeleteRun(ProtectTags(oldText), f)) else None
  }

  /** The insertion is written iff the stripped protected new text is non-empty. */
  function InsBlock(newText: string, f: Option<RunProps>): Option<Run>
  {
    if Strip(ProtectTags(newText)) != [] then Some(InsertRun(ProtectTags(newText), f)) else None
  }

  /** The cell after the edit: nothing changes without paragraphs; otherwise paragraph 0
      loses its clearable children and gains the blocks. */
  function Rewrite(ps: seq<Paragraph>, oldText: string, newText: string, author: string, date: string, rid: int)
    : seq<Paragraph>
  {
    if ps == [] then ps
    else
      var f := FirstRunFormat(ps[0].children);
      AppendTo(ps[0 := Paragraph(Without(ps[0].children, Clearable))], 0,
        RevisionBlocks(DelBlock(oldText, f), InsBlock(newText, f), author, date, rid))
  }

  /** The revision id after the edit. */
  function NextId(ps: seq<Paragraph>, oldText: string, newText: string, rid: int): (next: int)
    ensures rid <= next <= rid + 2
  {
    if ps == [] then rid
    else
      var f := FirstRunFormat(ps[0].children);
      rid + BlockCount(DelBlock(oldText, f), InsBlock(newText, f))
  }

  /** The blocks are written exactly for the texts that are not blank. */
  lemma BlocksPresentIff(oldText: string, newText: string, f: Option<RunProps>)
    ensures DelBlock(oldText, f).Some? <==> Strip(oldText) != []
    ensures InsBlock(newText, f).Some? <==> Strip(newText) != []
  {
    StripProtect(oldText);
    StripProtect(newText);
  }

  /** So the revision id moves by one per non-blank text, and not at all for a cell
      without paragraphs. */
  lemma NextIdCounts(ps: seq<Paragraph>, oldText: string, newText: string, rid: int)
    ensures NextId(ps, oldText, newText, rid) ==
      if ps == [] then rid
      else rid + (if Strip(oldText) != [] then 1 else 0) + (if Strip(newText) != [] then 1 else 0)
  {
    if ps != [] {
      BlocksPresentIff(oldText, newText, FirstRunFormat(ps[0].children));
    }
  }

  /** Paragraph 0 keeps exactly its children that are not cleared, in order, followed by
      the blocks; every other paragraph is untouched. */
  lemma RewriteShape(ps: seq<Paragraph>, oldText: string, newText: string, author: string, date: string, rid: int)
    requires ps != []
    ensures var r := Rewrite(ps, oldText, newText, author, date, rid);
      var f := FirstRunFormat(ps[0].children);
      var blocks := RevisionBlocks(DelBlock(oldText, f), InsBlock(newText, f), author, date, rid);
      |r| == |ps| &&
      (forall j :: 1 <= j < |ps| ==> r[j] == ps[j]) &&
      r[0].children == Without(ps[0].children, Clearable) + blocks
  {
  }

  /** No run, revision, hyperlink or bookmark of paragraph 0 survives, and every other
      child of it (such as `w:pPr`) does. */
  lemma RewriteClears(ps: seq<Paragraph>, oldText: string, newText: string, author: string, date: string, rid: int)
    requires ps != []
    ensures var kept := Without(ps[0].children, Clearable);
      Rewrite(ps, oldText, newText, author, date, rid)[0].children[..|kept|] == kept &&
      (forall n :: n in kept ==> !Clearable(n)) &&
      (forall n :: n in ps[0].children && !Clearable(n) ==> n in kept)
  {
    var kept := Without(ps[0].children, Clearable);
    forall n | n in kept
      ensures !Clearable(n)
    {
      WithoutSubset(ps[0].children, Clearable, n);
    }
    forall n | n in ps[0].children && !Clearable(n)
      ensures n in kept
    {
      WithoutKeeps(ps[0].children, Clearable, n);
    }
  }

  lemma {:induction false} NoRunsKept(children: seq<Node>)
    ensures Runs(Without(children, Clearable)) == []
    ensures TrackedUpdate.DeletedText(Without(children, Clearable)) == []
    ensures TrackedUpdate.InsertedText(Without(children, Clearable)) == []
  {
    if children != [] {
      NoRunsKept(children[1..]);
      var head := if Clearable(children[0]) then [] else [children[0]];
      assert Without(children, Clearable) == head + Without(children[1..], Clearable);
      RunsAppend(head, Without(children[1..], Clearable));
      TrackedUpdate.TrackedTextsAppend(head, Without(children[1..], Clearable));
      if head != [] {
        assert head[1..] == [];
      }
    }
  }

  lemma BlocksHaveNoRuns(del: Option<Run>, ins: Option<Run>, author: string, date: string, rid: int)
    ensures Runs(RevisionBlocks(del, ins, author, date, rid)) == []
  {
    var b := RevisionBlocks(del, ins, author, date, rid);
    RevisionBlocksShape(del, ins, author, date, rid);
    if |b| == 2 {
      assert b[1..] == [b[1]];
    } else if |b| == 1 {
      assert b[1..] == [];
    }
  }

  /** The blocks, read by the tracked-change reader, give back the protected old text as
      `w:delText` and the protected new text as `w:t`, each only when it is written. */
  lemma BlocksReadBack(oldText: string, newText: string, f: Option<RunProps>, author: string, date: string, rid: int)
    ensures var b := RevisionBlocks(DelBlock(oldText, f), InsBlock(newText, f), author, date, rid);
      TrackedUpdate.DeletedText(b) == (if Strip(oldText) != [] then ProtectTags(oldText) else []) &&
      TrackedUpdate.InsertedText(b) == (if Strip(newText) != [] then ProtectTags(newText) else [])
  {
    BlocksPresentIff(oldText, newText, f);
    TrackedUpdate.BlocksReadBack(DelBlock(oldText, f), InsBlock(newText, f), author, date, rid);
    var po, pn := ProtectTags(oldText), ProtectTags(newText);
    assert TrackedUpdate.DelTextOf([DelText(po)]) == po + TrackedUpdate.DelTextOf([]);
    assert TrackedUpdate.TTextOf([T(pn)]) == pn + TrackedUpdate.TTextOf([]);
  }

  /** After the edit paragraph 0 holds no direct run, so it reads as empty, and its
      revisions are exactly the new deletion and insertion. */
  lemma RewriteReadsBack(ps: seq<Paragraph>, oldText: string, newText: string, author: string, date: string, rid: int)
    requires ps != []
    ensures var p := Rewrite(ps, oldText, newText, author, date, rid)[0];
      Runs(p.children) == [] && ParagraphText(p) == [] &&
      TrackedUpdate.DeletedText(p.children) == (if Strip(oldText) != [] then ProtectTags(oldText) else []) &&
      TrackedUpdate.InsertedText(p.children) == (if Strip(newText) != [] then ProtectTags(newText) else [])
  {
    var f := FirstRunFormat(ps[0].children);
    var kept := Without(ps[0].children, Clearable);
    var blocks := RevisionBlocks(DelBlock(oldText, f), InsBlock(newText, f), author, date, rid);
    NoRunsKept(ps[0].children);
    BlocksHaveNoRuns(DelBlock(oldText, f), InsBlock(newText, f), author, date, rid);
    RunsAppend(kept, blocks);
    TrackedUpdate.TrackedTextsAppend(kept, blocks);
    BlocksReadBack(oldText, newText, f, author, date, rid);
  }

  /** `replace_cell_with_track_changes`. A failed check raises before anything is touched;
      otherwise the cell is rewritten and the next free revision id returned. */
  method ReplaceCell(cell: Cell, oldText: string, newText: string, author: string, date: string, rid: int)
    returns (outcome: Result<int, UpdateError>)
    modifies cell
    ensures outcome.Failure? <==> !Accepts(oldText, CurrentText(old(cell.paragraphs)))
    ensures outcome.Failure? ==> outcome.error == TextMismatch && unchanged(cell)
    ensures outcome.Success? ==>
      outcome.value == NextId(old(cell.paragraphs), oldText, newText, rid) &&
      cell.paragraphs == Rewrite(old(cell.paragraphs), oldText, newText, author, date, rid)
  {
    var current := CurrentText(cell.paragraphs);
    var oldProtected := ProtectTags(oldText);
    var currentProtected := ProtectTags(current);
    if Strip(oldText) != [] {
      if !Contains(currentProtected, oldProtected) {
        return Failure(TextMismatch);
      }
    }
    if |cell.paragraphs| == 0 {
      return Success(rid);
    }
    var f := FirstRunFormat(cell.paragraphs[0].children);
    cell.RemoveChildrenWhere(0, Clearable);
    var next := cell.AppendRevisions(0, DelBlock(oldText, f), InsBlock(newText, f), author, date, rid);
    outcome := Success(next);
  }

  // ---------------------------------------------------------------------
  // find_row_by_segment_id and update_translations

  /** Row `j`'s first cell as `get_cell_text` reads it from the cells `st`. */
  function FirstCellText(table: seq<Row>, st: TableState, j: nat): string
    requires CellsOf(table) <= st.Keys && j < |table| && |table[j].cells| > 0
  {
    CellInTable(table, j, 0);
    CurrentText(st[table[j].cells[0]])
  }

  /** The row `find_row_by_segment_id` settles on, scanning from row `i` of the table as
      the cells `st` hold it: the first row whose first cell reads, stripped, as `key`; a
      row without cells met first raises. */
  function FindRowFrom(table: seq<Row>, st: TableState, key: string, i: nat): (r: Result<nat, UpdateError>)
    requires CellsOf(table) <= st.Keys && i <= |table|
    ensures r.Success? ==> i <= r.value < |table| && |table[r.value].cells| > 0
    ensures r.Failure? ==> r.error == SegmentNotFound || r.error == NoFirstCell
    decreases |table| - i
  {
    if i == |table| then Failure(SegmentNotFound)
    else if |table[i].cells| == 0 then Failure(NoFirstCell)
    else if FirstCellText(table, st, i) == key then Success(i)
    else FindRowFrom(table, st, key, i + 1)
  }

  /** The row found reads as the key and every row from `i` before it has a first cell
      that does not. */
  lemma {:induction false} FindRowFromFound(table: seq<Row>, st: TableState, key: string, i: nat)
    requires CellsOf(table) <= st.Keys && i <= |table|
    ensures var r := FindRowFrom(table, st, key, i);
      r.Success? ==>
        FirstCellText(table, st, r.value) == key &&
        forall j :: i <= j < r.value ==> |table[j].cells| > 0 && FirstCellText(table, st, j) != key
    decreases |table| - i
  {
    if i < |table| && |table[i].cells| > 0 && FirstCellText(table, st, i) != key {
      FindRowFromFound(table, st, key, i + 1);
      var r := FindRowFrom(table, st, key, i + 1);
      assert FindRowFrom(table, st, key, i) == r;
      if r.Success? {
        forall j | i <= j < r.value
          ensures |table[j].cells| > 0 && FirstCellText(table, st, j) != key
        {
          if j > i {
            assert i + 1 <= j < r.value;
          }
        }
      }
    }
  }

  /** The search fails with `SegmentNotFound` exactly when every row from `i` has a first
      cell and none reads as the key. */
  lemma {:induction false} FindRowFromMissing(table: seq<Row>, st: TableState, key: string, i: nat)
    requires CellsOf(table) <= st.Keys && i <= |table|
    ensures FindRowFrom(table, st, key, i) == Failure(SegmentNotFound) <==>
      forall j :: i <= j < |table| ==> |table[j].cells| > 0 && FirstCellText(table, st, j) != key
    decreases |table| - i
  {
    if i < |table| && |table[i].cells| > 0 && FirstCellText(table, st, i) != key {
      FindRowFromMissing(table, st, key, i + 1);
      assert FindRowFrom(table, st, key, i) == FindRowFrom(table, st, key, i + 1);
      assert (forall j :: i <= j < |table| ==> |table[j].cells| > 0 && FirstCellText(table, st, j) != key) <==>
        (forall j :: i + 1 <= j < |table| ==> |table[j].cells| > 0 && FirstCellText(table, st, j) != key);
    } else if i < |table| {
      assert FindRowFrom(table, st, key, i) != Failure(SegmentNotFound);
    }
  }

  /** `find_row_by_segment_id`: scans from row 0, header included, for the first row whose
      first cell reads, stripped, as the stripped id. Reaching a row without cells raises. */
  method FindRow(table: seq<Row>, id: string) returns (r: Result<nat, UpdateError>)
    ensures r == FindRowFrom(table, StateOf(table), Strip(id), 0)
  {
    var key := Strip(id);
    var i := 0;
    while i < |table|
      invariant 0 <= i <= |table|
      invariant FindRowFrom(table, StateOf(table), key, 0) == FindRowFrom(table, StateOf(table), key, i)
    {
      if |table[i].cells| == 0 {
        return Failure(NoFirstCell);
      }
      CellInTable(table, i, 0);
      if CurrentText(table[i].cells[0].paragraphs) == key {
        return Success(i);
      }
      i := i + 1;
    }
    return Failure(SegmentNotFound);
  }

  /** The id an entry is reported under: `segment_id`, or `"Unknown"` without one. */
  function SegmentIdOf(entry: Record): string
  {
    GetOr(entry, "segment_id", "Unknown")
  }

  function OldTextOf(entry: Record): string
  {
    GetOr(entry, "old_text", "")
  }

  function NewTextOf(entry: Record): string
  {
    GetOr(entry, "new_text", "")
  }

  /** What the loop has done so far: the cells, the success count, the failures in order
      with the id each was reported under, and the next revision id. */
  datatype Progress = Progress(state: TableState, successful: nat, failed: seq<(string, UpdateError)>, rid: int)

  /** `p` with a failure recorded under the entry's id. */
  function Failed(p: Progress, entry: Record, e: UpdateError): Progress
  {
    p.(failed := p.failed + [(SegmentIdOf(entry), e)])
  }

  /** The `try` block for one entry: find the row, check it has a fourth cell, check that
      cell's reading and rewrite it; an exception anywhere records a failure under the
      entry's id and leaves the cells and the revision id as they were. */
  function Step(table: seq<Row>, author: string, date: string, entry: Record, p: Progress): (q: Progress)
    requires CellsOf(table) <= p.state.Keys
    ensures q.state.Keys == p.state.Keys
    ensures (q.successful == p.successful + 1 && |q.failed| == |p.failed| && p.rid <= q.rid <= p.rid + 2) ||
      (q.successful == p.successful && |q.failed| == |p.failed| + 1 && q.rid == p.rid && q.state == p.state)
    ensures forall c :: c in p.state && c !in ColumnCells(table, 3) ==> q.state[c] == p.state[c]
  {
    match FindRowFrom(table, p.state, Strip(SegmentIdOf(entry)), 0)
    case Failure(e) => Failed(p, entry, e)
    case Success(r) =>
      if |table[r].cells| < 4 then Failed(p, entry, TooFewColumns)
      else
        CellInTable(table, r, 3);
        var c := table[r].cells[3];
        assert c in ColumnCells(table, 3);
        var ps := p.state[c];
        if !Accepts(OldTextOf(entry), CurrentText(ps)) then Failed(p, entry, TextMismatch)
        else Progress(p.state[c := Rewrite(ps, OldTextOf(entry), NewTextOf(entry), author, date, p.rid)],
          p.successful + 1, p.failed, NextId(ps, OldTextOf(entry), NewTextOf(entry), p.rid))
  }

  /** The loop over the first `n` entries, from the cells `start` and revision id 0: every
      entry is a success or a failure, the revision id never exceeds two per success, only
      fourth cells change, and a batch without a success leaves the document as it was. */
  function Batch(table: seq<Row>, author: string, date: string, entries: seq<Record>, n: nat, start: TableState): (q: Progress)
    requires CellsOf(table) <= start.Keys && n <= |entries|
    ensures q.state.Keys == start.Keys
    ensures q.successful + |q.failed| == n && 0 <= q.rid <= 2 * q.successful
    ensures q.successful == 0 ==> q.state == start
    ensures forall c :: c in start && c !in ColumnCells(table, 3) ==> q.state[c] == start[c]
  {
    if n == 0 then Progress(start, 0, [], 0)
    else Step(table, author, date, entries[n - 1], Batch(table, author, date, entries, n - 1, start))
  }

  /** An entry succeeds exactly when its row is found, has a fourth cell, and that cell (as
      the earlier entries left it) passes the check; a failure is recorded under the
      entry's id and changes nothing else, and a success rewrites the fourth cell of the
      row found and moves the revision id past the blocks written. */
  lemma StepOutcome(table: seq<Row>, author: string, date: string, entry: Record, p: Progress)
    requires CellsOf(table) <= p.state.Keys
    ensures var q := Step(table, author, date, entry, p);
      var r := FindRowFrom(table, p.state, Strip(SegmentIdOf(entry)), 0);
      (q.successful == p.successful + 1 <==>
        r.Success? && |table[r.value].cells| >= 4 && table[r.value].cells[3] in p.state &&
        Accepts(OldTextOf(entry), CurrentText(p.state[table[r.value].cells[3]]))) &&
      (q.successful == p.successful ==>
        q.state == p.state && q.rid == p.rid && |q.failed| == |p.failed| + 1 &&
        q.failed[..|p.failed|] == p.failed && q.failed[|p.failed|].0 == SegmentIdOf(entry)) &&
      (q.successful == p.successful + 1 ==>
        var c := table[r.value].cells[3];
        q.failed == p.failed && q.rid == NextId(p.state[c], OldTextOf(entry), NewTextOf(entry), p.rid) &&
        q.state == p.state[c := Rewrite(p.state[c], OldTextOf(entry), NewTextOf(entry), author, date, p.rid)])
  {
    var r := FindRowFrom(table, p.state, Strip(SegmentIdOf(entry)), 0);
    if r.Success? && |table[r.value].cells| >= 4 {
      CellInTable(table, r.value, 3);
    }
  }

  /** `replace_cell_with_track_changes` on a cell of the table, seen on the whole table. */
  method EditTarget(table: seq<Row>, cell: Cell, oldText: string, newText: string, author: string, date: string, rid: int)
    returns (outcome: Result<int, UpdateError>)
    requires cell in CellsOf(table)
    modifies cell
    ensures var before := old(StateOf(table));
      (outcome.Failure? <==> !Accepts(oldText, CurrentText(before[cell]))) &&
      (outcome.Failure? ==> outcome.error == TextMismatch && StateOf(table) == before) &&
      (outcome.Success? ==>
        outcome.value == NextId(before[cell], oldText, newText, rid) &&
        StateOf(table) == before[cell := Rewrite(before[cell], oldText, newText, author, date, rid)])
  {
    ghost var before := StateOf(table);
    outcome := ReplaceCell(cell, oldText, newText, author, date, rid);
    EditedOneCell(table, before, cell);
  }

  /** The `try` block of `update_translations` for one entry, on the cells as the table
      holds them. */
  method ApplyEntry(table: seq<Row>, author: string, date: string, entry: Record,
                    successful: nat, failed: seq<(string, UpdateError)>, rid: int)
    returns (successful': nat, failed': seq<(string, UpdateError)>, rid': int)
    modifies CellsOf(table)
    ensures Progress(StateOf(table), successful', failed', rid') ==
      Step(table, author, date, entry, old(Progress(StateOf(table), successful, failed, rid)))
  {
    StepOutcome(table, author, date, entry, Progress(StateOf(table), successful, failed, rid));
    successful', failed', rid' := successful, failed, rid;
    var segmentId := SegmentIdOf(entry);
    var found := FindRow(table, segmentId);
    if found.Failure? {
      failed' := failed + [(segmentId, found.error)];
      return;
    }
    var at := found.value;
    if |table[at].cells| < 4 {
      failed' := failed + [(segmentId, TooFewColumns)];
      return;
    }
    CellInTable(table, at, 3);
    var outcome := EditTarget(table, table[at].cells[3], OldTextOf(entry), NewTextOf(entry), author, date, rid);
    if outcome.Failure? {
      failed' := failed + [(segmentId, outcome.error)];
      return;
    }
    successful', rid' := successful + 1, outcome.value;
  }

  /** The loop of `update_translations`, with revision ids from 0: the cells, the success
      count, the failures and the next revision id are those of `Batch` over every entry. */
  method UpdateTranslations(table: seq<Row>, translations: seq<Record>, author: string, date: string)
    returns (successful: nat, failed: seq<(string, UpdateError)>, nextId: int)
    modifies CellsOf(table)
    ensures Progress(StateOf(table), successful, failed, nextId) ==
      Batch(table, author, date, translations, |translations|, old(StateOf(table)))
  {
    ghost var start := StateOf(table);
    successful, failed, nextId := 0, [], 0;
    var k := 0;
    while k < |translations|
      invariant 0 <= k <= |translations|
      invariant Batch(table, author, date, translations, k, start) == Progress(StateOf(table), successful, failed, nextId)
    {
      successful, failed, nextId := ApplyEntry(table, author, date, translations[k], successful, failed, nextId);
      k := k + 1;
    }
  }

  // ---------------------------------------------------------------------
  // restore_tags_in_document

  /** `if run.text: run.text = restore_tags(run.text)`. */
  function RestoredRun(r: Run): Run
  {
    if RunText(r) != [] then WithText(r, RestoreTags(RunText(r))) else r
  }

  function RestoredNode(n: Node): Node
  {
    if n.R? then R(RestoredRun(n.run)) else n
  }

  /** A paragraph's children with every direct run restored; nothing else changes. */
  function RestoredChildren(cs: seq<Node>): (r: seq<Node>)
    ensures |r| == |cs|
    ensures forall k :: 0 <= k < |cs| ==> r[k] == RestoredNode(cs[k])
  {
    if cs == [] then [] else [RestoredNode(cs[0])] + RestoredChildren(cs[1..])
  }

  function RestoredParagraphs(ps: seq<Paragraph>): (r: seq<Paragraph>)
    ensures |r| == |ps|
    ensures forall i :: 0 <= i < |ps| ==> r[i] == Paragraph(RestoredChildren(ps[i].children))
  {
    seq(|ps|, i requires 0 <= i < |ps| => Paragraph(RestoredChildren(ps[i].children)))
  }

  /** A restored run keeps its properties and reads as the restored text, with any carriage
      return read back as a line feed since the setter writes both as `w:br`. */
  lemma RestoredRunReads(r: Run)
    ensures RunText(RestoredRun(r)) == CrToLf(RestoreTags(RunText(r))) && RestoredRun(r).rPr == r.rPr
  {
    if RunText(r) != [] {
      WithTextReadsBack(r, RestoreTags(RunText(r)));
    }
  }

  /** Restoring the tags of text that was restored and written back changes nothing more. */
  lemma RestoreCrToLfIdempotent(t: string)
    ensures CrToLf(RestoreTags(CrToLf(RestoreTags(t)))) == CrToLf(RestoreTags(t))
  {
    var x := RestoreTags(t);
    var y := CrToLf(x);
    CrToLfPointwise(x);
    CrToLfPointwise(RestoreTags(y));
    assert forall i :: 0 <= i < |y| ==> CrToLf(RestoreTags(y))[i] == y[i];
  }

  /** Restoring a run twice is restoring it once. */
  lemma RestoredRunIdempotent(r: Run)
    ensures RestoredRun(RestoredRun(r)) == RestoredRun(r)
  {
    if RunText(r) != [] {
      var x := RestoreTags(RunText(r));
      var y := CrToLf(x);
      WithTextReadsBack(r, x);
      CrToLfPointwise(x);
      assert RunText(RestoredRun(r)) == y != [];
      RestoreCrToLfIdempotent(RunText(r));
      LineItemsCrToLf(RestoreTags(y));
      LineItemsCrToLf(x);
    }
  }

  /** Restoring a cell twice is restoring it once, so a cell reached twice through merged
      cells ends up the same as a cell reached once. */
  lemma RestoredParagraphsIdempotent(ps: seq<Paragraph>)
    ensures RestoredParagraphs(RestoredParagraphs(ps)) == RestoredParagraphs(ps)
  {
    var once := RestoredParagraphs(ps);
    var twice := RestoredParagraphs(once);
    forall i | 0 <= i < |ps|
      ensures twice[i] == once[i]
    {
      var cs := ps[i].children;
      forall k | 0 <= k < |cs|
        ensures RestoredNode(RestoredNode(cs[k])) == RestoredNode(cs[k])
      {
        if cs[k].R? {
          RestoredRunIdempotent(cs[k].run);
        }
      }
      assert RestoredChildren(RestoredChildren(cs)) == RestoredChildren(cs);
    }
  }

  lemma {:induction false} RestoredChildrenText(cs: seq<Node>)
    ensures RunsText(Runs(RestoredChildren(cs))) == CrToLf(RestoreTags(RunsText(Runs(cs))))
  {
    if cs != [] {
      RestoredChildrenText(cs[1..]);
      var c := cs[0];
      var rest := RestoredChildren(cs[1..]);
      assert RestoredChildren(cs) == [RestoredNode(c)] + rest;
      assert cs == [c] + cs[1..];
      RunsAppend([RestoredNode(c)], rest);
      RunsAppend([c], cs[1..]);
      if c.R? {
        RestoredRunReads(c.run);
        assert Runs([RestoredNode(c)]) == [RestoredRun(c.run)];
        assert Runs([c]) == [c.run];
        assert RunsText([RestoredRun(c.run)] + Runs(rest)) == RunText(RestoredRun(c.run)) + RunsText(Runs(rest));
        assert RunsText([c.run] + Runs(cs[1..])) == RunText(c.run) + RunsText(Runs(cs[1..]));
        RestoreAppend(RunText(c.run), RunsText(Runs(cs[1..])));
        CrToLfAppend(RestoreTags(RunText(c.run)), RestoreTags(RunsText(Runs(cs[1..]))));
      } else {
        assert Runs([RestoredNode(c)]) == [] && Runs([c]) == [];
        assert [] + Runs(rest) == Runs(rest);
        assert [] + Runs(cs[1..]) == Runs(cs[1..]);
      }
    }
  }

  lemma {:induction false} RestoreJoinLines(ts: seq<string>, us: seq<string>)
    requires |ts| == |us|
    requires forall i :: 0 <= i < |ts| ==> us[i] == CrToLf(RestoreTags(ts[i]))
    ensures Join("\n", us) == CrToLf(RestoreTags(Join("\n", ts)))
  {
    if |ts| > 1 {
      RestoreJoinLines(ts[1..], us[1..]);
      RestoreAppend(ts[0] + "\n", Join("\n", ts[1..]));
      RestoreAppend(ts[0], "\n");
      assert RestoreTags("\n") == "\n";
      CrToLfAppend(RestoreTags(ts[0]) + "\n", RestoreTags(Join("\n", ts[1..])));
      CrToLfAppend(RestoreTags(ts[0]), "\n");
      assert CrToLf("\n") == "\n" + CrToLf([]);
    }
  }

  /** After the restoration the cell reads as its old reading with the tags restored (and
      any carriage return turned into a line feed by the setter), and therefore holds no
      protection mark. */
  lemma RestoredCellText(ps: seq<Paragraph>)
    ensures CellText(RestoredParagraphs(ps)) == CrToLf(RestoreTags(CellText(ps)))
    ensures OpenMark !in CellText(RestoredParagraphs(ps)) && CloseMark !in CellText(RestoredParagraphs(ps))
  {
    var r := RestoredParagraphs(ps);
    forall i | 0 <= i < |ps|
      ensures ParagraphText(r[i]) == CrToLf(RestoreTags(ParagraphText(ps[i])))
    {
      RestoredChildrenText(ps[i].children);
    }
    RestoreJoinLines(ParagraphTexts(ps), ParagraphTexts(r));
    RestoredHasNoMarks(CellText(ps));
    CrToLfPointwise(RestoreTags(CellText(ps)));
  }

  /** The run loop over one cell: every direct run with text gets its text restored. */
  method RestoreCell(cell: Cell)
    modifies cell
    ensures cell.paragraphs == RestoredParagraphs(old(cell.paragraphs))
  {
    ghost var ps0 := cell.paragraphs;
    var i := 0;
    while i < |cell.paragraphs|
      invariant |cell.paragraphs| == |ps0| && 0 <= i <= |ps0|
      invariant forall j :: 0 <= j < |ps0| ==>
        cell.paragraphs[j] == if j < i then Paragraph(RestoredChildren(ps0[j].children)) else ps0[j]
    {
      ghost var cs := ps0[i].children;
      var k := 0;
      while k < |cell.paragraphs[i].children|
        invariant |cell.paragraphs| == |ps0|
        invariant forall j :: 0 <= j < |ps0| && j != i ==>
          cell.paragraphs[j] == if j < i then Paragraph(RestoredChildren(ps0[j].children)) else ps0[j]
        invariant |cell.paragraphs[i].children| == |cs| && 0 <= k <= |cs|
        invariant forall m :: 0 <= m < |cs| ==>
          cell.paragraphs[i].children[m] == if m < k then RestoredNode(cs[m]) else cs[m]
      {
        var n := cell.paragraphs[i].children[k];
        if n.R? && RunText(n.run) != [] {
          cell.SetRunText(i, k, RestoreTags(RunText(n.run)));
        }
        k := k + 1;
      }
      assert cell.paragraphs[i].children == RestoredChildren(cs);
      i := i + 1;
    }
  }

  /** Every cell of every table, each once however many rows reach it. */
  function DocumentCells(tables: seq<seq<Row>>): set<Cell>
  {
    set t, c | t in tables && c in CellsOf(t) :: c
  }

  /** The cells in `visited` are restored from their state in `before`; the others still
      hold it. */
  ghost predicate RestoredSoFar(before: map<Cell, seq<Paragraph>>, visited: set<Cell>)
    reads before.Keys
  {
    forall c :: c in before ==> c.paragraphs == if c in visited then RestoredParagraphs(before[c]) else before[c]
  }

  /** The cell loop of one row. A cell reached before, through another row, is restored
      again, which changes nothing. */
  method RestoreRow(cells: seq<Cell>, ghost before: map<Cell, seq<Paragraph>>, ghost visited: set<Cell>)
    returns (ghost done: set<Cell>)
    requires forall j :: 0 <= j < |cells| ==> cells[j] in before
    requires visited <= before.Keys && RestoredSoFar(before, visited)
    modifies cells
    ensures visited <= done <= before.Keys && RestoredSoFar(before, done)
    ensures forall j :: 0 <= j < |cells| ==> cells[j] in done
  {
    done := visited;
    var j := 0;
    while j < |cells|
      invariant 0 <= j <= |cells|
      invariant visited <= done <= before.Keys && RestoredSoFar(before, done)
      invariant forall j' :: 0 <= j' < j ==> cells[j'] in done
    {
      var c := cells[j];
      RestoreCell(c);
      if c in done {
        RestoredParagraphsIdempotent(before[c]);
      }
      done := done + {c};
      j := j + 1;
    }
  }

  /** The row loop of one table. */
  method RestoreTable(table: seq<Row>, ghost before: map<Cell, seq<Paragraph>>, ghost visited: set<Cell>)
    returns (ghost done: set<Cell>)
    requires CellsOf(table) <= before.Keys
    requires visited <= before.Keys && RestoredSoFar(before, visited)
    modifies CellsOf(table)
    ensures visited <= done <= before.Keys && RestoredSoFar(before, done)
    ensures CellsOf(table) <= done
  {
    done := visited;
    var i := 0;
    while i < |table|
      invariant 0 <= i <= |table|
      invariant visited <= done <= before.Keys && RestoredSoFar(before, done)
      invariant forall i', c :: 0 <= i' < i && c in table[i'].cells ==> c in done
    {
      forall j | 0 <= j < |table[i].cells|
        ensures table[i].cells[j] in before
      {
        CellInTable(table, i, j);
      }
      assert forall c :: c in table[i].cells ==> c in CellsOf(table) by {
        forall c | c in table[i].cells
          ensures c in CellsOf(table)
        {
          var r := table[i];
          assert r in table;
        }
      }
      done := RestoreRow(table[i].cells, before, done);
      i := i + 1;
    }
  }

  /** `restore_tags_in_document`: every table, row and cell in turn. A cell reached twice
      is restored twice, which is the same as once. */
  method RestoreTagsInDocument(tables: seq<seq<Row>>)
    modifies DocumentCells(tables)
    ensures forall c :: c in DocumentCells(tables) ==> c.paragraphs == RestoredParagraphs(old(c.paragraphs))
  {
    ghost var before := map c | c in DocumentCells(tables) :: c.paragraphs;
    ghost var visited: set<Cell> := {};
    var t := 0;
    while t < |tables|
      invariant 0 <= t <= |tables|
      invariant visited <= before.Keys && RestoredSoFar(before, visited)
      invariant forall t', c :: 0 <= t' < t && c in CellsOf(tables[t']) ==> c in visited
    {
      assert tables[t] in tables;
      visited := RestoreTable(tables[t], before, visited);
      t := t + 1;
    }
  }
}
