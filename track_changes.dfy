/**
 * The first tracked-change script. For every revised translation it takes the
 * row by position, and in the fourth cell's first paragraph replaces every
 * run, revision, hyperlink and bookmark by a tracked deletion of the whole
 * cell text and a tracked insertion of the revised text. It checks nothing
 * against an expected old text, copies no formatting, and numbers the
 * revisions 0, 1, 2, ... over the whole batch.
 */
module TrackChanges {
  import opened Wrappers
  import opened Text
  import opened Docx
  import SimpleUpdate
  import TrackedUpdate

  /** One entry of the revisions file: its `row_index` and its `revised_text`, each `None`
      when the entry lacks that key. */
  datatype RevisedTranslation = RevisedTranslation(rowIndex: Option<int>, revisedText: Option<string>)

  /** What ends the batch: the `KeyError` of an entry without `row_index` or without
      `revised_text` (looked up in that order), the `IndexError`s of a row index below
      `-len(rows)` or of a row without a fourth cell, and the `ValueError` of a document
      without tables. */
  datatype TrackError = MissingKey(key: string) | RowIndexError | CellIndexError | NoTable

  // ---------------------------------------------------------------------
  // replace_cell_with_track_changes

  /** `create_delete_element`'s run: no formatting and one `w:delText`; written only when
      the stripped cell text is not empty. */
  function DelBlock(original: string): Option<Run>
  {
    if original != [] then Some(Run(None, [DelText(original)])) else None
  }

  /** `create_insert_element`'s run: no formatting and one `w:t` holding the new text as
      given; written only when its stripped form is not empty. */
  function InsBlock(newText: string): Option<Run>
  {
    if Strip(newText) != [] then Some(Run(None, [T(newText)])) else None
  }

  /** `run.text = ''` on a direct run. */
  function BlankedNode(n: Node): Node
  {
    if n.R? then R(WithText(n.run, "")) else n
  }

  function BlankedChildren(cs: seq<Node>): (r: seq<Node>)
    ensures |r| == |cs|
    ensures forall k :: 0 <= k < |cs| ==> r[k] == BlankedNode(cs[k])
  {
    seq(|cs|, k requires 0 <= k < |cs| => BlankedNode(cs[k]))
  }

  /** The blocks the edit appends to a cell whose paragraphs are `ps`; none without a
      paragraph. */
  function Blocks(ps: seq<Paragraph>, newText: string, author: string, date: string, rid: int): seq<Node>
  {
    if ps == [] then []
    else RevisionBlocks(DelBlock(SimpleUpdate.CurrentText(ps)), InsBlock(newText), author, date, rid)
  }

  /** The cell after the edit: nothing changes without paragraphs; otherwise paragraph 0
      loses its clearable children, has the texts of its remaining direct runs blanked, and
      gains the blocks. */
  function Rewrite(ps: seq<Paragraph>, newText: string, author: string, date: string, rid: int): seq<Paragraph>
  {
    if ps == [] then ps
    else
      var cleared := BlankedChildren(Without(ps[0].children, SimpleUpdate.Clearable));
      AppendTo(ps[0 := Paragraph(cleared)], 0, Blocks(ps, newText, author, date, rid))
  }

  /** The revision id after the edit. */
  function NextId(ps: seq<Paragraph>, newText: string, rid: int): (next: int)
    ensures rid <= next <= rid + 2
  {
    if ps == [] then rid
    else rid + BlockCount(DelBlock(SimpleUpdate.CurrentText(ps)), InsBlock(newText))
  }

  /** A child list without direct runs holds no run node. */
  lemma {:induction false} NoRunNodes(cs: seq<Node>)
    requires Runs(cs) == []
    ensures forall k :: 0 <= k < |cs| ==> !cs[k].R?
  {
    if cs != [] {
      assert cs == [cs[0]] + cs[1..];
      RunsAppend([cs[0]], cs[1..]);
      NoRunNodes(cs[1..]);
      forall k | 1 <= k < |cs|
        ensures !cs[k].R?
      {
        assert cs[k] == cs[1..][k - 1];
      }
    }
  }

  /** Blanking the run texts after the clearing changes nothing: no direct run is left. */
  lemma BlankingIsIdle(children: seq<Node>)
    ensures BlankedChildren(Without(children, SimpleUpdate.Clearable)) == Without(children, SimpleUpdate.Clearable)
  {
    SimpleUpdate.NoRunsKept(children);
    NoRunNodes(Without(children, SimpleUpdate.Clearable));
  }

  /** Paragraph 0 keeps exactly its children that are not cleared, in order, followed by
      the blocks; every other paragraph is untouched. */
  lemma RewriteShape(ps: seq<Paragraph>, newText: string, author: string, date: string, rid: int)
    requires ps != []
    ensures var r := Rewrite(ps, newText, author, date, rid);
      |r| == |ps| &&
      (forall j :: 1 <= j < |ps| ==> r[j] == ps[j]) &&
      r[0].children == Without(ps[0].children, SimpleUpdate.Clearable) + Blocks(ps, newText, author, date, rid)
  {
    BlankingIsIdle(ps[0].children);
  }

  /** A deletion is written iff the stripped cell text is not empty, an insertion iff the
      stripped new text is not empty, and the revision id moves by one per block. */
  lemma NextIdCounts(ps: seq<Paragraph>, newText: string, rid: int)
    ensures NextId(ps, newText, rid) ==
      if ps == [] then rid
      else rid + (if SimpleUpdate.CurrentText(ps) != [] then 1 else 0) + (if Strip(newText) != [] then 1 else 0)
  {
  }

  /** The blocks, read by the tracked-change reader, give back the stripped cell text as
      `w:delText` and the new text as `w:t`, each only when it is written. */
  lemma BlocksReadBack(original: string, newText: string, author: string, date: string, rid: int)
    ensures var b := RevisionBlocks(DelBlock(original), InsBlock(newText), author, date, rid);
      TrackedUpdate.DeletedText(b) == original &&
      TrackedUpdate.InsertedText(b) == (if Strip(newText) != [] then newText else [])
  {
    TrackedUpdate.BlocksReadBack(DelBlock(original), InsBlock(newText), author, date, rid);
    assert TrackedUpdate.DelTextOf([DelText(original)]) == original + TrackedUpdate.DelTextOf([]);
    assert TrackedUpdate.TTextOf([T(newText)]) == newText + TrackedUpdate.TTextOf([]);
  }

  /** No block run carries formatting, unlike the later scripts, which copy it. */
  lemma BlocksUnformatted(original: string, newText: string, author: string, date: string, rid: int)
    ensures var b := RevisionBlocks(DelBlock(original), InsBlock(newText), author, date, rid);
      forall k :: 0 <= k < |b| ==> |b[k].rev.runs| == 1 && b[k].rev.runs[0].rPr == None
  {
    RevisionBlocksShape(DelBlock(original), InsBlock(newText), author, date, rid);
  }

  /** After the edit paragraph 0 holds no direct run and reads as empty; its deletion holds
      the whole stripped cell text as it was, and its insertion the new text as given. */
  lemma RewriteReadsBack(ps: seq<Paragraph>, newText: string, author: string, date: string, rid: int)
    requires ps != []
    ensures var p := Rewrite(ps, newText, author, date, rid)[0];
      Runs(p.children) == [] && ParagraphText(p) == [] &&
      TrackedUpdate.DeletedText(p.children) == SimpleUpdate.CurrentText(ps) &&
      TrackedUpdate.InsertedText(p.children) == (if Strip(newText) != [] then newText else [])
  {
    var original := SimpleUpdate.CurrentText(ps);
    var kept := Without(ps[0].children, SimpleUpdate.Clearable);
    var blocks := RevisionBlocks(DelBlock(original), InsBlock(newText), author, date, rid);
    RewriteShape(ps, newText, author, date, rid);
    SimpleUpdate.NoRunsKept(ps[0].children);
    SimpleUpdate.BlocksHaveNoRuns(DelBlock(original), InsBlock(newText), author, date, rid);
    RunsAppend(kept, blocks);
    TrackedUpdate.TrackedTextsAppend(kept, blocks);
    BlocksReadBack(original, newText, author, date, rid);
  }

  /** `for run in paragraph.runs: run.text = ''` on paragraph `pi`. */
  method BlankRunTexts(cell: Cell, pi: nat)
    requires pi < |cell.paragraphs|
    modifies cell
    ensures cell.paragraphs == old(cell.paragraphs)[pi := Paragraph(BlankedChildren(old(cell.paragraphs[pi].children)))]
  {
    ghost var ps0 := cell.paragraphs;
    ghost var cs := ps0[pi].children;
    var k := 0;
    while k < |cell.paragraphs[pi].children|
      invariant |cell.paragraphs| == |ps0| && |cell.paragraphs[pi].children| == |cs| && 0 <= k <= |cs|
      invariant forall j :: 0 <= j < |ps0| && j != pi ==> cell.paragraphs[j] == ps0[j]
      invariant forall m :: 0 <= m < |cs| ==>
        cell.paragraphs[pi].children[m] == if m < k then BlankedNode(cs[m]) else cs[m]
    {
      if cell.paragraphs[pi].children[k].R? {
        cell.SetRunText(pi, k, "");
      }
      k := k + 1;
    }
    assert cell.paragraphs[pi].children == BlankedChildren(cs);
    UpdatedAt(cell.paragraphs, ps0, pi, Paragraph(BlankedChildren(cs)));
  }

  /** `replace_cell_with_track_changes`: no check of any kind; the cell is rewritten and
      the next free revision id returned. */
  method ReplaceCell(cell: Cell, newText: string, author: string, date: string, rid: int) returns (next: int)
    modifies cell
    ensures next == NextId(old(cell.paragraphs), newText, rid)
    ensures cell.paragraphs == Rewrite(old(cell.paragraphs), newText, author, date, rid)
  {
    var original := SimpleUpdate.CurrentText(cell.paragraphs);
    if |cell.paragraphs| == 0 {
      return rid;
    }
    cell.RemoveChildrenWhere(0, SimpleUpdate.Clearable);
    BlankRunTexts(cell, 0);
    next := cell.AppendRevisions(0, DelBlock(original), InsBlock(newText), author, date, rid);
  }

  // ---------------------------------------------------------------------
  // apply_track_changes_to_translation

  /** `table.rows[i]`: Python indexing, from the end for a negative index. */
  function RowAt(i: int, n: nat): (r: Option<nat>)
    ensures r.Some? <==> -(n as int) <= i < n
    ensures r.Some? ==> r.value < n && (if i >= 0 then r.value == i else r.value == n + i)
  {
    if 0 <= i < n then Some(i) else if -(n as int) <= i < 0 then Some(n + i) else None
  }

  /** A row index the range check lets through and whose target cell cannot be reached. */
  predicate BadTarget(table: seq<Row>, i: int)
  {
    i < |table| && (RowAt(i, |table|).None? || |table[RowAt(i, |table|).value].cells| < 4)
  }

  /** A revision that raises: it lacks a key, or its target cell cannot be reached. */
  predicate Raises(table: seq<Row>, rev: RevisedTranslation)
  {
    rev.rowIndex.None? || rev.revisedText.None? || BadTarget(table, rev.rowIndex.value)
  }

  /** A revision with both keys whose row index passes the range check. */
  predicate Processed(rev: RevisedTranslation, n: nat)
  {
    rev.rowIndex.Some? && rev.revisedText.Some? && rev.rowIndex.value < n
  }

  lemma CountStep(revs: seq<RevisedTranslation>, k: nat, n: nat)
    requires k < |revs|
    ensures CountProcessed(revs[..k + 1], n) == CountProcessed(revs[..k], n) + (if Processed(revs[k], n) then 1 else 0)
  {
    assert revs[..k + 1][..k] == revs[..k];
  }

  /** The number of revisions the loop neither skips nor stops at for a missing key. */
  function CountProcessed(revs: seq<RevisedTranslation>, n: nat): (c: nat)
    ensures c <= |revs|
  {
    if revs == [] then 0
    else CountProcessed(revs[..|revs| - 1], n) + (if Processed(revs[|revs| - 1], n) then 1 else 0)
  }

  /** Where the loop stands: the cells, the revision id counter, every block appended so
      far in order, and the error that ended the batch, if any. */
  datatype Pass = Pass(state: TableState, rid: int, written: seq<Node>, error: Option<TrackError>)

  /** One pass of the loop. After an error nothing more happens; a missing key raises; a
      revision whose row index is at least the row count is skipped; an unreachable target
      raises; otherwise the fourth cell is rewritten and its blocks appended with the ids
      from the counter on. */
  function Step(table: seq<Row>, author: string, date: string, rev: RevisedTranslation, p: Pass): (q: Pass)
    requires CellsOf(table) <= p.state.Keys
    ensures q.state.Keys == p.state.Keys
    ensures q.error.None? <==> p.error.None? && !Raises(table, rev)
    ensures p.error.Some? ==> q == p
    ensures forall c :: c in p.state && c !in ColumnCells(table, 3) ==> q.state[c] == p.state[c]
  {
    if p.error.Some? then p
    else if rev.rowIndex.None? then p.(error := Some(MissingKey("row_index")))
    else if rev.revisedText.None? then p.(error := Some(MissingKey("revised_text")))
    else if rev.rowIndex.value >= |table| then p
    else
      var text := rev.revisedText.value;
      match RowAt(rev.rowIndex.value, |table|)
      case None => p.(error := Some(RowIndexError))
      case Some(r) =>
        if |table[r].cells| < 4 then p.(error := Some(CellIndexError))
        else
          CellInTable(table, r, 3);
          var c := table[r].cells[3];
          assert c in ColumnCells(table, 3);
          var ps := p.state[c];
          Pass(p.state[c := Rewrite(ps, text, author, date, p.rid)], NextId(ps, text, p.rid),
               p.written + Blocks(ps, text, author, date, p.rid), None)
  }

  /** A pass appends at most two blocks, none when skipped or stopped, with the ids from
      the counter on, and moves the counter past them. */
  lemma StepWritten(table: seq<Row>, author: string, date: string, rev: RevisedTranslation, p: Pass)
    requires CellsOf(table) <= p.state.Keys
    ensures var q := Step(table, author, date, rev, p);
      var added := q.written[|p.written|..];
      |p.written| <= |q.written| && q.written == p.written + added &&
      q.rid == p.rid + |added| && IdsFrom(added, p.rid) &&
      |added| <= (if p.error.None? && Processed(rev, |table|) then 2 else 0)
  {
    var q := Step(table, author, date, rev, p);
    if p.error.None? && Processed(rev, |table|) && !BadTarget(table, rev.rowIndex.value) {
      var r := RowAt(rev.rowIndex.value, |table|);
      var text := rev.revisedText.value;
      CellInTable(table, r.value, 3);
      var ps := p.state[table[r.value].cells[3]];
      var blocks := Blocks(ps, text, author, date, p.rid);
      RevisionBlocksShape(DelBlock(SimpleUpdate.CurrentText(ps)), InsBlock(text), author, date, p.rid);
      assert q.written == p.written + blocks;
      assert q.written[|p.written|..] == blocks;
    } else {
      assert q.written[|p.written|..] == [];
    }
  }

  /** The loop over the first `n` revisions, from the cells `start` and id 0. The batch
      ends without error exactly when none of those revisions lacks a key or has an
      unreachable target;
      the blocks appended carry the ids 0, 1, 2, ... in order, the counter is their
      number, a skipped revision adds none, and only fourth cells change. */
  function Batch(table: seq<Row>, author: string, date: string, revs: seq<RevisedTranslation>, n: nat,
                 start: TableState): (q: Pass)
    requires CellsOf(table) <= start.Keys && n <= |revs|
    ensures q.state.Keys == start.Keys
    ensures q.error.None? <==> forall m :: 0 <= m < n ==> !Raises(table, revs[m])
    ensures q.rid == |q.written| && IdsFrom(q.written, 0)
    ensures |q.written| <= 2 * CountProcessed(revs[..n], |table|)
    ensures forall c :: c in start && c !in ColumnCells(table, 3) ==> q.state[c] == start[c]
  {
    if n == 0 then Pass(start, 0, [], None)
    else
      var p := Batch(table, author, date, revs, n - 1, start);
      var q := Step(table, author, date, revs[n - 1], p);
      StepWritten(table, author, date, revs[n - 1], p);
      CountStep(revs, n - 1, |table|);
      assert q.written == p.written + q.written[|p.written|..];
      IdsAppend(p.written, q.written[|p.written|..], 0);
      q
  }

  /** Once a revision has raised, the later ones change nothing. */
  lemma {:induction false} BatchStopped(table: seq<Row>, author: string, date: string, revs: seq<RevisedTranslation>,
                                        k: nat, n: nat, start: TableState)
    requires CellsOf(table) <= start.Keys && k <= n <= |revs|
    requires Batch(table, author, date, revs, k, start).error.Some?
    ensures Batch(table, author, date, revs, n, start) == Batch(table, author, date, revs, k, start)
    decreases n - k
  {
    if k < n {
      BatchStopped(table, author, date, revs, k + 1, n, start);
    }
  }

  /** A revision without `row_index`, or with it but without `revised_text`, raises a
      `KeyError` for that key; one whose row index is at or past the row count is skipped;
      one whose target cannot be reached raises the matching `IndexError`; in each of these
      cases the cells and the counter stay as they are. A revision that reaches a fourth
      cell rewrites it as `replace_cell_with_track_changes` does and moves the counter past
      its blocks. */
  lemma StepOutcome(table: seq<Row>, author: string, date: string, rev: RevisedTranslation, p: Pass)
    requires CellsOf(table) <= p.state.Keys && p.error.None?
    ensures var q := Step(table, author, date, rev, p);
      (rev.rowIndex.None? ==> q == p.(error := Some(MissingKey("row_index")))) &&
      (rev.rowIndex.Some? && rev.revisedText.None? ==> q == p.(error := Some(MissingKey("revised_text")))) &&
      (rev.rowIndex.Some? && rev.revisedText.Some? && rev.rowIndex.value >= |table| ==> q == p) &&
      (rev.rowIndex.Some? && rev.revisedText.Some? && BadTarget(table, rev.rowIndex.value) ==>
        q.state == p.state && q.rid == p.rid &&
        q.error == Some(if RowAt(rev.rowIndex.value, |table|).None? then RowIndexError else CellIndexError)) &&
      (Processed(rev, |table|) && !BadTarget(table, rev.rowIndex.value) ==>
        var c := table[RowAt(rev.rowIndex.value, |table|).value].cells[3];
        var text := rev.revisedText.value;
        c in p.state &&
        q.state == p.state[c := Rewrite(p.state[c], text, author, date, p.rid)] &&
        q.rid == NextId(p.state[c], text, p.rid) &&
        q.written == p.written + Blocks(p.state[c], text, author, date, p.rid))
  {
    if Processed(rev, |table|) && !BadTarget(table, rev.rowIndex.value) {
      CellInTable(table, RowAt(rev.rowIndex.value, |table|).value, 3);
    }
  }

  /** An entry that lacks a key ends the batch with its `KeyError`: the cells, the counter
      and the blocks stay as the revisions before it left them, whatever follows. */
  lemma KeyErrorStops(table: seq<Row>, author: string, date: string, revs: seq<RevisedTranslation>,
                      m: nat, n: nat, start: TableState)
    requires CellsOf(table) <= start.Keys && m < n <= |revs|
    requires Batch(table, author, date, revs, m, start).error.None?
    requires revs[m].rowIndex.None? || revs[m].revisedText.None?
    ensures Batch(table, author, date, revs, n, start) ==
      Batch(table, author, date, revs, m, start).(error :=
        Some(MissingKey(if revs[m].rowIndex.None? then "row_index" else "revised_text")))
  {
    BatchStopped(table, author, date, revs, m + 1, n, start);
  }

  /** `replace_cell_with_track_changes` on a cell of the table, seen on the whole table. */
  method EditTarget(table: seq<Row>, cell: Cell, newText: string, author: string, date: string, rid: int)
    returns (next: int)
    requires cell in CellsOf(table)
    modifies cell
    ensures var before := old(StateOf(table));
      next == NextId(before[cell], newText, rid) &&
      StateOf(table) == before[cell := Rewrite(before[cell], newText, author, date, rid)]
  {
    ghost var before := StateOf(table);
    next := ReplaceCell(cell, newText, author, date, rid);
    EditedOneCell(table, before, cell);
  }

  /** One pass of the loop, on the cells as the table holds them; `written` is what the
      earlier passes appended. */
  method ApplyRevision(table: seq<Row>, author: string, date: string, rev: RevisedTranslation, rid: int,
                       ghost written: seq<Node>)
    returns (outcome: Result<int, TrackError>)
    modifies CellsOf(table)
    ensures var q := Step(table, author, date, rev, old(Pass(StateOf(table), rid, written, None)));
      StateOf(table) == q.state &&
      outcome == if q.error.None? then Success(q.rid) else Failure(q.error.value)
  {
    StepOutcome(table, author, date, rev, Pass(StateOf(table), rid, written, None));
    if rev.rowIndex.None? {
      return Failure(MissingKey("row_index"));
    }
    var rowIndex := rev.rowIndex.value;
    if rev.revisedText.None? {
      return Failure(MissingKey("revised_text"));
    }
    var newText := rev.revisedText.value;
    if rowIndex >= |table| {
      return Success(rid);
    }
    var at := RowAt(rowIndex, |table|);
    if at.None? {
      return Failure(RowIndexError);
    }
    if |table[at.value].cells| < 4 {
      return Failure(CellIndexError);
    }
    CellInTable(table, at.value, 3);
    var next := EditTarget(table, table[at.value].cells[3], newText, author, date, rid);
    outcome := Success(next);
  }

  /** The revision loop of `apply_track_changes_to_translation`, with ids from 0: the
      cells, the outcome and the final counter are those of `Batch` over every revision.
      An error leaves the cells as the revisions before it made them. */
  method ApplyRevisions(table: seq<Row>, revisions: seq<RevisedTranslation>, author: string, date: string)
    returns (outcome: Result<int, TrackError>)
    modifies CellsOf(table)
    ensures var q := Batch(table, author, date, revisions, |revisions|, old(StateOf(table)));
      StateOf(table) == q.state &&
      outcome == if q.error.None? then Success(q.rid) else Failure(q.error.value)
  {
    ghost var start := StateOf(table);
    ghost var written: seq<Node> := [];
    var revisionId := 0;
    var k := 0;
    while k < |revisions|
      invariant 0 <= k <= |revisions|
      invariant Batch(table, author, date, revisions, k, start) == Pass(StateOf(table), revisionId, written, None)
    {
      ghost var before := Pass(StateOf(table), revisionId, written, None);
      var step := ApplyRevision(table, author, date, revisions[k], revisionId, written);
      written := Step(table, author, date, revisions[k], before).written;
      if step.Failure? {
        BatchStopped(table, author, date, revisions, k + 1, |revisions|, start);
        return Failure(step.error);
      }
      revisionId := step.value;
      k := k + 1;
    }
    outcome := Success(revisionId);
  }

  /** `apply_track_changes_to_translation` on the document's tables: a document without
      tables raises the `ValueError` with nothing changed; otherwise the revisions are
      applied to the first table as `ApplyRevisions` does. */
  method ApplyTrackChanges(tables: seq<seq<Row>>, revisions: seq<RevisedTranslation>, author: string, date: string)
    returns (outcome: Result<int, TrackError>)
    modifies if tables == [] then {} else CellsOf(tables[0])
    ensures tables == [] ==> outcome == Failure(NoTable)
    ensures tables != [] ==>
      var q := Batch(tables[0], author, date, revisions, |revisions|, old(StateOf(tables[0])));
      StateOf(tables[0]) == q.state &&
      outcome == if q.error.None? then Success(q.rid) else Failure(q.error.value)
  {
    if tables == [] {
      return Failure(NoTable);
    }
    outcome := ApplyRevisions(tables[0], revisions, author, date);
  }
}
