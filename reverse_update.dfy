/**
 * The "reverse" variant of the update script. It assumes the translation lives
 * in Tag-styled runs. Depending on the reading method it reads either those
 * runs alone or the whole cell, in both cases with placeholders cut out. It
 * accepts an edit only when that reading equals the expected old text exactly.
 * It then removes every direct run from every paragraph. Paragraph 0 gets back
 * the Tag runs that begin with a placeholder, followed by a Tag-styled deletion
 * of the old text and a Tag-styled insertion of the new one.
 */
module ReverseUpdate {
  import opened Wrappers
  import opened Text
  import opened Docx
  import opened Translations
  import opened Placeholders
  import opened RowIndex
  import SmartUpdate

  /** The revision id of the batch's first edit. */
  const FirstRevisionId: int := 1000

  // ---------------------------------------------------------------------
  // The two readers

  /** The Tag-run texts that the cell-level readers concatenate. */
  function TagText(ps: seq<Paragraph>): string
  {
    SmartUpdate.SelectedText(ps, Some(TagStyle))
  }

  /** `get_cell_text_only_tags`: the Tag-run text, stripped, with every `<\d+/>` cut
      out, and stripped again. */
  function TagOnlyText(ps: seq<Paragraph>): string
  {
    Strip(RemoveAll(Bare, Strip(TagText(ps))))
  }

  /** `get_all_cell_text_with_filtering`: the stripped cell text with quoted and then bare
      placeholders cut out, stripped again; inner whitespace is left as it is. */
  function FilteredText(ps: seq<Paragraph>): string
  {
    Strip(RemoveAll(Bare, RemoveAll(Quoted, Strip(CellText(ps)))))
  }

  /** The reader that `reading_method` selects: `only_tags`, and anything else the filtered
      whole-cell reader. */
  function CurrentText(ps: seq<Paragraph>, readingMethod: string): string
  {
    if readingMethod == "only_tags" then TagOnlyText(ps) else FilteredText(ps)
  }

  lemma {:induction false} NoTagRunsSelected(rs: seq<Run>)
    requires forall k :: 0 <= k < |rs| ==> !IsTagRun(rs[k])
    ensures SmartUpdate.SelectedRunsText(rs, Some(TagStyle)) == []
  {
    if rs != [] {
      NoTagRunsSelected(rs[1..]);
    }
  }

  /** A cell with no Tag run anywhere reads as empty under `only_tags`. */
  lemma {:induction false} TagOnlyWithoutTagRuns(ps: seq<Paragraph>)
    requires forall i, k :: 0 <= i < |ps| && 0 <= k < |Runs(ps[i].children)| ==> !IsTagRun(Runs(ps[i].children)[k])
    ensures TagOnlyText(ps) == []
  {
    TagTextWithoutTagRuns(ps);
  }

  lemma {:induction false} TagTextWithoutTagRuns(ps: seq<Paragraph>)
    requires forall i, k :: 0 <= i < |ps| && 0 <= k < |Runs(ps[i].children)| ==> !IsTagRun(Runs(ps[i].children)[k])
    ensures TagText(ps) == []
  {
    if ps != [] {
      NoTagRunsSelected(Runs(ps[0].children));
      var rest := ps[1..];
      assert forall i :: 0 <= i < |rest| ==> rest[i] == ps[i + 1];
      TagTextWithoutTagRuns(rest);
    }
  }

  /** On a cell whose text has no `<`, the filtered reader is plain `strip()`: unlike the
      smart reader it does not collapse inner whitespace. */
  lemma FilteredTextPlain(ps: seq<Paragraph>)
    requires '<' !in CellText(ps)
    ensures FilteredText(ps) == Strip(CellText(ps))
  {
    var s := Strip(CellText(ps));
    StripKeepsOut(CellText(ps), '<');
    RemoveAllWithoutOpen(Quoted, s);
    RemoveAllWithoutOpen(Bare, s);
    StripIdempotent(CellText(ps));
  }

  // ---------------------------------------------------------------------
  // preserve_tag_runs

  /** Whether `preserve_tag_runs` keeps run `r`: a Tag run with text whose stripped form
      begins with `<digits/>`; only the start is anchored. */
  predicate Preserved(r: Run)
  {
    IsTagRun(r) && RunText(r) != [] && TagLen(Strip(RunText(r))) > 0
  }

  function PreservedRunTexts(rs: seq<Run>): (ts: seq<string>)
    ensures forall k :: 0 <= k < |ts| ==> ts[k] != [] && TagLen(Strip(ts[k])) > 0
  {
    if rs == [] then []
    else (if Preserved(rs[0]) then [RunText(rs[0])] else []) + PreservedRunTexts(rs[1..])
  }

  /** `preserve_tag_runs`: the texts of the kept runs of every paragraph, in document order. */
  function PreservedTexts(ps: seq<Paragraph>): (ts: seq<string>)
    ensures forall k :: 0 <= k < |ts| ==> ts[k] != [] && TagLen(Strip(ts[k])) > 0
  {
    if ps == [] then [] else PreservedRunTexts(Runs(ps[0].children)) + PreservedTexts(ps[1..])
  }

  lemma TrimRightAllSpace(b: string)
    ensures TrimRight(b) == [] ==> AllSpace(b)
  {
    TrimRightShape(b);
    assert b[0..] == b;
  }

  lemma TrimRightKeepsFirst(b: string)
    requires b != [] && !IsSpace(b[0])
    ensures TrimRight(b) != [] && TrimRight(b)[0] == b[0]
  {
    TrimRightShape(b);
    TrimRightAllSpace(b);
  }

  /** A placeholder at the start keeps the run whatever follows it. */
  lemma PreservedWhateverFollows(ds: string, rest: string)
    requires ds != [] && AllDigits(ds)
    ensures TagLen(Strip("<" + ds + "/>" + rest)) == |ds| + 3
  {
    var b := ">" + rest;
    var s := "<" + ds + "/>" + rest;
    assert s == ("<" + ds + "/") + b;
    assert TrimLeft(s) == s;
    TrimRightKeepsFirst(b);
    TrimRightAppend("<" + ds + "/", b);
    var x := TrimRight(b)[1..];
    assert TrimRight(b) == ">" + x;
    assert Strip(s) == "<" + ds + "/>" + x;
    TagLenOf(ds, x);
  }

  /** A run whose text does not begin (after stripping) with `<` is never kept. */
  lemma NotPreservedWithoutLeadingTag(r: Run)
    requires Strip(RunText(r)) == [] || Strip(RunText(r))[0] != '<'
    ensures !Preserved(r)
  {
  }

  // ---------------------------------------------------------------------
  // replace_cell_with_track_changes

  /** A Tag-styled run: `add_run(text)` followed by setting the style `Tag`. */
  function TagRun(text: string): Run
  {
    Run(Some(RunProps(Some(TagStyle), "")), LineItems(text))
  }

  /** The run of the insertion: the style `Tag` and one `w:t` holding the new text. */
  function InsertedRun(newText: string): Run
  {
    Run(Some(RunProps(Some(TagStyle), "")), [T(newText)])
  }

  function TagRunNodes(ts: seq<string>): (ns: seq<Node>)
    ensures |ns| == |ts|
    ensures forall k :: 0 <= k < |ts| ==> ns[k] == R(TagRun(ts[k]))
  {
    seq(|ts|, k requires 0 <= k < |ts| => R(TagRun(ts[k])))
  }

  /** The nodes appended to paragraph 0: the preserved Tag runs, the deletion (`rid`) and
      the insertion (`rid + 1`). */
  function Appended(ps: seq<Paragraph>, oldText: string, newText: string, author: string, date: string, rid: int): seq<Node>
  {
    TagRunNodes(PreservedTexts(ps)) +
    [Del(Revision(rid, author, date, [TagRun(oldText)])), Ins(Revision(rid + 1, author, date, [InsertedRun(newText)]))]
  }

  /** The cell after a successful replacement. */
  function Rewrite(ps: seq<Paragraph>, oldText: string, newText: string, author: string, date: string, rid: int): seq<Paragraph>
  {
    AppendTo(EnsureParagraph(ParagraphsWithoutRuns(ps)), 0, Appended(ps, oldText, newText, author, date, rid))
  }

  lemma {:induction false} RunsOfTagRunNodes(ts: seq<string>)
    ensures Runs(TagRunNodes(ts)) == seq(|ts|, k requires 0 <= k < |ts| => TagRun(ts[k]))
  {
    if ts != [] {
      RunsOfTagRunNodes(ts[1..]);
      assert TagRunNodes(ts) == [R(TagRun(ts[0]))] + TagRunNodes(ts[1..]);
      RunsAppend([R(TagRun(ts[0]))], TagRunNodes(ts[1..]));
    }
  }

  lemma {:induction false} SelectedTagRuns(ts: seq<string>)
    requires forall k :: 0 <= k < |ts| ==> ts[k] != []
    ensures SmartUpdate.SelectedRunsText(seq(|ts|, k requires 0 <= k < |ts| => TagRun(ts[k])), Some(TagStyle)) == CrToLf(Concat(ts))
  {
    if ts != [] {
      var rs := seq(|ts|, k requires 0 <= k < |ts| => TagRun(ts[k]));
      assert rs[1..] == seq(|ts| - 1, k requires 0 <= k < |ts| - 1 => TagRun(ts[1..][k]));
      SelectedTagRuns(ts[1..]);
      LineItemsRoundTrip(ts[0]);
      CrToLfPointwise(ts[0]);
      assert RunText(rs[0]) == CrToLf(ts[0]) != [];
      assert SmartUpdate.Includes(Some(TagStyle), rs[0]);
      assert SmartUpdate.SelectedRunsText(rs, Some(TagStyle)) ==
        CrToLf(ts[0]) + SmartUpdate.SelectedRunsText(rs[1..], Some(TagStyle));
      assert Concat(ts) == ts[0] + Concat(ts[1..]);
      CrToLfAppend(ts[0], Concat(ts[1..]));
    } else {
      assert CrToLf([]) == [];
    }
  }

  /** The blocks hold no direct run. */
  lemma BlocksHaveNoRuns(oldText: string, newText: string, author: string, date: string, rid: int)
    ensures Runs([Del(Revision(rid, author, date, [TagRun(oldText)])), Ins(Revision(rid + 1, author, date, [InsertedRun(newText)]))]) == []
  {
    var b := [Del(Revision(rid, author, date, [TagRun(oldText)])), Ins(Revision(rid + 1, author, date, [InsertedRun(newText)]))];
    assert b[1..] == [b[1]];
  }

  /** After the rewrite every paragraph but the first has no direct run and keeps its other
      children; paragraph 0 keeps its other children and its direct runs are exactly the
      preserved placeholder runs, in order, now Tag-styled. */
  lemma RewriteShape(ps: seq<Paragraph>, oldText: string, newText: string, author: string, date: string, rid: int)
    ensures var r := Rewrite(ps, oldText, newText, author, date, rid);
      var pt := PreservedTexts(ps);
      |r| == (if ps == [] then 1 else |ps|) &&
      (forall j :: 1 <= j < |r| ==> r[j] == NoRuns(ps[j]) && Runs(r[j].children) == []) &&
      Runs(r[0].children) == seq(|pt|, k requires 0 <= k < |pt| => TagRun(pt[k])) &&
      r[0].children == (if ps == [] then [] else Without(ps[0].children, IsRunNode)) + Appended(ps, oldText, newText, author, date, rid)
  {
    var pt := PreservedTexts(ps);
    var blocks := [Del(Revision(rid, author, date, [TagRun(oldText)])), Ins(Revision(rid + 1, author, date, [InsertedRun(newText)]))];
    var kept: seq<Node> := if ps == [] then [] else Without(ps[0].children, IsRunNode);
    if ps != [] {
      NoRunsLeft(ps[0].children);
    }
    forall j | 1 <= j < |ps|
      ensures Runs(NoRuns(ps[j]).children) == []
    {
      NoRunsLeft(ps[j].children);
    }
    RunsOfTagRunNodes(pt);
    BlocksHaveNoRuns(oldText, newText, author, date, rid);
    RunsAppend(TagRunNodes(pt), blocks);
    RunsAppend(kept, TagRunNodes(pt) + blocks);
    assert kept + Appended(ps, oldText, newText, author, date, rid) == kept + (TagRunNodes(pt) + blocks);
  }

  /** After the rewrite the Tag runs read as the preserved placeholders alone, whatever the
      old and new text: the `only_tags` reader sees neither the deletion nor the insertion.
      A carriage return in a placeholder comes back as a line feed, since `add_run` writes
      it as a `w:br`. */
  lemma RewriteTagText(ps: seq<Paragraph>, oldText: string, newText: string, author: string, date: string, rid: int)
    ensures TagText(Rewrite(ps, oldText, newText, author, date, rid)) == CrToLf(Concat(PreservedTexts(ps)))
    ensures TagOnlyText(Rewrite(ps, oldText, newText, author, date, rid)) == Strip(RemoveAll(Bare, Strip(CrToLf(Concat(PreservedTexts(ps))))))
  {
    var r := Rewrite(ps, oldText, newText, author, date, rid);
    var pt := PreservedTexts(ps);
    RewriteShape(ps, oldText, newText, author, date, rid);
    TagTextOfTagRuns(r, pt);
  }

  /** Paragraphs whose only direct runs are the Tag runs of `ts`, all in the first one,
      read as `ts` joined, each carriage return as a line feed. */
  lemma TagTextOfTagRuns(r: seq<Paragraph>, ts: seq<string>)
    requires |r| >= 1 && forall k :: 0 <= k < |ts| ==> ts[k] != []
    requires Runs(r[0].children) == seq(|ts|, k requires 0 <= k < |ts| => TagRun(ts[k]))
    requires forall j :: 1 <= j < |r| ==> Runs(r[j].children) == []
    ensures TagText(r) == CrToLf(Concat(ts))
  {
    var rest := r[1..];
    assert forall i :: 0 <= i < |rest| ==> Runs(rest[i].children) == Runs(r[i + 1].children) == [];
    TagTextWithoutTagRuns(rest);
    SelectedTagRuns(ts);
    assert TagText(r) == SmartUpdate.SelectedRunsText(Runs(r[0].children), Some(TagStyle)) + TagText(rest);
  }

  /** The deletion holds the old text (a carriage return read back as a line feed) and the
      insertion the new text, both in Tag-styled runs; the deleted text stays in `w:t`, not
      in `w:delText`. */
  lemma BlocksText(ps: seq<Paragraph>, oldText: string, newText: string, author: string, date: string, rid: int)
    ensures var a := Appended(ps, oldText, newText, author, date, rid);
      |a| >= 2 &&
      a[|a| - 2] == Del(Revision(rid, author, date, [TagRun(oldText)])) &&
      a[|a| - 1] == Ins(Revision(rid + 1, author, date, [InsertedRun(newText)])) &&
      RunText(TagRun(oldText)) == CrToLf(oldText) && IsTagRun(TagRun(oldText)) &&
      (forall it :: it in TagRun(oldText).items ==> !it.DelText?) &&
      RunText(InsertedRun(newText)) == newText && IsTagRun(InsertedRun(newText))
  {
    LineItemsRoundTrip(oldText);
    PiecesNoDelText(SplitOn(CrToLf(oldText), '\n'));
    assert ItemsText([T(newText)]) == newText + ItemsText([]);
  }

  lemma {:induction false} PiecesNoDelText(pieces: seq<string>)
    requires |pieces| >= 1
    ensures forall it :: it in PiecesItems(pieces) ==> !it.DelText?
  {
    if |pieces| > 1 {
      PiecesNoDelText(pieces[1..]);
    }
  }

  /** `for tag_info in tag_runs: paragraph.add_run(...).style = 'Tag'` on paragraph 0. */
  method AppendTagRuns(cell: Cell, ts: seq<string>)
    requires cell.paragraphs != []
    modifies cell
    ensures cell.paragraphs == AppendTo(old(cell.paragraphs), 0, TagRunNodes(ts))
  {
    ghost var base := cell.paragraphs;
    assert AppendTo(base, 0, []) == base by {
      assert base[0].children + [] == base[0].children;
    }
    var k := 0;
    while k < |ts|
      invariant 0 <= k <= |ts| && cell.paragraphs != []
      invariant cell.paragraphs == AppendTo(base, 0, TagRunNodes(ts[..k]))
    {
      cell.AppendChild(0, R(TagRun(ts[k])));
      assert TagRunNodes(ts[..k + 1]) == TagRunNodes(ts[..k]) + [R(TagRun(ts[k]))];
      AppendToTwice(base, 0, TagRunNodes(ts[..k]), [R(TagRun(ts[k]))]);
      k := k + 1;
    }
    assert ts[..k] == ts;
  }

  /** `replace_cell_with_track_changes`: reads the cell, and only when the reading equals
      `oldText` exactly rewrites it; otherwise the cell is left as it was. */
  method ReplaceCell(cell: Cell, oldText: string, newText: string, author: string, date: string,
                     rid: int, readingMethod: string) returns (ok: bool)
    modifies cell
    ensures ok <==> CurrentText(old(cell.paragraphs), readingMethod) == oldText
    ensures ok ==> cell.paragraphs == Rewrite(old(cell.paragraphs), oldText, newText, author, date, rid)
    ensures !ok ==> cell.paragraphs == old(cell.paragraphs)
  {
    var current := CurrentText(cell.paragraphs, readingMethod);
    var tagRuns := PreservedTexts(cell.paragraphs);
    if current != oldText {
      return false;
    }
    cell.RemoveDirectRuns();
    cell.EnsureOneParagraph();
    AppendTagRuns(cell, tagRuns);
    ghost var base := cell.paragraphs;
    var del := Del(Revision(rid, author, date, [TagRun(oldText)]));
    var ins := Ins(Revision(rid + 1, author, date, [InsertedRun(newText)]));
    cell.AppendChild(0, del);
    cell.AppendChild(0, ins);
    assert [del] + [ins] == [del, ins];
    AppendToTwice(base, 0, [del], [ins]);
    assert Appended(old(cell.paragraphs), oldText, newText, author, date, rid) == TagRunNodes(tagRuns) + [del, ins];
    AppendToTwice(EnsureParagraph(ParagraphsWithoutRuns(old(cell.paragraphs))), 0, TagRunNodes(tagRuns), [del, ins]);
    ok := true;
  }

  // ---------------------------------------------------------------------
  // update_translations

  /** The loop's progress: the cells, both counters and the next revision id. */
  type Progress = SmartUpdate.Progress

  /** One pass of the loop body: an entry without a target fails; otherwise its cell is
      rewritten when the selected reading equals the old text, and the entry fails when not. */
  function Step(table: seq<Row>, rowMap: map<string, nat>, author: string, date: string, readingMethod: string,
                entry: Record, p: Progress): (q: Progress)
    requires IndexesTable(table, rowMap) && CellsOf(table) <= p.state.Keys
    ensures q.state.Keys == p.state.Keys
  {
    var oldText := SmartUpdate.OldTranslationOf(entry);
    match SmartUpdate.TargetCell(table, rowMap, entry)
    case None => p.(fail := p.fail + 1)
    case Some(c) =>
      var ps := p.state[c];
      if CurrentText(ps, readingMethod) == oldText then
        SmartUpdate.Progress(p.state[c := Rewrite(ps, oldText, SmartUpdate.NewTranslationOf(entry), author, date, p.rid)],
          p.success + 1, p.fail, p.rid + 2)
      else p.(fail := p.fail + 1)
  }

  /** The loop over the first `n` entries, from the cells `start`. */
  function Batch(table: seq<Row>, rowMap: map<string, nat>, author: string, date: string, readingMethod: string,
                 entries: seq<Record>, n: nat, start: TableState): (q: Progress)
    requires IndexesTable(table, rowMap) && CellsOf(table) <= start.Keys && n <= |entries|
    ensures q.state.Keys == start.Keys
  {
    if n == 0 then SmartUpdate.Progress(start, 0, 0, FirstRevisionId)
    else Step(table, rowMap, author, date, readingMethod, entries[n - 1],
      Batch(table, rowMap, author, date, readingMethod, entries, n - 1, start))
  }

  /** An entry succeeds exactly when it names a row and that row's fourth cell, as the
      earlier entries left it, reads as its old text; a failure changes nothing but the
      failure count, and a success rewrites its own cell and uses two revision ids. */
  lemma StepOutcome(table: seq<Row>, rowMap: map<string, nat>, author: string, date: string, readingMethod: string,
                    entry: Record, p: Progress)
    requires IndexesTable(table, rowMap) && CellsOf(table) <= p.state.Keys
    ensures var q := Step(table, rowMap, author, date, readingMethod, entry, p);
      var c := SmartUpdate.TargetCell(table, rowMap, entry);
      (q.success == p.success + 1 <==> c.Some? && CurrentText(p.state[c.value], readingMethod) == SmartUpdate.OldTranslationOf(entry)) &&
      (q.success == p.success ==> q.state == p.state && q.fail == p.fail + 1 && q.rid == p.rid) &&
      (q.success == p.success + 1 ==>
        q.fail == p.fail && q.rid == p.rid + 2 &&
        q.state == p.state[c.value := Rewrite(p.state[c.value], SmartUpdate.OldTranslationOf(entry),
          SmartUpdate.NewTranslationOf(entry), author, date, p.rid)])
  {
  }

  /** Every entry is counted once, and the revision id moves by 2 per success only. */
  lemma {:induction false} BatchCounts(table: seq<Row>, rowMap: map<string, nat>, author: string, date: string,
                                      readingMethod: string, entries: seq<Record>, n: nat, start: TableState)
    requires IndexesTable(table, rowMap) && CellsOf(table) <= start.Keys && n <= |entries|
    ensures var q := Batch(table, rowMap, author, date, readingMethod, entries, n, start);
      q.success + q.fail == n && q.rid == FirstRevisionId + 2 * q.success
  {
    if n > 0 {
      var p := Batch(table, rowMap, author, date, readingMethod, entries, n - 1, start);
      BatchCounts(table, rowMap, author, date, readingMethod, entries, n - 1, start);
      StepOutcome(table, rowMap, author, date, readingMethod, entries[n - 1], p);
    }
  }

  /** A cell that no entry names keeps its paragraphs. */
  lemma {:induction false} BatchUntouched(table: seq<Row>, rowMap: map<string, nat>, author: string, date: string,
                                         readingMethod: string, entries: seq<Record>, n: nat, start: TableState, c: Cell)
    requires IndexesTable(table, rowMap) && CellsOf(table) <= start.Keys && n <= |entries|
    requires c in start && forall k :: 0 <= k < n ==> SmartUpdate.TargetCell(table, rowMap, entries[k]) != Some(c)
    ensures Batch(table, rowMap, author, date, readingMethod, entries, n, start).state[c] == start[c]
  {
    if n > 0 {
      var p := Batch(table, rowMap, author, date, readingMethod, entries, n - 1, start);
      BatchUntouched(table, rowMap, author, date, readingMethod, entries, n - 1, start, c);
      StepOutcome(table, rowMap, author, date, readingMethod, entries[n - 1], p);
    }
  }

  /** When no entry names a row, every entry fails and the document is left as it was. */
  lemma {:induction false} BatchUnknownIds(table: seq<Row>, rowMap: map<string, nat>, author: string, date: string,
                                          readingMethod: string, entries: seq<Record>, n: nat, start: TableState)
    requires IndexesTable(table, rowMap) && CellsOf(table) <= start.Keys && n <= |entries|
    requires forall k :: 0 <= k < n ==> SmartUpdate.TargetRow(rowMap, entries[k]).None?
    ensures Batch(table, rowMap, author, date, readingMethod, entries, n, start) ==
      SmartUpdate.Progress(start, 0, n, FirstRevisionId)
  {
    if n > 0 {
      var p := Batch(table, rowMap, author, date, readingMethod, entries, n - 1, start);
      BatchUnknownIds(table, rowMap, author, date, readingMethod, entries, n - 1, start);
      StepOutcome(table, rowMap, author, date, readingMethod, entries[n - 1], p);
    }
  }

  /** `replace_cell_with_track_changes` on a cell of the table, seen on the whole table. */
  method EditTarget(table: seq<Row>, cell: Cell, oldText: string, newText: string, author: string, date: string,
                    rid: int, readingMethod: string) returns (ok: bool)
    requires cell in CellsOf(table)
    modifies cell
    ensures var before := old(StateOf(table));
      (ok <==> CurrentText(before[cell], readingMethod) == oldText) &&
      StateOf(table) == if ok then before[cell := Rewrite(before[cell], oldText, newText, author, date, rid)] else before
  {
    ghost var before := StateOf(table);
    ok := ReplaceCell(cell, oldText, newText, author, date, rid, readingMethod);
    EditedOneCell(table, before, cell);
  }

  /** One pass of the loop body, on the cells as the table holds them. */
  method ApplyEntry(table: seq<Row>, rowMap: map<string, nat>, author: string, date: string, readingMethod: string,
                    entry: Record, success: nat, fail: nat, rid: int)
    returns (success': nat, fail': nat, rid': int)
    requires IndexesTable(table, rowMap)
    modifies CellsOf(table)
    ensures SmartUpdate.Progress(StateOf(table), success', fail', rid') ==
      Step(table, rowMap, author, date, readingMethod, entry, old(SmartUpdate.Progress(StateOf(table), success, fail, rid)))
  {
    success', fail', rid' := success, fail, rid;
    ghost var p := SmartUpdate.Progress(StateOf(table), success, fail, rid);
    var oldText := Strip(GetOr(entry, "old_translation", ""));
    var newText := Strip(GetOr(entry, "new_translation", ""));
    var target := SmartUpdate.TargetRow(rowMap, entry);
    if target.None? {
      fail' := fail + 1;
      return;
    }
    CellInTable(table, target.value, 3);
    var cell := table[target.value].cells[3];
    assert SmartUpdate.TargetCell(table, rowMap, entry) == Some(cell);
    var ok := EditTarget(table, cell, oldText, newText, author, date, rid, readingMethod);
    assert ok <==> CurrentText(p.state[cell], readingMethod) == SmartUpdate.OldTranslationOf(entry);
    if ok {
      success' := success + 1;
      rid' := rid + 2;
    } else {
      fail' := fail + 1;
    }
  }

  /** The loop of `update_translations`, against the index built beforehand: the cells,
      the counters and the next revision id are those of `Batch` over every entry. */
  method UpdateTranslations(table: seq<Row>, translations: seq<Record>, author: string, date: string, readingMethod: string)
    returns (success: nat, fail: nat, nextId: int)
    modifies CellsOf(table)
    ensures var q := Batch(table, old(RowMap(table)), author, date, readingMethod, translations, |translations|, old(StateOf(table)));
      StateOf(table) == q.state && success == q.success && fail == q.fail && nextId == q.rid
  {
    var rowMap := BuildRowMap(table);
    ghost var start := StateOf(table);
    success, fail := 0, 0;
    var rid := FirstRevisionId;
    var k := 0;
    while k < |translations|
      invariant 0 <= k <= |translations|
      invariant Batch(table, rowMap, author, date, readingMethod, translations, k, start) ==
        SmartUpdate.Progress(StateOf(table), success, fail, rid)
    {
      success, fail, rid := ApplyEntry(table, rowMap, author, date, readingMethod, translations[k], success, fail, rid);
      k := k + 1;
    }
    nextId := rid;
  }
}
