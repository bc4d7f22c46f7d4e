/**
 * The update script that leaves `Tag`-styled runs alone. It reads a cell
 * without its `Tag` runs, checks the expected old text loosely (containment
 * either way, after tag protection), and in the first paragraph that holds
 * a non-`Tag` run replaces the non-`Tag` content by a tracked deletion and
 * insertion of the protected texts, keeping the `Tag` runs where they are.
 */
module WithTagsUpdate {
  import opened Wrappers
  import opened Text
  import opened Docx
  import opened Translations
  import opened TagProtector
  import SmartUpdate
  import TrackedUpdate

  /** Why an entry of the batch failed; the script records the exception message. */
  datatype UpdateError =
    | SegmentNotFound
    | TooFewColumns
    | TextMismatch
    | NoFirstCell

  // ---------------------------------------------------------------------
  // get_cell_text_without_tags

  predicate IsPlainRun(r: Run)
  {
    !IsTagRun(r)
  }

  /** What one run contributes: its text, unless it is styled `Tag`. */
  function PlainRunText(r: Run): string
  {
    if IsTagRun(r) then [] else RunText(r)
  }

  /** The texts of the runs not styled `Tag`, concatenated. */
  function PlainRunsText(rs: seq<Run>): string
  {
    if rs == [] then [] else PlainRunText(rs[0]) + PlainRunsText(rs[1..])
  }

  /** The same over every paragraph, with no separator between paragraphs. */
  function PlainText(ps: seq<Paragraph>): string
  {
    if ps == [] then [] else PlainRunsText(Runs(ps[0].children)) + PlainText(ps[1..])
  }

  /** `get_cell_text_without_tags`: the non-`Tag` text of the cell, stripped. */
  function TaglessText(ps: seq<Paragraph>): string
  {
    Strip(PlainText(ps))
  }

  /** No paragraph has a direct run that is not styled `Tag`. */
  predicate OnlyTagRuns(ps: seq<Paragraph>)
  {
    forall i, r :: 0 <= i < |ps| && r in Runs(ps[i].children) ==> IsTagRun(r)
  }

  lemma {:induction false} PlainRunsTextAppend(a: seq<Run>, b: seq<Run>)
    ensures PlainRunsText(a + b) == PlainRunsText(a) + PlainRunsText(b)
  {
    if a != [] {
      TailOfAppend(a, b);
      PlainRunsTextAppend(a[1..], b);
    } else {
      assert a + b == b;
    }
  }

  lemma PlainRunsTextSnoc(rs: seq<Run>, k: nat)
    requires k < |rs|
    ensures PlainRunsText(rs[..k + 1]) == PlainRunsText(rs[..k]) + PlainRunText(rs[k])
  {
    assert rs[..k + 1] == rs[..k] + [rs[k]];
    PlainRunsTextAppend(rs[..k], [rs[k]]);
    assert PlainRunsText([rs[k]]) == PlainRunText(rs[k]) + PlainRunsText([]);
  }

  lemma {:induction false} PlainTextAppend(a: seq<Paragraph>, b: seq<Paragraph>)
    ensures PlainText(a + b) == PlainText(a) + PlainText(b)
  {
    if a != [] {
      TailOfAppend(a, b);
      PlainTextAppend(a[1..], b);
    } else {
      assert a + b == b;
    }
  }

  /** This reader and the smart script's `"NotTag"` reader take the same runs. */
  lemma {:induction false} PlainRunsTextIsNotTag(rs: seq<Run>)
    ensures PlainRunsText(rs) == SmartUpdate.SelectedRunsText(rs, Some("NotTag"))
  {
    if rs != [] {
      PlainRunsTextIsNotTag(rs[1..]);
    }
  }

  lemma {:induction false} PlainTextIsNotTag(ps: seq<Paragraph>)
    ensures PlainText(ps) == SmartUpdate.SelectedText(ps, Some("NotTag"))
  {
    if ps != [] {
      PlainRunsTextIsNotTag(Runs(ps[0].children));
      PlainTextIsNotTag(ps[1..]);
    }
  }

  lemma {:induction false} PlainRunsTextOnlyTag(rs: seq<Run>)
    requires forall r :: r in rs ==> IsTagRun(r)
    ensures PlainRunsText(rs) == []
  {
    if rs != [] {
      assert rs[0] in rs;
      assert forall r :: r in rs[1..] ==> r in rs;
      PlainRunsTextOnlyTag(rs[1..]);
    }
  }

  lemma {:induction false} PlainTextOnlyTag(ps: seq<Paragraph>)
    requires OnlyTagRuns(ps)
    ensures PlainText(ps) == []
  {
    if ps != [] {
      PlainRunsTextOnlyTag(Runs(ps[0].children));
      assert OnlyTagRuns(ps[1..]) by {
        forall i, r | 0 <= i < |ps[1..]| && r in Runs(ps[1..][i].children)
          ensures IsTagRun(r)
        {
          assert ps[1..][i] == ps[i + 1];
        }
      }
      PlainTextOnlyTag(ps[1..]);
    }
  }

  /** A cell holding only `Tag` runs reads as empty. */
  lemma TaglessTextOnlyTag(ps: seq<Paragraph>)
    requires OnlyTagRuns(ps)
    ensures TaglessText(ps) == []
  {
    PlainTextOnlyTag(ps);
  }

  lemma {:induction false} PlainRunsTextNoTag(rs: seq<Run>)
    requires forall r :: r in rs ==> !IsTagRun(r)
    ensures PlainRunsText(rs) == RunsText(rs)
  {
    if rs != [] {
      assert rs[0] in rs;
      assert forall r :: r in rs[1..] ==> r in rs;
      PlainRunsTextNoTag(rs[1..]);
    }
  }

  lemma {:induction false} PlainTextNoTag(ps: seq<Paragraph>)
    requires forall i, r :: 0 <= i < |ps| && r in Runs(ps[i].children) ==> !IsTagRun(r)
    ensures PlainText(ps) == Concat(ParagraphTexts(ps))
  {
    if ps != [] {
      PlainRunsTextNoTag(Runs(ps[0].children));
      forall i, r | 0 <= i < |ps[1..]| && r in Runs(ps[1..][i].children)
        ensures !IsTagRun(r)
      {
        assert ps[1..][i] == ps[i + 1];
      }
      PlainTextNoTag(ps[1..]);
      assert ParagraphTexts(ps)[1..] == ParagraphTexts(ps[1..]);
    }
  }

  /** Without `Tag` runs the reading is the paragraph texts run together, stripped. */
  lemma TaglessTextNoTag(ps: seq<Paragraph>)
    requires forall i, r :: 0 <= i < |ps| && r in Runs(ps[i].children) ==> !IsTagRun(r)
    ensures TaglessText(ps) == Strip(Concat(ParagraphTexts(ps)))
  {
    PlainTextNoTag(ps);
  }

  /** One step of the run loop: a non-`Tag` run adds its text, a `Tag` run nothing. */
  lemma PlainRunsStep(before: string, rs: seq<Run>, k: nat, acc: string)
    requires k < |rs| && acc == before + PlainRunsText(rs[..k])
    ensures (if !IsTagRun(rs[k]) then acc + RunText(rs[k]) else acc) == before + PlainRunsText(rs[..k + 1])
  {
    PlainRunsTextSnoc(rs, k);
    AppendAssoc(before, PlainRunsText(rs[..k]), PlainRunText(rs[k]));
  }

  lemma PlainTextSnoc(ps: seq<Paragraph>, i: nat)
    requires i < |ps|
    ensures PlainText(ps[..i + 1]) == PlainText(ps[..i]) + PlainRunsText(Runs(ps[i].children))
  {
    assert ps[..i + 1] == ps[..i] + [ps[i]];
    PlainTextAppend(ps[..i], [ps[i]]);
    assert PlainText([ps[i]]) == PlainRunsText(Runs(ps[i].children)) + PlainText([]);
  }

  /** The run loop of `get_cell_text_without_tags` over one paragraph: `Tag` runs are
      skipped, the others add their text. */
  method ReadPlainRuns(rs: seq<Run>) returns (part: string)
    ensures part == PlainRunsText(rs)
  {
    part := [];
    var k := 0;
    while k < |rs|
      invariant 0 <= k <= |rs|
      invariant part == PlainRunsText(rs[..k])
    {
      PlainRunsStep([], rs, k, part);
      if !IsTagRun(rs[k]) {
        part := part + RunText(rs[k]);
      }
      k := k + 1;
    }
    assert rs[..k] == rs;
  }

  /** `get_cell_text_without_tags`: the paragraph loop around the run loop. */
  method ReadTagless(cell: Cell) returns (text: string)
    ensures text == TaglessText(cell.paragraphs)
  {
    var ps := cell.paragraphs;
    var acc: string := [];
    var i := 0;
    while i < |ps|
      invariant 0 <= i <= |ps|
      invariant acc == PlainText(ps[..i])
    {
      var part := ReadPlainRuns(Runs(ps[i].children));
      PlainTextSnoc(ps, i);
      acc := acc + part;
      i := i + 1;
    }
    assert ps[..i] == ps;
    text := Strip(acc);
  }

  // ---------------------------------------------------------------------
  // Validation

  /** The loose check: a blank old text is always accepted; otherwise the stripped protected
      old text must occur in the protected current text, or the stripped protected current
      text in the protected old text. */
  predicate Accepts(oldText: string, current: string)
  {
    Strip(oldText) == [] ||
    Contains(ProtectTags(current), Strip(ProtectTags(oldText))) ||
    Contains(ProtectTags(oldText), Strip(ProtectTags(current)))
  }

  /** A blank cell accepts any old text, since the empty string occurs in every text. */
  lemma AcceptsBlankCell(oldText: string, current: string)
    requires Strip(current) == []
    ensures Accepts(oldText, current)
  {
    StripProtect(current);
    assert Strip(ProtectTags(current)) == [];
  }

  /** The old text that reads exactly as the cell does is accepted. */
  lemma AcceptsOwnReading(oldText: string, current: string)
    requires Strip(oldText) == current
    ensures Accepts(oldText, current)
  {
    StripProtect(oldText);
    ContainsSelf(ProtectTags(current));
  }

  // ---------------------------------------------------------------------
  // The edit

  /** Whether a paragraph has a direct run not styled `Tag`, whatever its text. */
  predicate HasPlainRun(rs: seq<Run>)
  {
    rs != [] && (!IsTagRun(rs[0]) || HasPlainRun(rs[1..]))
  }

  lemma {:induction false} HasPlainRunIff(rs: seq<Run>)
    ensures HasPlainRun(rs) <==> exists k :: 0 <= k < |rs| && !IsTagRun(rs[k])
  {
    if rs != [] {
      HasPlainRunIff(rs[1..]);
      assert forall k :: 1 <= k < |rs| ==> rs[k] == rs[1..][k - 1];
      if HasPlainRun(rs[1..]) {
        var k :| 0 <= k < |rs[1..]| && !IsTagRun(rs[1..][k]);
        assert !IsTagRun(rs[k + 1]);
      }
    }
  }

  /** The paragraph the edit goes to: the first one with a non-`Tag` run, else paragraph 0. */
  function TargetParagraph(ps: seq<Paragraph>): (t: nat)
    requires ps != []
    ensures t < |ps|
    ensures forall j :: 0 <= j < t ==> !HasPlainRun(Runs(ps[j].children))
    ensures HasPlainRun(Runs(ps[t].children)) || (t == 0 && forall j :: 0 <= j < |ps| ==> !HasPlainRun(Runs(ps[j].children)))
  {
    if HasPlainRun(Runs(ps[0].children)) || |ps| == 1 then 0
    else
      var t := TargetParagraph(ps[1..]);
      if HasPlainRun(Runs(ps[t + 1].children)) then t + 1 else 0
  }

  /** The formatting the new blocks copy: the `w:rPr` of the first run that has one and is
      not styled `Tag`; runs without `w:rPr` are passed over. */
  function FormatSource(rs: seq<Run>): Option<RunProps>
  {
    if rs == [] then None
    else if rs[0].rPr.Some? && !IsTagRun(rs[0]) then rs[0].rPr
    else FormatSource(rs[1..])
  }

  predicate PassedOver(r: Run)
  {
    r.rPr.None? || IsTagRun(r)
  }

  /** The formatting comes from the first run that has `w:rPr` and is not styled `Tag`, and
      is absent exactly when there is no such run. */
  lemma {:induction false} FormatSourceFirst(rs: seq<Run>)
    ensures FormatSource(rs).None? <==> forall k :: 0 <= k < |rs| ==> PassedOver(rs[k])
    ensures FormatSource(rs).Some? ==>
      (exists k :: 0 <= k < |rs| && rs[k].rPr == FormatSource(rs) && !IsTagRun(rs[k]) &&
        (forall j :: 0 <= j < k ==> PassedOver(rs[j])))
  {
    if rs != [] {
      FormatSourceFirst(rs[1..]);
      assert forall k :: 1 <= k < |rs| ==> rs[k] == rs[1..][k - 1];
      if PassedOver(rs[0]) && FormatSource(rs).Some? {
        var k :| 0 <= k < |rs[1..]| && rs[1..][k].rPr == FormatSource(rs) && !IsTagRun(rs[1..][k]) &&
          (forall j :: 0 <= j < k ==> PassedOver(rs[1..][j]));
        assert rs[k + 1].rPr == FormatSource(rs);
      }
    }
  }

  /** The deep copy of the formatting with an `rStyle` of `Tag` dropped. */
  function CopyFormat(f: Option<RunProps>): (c: Option<RunProps>)
    ensures c.Some? <==> f.Some?
    ensures c.Some? ==> c.value.format == f.value.format && c.value.style != Some(TagStyle)
    ensures c.Some? && f.value.style != Some(TagStyle) ==> c == f
  {
    match f
    case None => None
    case Some(p) => Some(if p.style == Some(TagStyle) then RunProps(None, p.format) else p)
  }

  /** `create_delete_element`'s run: the copied formatting and one `w:delText`. */
  function DeleteRun(text: string, f: Option<RunProps>): Run
  {
    Run(CopyFormat(f), [DelText(text)])
  }

  /** `create_insert_element`'s run: the copied formatting and one `w:t`. */
  function InsertRun(text: string, f: Option<RunProps>): Run
  {
    Run(CopyFormat(f), [T(text)])
  }

  /** Neither new run is ever styled `Tag`. */
  lemma NewRunsAreNotTag(text: string, f: Option<RunProps>)
    ensures !IsTagRun(DeleteRun(text, f)) && !IsTagRun(InsertRun(text, f))
  {
  }

  /** The children the edit removes: non-`Tag` runs, deletions, insertions and hyperlinks. */
  predicate Clearable(n: Node)
  {
    (n.R? && !IsTagRun(n.run)) || n.Del? || n.Ins? || n.Hyperlink?
  }

  /** The deletion block is written iff the stripped protected old text is non-empty. */
  function DelBlock(oldText: string, f: Option<RunProps>): Option<Run>
  {
    if Strip(ProtectTags(oldText)) != [] then Some(DeleteRun(ProtectTags(oldText), f)) else None
  }

  /** The insertion block is written iff the stripped protected new text is non-empty. */
  function InsBlock(newText: string, f: Option<RunProps>): Option<Run>
  {
    if Strip(ProtectTags(newText)) != [] then Some(InsertRun(ProtectTags(newText), f)) else None
  }

  /** The target paragraph cleared and given blocks that hold no direct run. */
  function ClearedWith(ps: seq<Paragraph>, t: nat, blocks: seq<Node>): (r: seq<Paragraph>)
    requires t < |ps|
    ensures |r| == |ps|
    ensures forall j :: 0 <= j < |ps| && j != t ==> r[j] == ps[j]
  {
    AppendTo(ps[t := Paragraph(Without(ps[t].children, Clearable))], t, blocks)
  }

  lemma ClearedWithRuns(ps: seq<Paragraph>, t: nat, blocks: seq<Node>)
    requires t < |ps| && Runs(blocks) == []
    ensures Runs(ClearedWith(ps, t, blocks)[t].children) == Without(Runs(ps[t].children), IsPlainRun)
  {
    var cleared := Without(ps[t].children, Clearable);
    RunsOfCleared(ps[t].children);
    RunsAppend(cleared, blocks);
    assert Runs(cleared + blocks) == Runs(cleared) + [];
  }

  /** The cell after the edit: nothing changes without paragraphs; otherwise the target
      paragraph loses its clearable children and gains the blocks. */
  function TaglessRewrite(ps: seq<Paragraph>, oldText: string, newText: string, author: string, date: string, rid: int)
    : seq<Paragraph>
  {
    if ps == [] then ps
    else
      var t := TargetParagraph(ps);
      var f := FormatSource(Runs(ps[t].children));
      ClearedWith(ps, t, RevisionBlocks(DelBlock(oldText, f), InsBlock(newText, f), author, date, rid))
  }

  /** The revision id after the edit. */
  function TaglessNextId(ps: seq<Paragraph>, oldText: string, newText: string, rid: int): (next: int)
    ensures rid <= next <= rid + 2
  {
    if ps == [] then rid
    else
      var f := FormatSource(Runs(ps[TargetParagraph(ps)].children));
      rid + BlockCount(DelBlock(oldText, f), InsBlock(newText, f))
  }

  lemma {:induction false} RunsOfCleared(children: seq<Node>)
    ensures Runs(Without(children, Clearable)) == Without(Runs(children), IsPlainRun)
  {
    if children != [] {
      RunsOfCleared(children[1..]);
      var c := children[0];
      assert Without(children, Clearable) ==
        (if Clearable(c) then [] else [c]) + Without(children[1..], Clearable);
      RunsAppend(if Clearable(c) then [] else [c], Without(children[1..], Clearable));
      assert Runs(children) == (if c.R? then [c.run] else []) + Runs(children[1..]);
      if c.R? {
        assert Without(Runs(children), IsPlainRun) ==
          (if IsPlainRun(c.run) then [] else [c.run]) + Without(Runs(children[1..]), IsPlainRun);
      } else {
        assert Runs(children)== Runs(children[1..]);
      }
    }
  }

  lemma BlocksHaveNoRuns(del: Option<Run>, ins: Option<Run>, author: string, date: string, rid: int)
    ensures Runs(RevisionBlocks(del, ins, author, date, rid)) == []
  {
    var b := RevisionBlocks(del, ins, author, date, rid);
    RevisionBlocksShape(del, ins, author, date, rid);
    if |b| == 2 {
      assert b[1..] == [b[1]];
    } else if |b| == 1 {
      assert b[1..] == [];
    }
  }

  /** The target paragraph keeps exactly its `Tag` runs, in order, and no other paragraph
      changes. */
  lemma TaglessRewriteKeepsTagRuns(ps: seq<Paragraph>, oldText: string, newText: string, author: string, date: string, rid: int)
    requires ps != []
    ensures |TaglessRewrite(ps, oldText, newText, author, date, rid)| == |ps|
    ensures Runs(TaglessRewrite(ps, oldText, newText, author, date, rid)[TargetParagraph(ps)].children) ==
      Without(Runs(ps[TargetParagraph(ps)].children), IsPlainRun)
    ensures forall j :: 0 <= j < |ps| && j != TargetParagraph(ps) ==> TaglessRewrite(ps, oldText, newText, author, date, rid)[j] == ps[j]
  {
    var t := TargetParagraph(ps);
    var f := FormatSource(Runs(ps[t].children));
    var del, ins := DelBlock(oldText, f), InsBlock(newText, f);
    BlocksHaveNoRuns(del, ins, author, date, rid);
    ClearedWithRuns(ps, t, RevisionBlocks(del, ins, author, date, rid));
  }

  lemma {:induction false} WithoutPlainOnlyTag(rs: seq<Run>)
    ensures forall r :: r in Without(rs, IsPlainRun) ==> IsTagRun(r)
  {
    forall r | r in Without(rs, IsPlainRun)
      ensures IsTagRun(r)
    {
      WithoutSubset(rs, IsPlainRun, r);
    }
  }

  /** Clearing the target and adding run-free blocks leaves for the non-`Tag` reader only
      what the paragraphs after the target hold, when the paragraphs before it had no
      non-`Tag` run. */
  lemma ClearedWithReading(ps: seq<Paragraph>, t: nat, blocks: seq<Node>)
    requires t < |ps| && Runs(blocks) == []
    requires forall j :: 0 <= j < t ==> !HasPlainRun(Runs(ps[j].children))
    ensures PlainText(ClearedWith(ps, t, blocks)) == PlainText(ps[t + 1..])
  {
    var r := ClearedWith(ps, t, blocks);
    assert r[..t] == ps[..t];
    assert r[t + 1..] == ps[t + 1..];
    assert r == r[..t] + [r[t]] + r[t + 1..];
    PlainTextAppend(r[..t] + [r[t]], r[t + 1..]);
    PlainTextAppend(r[..t], [r[t]]);
    ClearedTargetReadsNothing(ps, t, blocks);
    NoPlainPrefixReadsNothing(ps, t);
  }

  lemma ClearedTargetReadsNothing(ps: seq<Paragraph>, t: nat, blocks: seq<Node>)
    requires t < |ps| && Runs(blocks) == []
    ensures PlainText([ClearedWith(ps, t, blocks)[t]]) == []
  {
    var r := ClearedWith(ps, t, blocks);
    ClearedWithRuns(ps, t, blocks);
    WithoutPlainOnlyTag(Runs(ps[t].children));
    assert OnlyTagRuns([r[t]]);
    PlainTextOnlyTag([r[t]]);
  }

  /** Paragraphs without a non-`Tag` direct run give the non-`Tag` reader nothing. */
  lemma NoPlainPrefixReadsNothing(ps: seq<Paragraph>, t: nat)
    requires t <= |ps|
    requires forall j :: 0 <= j < t ==> !HasPlainRun(Runs(ps[j].children))
    ensures PlainText(ps[..t]) == []
  {
    assert OnlyTagRuns(ps[..t]) by {
      forall i, x | 0 <= i < t && x in Runs(ps[..t][i].children)
        ensures IsTagRun(x)
      {
        assert ps[..t][i] == ps[i];
        HasPlainRunIff(Runs(ps[i].children));
        var k :| 0 <= k < |Runs(ps[i].children)| && Runs(ps[i].children)[k] == x;
      }
    }
    PlainTextOnlyTag(ps[..t]);
  }

  lemma TaglessRewriteIsCleared(ps: seq<Paragraph>, oldText: string, newText: string, author: string, date: string, rid: int)
    requires ps != []
    ensures var t := TargetParagraph(ps);
      var f := FormatSource(Runs(ps[t].children));
      TaglessRewrite(ps, oldText, newText, author, date, rid) ==
        ClearedWith(ps, t, RevisionBlocks(DelBlock(oldText, f), InsBlock(newText, f), author, date, rid))
  {
  }

  lemma TaglessBlocksHaveNoRuns(ps: seq<Paragraph>, oldText: string, newText: string, author: string, date: string, rid: int)
    requires ps != []
    ensures var f := FormatSource(Runs(ps[TargetParagraph(ps)].children));
      Runs(RevisionBlocks(DelBlock(oldText, f), InsBlock(newText, f), author, date, rid)) == []
  {
    var f := FormatSource(Runs(ps[TargetParagraph(ps)].children));
    BlocksHaveNoRuns(DelBlock(oldText, f), InsBlock(newText, f), author, date, rid);
  }

  /** After the edit the non-`Tag` reading finds only what the paragraphs after the target
      hold: the target's non-`Tag` runs are gone, the paragraphs before it had none, and the
      new blocks are not direct runs. */
  lemma TaglessRewriteReading(ps: seq<Paragraph>, oldText: string, newText: string, author: string, date: string, rid: int)
    requires ps != []
    ensures PlainText(TaglessRewrite(ps, oldText, newText, author, date, rid)) ==
      PlainText(ps[TargetParagraph(ps) + 1..])
  {
    var t := TargetParagraph(ps);
    var f := FormatSource(Runs(ps[t].children));
    var blocks := RevisionBlocks(DelBlock(oldText, f), InsBlock(newText, f), author, date, rid);
    TaglessRewriteIsCleared(ps, oldText, newText, author, date, rid);
    TaglessBlocksHaveNoRuns(ps, oldText, newText, author, date, rid);
    ClearedWithReading(ps, t, blocks);
  }

  /** The deletion block is written exactly when the old text is not blank; the same
      holds for the insertion block and the new text. */
  lemma BlocksPresentIff(oldText: string, newText: string, f: Option<RunProps>)
    ensures DelBlock(oldText, f).Some? <==> Strip(oldText) != []
    ensures InsBlock(newText, f).Some? <==> Strip(newText) != []
  {
    StripProtect(oldText);
    StripProtect(newText);
  }

  /** The blocks, read by the tracked-change reader, give back the protected texts: the
      deletion as `w:delText`, the insertion as `w:t`, each only when it is written. */
  lemma TaglessBlocksReadBack(oldText: string, newText: string, f: Option<RunProps>, author: string, date: string, rid: int)
    ensures var b := RevisionBlocks(DelBlock(oldText, f), InsBlock(newText, f), author, date, rid);
      TrackedUpdate.DeletedText(b) == (if DelBlock(oldText, f).Some? then ProtectTags(oldText) else []) &&
      TrackedUpdate.InsertedText(b) == (if InsBlock(newText, f).Some? then ProtectTags(newText) else [])
  {
    TrackedUpdate.BlocksReadBack(DelBlock(oldText, f), InsBlock(newText, f), author, date, rid);
    var po, pn := ProtectTags(oldText), ProtectTags(newText);
    assert TrackedUpdate.DelTextOf([DelText(po)]) == po + TrackedUpdate.DelTextOf([]);
    assert TrackedUpdate.TTextOf([T(pn)]) == pn + TrackedUpdate.TTextOf([]);
  }

  /** `replace_cell_with_track_changes`. A failed check raises before anything is touched;
      otherwise the cell is rewritten and the next free revision id returned. */
  method ReplaceCellTagless(cell: Cell, oldText: string, newText: string, author: string, date: string, rid: int)
    returns (outcome: Result<int, UpdateError>)
    modifies cell
    ensures outcome.Failure? <==> !Accepts(oldText, TaglessText(old(cell.paragraphs)))
    ensures outcome.Failure? ==> outcome.error == TextMismatch && unchanged(cell)
    ensures outcome.Success? ==>
      outcome.value == TaglessNextId(old(cell.paragraphs), oldText, newText, rid) &&
      cell.paragraphs == TaglessRewrite(old(cell.paragraphs), oldText, newText, author, date, rid)
  {
    var current := ReadTagless(cell);
    var oldProtected := ProtectTags(oldText);
    var newProtected := ProtectTags(newText);
    var currentProtected := ProtectTags(current);
    if Strip(oldText) != [] {
      if !Contains(currentProtected, Strip(oldProtected)) && !Contains(oldProtected, Strip(currentProtected)) {
        return Failure(TextMismatch);
      }
    }
    if |cell.paragraphs| == 0 {
      return Success(rid);
    }
    var t := TargetParagraph(cell.paragraphs);
    var f := FormatSource(Runs(cell.paragraphs[t].children));
    cell.RemoveChildrenWhere(t, Clearable);
    var next := cell.AppendRevisions(t, DelBlock(oldText, f), InsBlock(newText, f), author, date, rid);
    outcome := Success(next);
  }

  // ---------------------------------------------------------------------
  // find_row_by_segment_id and update_translations

  /** Row `j`'s first cell as `get_cell_text_without_tags` reads it from the cells `st`. */
  function FirstCellText(table: seq<Row>, st: TableState, j: nat): string
    requires CellsOf(table) <= st.Keys && j < |table| && |table[j].cells| > 0
  {
    CellInTable(table, j, 0);
    TaglessText(st[table[j].cells[0]])
  }

  /** The row `find_row_by_segment_id` settles on, scanning from row `i` of the table as
      the cells `st` hold it: the first row whose first cell reads, without its `Tag` runs,
      as `key`; a row without cells met first raises. */
  function FindRowFrom(table: seq<Row>, st: TableState, key: string, i: nat): (r: Result<nat, UpdateError>)
    requires CellsOf(table) <= st.Keys && i <= |table|
    ensures r.Success? ==> i <= r.value < |table| && |table[r.value].cells| > 0
    ensures r.Failure? ==> r.error == SegmentNotFound || r.error == NoFirstCell
    decreases |table| - i
  {
    if i == |table| then Failure(SegmentNotFound)
    else if |table[i].cells| == 0 then Failure(NoFirstCell)
    else if FirstCellText(table, st, i) == key then Success(i)
    else FindRowFrom(table, st, key, i + 1)
  }

  /** The row found reads as the key and every row from `i` before it has a first cell
      that does not. */
  lemma {:induction false} FindRowFromFound(table: seq<Row>, st: TableState, key: string, i: nat)
    requires CellsOf(table) <= st.Keys && i <= |table|
    ensures var r := FindRowFrom(table, st, key, i);
      r.Success? ==>
        FirstCellText(table, st, r.value) == key &&
        forall j :: i <= j < r.value ==> |table[j].cells| > 0 && FirstCellText(table, st, j) != key
    decreases |table| - i
  {
    if i < |table| && |table[i].cells| > 0 && FirstCellText(table, st, i) != key {
      FindRowFromFound(table, st, key, i + 1);
      assert FindRowFrom(table, st, key, i) == FindRowFrom(table, st, key, i + 1);
    }
  }

  /** The search fails with `SegmentNotFound` exactly when every row from `i` has a first
      cell and none reads as the key. */
  lemma {:induction false} FindRowFromMissing(table: seq<Row>, st: TableState, key: string, i: nat)
    requires CellsOf(table) <= st.Keys && i <= |table|
    ensures FindRowFrom(table, st, key, i) == Failure(SegmentNotFound) <==>
      forall j :: i <= j < |table| ==> |table[j].cells| > 0 && FirstCellText(table, st, j) != key
    decreases |table| - i
  {
    if i < |table| && |table[i].cells| > 0 && FirstCellText(table, st, i) != key {
      FindRowFromMissing(table, st, key, i + 1);
      assert FindRowFrom(table, st, key, i) == FindRowFrom(table, st, key, i + 1);
    } else if i < |table| {
      assert FindRowFrom(table, st, key, i) != Failure(SegmentNotFound);
    }
  }

  /** `find_row_by_segment_id`: scans from row 0, header included, for the first row whose
      first cell reads, without its `Tag` runs, as the stripped id. Reaching a row without
      cells raises. */
  method FindRowTagless(table: seq<Row>, id: string) returns (r: Result<nat, UpdateError>)
    ensures r == FindRowFrom(table, StateOf(table), Strip(id), 0)
  {
    var key := Strip(id);
    var i := 0;
    while i < |table|
      invariant 0 <= i <= |table|
      invariant FindRowFrom(table, StateOf(table), key, 0) == FindRowFrom(table, StateOf(table), key, i)
    {
      if |table[i].cells| == 0 {
        return Failure(NoFirstCell);
      }
      CellInTable(table, i, 0);
      var text := ReadTagless(table[i].cells[0]);
      if text == key {
        return Success(i);
      }
      i := i + 1;
    }
    return Failure(SegmentNotFound);
  }

  /** The id an entry is reported under: `segment_id`, or `"Unknown"` without one. */
  function SegmentIdOf(entry: Record): string
  {
    GetOr(entry, "segment_id", "Unknown")
  }

  function OldTextOf(entry: Record): string
  {
    GetOr(entry, "old_text", "")
  }

  function NewTextOf(entry: Record): string
  {
    GetOr(entry, "new_text", "")
  }

  /** What the loop has done so far: the cells, the success count, the failures in order
      with the id each was reported under, and the next revision id. */
  datatype Progress = Progress(state: TableState, successful: nat, failed: seq<(string, UpdateError)>, rid: int)

  /** `p` with a failure recorded under the entry's id. */
  function Failed(p: Progress, entry: Record, e: UpdateError): Progress
  {
    p.(failed := p.failed + [(SegmentIdOf(entry), e)])
  }

  /** The `try` block for one entry: find the row, check it has a fourth cell, check that
      cell's reading and rewrite it; an exception anywhere records a failure under the
      entry's id and leaves the cells and the revision id as they were. */
  function Step(table: seq<Row>, author: string, date: string, entry: Record, p: Progress): (q: Progress)
    requires CellsOf(table) <= p.state.Keys
    ensures q.state.Keys == p.state.Keys
    ensures (q.successful == p.successful + 1 && |q.failed| == |p.failed| && p.rid <= q.rid <= p.rid + 2) ||
      (q.successful == p.successful && |q.failed| == |p.failed| + 1 && q.rid == p.rid && q.state == p.state)
    ensures forall c :: c in p.state && c !in ColumnCells(table, 3) ==> q.state[c] == p.state[c]
  {
    match FindRowFrom(table, p.state, Strip(SegmentIdOf(entry)), 0)
    case Failure(e) => Failed(p, entry, e)
    case Success(r) =>
      if |table[r].cells| < 4 then Failed(p, entry, TooFewColumns)
      else
        CellInTable(table, r, 3);
        var c := table[r].cells[3];
        assert c in ColumnCells(table, 3);
        var ps := p.state[c];
        if !Accepts(OldTextOf(entry), TaglessText(ps)) then Failed(p, entry, TextMismatch)
        else Progress(p.state[c := TaglessRewrite(ps, OldTextOf(entry), NewTextOf(entry), author, date, p.rid)],
          p.successful + 1, p.failed, TaglessNextId(ps, OldTextOf(entry), NewTextOf(entry), p.rid))
  }

  /** The loop over the first `n` entries, from the cells `start` and revision id 0. */
  function Batch(table: seq<Row>, author: string, date: string, entries: seq<Record>, n: nat, start: TableState): (q: Progress)
    requires CellsOf(table) <= start.Keys && n <= |entries|
    ensures q.state.Keys == start.Keys
    ensures q.successful + |q.failed| == n && 0 <= q.rid <= 2 * q.successful
    ensures q.successful == 0 ==> q.state == start
    ensures forall c :: c in start && c !in ColumnCells(table, 3) ==> q.state[c] == start[c]
  {
    if n == 0 then Progress(start, 0, [], 0)
    else Step(table, author, date, entries[n - 1], Batch(table, author, date, entries, n - 1, start))
  }

  /** An entry succeeds exactly when its row is found, has a fourth cell, and that cell (as
      the earlier entries left it) passes the check; a failure is recorded under the
      entry's id and changes nothing else, and a success rewrites the fourth cell of the
      row found and moves the revision id past the blocks written. */
  lemma StepOutcome(table: seq<Row>, author: string, date: string, entry: Record, p: Progress)
    requires CellsOf(table) <= p.state.Keys
    ensures var q := Step(table, author, date, entry, p);
      var r := FindRowFrom(table, p.state, Strip(SegmentIdOf(entry)), 0);
      (q.successful == p.successful + 1 <==>
        r.Success? && |table[r.value].cells| >= 4 && table[r.value].cells[3] in p.state &&
        Accepts(OldTextOf(entry), TaglessText(p.state[table[r.value].cells[3]]))) &&
      (q.successful == p.successful ==>
        q.state == p.state && q.rid == p.rid && |q.failed| == |p.failed| + 1 &&
        q.failed[..|p.failed|] == p.failed && q.failed[|p.failed|].0 == SegmentIdOf(entry)) &&
      (q.successful == p.successful + 1 ==>
        var c := table[r.value].cells[3];
        q.failed == p.failed && q.rid == TaglessNextId(p.state[c], OldTextOf(entry), NewTextOf(entry), p.rid) &&
        q.state == p.state[c := TaglessRewrite(p.state[c], OldTextOf(entry), NewTextOf(entry), author, date, p.rid)])
  {
    var r := FindRowFrom(table, p.state, Strip(SegmentIdOf(entry)), 0);
    if r.Success? && |table[r.value].cells| >= 4 {
      CellInTable(table, r.value, 3);
    }
  }

  /** `replace_cell_with_track_changes` on a cell of the table, seen on the whole table. */
  method EditTarget(table: seq<Row>, cell: Cell, oldText: string, newText: string, author: string, date: string, rid: int)
    returns (outcome: Result<int, UpdateError>)
    requires cell in CellsOf(table)
    modifies cell
    ensures var before := old(StateOf(table));
      (outcome.Failure? <==> !Accepts(oldText, TaglessText(before[cell]))) &&
      (outcome.Failure? ==> outcome.error == TextMismatch && StateOf(table) == before) &&
      (outcome.Success? ==>
        outcome.value == TaglessNextId(before[cell], oldText, newText, rid) &&
        StateOf(table) == before[cell := TaglessRewrite(before[cell], oldText, newText, author, date, rid)])
  {
    ghost var before := StateOf(table);
    outcome := ReplaceCellTagless(cell, oldText, newText, author, date, rid);
    EditedOneCell(table, before, cell);
  }

  /** The `try` block of `update_translations` for one entry, on the cells as the table
      holds them. */
  method ApplyEntry(table: seq<Row>, author: string, date: string, entry: Record,
                    successful: nat, failed: seq<(string, UpdateError)>, rid: int)
    returns (successful': nat, failed': seq<(string, UpdateError)>, rid': int)
    modifies CellsOf(table)
    ensures Progress(StateOf(table), successful', failed', rid') ==
      Step(table, author, date, entry, old(Progress(StateOf(table), successful, failed, rid)))
  {
    StepOutcome(table, author, date, entry, Progress(StateOf(table), successful, failed, rid));
    successful', failed', rid' := successful, failed, rid;
    var segmentId := SegmentIdOf(entry);
    var found := FindRowTagless(table, segmentId);
    if found.Failure? {
      failed' := failed + [(segmentId, found.error)];
      return;
    }
    var at := found.value;
    if |table[at].cells| < 4 {
      failed' := failed + [(segmentId, TooFewColumns)];
      return;
    }
    CellInTable(table, at, 3);
    var outcome := EditTarget(table, table[at].cells[3], OldTextOf(entry), NewTextOf(entry), author, date, rid);
    if outcome.Failure? {
      failed' := failed + [(segmentId, outcome.error)];
      return;
    }
    successful', rid' := successful + 1, outcome.value;
  }

  /** The loop of `update_translations`, with revision ids from 0: the cells, the success
      count, the failures and the next revision id are those of `Batch` over every entry. */
  method UpdateTranslations(table: seq<Row>, translations: seq<Record>, author: string, date: string)
    returns (successful: nat, failed: seq<(string, UpdateError)>, nextId: int)
    modifies CellsOf(table)
    ensures Progress(StateOf(table), successful, failed, nextId) ==
      Batch(table, author, date, translations, |translations|, old(StateOf(table)))
  {
    ghost var start := StateOf(table);
    successful, failed, nextId := 0, [], 0;
    var k := 0;
    while k < |translations|
      invariant 0 <= k <= |translations|
      invariant Batch(table, author, date, translations, k, start) == Progress(StateOf(table), successful, failed, nextId)
    {
      successful, failed, nextId := ApplyEntry(table, author, date, translations[k], successful, failed, nextId);
      k := k + 1;
    }
  }
}
