/**
 * The update script for cells that already carry tracked changes. It reads
 * the expected old text from the cell's plain text or from the text inside
 * its `w:del` and `w:ins` elements, accepts the existing revisions (drops
 * every deletion, unwraps every insertion), then writes the new deletion and
 * insertion exactly as the smart-filter script does.
 */
module TrackedUpdate {
  import opened Wrappers
  import opened Text
  import opened Docx
  import opened RowIndex
  import opened Translations
  import SmartUpdate

  /** The revision id of the batch's first edit. */
  const FirstRevisionId: int := 1000

  // ---------------------------------------------------------------------
  // get_cell_text_from_tracked_changes

  /** The text of the `w:delText` items, in order. */
  function DelTextOf(items: seq<RunItem>): string
  {
    if items == [] then [] else (if items[0].DelText? then items[0].text else []) + DelTextOf(items[1..])
  }

  /** The text of the `w:t` items, in order; a `w:br` is not a `w:t` and reads as nothing. */
  function TTextOf(items: seq<RunItem>): string
  {
    if items == [] then [] else (if items[0].T? then items[0].text else []) + TTextOf(items[1..])
  }

  function RunsDelText(runs: seq<Run>): string
  {
    if runs == [] then [] else DelTextOf(runs[0].items) + RunsDelText(runs[1..])
  }

  function RunsTText(runs: seq<Run>): string
  {
    if runs == [] then [] else TTextOf(runs[0].items) + RunsTText(runs[1..])
  }

  /** What `read_deleted` takes from a paragraph: the `w:delText` inside each direct `w:del`. */
  function DeletedText(children: seq<Node>): string
  {
    if children == [] then []
    else (if children[0].Del? then RunsDelText(children[0].rev.runs) else []) + DeletedText(children[1..])
  }

  /** What `read_inserted` takes from a paragraph: the `w:t` inside each direct `w:ins`. */
  function InsertedText(children: seq<Node>): string
  {
    if children == [] then []
    else (if children[0].Ins? then RunsTText(children[0].rev.runs) else []) + InsertedText(children[1..])
  }

  predicate ReadsDeleted(mode: string)
  {
    mode == "read_deleted" || mode == "read_both"
  }

  predicate ReadsInserted(mode: string)
  {
    mode == "read_inserted" || mode == "read_both"
  }

  /** One paragraph's contribution: its deleted text, then its inserted text. */
  function ParagraphTrackedText(p: Paragraph, mode: string): string
  {
    (if ReadsDeleted(mode) then DeletedText(p.children) else []) +
    (if ReadsInserted(mode) then InsertedText(p.children) else [])
  }

  function RawTrackedText(ps: seq<Paragraph>, mode: string): string
  {
    if ps == [] then [] else ParagraphTrackedText(ps[0], mode) + RawTrackedText(ps[1..], mode)
  }

  /** `get_cell_text_from_tracked_changes`: the contributions joined with no separator, stripped. */
  function TrackedText(ps: seq<Paragraph>, mode: string): string
  {
    Strip(RawTrackedText(ps, mode))
  }

  lemma {:induction false} RawTrackedTextOther(ps: seq<Paragraph>, mode: string)
    requires !ReadsDeleted(mode) && !ReadsInserted(mode)
    ensures RawTrackedText(ps, mode) == []
  {
    if ps != [] {
      RawTrackedTextOther(ps[1..], mode);
    }
  }

  /** A mode other than the three reads nothing. */
  lemma TrackedTextOtherMode(ps: seq<Paragraph>, mode: string)
    requires mode != "read_deleted" && mode != "read_inserted" && mode != "read_both"
    ensures TrackedText(ps, mode) == []
  {
    RawTrackedTextOther(ps, mode);
  }

  /** Each paragraph's deleted text followed by its inserted text. */
  function BothParts(ps: seq<Paragraph>): (r: seq<string>)
    ensures |r| == |ps| && forall i :: 0 <= i < |ps| ==> r[i] == DeletedText(ps[i].children) + InsertedText(ps[i].children)
  {
    seq(|ps|, i requires 0 <= i < |ps| => DeletedText(ps[i].children) + InsertedText(ps[i].children))
  }

  /** What each mode takes from one paragraph. */
  lemma ParagraphModes(p: Paragraph)
    ensures ParagraphTrackedText(p, "read_both") == DeletedText(p.children) + InsertedText(p.children)
    ensures ParagraphTrackedText(p, "read_deleted") == DeletedText(p.children)
    ensures ParagraphTrackedText(p, "read_inserted") == InsertedText(p.children)
  {
    assert ReadsDeleted("read_both") && ReadsInserted("read_both");
    assert ReadsDeleted("read_deleted") && !ReadsInserted("read_deleted");
    assert !ReadsDeleted("read_inserted") && ReadsInserted("read_inserted");
    assert [] + InsertedText(p.children) == InsertedText(p.children);
    assert DeletedText(p.children) + [] == DeletedText(p.children);
  }

  /** `read_both` goes paragraph by paragraph, each paragraph's deleted text before its
      inserted text, with no separator (not the line break the doc comment promises); for
      a single paragraph it is the deleted text followed by the inserted text. */
  lemma {:induction false} RawTrackedTextBoth(ps: seq<Paragraph>)
    ensures RawTrackedText(ps, "read_both") == Concat(BothParts(ps))
    ensures |ps| == 1 ==>
      RawTrackedText(ps, "read_both") == RawTrackedText(ps, "read_deleted") + RawTrackedText(ps, "read_inserted")
  {
    if ps != [] {
      ParagraphModes(ps[0]);
      RawTrackedTextBoth(ps[1..]);
      assert BothParts(ps)[1..] == BothParts(ps[1..]);
      if |ps| == 1 {
        var d, n := DeletedText(ps[0].children), InsertedText(ps[0].children);
        assert RawTrackedText(ps, "read_deleted") == d + [];
        assert RawTrackedText(ps, "read_inserted") == n + [];
      }
    }
  }

  /** `read_both` reads exactly the characters `read_deleted` and `read_inserted` read
      together. */
  lemma {:induction false} RawTrackedTextBothChars(ps: seq<Paragraph>)
    ensures multiset(RawTrackedText(ps, "read_both")) ==
      multiset(RawTrackedText(ps, "read_deleted")) + multiset(RawTrackedText(ps, "read_inserted"))
  {
    if ps != [] {
      ParagraphModes(ps[0]);
      RawTrackedTextBothChars(ps[1..]);
    }
  }

  lemma RawTrackedTextSnoc(ps: seq<Paragraph>, i: nat, mode: string)
    requires i < |ps|
    ensures RawTrackedText(ps[..i + 1], mode) == RawTrackedText(ps[..i], mode) + ParagraphTrackedText(ps[i], mode)
  {
    assert ps[..i + 1] == ps[..i] + [ps[i]];
    RawTrackedTextAppend(ps[..i], [ps[i]], mode);
    assert RawTrackedText([ps[i]], mode) == ParagraphTrackedText(ps[i], mode) + RawTrackedText([], mode);
  }

  lemma {:induction false} RawTrackedTextAppend(a: seq<Paragraph>, b: seq<Paragraph>, mode: string)
    ensures RawTrackedText(a + b, mode) == RawTrackedText(a, mode) + RawTrackedText(b, mode)
  {
    if a != [] {
      TailOfAppend(a, b);
      RawTrackedTextAppend(a[1..], b, mode);
    } else {
      assert a + b == b;
    }
  }

  method ReadTracked(cell: Cell, mode: string) returns (text: string)
    ensures text == TrackedText(cell.paragraphs, mode)
  {
    var ps := cell.paragraphs;
    var acc: string := [];
    var i := 0;
    assert ps[..0] == [];
    while i < |ps|
      invariant 0 <= i <= |ps|
      invariant acc == RawTrackedText(ps[..i], mode)
    {
      RawTrackedTextSnoc(ps, i, mode);
      var part := ReadParagraph(ps[i], mode);
      acc := acc + part;
      i := i + 1;
    }
    assert ps[..i] == ps;
    text := Strip(acc);
  }

  /** The loop body of `get_cell_text_from_tracked_changes`, for one paragraph. */
  method ReadParagraph(p: Paragraph, mode: string) returns (part: string)
    ensures part == ParagraphTrackedText(p, mode)
  {
    part := [];
    if mode == "read_deleted" || mode == "read_both" {
      part := DeletedText(p.children);
    }
    if mode == "read_inserted" || mode == "read_both" {
      part := part + InsertedText(p.children);
    }
  }

  // ---------------------------------------------------------------------
  // get_cell_text_normal_or_tracked

  datatype Source = Normal | DeletedSource | InsertedSource | Empty

  /** `get_cell_text_normal_or_tracked`: the stripped `cell.text` if it is not blank, else
      the deleted text if there is any, else the inserted text, each with the source it
      came from; `Empty` exactly when all three are empty. */
  function NormalOrTracked(ps: seq<Paragraph>): (r: (string, Source))
    ensures r.1 == Normal <==> Strip(CellText(ps)) != []
    ensures r.1 == DeletedSource <==> Strip(CellText(ps)) == [] && TrackedText(ps, "read_deleted") != []
    ensures r.1 == InsertedSource <==>
      Strip(CellText(ps)) == [] && TrackedText(ps, "read_deleted") == [] && TrackedText(ps, "read_inserted") != []
    ensures r.1 == Empty <==> r.0 == []
    ensures r.1 == Normal ==> r.0 == Strip(CellText(ps))
    ensures r.1 == DeletedSource ==> r.0 == TrackedText(ps, "read_deleted")
    ensures r.1 == InsertedSource ==> r.0 == TrackedText(ps, "read_inserted")
  {
    var normal := Strip(CellText(ps));
    if normal != [] then (normal, Normal)
    else
      var deleted := TrackedText(ps, "read_deleted");
      if deleted != [] then (deleted, DeletedSource)
      else
        var inserted := TrackedText(ps, "read_inserted");
        if inserted != [] then (inserted, InsertedSource) else ([], Empty)
  }

  // ---------------------------------------------------------------------
  // clear_cell_tracked_changes

  predicate IsDelNode(n: Node)
  {
    n.Del?
  }

  predicate IsRevisionNode(n: Node)
  {
    n.Del? || n.Ins?
  }

  predicate IsRunOrRevision(n: Node)
  {
    n.R? || n.Del? || n.Ins?
  }

  /** The runs as paragraph children. */
  function RunNodes(rs: seq<Run>): (r: seq<Node>)
    ensures |r| == |rs| && forall i :: 0 <= i < |rs| ==> r[i] == R(rs[i])
  {
    seq(|rs|, i requires 0 <= i < |rs| => R(rs[i]))
  }

  /** `f` applied to every element, the results concatenated in order. */
  function FlatMap(s: seq<Node>, f: Node -> seq<Node>): seq<Node>
  {
    if s == [] then [] else f(s[0]) + FlatMap(s[1..], f)
  }

  lemma {:induction false} FlatMapAppend(a: seq<Node>, b: seq<Node>, f: Node -> seq<Node>)
    ensures FlatMap(a + b, f) == FlatMap(a, f) + FlatMap(b, f)
  {
    if a != [] {
      TailOfAppend(a, b);
      FlatMapAppend(a[1..], b, f);
    } else {
      assert a + b == b;
    }
  }

  lemma FlatMapSnoc(s: seq<Node>, k: nat, f: Node -> seq<Node>)
    requires k < |s|
    ensures FlatMap(s[..k + 1], f) == FlatMap(s[..k], f) + f(s[k])
  {
    assert s[..k + 1] == s[..k] + [s[k]];
    FlatMapAppend(s[..k], [s[k]], f);
    assert FlatMap([s[k]], f) == f(s[k]) + FlatMap([], f);
  }

  /** An insertion replaced by its runs; every other child kept. */
  function SpliceOne(n: Node): seq<Node>
  {
    if n.Ins? then RunNodes(n.rev.runs) else [n]
  }

  /** A child as it is after the revisions are accepted: a deletion is gone, an insertion
      is replaced by its runs, anything else stays. */
  function Unwrap(n: Node): seq<Node>
  {
    if n.Del? then [] else SpliceOne(n)
  }

  /** A paragraph's children after its revisions are accepted. */
  function Unwrapped(children: seq<Node>): seq<Node>
  {
    FlatMap(children, Unwrap)
  }

  /** The two passes of the source, deletions first and then insertions, give `Unwrapped`. */
  lemma {:induction false} UnwrappedInTwoPasses(children: seq<Node>)
    ensures FlatMap(Without(children, IsDelNode), SpliceOne) == Unwrapped(children)
  {
    if children != [] {
      UnwrappedInTwoPasses(children[1..]);
      var head := if children[0].Del? then [] else [children[0]];
      assert Without(children, IsDelNode) == head + Without(children[1..], IsDelNode);
      FlatMapAppend(head, Without(children[1..], IsDelNode), SpliceOne);
      if !children[0].Del? {
        assert FlatMap(head, SpliceOne) == SpliceOne(children[0]) + FlatMap([], SpliceOne);
      }
    }
  }

  /** No direct `w:del` or `w:ins` is left. */
  lemma {:induction false} UnwrappedNoRevisions(children: seq<Node>)
    ensures forall n :: n in Unwrapped(children) ==> !IsRevisionNode(n)
  {
    if children != [] {
      UnwrappedNoRevisions(children[1..]);
      assert Unwrapped(children) == Unwrap(children[0]) + Unwrapped(children[1..]);
    }
  }

  lemma {:induction false} WithoutRunNodes(rs: seq<Run>)
    ensures Without(RunNodes(rs), IsRunOrRevision) == []
  {
    if rs != [] {
      assert RunNodes(rs)[1..] == RunNodes(rs[1..]);
      WithoutRunNodes(rs[1..]);
    }
  }

  /** The children that are neither runs nor revisions keep their relative order. */
  lemma {:induction false} UnwrappedKeepsOthers(children: seq<Node>)
    ensures Without(Unwrapped(children), IsRunOrRevision) == Without(children, IsRunOrRevision)
  {
    if children != [] {
      var c := children[0];
      UnwrappedKeepsOthers(children[1..]);
      WithoutAppend(Unwrap(c), Unwrapped(children[1..]), IsRunOrRevision);
      if c.Ins? {
        WithoutRunNodes(c.rev.runs);
      }
    }
  }

  /** The runs a paragraph shows once its revisions are accepted: its direct runs and the
      runs of its insertions, in document order. */
  function AcceptedRuns(children: seq<Node>): seq<Run>
  {
    if children == [] then []
    else
      var c := children[0];
      (if c.R? then [c.run] else if c.Ins? then c.rev.runs else []) + AcceptedRuns(children[1..])
  }

  lemma {:induction false} RunsOfRunNodes(rs: seq<Run>)
    ensures Runs(RunNodes(rs)) == rs
  {
    if rs != [] {
      assert RunNodes(rs)[1..] == RunNodes(rs[1..]);
      RunsOfRunNodes(rs[1..]);
    }
  }

  /** Each insertion's runs take its place, in their original order. */
  lemma {:induction false} UnwrappedRuns(children: seq<Node>)
    ensures Runs(Unwrapped(children)) == AcceptedRuns(children)
  {
    if children != [] {
      var c := children[0];
      UnwrappedRuns(children[1..]);
      RunsAppend(Unwrap(c), Unwrapped(children[1..]));
      if c.Ins? {
        RunsOfRunNodes(c.rev.runs);
      }
    }
  }

  /** Accepting the revisions a second time changes nothing. */
  lemma {:induction false} UnwrappedIdempotent(children: seq<Node>)
    ensures Unwrapped(Unwrapped(children)) == Unwrapped(children)
  {
    UnwrappedNoRevisions(children);
    UnwrapIdentity(Unwrapped(children));
  }

  lemma {:induction false} UnwrapIdentity(children: seq<Node>)
    requires forall n :: n in children ==> !IsRevisionNode(n)
    ensures Unwrapped(children) == children
  {
    if children != [] {
      assert forall n :: n in children[1..] ==> n in children;
      UnwrapIdentity(children[1..]);
      assert children[0] in children;
      assert Unwrapped(children) == Unwrap(children[0]) + Unwrapped(children[1..]);
    }
  }

  function ClearedParagraphs(ps: seq<Paragraph>): (r: seq<Paragraph>)
    ensures |r| == |ps|
  {
    seq(|ps|, i requires 0 <= i < |ps| => Paragraph(Unwrapped(ps[i].children)))
  }

  /** Moves the runs of the `w:ins` at position `at` in front of it one by one, advancing
      the insert position, then removes the emptied `w:ins`. */
  method SpliceAt(kids: seq<Node>, at: nat) returns (r: seq<Node>, next: nat)
    requires at < |kids| && kids[at].Ins?
    ensures r == kids[..at] + RunNodes(kids[at].rev.runs) + kids[at + 1..]
    ensures next == at + |kids[at].rev.runs|
  {
    var rs := kids[at].rev.runs;
    r := kids;
    next := at;
    var m := 0;
    assert RunNodes(rs[..0]) == [];
    assert kids == kids[..at] + kids[at..];
    while m < |rs|
      invariant 0 <= m <= |rs| && next == at + m
      invariant r == kids[..at] + RunNodes(rs[..m]) + kids[at..]
    {
      ghost var pre := kids[..at] + RunNodes(rs[..m]);
      assert r[..next] == pre && r[next..] == kids[at..];
      r := r[..next] + [R(rs[m])] + r[next..];
      assert RunNodes(rs[..m + 1]) == RunNodes(rs[..m]) + [R(rs[m])];
      m := m + 1;
      next := next + 1;
    }
    assert rs[..m] == rs;
    assert r[next] == kids[at];
    assert r[..next] == kids[..at] + RunNodes(rs) && r[next + 1..] == kids[at + 1..];
    r := r[..next] + r[next + 1..];
  }

  lemma SplitAround(kids: seq<Node>, done: seq<Node>, x: Node, rest: seq<Node>)
    requires kids == done + ([x] + rest)
    ensures kids[..|done|] == done && kids[|done|] == x && kids[|done| + 1..] == rest
    ensures kids == (done + [x]) + rest
  {
  }

  /** The second pass over one paragraph: every `w:ins`, in document order, is replaced by
      its runs. */
  method SpliceInsertions(snapshot: seq<Node>) returns (kids: seq<Node>)
    ensures kids == FlatMap(snapshot, SpliceOne)
  {
    kids := snapshot;
    var j, pos := 0, 0;
    assert snapshot[..0] == [] && snapshot[0..] == snapshot;
    while j < |snapshot|
      invariant 0 <= j <= |snapshot|
      invariant pos == |FlatMap(snapshot[..j], SpliceOne)|
      invariant kids == FlatMap(snapshot[..j], SpliceOne) + snapshot[j..]
    {
      ghost var done := FlatMap(snapshot[..j], SpliceOne);
      ghost var rest := snapshot[j + 1..];
      FlatMapSnoc(snapshot, j, SpliceOne);
      DropCons(snapshot, j);
      SplitAround(kids, done, snapshot[j], rest);
      if snapshot[j].Ins? {
        kids, pos := SpliceAt(kids, pos);
      } else {
        pos := pos + 1;
      }
      AppendAssoc(done, SpliceOne(snapshot[j]), rest);
      j := j + 1;
    }
    assert snapshot[..j] == snapshot;
    assert kids == FlatMap(snapshot, SpliceOne) + [];
  }

  /** `clear_cell_tracked_changes` on one paragraph. */
  method ClearParagraph(cell: Cell, pi: nat)
    requires pi < |cell.paragraphs|
    modifies cell
    ensures cell.paragraphs == old(cell.paragraphs)[pi := Paragraph(Unwrapped(old(cell.paragraphs[pi].children)))]
  {
    cell.RemoveChildrenWhere(pi, IsDelNode);
    var kids := SpliceInsertions(cell.paragraphs[pi].children);
    UnwrappedInTwoPasses(old(cell.paragraphs[pi].children));
    cell.paragraphs := cell.paragraphs[pi := Paragraph(kids)];
  }

  /** `clear_cell_tracked_changes`: accepts every revision of every paragraph. */
  method ClearTrackedChanges(cell: Cell)
    modifies cell
    ensures cell.paragraphs == ClearedParagraphs(old(cell.paragraphs))
  {
    var i := 0;
    while i < |cell.paragraphs|
      invariant 0 <= i <= |cell.paragraphs|
      invariant |cell.paragraphs| == |old(cell.paragraphs)|
      invariant forall j :: 0 <= j < i ==> cell.paragraphs[j] == Paragraph(Unwrapped(old(cell.paragraphs[j].children)))
      invariant forall j :: i <= j < |cell.paragraphs| ==> cell.paragraphs[j] == old(cell.paragraphs[j])
    {
      ClearParagraph(cell, i);
      i := i + 1;
    }
    assert cell.paragraphs == ClearedParagraphs(old(cell.paragraphs));
  }

  // ---------------------------------------------------------------------
  // replace_cell_with_track_changes_from_tracked

  /** The update mode that accepts the old revisions and writes new ones; any other mode
      leaves the cell as it is. */
  predicate ClearsAndReplaces(updateMode: string)
  {
    updateMode == "clear_and_replace"
  }

  /** The text the replacement compares with the expected old text. */
  function CurrentText(ps: seq<Paragraph>, readingMode: string): string
  {
    if readingMode == "auto" then NormalOrTracked(ps).0 else TrackedText(ps, readingMode)
  }

  /** The cell after a successful `clear_and_replace`: revisions accepted, then rewritten
      as by the smart-filter script. */
  function TrackedRewrite(ps: seq<Paragraph>, oldText: string, newText: string, author: string, date: string, rid: int): seq<Paragraph>
  {
    SmartUpdate.SmartRewrite(ClearedParagraphs(ps), oldText, newText, author, date, rid)
  }

  /** No direct `w:del` or `w:ins` among the children. */
  predicate NoRevisionIn(children: seq<Node>)
  {
    forall n :: n in children ==> !IsRevisionNode(n)
  }

  lemma {:induction false} NoRevisionsNoText(children: seq<Node>)
    requires NoRevisionIn(children)
    ensures DeletedText(children) == [] && InsertedText(children) == []
  {
    if children != [] {
      assert forall n :: n in children[1..] ==> n in children;
      NoRevisionsNoText(children[1..]);
      assert children[0] in children;
    }
  }

  lemma {:induction false} TrackedTextsAppend(a: seq<Node>, b: seq<Node>)
    ensures DeletedText(a + b) == DeletedText(a) + DeletedText(b)
    ensures InsertedText(a + b) == InsertedText(a) + InsertedText(b)
  {
    if a != [] {
      TailOfAppend(a, b);
      TrackedTextsAppend(a[1..], b);
    } else {
      assert a + b == b;
    }
  }

  /** The tracked-change reader finds in the blocks the `w:delText` of the deletion run and
      the `w:t` of the insertion run. */
  lemma BlocksReadBack(del: Option<Run>, ins: Option<Run>, author: string, date: string, rid: int)
    ensures var b := RevisionBlocks(del, ins, author, date, rid);
      DeletedText(b) == (if del.Some? then DelTextOf(del.value.items) else []) &&
      InsertedText(b) == (if ins.Some? then TTextOf(ins.value.items) else [])
  {
    var db: seq<Node> := if del.Some? then [Del(Revision(rid, author, date, [del.value]))] else [];
    var ib: seq<Node> := if ins.Some? then [Ins(Revision(rid + (if del.Some? then 1 else 0), author, date, [ins.value]))] else [];
    TrackedTextsAppend(db, ib);
    if del.Some? {
      assert RunsDelText([del.value]) == DelTextOf(del.value.items) + RunsDelText([]);
      assert DeletedText(db) == RunsDelText([del.value]) + DeletedText([]);
      assert InsertedText(db) == [] + InsertedText([]);
    }
    if ins.Some? {
      assert RunsTText([ins.value]) == TTextOf(ins.value.items) + RunsTText([]);
      assert InsertedText(ib) == RunsTText([ins.value]) + InsertedText([]);
      assert DeletedText(ib) == [] + DeletedText([]);
    }
  }

  lemma {:induction false} DelTextOfAppend(a: seq<RunItem>, b: seq<RunItem>)
    ensures DelTextOf(a + b) == DelTextOf(a) + DelTextOf(b)
  {
    if a != [] {
      TailOfAppend(a, b);
      DelTextOfAppend(a[1..], b);
    } else {
      assert a + b == b;
    }
  }

  /** Text written by `add_run` holds no `w:delText`. */
  lemma {:induction false} PiecesItemsNoDelText(pieces: seq<string>)
    requires |pieces| >= 1
    ensures DelTextOf(PiecesItems(pieces)) == []
  {
    if |pieces| > 1 {
      PiecesItemsNoDelText(pieces[1..]);
      DelTextOfAppend(PieceItems(pieces[0]) + [Br], PiecesItems(pieces[1..]));
      DelTextOfAppend(PieceItems(pieces[0]), [Br]);
    }
  }

  /** The two new blocks: the deletion holds no `w:delText`, the insertion holds the new text. */
  lemma RevisionBlocksTrackedText(oldText: string, newText: string, author: string, date: string, rid: int)
    ensures var blocks := [Del(Revision(rid, author, date, [NewRun(oldText)])),
                           Ins(Revision(rid + 1, author, date, [SmartUpdate.InsertedRun(newText)]))];
      DeletedText(blocks) == [] && InsertedText(blocks) == newText
  {
    var blocks := [Del(Revision(rid, author, date, [NewRun(oldText)])),
                   Ins(Revision(rid + 1, author, date, [SmartUpdate.InsertedRun(newText)]))];
    PiecesItemsNoDelText(SplitOn(CrToLf(oldText), '\n'));
    assert blocks[1..] == [blocks[1]];
    assert [blocks[1]][1..] == [];
    assert RunsDelText([NewRun(oldText)]) == DelTextOf(LineItems(oldText)) + RunsDelText([]);
    assert DeletedText([blocks[1]]) == [] + DeletedText([]);
    assert DeletedText(blocks) == RunsDelText([NewRun(oldText)]) + DeletedText([blocks[1]]);
    assert SmartUpdate.InsertedRun(newText).items == [T(newText)];
    assert TTextOf([T(newText)]) == newText + TTextOf([]);
    assert RunsTText([SmartUpdate.InsertedRun(newText)]) == TTextOf([T(newText)]) + RunsTText([]);
    assert InsertedText([blocks[1]]) == RunsTText([SmartUpdate.InsertedRun(newText)]) + InsertedText([]);
    assert InsertedText(blocks) == [] + InsertedText([blocks[1]]);
  }

  /** Paragraph by paragraph: only paragraph 0 holds revisions, and they are the two new blocks. */
  lemma TrackedRewriteParagraphs(ps: seq<Paragraph>, oldText: string, newText: string, author: string, date: string, rid: int)
    ensures var r := TrackedRewrite(ps, oldText, newText, author, date, rid);
      |r| >= 1 &&
      DeletedText(r[0].children) == [] && InsertedText(r[0].children) == newText &&
      forall j :: 1 <= j < |r| ==> NoRevisionIn(r[j].children)
  {
    var cleared := ClearedParagraphs(ps);
    var r := TrackedRewrite(ps, oldText, newText, author, date, rid);
    var blocks := [Del(Revision(rid, author, date, [NewRun(oldText)])),
                   Ins(Revision(rid + 1, author, date, [SmartUpdate.InsertedRun(newText)]))];
    SmartUpdate.SmartRewriteShape(cleared, oldText, newText, author, date, rid);
    forall j | 0 <= j < |cleared|
      ensures NoRevisionIn(Without(cleared[j].children, IsRunNode))
    {
      forall n | n in Without(cleared[j].children, IsRunNode)
        ensures !IsRevisionNode(n)
      {
        WithoutSubset(cleared[j].children, IsRunNode, n);
        UnwrappedNoRevisions(ps[j].children);
      }
    }
    var pre := if ps == [] then [] else Without(cleared[0].children, IsRunNode);
    assert r[0].children == pre + blocks;
    NoRevisionsNoText(pre);
    TrackedTextsAppend(pre, blocks);
    RevisionBlocksTrackedText(oldText, newText, author, date, rid);
  }

  lemma {:induction false} RestTrackedTextEmpty(ps: seq<Paragraph>, mode: string)
    requires forall j :: 0 <= j < |ps| ==> NoRevisionIn(ps[j].children)
    ensures RawTrackedText(ps, mode) == []
  {
    if ps != [] {
      NoRevisionsNoText(ps[0].children);
      RestTrackedTextEmpty(ps[1..], mode);
    }
  }

  /** When no paragraph after the first holds a revision, the first one alone is read. */
  lemma FirstParagraphRead(r: seq<Paragraph>, mode: string)
    requires |r| >= 1 && forall j :: 1 <= j < |r| ==> NoRevisionIn(r[j].children)
    ensures RawTrackedText(r, mode) == ParagraphTrackedText(r[0], mode)
  {
    RestTrackedTextEmpty(r[1..], mode);
  }

  /** After the rewrite, every reading mode that reads insertions finds exactly the new
      text, and `read_deleted` finds nothing: the deletion holds the old text as `w:t`,
      not as `w:delText`. */
  lemma TrackedRewriteReadsBack(ps: seq<Paragraph>, oldText: string, newText: string, author: string, date: string,
                                rid: int, mode: string)
    ensures TrackedText(TrackedRewrite(ps, oldText, newText, author, date, rid), mode) ==
      if ReadsInserted(mode) then Strip(newText) else []
  {
    var r := TrackedRewrite(ps, oldText, newText, author, date, rid);
    TrackedRewriteParagraphs(ps, oldText, newText, author, date, rid);
    FirstParagraphRead(r, mode);
    if ReadsInserted(mode) {
      assert ParagraphTrackedText(r[0], mode) == newText;
    } else {
      assert ParagraphTrackedText(r[0], mode) == [];
      StripEmptyIff(RawTrackedText(r, mode));
    }
  }

  /** After the rewrite `cell.text` is blank, so the automatic reading falls through to the
      inserted text, and reports an empty cell only when the new text is blank. */
  lemma TrackedRewriteReadsAuto(ps: seq<Paragraph>, oldText: string, newText: string, author: string, date: string, rid: int)
    ensures var r := TrackedRewrite(ps, oldText, newText, author, date, rid);
      Strip(CellText(r)) == [] &&
      NormalOrTracked(r) == (Strip(newText), if Strip(newText) == [] then Empty else InsertedSource)
  {
    var r := TrackedRewrite(ps, oldText, newText, author, date, rid);
    SmartUpdate.SmartRewriteShape(ClearedParagraphs(ps), oldText, newText, author, date, rid);
    var ts := ParagraphTexts(r);
    assert forall j :: 0 <= j < |ts| ==> ts[j] == [];
    JoinOfBlanks("\n", ts);
    StripEmptyIff(CellText(r));
    TrackedRewriteReadsBack(ps, oldText, newText, author, date, rid, "read_deleted");
    TrackedRewriteReadsBack(ps, oldText, newText, author, date, rid, "read_inserted");
  }

  /** `replace_cell_with_track_changes_from_tracked`. A mismatch leaves the cell as it is
      and fails; an update mode other than `clear_and_replace` succeeds without touching
      the cell; otherwise the revisions are accepted and the cell rewritten. */
  method ReplaceCellTracked(cell: Cell, oldText: string, newText: string, author: string, date: string,
                            rid: int, readingMode: string, updateMode: string) returns (ok: bool)
    modifies cell
    ensures ok <==> CurrentText(old(cell.paragraphs), readingMode) == oldText
    ensures ok && ClearsAndReplaces(updateMode) ==>
      cell.paragraphs == TrackedRewrite(old(cell.paragraphs), oldText, newText, author, date, rid)
    ensures !ok || !ClearsAndReplaces(updateMode) ==> unchanged(cell)
  {
    var current: string;
    if readingMode == "auto" {
      var pair := NormalOrTracked(cell.paragraphs);
      current := pair.0;
    } else {
      current := ReadTracked(cell, readingMode);
    }
    if current != oldText {
      return false;
    }
    if ClearsAndReplaces(updateMode) {
      ClearTrackedChanges(cell);
      cell.RemoveDirectRuns();
      cell.EnsureOneParagraph();
      var next := cell.AppendRevisions(0, Some(NewRun(oldText)), Some(SmartUpdate.InsertedRun(newText)), author, date, rid);
    }
    ok := true;
  }

  // ---------------------------------------------------------------------
  // update_translations

  /** The old text of an entry: `old_text` if present, else `old_translation`, else empty; stripped. */
  function OldTextOf(entry: Record): (r: string)
    ensures "old_text" in entry ==> r == Strip(entry["old_text"])
    ensures "old_text" !in entry && "old_translation" in entry ==> r == Strip(entry["old_translation"])
    ensures "old_text" !in entry && "old_translation" !in entry ==> r == []
  {
    Strip(GetOr(entry, "old_text", GetOr(entry, "old_translation", "")))
  }

  /** The new text of an entry, with the same key precedence. */
  function NewTextOf(entry: Record): (r: string)
    ensures "new_text" in entry ==> r == Strip(entry["new_text"])
    ensures "new_text" !in entry && "new_translation" in entry ==> r == Strip(entry["new_translation"])
    ensures "new_text" !in entry && "new_translation" !in entry ==> r == []
  {
    Strip(GetOr(entry, "new_text", GetOr(entry, "new_translation", "")))
  }

  /** The loop's progress: the cells, both counters and the next revision id. */
  type Progress = SmartUpdate.Progress

  /** The cell after a successful entry: rewritten in `clear_and_replace` mode, as it was
      in any other mode. */
  function Updated(ps: seq<Paragraph>, oldText: string, newText: string, author: string, date: string, rid: int,
                   updateMode: string): seq<Paragraph>
  {
    if ClearsAndReplaces(updateMode) then TrackedRewrite(ps, oldText, newText, author, date, rid) else ps
  }

  /** One pass of the loop body: an entry without a target fails; otherwise it succeeds
      exactly when its cell reads as the old text, and a success moves the revision id by 2
      whether or not the mode writes anything. */
  function Step(table: seq<Row>, rowMap: map<string, nat>, author: string, date: string, readingMode: string,
                updateMode: string, entry: Record, p: Progress): (q: Progress)
    requires IndexesTable(table, rowMap) && CellsOf(table) <= p.state.Keys
    ensures q.state.Keys == p.state.Keys
  {
    match SmartUpdate.TargetCell(table, rowMap, entry)
    case None => p.(fail := p.fail + 1)
    case Some(c) =>
      var ps := p.state[c];
      if CurrentText(ps, readingMode) == OldTextOf(entry) then
        SmartUpdate.Progress(p.state[c := Updated(ps, OldTextOf(entry), NewTextOf(entry), author, date, p.rid, updateMode)],
          p.success + 1, p.fail, p.rid + 2)
      else p.(fail := p.fail + 1)
  }

  /** The loop over the first `n` entries, from the cells `start`. */
  function Batch(table: seq<Row>, rowMap: map<string, nat>, author: string, date: string, readingMode: string,
                 updateMode: string, entries: seq<Record>, n: nat, start: TableState): (q: Progress)
    requires IndexesTable(table, rowMap) && CellsOf(table) <= start.Keys && n <= |entries|
    ensures q.state.Keys == start.Keys
  {
    if n == 0 then SmartUpdate.Progress(start, 0, 0, FirstRevisionId)
    else Step(table, rowMap, author, date, readingMode, updateMode, entries[n - 1],
      Batch(table, rowMap, author, date, readingMode, updateMode, entries, n - 1, start))
  }

  /** An entry succeeds exactly when it names a row and that row's fourth cell, as the
      earlier entries left it, reads as its old text; a failure changes nothing but the
      failure count, and a success updates its own cell and uses two revision ids. */
  lemma StepOutcome(table: seq<Row>, rowMap: map<string, nat>, author: string, date: string, readingMode: string,
                    updateMode: string, entry: Record, p: Progress)
    requires IndexesTable(table, rowMap) && CellsOf(table) <= p.state.Keys
    ensures var q := Step(table, rowMap, author, date, readingMode, updateMode, entry, p);
      var c := SmartUpdate.TargetCell(table, rowMap, entry);
      (q.success == p.success + 1 <==> c.Some? && CurrentText(p.state[c.value], readingMode) == OldTextOf(entry)) &&
      (q.success == p.success ==> q.state == p.state && q.fail == p.fail + 1 && q.rid == p.rid) &&
      (q.success == p.success + 1 ==>
        q.fail == p.fail && q.rid == p.rid + 2 &&
        q.state == p.state[c.value := Updated(p.state[c.value], OldTextOf(entry), NewTextOf(entry), author, date, p.rid, updateMode)])
  {
  }

  /** Every entry is counted once, and the revision id moves by 2 per success only. */
  lemma {:induction false} BatchCounts(table: seq<Row>, rowMap: map<string, nat>, author: string, date: string,
                                      readingMode: string, updateMode: string, entries: seq<Record>, n: nat, start: TableState)
    requires IndexesTable(table, rowMap) && CellsOf(table) <= start.Keys && n <= |entries|
    ensures var q := Batch(table, rowMap, author, date, readingMode, updateMode, entries, n, start);
      q.success + q.fail == n && q.rid == FirstRevisionId + 2 * q.success
  {
    if n > 0 {
      var p := Batch(table, rowMap, author, date, readingMode, updateMode, entries, n - 1, start);
      BatchCounts(table, rowMap, author, date, readingMode, updateMode, entries, n - 1, start);
      StepOutcome(table, rowMap, author, date, readingMode, updateMode, entries[n - 1], p);
    }
  }

  /** A cell that no entry names keeps its paragraphs, and in any mode other than
      `clear_and_replace` no cell changes at all. */
  lemma {:induction false} BatchUntouched(table: seq<Row>, rowMap: map<string, nat>, author: string, date: string,
                                         readingMode: string, updateMode: string, entries: seq<Record>, n: nat,
                                         start: TableState, c: Cell)
    requires IndexesTable(table, rowMap) && CellsOf(table) <= start.Keys && n <= |entries|
    requires c in start
    requires !ClearsAndReplaces(updateMode) || forall k :: 0 <= k < n ==> SmartUpdate.TargetCell(table, rowMap, entries[k]) != Some(c)
    ensures Batch(table, rowMap, author, date, readingMode, updateMode, entries, n, start).state[c] == start[c]
  {
    if n > 0 {
      var p := Batch(table, rowMap, author, date, readingMode, updateMode, entries, n - 1, start);
      BatchUntouched(table, rowMap, author, date, readingMode, updateMode, entries, n - 1, start, c);
      StepOutcome(table, rowMap, author, date, readingMode, updateMode, entries[n - 1], p);
    }
  }

  /** When no entry names a row, every entry fails and the document is left as it was. */
  lemma {:induction false} BatchUnknownIds(table: seq<Row>, rowMap: map<string, nat>, author: string, date: string,
                                          readingMode: string, updateMode: string, entries: seq<Record>, n: nat,
                                          start: TableState)
    requires IndexesTable(table, rowMap) && CellsOf(table) <= start.Keys && n <= |entries|
    requires forall k :: 0 <= k < n ==> SmartUpdate.TargetRow(rowMap, entries[k]).None?
    ensures Batch(table, rowMap, author, date, readingMode, updateMode, entries, n, start) ==
      SmartUpdate.Progress(start, 0, n, FirstRevisionId)
  {
    if n > 0 {
      var p := Batch(table, rowMap, author, date, readingMode, updateMode, entries, n - 1, start);
      BatchUnknownIds(table, rowMap, author, date, readingMode, updateMode, entries, n - 1, start);
      StepOutcome(table, rowMap, author, date, readingMode, updateMode, entries[n - 1], p);
    }
  }

  /** `replace_cell_with_track_changes_from_tracked` on a cell of the table, seen on the
      whole table. */
  method EditTarget(table: seq<Row>, cell: Cell, oldText: string, newText: string, author: string, date: string,
                    rid: int, readingMode: string, updateMode: string) returns (ok: bool)
    requires cell in CellsOf(table)
    modifies cell
    ensures var before := old(StateOf(table));
      (ok <==> CurrentText(before[cell], readingMode) == oldText) &&
      StateOf(table) == if ok then before[cell := Updated(before[cell], oldText, newText, author, date, rid, updateMode)] else before
  {
    ghost var before := StateOf(table);
    ok := ReplaceCellTracked(cell, oldText, newText, author, date, rid, readingMode, updateMode);
    EditedOneCell(table, before, cell);
  }

  /** One pass of the loop body, on the cells as the table holds them. */
  method ApplyEntry(table: seq<Row>, rowMap: map<string, nat>, author: string, date: string, readingMode: string,
                    updateMode: string, entry: Record, success: nat, fail: nat, rid: int)
    returns (success': nat, fail': nat, rid': int)
    requires IndexesTable(table, rowMap)
    modifies CellsOf(table)
    ensures SmartUpdate.Progress(StateOf(table), success', fail', rid') ==
      Step(table, rowMap, author, date, readingMode, updateMode, entry, old(SmartUpdate.Progress(StateOf(table), success, fail, rid)))
  {
    success', fail', rid' := success, fail, rid;
    var oldText := OldTextOf(entry);
    var newText := NewTextOf(entry);
    var target := SmartUpdate.TargetRow(rowMap, entry);
    if target.None? {
      fail' := fail + 1;
      return;
    }
    CellInTable(table, target.value, 3);
    var cell := table[target.value].cells[3];
    var ok := EditTarget(table, cell, oldText, newText, author, date, rid, readingMode, updateMode);
    if ok {
      success' := success + 1;
      rid' := rid + 2;
    } else {
      fail' := fail + 1;
    }
  }

  /** The loop over the entries, against an index of the table. */
  method ApplyAll(table: seq<Row>, rowMap: map<string, nat>, author: string, date: string, readingMode: string,
                  updateMode: string, translations: seq<Record>)
    returns (success: nat, fail: nat, nextId: int)
    requires IndexesTable(table, rowMap)
    modifies CellsOf(table)
    ensures SmartUpdate.Progress(StateOf(table), success, fail, nextId) ==
      Batch(table, rowMap, author, date, readingMode, updateMode, translations, |translations|, old(StateOf(table)))
  {
    ghost var start := StateOf(table);
    success, fail, nextId := 0, 0, FirstRevisionId;
    var k := 0;
    while k < |translations|
      invariant 0 <= k <= |translations|
      invariant Batch(table, rowMap, author, date, readingMode, updateMode, translations, k, start) ==
        SmartUpdate.Progress(StateOf(table), success, fail, nextId)
    {
      success, fail, nextId := ApplyEntry(table, rowMap, author, date, readingMode, updateMode, translations[k],
                                          success, fail, nextId);
      k := k + 1;
    }
  }

  /** `update_translations`: the entries are taken from the file (a bare list or a
      `translations` wrapper); a file whose entries cannot be read fails before any cell is
      touched, and otherwise the cells, the tally and the next revision id are those of
      `Batch` over every entry, against the index built beforehand. */
  method UpdateTranslations(table: seq<Row>, file: TranslationsFile, author: string, date: string,
                            readingMode: string, updateMode: string)
    returns (outcome: Result<Tally, string>, nextId: int)
    modifies CellsOf(table)
    ensures outcome.Success? <==> TranslationList(file).Success?
    ensures outcome.Failure? ==> unchanged(CellsOf(table))
    ensures outcome.Success? ==>
      var q := Batch(table, old(RowMap(table)), author, date, readingMode, updateMode,
                     TranslationList(file).value, |TranslationList(file).value|, old(StateOf(table)));
      StateOf(table) == q.state && outcome.value == Tally(q.success, q.fail) && nextId == q.rid
  {
    var rowMap := BuildRowMap(table);
    nextId := FirstRevisionId;
    var list := TranslationList(file);
    if list.Failure? {
      return Failure(list.error), nextId;
    }
    var success, fail;
    success, fail, nextId := ApplyAll(table, rowMap, author, date, readingMode, updateMode, list.value);
    outcome := Success(Tally(success, fail));
  }
}
