/**
 * The part of a Word document the scripts touch: a table is a list of rows,
 * a row a list of cells, a cell a list of paragraphs, and a paragraph a list
 * of child elements (runs, tracked deletions and insertions, hyperlinks,
 * bookmarks, paragraph properties). A cell is an object because the scripts
 * edit its paragraphs in place; everything below a cell is a value.
 *
 * What python-docx exposes is fixed here as an explicit modelling choice:
 * `paragraph.runs` are the direct `w:r` children of the paragraph, a run's
 * text is its `w:t` text with every `w:br` read as a line break, setting a
 * run's text writes a `w:br` for each line feed and for each carriage return,
 * and `cell.text` joins the paragraph texts with line breaks.
 */
module Docx {
  import opened Wrappers
  import opened Text

  /** The character style the scripts treat specially. */
  const TagStyle: string := "Tag"

  /** `w:rPr`: the value of its first `w:rStyle` and the rest of the formatting, kept opaque. */
  datatype RunProps = RunProps(style: Option<string>, format: string)

  /** The content children of a `w:r` that the scripts read or write. */
  datatype RunItem = T(text: string) | DelText(text: string) | Br

  /** `w:r`: optional properties, then content. */
  datatype Run = Run(rPr: Option<RunProps>, items: seq<RunItem>)

  /** The attributes and runs of a `w:del` or `w:ins` element. */
  datatype Revision = Revision(id: int, author: string, date: string, runs: seq<Run>)

  /** A direct child of a `w:p`. */
  datatype Node =
    | R(run: Run)
    | Del(rev: Revision)
    | Ins(rev: Revision)
    | Hyperlink(linked: seq<Run>)
    | BookmarkStart
    | BookmarkEnd
    | PPr(props: string)
    | Other(name: string)

  datatype Paragraph = Paragraph(children: seq<Node>)

  /** The XML element name of a paragraph child. */
  function NodeName(n: Node): string
  {
    match n
    case R(_) => "w:r"
    case Del(_) => "w:del"
    case Ins(_) => "w:ins"
    case Hyperlink(_) => "w:hyperlink"
    case BookmarkStart => "w:bookmarkStart"
    case BookmarkEnd => "w:bookmarkEnd"
    case PPr(_) => "w:pPr"
    case Other(name) => name
  }

  predicate IsRunNode(n: Node)
  {
    n.R?
  }

  /** A run whose first `w:rStyle` has the value `Tag`; a run without `w:rPr` is not one. */
  predicate IsTagRun(r: Run)
  {
    r.rPr.Some? && r.rPr.value.style == Some(TagStyle)
  }

  // ---------------------------------------------------------------------
  // Reading text the way python-docx does

  function ItemText(item: RunItem): string
  {
    match item
    case T(text) => text
    case DelText(_) => ""
    case Br => "\n"
  }

  function ItemsText(items: seq<RunItem>): string
  {
    if items == [] then [] else ItemText(items[0]) + ItemsText(items[1..])
  }

  /** `run.text`. */
  function RunText(r: Run): string
  {
    ItemsText(r.items)
  }

  /** `paragraph.runs`: the direct `w:r` children, in order. */
  function Runs(children: seq<Node>): (rs: seq<Run>)
    ensures |rs| <= |children|
  {
    if children == [] then []
    else (if children[0].R? then [children[0].run] else []) + Runs(children[1..])
  }

  function RunsText(rs: seq<Run>): string
  {
    if rs == [] then [] else RunText(rs[0]) + RunsText(rs[1..])
  }

  /** `paragraph.text`. */
  function ParagraphText(p: Paragraph): string
  {
    RunsText(Runs(p.children))
  }

  function ParagraphTexts(ps: seq<Paragraph>): (ts: seq<string>)
    ensures |ts| == |ps|
    ensures forall i :: 0 <= i < |ps| ==> ts[i] == ParagraphText(ps[i])
  {
    if ps == [] then [] else [ParagraphText(ps[0])] + ParagraphTexts(ps[1..])
  }

  /** `cell.text`: the paragraph texts joined with line breaks. */
  function CellText(ps: seq<Paragraph>): string
  {
    Join("\n", ParagraphTexts(ps))
  }

  // ---------------------------------------------------------------------
  // Writing text the way python-docx does

  function PieceItems(piece: string): seq<RunItem>
  {
    if piece == [] then [] else [T(piece)]
  }

  /** One `w:t` per non-empty piece, a `w:br` between consecutive pieces. */
  function PiecesItems(pieces: seq<string>): seq<RunItem>
    requires |pieces| >= 1
  {
    if |pieces| == 1 then PieceItems(pieces[0])
    else PieceItems(pieces[0]) + [Br] + PiecesItems(pieces[1..])
  }

  /** The text with every carriage return read as a line feed. */
  function CrToLf(text: string): (r: string)
    ensures '\r' !in r
  {
    ReplaceChar(text, '\r', "\n")
  }

  /** `CrToLf` character by character; text without a carriage return is left as it is. */
  lemma CrToLfPointwise(text: string)
    ensures |CrToLf(text)| == |text|
    ensures forall i :: 0 <= i < |text| ==> CrToLf(text)[i] == (if text[i] == '\r' then '\n' else text[i])
    ensures '\r' !in text ==> CrToLf(text) == text
  {
    ReplaceCharPointwise(text, '\r', '\n');
  }

  lemma CrToLfAppend(a: string, b: string)
    ensures CrToLf(a + b) == CrToLf(a) + CrToLf(b)
  {
    ReplaceCharAppend(a, b, '\r', "\n");
  }

  /** The content the `run.text` setter writes: the text split at line breaks, where a
      carriage return breaks the line just as a line feed does. */
  function LineItems(text: string): seq<RunItem>
  {
    PiecesItems(SplitOn(CrToLf(text), '\n'))
  }

  /** `paragraph.add_run(text)`: a run without properties holding `text`. */
  function NewRun(text: string): Run
  {
    Run(None, LineItems(text))
  }

  lemma {:induction false} ItemsTextAppend(a: seq<RunItem>, b: seq<RunItem>)
    ensures ItemsText(a + b) == ItemsText(a) + ItemsText(b)
  {
    if a != [] {
      TailOfAppend(a, b);
      ItemsTextAppend(a[1..], b);
    } else {
      assert a + b == b;
    }
  }

  lemma {:induction false} PiecesItemsText(pieces: seq<string>)
    requires |pieces| >= 1
    ensures ItemsText(PiecesItems(pieces)) == Join("\n", pieces)
  {
    if |pieces| > 1 {
      PiecesItemsText(pieces[1..]);
      ItemsTextAppend(PieceItems(pieces[0]) + [Br], PiecesItems(pieces[1..]));
      ItemsTextAppend(PieceItems(pieces[0]), [Br]);
    }
  }

  /** Reading back what the `run.text` setter wrote gives the text that was set, except that
      each carriage return comes back as a line feed; text without one reads back unchanged. */
  lemma LineItemsRoundTrip(text: string)
    ensures ItemsText(LineItems(text)) == CrToLf(text)
    ensures '\r' !in text ==> ItemsText(LineItems(text)) == text
  {
    PiecesItemsText(SplitOn(CrToLf(text), '\n'));
    JoinSplitOn(CrToLf(text), '\n');
    CrToLfPointwise(text);
  }

  /** Setting text that already reads back as itself writes the same content. */
  lemma LineItemsCrToLf(text: string)
    ensures LineItems(CrToLf(text)) == LineItems(text)
  {
    CrToLfPointwise(text);
    CrToLfPointwise(CrToLf(text));
    assert CrToLf(CrToLf(text)) == CrToLf(text);
  }

  /** `run.text = text`: the run keeps its properties and its content becomes `text`. */
  function WithText(r: Run, text: string): Run
  {
    Run(r.rPr, LineItems(text))
  }

  /** Reading back what the setter wrote gives the text that was set, with carriage returns
      read as line feeds. */
  lemma WithTextReadsBack(r: Run, text: string)
    ensures RunText(WithText(r, text)) == CrToLf(text) && WithText(r, text).rPr == r.rPr
  {
    LineItemsRoundTrip(text);
  }

  /** A run added with `add_run(text)` reads back as `text`, with carriage returns read as
      line feeds. */
  lemma NewRunText(text: string)
    ensures RunText(NewRun(text)) == CrToLf(text)
  {
    LineItemsRoundTrip(text);
  }

  // ---------------------------------------------------------------------
  // Removing children

  /** The elements of `s` that `drop` does not select, in order. */
  function Without<T>(s: seq<T>, drop: T -> bool): (r: seq<T>)
    ensures |r| <= |s|
  {
    if s == [] then [] else (if drop(s[0]) then [] else [s[0]]) + Without(s[1..], drop)
  }

  lemma {:induction false} WithoutAppend<T>(a: seq<T>, b: seq<T>, drop: T -> bool)
    ensures Without(a + b, drop) == Without(a, drop) + Without(b, drop)
  {
    if a != [] {
      TailOfAppend(a, b);
      WithoutAppend(a[1..], b, drop);
    } else {
      assert a + b == b;
    }
  }

  lemma WithoutStep<T>(s: seq<T>, k: nat, drop: T -> bool)
    requires k < |s|
    ensures Without(s[..k + 1], drop) == Without(s[..k], drop) + (if drop(s[k]) then [] else [s[k]])
  {
    assert s[..k + 1] == s[..k] + [s[k]];
    WithoutAppend(s[..k], [s[k]], drop);
  }

  /** Walks a snapshot of the children and removes, one by one, those `drop` selects
      from the live list. */
  method RemoveWhere(snapshot: seq<Node>, drop: Node -> bool) returns (kids: seq<Node>)
    ensures kids == Without(snapshot, drop)
  {
    kids := snapshot;
    var k, pos := 0, 0;
    ghost var kept: seq<Node> := [];
    while k < |snapshot|
      invariant 0 <= k <= |snapshot|
      invariant kept == Without(snapshot[..k], drop)
      invariant pos == |kept| && kids == kept + snapshot[k..]
    {
      WithoutStep(snapshot, k, drop);
      DropCons(snapshot, k);
      CutAt(kept, snapshot[k], snapshot[k + 1..]);
      if drop(snapshot[k]) {
        kids := kids[..pos] + kids[pos + 1..];
      } else {
        kept := kept + [snapshot[k]];
        pos := pos + 1;
      }
      k := k + 1;
    }
    assert snapshot[..k] == snapshot;
    assert kids == kept + [];
  }

  /** No element `drop` selects is left. */
  lemma {:induction false} WithoutDrops<T>(s: seq<T>, drop: T -> bool)
    ensures forall i :: 0 <= i < |Without(s, drop)| ==> !drop(Without(s, drop)[i])
  {
    if s != [] {
      WithoutDrops(s[1..], drop);
    }
  }

  /** Every element `drop` does not select is kept. */
  lemma {:induction false} WithoutKeeps<T>(s: seq<T>, drop: T -> bool, x: T)
    requires x in s && !drop(x)
    ensures x in Without(s, drop)
  {
    if s[0] == x {
      assert Without(s, drop)[0] == x;
    } else {
      assert x in s[1..];
      WithoutKeeps(s[1..], drop, x);
    }
  }

  /** Nothing is added. */
  lemma {:induction false} WithoutSubset<T>(s: seq<T>, drop: T -> bool, x: T)
    requires x in Without(s, drop)
    ensures x in s && !drop(x)
  {
    if s != [] {
      if x != s[0] || drop(s[0]) {
        assert x in Without(s[1..], drop);
        WithoutSubset(s[1..], drop, x);
      }
    }
  }

  /** A paragraph with its direct runs removed. */
  function NoRuns(p: Paragraph): Paragraph
  {
    Paragraph(Without(p.children, IsRunNode))
  }

  function ParagraphsWithoutRuns(ps: seq<Paragraph>): (r: seq<Paragraph>)
    ensures |r| == |ps|
  {
    seq(|ps|, i requires 0 <= i < |ps| => NoRuns(ps[i]))
  }

  lemma {:induction false} RunsAppend(a: seq<Node>, b: seq<Node>)
    ensures Runs(a + b) == Runs(a) + Runs(b)
  {
    if a != [] {
      TailOfAppend(a, b);
      RunsAppend(a[1..], b);
    } else {
      assert a + b == b;
    }
  }

  /** Removing the direct runs leaves a paragraph whose `runs` is empty. */
  lemma {:induction false} NoRunsLeft(children: seq<Node>)
    ensures Runs(Without(children, IsRunNode)) == []
  {
    if children != [] {
      NoRunsLeft(children[1..]);
      var head := if children[0].R? then [] else [children[0]];
      assert Without(children, IsRunNode) == head + Without(children[1..], IsRunNode);
      RunsAppend(head, Without(children[1..], IsRunNode));
    }
  }

  /** Appending children to paragraph `i`. */
  function AppendTo(ps: seq<Paragraph>, i: nat, nodes: seq<Node>): (r: seq<Paragraph>)
    requires i < |ps|
    ensures |r| == |ps| && r[i].children == ps[i].children + nodes
    ensures forall j :: 0 <= j < |ps| && j != i ==> r[j] == ps[j]
  {
    ps[i := Paragraph(ps[i].children + nodes)]
  }

  lemma AppendToTwice(ps: seq<Paragraph>, i: nat, a: seq<Node>, b: seq<Node>)
    requires i < |ps|
    ensures AppendTo(AppendTo(ps, i, a), i, b) == AppendTo(ps, i, a + b)
  {
    assert ps[i].children + a + b == ps[i].children + (a + b);
  }

  /** Two sequences that agree everywhere except at `i`, where the first holds `x`. */
  lemma UpdatedAt<T>(a: seq<T>, b: seq<T>, i: nat, x: T)
    requires |a| == |b| && i < |a| && a[i] == x
    requires forall j :: 0 <= j < |a| && j != i ==> a[j] == b[j]
    ensures a == b[i := x]
  {
  }

  /** `if not cell.paragraphs: cell.add_paragraph()`. */
  function EnsureParagraph(ps: seq<Paragraph>): (r: seq<Paragraph>)
    ensures |r| >= 1
    ensures ps != [] ==> r == ps
  {
    if ps == [] then [Paragraph([])] else ps
  }

  // ---------------------------------------------------------------------
  // Tracked-change blocks

  /** An optional `w:del` holding `del` with id `rid`, then an optional `w:ins` holding
      `ins` with the next free id. */
  function RevisionBlocks(del: Option<Run>, ins: Option<Run>, author: string, date: string, rid: int): seq<Node>
  {
    (if del.Some? then [Del(Revision(rid, author, date, [del.value]))] else []) +
    (if ins.Some? then [Ins(Revision(rid + (if del.Some? then 1 else 0), author, date, [ins.value]))] else [])
  }

  function BlockCount(del: Option<Run>, ins: Option<Run>): nat
  {
    (if del.Some? then 1 else 0) + (if ins.Some? then 1 else 0)
  }

  /** The blocks are one per present run, deletion first, and use the ids `rid` up to but
      excluding `rid + BlockCount(..)`, each once. */
  lemma RevisionBlocksShape(del: Option<Run>, ins: Option<Run>, author: string, date: string, rid: int)
    ensures var b := RevisionBlocks(del, ins, author, date, rid);
      |b| == BlockCount(del, ins) &&
      (forall k :: 0 <= k < |b| ==>
        (b[k].Del? || b[k].Ins?) && b[k].rev.id == rid + k && b[k].rev.author == author && b[k].rev.date == date) &&
      (del.Some? ==> b[0] == Del(Revision(rid, author, date, [del.value]))) &&
      (ins.Some? ==> b[|b| - 1].Ins? && b[|b| - 1].rev.runs == [ins.value])
  {
  }

  /** Blocks whose ids run consecutively from `start`. */
  predicate IdsFrom(blocks: seq<Node>, start: int)
  {
    forall k :: 0 <= k < |blocks| ==> (blocks[k].Del? || blocks[k].Ins?) && blocks[k].rev.id == start + k
  }

  lemma IdsAppend(a: seq<Node>, b: seq<Node>, start: int)
    requires IdsFrom(a, start) && IdsFrom(b, start + |a|)
    ensures IdsFrom(a + b, start)
  {
    forall k | 0 <= k < |a + b|
      ensures ((a + b)[k].Del? || (a + b)[k].Ins?) && (a + b)[k].rev.id == start + k
    {
      if k >= |a| {
        assert (a + b)[k] == b[k - |a|];
      }
    }
  }

  // ---------------------------------------------------------------------
  // Table cells

  /** A table cell (`w:tc`), whose paragraphs the scripts edit in place. */
  class Cell {
    var paragraphs: seq<Paragraph>

    constructor (ps: seq<Paragraph>)
      ensures paragraphs == ps
    {
      paragraphs := ps;
    }

    /** `cell.add_paragraph()`: an empty paragraph at the end. */
    method AddParagraph()
      modifies this
      ensures paragraphs == old(paragraphs) + [Paragraph([])]
    {
      paragraphs := paragraphs + [Paragraph([])];
    }

    /** `if not cell.paragraphs: cell.add_paragraph()`. */
    method EnsureOneParagraph()
      modifies this
      ensures paragraphs == EnsureParagraph(old(paragraphs))
    {
      if paragraphs == [] {
        AddParagraph();
      }
    }

    /** `p.append(node)` on paragraph `pi`. */
    method AppendChild(pi: nat, n: Node)
      requires pi < |paragraphs|
      modifies this
      ensures paragraphs == AppendTo(old(paragraphs), pi, [n])
    {
      paragraphs := paragraphs[pi := Paragraph(paragraphs[pi].children + [n])];
    }

    /** `p.insert(k, node)` on paragraph `pi`. */
    method InsertChild(pi: nat, k: nat, n: Node)
      requires pi < |paragraphs| && k <= |paragraphs[pi].children|
      modifies this
      ensures var cs := old(paragraphs[pi].children);
        paragraphs == old(paragraphs)[pi := Paragraph(cs[..k] + [n] + cs[k..])]
    {
      var cs := paragraphs[pi].children;
      paragraphs := paragraphs[pi := Paragraph(cs[..k] + [n] + cs[k..])];
    }

    /** `run.text = text` on the direct run at child position `k` of paragraph `pi`. */
    method SetRunText(pi: nat, k: nat, text: string)
      requires pi < |paragraphs| && k < |paragraphs[pi].children| && paragraphs[pi].children[k].R?
      modifies this
      ensures var cs := old(paragraphs[pi].children);
        paragraphs == old(paragraphs)[pi := Paragraph(cs[k := R(WithText(cs[k].run, text))])]
    {
      var cs := paragraphs[pi].children;
      paragraphs := paragraphs[pi := Paragraph(cs[k := R(WithText(cs[k].run, text))])];
    }

    /** `p.remove(child)` for the child at position `k` of paragraph `pi`. */
    method RemoveChild(pi: nat, k: nat)
      requires pi < |paragraphs| && k < |paragraphs[pi].children|
      modifies this
      ensures var cs := old(paragraphs[pi].children);
        paragraphs == old(paragraphs)[pi := Paragraph(cs[..k] + cs[k + 1..])]
    {
      var cs := paragraphs[pi].children;
      paragraphs := paragraphs[pi := Paragraph(cs[..k] + cs[k + 1..])];
    }

    /** `for child in list(p): if drop(child): p.remove(child)` on paragraph `pi`. */
    method RemoveChildrenWhere(pi: nat, drop: Node -> bool)
      requires pi < |paragraphs|
      modifies this
      ensures paragraphs == old(paragraphs)[pi := Paragraph(Without(old(paragraphs[pi].children), drop))]
    {
      var kids := RemoveWhere(paragraphs[pi].children, drop);
      paragraphs := paragraphs[pi := Paragraph(kids)];
    }

    /** `for paragraph in cell.paragraphs: for run in paragraph.runs: remove(run)`. */
    method RemoveDirectRuns()
      modifies this
      ensures paragraphs == ParagraphsWithoutRuns(old(paragraphs))
    {
      var i := 0;
      while i < |paragraphs|
        invariant 0 <= i <= |paragraphs|
        invariant |paragraphs| == |old(paragraphs)|
        invariant forall j :: 0 <= j < i ==> paragraphs[j] == NoRuns(old(paragraphs[j]))
        invariant forall j :: i <= j < |paragraphs| ==> paragraphs[j] == old(paragraphs[j])
      {
        RemoveChildrenWhere(i, IsRunNode);
        i := i + 1;
      }
      assert paragraphs == ParagraphsWithoutRuns(old(paragraphs));
    }

    /** Appends the optional deletion and insertion blocks to paragraph `pi` and returns
        the next free revision id. */
    method AppendRevisions(pi: nat, del: Option<Run>, ins: Option<Run>, author: string, date: string, rid: int)
      returns (next: int)
      requires pi < |paragraphs|
      modifies this
      ensures paragraphs == AppendTo(old(paragraphs), pi, RevisionBlocks(del, ins, author, date, rid))
      ensures next == rid + BlockCount(del, ins)
    {
      next := rid;
      var first: seq<Node> := [];
      assert old(paragraphs)[pi].children + first == old(paragraphs)[pi].children;
      assert AppendTo(old(paragraphs), pi, first) == old(paragraphs);
      if del.Some? {
        first := [Del(Revision(next, author, date, [del.value]))];
        AppendChild(pi, first[0]);
        next := next + 1;
      }
      assert paragraphs == AppendTo(old(paragraphs), pi, first);
      if ins.Some? {
        var second := Ins(Revision(next, author, date, [ins.value]));
        AppendChild(pi, second);
        AppendToTwice(old(paragraphs), pi, first, [second]);
        next := next + 1;
      } else {
        assert RevisionBlocks(del, ins, author, date, rid) == first;
      }
    }
  }

  /** A table row (`w:tr`) with its cells. */
  datatype Row = Row(cells: seq<Cell>)

  /** Every cell of a table. */
  function CellsOf(table: seq<Row>): set<Cell>
  {
    set r, c | r in table && c in r.cells :: c
  }

  lemma CellInTable(table: seq<Row>, i: nat, j: nat)
    requires i < |table| && j < |table[i].cells|
    ensures table[i].cells[j] in CellsOf(table)
  {
    var r := table[i];
    assert r in table && r.cells[j] in r.cells;
  }

  /** The cells standing in column `k` of some row. */
  function ColumnCells(table: seq<Row>, k: nat): set<Cell>
  {
    set r | 0 <= r < |table| && k < |table[r].cells| :: table[r].cells[k]
  }

  type TableState = map<Cell, seq<Paragraph>>

  /** The paragraphs of every cell of a table at one moment. A cell that several
      positions share (a merged cell) has one entry, so an edit made through one
      position shows at all of them. */
  function StateOf(table: seq<Row>): (s: TableState)
    reads CellsOf(table)
    ensures s.Keys == CellsOf(table)
  {
    map c | c in CellsOf(table) :: c.paragraphs
  }

  /** An edit confined to one cell changes the table state at that cell only. */
  lemma EditedOneCell(table: seq<Row>, before: TableState, c: Cell)
    requires c in CellsOf(table) && before.Keys == CellsOf(table)
    requires forall d :: d in before && d != c ==> before[d] == d.paragraphs
    ensures StateOf(table) == before[c := c.paragraphs]
  {
  }
}
