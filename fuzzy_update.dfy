/**
 * The fuzzy update script. It is the simple script with a second way of
 * checking the old text: besides the substring test, a fuzzy test that
 * normalises whitespace and accepts equal texts, texts of which one contains
 * the other, and texts whose word sets are similar enough (Jaccard index at
 * least a threshold, 0.9 by default). The edit, the row search and the final
 * tag restoration are the simple script's.
 */
module FuzzyUpdate {
  import opened Wrappers
  import opened Text
  import opened Docx
  import opened Translations
  import opened TagProtector
  import SimpleUpdate

  // ---------------------------------------------------------------------
  // normalize_text

  /** `normalize_text`: `""` for empty input, otherwise `' '.join(text.split()).strip()`. */
  function Normalize(text: string): string
  {
    if text == [] then [] else Strip(NormalizeSpace(text))
  }

  /** The final `strip()` and the empty-input guard change nothing: the result is the
      whitespace normal form. */
  lemma NormalizeIsNormalForm(text: string)
    ensures Normalize(text) == NormalizeSpace(text)
  {
    NormalizeSpaceShape(text);
  }

  /** Normalised text has no edge whitespace, only single spaces between words, no other
      whitespace character, and normalising again changes nothing. */
  lemma NormalizeShape(text: string)
    ensures var r := Normalize(text);
      Strip(r) == r && Normalize(r) == r &&
      forall i :: 0 <= i < |r| && IsSpace(r[i]) ==>
        r[i] == ' ' && 0 < i < |r| - 1 && !IsSpace(r[i - 1]) && !IsSpace(r[i + 1])
  {
    NormalizeIsNormalForm(text);
    NormalizeSpaceShape(text);
    NormalizeIsNormalForm(NormalizeSpace(text));
    NormalizeSpaceIdempotent(text);
  }

  /** Normalising keeps the words. */
  lemma NormalizeKeepsWords(text: string)
    ensures Words(Normalize(text)) == Words(text)
  {
    NormalizeIsNormalForm(text);
    WordsOfJoinedWords(Words(text));
  }

  /** A blank text normalises to the empty text. */
  lemma NormalizeBlank(text: string)
    requires Strip(text) == []
    ensures Normalize(text) == []
  {
    WordsStrip(text);
    NormalizeIsNormalForm(text);
  }

  // ---------------------------------------------------------------------
  // fuzzy_match

  /** The similarity threshold as a fraction `num / den`. */
  datatype Fraction = Fraction(num: nat, den: nat)
  type Ratio = t: Fraction | t.den > 0 witness Fraction(0, 1)

  /** The default threshold, 0.9. */
  const DefaultThreshold: Ratio := Fraction(9, 10)

  /** `set(text.split())`. */
  function WordSet(text: string): set<string>
  {
    set w | w in Words(text)
  }

  /** `len(w1 & w2) / len(w1 | w2) >= threshold`, cross-multiplied. */
  predicate SimilarEnough(w1: set<string>, w2: set<string>, t: Ratio)
  {
    |w1 * w2| * t.den >= t.num * |w1 + w2|
  }

  /** `fuzzy_match(text1, text2, threshold)`. */
  function FuzzyMatch(text1: string, text2: string, t: Ratio): bool
  {
    var n1, n2 := Normalize(text1), Normalize(text2);
    if n1 == n2 then true
    else if Contains(n2, n1) || Contains(n1, n2) then true
    else
      var w1, w2 := WordSet(n1), WordSet(n2);
      if w1 == {} || w2 == {} then false
      else SimilarEnough(w1, w2, t)
  }

  /** Every text matches itself, and the test does not depend on the order of its
      arguments. */
  lemma FuzzyMatchReflexiveSymmetric(a: string, b: string, t: Ratio)
    ensures FuzzyMatch(a, a, t)
    ensures FuzzyMatch(a, b, t) == FuzzyMatch(b, a, t)
  {
    var w1, w2 := WordSet(Normalize(a)), WordSet(Normalize(b));
    assert w1 * w2 == w2 * w1 && w1 + w2 == w2 + w1;
  }

  /** When one normalised text contains the other, they match whatever the threshold. */
  lemma FuzzyMatchContained(a: string, b: string, t: Ratio)
    requires Contains(Normalize(b), Normalize(a)) || Contains(Normalize(a), Normalize(b))
    ensures FuzzyMatch(a, b, t)
  {
  }

  /** A blank text matches everything, on either side. */
  lemma FuzzyMatchBlank(a: string, b: string, t: Ratio)
    requires Strip(a) == []
    ensures FuzzyMatch(a, b, t) && FuzzyMatch(b, a, t)
  {
    NormalizeBlank(a);
    assert Contains(Normalize(b), Normalize(a));
  }

  lemma WordSetEmpty(text: string)
    ensures WordSet(text) == {} <==> Words(text) == []
  {
    if Words(text) != [] {
      assert Words(text)[0] in WordSet(text);
    }
  }

  /** A text without words normalises to the empty text. */
  lemma NoWordsNormalizeEmpty(text: string)
    requires WordSet(Normalize(text)) == {}
    ensures Normalize(text) == []
  {
    WordSetEmpty(Normalize(text));
    NormalizeKeepsWords(text);
    NormalizeIsNormalForm(text);
  }

  /** So the guard against an empty word set is never reached: by the time the word sets
      are compared, neither side is blank. Past the containment test the result is exactly
      the Jaccard comparison on the words of the two texts. */
  lemma FuzzyMatchJaccard(a: string, b: string, t: Ratio)
    requires Normalize(a) != Normalize(b)
    requires !Contains(Normalize(b), Normalize(a)) && !Contains(Normalize(a), Normalize(b))
    ensures WordSet(Normalize(a)) != {} && WordSet(Normalize(b)) != {}
    ensures FuzzyMatch(a, b, t) <==> SimilarEnough(WordSet(a), WordSet(b), t)
  {
    if WordSet(Normalize(a)) == {} {
      NoWordsNormalizeEmpty(a);
      assert false;
    }
    if WordSet(Normalize(b)) == {} {
      NoWordsNormalizeEmpty(b);
      assert false;
    }
    NormalizeKeepsWords(a);
    NormalizeKeepsWords(b);
  }

  /** `x * z` grows with `x`. */
  lemma MulLeft(x: nat, y: nat, z: nat)
    requires x <= y
    ensures x * z <= y * z
  {
  }

  lemma SwapLast(a: nat, b: nat, c: nat)
    ensures (a * b) * c == (a * c) * b
  {
  }

  /** A positive factor common to both sides can be cancelled. */
  lemma CancelFactor(x: nat, y: nat, d: nat)
    requires d > 0 && y * d <= x * d
    ensures y <= x
  {
    if x < y {
      MulLeft(x + 1, y, d);
    }
  }

  /** A lower threshold accepts at least what a higher one does. */
  lemma SimilarEnoughMonotone(w1: set<string>, w2: set<string>, t: Ratio, lower: Ratio)
    requires lower.num * t.den <= t.num * lower.den
    requires SimilarEnough(w1, w2, t)
    ensures SimilarEnough(w1, w2, lower)
  {
    var i, u := |w1 * w2|, |w1 + w2|;
    ScaledComparison(i, u, t.num, t.den, lower.num, lower.den);
  }

  lemma ScaledComparison(i: nat, u: nat, n: nat, d: nat, ln: nat, ld: nat)
    requires d > 0 && ln * d <= n * ld && n * u <= i * d
    ensures ln * u <= i * ld
  {
    MulLeft(n * u, i * d, ld);
    SwapLast(n, u, ld);
    MulLeft(ln * d, n * ld, u);
    SwapLast(ln, d, u);
    SwapLast(i, d, ld);
    CancelFactor(i * ld, ln * u, d);
  }

  lemma FuzzyMatchMonotone(a: string, b: string, t: Ratio, lower: Ratio)
    requires lower.num * t.den <= t.num * lower.den
    requires FuzzyMatch(a, b, t)
    ensures FuzzyMatch(a, b, lower)
  {
    var n1, n2 := Normalize(a), Normalize(b);
    if n1 != n2 && !Contains(n2, n1) && !Contains(n1, n2) {
      SimilarEnoughMonotone(WordSet(n1), WordSet(n2), t, lower);
    }
  }

  // ---------------------------------------------------------------------
  // Validation

  /** Blank old text skips the check. Otherwise the protected texts are compared: fuzzily,
      or by the protected old text occurring in the protected cell text. */
  predicate Accepts(oldText: string, current: string, fuzzy: bool)
  {
    Strip(oldText) == [] ||
    if fuzzy then FuzzyMatch(ProtectTags(oldText), ProtectTags(current), DefaultThreshold)
    else Contains(ProtectTags(current), ProtectTags(oldText))
  }

  /** The exact mode is the simple script's check. */
  lemma ExactIsSimple(oldText: string, current: string)
    ensures Accepts(oldText, current, false) == SimpleUpdate.Accepts(oldText, current)
  {
  }

  /** The fuzzy mode accepts every old text the exact mode accepts whose normalised
      protected form still occurs in the normalised protected cell text, and the cell's own
      reading in both modes. */
  lemma FuzzyAcceptsContained(oldText: string, current: string)
    requires Contains(Normalize(ProtectTags(current)), Normalize(ProtectTags(oldText)))
    ensures Accepts(oldText, current, true)
  {
    FuzzyMatchContained(ProtectTags(oldText), ProtectTags(current), DefaultThreshold);
  }

  lemma AcceptsOwnReading(current: string, fuzzy: bool)
    ensures Accepts(current, current, fuzzy)
  {
    FuzzyMatchReflexiveSymmetric(ProtectTags(current), ProtectTags(current), DefaultThreshold);
    ContainsSelf(ProtectTags(current));
  }

  /** `replace_cell_with_track_changes(..., fuzzy)`. A failed check raises before anything
      is touched; otherwise paragraph 0 is rewritten as in the simple script. */
  method ReplaceCell(cell: Cell, oldText: string, newText: string, author: string, date: string, rid: int, fuzzy: bool)
    returns (outcome: Result<int, SimpleUpdate.UpdateError>)
    modifies cell
    ensures outcome.Failure? <==> !Accepts(oldText, SimpleUpdate.CurrentText(old(cell.paragraphs)), fuzzy)
    ensures outcome.Failure? ==> outcome.error == SimpleUpdate.TextMismatch && unchanged(cell)
    ensures outcome.Success? ==>
      outcome.value == SimpleUpdate.NextId(old(cell.paragraphs), oldText, newText, rid) &&
      cell.paragraphs == SimpleUpdate.Rewrite(old(cell.paragraphs), oldText, newText, author, date, rid)
  {
    var current := SimpleUpdate.CurrentText(cell.paragraphs);
    var oldProtected := ProtectTags(oldText);
    var currentProtected := ProtectTags(current);
    if Strip(oldText) != [] {
      if fuzzy {
        if !FuzzyMatch(oldProtected, currentProtected, DefaultThreshold) {
          return Failure(SimpleUpdate.TextMismatch);
        }
      } else if !Contains(currentProtected, oldProtected) {
        return Failure(SimpleUpdate.TextMismatch);
      }
    }
    if |cell.paragraphs| == 0 {
      return Success(rid);
    }
    var f := SimpleUpdate.FirstRunFormat(cell.paragraphs[0].children);
    cell.RemoveChildrenWhere(0, SimpleUpdate.Clearable);
    var next := cell.AppendRevisions(0, SimpleUpdate.DelBlock(oldText, f), SimpleUpdate.InsBlock(newText, f), author, date, rid);
    outcome := Success(next);
  }

  // ---------------------------------------------------------------------
  // update_translations

  type Progress = SimpleUpdate.Progress

  /** The `try` block for one entry: the simple script's, with the chosen mode of check. */
  function Step(table: seq<Row>, author: string, date: string, fuzzy: bool, entry: Record, p: Progress): (q: Progress)
    requires CellsOf(table) <= p.state.Keys
    ensures q.state.Keys == p.state.Keys
    ensures (q.successful == p.successful + 1 && |q.failed| == |p.failed| && p.rid <= q.rid <= p.rid + 2) ||
      (q.successful == p.successful && |q.failed| == |p.failed| + 1 && q.rid == p.rid && q.state == p.state)
    ensures forall c :: c in p.state && c !in ColumnCells(table, 3) ==> q.state[c] == p.state[c]
  {
    match SimpleUpdate.FindRowFrom(table, p.state, Strip(SimpleUpdate.SegmentIdOf(entry)), 0)
    case Failure(e) => SimpleUpdate.Failed(p, entry, e)
    case Success(r) =>
      if |table[r].cells| < 4 then SimpleUpdate.Failed(p, entry, SimpleUpdate.TooFewColumns)
      else
        CellInTable(table, r, 3);
        var c := table[r].cells[3];
        assert c in ColumnCells(table, 3);
        var ps := p.state[c];
        var oldText, newText := SimpleUpdate.OldTextOf(entry), SimpleUpdate.NewTextOf(entry);
        if !Accepts(oldText, SimpleUpdate.CurrentText(ps), fuzzy) then
          SimpleUpdate.Failed(p, entry, SimpleUpdate.TextMismatch)
        else SimpleUpdate.Progress(p.state[c := SimpleUpdate.Rewrite(ps, oldText, newText, author, date, p.rid)],
          p.successful + 1, p.failed, SimpleUpdate.NextId(ps, oldText, newText, p.rid))
  }

  /** The loop over the first `n` entries, from the cells `start` and revision id 0: every
      entry is a success or a failure, the revision id never exceeds two per success, only
      fourth cells change, and a batch without a success leaves the document as it was. */
  function Batch(table: seq<Row>, author: string, date: string, fuzzy: bool, entries: seq<Record>, n: nat,
                 start: TableState): (q: Progress)
    requires CellsOf(table) <= start.Keys && n <= |entries|
    ensures q.state.Keys == start.Keys
    ensures q.successful + |q.failed| == n && 0 <= q.rid <= 2 * q.successful
    ensures q.successful == 0 ==> q.state == start
    ensures forall c :: c in start && c !in ColumnCells(table, 3) ==> q.state[c] == start[c]
  {
    if n == 0 then SimpleUpdate.Progress(start, 0, [], 0)
    else Step(table, author, date, fuzzy, entries[n - 1], Batch(table, author, date, fuzzy, entries, n - 1, start))
  }

  /** Without `--fuzzy` an entry fares exactly as in the simple script. */
  lemma ExactStepIsSimple(table: seq<Row>, author: string, date: string, entry: Record, p: Progress)
    requires CellsOf(table) <= p.state.Keys
    ensures Step(table, author, date, false, entry, p) == SimpleUpdate.Step(table, author, date, entry, p)
  {
    var r := SimpleUpdate.FindRowFrom(table, p.state, Strip(SimpleUpdate.SegmentIdOf(entry)), 0);
    if r.Success? && |table[r.value].cells| >= 4 {
      CellInTable(table, r.value, 3);
      var ps := p.state[table[r.value].cells[3]];
      ExactIsSimple(SimpleUpdate.OldTextOf(entry), SimpleUpdate.CurrentText(ps));
    }
  }

  /** An entry succeeds exactly when its row is found, has a fourth cell, and that cell (as
      the earlier entries left it) passes the check in the chosen mode; a failure is
      recorded under the entry's id and changes nothing else, and a success rewrites the
      fourth cell of the row found as the simple script does. */
  lemma StepOutcome(table: seq<Row>, author: string, date: string, fuzzy: bool, entry: Record, p: Progress)
    requires CellsOf(table) <= p.state.Keys
    ensures var q := Step(table, author, date, fuzzy, entry, p);
      var r := SimpleUpdate.FindRowFrom(table, p.state, Strip(SimpleUpdate.SegmentIdOf(entry)), 0);
      var oldText, newText := SimpleUpdate.OldTextOf(entry), SimpleUpdate.NewTextOf(entry);
      (q.successful == p.successful + 1 <==>
        r.Success? && |table[r.value].cells| >= 4 && table[r.value].cells[3] in p.state &&
        Accepts(oldText, SimpleUpdate.CurrentText(p.state[table[r.value].cells[3]]), fuzzy)) &&
      (q.successful == p.successful ==>
        q.state == p.state && q.rid == p.rid && |q.failed| == |p.failed| + 1 &&
        q.failed[..|p.failed|] == p.failed && q.failed[|p.failed|].0 == SimpleUpdate.SegmentIdOf(entry)) &&
      (q.successful == p.successful + 1 ==>
        var c := table[r.value].cells[3];
        q.failed == p.failed && q.rid == SimpleUpdate.NextId(p.state[c], oldText, newText, p.rid) &&
        q.state == p.state[c := SimpleUpdate.Rewrite(p.state[c], oldText, newText, author, date, p.rid)])
  {
    var r := SimpleUpdate.FindRowFrom(table, p.state, Strip(SimpleUpdate.SegmentIdOf(entry)), 0);
    if r.Success? && |table[r.value].cells| >= 4 {
      CellInTable(table, r.value, 3);
    }
  }

  /** `replace_cell_with_track_changes(..., fuzzy)` on a cell of the table, seen on the
      whole table. */
  method EditTarget(table: seq<Row>, cell: Cell, oldText: string, newText: string, author: string, date: string, rid: int,
                    fuzzy: bool)
    returns (outcome: Result<int, SimpleUpdate.UpdateError>)
    requires cell in CellsOf(table)
    modifies cell
    ensures var before := old(StateOf(table));
      (outcome.Failure? <==> !Accepts(oldText, SimpleUpdate.CurrentText(before[cell]), fuzzy)) &&
      (outcome.Failure? ==> outcome.error == SimpleUpdate.TextMismatch && StateOf(table) == before) &&
      (outcome.Success? ==>
        outcome.value == SimpleUpdate.NextId(before[cell], oldText, newText, rid) &&
        StateOf(table) == before[cell := SimpleUpdate.Rewrite(before[cell], oldText, newText, author, date, rid)])
  {
    ghost var before := StateOf(table);
    outcome := ReplaceCell(cell, oldText, newText, author, date, rid, fuzzy);
    EditedOneCell(table, before, cell);
  }

  /** The `try` block of `update_translations` for one entry, on the cells as the table
      holds them. */
  method ApplyEntry(table: seq<Row>, author: string, date: string, fuzzy: bool, entry: Record,
                    successful: nat, failed: seq<(string, SimpleUpdate.UpdateError)>, rid: int)
    returns (successful': nat, failed': seq<(string, SimpleUpdate.UpdateError)>, rid': int)
    modifies CellsOf(table)
    ensures SimpleUpdate.Progress(StateOf(table), successful', failed', rid') ==
      Step(table, author, date, fuzzy, entry, old(SimpleUpdate.Progress(StateOf(table), successful, failed, rid)))
  {
    StepOutcome(table, author, date, fuzzy, entry, SimpleUpdate.Progress(StateOf(table), successful, failed, rid));
    successful', failed', rid' := successful, failed, rid;
    var segmentId := SimpleUpdate.SegmentIdOf(entry);
    var found := SimpleUpdate.FindRow(table, segmentId);
    if found.Failure? {
      failed' := failed + [(segmentId, found.error)];
      return;
    }
    var at := found.value;
    if |table[at].cells| < 4 {
      failed' := failed + [(segmentId, SimpleUpdate.TooFewColumns)];
      return;
    }
    CellInTable(table, at, 3);
    var outcome := EditTarget(table, table[at].cells[3], SimpleUpdate.OldTextOf(entry), SimpleUpdate.NewTextOf(entry),
                              author, date, rid, fuzzy);
    if outcome.Failure? {
      failed' := failed + [(segmentId, outcome.error)];
      return;
    }
    successful', rid' := successful + 1, outcome.value;
  }

  /** The loop of `update_translations(..., fuzzy)`, with revision ids from 0: the cells,
      the success count, the failures and the next revision id are those of `Batch` over
      every entry. */
  method UpdateTranslations(table: seq<Row>, translations: seq<Record>, author: string, date: string, fuzzy: bool)
    returns (successful: nat, failed: seq<(string, SimpleUpdate.UpdateError)>, nextId: int)
    modifies CellsOf(table)
    ensures SimpleUpdate.Progress(StateOf(table), successful, failed, nextId) ==
      Batch(table, author, date, fuzzy, translations, |translations|, old(StateOf(table)))
  {
    ghost var start := StateOf(table);
    successful, failed, nextId := 0, [], 0;
    var k := 0;
    while k < |translations|
      invariant 0 <= k <= |translations|
      invariant Batch(table, author, date, fuzzy, translations, k, start) ==
        SimpleUpdate.Progress(StateOf(table), successful, failed, nextId)
    {
      successful, failed, nextId := ApplyEntry(table, author, date, fuzzy, translations[k], successful, failed, nextId);
      k := k + 1;
    }
  }
}
