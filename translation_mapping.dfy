/**
 * generate_translation_mapping.py after the table is read: loading the new
 * translations, pairing them with the table's rows into old/new mappings,
 * and validating those mappings before they are handed to an update script.
 */
module TranslationMapping {
  import opened Wrappers
  import opened Text
  import opened Translations
  import opened MarkdownTable

  // ---------------------------------------------------------------------
  // str(i)

  function DigitChar(d: nat): char
    requires d < 10
  {
    ('0' as int + d) as char
  }

  /** `str(n)` for a natural number: decimal digits, most significant first. */
  function NatToString(n: nat): (r: string)
    ensures r != []
    decreases n
  {
    if n < 10 then [DigitChar(n)] else NatToString(n / 10) + [DigitChar(n % 10)]
  }

  /** The number a string of decimal digits denotes. */
  function DigitsValue(s: string): int
  {
    if s == [] then 0 else DigitsValue(s[..|s| - 1]) * 10 + (s[|s| - 1] as int - '0' as int)
  }

  /** Reading the digits of `str(n)` back gives `n`. */
  lemma {:induction false} NatToStringRoundTrip(n: nat)
    ensures DigitsValue(NatToString(n)) == n
    decreases n
  {
    if n >= 10 {
      NatToStringRoundTrip(n / 10);
      var p := NatToString(n / 10);
      assert (p + [DigitChar(n % 10)])[..|p|] == p;
    }
  }

  /** Different positions get different keys. */
  lemma NatToStringInjective()
    ensures forall i: nat, j: nat :: NatToString(i) == NatToString(j) ==> i == j
  {
    forall i: nat, j: nat | NatToString(i) == NatToString(j)
      ensures i == j
    {
      NatToStringRoundTrip(i);
      NatToStringRoundTrip(j);
    }
  }

  // ---------------------------------------------------------------------
  // load_new_translations

  /** What `load_new_translations` hands on: a decoded key-to-text map, or a JSON document. */
  datatype NewTranslations = Decoded(texts: map<string, string>) | JsonDocument(content: string)

  /** `content.strip().startswith('{')`. */
  predicate LooksLikeJson(content: string)
  {
    var s := Strip(content);
    s != [] && s[0] == '{'
  }

  /** `{str(i): line for i, line in enumerate(lines)}`. */
  function Numbered(lines: seq<string>): map<string, string>
  {
    if lines == [] then map[]
    else Numbered(lines[..|lines| - 1])[NatToString(|lines| - 1) := lines[|lines| - 1]]
  }

  /** Line `i` sits under key `str(i)`, and there are no other keys. */
  lemma {:induction false} NumberedKeys(lines: seq<string>)
    ensures forall i: nat :: NatToString(i) in Numbered(lines) <==> i < |lines|
    ensures forall i: nat :: i < |lines| ==> Numbered(lines)[NatToString(i)] == lines[i]
    ensures forall k :: k in Numbered(lines) ==> exists i: nat :: i < |lines| && k == NatToString(i)
  {
    if lines != [] {
      var init := lines[..|lines| - 1];
      NumberedKeys(init);
      NatToStringInjective();
      var last: nat := |lines| - 1;
      assert NatToString(last) in Numbered(lines);
      forall k | k in Numbered(lines)
        ensures exists i: nat :: i < |lines| && k == NatToString(i)
      {
        if k != NatToString(last) {
          assert k in Numbered(init);
        }
      }
    }
  }

  /** The text format: the non-blank stripped lines, keyed by their position. */
  function TextTranslations(content: string): map<string, string>
  {
    Numbered(NonBlankStripped(SplitOn(content, '\n')))
  }

  /** Line `i` of the text format sits under key `str(i)`, is non-blank and stripped, and
      there are no other keys. */
  lemma TextTranslationsKeys(content: string)
    ensures var lines := NonBlankStripped(SplitOn(content, '\n'));
      var m := TextTranslations(content);
      (forall i: nat :: NatToString(i) in m <==> i < |lines|)
      && (forall i: nat :: i < |lines| ==> m[NatToString(i)] == lines[i] && lines[i] != [] && Strip(lines[i]) == lines[i])
      && (forall k :: k in m ==> exists i: nat :: i < |lines| && k == NatToString(i))
  {
    NumberedKeys(NonBlankStripped(SplitOn(content, '\n')));
  }

  /** `load_new_translations(path, format)` on the file's content. */
  function LoadNewTranslations(content: string, format: string): Result<NewTranslations, string>
  {
    var chosen := if format == "auto" then (if LooksLikeJson(content) then "json" else "text") else format;
    if chosen == "json" then Success(JsonDocument(content))
    else if chosen == "text" then Success(Decoded(TextTranslations(content)))
    else Failure("unsupported format")
  }

  /** Auto mode picks JSON exactly when the stripped content opens with `{`; only the three
      named formats are accepted. */
  lemma LoadNewTranslationsFormats(content: string, format: string)
    ensures var r := LoadNewTranslations(content, format);
      (r.Success? <==> format in {"auto", "json", "text"})
      && (format == "auto" ==> (r.value.JsonDocument? <==> LooksLikeJson(content)))
      && (format == "text" || (format == "auto" && !LooksLikeJson(content)) ==>
            r.value == Decoded(TextTranslations(content)))
  {
  }

  // ---------------------------------------------------------------------
  // generate_translation_mapping

  /** One old/new pair for an update script. */
  datatype Mapping = Mapping(segmentId: string, oldText: string, newText: string)

  /** The record form an update script reads. */
  function ToRecord(m: Mapping): (r: Record)
    ensures GetOr(r, "segment_id", "") == m.segmentId
    ensures GetOr(r, "old_text", "") == m.oldText
    ensures GetOr(r, "new_text", "") == m.newText
  {
    map["segment_id" := m.segmentId, "old_text" := m.oldText, "new_text" := m.newText]
  }

  datatype MatchMode = BySegmentId | ByIndex

  function MatchModeOf(matchBy: string): Option<MatchMode>
  {
    if matchBy == "segment_id" then Some(BySegmentId)
    else if matchBy == "index" then Some(ByIndex)
    else None
  }

  /** The new text looked up for the row at position `idx`. */
  function NewTextFor(newTexts: map<string, string>, mode: MatchMode, row: TableRow, idx: nat): Option<string>
  {
    match mode
    case BySegmentId => Get(newTexts, row.segmentId)
    case ByIndex => Get(newTexts, NatToString(idx))
  }

  /** `if new_text and new_text != old_text`. */
  predicate Changes(t: Option<string>, oldText: string)
  {
    t.Some? && t.value != [] && t.value != oldText
  }

  /** The mappings the loop has built after the first `n` rows. */
  function MappingsUpTo(table: seq<TableRow>, newTexts: map<string, string>, mode: MatchMode, n: nat): seq<Mapping>
    requires n <= |table|
  {
    if n == 0 then []
    else
      var row := table[n - 1];
      var t := NewTextFor(newTexts, mode, row, n - 1);
      MappingsUpTo(table, newTexts, mode, n - 1) + (if Changes(t, row.target) then [Mapping(row.segmentId, row.target, t.value)] else [])
  }

  /** `generate_translation_mapping(old_table, new_translations, match_by)`. An unknown
      `match_by` raises inside the loop, so only when the table has a row. */
  function GenerateTranslationMapping(table: seq<TableRow>, newTexts: map<string, string>, matchBy: string): (r: Result<seq<Mapping>, string>)
    ensures r.Failure? <==> MatchModeOf(matchBy).None? && |table| > 0
  {
    match MatchModeOf(matchBy)
    case Some(mode) => Success(MappingsUpTo(table, newTexts, mode, |table|))
    case None => if table == [] then Success([]) else Failure("unsupported match_by")
  }

  /** The positions of the rows whose new text changes them, in table order. */
  ghost function ChangedRows(table: seq<TableRow>, newTexts: map<string, string>, mode: MatchMode, n: nat): seq<nat>
    requires n <= |table|
  {
    if n == 0 then []
    else
      var row := table[n - 1];
      ChangedRows(table, newTexts, mode, n - 1)
        + (if Changes(NewTextFor(newTexts, mode, row, n - 1), row.target) then [n - 1] else [])
  }

  /** The listed positions lie among the first `n` rows and ascend. */
  lemma {:induction false} ChangedRowsAscend(table: seq<TableRow>, newTexts: map<string, string>, mode: MatchMode, n: nat)
    requires n <= |table|
    ensures forall j :: 0 <= j < |ChangedRows(table, newTexts, mode, n)| ==> ChangedRows(table, newTexts, mode, n)[j] < n
    ensures forall j, k :: 0 <= j < k < |ChangedRows(table, newTexts, mode, n)| ==>
      ChangedRows(table, newTexts, mode, n)[j] < ChangedRows(table, newTexts, mode, n)[k]
  {
    if n > 0 {
      ChangedRowsAscend(table, newTexts, mode, n - 1);
      var ps := ChangedRows(table, newTexts, mode, n - 1);
      var extra := if Changes(NewTextFor(newTexts, mode, table[n - 1], n - 1), table[n - 1].target) then [n - 1] else [];
      assert ChangedRows(table, newTexts, mode, n) == ps + extra;
    }
  }

  /** A row's position is listed exactly when its new text changes it. */
  lemma {:induction false} ChangedRowsIff(table: seq<TableRow>, newTexts: map<string, string>, mode: MatchMode, n: nat)
    requires n <= |table|
    ensures forall i :: 0 <= i < n ==>
      (i in ChangedRows(table, newTexts, mode, n) <==> Changes(NewTextFor(newTexts, mode, table[i], i), table[i].target))
  {
    if n > 0 {
      ChangedRowsIff(table, newTexts, mode, n - 1);
      ChangedRowsAscend(table, newTexts, mode, n - 1);
      var ps := ChangedRows(table, newTexts, mode, n - 1);
      var extra := if Changes(NewTextFor(newTexts, mode, table[n - 1], n - 1), table[n - 1].target) then [n - 1] else [];
      assert ChangedRows(table, newTexts, mode, n) == ps + extra;
      forall i | 0 <= i < n
        ensures i in ps + extra <==> Changes(NewTextFor(newTexts, mode, table[i], i), table[i].target)
      {
        assert i in ps + extra <==> i in ps || i in extra;
      }
    }
  }

  /** The mappings are exactly the changed rows, in table order: mapping `j` comes from the
      `j`-th changed row, keeps its segment id, takes its target as the old text and the
      looked-up text as the new one. */
  lemma {:induction false} MappingsUpToSpec(table: seq<TableRow>, newTexts: map<string, string>, mode: MatchMode, n: nat)
    requires n <= |table|
    ensures var r := MappingsUpTo(table, newTexts, mode, n);
      var ps := ChangedRows(table, newTexts, mode, n);
      |ps| == |r| <= n
      && (forall j :: 0 <= j < |r| ==>
            ps[j] < |table|
            && var t := NewTextFor(newTexts, mode, table[ps[j]], ps[j]);
            t.Some? && r[j] == Mapping(table[ps[j]].segmentId, table[ps[j]].target, t.value)
            && r[j].newText != [] && r[j].newText != r[j].oldText)
  {
    if n > 0 {
      MappingsUpToSpec(table, newTexts, mode, n - 1);
    }
  }

  /** With the text format and index matching, row `i` is paired with the `i`-th non-blank
      line of the new translations, and rows past the last line get nothing. */
  lemma IndexModePairsLines(content: string, row: TableRow, i: nat)
    ensures var lines := NonBlankStripped(SplitOn(content, '\n'));
      NewTextFor(TextTranslations(content), ByIndex, row, i) == (if i < |lines| then Some(lines[i]) else None)
  {
    TextTranslationsKeys(content);
  }

  // ---------------------------------------------------------------------
  // validate_mappings

  /** `mapping.get('segment_id', '').strip()`. */
  function SegmentIdOf(m: Record): string
  {
    Strip(GetOr(m, "segment_id", ""))
  }

  /** `mapping.get('new_text', '').strip()`. */
  function NewTextOf(m: Record): string
  {
    Strip(GetOr(m, "new_text", ""))
  }

  /** Every one of the first `n` mappings has a segment id and a new text. */
  predicate FieldsPresent(ms: seq<Record>, n: nat)
    requires n <= |ms|
  {
    forall i :: 0 <= i < n ==> SegmentIdOf(ms[i]) != [] && NewTextOf(ms[i]) != []
  }

  /** No segment id repeats among the first `n` mappings. */
  predicate DistinctIds(ms: seq<Record>, n: nat)
    requires n <= |ms|
  {
    forall i, j :: 0 <= i < j < n ==> SegmentIdOf(ms[i]) != SegmentIdOf(ms[j])
  }

  /** What `validate_mappings` accepts, stated over the whole list. */
  predicate ValidMappings(ms: seq<Record>)
  {
    |ms| > 0 && FieldsPresent(ms, |ms|) && DistinctIds(ms, |ms|)
  }

  /** One more mapping keeps the prefix valid exactly when it has both fields and an unseen id. */
  lemma ValidStep(ms: seq<Record>, i: nat)
    requires i < |ms|
    ensures FieldsPresent(ms, i + 1) && DistinctIds(ms, i + 1) <==>
      FieldsPresent(ms, i) && DistinctIds(ms, i)
      && SegmentIdOf(ms[i]) != [] && NewTextOf(ms[i]) != []
      && SegmentIdOf(ms[i]) !in (set k | 0 <= k < i :: SegmentIdOf(ms[k]))
  {
    var seen := set k | 0 <= k < i :: SegmentIdOf(ms[k]);
    if SegmentIdOf(ms[i]) in seen {
      var k :| 0 <= k < i && SegmentIdOf(ms[k]) == SegmentIdOf(ms[i]);
      assert !DistinctIds(ms, i + 1);
    } else if FieldsPresent(ms, i) && DistinctIds(ms, i) && SegmentIdOf(ms[i]) != [] && NewTextOf(ms[i]) != [] {
      forall a, b | 0 <= a < b < i + 1
        ensures SegmentIdOf(ms[a]) != SegmentIdOf(ms[b])
      {
        if b == i {
          assert SegmentIdOf(ms[a]) in seen;
        }
      }
    }
  }

  /** One reported problem, with its 1-based row number. */
  datatype ValidationError =
    | EmptySegmentId(row: nat)
    | EmptyNewText(row: nat, segmentId: string)
    | DuplicateSegmentId(row: nat, segmentId: string)

  /** The problems one mapping raises, in the order they are reported. */
  function RowErrors(row: nat, segId: string, newText: string, repeated: bool): (es: seq<ValidationError>)
    ensures es == [] <==> segId != [] && newText != [] && !repeated
    ensures forall e :: e in es ==> e.row == row
  {
    (if segId == [] then [EmptySegmentId(row)] else [])
    + (if newText == [] then [EmptyNewText(row, segId)] else [])
    + (if repeated then [DuplicateSegmentId(row, segId)] else [])
  }

  /** `validate_mappings(mappings)`: the verdict and the problems it reports. */
  method ValidateMappings(ms: seq<Record>) returns (valid: bool, errors: seq<ValidationError>)
    ensures valid <==> ValidMappings(ms)
    ensures ms != [] ==> (valid <==> errors == [])
    ensures forall e :: e in errors ==> 1 <= e.row <= |ms|
  {
    if ms == [] {
      return false, [];
    }
    var seen: set<string> := {};
    errors := [];
    var i := 0;
    while i < |ms|
      invariant i <= |ms|
      invariant seen == set k | 0 <= k < i :: SegmentIdOf(ms[k])
      invariant forall e :: e in errors ==> 1 <= e.row <= i
      invariant errors == [] <==> FieldsPresent(ms, i) && DistinctIds(ms, i)
    {
      ValidStep(ms, i);
      var segId := SegmentIdOf(ms[i]);
      var newText := NewTextOf(ms[i]);
      errors := errors + RowErrors(i + 1, segId, newText, segId in seen);
      seen := seen + {segId};
      i := i + 1;
    }
    valid := errors == [];
  }
}
