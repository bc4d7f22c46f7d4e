/**
 * `scripts/handle_text_with_linebreaks.py`: the fallback for translations that contain
 * line breaks. Every entry's target cell (the third cell of the row whose first cell
 * holds the segment id) loses its tracked changes and its direct runs, then receives a
 * deletion of the old text and an insertion of the new text, each written as one run in
 * which every line break is a `w:br` and every non-empty line a `w:t` whose content has
 * gone through `xml_escape`.
 */
module LineBreaks {
  import opened Wrappers
  import opened Text
  import opened Docx
  import opened Translations
  import TrackedUpdate

  // ---------------------------------------------------------------------
  // xml_escape

  /** The five characters `xml_escape` replaces. */
  predicate Special(c: char)
  {
    c == '&' || c == '<' || c == '>' || c == '"' || c == '\''
  }

  /** The characters that may not appear raw in escaped text; `&` still appears, as the
      start of a reference. */
  predicate Markup(c: char)
  {
    c == '<' || c == '>' || c == '"' || c == '\''
  }

  /** The entity reference `xml_escape` writes for a special character. */
  function EntityOf(c: char): string
    requires Special(c)
  {
    if c == '&' then "&amp;"
    else if c == '<' then "&lt;"
    else if c == '>' then "&gt;"
    else if c == '"' then "&quot;"
    else "&apos;"
  }

  /** `xml_escape`: five `str.replace` calls, `&` first. */
  function XmlEscape(text: string): string
  {
    ReplaceChar(ReplaceChar(ReplaceChar(ReplaceChar(ReplaceChar(
      text, '&', "&amp;"), '<', "&lt;"), '>', "&gt;"), '"', "&quot;"), '\'', "&apos;")
  }

  /** How one character of the source text stands in the text while the characters in
      `decoded` have been turned back: as its reference, or as itself. */
  function Piece(x: char, decoded: set<char>): string
  {
    if Special(x) && x !in decoded then EntityOf(x) else [x]
  }

  /** `s` with every special character outside `decoded` written as its reference: the
      escaped text when nothing is decoded yet, and the intermediate results of the
      unescaping steps after that. */
  function Encoded(s: string, decoded: set<char>): string
  {
    if s == [] then [] else Piece(s[0], decoded) + Encoded(s[1..], decoded)
  }

  /** A reference starts with `&`, ends with its only `;`, and holds no other `&` and no
      markup character. */
  lemma EntityShape(c: char)
    requires Special(c)
    ensures var e := EntityOf(c);
      |e| >= 4 && e[0] == '&' && e[|e| - 1] == ';' &&
      (forall k :: 1 <= k < |e| ==> e[k] != '&' && !Markup(e[k])) &&
      (forall k :: 0 <= k < |e| - 1 ==> e[k] != ';')
  {
  }

  /** No reference begins with a different one, so a scan for one reference cannot match
      at the start of another. */
  lemma EntityNotPrefix(c: char, x: char, rest: string)
    requires Special(c) && Special(x) && c != x
    ensures !(EntityOf(c) <= EntityOf(x) + rest)
  {
    var a, b := EntityOf(c), EntityOf(x);
    EntityShape(c);
    EntityShape(x);
    assert a[1] != b[1] || a[2] != b[2];
    assert (b + rest)[1] == b[1] && (b + rest)[2] == b[2];
  }

  lemma XmlEscapeAppend(a: string, b: string)
    ensures XmlEscape(a + b) == XmlEscape(a) + XmlEscape(b)
  {
    var s1a, s1b := ReplaceChar(a, '&', "&amp;"), ReplaceChar(b, '&', "&amp;");
    ReplaceCharAppend(a, b, '&', "&amp;");
    var s2a, s2b := ReplaceChar(s1a, '<', "&lt;"), ReplaceChar(s1b, '<', "&lt;");
    ReplaceCharAppend(s1a, s1b, '<', "&lt;");
    var s3a, s3b := ReplaceChar(s2a, '>', "&gt;"), ReplaceChar(s2b, '>', "&gt;");
    ReplaceCharAppend(s2a, s2b, '>', "&gt;");
    var s4a, s4b := ReplaceChar(s3a, '"', "&quot;"), ReplaceChar(s3b, '"', "&quot;");
    ReplaceCharAppend(s3a, s3b, '"', "&quot;");
    ReplaceCharAppend(s4a, s4b, '\'', "&apos;");
  }

  lemma ReplaceCharOne(x: char, c: char, repl: string)
    ensures ReplaceChar([x], c, repl) == if x == c then repl else [x]
  {
    assert [x][1..] == [];
  }

  /** A character that is not special goes through the five replacements unchanged. */
  lemma EscapeOther(x: char)
    requires !Special(x)
    ensures XmlEscape([x]) == [x]
  {
    ReplaceCharOne(x, '&', "&amp;");
    ReplaceCharOne(x, '<', "&lt;");
    ReplaceCharOne(x, '>', "&gt;");
    ReplaceCharOne(x, '"', "&quot;");
    ReplaceCharOne(x, '\'', "&apos;");
  }

  /** A special character is replaced by its own reference, which no later replacement
      touches. */
  lemma EscapeSpecial(x: char)
    requires Special(x)
    ensures XmlEscape([x]) == EntityOf(x)
  {
    var e := EntityOf(x);
    EntityShape(x);
    assert '&' !in e[1..] && '<' !in e && '>' !in e && '"' !in e && '\'' !in e;
    ReplaceCharOne(x, '&', "&amp;");
    ReplaceCharOne(x, '<', "&lt;");
    ReplaceCharOne(x, '>', "&gt;");
    ReplaceCharOne(x, '"', "&quot;");
    ReplaceCharOne(x, '\'', "&apos;");
    ReplaceCharAbsent(e, '<', "&lt;");
    ReplaceCharAbsent(e, '>', "&gt;");
    ReplaceCharAbsent(e, '"', "&quot;");
    ReplaceCharAbsent(e, '\'', "&apos;");
  }

  /** On one character the five replacements write its reference or keep it. */
  lemma XmlEscapeOne(x: char)
    ensures XmlEscape([x]) == Piece(x, {})
  {
    if Special(x) {
      EscapeSpecial(x);
    } else {
      EscapeOther(x);
    }
  }

  /** Because `&` is replaced first, the chain of replacements escapes each character on
      its own. */
  lemma {:induction false} XmlEscapeEncoded(s: string)
    ensures XmlEscape(s) == Encoded(s, {})
  {
    if s != [] {
      assert s == [s[0]] + s[1..];
      XmlEscapeAppend([s[0]], s[1..]);
      XmlEscapeOne(s[0]);
      XmlEscapeEncoded(s[1..]);
      assert Encoded(s, {}) == Piece(s[0], {}) + Encoded(s[1..], {});
    }
  }

  /** The escaped text holds no `<`, `>`, `"` or `'`. */
  lemma {:induction false} EscapedHasNoMarkup(s: string)
    ensures forall i :: 0 <= i < |XmlEscape(s)| ==> !Markup(XmlEscape(s)[i])
  {
    XmlEscapeEncoded(s);
    EncodedHasNoMarkup(s);
  }

  lemma {:induction false} EncodedHasNoMarkup(s: string)
    ensures forall i :: 0 <= i < |Encoded(s, {})| ==> !Markup(Encoded(s, {})[i])
  {
    if s != [] {
      EncodedHasNoMarkup(s[1..]);
      if Special(s[0]) {
        EntityShape(s[0]);
      }
    }
  }

  /** Every `&` of the escaped text begins one of the five references. */
  lemma EscapedAmpersands(s: string)
    ensures var r := XmlEscape(s);
      forall i :: 0 <= i < |r| && r[i] == '&' ==> exists c :: Special(c) && EntityOf(c) <= r[i..]
  {
    XmlEscapeEncoded(s);
    var r := XmlEscape(s);
    forall i | 0 <= i < |r| && r[i] == '&'
      ensures exists c :: Special(c) && EntityOf(c) <= r[i..]
    {
      EncodedAmpersandAt(s, i);
    }
  }

  /** The position in `s` of the character whose piece covers position `i` of the
      escaped text. */
  function Origin(s: string, i: nat): (k: nat)
    requires i < |Encoded(s, {})|
    ensures k < |s|
    decreases s
  {
    var p := Piece(s[0], {});
    if i < |p| then 0 else 1 + Origin(s[1..], i - |p|)
  }

  lemma {:induction false} EncodedAmpersandAt(s: string, i: nat)
    requires i < |Encoded(s, {})| && Encoded(s, {})[i] == '&'
    ensures Special(s[Origin(s, i)]) && EntityOf(s[Origin(s, i)]) <= Encoded(s, {})[i..]
    decreases s
  {
    var p := Piece(s[0], {});
    var e := Encoded(s[1..], {});
    var r := Encoded(s, {});
    assert r == p + e;
    if Special(s[0]) {
      EntityShape(s[0]);
    }
    if i < |p| {
      assert i == 0 && Special(s[0]);
      assert r[i..] == p + e;
    } else {
      assert r[i..] == e[i - |p|..];
      EncodedAmpersandAt(s[1..], i - |p|);
    }
  }

  /** Text without special characters comes out of `xml_escape` unchanged. */
  lemma EscapeIdentity(s: string)
    requires forall i :: 0 <= i < |s| ==> !Special(s[i])
    ensures XmlEscape(s) == s
  {
    ReplaceCharAbsent(s, '&', "&amp;");
    ReplaceCharAbsent(s, '<', "&lt;");
    ReplaceCharAbsent(s, '>', "&gt;");
    ReplaceCharAbsent(s, '"', "&quot;");
    ReplaceCharAbsent(s, '\'', "&apos;");
  }

  // ---------------------------------------------------------------------
  // Reading escaped text back

  /** `s.replace(pat, repl)` for a non-empty pattern: a left-to-right scan replacing
      non-overlapping occurrences. */
  function ReplaceStr(s: string, pat: string, repl: string): string
    requires pat != []
  {
    if pat <= s then repl + ReplaceStr(s[|pat|..], pat, repl)
    else if s == [] then []
    else [s[0]] + ReplaceStr(s[1..], pat, repl)
  }

  /** The XML reader's view of a text node written by `xml_escape`: the five references
      turned back into characters, `&amp;` last. */
  function XmlUnescape(s: string): string
  {
    ReplaceStr(ReplaceStr(ReplaceStr(ReplaceStr(ReplaceStr(
      s, "&lt;", "<"), "&gt;", ">"), "&quot;", "\""), "&apos;", "'"), "&amp;", "&")
  }

  /** A scan for a pattern starting with `&` passes over text without `&`. */
  lemma {:induction false} ReplaceStrSkip(a: string, b: string, pat: string, repl: string)
    requires pat != [] && pat[0] !in a
    ensures ReplaceStr(a + b, pat, repl) == a + ReplaceStr(b, pat, repl)
  {
    if a != [] {
      TailOfAppend(a, b);
      assert (a + b)[0] != pat[0];
      ReplaceStrSkip(a[1..], b, pat, repl);
    } else {
      assert a + b == b;
    }
  }

  /** A scan that finds the pattern at the start replaces it and goes on after it. */
  lemma ReplaceStrHit(pat: string, e: string, repl: string)
    requires pat != []
    ensures ReplaceStr(pat + e, pat, repl) == repl + ReplaceStr(e, pat, repl)
  {
    assert (pat + e)[|pat|..] == e;
  }

  /** A scan that does not find the pattern at the start, and cannot find it inside `p`
      because `p` holds no further copy of its first character, passes over `p` whole. */
  lemma ReplaceStrMiss(p: string, e: string, pat: string, repl: string)
    requires pat != [] && p != [] && !(pat <= p + e) && pat[0] !in p[1..]
    ensures ReplaceStr(p + e, pat, repl) == p + ReplaceStr(e, pat, repl)
  {
    var s := p + e;
    TailOfAppend(p, e);
    assert ReplaceStr(s, pat, repl) == [p[0]] + ReplaceStr(p[1..] + e, pat, repl);
    ReplaceStrSkip(p[1..], e, pat, repl);
    AppendAssoc([p[0]], p[1..], ReplaceStr(e, pat, repl));
    assert [p[0]] + p[1..] == p;
  }

  /** One piece under one unescaping step: the reference of `c` becomes `c`, any other
      piece is passed over whole. */
  lemma DecodePiece(x: char, decoded: set<char>, after: set<char>, c: char, e: string)
    requires Special(c) && c !in decoded && '&' !in decoded && after == decoded + {c}
    ensures ReplaceStr(Piece(x, decoded) + e, EntityOf(c), [c]) == Piece(x, after) + ReplaceStr(e, EntityOf(c), [c])
  {
    var pat := EntityOf(c);
    EntityShape(c);
    if x == c {
      ReplaceStrHit(pat, e, [c]);
    } else if Special(x) && x !in decoded {
      var p := EntityOf(x);
      EntityShape(x);
      EntityNotPrefix(c, x, e);
      ReplaceStrMiss(p, e, pat, [c]);
    } else {
      assert x != pat[0];
      assert ([x] + e)[0] != pat[0];
      ReplaceStrMiss([x], e, pat, [c]);
    }
  }

  /** One unescaping step: while `&` is not yet decoded, replacing the reference of `c`
      decodes exactly the occurrences of `c`. */
  lemma {:induction false} DecodeStep(s: string, decoded: set<char>, after: set<char>, c: char)
    requires Special(c) && c !in decoded && '&' !in decoded && after == decoded + {c}
    ensures ReplaceStr(Encoded(s, decoded), EntityOf(c), [c]) == Encoded(s, after)
  {
    if s != [] {
      DecodeStep(s[1..], decoded, after, c);
      DecodePiece(s[0], decoded, after, c, Encoded(s[1..], decoded));
    }
  }

  /** With every special character decoded, nothing is encoded. */
  lemma {:induction false} EncodedNothing(s: string, decoded: set<char>)
    requires forall c :: Special(c) ==> c in decoded
    ensures Encoded(s, decoded) == s
  {
    if s != [] {
      EncodedNothing(s[1..], decoded);
    }
  }

  /** Unescaping the five references, `&amp;` last, gives back what `xml_escape` was given. */
  lemma UnescapeEscape(s: string)
    ensures XmlUnescape(XmlEscape(s)) == s
  {
    XmlEscapeEncoded(s);
    var e0 := Encoded(s, {});
    DecodeStep(s, {}, {'<'}, '<');
    var e1 := ReplaceStr(e0, "&lt;", "<");
    DecodeStep(s, {'<'}, {'<', '>'}, '>');
    var e2 := ReplaceStr(e1, "&gt;", ">");
    DecodeStep(s, {'<', '>'}, {'<', '>', '"'}, '"');
    var e3 := ReplaceStr(e2, "&quot;", "\"");
    DecodeStep(s, {'<', '>', '"'}, {'<', '>', '"', '\''}, '\'');
    var e4 := ReplaceStr(e3, "&apos;", "'");
    DecodeStep(s, {'<', '>', '"', '\''}, {'<', '>', '"', '\'', '&'}, '&');
    EncodedNothing(s, {'<', '>', '"', '\'', '&'});
  }

  // ---------------------------------------------------------------------
  // create_run_with_linebreaks

  const RunOpen: string := "<w:r xmlns:w=\"http://schemas.openxmlformats.org/wordprocessingml/2006/main\">"
  const RunClose: string := "</w:r>"
  const BrTag: string := "<w:br/>"
  const TOpen: string := "<w:t xml:space=\"preserve\">"
  const TClose: string := "</w:t>"

  /** The markup the loop writes for one part: nothing for an empty part. */
  function PartXml(part: string): string
  {
    if part == [] then [] else TOpen + XmlEscape(part) + TClose
  }

  /** The loop over the parts: a `w:br` before every part after the first. */
  function PartsXml(parts: seq<string>): string
    requires |parts| >= 1
  {
    if |parts| == 1 then PartXml(parts[0])
    else PartXml(parts[0]) + BrTag + PartsXml(parts[1..])
  }

  /** `create_run_with_linebreaks`: the XML of one run holding `text`. */
  function RunXml(text: string): string
  {
    RunOpen + PartsXml(SplitOn(text, '\n')) + RunClose
  }

  /** The markup of one run item, the text content of a `w:t` written as it stands. */
  function ItemXml(item: RunItem): string
  {
    match item
    case T(t) => TOpen + t + TClose
    case DelText(t) => "<w:delText>" + t + "</w:delText>"
    case Br => BrTag
  }

  function ItemsXml(items: seq<RunItem>): string
  {
    if items == [] then [] else ItemXml(items[0]) + ItemsXml(items[1..])
  }

  function EscapedParts(parts: seq<string>): (r: seq<string>)
    ensures |r| == |parts| && forall i :: 0 <= i < |parts| ==> r[i] == XmlEscape(parts[i])
  {
    seq(|parts|, i requires 0 <= i < |parts| => XmlEscape(parts[i]))
  }

  /** The items the run's XML describes, each `w:t` holding the escaped text of its part. */
  function EscapedItems(text: string): seq<RunItem>
  {
    PiecesItems(EscapedParts(SplitOn(text, '\n')))
  }

  /** End-of-line handling of the XML parser (section 2.11 of XML 1.0): a `\r\n` pair and
      a lone `\r` are read as `\n`. */
  function XmlLineEnds(s: string): string
  {
    if s == [] then []
    else if s[0] == '\r' then "\n" + XmlLineEnds(if |s| > 1 && s[1] == '\n' then s[2..] else s[1..])
    else [s[0]] + XmlLineEnds(s[1..])
  }

  /** What the XML parser makes of one item: a `w:t` holds its content with its line ends
      normalised and its references decoded. */
  function ParseItem(item: RunItem): RunItem
  {
    if item.T? then T(XmlUnescape(XmlLineEnds(item.text))) else item
  }

  /** What the XML parser makes of the items. */
  function Parsed(items: seq<RunItem>): (r: seq<RunItem>)
    ensures |r| == |items| && forall i :: 0 <= i < |items| ==> r[i] == ParseItem(items[i])
  {
    seq(|items|, i requires 0 <= i < |items| => ParseItem(items[i]))
  }

  lemma ParsedAppend(a: seq<RunItem>, b: seq<RunItem>)
    ensures Parsed(a + b) == Parsed(a) + Parsed(b)
  {
    assert forall i :: 0 <= i < |a + b| ==> Parsed(a + b)[i] == (Parsed(a) + Parsed(b))[i];
  }

  /** In text without line feeds the parser reads every carriage return as a line feed. */
  lemma {:induction false} LineEndsWithoutLf(s: string)
    requires '\n' !in s
    ensures XmlLineEnds(s) == ReplaceChar(s, '\r', "\n")
  {
    if s != [] {
      assert '\n' !in s[1..];
      LineEndsWithoutLf(s[1..]);
    }
  }

  /** The reference or character written for one character: a carriage return stays a
      carriage return, and nothing else written holds either line-end character. */
  lemma PieceCrAsLf(x: char)
    ensures ReplaceChar(Piece(x, {}), '\r', "\n") == Piece(if x == '\r' then '\n' else x, {})
    ensures x != '\n' ==> '\n' !in Piece(x, {})
  {
    if x == '\r' {
      assert ReplaceChar("\r", '\r', "\n") == "\n" + ReplaceChar([], '\r', "\n");
    } else {
      assert '\r' !in Piece(x, {});
      ReplaceCharAbsent(Piece(x, {}), '\r', "\n");
    }
    if x != '\n' && Special(x) {
      var e := EntityOf(x);
      assert forall k :: 0 <= k < |e| ==> e[k] != '\n';
    }
  }

  /** Escaping writes no carriage return of its own, so turning carriage returns into line
      feeds before or after escaping comes to the same. */
  lemma {:induction false} EncodedCrAsLf(s: string)
    ensures ReplaceChar(Encoded(s, {}), '\r', "\n") == Encoded(ReplaceChar(s, '\r', "\n"), {})
  {
    if s != [] {
      EncodedCrAsLf(s[1..]);
      PieceCrAsLf(s[0]);
      ReplaceCharAppend(Piece(s[0], {}), Encoded(s[1..], {}), '\r', "\n");
      var y := if s[0] == '\r' then '\n' else s[0];
      var rest := ReplaceChar(s[1..], '\r', "\n");
      assert ReplaceChar(s, '\r', "\n") == [y] + rest;
      assert ([y] + rest)[1..] == rest;
    }
  }

  /** Escaping writes no line feed of its own. */
  lemma {:induction false} EncodedNoLf(s: string)
    requires '\n' !in s
    ensures '\n' !in Encoded(s, {})
  {
    if s != [] {
      assert '\n' !in s[1..];
      EncodedNoLf(s[1..]);
      PieceCrAsLf(s[0]);
    }
  }

  /** The items written for one part, parsed, are the items the setter writes for the part
      with its carriage returns read as line feeds. */
  lemma ParsedPiece(part: string)
    requires '\n' !in part
    ensures Parsed(PieceItems(XmlEscape(part))) == PieceItems(ReplaceChar(part, '\r', "\n"))
  {
    EscapeEmptyIff(part);
    if part != [] {
      var lf := ReplaceChar(part, '\r', "\n");
      XmlEscapeEncoded(part);
      XmlEscapeEncoded(lf);
      EncodedCrAsLf(part);
      EncodedNoLf(part);
      LineEndsWithoutLf(XmlEscape(part));
      UnescapeEscape(lf);
      assert lf != [];
      assert Parsed([T(XmlEscape(part))])[0] == T(lf);
    }
  }

  lemma {:induction false} ItemsXmlAppend(a: seq<RunItem>, b: seq<RunItem>)
    ensures ItemsXml(a + b) == ItemsXml(a) + ItemsXml(b)
  {
    if a != [] {
      TailOfAppend(a, b);
      ItemsXmlAppend(a[1..], b);
    } else {
      assert a + b == b;
    }
  }

  lemma EscapeEmptyIff(s: string)
    ensures XmlEscape(s) == [] <==> s == []
  {
    XmlEscapeEncoded(s);
    if s != [] {
      assert Encoded(s, {}) == Piece(s[0], {}) + Encoded(s[1..], {});
      if Special(s[0]) {
        EntityShape(s[0]);
      }
    }
  }

  /** The markup of the items written for one part. */
  lemma PartXmlDescribes(part: string)
    ensures PartXml(part) == ItemsXml(PieceItems(XmlEscape(part)))
  {
    EscapeEmptyIff(part);
    if part != [] {
      assert ItemsXml([T(XmlEscape(part))]) == ItemXml(T(XmlEscape(part))) + ItemsXml([]);
    }
  }

  lemma ItemsXmlAroundBr(head: seq<RunItem>, tail: seq<RunItem>)
    ensures ItemsXml(head + [Br] + tail) == ItemsXml(head) + BrTag + ItemsXml(tail)
  {
    ItemsXmlAppend(head + [Br], tail);
    ItemsXmlAppend(head, [Br]);
    assert ItemsXml([Br]) == BrTag + ItemsXml([]);
  }

  lemma {:induction false} PartsXmlDescribes(parts: seq<string>)
    requires |parts| >= 1
    ensures PartsXml(parts) == ItemsXml(PiecesItems(EscapedParts(parts)))
  {
    var ep := EscapedParts(parts);
    PartXmlDescribes(parts[0]);
    if |parts| > 1 {
      assert ep[1..] == EscapedParts(parts[1..]);
      PartsXmlDescribes(parts[1..]);
      ItemsXmlAroundBr(PieceItems(ep[0]), PiecesItems(ep[1..]));
    }
  }

  /** The XML the loop builds is exactly the markup of the run items that split the text
      at line breaks: a `w:t` per non-empty part with its escaped text, a `w:br` between
      parts. */
  lemma RunXmlDescribes(text: string)
    ensures RunXml(text) == RunOpen + ItemsXml(EscapedItems(text)) + RunClose
  {
    PartsXmlDescribes(SplitOn(text, '\n'));
  }

  function CountBr(items: seq<RunItem>): nat
  {
    if items == [] then 0 else (if items[0].Br? then 1 else 0) + CountBr(items[1..])
  }

  /** The contents of the `w:t` items, in order. */
  function TTexts(items: seq<RunItem>): seq<string>
  {
    if items == [] then [] else (if items[0].T? then [items[0].text] else []) + TTexts(items[1..])
  }

  /** The parts that are not empty, in order. */
  function NonEmpty(parts: seq<string>): seq<string>
  {
    if parts == [] then [] else (if parts[0] != [] then [parts[0]] else []) + NonEmpty(parts[1..])
  }

  lemma {:induction false} CountsAppend(a: seq<RunItem>, b: seq<RunItem>)
    ensures CountBr(a + b) == CountBr(a) + CountBr(b)
    ensures TTexts(a + b) == TTexts(a) + TTexts(b)
  {
    if a != [] {
      TailOfAppend(a, b);
      CountsAppend(a[1..], b);
    } else {
      assert a + b == b;
    }
  }

  /** `k` pieces give `k - 1` line breaks and one `w:t` per non-empty piece, in order. */
  lemma {:induction false} PiecesItemsCounts(pieces: seq<string>)
    requires |pieces| >= 1
    ensures CountBr(PiecesItems(pieces)) == |pieces| - 1
    ensures TTexts(PiecesItems(pieces)) == NonEmpty(pieces)
  {
    var head := PieceItems(pieces[0]);
    assert CountBr(head) == 0 && TTexts(head) == NonEmpty([pieces[0]]) by {
      if pieces[0] != [] {
        assert CountBr(head) == 0 + CountBr([]);
        assert TTexts(head) == [pieces[0]] + TTexts([]);
      }
      assert NonEmpty([pieces[0]]) == (if pieces[0] != [] then [pieces[0]] else []) + NonEmpty([]);
    }
    if |pieces| > 1 {
      PiecesItemsCounts(pieces[1..]);
      CountsAppend(head + [Br], PiecesItems(pieces[1..]));
      CountsAppend(head, [Br]);
      assert CountBr([Br]) == 1 + CountBr([]);
      assert TTexts([Br]) == [] + TTexts([]);
    } else {
      assert pieces == [pieces[0]];
    }
  }

  lemma EscapedPartsAppend(a: seq<string>, b: seq<string>)
    ensures EscapedParts(a + b) == EscapedParts(a) + EscapedParts(b)
  {
  }

  lemma {:induction false} NonEmptyEscaped(parts: seq<string>)
    ensures NonEmpty(EscapedParts(parts)) == EscapedParts(NonEmpty(parts))
  {
    if parts != [] {
      var ep := EscapedParts(parts);
      var h := if parts[0] != [] then [parts[0]] else [];
      var eh := if parts[0] != [] then [XmlEscape(parts[0])] else [];
      EscapeEmptyIff(parts[0]);
      assert ep[1..] == EscapedParts(parts[1..]);
      NonEmptyEscaped(parts[1..]);
      assert NonEmpty(ep) == eh + NonEmpty(ep[1..]);
      assert NonEmpty(parts) == h + NonEmpty(parts[1..]);
      assert EscapedParts(h) == eh;
      EscapedPartsAppend(h, NonEmpty(parts[1..]));
    }
  }

  /** For text splitting into `k` parts at line breaks, the run holds `k - 1` line breaks
      and one `w:t` per non-empty part, holding that part escaped, in order. */
  lemma RunCounts(text: string)
    ensures var parts := SplitOn(text, '\n');
      CountBr(EscapedItems(text)) == |parts| - 1 &&
      TTexts(EscapedItems(text)) == EscapedParts(NonEmpty(parts))
  {
    var parts := SplitOn(text, '\n');
    PiecesItemsCounts(EscapedParts(parts));
    NonEmptyEscaped(parts);
  }

  /** Every part with its carriage returns read as line feeds. */
  function CrAsLf(parts: seq<string>): (r: seq<string>)
    ensures |r| == |parts| && forall i :: 0 <= i < |parts| ==> r[i] == ReplaceChar(parts[i], '\r', "\n")
  {
    seq(|parts|, i requires 0 <= i < |parts| => ReplaceChar(parts[i], '\r', "\n"))
  }

  /** Turning carriage returns into line feeds piece by piece, then joining with line
      feeds, is turning them into line feeds in the joined text. */
  lemma {:induction false} CrAsLfJoin(parts: seq<string>)
    ensures Join("\n", CrAsLf(parts)) == ReplaceChar(Join("\n", parts), '\r', "\n")
  {
    if |parts| > 1 {
      CrAsLfJoin(parts[1..]);
      assert CrAsLf(parts)[1..] == CrAsLf(parts[1..]);
      ReplaceCharAppend(parts[0] + "\n", Join("\n", parts[1..]), '\r', "\n");
      ReplaceCharAppend(parts[0], "\n", '\r', "\n");
      assert ReplaceChar("\n", '\r', "\n") == "\n" + ReplaceChar([], '\r', "\n");
    }
  }

  lemma {:induction false} ParsedPieces(parts: seq<string>)
    requires |parts| >= 1 && forall i :: 0 <= i < |parts| ==> '\n' !in parts[i]
    ensures Parsed(PiecesItems(EscapedParts(parts))) == PiecesItems(CrAsLf(parts))
  {
    var ep := EscapedParts(parts);
    var head := PieceItems(ep[0]);
    ParsedPiece(parts[0]);
    if |parts| > 1 {
      assert ep[1..] == EscapedParts(parts[1..]);
      assert CrAsLf(parts)[1..] == CrAsLf(parts[1..]);
      ParsedPieces(parts[1..]);
      var tail := PiecesItems(ep[1..]);
      assert PiecesItems(ep) == head + [Br] + tail;
      ParsedAppend(head + [Br], tail);
      ParsedAppend(head, [Br]);
    }
  }

  /** Parsing the run gives the items the `run.text` setter would write for the text, line
      by line, each line with its carriage returns read as line feeds; for text without
      carriage returns that is exactly what the setter writes. */
  lemma ParsedRun(text: string)
    ensures Parsed(EscapedItems(text)) == PiecesItems(CrAsLf(SplitOn(text, '\n')))
    ensures '\r' !in text ==> Parsed(EscapedItems(text)) == LineItems(text)
  {
    ParsedPieces(SplitOn(text, '\n'));
    if '\r' !in text {
      CrAsLfAbsent(text);
      CrToLfPointwise(text);
    }
  }

  /** A character missing from the joined text is missing from every part. */
  lemma {:induction false} AbsentFromParts(parts: seq<string>, i: nat, c: char)
    requires i < |parts| && c !in Join("\n", parts)
    ensures c !in parts[i]
  {
    if i > 0 {
      AbsentFromParts(parts[1..], i - 1, c);
    }
  }

  /** The lines of a text without carriage returns are kept as they are. */
  lemma CrAsLfAbsent(text: string)
    requires '\r' !in text
    ensures CrAsLf(SplitOn(text, '\n')) == SplitOn(text, '\n')
  {
    var parts := SplitOn(text, '\n');
    JoinSplitOn(text, '\n');
    forall i | 0 <= i < |parts|
      ensures CrAsLf(parts)[i] == parts[i]
    {
      AbsentFromParts(parts, i, '\r');
      ReplaceCharAbsent(parts[i], '\r', "\n");
    }
  }

  /** Reading the parsed run back, each `w:br` as a line break, gives the text with every
      carriage return turned into a line feed: `a\r\nb` reads back as `a\n\nb`. */
  lemma RunReadsBack(text: string)
    ensures ItemsText(Parsed(EscapedItems(text))) == ReplaceChar(text, '\r', "\n")
  {
    var parts := SplitOn(text, '\n');
    ParsedRun(text);
    PiecesItemsText(CrAsLf(parts));
    CrAsLfJoin(parts);
    JoinSplitOn(text, '\n');
  }

  /** The run reads back as the text exactly when the text holds no carriage return. */
  lemma RunReadsBackIff(text: string)
    ensures ItemsText(Parsed(EscapedItems(text))) == text <==> '\r' !in text
  {
    RunReadsBack(text);
    ReplaceCharPointwise(text, '\r', '\n');
    if '\r' in text {
      var i :| 0 <= i < |text| && text[i] == '\r';
      assert ReplaceChar(text, '\r', "\n")[i] == '\n';
    } else {
      ReplaceCharAbsent(text, '\r', "\n");
    }
  }

  // ---------------------------------------------------------------------
  // The deleted run

  /** The item after its `w:t` is renamed to `w:delText`. */
  function AsDeletedItem(item: RunItem): RunItem
  {
    if item.T? then DelText(item.text) else item
  }

  /** Every `w:t` of the run renamed to `w:delText`, everything else in place. */
  function AsDeleted(items: seq<RunItem>): (r: seq<RunItem>)
    ensures |r| == |items| && forall i :: 0 <= i < |items| ==> r[i] == AsDeletedItem(items[i])
  {
    seq(|items|, i requires 0 <= i < |items| => AsDeletedItem(items[i]))
  }

  /** `for t_elem in old_run_element.findall('.//w:t'): t_elem.tag = 'w:delText'`. */
  method RenameToDelText(items: seq<RunItem>) returns (renamed: seq<RunItem>)
    ensures renamed == AsDeleted(items)
  {
    renamed := items;
    var k := 0;
    while k < |renamed|
      invariant 0 <= k <= |renamed| == |items|
      invariant forall i :: 0 <= i < k ==> renamed[i] == AsDeletedItem(items[i])
      invariant forall i :: k <= i < |items| ==> renamed[i] == items[i]
    {
      if renamed[k].T? {
        renamed := renamed[k := DelText(renamed[k].text)];
      }
      k := k + 1;
    }
  }

  /** The text Word shows for a run of either kind: `w:t` and `w:delText` alike, each
      `w:br` as a line break. */
  function ShownText(items: seq<RunItem>): string
  {
    if items == [] then []
    else
      (match items[0] case T(t) => t case DelText(t) => t case Br => "\n") + ShownText(items[1..])
  }

  lemma {:induction false} ShownTextAppend(a: seq<RunItem>, b: seq<RunItem>)
    ensures ShownText(a + b) == ShownText(a) + ShownText(b)
  {
    if a != [] {
      TailOfAppend(a, b);
      ShownTextAppend(a[1..], b);
    } else {
      assert a + b == b;
    }
  }

  lemma ShownAroundBr(head: seq<RunItem>, tail: seq<RunItem>)
    ensures ShownText(AsDeleted(head + [Br] + tail)) == ShownText(AsDeleted(head)) + "\n" + ShownText(AsDeleted(tail))
  {
    AsDeletedAppend(head + [Br], tail);
    AsDeletedAppend(head, [Br]);
    assert AsDeleted([Br]) == [Br];
    ShownTextAppend(AsDeleted(head) + [Br], AsDeleted(tail));
    ShownTextAppend(AsDeleted(head), [Br]);
    assert ShownText([Br]) == "\n" + ShownText([]);
  }

  lemma ShownPiece(piece: string)
    ensures ShownText(AsDeleted(PieceItems(piece))) == piece
  {
    if piece != [] {
      assert AsDeleted([T(piece)]) == [DelText(piece)];
      assert ShownText([DelText(piece)]) == piece + ShownText([]);
    }
  }

  lemma {:induction false} AsDeletedPiecesShown(pieces: seq<string>)
    requires |pieces| >= 1
    ensures ShownText(AsDeleted(PiecesItems(pieces))) == Join("\n", pieces)
  {
    ShownPiece(pieces[0]);
    if |pieces| > 1 {
      AsDeletedPiecesShown(pieces[1..]);
      ShownAroundBr(PieceItems(pieces[0]), PiecesItems(pieces[1..]));
    }
  }

  lemma AsDeletedAppend(a: seq<RunItem>, b: seq<RunItem>)
    ensures AsDeleted(a + b) == AsDeleted(a) + AsDeleted(b)
  {
  }

  lemma AsDeletedCons(items: seq<RunItem>)
    requires items != []
    ensures AsDeleted(items) == [AsDeletedItem(items[0])] + AsDeleted(items[1..])
  {
  }

  /** Renaming leaves no `w:t`. */
  lemma {:induction false} AsDeletedNoT(items: seq<RunItem>)
    ensures TrackedUpdate.TTextOf(AsDeleted(items)) == []
  {
    if items != [] {
      AsDeletedCons(items);
      AsDeletedNoT(items[1..]);
    }
  }

  /** Renaming keeps every line break. */
  lemma {:induction false} AsDeletedKeepsBreaks(items: seq<RunItem>)
    ensures CountBr(AsDeleted(items)) == CountBr(items)
  {
    if items != [] {
      AsDeletedCons(items);
      AsDeletedKeepsBreaks(items[1..]);
    }
  }

  // ---------------------------------------------------------------------
  // apply_tracked_change_with_linebreaks

  /** The run inside the deletion: the old text written with line breaks, parsed, every
      `w:t` renamed. */
  function DeletionRun(oldText: string): Run
  {
    Run(None, AsDeleted(Parsed(EscapedItems(oldText))))
  }

  /** The run inside the insertion: the new text written with line breaks, parsed. */
  function InsertionRun(newText: string): Run
  {
    Run(None, Parsed(EscapedItems(newText)))
  }

  /** The deletion with id `rid` and the insertion with id `rid + 1`, always both. */
  function Blocks(oldText: string, newText: string, author: string, date: string, rid: int): seq<Node>
  {
    [Del(Revision(rid, author, date, [DeletionRun(oldText)])),
     Ins(Revision(rid + 1, author, date, [InsertionRun(newText)]))]
  }

  /** The deleted run shows the old text with its line breaks, and with its carriage
      returns read as line feeds, and holds no `w:t`. */
  lemma DeletionRunReadsBack(oldText: string)
    ensures var items := DeletionRun(oldText).items;
      ShownText(items) == ReplaceChar(oldText, '\r', "\n") && TrackedUpdate.TTextOf(items) == [] &&
      CountBr(items) == |SplitOn(oldText, '\n')| - 1
  {
    var parts := SplitOn(oldText, '\n');
    ParsedRun(oldText);
    AsDeletedPiecesShown(CrAsLf(parts));
    CrAsLfJoin(parts);
    JoinSplitOn(oldText, '\n');
    AsDeletedNoT(PiecesItems(CrAsLf(parts)));
    AsDeletedKeepsBreaks(PiecesItems(CrAsLf(parts)));
    PiecesItemsCounts(CrAsLf(parts));
  }

  /** The inserted run reads back as the new text, carriage returns read as line feeds,
      one line break per `\n` of the new text. */
  lemma InsertionRunReadsBack(newText: string)
    ensures RunText(InsertionRun(newText)) == ReplaceChar(newText, '\r', "\n") &&
      CountBr(InsertionRun(newText).items) == |SplitOn(newText, '\n')| - 1
  {
    RunReadsBack(newText);
    ParsedRun(newText);
    PiecesItemsCounts(CrAsLf(SplitOn(newText, '\n')));
  }

  /** The two blocks carry the consecutive ids from `rid`, the deletion first. */
  lemma BlocksIds(oldText: string, newText: string, author: string, date: string, rid: int)
    ensures var b := Blocks(oldText, newText, author, date, rid);
      |b| == 2 && b[0].Del? && b[1].Ins? && IdsFrom(b, rid) &&
      b[0].rev.runs == [DeletionRun(oldText)] && b[1].rev.runs == [InsertionRun(newText)]
  {
  }

  /** The cell once its revisions are accepted and its direct runs removed, with at least
      one paragraph. */
  function Cleaned(ps: seq<Paragraph>): seq<Paragraph>
  {
    EnsureParagraph(ParagraphsWithoutRuns(TrackedUpdate.ClearedParagraphs(ps)))
  }

  /** The whole edit: the blocks go to the end of the first paragraph. */
  function LineBreakEdit(ps: seq<Paragraph>, oldText: string, newText: string, author: string, date: string,
                         rid: int): seq<Paragraph>
  {
    AppendTo(Cleaned(ps), 0, Blocks(oldText, newText, author, date, rid))
  }

  /** Children with no direct run and no direct revision. */
  predicate Bare(children: seq<Node>)
  {
    Runs(children) == [] && TrackedUpdate.NoRevisionIn(children)
  }

  /** The children that are neither runs nor revisions: what an edit must leave alone. */
  function Others(children: seq<Node>): seq<Node>
  {
    Without(children, TrackedUpdate.IsRunOrRevision)
  }

  lemma {:induction false} WithoutRunsThenOthers(children: seq<Node>)
    ensures Others(Without(children, IsRunNode)) == Others(children)
  {
    if children != [] {
      var head := if children[0].R? then [] else [children[0]];
      assert Without(children, IsRunNode) == head + Without(children[1..], IsRunNode);
      WithoutAppend(head, Without(children[1..], IsRunNode), TrackedUpdate.IsRunOrRevision);
      WithoutRunsThenOthers(children[1..]);
    }
  }

  /** One paragraph after clearing: bare, with everything else in place. */
  lemma ClearedBare(children: seq<Node>)
    ensures var k := Without(TrackedUpdate.Unwrapped(children), IsRunNode);
      Bare(k) && Others(k) == Others(children)
  {
    var u := TrackedUpdate.Unwrapped(children);
    var k := Without(u, IsRunNode);
    NoRunsLeft(u);
    TrackedUpdate.UnwrappedNoRevisions(children);
    forall n | n in k
      ensures !TrackedUpdate.IsRevisionNode(n)
    {
      WithoutSubset(u, IsRunNode, n);
    }
    WithoutRunsThenOthers(u);
    TrackedUpdate.UnwrappedKeepsOthers(children);
  }

  lemma CleanedShape(ps: seq<Paragraph>)
    ensures var cl := Cleaned(ps);
      |cl| == (if ps == [] then 1 else |ps|) &&
      forall j :: 0 <= j < |cl| ==> Bare(cl[j].children) && Others(cl[j].children) == (if ps == [] then [] else Others(ps[j].children))
  {
    var cl := Cleaned(ps);
    if ps == [] {
      assert cl == [Paragraph([])];
      assert Runs([]) == [];
    } else {
      forall j | 0 <= j < |cl|
        ensures Bare(cl[j].children) && Others(cl[j].children) == Others(ps[j].children)
      {
        ClearedBare(ps[j].children);
      }
    }
  }

  /** The edit leaves every paragraph without direct runs and revisions except the two new
      blocks, which end the first paragraph; whatever else the paragraphs held is kept. */
  lemma EditShape(ps: seq<Paragraph>, oldText: string, newText: string, author: string, date: string, rid: int)
    ensures var r := LineBreakEdit(ps, oldText, newText, author, date, rid);
      var n := |r[0].children|;
      |r| == (if ps == [] then 1 else |ps|) &&
      n >= 2 && r[0].children[n - 2..] == Blocks(oldText, newText, author, date, rid) &&
      Bare(r[0].children[..n - 2]) &&
      (forall j :: 0 < j < |r| ==> Bare(r[j].children)) &&
      (forall j :: 0 <= j < |r| ==> Others(r[j].children) == (if ps == [] then [] else Others(ps[j].children)))
  {
    var cl := Cleaned(ps);
    var b := Blocks(oldText, newText, author, date, rid);
    var r := LineBreakEdit(ps, oldText, newText, author, date, rid);
    CleanedShape(ps);
    assert r[0].children == cl[0].children + b;
    assert r[0].children[..|cl[0].children|] == cl[0].children;
    WithoutAppend(cl[0].children, b, TrackedUpdate.IsRunOrRevision);
    assert Others(b) == [];
  }

  /** `apply_tracked_change_with_linebreaks`: accepts the revisions, removes the direct
      runs, makes sure there is a paragraph and appends the deletion and the insertion to
      the first one; it always reports success. */
  method ApplyTrackedChangeWithLinebreaks(cell: Cell, oldText: string, newText: string, author: string,
                                          date: string, rid: int) returns (ok: bool)
    modifies cell
    ensures ok
    ensures cell.paragraphs == LineBreakEdit(old(cell.paragraphs), oldText, newText, author, date, rid)
  {
    TrackedUpdate.ClearTrackedChanges(cell);
    cell.RemoveDirectRuns();
    cell.EnsureOneParagraph();
    ghost var cleaned := cell.paragraphs;
    var oldItems := RenameToDelText(Parsed(EscapedItems(oldText)));
    var del := Del(Revision(rid, author, date, [Run(None, oldItems)]));
    cell.AppendChild(0, del);
    var ins := Ins(Revision(rid + 1, author, date, [InsertionRun(newText)]));
    cell.AppendChild(0, ins);
    AppendToTwice(cleaned, 0, [del], [ins]);
    assert [del] + [ins] == Blocks(oldText, newText, author, date, rid);
    ok := true;
  }

  // ---------------------------------------------------------------------
  // find_cell_by_segment_id

  /** Row `j`'s first cell as `row.cells[0].text.strip()` reads it from the cells `st`. */
  function FirstCellText(table: seq<Row>, st: TableState, j: nat): string
    requires CellsOf(table) <= st.Keys && j < |table| && |table[j].cells| > 0
  {
    CellInTable(table, j, 0);
    Strip(CellText(st[table[j].cells[0]]))
  }

  /** Row `j` is a target for the segment id: it has a third cell and its first cell reads,
      stripped, as the id. */
  predicate Hit(table: seq<Row>, st: TableState, segmentId: string, j: nat)
    requires CellsOf(table) <= st.Keys && j < |table|
  {
    |table[j].cells| >= 3 && FirstCellText(table, st, j) == segmentId
  }

  /** The row `find_cell_by_segment_id` settles on, scanning from row `i` of the table as
      the cells `st` hold it: the first target row; a row whose first cell matches but that
      has fewer than three cells is passed over. */
  function FindFrom(table: seq<Row>, st: TableState, segmentId: string, i: nat): (r: Option<nat>)
    requires CellsOf(table) <= st.Keys && i <= |table|
    ensures r.Some? ==> i <= r.value < |table| && |table[r.value].cells| >= 3
    decreases |table| - i
  {
    if i == |table| then None
    else if Hit(table, st, segmentId, i) then Some(i)
    else FindFrom(table, st, segmentId, i + 1)
  }

  /** The row found is a target, and no row from `i` before it is. */
  lemma {:induction false} FindFromFound(table: seq<Row>, st: TableState, segmentId: string, i: nat)
    requires CellsOf(table) <= st.Keys && i <= |table|
    ensures var r := FindFrom(table, st, segmentId, i);
      r.Some? ==>
        Hit(table, st, segmentId, r.value) &&
        forall j :: i <= j < r.value ==> !Hit(table, st, segmentId, j)
    decreases |table| - i
  {
    if i < |table| && !Hit(table, st, segmentId, i) {
      FindFromFound(table, st, segmentId, i + 1);
    }
  }

  /** Nothing is found exactly when no row from `i` is a target. */
  lemma {:induction false} FindFromMissing(table: seq<Row>, st: TableState, segmentId: string, i: nat)
    requires CellsOf(table) <= st.Keys && i <= |table|
    ensures FindFrom(table, st, segmentId, i).None? <==>
      forall j :: i <= j < |table| ==> !Hit(table, st, segmentId, j)
    decreases |table| - i
  {
    if i < |table| {
      if Hit(table, st, segmentId, i) {
        assert FindFrom(table, st, segmentId, i).Some?;
      } else {
        FindFromMissing(table, st, segmentId, i + 1);
        assert FindFrom(table, st, segmentId, i) == FindFrom(table, st, segmentId, i + 1);
      }
    }
  }

  /** `find_cell_by_segment_id`, scanning from row 0. */
  method FindCellBySegmentId(table: seq<Row>, segmentId: string) returns (found: Option<nat>)
    ensures found == FindFrom(table, StateOf(table), segmentId, 0)
  {
    var i := 0;
    while i < |table|
      invariant 0 <= i <= |table|
      invariant FindFrom(table, StateOf(table), segmentId, 0) == FindFrom(table, StateOf(table), segmentId, i)
    {
      var row := table[i];
      if |row.cells| >= 1 {
        CellInTable(table, i, 0);
        var cellText := Strip(CellText(row.cells[0].paragraphs));
        if cellText == segmentId && |row.cells| >= 3 {
          return Some(i);
        }
      }
      i := i + 1;
    }
    return None;
  }

  // ---------------------------------------------------------------------
  // process_translations

  const BaseRevisionId := 1000

  /** `translation.get('segment_id', '')`. */
  function SegmentIdOf(entry: Record): string
  {
    GetOr(entry, "segment_id", "")
  }

  /** `translation.get('old_text', translation.get('old_translation', ''))`, not stripped. */
  function OldTextOf(entry: Record): string
  {
    GetOr(entry, "old_text", GetOr(entry, "old_translation", ""))
  }

  function NewTextOf(entry: Record): string
  {
    GetOr(entry, "new_text", GetOr(entry, "new_translation", ""))
  }

  /** What the loop has done so far: the cells and `success_count`. */
  datatype Progress = Progress(state: TableState, successCount: nat)

  /** One entry, numbered `idx`: when its row is found, the third cell of that row is
      edited with the ids `1000 + 2 idx` and the next and the entry is counted; when it is
      not, nothing changes. */
  function Step(table: seq<Row>, author: string, date: string, idx: nat, entry: Record, p: Progress): (q: Progress)
    requires CellsOf(table) <= p.state.Keys
    ensures q.state.Keys == p.state.Keys
    ensures q.successCount == p.successCount + 1 || q == p
    ensures forall c :: c in p.state && c !in ColumnCells(table, 2) ==> q.state[c] == p.state[c]
  {
    match FindFrom(table, p.state, SegmentIdOf(entry), 0)
    case None => p
    case Some(r) =>
      CellInTable(table, r, 2);
      var c := table[r].cells[2];
      assert c in ColumnCells(table, 2);
      Progress(p.state[c := LineBreakEdit(p.state[c], OldTextOf(entry), NewTextOf(entry), author, date,
                                          BaseRevisionId + 2 * idx)],
               p.successCount + 1)
  }

  /** The loop over the first `n` entries, numbered from 1, from the cells `start`: at most
      one success per entry, only third cells change, and a batch without a success leaves
      the document as it was. */
  function Batch(table: seq<Row>, author: string, date: string, entries: seq<Record>, n: nat, start: TableState): (q: Progress)
    requires CellsOf(table) <= start.Keys && n <= |entries|
    ensures q.state.Keys == start.Keys
    ensures q.successCount <= n
    ensures q.successCount == 0 ==> q.state == start
    ensures forall c :: c in start && c !in ColumnCells(table, 2) ==> q.state[c] == start[c]
  {
    if n == 0 then Progress(start, 0)
    else Step(table, author, date, n, entries[n - 1], Batch(table, author, date, entries, n - 1, start))
  }

  /** An entry is counted exactly when its row is found in the cells as the earlier entries
      left them; a skipped entry changes nothing, and a counted one rewrites the third cell
      of the row found with the ids of its number. */
  lemma StepOutcome(table: seq<Row>, author: string, date: string, idx: nat, entry: Record, p: Progress)
    requires CellsOf(table) <= p.state.Keys
    ensures var q := Step(table, author, date, idx, entry, p);
      var r := FindFrom(table, p.state, SegmentIdOf(entry), 0);
      (q.successCount == p.successCount + 1 <==> r.Some?) &&
      (r.None? ==> q == p) &&
      (r.Some? ==>
        var c := table[r.value].cells[2];
        c in p.state &&
        q.state == p.state[c := LineBreakEdit(p.state[c], OldTextOf(entry), NewTextOf(entry), author, date,
                                              BaseRevisionId + 2 * idx)])
  {
    var r := FindFrom(table, p.state, SegmentIdOf(entry), 0);
    if r.Some? {
      CellInTable(table, r.value, 2);
    }
  }

  /** `apply_tracked_change_with_linebreaks` on a cell of the table, seen on the whole table. */
  method EditTarget(table: seq<Row>, cell: Cell, oldText: string, newText: string, author: string, date: string, rid: int)
    requires cell in CellsOf(table)
    modifies cell
    ensures var before := old(StateOf(table));
      StateOf(table) == before[cell := LineBreakEdit(before[cell], oldText, newText, author, date, rid)]
  {
    ghost var before := StateOf(table);
    var _ := ApplyTrackedChangeWithLinebreaks(cell, oldText, newText, author, date, rid);
    EditedOneCell(table, before, cell);
  }

  /** One pass of the loop of `process_translations`, entry number `idx`. */
  method ApplyEntry(table: seq<Row>, author: string, date: string, idx: nat, entry: Record, successCount: nat)
    returns (successCount': nat)
    modifies CellsOf(table)
    ensures Progress(StateOf(table), successCount') ==
      Step(table, author, date, idx, entry, old(Progress(StateOf(table), successCount)))
  {
    StepOutcome(table, author, date, idx, entry, Progress(StateOf(table), successCount));
    successCount' := successCount;
    var found := FindCellBySegmentId(table, SegmentIdOf(entry));
    if found.None? {
      return;
    }
    CellInTable(table, found.value, 2);
    EditTarget(table, table[found.value].cells[2], OldTextOf(entry), NewTextOf(entry), author, date,
               BaseRevisionId + 2 * idx);
    successCount' := successCount + 1;
  }

  /** The ids edit `idx` uses: `1000 + 2 idx` for the deletion, the next for the insertion. */
  lemma EntryIds(oldText: string, newText: string, author: string, date: string, idx: nat)
    ensures var b := Blocks(oldText, newText, author, date, BaseRevisionId + 2 * idx);
      b[0].Del? && b[1].Ins? && b[0].rev.id == BaseRevisionId + 2 * idx && b[1].rev.id == BaseRevisionId + 2 * idx + 1
  {
    BlocksIds(oldText, newText, author, date, BaseRevisionId + 2 * idx);
  }

  /** Edits with different numbers never share an id: every id of an earlier edit is
      smaller than every id of a later one. */
  lemma IdsDisjoint(old1: string, new1: string, old2: string, new2: string, author: string, date: string,
                    i: nat, j: nat, a: nat, b: nat)
    requires i < j && a < 2 && b < 2
    ensures var b1 := Blocks(old1, new1, author, date, BaseRevisionId + 2 * i);
      var b2 := Blocks(old2, new2, author, date, BaseRevisionId + 2 * j);
      (b1[a].Del? || b1[a].Ins?) && (b2[b].Del? || b2[b].Ins?) && b1[a].rev.id < b2[b].rev.id
  {
    BlocksIds(old1, new1, author, date, BaseRevisionId + 2 * i);
    BlocksIds(old2, new2, author, date, BaseRevisionId + 2 * j);
  }

  /** The loop of `process_translations`, entries numbered from 1: the cells and the
      success count are those of `Batch` over every entry. */
  method ApplyAll(table: seq<Row>, author: string, date: string, translations: seq<Record>)
    returns (successCount: nat)
    modifies CellsOf(table)
    ensures Progress(StateOf(table), successCount) ==
      Batch(table, author, date, translations, |translations|, old(StateOf(table)))
  {
    ghost var start := StateOf(table);
    successCount := 0;
    var idx := 1;
    while idx <= |translations|
      invariant 1 <= idx <= |translations| + 1
      invariant Batch(table, author, date, translations, idx - 1, start) == Progress(StateOf(table), successCount)
    {
      successCount := ApplyEntry(table, author, date, idx, translations[idx - 1], successCount);
      idx := idx + 1;
    }
  }

  /** `process_translations` after the document is open: a translations file that does not
      hold a list fails before anything changes; otherwise the entries are taken in order,
      numbered from 1, and the cells and `success_count` are those of `Batch` over all of
      them. */
  method ProcessTranslations(table: seq<Row>, file: TranslationsFile, author: string, date: string)
    returns (outcome: Result<nat, string>)
    modifies CellsOf(table)
    ensures outcome.Success? <==> TranslationList(file).Success?
    ensures outcome.Success? ==>
      var list := TranslationList(file).value;
      Progress(StateOf(table), outcome.value) == Batch(table, author, date, list, |list|, old(StateOf(table)))
    ensures outcome.Failure? ==> unchanged(CellsOf(table))
  {
    var list := TranslationList(file);
    if list.Failure? {
      return Failure(list.error);
    }
    var successCount := ApplyAll(table, author, date, list.value);
    outcome := Success(successCount);
  }

}
