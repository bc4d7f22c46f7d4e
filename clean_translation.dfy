/**
 * scripts/clean_translation_text.py: cleaning a plain-text file of new
 * translations, one per line, before it is used to update the table.
 *
 * `clean_line` drops the box-drawing bar `│`, a leading line number and the
 * surrounding whitespace; `is_placeholder_line` recognises lines that are
 * little more than inline-tag placeholders (`<0/>`, `"<1/>"`) and page
 * references; `clean_translation_file` keeps the other non-empty lines and
 * counts what it skipped. The fixed regular expressions are hand-coded
 * scanners with the same leftmost, greedy behaviour.
 */
module CleanTranslation {
  import opened Text
  import opened MarkdownTable

  /** The box-drawing character `│` (U+2502) that framed the lines. */
  const BoxBar: char := '\U{2502}'

  predicate AllDigits(s: string)
  {
    forall i :: 0 <= i < |s| ==> IsDigit(s[i])
  }

  /** Length of the longest digit prefix of `s`. */
  function DigitLen(s: string): (n: nat)
    ensures n <= |s|
    ensures AllDigits(s[..n])
    ensures n == |s| || !IsDigit(s[n])
  {
    if s == [] || !IsDigit(s[0]) then 0 else 1 + DigitLen(s[1..])
  }

  // ---------------------------------------------------------------------
  // clean_line

  /** `re.sub(r'^\s*\d+\s+', '', s)`: the anchored pattern can match only at the start, so at
      most one line number goes. */
  function DropLineNumber(s: string): string
  {
    var w := SpaceLen(s);
    var d := DigitLen(s[w..]);
    if d == 0 then s
    else
      var sp := SpaceLen(s[w + d..]);
      if sp == 0 then s else s[w + d + sp..]
  }

  /** `clean_line(line)`. */
  function CleanLine(line: string): string
  {
    Strip(DropLineNumber(ReplaceChar(line, BoxBar, [])))
  }

  /** A way for `^\s*\d+\s+` to match the first `k` characters of `s`: whitespace up to `w`,
      digits up to `d`, whitespace up to `k`. */
  predicate NumberPrefix(s: string, w: nat, d: nat, k: nat)
  {
    w < d < k <= |s|
    && (forall i :: 0 <= i < w ==> IsSpace(s[i]))
    && (forall i :: w <= i < d ==> IsDigit(s[i]))
    && (forall i :: d <= i < k ==> IsSpace(s[i]))
  }

  /** Every match of the pattern splits where the scanner splits, the whitespace run after
      the digits aside. */
  lemma NumberPrefixFixed(s: string, w: nat, d: nat, k: nat)
    requires NumberPrefix(s, w, d, k)
    ensures w == SpaceLen(s) && d - w == DigitLen(s[w..]) && k - d <= SpaceLen(s[d..])
  {
    assert AllSpace(s[..w]) by {
      forall i | 0 <= i < w ensures IsSpace(s[..w][i]) {
        assert s[..w][i] == s[i];
      }
    }
    SpaceLenOf(s, w);
    var t := s[w..];
    var v := t[..d - w];
    assert AllDigits(v) by {
      forall i | 0 <= i < |v| ensures IsDigit(v[i]) {
        assert v[i] == s[w + i];
      }
    }
    DigitLenOf(t, d - w);
    var u := s[d..];
    assert forall i :: 0 <= i < k - d ==> IsSpace(u[i]);
    SpaceLenAtLeast(u, k - d);
  }

  lemma {:induction false} SpaceLenOf(s: string, w: nat)
    requires w < |s| && AllSpace(s[..w]) && !IsSpace(s[w])
    ensures SpaceLen(s) == w
  {
    if w > 0 {
      assert s[1..][..w - 1] == s[1..w];
      SpaceLenOf(s[1..], w - 1);
    }
  }

  lemma {:induction false} DigitLenOf(s: string, d: nat)
    requires d <= |s| && AllDigits(s[..d]) && (d == |s| || !IsDigit(s[d]))
    ensures DigitLen(s) == d
  {
    if d > 0 {
      assert s[1..][..d - 1] == s[1..d];
      DigitLenOf(s[1..], d - 1);
    }
  }

  lemma {:induction false} SpaceLenAtLeast(s: string, k: nat)
    requires k <= |s| && forall i :: 0 <= i < k ==> IsSpace(s[i])
    ensures k <= SpaceLen(s)
  {
    if k > 0 {
      SpaceLenAtLeast(s[1..], k - 1);
    }
  }

  /** What the scanner leaves is a suffix of the text. */
  lemma DropLineNumberSuffix(s: string)
    ensures var r := DropLineNumber(s);
      |r| <= |s| && r == s[|s| - |r|..]
  {
  }

  /** When the pattern matches, the scanner removes the longest match, as the greedy regex
      does. */
  lemma DropLineNumberLongest(s: string, w: nat, d: nat, k: nat)
    requires NumberPrefix(s, w, d, k)
    ensures |DropLineNumber(s)| <= |s| - k
  {
    NumberPrefixFixed(s, w, d, k);
  }

  /** The scanner changes the text only where the pattern matches, and then removes exactly a
      match. */
  lemma DropLineNumberOnlyMatches(s: string)
    ensures var r := DropLineNumber(s);
      r != s ==> exists w, d, k :: NumberPrefix(s, w, d, k) && k == |s| - |r|
  {
    var r := DropLineNumber(s);
    var w := SpaceLen(s);
    var d := DigitLen(s[w..]);
    if d > 0 {
      var sp := SpaceLen(s[w + d..]);
      if sp > 0 {
        var k := w + d + sp;
        assert r == s[k..] && k == |s| - |r|;
        RunsArePrefix(s, w, d, sp);
      } else {
        assert r == s;
      }
    } else {
      assert r == s;
    }
  }

  /** Whitespace, digits and whitespace again, in runs of these lengths, make a match. */
  lemma RunsArePrefix(s: string, w: nat, d: nat, sp: nat)
    requires 0 < d && 0 < sp && w + d + sp <= |s|
    requires AllSpace(s[..w]) && AllDigits(s[w..][..d]) && AllSpace(s[w + d..][..sp])
    ensures NumberPrefix(s, w, w + d, w + d + sp)
  {
    var t, u := s[w..], s[w + d..];
    forall i | 0 <= i < w ensures IsSpace(s[i]) {
      assert s[..w][i] == s[i];
    }
    forall i | w <= i < w + d ensures IsDigit(s[i]) {
      assert t[..d][i - w] == s[i];
    }
    forall i | w + d <= i < w + d + sp ensures IsSpace(s[i]) {
      assert u[..sp][i - w - d] == s[i];
    }
  }

  /** The cleaned line has no `│` and no whitespace at either end. */
  lemma CleanLineShape(line: string)
    ensures BoxBar !in CleanLine(line) && Trimmed(CleanLine(line))
  {
    var t := ReplaceChar(line, BoxBar, []);
    DropLineNumberSuffix(t);
    var r := DropLineNumber(t);
    assert BoxBar !in r by {
      forall i | 0 <= i < |r|
        ensures r[i] != BoxBar
      {
        assert r[i] == t[|t| - |r| + i];
      }
    }
    StripKeepsOut(r, BoxBar);
    StripTrimmed(r);
  }

  /** A line that is only a number and its line break cleans to nothing. */
  lemma NumberOnlyLine(digits: string)
    requires digits != [] && AllDigits(digits)
    ensures CleanLine(digits + "\n") == ""
  {
    var s := digits + "\n";
    assert BoxBar !in s by {
      assert forall i :: 0 <= i < |s| ==> s[i] != BoxBar;
    }
    ReplaceCharAbsent(s, BoxBar, []);
    SpaceLenOf(s, 0);
    assert s[0..] == s;
    DigitLenOf(s, |digits|);
    assert s[|digits|..] == "\n";
  }

  // ---------------------------------------------------------------------
  // is_placeholder_line

  /** Length of the match of `[<"]?\d+/?[>"]?` at the start of `s`, or 0 if there is none. */
  function NumberTokenLen(s: string): (n: nat)
    ensures n <= |s|
  {
    var open := if |s| > 1 && (s[0] == '<' || s[0] == '"') && IsDigit(s[1]) then 1 else 0;
    var d := DigitLen(s[open..]);
    if d == 0 then 0
    else
      var k := open + d;
      var k1 := if k < |s| && s[k] == '/' then k + 1 else k;
      if k1 < |s| && (s[k1] == '>' || s[k1] == '"') then k1 + 1 else k1
  }

  /** `re.sub(r'[<"]?\d+/?[>"]?', '', s)`. */
  function DropNumberTokens(s: string): (r: string)
    ensures |r| <= |s|
    decreases |s|
  {
    if s == [] then []
    else
      var n := NumberTokenLen(s);
      if n > 0 then DropNumberTokens(s[n..]) else [s[0]] + DropNumberTokens(s[1..])
  }

  /** The class `["""\'\'<>]`: a double quote, a single quote or an angle bracket. */
  predicate QuoteChar(c: char)
  {
    c == '"' || c == '\'' || c == '<' || c == '>'
  }

  /** `re.sub(r'["""\'\'<>]', '', s)`. */
  function DropQuotes(s: string): (r: string)
    ensures |r| <= |s|
  {
    if s == [] then [] else (if QuoteChar(s[0]) then [] else [s[0]]) + DropQuotes(s[1..])
  }

  /** Length of the match of `(在第|頁|on page|page)`, ignoring case, at the start of `s`, trying
      the alternatives in order; 0 if none matches. */
  function PageWordLen(s: string): nat
  {
    if "在第" <= s then 2
    else if "頁" <= s then 1
    else if FoldedPrefix(s, "on page") then 7
    else if FoldedPrefix(s, "page") then 4
    else 0
  }

  /** Whether `s` starts with the lower-case `word`, ignoring the case of ASCII letters. */
  predicate FoldedPrefix(s: string, word: string)
  {
    |word| <= |s| && forall k :: 0 <= k < |word| ==> LowerChar(s[k]) == word[k]
  }

  /** `re.sub(r'(在第|頁|on page|page)', '', s, flags=re.IGNORECASE)`. */
  function DropPageWords(s: string): (r: string)
    ensures |r| <= |s|
    decreases |s|
  {
    if s == [] then []
    else
      var n := PageWordLen(s);
      if n > 0 && n <= |s| then DropPageWords(s[n..]) else [s[0]] + DropPageWords(s[1..])
  }

  /** `without_placeholders`: what is left after the three removals. */
  function Reduced(text: string): string
  {
    DropPageWords(DropQuotes(DropNumberTokens(text)))
  }

  /** Length of the match of `<\d+/>` at the start of `s`, or 0. */
  function TagLen(s: string): nat
  {
    if s == [] || s[0] != '<' then 0
    else
      var d := DigitLen(s[1..]);
      if d > 0 && d + 2 < |s| && s[d + 1] == '/' && s[d + 2] == '>' then d + 3 else 0
  }

  /** `len(re.findall(r'<\d+/>', s))`. */
  function TagCount(s: string): nat
    decreases |s|
  {
    if s == [] then 0
    else
      var n := TagLen(s);
      if 0 < n <= |s| then 1 + TagCount(s[n..]) else TagCount(s[1..])
  }

  /** `is_placeholder_line(text)`. */
  predicate IsPlaceholderLine(text: string)
  {
    |Strip(Reduced(text))| <= 3 || (TagCount(text) >= 2 && |text| <= 30)
  }

  /** The removals never lengthen the text, so any text of at most three characters counts as
      a placeholder line. */
  lemma ShortIsPlaceholder(text: string)
    requires |text| <= 3
    ensures IsPlaceholderLine(text)
  {
  }

  /** Whether `t` is one whole inline tag `<n/>`. */
  predicate IsTag(t: string)
  {
    |t| >= 4 && t[0] == '<' && AllDigits(t[1..|t| - 2]) && t[|t| - 2] == '/' && t[|t| - 1] == '>'
  }

  /** A short text with two inline-tag placeholders counts as a placeholder line, however much
      other text it holds. */
  lemma TwoTagsIsPlaceholder(a: string, t1: string, b: string, t2: string, c: string)
    requires IsTag(t1) && IsTag(t2)
    requires |a + t1 + b + t2 + c| <= 30
    ensures IsPlaceholderLine(a + t1 + b + t2 + c)
  {
    var text := a + t1 + b + t2 + c;
    assert text == a + (t1 + (b + (t2 + c)));
    TwoTagsCount(a, t1, b, t2, c);
    ShortTaggedIsPlaceholder(text);
  }

  /** A text of at most thirty characters with two tags is a placeholder line. */
  lemma ShortTaggedIsPlaceholder(text: string)
    requires TagCount(text) >= 2 && |text| <= 30
    ensures IsPlaceholderLine(text)
  {
  }

  /** Two tags anywhere in a text are both found. */
  lemma TwoTagsCount(a: string, t1: string, b: string, t2: string, c: string)
    requires IsTag(t1) && IsTag(t2)
    ensures TagCount(a + (t1 + (b + (t2 + c)))) >= 2
  {
    var rest := b + (t2 + c);
    assert TagCount(rest) >= 1 by {
      TagCountAfterTag(c, t2);
      TagCountAppend(b, t2 + c);
    }
    assert TagCount(t1 + rest) >= 2 by {
      TagCountAfterTag(rest, t1);
    }
    TagCountAppend(a, t1 + rest);
  }

  /** A text that starts with a tag has the tags of the rest and one more. */
  lemma TagCountAfterTag(rest: string, t: string)
    requires IsTag(t)
    ensures TagCount(t + rest) == 1 + TagCount(rest)
  {
    var i := t[1..|t| - 2];
    assert t == "<" + i + "/>";
    TagCountAfter(rest, i);
  }

  lemma TagLenOf(i: string)
    requires i != [] && AllDigits(i)
    ensures TagLen("<" + i + "/>") == |i| + 3
  {
    var t := "<" + i + "/>";
    assert t[1..] == i + "/>";
    DigitLenOf(t[1..], |i|);
  }

  /** A text that starts with a tag has the tags of the rest and one more. */
  lemma TagCountAfter(rest: string, i: string)
    requires i != [] && AllDigits(i)
    ensures TagCount("<" + i + "/>" + rest) == 1 + TagCount(rest)
  {
    var t := "<" + i + "/>";
    TagLenOf(i);
    assert TagLen(t + rest) == |t| by {
      assert (t + rest)[1..] == i + ("/>" + rest);
      assert (t + rest)[1..][..|i|] == i;
      DigitLenOf((t + rest)[1..], |i|);
    }
    assert (t + rest)[|t|..] == rest;
  }

  /** Inside a tag, after its `<`, there is no other `<`. */
  lemma TagLenShape(s: string)
    ensures TagLen(s) <= |s|
    ensures forall i :: 0 < i < TagLen(s) ==> s[i] != '<'
  {
    if TagLen(s) > 0 {
      var d := DigitLen(s[1..]);
      forall i | 0 < i < TagLen(s)
        ensures s[i] != '<'
      {
        if i <= d {
          assert s[i] == s[1..][..d][i - 1];
        }
      }
    }
  }

  /** Text in front never takes tags away. */
  lemma {:induction false} TagCountAppend(a: string, b: string)
    ensures TagCount(a + b) >= TagCount(b)
    decreases |a|
  {
    var s := a + b;
    if a == [] {
      assert s == b;
    } else if 0 < TagLen(s) <= |a| {
      var n := TagLen(s);
      assert TagCount(s) >= TagCount(b) by {
        TagCountAppend(a[n..], b);
        DropOfAppend(a, b, n);
      }
    } else if 0 < TagLen(s) {
      var n := TagLen(s);
      assert TagCount(s) >= TagCount(b) by {
        TagLenShape(s);
        TagCountSkip(s, |a|, n);
        assert s[|a|..] == b;
      }
    } else {
      assert TagCount(s) >= TagCount(b) by {
        TagCountAppend(a[1..], b);
        TailOfAppend(a, b);
      }
    }
  }

  /** Starting inside a tag, after its `<`, finds the tags after it and no others. */
  lemma {:induction false} TagCountSkip(s: string, m: nat, n: nat)
    requires 0 < m <= n <= |s|
    requires forall i :: m <= i < n ==> s[i] != '<'
    ensures TagCount(s[m..]) == TagCount(s[n..])
    decreases n - m
  {
    if m < n {
      var t := s[m..];
      assert t[0] != '<';
      assert t[1..] == s[m + 1..];
      TagCountSkip(s, m + 1, n);
    }
  }

  /** A character that starts no number token stays. */
  lemma DropNumberTokensKeep(c: char, rest: string)
    requires !IsDigit(c)
    requires (c != '<' && c != '"') || rest == [] || !IsDigit(rest[0])
    ensures DropNumberTokens([c] + rest) == [c] + DropNumberTokens(rest)
  {
    var s := [c] + rest;
    assert s[0..] == s && s[1..] == rest;
  }

  /** An inline tag `<n/>` is one number token and goes whole. */
  lemma DropNumberTokensTag(i: string, rest: string)
    requires i != [] && AllDigits(i)
    ensures DropNumberTokens("<" + i + "/>" + rest) == DropNumberTokens(rest)
  {
    var s := "<" + i + "/>" + rest;
    assert s[1..][..|i|] == i && s[1..][|i|] == '/';
    DigitLenOf(s[1..], |i|);
    assert NumberTokenLen(s) == |i| + 3;
    assert s[|i| + 3..] == rest;
  }

  /** Quote characters go one at a time; every other character stays. */
  lemma DropQuotesCons(c: char, rest: string)
    ensures DropQuotes([c] + rest) == (if QuoteChar(c) then [] else [c]) + DropQuotes(rest)
  {
    assert ([c] + rest)[1..] == rest;
  }

  /** A character that starts no page word stays. */
  lemma DropPageWordsKeep(c: char, rest: string)
    requires c != '在' && c != '頁' && c != 'o' && c != 'O' && c != 'p' && c != 'P'
    ensures DropPageWords([c] + rest) == [c] + DropPageWords(rest)
  {
    var s := [c] + rest;
    assert s[1..] == rest;
    assert !FoldedPrefix(s, "on page") && !FoldedPrefix(s, "page") by {
      assert s[0] == c;
    }
  }

  /** `在第` and `頁` go. */
  lemma DropPageWordsChinese(rest: string)
    ensures DropPageWords("在第" + rest) == DropPageWords(rest)
    ensures DropPageWords("頁" + rest) == DropPageWords(rest)
  {
    var s := "在第" + rest;
    assert "在第" <= s && s[2..] == rest;
    var t := "頁" + rest;
    assert !("在第" <= t) && "頁" <= t && t[1..] == rest;
  }

  /** A character none of the three removals can start at: no digit, no quote or angle
      bracket, and no first letter of a page word. */
  predicate PlainChar(c: char)
  {
    !IsDigit(c) && !QuoteChar(c) && c != '在' && c != '頁' && c != 'o' && c != 'O' && c != 'p' && c != 'P'
  }

  predicate AllPlain(s: string)
  {
    forall k :: 0 <= k < |s| ==> PlainChar(s[k])
  }

  /** Whitespace is plain. */
  lemma SpacesArePlain(w: string)
    requires AllSpace(w)
    ensures AllPlain(w)
  {
    forall k | 0 <= k < |w|
      ensures PlainChar(w[k])
    {
      assert IsSpace(w[k]);
    }
  }

  lemma ConsAppend(w: string, x: string)
    requires w != []
    ensures w + x == [w[0]] + (w[1..] + x)
  {
  }

  /** Plain characters start no number token and stay. */
  lemma {:induction false} DropNumberTokensPlain(w: string, rest: string)
    requires AllPlain(w)
    ensures DropNumberTokens(w + rest) == w + DropNumberTokens(rest)
    decreases |w|
  {
    if w != [] {
      ConsAppend(w, rest);
      ConsAppend(w, DropNumberTokens(rest));
      DropNumberTokensKeep(w[0], w[1..] + rest);
      DropNumberTokensPlain(w[1..], rest);
    } else {
      assert w + rest == rest && w + DropNumberTokens(rest) == DropNumberTokens(rest);
    }
  }

  /** Plain characters are no quotes and stay. */
  lemma {:induction false} DropQuotesPlain(w: string, rest: string)
    requires AllPlain(w)
    ensures DropQuotes(w + rest) == w + DropQuotes(rest)
    decreases |w|
  {
    if w != [] {
      ConsAppend(w, rest);
      ConsAppend(w, DropQuotes(rest));
      DropQuotesCons(w[0], w[1..] + rest);
      DropQuotesPlain(w[1..], rest);
    } else {
      assert w + rest == rest && w + DropQuotes(rest) == DropQuotes(rest);
    }
  }

  /** Plain characters start no page word and stay. */
  lemma {:induction false} DropPageWordsPlain(w: string, rest: string)
    requires AllPlain(w)
    ensures DropPageWords(w + rest) == w + DropPageWords(rest)
    decreases |w|
  {
    if w != [] {
      ConsAppend(w, rest);
      ConsAppend(w, DropPageWords(rest));
      DropPageWordsKeep(w[0], w[1..] + rest);
      DropPageWordsPlain(w[1..], rest);
    } else {
      assert w + rest == rest && w + DropPageWords(rest) == DropPageWords(rest);
    }
  }

  /** The number-token pass on a page reference takes out both tags. */
  lemma PageReferenceTokens(i: string, j: string, w1: string, w2: string)
    requires i != [] && AllDigits(i) && j != [] && AllDigits(j)
    requires AllSpace(w1) && AllSpace(w2)
    ensures DropNumberTokens("\"" + ("<" + i + "/>" + ("\"" + ("在" + ("第" + (w1 + ("<" + j + "/>" + (w2 + "頁"))))))))
      == "\"" + ("\"" + ("在" + ("第" + (w1 + (w2 + "頁")))))
  {
    var tag1 := "<" + i + "/>";
    var tag2 := "<" + j + "/>";
    SpacesArePlain(w1);
    SpacesArePlain(w2);
    DropNumberTokensKeep('頁', []);
    assert "頁" == ['頁'] + [];
    DropNumberTokensPlain(w2, "頁");
    DropNumberTokensTag(j, w2 + "頁");
    DropNumberTokensPlain(w1, tag2 + (w2 + "頁"));
    DropNumberTokensKeep('第', w1 + (tag2 + (w2 + "頁")));
    DropNumberTokensKeep('在', "第" + (w1 + (tag2 + (w2 + "頁"))));
    DropNumberTokensKeep('"', "在" + ("第" + (w1 + (tag2 + (w2 + "頁")))));
    DropNumberTokensTag(i, "\"" + ("在" + ("第" + (w1 + (tag2 + (w2 + "頁"))))));
    DropNumberTokensKeep('"', tag1 + ("\"" + ("在" + ("第" + (w1 + (tag2 + (w2 + "頁")))))));
  }

  /** The quote pass then takes out the two quotes. */
  lemma PageReferenceQuotes(w1: string, w2: string)
    requires AllSpace(w1) && AllSpace(w2)
    ensures DropQuotes("\"" + ("\"" + ("在" + ("第" + (w1 + (w2 + "頁"))))))
      == "在" + ("第" + (w1 + (w2 + "頁")))
  {
    SpacesArePlain(w1);
    SpacesArePlain(w2);
    DropQuotesCons('頁', []);
    assert "頁" == ['頁'] + [];
    DropQuotesPlain(w2, "頁");
    DropQuotesPlain(w1, w2 + "頁");
    DropQuotesCons('第', w1 + (w2 + "頁"));
    DropQuotesCons('在', "第" + (w1 + (w2 + "頁")));
    DropQuotesCons('"', "在" + ("第" + (w1 + (w2 + "頁"))));
    DropQuotesCons('"', "\"" + ("在" + ("第" + (w1 + (w2 + "頁")))));
  }

  /** And the page-word pass leaves only the whitespace. */
  lemma PageReferenceWords(w1: string, w2: string)
    requires AllSpace(w1) && AllSpace(w2)
    ensures DropPageWords("在" + ("第" + (w1 + (w2 + "頁")))) == w1 + w2
  {
    SpacesArePlain(w1);
    SpacesArePlain(w2);
    DropPageWordsChinese([]);
    assert "頁" + [] == "頁";
    DropPageWordsPlain(w2, "頁");
    DropPageWordsPlain(w1, w2 + "頁");
    DropPageWordsChinese(w1 + (w2 + "頁"));
    assert "在" + ("第" + (w1 + (w2 + "頁"))) == "在第" + (w1 + (w2 + "頁"));
    assert w2 + [] == w2;
    assert w1 + (w2 + []) == w1 + w2;
  }

  /** No `<` means no tag. */
  lemma {:induction false} TagCountNone(s: string)
    requires '<' !in s
    ensures TagCount(s) == 0
    decreases |s|
  {
    if s != [] {
      assert s[1..] == s[1..] && '<' !in s[1..];
      TagCountNone(s[1..]);
    }
  }

  /** Text without digits, quotes, angle brackets and the first letters of the page words is
      left alone by the removals and holds no tag, so it is a placeholder line exactly when it
      has at most three characters once stripped: real sentences are kept. */
  lemma PlainTextPlaceholderIff(text: string)
    requires AllPlain(text)
    ensures IsPlaceholderLine(text) <==> |Strip(text)| <= 3
  {
    DropNumberTokensPlain(text, []);
    DropQuotesPlain(text, []);
    DropPageWordsPlain(text, []);
    assert text + [] == text;
    assert '<' !in text by {
      forall k | 0 <= k < |text|
        ensures text[k] != '<'
      {
        assert PlainChar(text[k]);
      }
    }
    TagCountNone(text);
  }

  /** The page reference the docstring has in mind, with any tag numbers and any whitespace
      around the second tag: both tags, the quotes around the first one and the page words
      all go, and what is left is blank. */
  lemma PageReferenceIsPlaceholder(i: string, j: string, w1: string, w2: string)
    requires i != [] && AllDigits(i) && j != [] && AllDigits(j)
    requires AllSpace(w1) && AllSpace(w2)
    ensures IsPlaceholderLine("\"<" + i + "/>\"在第" + w1 + "<" + j + "/>" + w2 + "頁")
  {
    var text := "\"" + ("<" + i + "/>" + ("\"" + ("在" + ("第" + (w1 + ("<" + j + "/>" + (w2 + "頁")))))));
    assert "\"<" + i + "/>\"在第" + w1 + "<" + j + "/>" + w2 + "頁" == text;
    PageReferenceReduced(i, j, w1, w2);
    BlankIsPlaceholder(text);
  }

  /** The three passes together leave only the whitespace of a page reference. */
  lemma PageReferenceReduced(i: string, j: string, w1: string, w2: string)
    requires i != [] && AllDigits(i) && j != [] && AllDigits(j)
    requires AllSpace(w1) && AllSpace(w2)
    ensures AllSpace(Reduced("\"" + ("<" + i + "/>" + ("\"" + ("在" + ("第" + (w1 + ("<" + j + "/>" + (w2 + "頁")))))))))
  {
    PageReferenceTokens(i, j, w1, w2);
    PageReferenceQuotes(w1, w2);
    PageReferenceWords(w1, w2);
  }

  /** A text that reduces to whitespace is a placeholder line. */
  lemma BlankIsPlaceholder(text: string)
    requires AllSpace(Reduced(text))
    ensures IsPlaceholderLine(text)
  {
    StripEmptyIff(Reduced(text));
  }

  // ---------------------------------------------------------------------
  // clean_translation_file

  predicate EndsWith(s: string, suffix: string)
  {
    |suffix| <= |s| && s[|s| - |suffix|..] == suffix
  }

  /** `cleaned.endswith('...') or cleaned.endswith('…')`. */
  predicate LooksTruncated(s: string)
  {
    EndsWith(s, "...") || EndsWith(s, "\U{2026}")
  }

  /** The `stats` dictionary. */
  datatype Stats = Stats(total: nat, empty: nat, placeholder: nat, cleaned: nat, truncated: nat)

  /** How the loop treats one line. */
  datatype Outcome = EmptyLine | PlaceholderLine | KeptLine(text: string)

  /** The outcome for one input line: skipped as empty, skipped as a placeholder, or kept in
      its cleaned form. */
  function Classify(line: string): Outcome
  {
    ClassifyCleaned(CleanLine(line))
  }

  /** The outcome for a line already cleaned to `c`. */
  function ClassifyCleaned(c: string): Outcome
  {
    if c == [] then EmptyLine else if IsPlaceholderLine(c) then PlaceholderLine else KeptLine(c)
  }

  /** A kept line is the non-empty, non-placeholder cleaned line, which is trimmed and holds no
      `│`; a line is skipped as empty exactly when it cleans to nothing. */
  lemma ClassifySpec(line: string)
    ensures Classify(line).EmptyLine? <==> CleanLine(line) == []
    ensures Classify(line).PlaceholderLine? <==> CleanLine(line) != [] && IsPlaceholderLine(CleanLine(line))
    ensures Classify(line).KeptLine? ==>
      var c := Classify(line).text;
      c == CleanLine(line) && c != [] && !IsPlaceholderLine(c) && Trimmed(c) && BoxBar !in c
  {
    CleanLineShape(line);
  }

  function Outcomes(lines: seq<string>): seq<Outcome>
  {
    seq(|lines|, i requires 0 <= i < |lines| => Classify(lines[i]))
  }

  /** The counters and the kept lines after some outcomes. */
  datatype Tally = Tally(empty: nat, placeholder: nat, cleaned: nat, truncated: nat, kept: seq<string>)

  /** One pass of the loop. */
  function TallyStep(t: Tally, o: Outcome): Tally
  {
    match o
    case EmptyLine => t.(empty := t.empty + 1)
    case PlaceholderLine => t.(placeholder := t.placeholder + 1)
    case KeptLine(c) =>
      Tally(t.empty, t.placeholder, t.cleaned + 1, t.truncated + (if LooksTruncated(c) then 1 else 0), t.kept + [c])
  }

  /** The counters and the kept lines after the first `n` outcomes. */
  function TallyOf(os: seq<Outcome>, n: nat): Tally
    requires n <= |os|
  {
    if n == 0 then Tally(0, 0, 0, 0, []) else TallyStep(TallyOf(os, n - 1), os[n - 1])
  }

  /** The counters and kept lines the loop carries, as a `Tally`. */
  function TallyIn(stats: Stats, kept: seq<string>): Tally
  {
    Tally(stats.empty, stats.placeholder, stats.cleaned, stats.truncated, kept)
  }

  /** `clean_translation_file` on the lines `readlines()` gives: the statistics and the lines
      written to the output file, each followed there by a line break. */
  method CleanTranslationFile(lines: seq<string>) returns (stats: Stats, cleanedLines: seq<string>)
    ensures stats.total == |lines|
    ensures TallyIn(stats, cleanedLines) == TallyOf(Outcomes(lines), |lines|)
  {
    stats := Stats(0, 0, 0, 0, 0);
    cleanedLines := [];
    stats := stats.(total := |lines|);
    ghost var os := Outcomes(lines);
    var idx := 0;
    while idx < |lines|
      invariant idx <= |lines| && stats.total == |lines|
      invariant TallyIn(stats, cleanedLines) == TallyOf(os, idx)
    {
      TallyOfNext(os, idx);
      var cleaned := CleanLine(lines[idx]);
      stats, cleanedLines := CountLine(stats, cleanedLines, cleaned);
      idx := idx + 1;
    }
  }

  lemma TallyOfNext(os: seq<Outcome>, n: nat)
    requires n < |os|
    ensures TallyOf(os, n + 1) == TallyStep(TallyOf(os, n), os[n])
  {
  }

  /** One pass of the loop body, once the line is cleaned: a line that cleans to nothing
      counts as empty, a placeholder line counts as such, and any other line is kept and
      counted, and counted again as truncated when it ends in an ellipsis. */
  method CountLine(stats: Stats, kept: seq<string>, cleaned: string) returns (next: Stats, nextKept: seq<string>)
    ensures next.total == stats.total
    ensures TallyIn(next, nextKept) == TallyStep(TallyIn(stats, kept), ClassifyCleaned(cleaned))
  {
    next, nextKept := stats, kept;
    if cleaned == [] {
      next := next.(empty := next.empty + 1);
      return;
    }
    if IsPlaceholderLine(cleaned) {
      next := next.(placeholder := next.placeholder + 1);
      return;
    }
    if EndsWith(cleaned, "...") || EndsWith(cleaned, "\U{2026}") {
      next := next.(truncated := next.truncated + 1);
    }
    nextKept := nextKept + [cleaned];
    next := next.(cleaned := next.cleaned + 1);
  }

  /** Every outcome lands in exactly one bucket, and at most the kept lines look truncated. */
  lemma {:induction false} TallyBalance(os: seq<Outcome>, n: nat)
    requires n <= |os|
    ensures var t := TallyOf(os, n);
      t.empty + t.placeholder + t.cleaned == n && t.truncated <= t.cleaned && t.cleaned == |t.kept|
  {
    if n > 0 {
      TallyBalance(os, n - 1);
    }
  }

  /** The positions of the kept lines among the first `n` outcomes. */
  ghost function KeptLines(os: seq<Outcome>, n: nat): seq<nat>
    requires n <= |os|
  {
    if n == 0 then [] else KeptLines(os, n - 1) + (if os[n - 1].KeptLine? then [n - 1] else [])
  }

  /** The kept positions are exactly the kept outcomes, ascending. */
  lemma {:induction false} KeptLinesSpec(os: seq<Outcome>, n: nat)
    requires n <= |os|
    ensures forall j, k :: 0 <= j < k < |KeptLines(os, n)| ==> KeptLines(os, n)[j] < KeptLines(os, n)[k]
    ensures forall j :: 0 <= j < |KeptLines(os, n)| ==> KeptLines(os, n)[j] < n
    ensures forall i :: 0 <= i < n ==> (i in KeptLines(os, n) <==> os[i].KeptLine?)
  {
    if n > 0 {
      KeptLinesSpec(os, n - 1);
      var ps := KeptLines(os, n - 1);
      var extra: seq<nat> := if os[n - 1].KeptLine? then [n - 1] else [];
      assert KeptLines(os, n) == ps + extra;
      forall i | 0 <= i < n
        ensures i in ps + extra <==> os[i].KeptLine?
      {
        assert i in ps + extra <==> i in ps || i in extra;
      }
    }
  }

  /** The output holds the text of each kept outcome, in input order (with `ClassifySpec`: the
      cleaned line, non-empty and not a placeholder line). */
  lemma {:induction false} KeptInOrder(os: seq<Outcome>, n: nat)
    requires n <= |os|
    ensures |TallyOf(os, n).kept| == |KeptLines(os, n)|
    ensures forall j :: 0 <= j < |KeptLines(os, n)| ==>
      KeptLines(os, n)[j] < |os| && os[KeptLines(os, n)[j]].KeptLine?
      && TallyOf(os, n).kept[j] == os[KeptLines(os, n)[j]].text
  {
    if n > 0 {
      KeptInOrder(os, n - 1);
    }
  }
}
