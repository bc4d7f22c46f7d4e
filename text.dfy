/**
 * String primitives the scripts take from Python's `str`: whitespace as
 * `str.isspace()` (the same set the regex class `\s` matches in a str
 * pattern), `strip()`, `split()`, `split(sep)`, `sep.join(...)`, the `in`
 * substring test and single-character `replace`.
 */
module Text {

  /** Python's `str.isspace()`: the characters `\s` matches in a str pattern. */
  predicate IsSpace(c: char)
  {
    c == ' ' || '\t' <= c <= '\r' || '\U{1c}' <= c <= '\U{1f}' || c == '\U{85}' || c == '\U{a0}'
    || c == '\U{1680}' || '\U{2000}' <= c <= '\U{200a}' || c == '\U{2028}' || c == '\U{2029}'
    || c == '\U{202f}' || c == '\U{205f}' || c == '\U{3000}'
  }

  /** The regex class `\d` restricted to ASCII digits. */
  predicate IsDigit(c: char)
  {
    '0' <= c <= '9'
  }

  predicate AllSpace(s: string)
  {
    forall i :: 0 <= i < |s| ==> IsSpace(s[i])
  }

  predicate NoSpace(s: string)
  {
    forall i :: 0 <= i < |s| ==> !IsSpace(s[i])
  }

  /** `s.lstrip()`: the suffix of `s` left after its leading whitespace. */
  function TrimLeft(s: string): (r: string)
    ensures |r| <= |s|
  {
    if s != [] && IsSpace(s[0]) then TrimLeft(s[1..]) else s
  }

  /** `s.rstrip()`: the prefix of `s` left after its trailing whitespace. */
  function TrimRight(s: string): (r: string)
    ensures |r| <= |s|
  {
    if s != [] && IsSpace(s[|s| - 1]) then TrimRight(s[..|s| - 1]) else s
  }

  /** `lstrip()` removes a whitespace prefix and stops at the first other character. */
  lemma {:induction false} TrimLeftShape(s: string)
    ensures var r := TrimLeft(s);
      r == s[|s| - |r|..] && AllSpace(s[..|s| - |r|]) && (r == [] || !IsSpace(r[0]))
    decreases |s|
  {
    if s != [] && IsSpace(s[0]) {
      TrimLeftShape(s[1..]);
      var r := TrimLeft(s);
      assert s[1..][|s| - 1 - |r|..] == s[|s| - |r|..];
      forall i | 0 <= i < |s| - |r|
        ensures IsSpace(s[i])
      {
        if i > 0 {
          assert s[i] == s[1..][..|s| - 1 - |r|][i - 1];
        }
      }
    }
  }

  /** `rstrip()` removes a whitespace suffix and stops at the last other character. */
  lemma {:induction false} TrimRightShape(s: string)
    ensures var r := TrimRight(s);
      r == s[..|r|] && AllSpace(s[|r|..]) && (r == [] || !IsSpace(r[|r| - 1]))
    decreases |s|
  {
    if s != [] && IsSpace(s[|s| - 1]) {
      var p := s[..|s| - 1];
      TrimRightShape(p);
      var r := TrimRight(s);
      assert p[..|r|] == s[..|r|];
      forall i | |r| <= i < |s|
        ensures IsSpace(s[i])
      {
        if i < |s| - 1 {
          assert s[i] == p[|r|..][i - |r|];
        }
      }
    }
  }

  /** Neither end of `s` is whitespace. */
  predicate Trimmed(s: string)
  {
    s == [] || (!IsSpace(s[0]) && !IsSpace(s[|s| - 1]))
  }

  /** `s.strip()`. */
  function Strip(s: string): (r: string)
    ensures |r| <= |s|
  {
    TrimRight(TrimLeft(s))
  }

  /** `strip()` leaves whitespace at neither end. */
  lemma StripTrimmed(s: string)
    ensures Trimmed(Strip(s))
  {
    var l := TrimLeft(s);
    TrimLeftShape(s);
    TrimRightShape(l);
    var r := TrimRight(l);
    if r != [] {
      assert r[0] == l[0];
    }
  }

  /** `''.join(parts)`. */
  function Concat(parts: seq<string>): (r: string)
  {
    if parts == [] then [] else parts[0] + Concat(parts[1..])
  }

  /** `sep.join(parts)`. */
  function Join(sep: string, parts: seq<string>): (r: string)
  {
    if parts == [] then []
    else if |parts| == 1 then parts[0]
    else parts[0] + sep + Join(sep, parts[1..])
  }

  /** `s.split(c)` for a one-character separator: never empty, pieces in order. */
  function SplitOn(s: string, c: char): (parts: seq<string>)
    ensures |parts| >= 1
    ensures forall i :: 0 <= i < |parts| ==> c !in parts[i]
  {
    if s == [] then [[]]
    else
      var rest := SplitOn(s[1..], c);
      if s[0] == c then [[]] + rest else [[s[0]] + rest[0]] + rest[1..]
  }

  /** Length of the longest whitespace-free prefix of `s`. */
  function WordLen(s: string): (n: nat)
    ensures n <= |s|
    ensures NoSpace(s[..n])
    ensures n == |s| || IsSpace(s[n])
  {
    if s == [] || IsSpace(s[0]) then 0 else 1 + WordLen(s[1..])
  }

  /** Length of the longest all-whitespace prefix of `s`. */
  function SpaceLen(s: string): (n: nat)
    ensures n <= |s|
    ensures AllSpace(s[..n])
    ensures n == |s| || !IsSpace(s[n])
  {
    if s == [] || !IsSpace(s[0]) then 0 else 1 + SpaceLen(s[1..])
  }

  /** `s.split()` with no argument: the maximal whitespace-free runs of `s`, in order. */
  function Words(s: string): (ws: seq<string>)
    ensures forall i :: 0 <= i < |ws| ==> ws[i] != [] && NoSpace(ws[i])
    decreases |s|
  {
    if s == [] then []
    else if IsSpace(s[0]) then Words(s[1..])
    else
      var n := WordLen(s);
      [s[..n]] + Words(s[n..])
  }

  /** `' '.join(s.split())`. */
  function NormalizeSpace(s: string): string
  {
    Join(" ", Words(s))
  }

  /** `re.sub(r'\s+', ' ', s)`: every maximal whitespace run becomes one space. */
  function CollapseSpace(s: string): (r: string)
    decreases |s|
  {
    if s == [] then []
    else if IsSpace(s[0]) then " " + CollapseSpace(s[SpaceLen(s)..])
    else [s[0]] + CollapseSpace(s[1..])
  }

  /** `[l.strip() for l in lines if l.strip()]`. */
  function NonBlankStripped(lines: seq<string>): (r: seq<string>)
    ensures |r| <= |lines|
    ensures forall i :: 0 <= i < |r| ==> r[i] != [] && r[i] == Strip(r[i])
  {
    if lines == [] then []
    else
      var rest := NonBlankStripped(lines[1..]);
      var s := Strip(lines[0]);
      StripIdempotent(lines[0]);
      if s != [] then [s] + rest else rest
  }

  /** Python's `needle in hay` on strings. */
  predicate Contains(hay: string, needle: string)
    decreases |hay|
  {
    needle <= hay || (hay != [] && Contains(hay[1..], needle))
  }

  /** `s.replace(c, by)` for a single character `c`. */
  function ReplaceChar(s: string, c: char, repl: string): (r: string)
    ensures c !in repl ==> c !in r
  {
    if s == [] then []
    else (if s[0] == c then repl else [s[0]]) + ReplaceChar(s[1..], c, repl)
  }

  /** Number of occurrences of `c` in `s`. */
  function CountChar(s: string, c: char): nat
  {
    if s == [] then 0 else (if s[0] == c then 1 else 0) + CountChar(s[1..], c)
  }

  lemma AppendAssoc<T>(a: seq<T>, b: seq<T>, c: seq<T>)
    ensures (a + b) + c == a + (b + c)
  {
  }

  lemma TailOfAppend<T>(a: seq<T>, b: seq<T>)
    requires a != []
    ensures (a + b)[0] == a[0] && (a + b)[1..] == a[1..] + b
  {
  }

  lemma TakeOfAppend<T>(a: seq<T>, b: seq<T>, n: nat)
    requires n <= |a|
    ensures (a + b)[..n] == a[..n]
  {
  }

  lemma DropOfAppend<T>(a: seq<T>, b: seq<T>, n: nat)
    requires n <= |a|
    ensures (a + b)[n..] == a[n..] + b
  {
  }

  lemma TakeSnoc<T>(a: seq<T>, s: seq<T>, k: nat)
    requires k < |s|
    ensures (a + s[..k]) + [s[k]] == a + s[..k + 1]
  {
    assert s[..k + 1] == s[..k] + [s[k]];
  }

  lemma DropCons<T>(s: seq<T>, j: nat)
    requires j < |s|
    ensures s[j..] == [s[j]] + s[j + 1..]
  {
    assert |s[j..]| == |[s[j]] + s[j + 1..]|;
    forall i | 0 <= i < |s[j..]|
      ensures s[j..][i] == ([s[j]] + s[j + 1..])[i]
    {
    }
  }

  /** Cutting the element that follows `kept` out of `kept + [x] + rest`. */
  lemma CutAt<T>(kept: seq<T>, x: T, rest: seq<T>)
    ensures var s := kept + ([x] + rest);
      s[..|kept|] + s[|kept| + 1..] == kept + rest && s == (kept + [x]) + rest
  {
    var s := kept + ([x] + rest);
    assert s[..|kept|] == kept;
    assert s[|kept| + 1..] == rest;
  }

  // ---------------------------------------------------------------------
  // strip()

  lemma StripIdempotent(s: string)
    ensures Strip(Strip(s)) == Strip(s)
  {
    var r := Strip(s);
    StripTrimmed(s);
    if r != [] {
      assert TrimLeft(r) == r;
      assert TrimRight(r) == r;
    }
  }

  lemma StripOfTrimmed(s: string)
    requires Trimmed(s)
    ensures Strip(s) == s
  {
  }

  /** `s.strip()` is empty exactly when `s` is all whitespace. */
  lemma StripEmptyIff(s: string)
    ensures Strip(s) == [] <==> AllSpace(s)
  {
    var l := TrimLeft(s);
    TrimLeftShape(s);
    TrimRightShape(l);
    if Strip(s) == [] {
      assert l[0..] == l;
      assert l == [];
      assert s[..|s|] == s;
    } else {
      var k :| 0 <= k < |Strip(s)|;
      assert Strip(s)[0] == l[0];
      assert !IsSpace(s[|s| - |l|]);
    }
  }

  /** Stripping never brings in a character. */
  lemma StripKeepsOut(s: string, c: char)
    requires c !in s
    ensures c !in Strip(s)
  {
    var l := TrimLeft(s);
    TrimLeftShape(s);
    TrimRightShape(l);
    assert forall i :: 0 <= i < |l| ==> l[i] == s[|s| - |l| + i];
    var r := TrimRight(l);
    assert forall i :: 0 <= i < |r| ==> r[i] == l[i];
  }

  lemma {:induction false} NonBlankStrippedKeepsOut(lines: seq<string>, c: char)
    requires forall i :: 0 <= i < |lines| ==> c !in lines[i]
    ensures forall i :: 0 <= i < |NonBlankStripped(lines)| ==> c !in NonBlankStripped(lines)[i]
  {
    if lines != [] {
      NonBlankStrippedKeepsOut(lines[1..], c);
      StripKeepsOut(lines[0], c);
    }
  }

  lemma NonBlankStrippedCons(x: string, rest: seq<string>)
    ensures NonBlankStripped([x] + rest) == (if Strip(x) != [] then [Strip(x)] else []) + NonBlankStripped(rest)
  {
    assert ([x] + rest)[1..] == rest;
  }

  lemma {:induction false} NonBlankStrippedAppend(a: seq<string>, b: seq<string>)
    ensures NonBlankStripped(a + b) == NonBlankStripped(a) + NonBlankStripped(b)
  {
    if a != [] {
      assert a + b == [a[0]] + (a[1..] + b);
      assert a == [a[0]] + a[1..];
      NonBlankStrippedCons(a[0], a[1..] + b);
      NonBlankStrippedCons(a[0], a[1..]);
      NonBlankStrippedAppend(a[1..], b);
    } else {
      assert a + b == b;
    }
  }

  lemma NonBlankStrippedSnoc(lines: seq<string>, i: nat)
    requires i < |lines|
    ensures NonBlankStripped(lines[..i + 1]) ==
      NonBlankStripped(lines[..i]) + (if Strip(lines[i]) != [] then [Strip(lines[i])] else [])
  {
    assert lines[..i + 1] == lines[..i] + [lines[i]];
    NonBlankStrippedAppend(lines[..i], [lines[i]]);
    NonBlankStrippedCons(lines[i], []);
    assert [lines[i]] + [] == [lines[i]];
  }

  /** Only blank lines leave nothing. */
  lemma {:induction false} NonBlankStrippedBlank(lines: seq<string>)
    requires forall i :: 0 <= i < |lines| ==> lines[i] == []
    ensures NonBlankStripped(lines) == []
  {
    if lines != [] {
      NonBlankStrippedBlank(lines[1..]);
    }
  }

  /** Stripping `" " + x` is stripping `x`. */
  lemma StripLeadingSpace(c: char, x: string)
    requires IsSpace(c)
    ensures Strip([c] + x) == Strip(x)
  {
    assert ([c] + x)[1..] == x;
  }

  lemma {:induction false} TrimRightAppend(a: string, b: string)
    requires TrimRight(b) != []
    ensures TrimRight(a + b) == a + TrimRight(b)
    decreases |b|
  {
    if IsSpace(b[|b| - 1]) {
      assert (a + b)[..|a + b| - 1] == a + b[..|b| - 1];
      TrimRightAppend(a, b[..|b| - 1]);
    }
  }

  // ---------------------------------------------------------------------
  // Join, Concat and SplitOn

  lemma JoinCons(sep: string, w: string, ws: seq<string>)
    requires ws != []
    ensures Join(sep, [w] + ws) == w + sep + Join(sep, ws)
  {
    assert ([w] + ws)[1..] == ws;
  }

  lemma {:induction false} ConcatAppend(a: seq<string>, b: seq<string>)
    ensures Concat(a + b) == Concat(a) + Concat(b)
  {
    if a != [] {
      TailOfAppend(a, b);
      ConcatAppend(a[1..], b);
    } else {
      assert a + b == b;
    }
  }

  /** Joining with a separator free of `c` pieces free of `c` gives a string free of `c`. */
  lemma {:induction false} JoinKeepsOut(sep: string, parts: seq<string>, c: char)
    requires c !in sep
    requires forall i :: 0 <= i < |parts| ==> c !in parts[i]
    ensures c !in Join(sep, parts)
  {
    if |parts| > 1 {
      JoinKeepsOut(sep, parts[1..], c);
    }
  }

  /** Joining empty pieces with a whitespace separator gives only whitespace. */
  lemma {:induction false} JoinOfBlanks(sep: string, parts: seq<string>)
    requires AllSpace(sep)
    requires forall i :: 0 <= i < |parts| ==> parts[i] == []
    ensures AllSpace(Join(sep, parts))
  {
    if |parts| > 1 {
      JoinOfBlanks(sep, parts[1..]);
      assert Join(sep, parts) == sep + Join(sep, parts[1..]);
    }
  }

  /** Joining the pieces of `s.split(c)` with `c` gives back `s`. */
  lemma {:induction false} JoinSplitOn(s: string, c: char)
    ensures Join([c], SplitOn(s, c)) == s
  {
    if s != [] {
      var rest := SplitOn(s[1..], c);
      JoinSplitOn(s[1..], c);
      if s[0] == c {
        JoinCons([c], [], rest);
      } else if |rest| == 1 {
      } else {
        JoinCons([c], rest[0], rest[1..]);
        assert rest == [rest[0]] + rest[1..];
        JoinCons([c], [s[0]] + rest[0], rest[1..]);
      }
    }
  }

  /** A string without `c` splits into itself. */
  lemma {:induction false} SplitOnAbsent(s: string, c: char)
    requires c !in s
    ensures SplitOn(s, c) == [s]
  {
    if s != [] {
      SplitOnAbsent(s[1..], c);
      assert [s[0]] + s[1..] == s;
    }
  }

  /** Splitting at a separator splits the two sides independently. */
  lemma {:induction false} SplitOnAround(a: string, b: string, c: char)
    ensures SplitOn(a + [c] + b, c) == SplitOn(a, c) + SplitOn(b, c)
  {
    if a == [] {
      assert a + [c] + b == [c] + b;
      assert ([c] + b)[1..] == b;
    } else {
      var s := a + [c] + b;
      assert s[0] == a[0] && s[1..] == a[1..] + [c] + b;
      SplitOnAround(a[1..], b, c);
    }
  }

  /** Splitting pieces free of `c` after joining them with `c` gives the pieces back. */
  lemma {:induction false} SplitOnJoin(parts: seq<string>, c: char)
    requires |parts| >= 1
    requires forall i :: 0 <= i < |parts| ==> c !in parts[i]
    ensures SplitOn(Join([c], parts), c) == parts
  {
    if |parts| == 1 {
      SplitOnAbsent(parts[0], c);
    } else {
      SplitOnJoin(parts[1..], c);
      SplitOnAbsent(parts[0], c);
      SplitOnAround(parts[0], Join([c], parts[1..]), c);
      assert parts == [parts[0]] + parts[1..];
    }
  }

  lemma {:induction false} CountCharAppend(a: string, b: string, c: char)
    ensures CountChar(a + b, c) == CountChar(a, c) + CountChar(b, c)
  {
    if a != [] {
      TailOfAppend(a, b);
      CountCharAppend(a[1..], b, c);
    } else {
      assert a + b == b;
    }
  }

  lemma {:induction false} CountCharAbsent(s: string, c: char)
    requires forall i :: 0 <= i < |s| ==> s[i] != c
    ensures CountChar(s, c) == 0
  {
    if s != [] {
      CountCharAbsent(s[1..], c);
    }
  }

  /** A character with no occurrences does not occur. */
  lemma {:induction false} CountCharZero(s: string, c: char)
    requires CountChar(s, c) == 0
    ensures c !in s
  {
    if s != [] {
      CountCharZero(s[1..], c);
    }
  }

  /** The occurrences of `c` in all the given strings together. */
  function SumCount(parts: seq<string>, c: char): nat
  {
    if parts == [] then 0 else CountChar(parts[0], c) + SumCount(parts[1..], c)
  }

  /** Two lists whose strings hold `c` equally often, position by position, hold it equally often. */
  lemma {:induction false} SumCountSame(a: seq<string>, b: seq<string>, c: char)
    requires |a| == |b|
    requires forall i :: 0 <= i < |a| ==> CountChar(a[i], c) == CountChar(b[i], c)
    ensures SumCount(a, c) == SumCount(b, c)
  {
    if a != [] {
      SumCountSame(a[1..], b[1..], c);
    }
  }

  /** No occurrence in all the strings together means none in any of them. */
  lemma {:induction false} SumCountZero(parts: seq<string>, c: char)
    ensures SumCount(parts, c) == 0 <==> forall i :: 0 <= i < |parts| ==> CountChar(parts[i], c) == 0
  {
    if parts != [] {
      SumCountZero(parts[1..], c);
      assert forall i :: 1 <= i < |parts| ==> parts[i] == parts[1..][i - 1];
    }
  }

  /** Splitting on `c` gives one piece more than there are `c`s. */
  lemma {:induction false} SplitOnCount(s: string, c: char)
    ensures |SplitOn(s, c)| == CountChar(s, c) + 1
  {
    if s != [] {
      SplitOnCount(s[1..], c);
    }
  }

  /** The occurrences of `c` in `sep.join(parts)` for a separator holding one `c`: those in the
      parts and one per separator. */
  lemma {:induction false} CountInJoin(sep: string, parts: seq<string>, c: char)
    requires parts != []
    requires CountChar(sep, c) == 1
    ensures CountChar(Join(sep, parts), c) == SumCount(parts, c) + |parts| - 1
  {
    if |parts| > 1 {
      CountInJoin(sep, parts[1..], c);
      CountCharAppend(parts[0] + sep, Join(sep, parts[1..]), c);
      CountCharAppend(parts[0], sep, c);
    }
  }

  // ---------------------------------------------------------------------
  // split() and the whitespace normal form

  lemma {:induction false} WordLenOfNoSpace(w: string)
    requires NoSpace(w)
    ensures WordLen(w) == |w|
  {
    if w != [] {
      WordLenOfNoSpace(w[1..]);
    }
  }

  lemma {:induction false} WordLenBeforeSpace(a: string, rest: string)
    requires rest != [] && IsSpace(rest[0])
    ensures WordLen(a + rest) == WordLen(a)
  {
    if a != [] {
      TailOfAppend(a, rest);
      if !IsSpace(a[0]) {
        WordLenBeforeSpace(a[1..], rest);
      }
    } else {
      assert a + rest == rest;
    }
  }

  /** A whitespace-free non-empty string is its own single word. */
  lemma WordsOfWord(w: string)
    requires w != [] && NoSpace(w)
    ensures Words(w) == [w]
  {
    WordLenOfNoSpace(w);
    assert w[..|w|] == w;
  }

  lemma {:induction false} WordsAllSpace(s: string)
    requires AllSpace(s)
    ensures Words(s) == []
    decreases |s|
  {
    if s != [] {
      WordsAllSpace(s[1..]);
    }
  }

  /** A whitespace character separates words: `(a + c + b).split() == a.split() + b.split()`. */
  lemma {:induction false} WordsConcatSpace(a: string, c: char, b: string)
    requires IsSpace(c)
    ensures Words(a + [c] + b) == Words(a) + Words(b)
    decreases |a|
  {
    var t := [c] + b;
    var s := a + [c] + b;
    AppendAssoc(a, [c], b);
    if a == [] {
      assert s == t;
      TailOfAppend([c], b);
    } else if IsSpace(a[0]) {
      TailOfAppend(a, t);
      AppendAssoc(a[1..], [c], b);
      WordsConcatSpace(a[1..], c, b);
    } else {
      WordLenBeforeSpace(a, t);
      var n := WordLen(a);
      TakeOfAppend(a, t, n);
      DropOfAppend(a, t, n);
      AppendAssoc(a[n..], [c], b);
      WordsConcatSpace(a[n..], c, b);
    }
  }

  lemma WordsAppendSpaces(a: string, t: string)
    requires AllSpace(t)
    ensures Words(a + t) == Words(a)
  {
    if t != [] {
      assert a + t == a + [t[0]] + t[1..];
      WordsConcatSpace(a, t[0], t[1..]);
      WordsAllSpace(t[1..]);
    } else {
      assert a + t == a;
    }
  }

  lemma {:induction false} WordsSkipSpaces(s: string, n: nat)
    requires n <= |s| && AllSpace(s[..n])
    ensures Words(s) == Words(s[n..])
    decreases n
  {
    if n > 0 {
      assert IsSpace(s[..n][0]);
      var t := s[1..];
      forall i | 0 <= i < n - 1 ensures IsSpace(t[i]) {
        assert t[i] == s[..n][i + 1];
      }
      assert AllSpace(t[..n - 1]);
      WordsSkipSpaces(t, n - 1);
      assert s[1..][n - 1..] == s[n..];
    }
  }

  /** `s.strip().split() == s.split()`. */
  lemma WordsStrip(s: string)
    ensures Words(Strip(s)) == Words(s)
  {
    var l := TrimLeft(s);
    TrimLeftShape(s);
    WordsSkipSpaces(s, |s| - |l|);
    var r := TrimRight(l);
    TrimRightShape(l);
    assert l == r + l[|r|..];
    WordsAppendSpaces(r, l[|r|..]);
  }

  /** `' '.join(words)` splits back into the same words. */
  lemma {:induction false} WordsOfJoinedWords(ws: seq<string>)
    requires forall i :: 0 <= i < |ws| ==> ws[i] != [] && NoSpace(ws[i])
    ensures Words(Join(" ", ws)) == ws
  {
    if |ws| == 1 {
      WordsOfWord(ws[0]);
    } else if |ws| > 1 {
      WordsOfJoinedWords(ws[1..]);
      WordsConcatSpace(ws[0], ' ', Join(" ", ws[1..]));
      WordsOfWord(ws[0]);
    }
  }

  /** Words of the pieces, concatenated in order. */
  function WordsOfAll(parts: seq<string>): seq<string>
  {
    if parts == [] then [] else Words(parts[0]) + WordsOfAll(parts[1..])
  }

  /** Joining with a whitespace character neither adds nor loses words. */
  lemma {:induction false} WordsOfJoin(c: char, parts: seq<string>)
    requires IsSpace(c)
    ensures Words(Join([c], parts)) == WordsOfAll(parts)
  {
    if |parts| == 1 {
      assert WordsOfAll(parts[1..]) == [];
    } else if |parts| > 1 {
      WordsOfJoin(c, parts[1..]);
      WordsConcatSpace(parts[0], c, Join([c], parts[1..]));
    }
  }

  lemma {:induction false} WordsOfNonBlankStripped(lines: seq<string>)
    ensures WordsOfAll(NonBlankStripped(lines)) == WordsOfAll(lines)
  {
    if lines != [] {
      var rest := NonBlankStripped(lines[1..]);
      var s := Strip(lines[0]);
      WordsOfNonBlankStripped(lines[1..]);
      WordsStrip(lines[0]);
      if s == [] {
        assert NonBlankStripped(lines) == rest;
      } else {
        assert NonBlankStripped(lines) == [s] + rest;
        assert ([s] + rest)[1..] == rest;
      }
    }
  }

  /** Splitting on a whitespace character, stripping and dropping blank pieces and
      re-joining with that character keeps the words. */
  lemma LinesKeepWords(s: string, c: char)
    requires IsSpace(c)
    ensures Words(Join([c], NonBlankStripped(SplitOn(s, c)))) == Words(s)
  {
    WordsOfJoin(c, NonBlankStripped(SplitOn(s, c)));
    WordsOfNonBlankStripped(SplitOn(s, c));
    WordsOfJoin(c, SplitOn(s, c));
    JoinSplitOn(s, c);
  }

  /** Dropping blank lines and stripping the rest keeps the words of the joined lines. */
  lemma JoinedLinesKeepWords(lines: seq<string>)
    ensures Words(Join("\n", NonBlankStripped(lines))) == Words(Join("\n", lines))
  {
    WordsOfJoin('\n', NonBlankStripped(lines));
    WordsOfJoin('\n', lines);
    WordsOfNonBlankStripped(lines);
  }

  lemma {:induction false} CollapseAfterWord(w: string, rest: string)
    requires NoSpace(w)
    ensures CollapseSpace(w + rest) == w + CollapseSpace(rest)
  {
    if w != [] {
      TailOfAppend(w, rest);
      CollapseAfterWord(w[1..], rest);
    } else {
      assert w + rest == rest;
    }
  }

  lemma CollapseAllSpace(s: string)
    requires s != [] && AllSpace(s)
    ensures CollapseSpace(s) == " "
  {
    assert SpaceLen(s) == |s|;
  }

  lemma StripWordThenSpaces(w: string, rest: string)
    requires w != [] && NoSpace(w) && AllSpace(rest)
    ensures Strip(CollapseSpace(w + rest)) == w
  {
    CollapseAfterWord(w, rest);
    if rest != [] {
      CollapseAllSpace(rest);
      assert TrimRight(w + " ") == TrimRight(w);
    }
    assert TrimLeft(w) == w;
  }

  lemma StripWordSpaceText(w: string, x: string)
    requires w != [] && NoSpace(w) && x != [] && !IsSpace(x[0])
    ensures Strip(w + " " + x) == w + " " + Strip(x)
  {
    assert TrimLeft(w + " " + x) == w + " " + x;
    assert TrimLeft(x) == x;
    assert x[0..] == x;
    TrimRightShape(x);
    assert TrimRight(x) != [];
    TrimRightAppend(w + " ", x);
  }

  lemma CollapseNonSpaceStart(t: string)
    requires t != [] && !IsSpace(t[0])
    ensures CollapseSpace(t) != [] && CollapseSpace(t)[0] == t[0]
    ensures Words(t) != []
  {
  }

  lemma CollapseWordSpaces(w: string, rest: string, t: string)
    requires NoSpace(w)
    requires rest != [] && IsSpace(rest[0])
    requires t == rest[SpaceLen(rest)..]
    ensures CollapseSpace(w + rest) == w + " " + CollapseSpace(t)
    ensures Words(rest) == Words(t)
  {
    WordsSkipSpaces(rest, SpaceLen(rest));
    CollapseSpaceRun(rest);
    CollapseAfterWord(w, rest);
    AppendAssoc(w, " ", CollapseSpace(t));
  }

  lemma CollapseSpaceRun(s: string)
    requires s != [] && IsSpace(s[0])
    ensures CollapseSpace(s) == " " + CollapseSpace(s[SpaceLen(s)..])
  {
  }

  /** The inductive step of StripCollapse for a word `w` followed by whitespace and
      then the non-blank text `t`. */
  lemma StripCollapseWordCase(w: string, rest: string, t: string)
    requires w != [] && NoSpace(w)
    requires rest != [] && IsSpace(rest[0]) && t != [] && !IsSpace(t[0])
    requires t == rest[SpaceLen(rest)..]
    requires Strip(CollapseSpace(t)) == NormalizeSpace(t)
    ensures Strip(CollapseSpace(w + rest)) == Join(" ", [w] + Words(rest))
  {
    CollapseWordSpaces(w, rest, t);
    CollapseNonSpaceStart(t);
    var x := CollapseSpace(t);
    StripWordSpaceText(w, x);
    JoinCons(" ", w, Words(t));
  }

  /** `re.sub(r'\s+', ' ', s).strip()` is `' '.join(s.split())`. */
  lemma {:induction false} StripCollapse(s: string)
    ensures Strip(CollapseSpace(s)) == NormalizeSpace(s)
    decreases |s|
  {
    if s == [] {
    } else if IsSpace(s[0]) {
      var n := SpaceLen(s);
      StripLeadingSpace(' ', CollapseSpace(s[n..]));
      WordsSkipSpaces(s, n);
      StripCollapse(s[n..]);
    } else {
      var n := WordLen(s);
      var rest := s[n..];
      if AllSpace(rest) {
        assert s == s[..n] + rest;
        assert Words(s) == [s[..n]] + Words(rest);
        WordsAllSpace(rest);
        StripWordThenSpaces(s[..n], rest);
      } else {
        var m := SpaceLen(rest);
        var t := rest[m..];
        assert rest[..|rest|] == rest;
        assert t != [];
        StripCollapse(t);
        assert s == s[..n] + rest;
        assert Words(s) == [s[..n]] + Words(rest);
        StripCollapseWordCase(s[..n], rest, t);
      }
    }
  }

  /** `s.split()` is empty exactly when `s` is all whitespace. */
  lemma {:induction false} WordsEmptyIff(s: string)
    ensures Words(s) == [] <==> AllSpace(s)
    decreases |s|
  {
    if s != [] && IsSpace(s[0]) {
      WordsEmptyIff(s[1..]);
      assert AllSpace(s) <==> AllSpace(s[1..]) by {
        if AllSpace(s[1..]) {
          forall i | 0 <= i < |s| ensures IsSpace(s[i]) {
            if i > 0 {
              assert s[i] == s[1..][i - 1];
            }
          }
        }
      }
    }
  }

  /** A non-space character is counted word by word. */
  lemma {:induction false} CountInWords(s: string, c: char)
    requires !IsSpace(c)
    ensures CountChar(s, c) == SumCount(Words(s), c)
    decreases |s|
  {
    if s != [] {
      if IsSpace(s[0]) {
        CountInWords(s[1..], c);
      } else {
        var n := WordLen(s);
        CountInWords(s[n..], c);
        assert s == s[..n] + s[n..];
        CountCharAppend(s[..n], s[n..], c);
        assert ([s[..n]] + Words(s[n..]))[1..] == Words(s[n..]);
      }
    }
  }

  /** Turning one whitespace character into another leaves `split()` unchanged. */
  lemma {:induction false} WordsSpaceSwap(s: string, c: char, d: char)
    requires IsSpace(c) && IsSpace(d)
    ensures Words(ReplaceChar(s, c, [d])) == Words(s)
    decreases |s|
  {
    if s != [] {
      var r := ReplaceChar(s, c, [d]);
      ReplaceCharPointwise(s, c, d);
      if IsSpace(s[0]) {
        assert r[1..] == ReplaceChar(s[1..], c, [d]);
        WordsSpaceSwap(s[1..], c, d);
      } else {
        var n := WordLen(s);
        var w, tail := s[..n], s[n..];
        assert s == w + tail;
        ReplaceCharAppend(w, tail, c, [d]);
        assert c !in w by {
          forall i | 0 <= i < |w| ensures w[i] != c {
          }
        }
        ReplaceCharAbsent(w, c, [d]);
        var rest := ReplaceChar(tail, c, [d]);
        ReplaceCharPointwise(tail, c, d);
        assert r == w + rest;
        WordLenOfNoSpace(w);
        if rest != [] {
          WordLenBeforeSpace(w, rest);
        } else {
          assert r == w;
        }
        assert r[..n] == w && r[n..] == rest;
        WordsSpaceSwap(tail, c, d);
      }
    }
  }

  /** The whitespace normal form has no edge whitespace, only single spaces and no line breaks. */
  lemma NormalizeSpaceShape(s: string)
    ensures var r := NormalizeSpace(s);
      Strip(r) == r && forall i :: 0 <= i < |r| && IsSpace(r[i]) ==>
        r[i] == ' ' && 0 < i < |r| - 1 && !IsSpace(r[i - 1]) && !IsSpace(r[i + 1])
  {
    JoinedWordsShape(Words(s));
  }

  lemma {:induction false} JoinedWordsShape(ws: seq<string>)
    requires forall i :: 0 <= i < |ws| ==> ws[i] != [] && NoSpace(ws[i])
    ensures var r := Join(" ", ws);
      (r == [] || (!IsSpace(r[0]) && !IsSpace(r[|r| - 1]))) &&
      forall i :: 0 <= i < |r| && IsSpace(r[i]) ==>
        r[i] == ' ' && 0 < i < |r| - 1 && !IsSpace(r[i - 1]) && !IsSpace(r[i + 1])
  {
    if |ws| > 1 {
      JoinedWordsShape(ws[1..]);
      var t := Join(" ", ws[1..]);
      var r := ws[0] + " " + t;
      assert Join(" ", ws) == r;
      forall i | 0 <= i < |r| && IsSpace(r[i])
        ensures r[i] == ' ' && 0 < i < |r| - 1 && !IsSpace(r[i - 1]) && !IsSpace(r[i + 1])
      {
        if i < |ws[0]| {
          assert false;
        } else if i > |ws[0]| {
          assert r[i] == t[i - |ws[0]| - 1];
          if i - 1 > |ws[0]| {
            assert r[i - 1] == t[i - 1 - |ws[0]| - 1];
          }
          if i + 1 < |r| {
            assert r[i + 1] == t[i + 1 - |ws[0]| - 1];
          }
        } else {
          assert r[i - 1] == ws[0][|ws[0]| - 1];
          assert r[i + 1] == t[0];
        }
      }
    }
  }

  /** Normalising twice changes nothing. */
  lemma NormalizeSpaceIdempotent(s: string)
    ensures NormalizeSpace(NormalizeSpace(s)) == NormalizeSpace(s)
  {
    WordsOfJoinedWords(Words(s));
  }

  // ---------------------------------------------------------------------
  // substring test

  lemma ContainsSelf(s: string)
    ensures Contains(s, s)
  {
  }

  /** `needle` occurs in `hay` starting at offset `k`. */
  predicate OccursAt(hay: string, needle: string, k: nat)
  {
    k + |needle| <= |hay| && hay[k..k + |needle|] == needle
  }

  /** `needle in hay` holds exactly when `needle` occurs at some offset of `hay`. */
  lemma {:induction false} ContainsAt(hay: string, needle: string)
    ensures Contains(hay, needle) <==> exists k: nat :: OccursAt(hay, needle, k)
    decreases |hay|
  {
    if needle <= hay {
      assert OccursAt(hay, needle, 0);
    }
    if hay != [] {
      ContainsAt(hay[1..], needle);
      if exists k: nat :: OccursAt(hay, needle, k) {
        var k: nat :| OccursAt(hay, needle, k);
        if k > 0 {
          assert hay[1..][k - 1..k - 1 + |needle|] == needle;
          assert OccursAt(hay[1..], needle, k - 1);
        } else {
          assert needle <= hay;
        }
      }
      if Contains(hay[1..], needle) && !(needle <= hay) {
        var k: nat :| OccursAt(hay[1..], needle, k);
        assert hay[k + 1..k + 1 + |needle|] == needle;
        assert OccursAt(hay, needle, k + 1);
      }
    } else if exists k: nat :: OccursAt(hay, needle, k) {
      var k: nat :| OccursAt(hay, needle, k);
      assert needle == [];
    }
  }

  // ---------------------------------------------------------------------
  // character replacement

  lemma {:induction false} ReplaceCharAppend(a: string, b: string, c: char, repl: string)
    ensures ReplaceChar(a + b, c, repl) == ReplaceChar(a, c, repl) + ReplaceChar(b, c, repl)
  {
    if a != [] {
      TailOfAppend(a, b);
      ReplaceCharAppend(a[1..], b, c, repl);
    } else {
      assert a + b == b;
    }
  }

  /** Replacing one character by one character works position by position. */
  lemma {:induction false} ReplaceCharPointwise(s: string, c: char, d: char)
    ensures |ReplaceChar(s, c, [d])| == |s|
    ensures forall i :: 0 <= i < |s| ==> ReplaceChar(s, c, [d])[i] == (if s[i] == c then d else s[i])
  {
    if s != [] {
      ReplaceCharPointwise(s[1..], c, d);
    }
  }

  /** Replacing a character that does not occur changes nothing. */
  lemma {:induction false} ReplaceCharAbsent(s: string, c: char, repl: string)
    requires c !in s
    ensures ReplaceChar(s, c, repl) == s
  {
    if s != [] {
      ReplaceCharAbsent(s[1..], c, repl);
    }
  }
}
