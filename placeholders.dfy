/**
 * The inline-tag placeholders of the translation table, `<0/>`, `<12/>` and
 * so on, and the two regular expressions the scripts use on them:
 * `<\d+/>` (a bare placeholder) and `"<\d+/>"` (one wrapped in straight
 * double quotes). Each pattern is written as a scanner that measures the
 * match at the start of a string; because a digit is never `/`, the greedy
 * `\d+` has exactly one way to match, so the scanner is the regex.
 */
module Placeholders {
  import opened Text

  datatype Pattern = Bare | Quoted

  /** Length of the longest ASCII-digit prefix of `s`. */
  function DigitLen(s: string): (n: nat)
    ensures n <= |s|
    ensures forall i :: 0 <= i < n ==> IsDigit(s[i])
    ensures n == |s| || !IsDigit(s[n])
  {
    if s == [] || !IsDigit(s[0]) then 0 else 1 + DigitLen(s[1..])
  }

  /** Length of the match of `<\d+/>` at the start of `s`, or 0 when there is none. */
  function TagLen(s: string): (n: nat)
    ensures n == 0 || (4 <= n <= |s| && s[0] == '<' && s[n - 2] == '/' && s[n - 1] == '>')
    ensures n > 0 ==> forall i :: 1 <= i < n - 2 ==> IsDigit(s[i])
  {
    if s == [] || s[0] != '<' then 0
    else
      var d := DigitLen(s[1..]);
      if d > 0 && d + 3 <= |s| && s[d + 1] == '/' && s[d + 2] == '>' then d + 3 else 0
  }

  /** Length of the match of `p` at the start of `s`, or 0 when there is none. */
  function MatchLen(p: Pattern, s: string): (n: nat)
    ensures n == 0 || 4 <= n <= |s|
    ensures n > 0 ==> '<' in s
  {
    match p
    case Bare => TagLen(s)
    case Quoted =>
      if s != [] && s[0] == '"' && TagLen(s[1..]) > 0 && TagLen(s[1..]) + 2 <= |s| && s[TagLen(s[1..]) + 1] == '"'
      then (assert s[1] == '<'; TagLen(s[1..]) + 2)
      else 0
  }

  /** `re.sub(p, '', s)`: scanning left to right, every match is cut out and the scan
      resumes after it. */
  function RemoveAll(p: Pattern, s: string): (r: string)
    ensures |r| <= |s|
    decreases |s|
  {
    if s == [] then []
    else if MatchLen(p, s) > 0 then RemoveAll(p, s[MatchLen(p, s)..])
    else [s[0]] + RemoveAll(p, s[1..])
  }

  /** `len(re.findall(p, s))`: the number of matches the same scan finds. */
  function CountMatches(p: Pattern, s: string): nat
    decreases |s|
  {
    if s == [] then 0
    else if MatchLen(p, s) > 0 then 1 + CountMatches(p, s[MatchLen(p, s)..])
    else CountMatches(p, s[1..])
  }

  /** Text without `<` holds no placeholder, so the substitution leaves it as it is. */
  lemma {:induction false} RemoveAllWithoutOpen(p: Pattern, s: string)
    requires '<' !in s
    ensures RemoveAll(p, s) == s
    ensures CountMatches(p, s) == 0
    decreases |s|
  {
    if s != [] {
      assert '<' !in s[1..];
      RemoveAllWithoutOpen(p, s[1..]);
    }
  }

  /** Text without `"` holds no quoted placeholder. */
  lemma {:induction false} RemoveQuotedWithoutQuote(s: string)
    requires '"' !in s
    ensures RemoveAll(Quoted, s) == s
    decreases |s|
  {
    if s != [] {
      assert '"' !in s[1..];
      RemoveQuotedWithoutQuote(s[1..]);
    }
  }

  /** No match starts at a character other than the one that opens the pattern. */
  lemma NoMatchAtOther(p: Pattern, x: string)
    requires x != [] && x[0] != (if p == Bare then '<' else '"')
    ensures MatchLen(p, x) == 0
  {
  }

  /** A prefix holding no character that can start a match is kept and the scan moves on. */
  lemma {:induction false} RemoveAllKeeps(p: Pattern, a: string, s: string)
    requires (if p == Bare then '<' else '"') !in a
    ensures RemoveAll(p, a + s) == a + RemoveAll(p, s)
  {
    if a != [] {
      TailOfAppend(a, s);
      NoMatchAtOther(p, a + s);
      RemoveAllKeeps(p, a[1..], s);
      AppendAssoc([a[0]], a[1..], RemoveAll(p, s));
      assert [a[0]] + a[1..] == a;
    } else {
      assert a + s == s;
    }
  }

  predicate AllDigits(ds: string)
  {
    forall i :: 0 <= i < |ds| ==> IsDigit(ds[i])
  }

  lemma {:induction false} DigitLenOf(ds: string, x: string)
    requires AllDigits(ds)
    requires x == [] || !IsDigit(x[0])
    ensures DigitLen(ds + x) == |ds|
  {
    if ds != [] {
      TailOfAppend(ds, x);
      DigitLenOf(ds[1..], x);
    } else {
      assert ds + x == x;
    }
  }

  /** `<n/>` at the start of the text is a bare match of its own length. */
  lemma TagLenOf(ds: string, x: string)
    requires ds != [] && AllDigits(ds)
    ensures TagLen("<" + ds + "/>" + x) == |ds| + 3
  {
    var s := "<" + ds + "/>" + x;
    assert s[1..] == ds + ("/>" + x);
    DigitLenOf(ds, "/>" + x);
    assert s[|ds| + 1] == '/' && s[|ds| + 2] == '>';
  }

  /** A bare placeholder where the scan stands is cut out. */
  lemma RemoveBareAt(ds: string, x: string)
    requires ds != [] && AllDigits(ds)
    ensures RemoveAll(Bare, "<" + ds + "/>" + x) == RemoveAll(Bare, x)
  {
    TagLenOf(ds, x);
    assert ("<" + ds + "/>" + x)[|ds| + 3..] == x;
  }

  /** A quoted placeholder where the scan stands is cut out with its quotes. */
  lemma RemoveQuotedAt(ds: string, x: string)
    requires ds != [] && AllDigits(ds)
    ensures RemoveAll(Quoted, "\"<" + ds + "/>\"" + x) == RemoveAll(Quoted, x)
  {
    var s := "\"<" + ds + "/>\"" + x;
    assert s[1..] == "<" + ds + "/>" + ("\"" + x);
    TagLenOf(ds, "\"" + x);
    assert s[|ds| + 4] == '"';
    assert s[|ds| + 5..] == x;
  }

  /** Every match removes at least four characters. */
  lemma {:induction false} RemoveAllShrinks(p: Pattern, s: string)
    ensures |RemoveAll(p, s)| + 4 * CountMatches(p, s) <= |s|
    decreases |s|
  {
    if s != [] {
      if MatchLen(p, s) > 0 {
        RemoveAllShrinks(p, s[MatchLen(p, s)..]);
      } else {
        RemoveAllShrinks(p, s[1..]);
      }
    }
  }

  /** With no match the substitution leaves the text as it is. */
  lemma {:induction false} RemoveAllNoMatch(p: Pattern, s: string)
    requires CountMatches(p, s) == 0
    ensures RemoveAll(p, s) == s
    decreases |s|
  {
    if s != [] {
      RemoveAllNoMatch(p, s[1..]);
    }
  }

  /** `re.sub` changes the text exactly when `re.findall` finds something. */
  lemma RemoveAllChangesIff(p: Pattern, s: string)
    ensures RemoveAll(p, s) == s <==> CountMatches(p, s) == 0
  {
    RemoveAllShrinks(p, s);
    if CountMatches(p, s) == 0 {
      RemoveAllNoMatch(p, s);
    }
  }

  /** A `<` followed by another `<` starts no match and is kept. */
  lemma KeepOpenBeforeOpen(y: string)
    requires y != [] && y[0] == '<'
    ensures RemoveAll(Bare, "<" + y) == "<" + RemoveAll(Bare, y)
  {
    var s := "<" + y;
    assert s[1..] == y;
    assert DigitLen(y) == 0;
  }

  /** A lone placeholder is one match. */
  lemma CountOne(ds: string)
    requires ds != [] && AllDigits(ds)
    ensures CountMatches(Bare, "<" + ds + "/>") == 1
  {
    var t := "<" + ds + "/>";
    TagLenOf(ds, []);
    assert t + [] == t;
    assert t[|ds| + 3..] == [];
  }

  /** One pass is not a closure: cutting out the inner placeholder of `<<n/>n/>` joins
      its neighbours into a new one, `t`. */
  lemma RemoveAllIsOnePassAt(ds: string, t: string, s: string)
    requires ds != [] && AllDigits(ds)
    requires t == "<" + ds + "/>" && s == "<" + (t + (ds + "/>"))
    ensures RemoveAll(Bare, s) == t && CountMatches(Bare, RemoveAll(Bare, s)) == 1
  {
    var x := ds + "/>";
    KeepOpenBeforeOpen(t + x);
    RemoveBareAt(ds, x);
    assert '<' !in x;
    RemoveAllWithoutOpen(Bare, x);
    AppendAssoc("<", ds, "/>");
    CountOne(ds);
  }

  lemma RemoveAllIsOnePass()
    ensures RemoveAll(Bare, "<<1/>1/>") == "<1/>"
    ensures CountMatches(Bare, RemoveAll(Bare, "<<1/>1/>")) == 1
  {
    OnePassExample("<<1/>1/>", "1");
  }

  lemma OnePassExample(s: string, ds: string)
    requires ds == "1" && s == "<<1/>1/>"
    ensures RemoveAll(Bare, s) == "<1/>" && CountMatches(Bare, RemoveAll(Bare, s)) == 1
  {
    assert "<" + ds + "/>" == "<1/>";
    assert s == "<" + ("<1/>" + (ds + "/>"));
    RemoveAllIsOnePassAt(ds, "<1/>", s);
  }
}
