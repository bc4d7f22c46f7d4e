/**
 * The tag protector: the angle brackets of inline tags such as `<51>` are
 * swapped for the look-alike characters U+27E8 and U+27E9 before the text goes
 * near XML, and swapped back afterwards.
 */
module TagProtector {
  import opened Text

  /** U+27E8 MATHEMATICAL LEFT ANGLE BRACKET. */
  const OpenMark: char := '\U{27E8}'
  /** U+27E9 MATHEMATICAL RIGHT ANGLE BRACKET. */
  const CloseMark: char := '\U{27E9}'

  function ProtectChar(c: char): char
  {
    if c == '<' then OpenMark else if c == '>' then CloseMark else c
  }

  function RestoreChar(c: char): char
  {
    if c == OpenMark then '<' else if c == CloseMark then '>' else c
  }

  /** `protect_tags`: empty text is returned as is; otherwise `<` then `>` are replaced. */
  function ProtectTags(text: string): (r: string)
    ensures |r| == |text|
    ensures forall i :: 0 <= i < |r| ==> r[i] == ProtectChar(text[i])
  {
    if text == [] then text
    else
      var s1 := ReplaceChar(text, '<', [OpenMark]);
      ReplaceCharPointwise(text, '<', OpenMark);
      ReplaceCharPointwise(s1, '>', CloseMark);
      ReplaceChar(s1, '>', [CloseMark])
  }

  /** `restore_tags`: empty text is returned as is; otherwise U+27E8 then U+27E9 are replaced. */
  function RestoreTags(text: string): (r: string)
    ensures |r| == |text|
    ensures forall i :: 0 <= i < |r| ==> r[i] == RestoreChar(text[i])
  {
    if text == [] then text
    else
      var s1 := ReplaceChar(text, OpenMark, "<");
      ReplaceCharPointwise(text, OpenMark, '<');
      ReplaceCharPointwise(s1, CloseMark, '>');
      ReplaceChar(s1, CloseMark, ">")
  }

  /** `is_protected`. */
  predicate IsProtected(text: string)
  {
    OpenMark in text || CloseMark in text
  }

  /** Protected text holds no `<` and no `>`. */
  lemma ProtectedHasNoAngleBrackets(text: string)
    ensures '<' !in ProtectTags(text) && '>' !in ProtectTags(text)
  {
  }

  /** Restored text holds neither mark. */
  lemma RestoredHasNoMarks(text: string)
    ensures OpenMark !in RestoreTags(text) && CloseMark !in RestoreTags(text)
  {
  }

  /** Restoring protected text gives back the original, for every text that does
      not already hold one of the two marks (the self-test's round trip). */
  lemma RoundTrip(text: string)
    requires OpenMark !in text && CloseMark !in text
    ensures RestoreTags(ProtectTags(text)) == text
  {
    var r := RestoreTags(ProtectTags(text));
    forall i | 0 <= i < |text| ensures r[i] == text[i] {
      assert text[i] != OpenMark && text[i] != CloseMark;
    }
  }

  /** A text that already holds a mark does not survive the round trip. */
  lemma RoundTripLosesMarks()
    ensures RestoreTags(ProtectTags([OpenMark])) == "<"
  {
  }

  /** The protected form of a text is marked exactly when the text held an angle bracket
      or a mark. */
  lemma ProtectedIff(text: string)
    ensures IsProtected(ProtectTags(text)) <==>
      ('<' in text || '>' in text || OpenMark in text || CloseMark in text)
  {
    var r := ProtectTags(text);
    if IsProtected(r) {
      var i :| 0 <= i < |r| && (r[i] == OpenMark || r[i] == CloseMark);
      assert r[i] == ProtectChar(text[i]);
    }
    if '<' in text || '>' in text || OpenMark in text || CloseMark in text {
      var i :| 0 <= i < |text| && text[i] in "<>" + [OpenMark, CloseMark];
      assert r[i] == ProtectChar(text[i]);
    }
  }

  /** Protecting twice is protecting once. */
  lemma ProtectIdempotent(text: string)
    ensures ProtectTags(ProtectTags(text)) == ProtectTags(text)
  {
  }

  /** Restoring twice is restoring once, so restoring a document cell twice is harmless. */
  lemma RestoreIdempotent(text: string)
    ensures RestoreTags(RestoreTags(text)) == RestoreTags(text)
  {
  }

  /** Protection only swaps characters: whitespace, and therefore `strip()` and `split()`,
      are unaffected. */
  lemma {:induction false} ProtectKeepsSpaces(text: string)
    ensures forall i :: 0 <= i < |text| ==> (IsSpace(ProtectTags(text)[i]) <==> IsSpace(text[i]))
  {
  }

  lemma ProtectSlice(text: string, a: nat, b: nat)
    requires a <= b <= |text|
    ensures ProtectTags(text)[a..b] == ProtectTags(text[a..b])
  {
  }

  lemma {:induction false} TrimLeftProtect(text: string)
    ensures TrimLeft(ProtectTags(text)) == ProtectTags(TrimLeft(text))
    decreases |text|
  {
    if text != [] && IsSpace(text[0]) {
      ProtectSlice(text, 1, |text|);
      TrimLeftProtect(text[1..]);
    }
  }

  lemma {:induction false} TrimRightProtect(text: string)
    ensures TrimRight(ProtectTags(text)) == ProtectTags(TrimRight(text))
    decreases |text|
  {
    if text != [] && IsSpace(text[|text| - 1]) {
      ProtectSlice(text, 0, |text| - 1);
      TrimRightProtect(text[..|text| - 1]);
    }
  }

  /** Stripping and protecting commute. */
  lemma StripProtect(text: string)
    ensures Strip(ProtectTags(text)) == ProtectTags(Strip(text))
  {
    TrimLeftProtect(text);
    TrimRightProtect(TrimLeft(text));
  }

  /** Restoring works character by character, so it distributes over concatenation. */
  lemma RestoreAppend(a: string, b: string)
    ensures RestoreTags(a + b) == RestoreTags(a) + RestoreTags(b)
  {
    var l, r := RestoreTags(a + b), RestoreTags(a) + RestoreTags(b);
    forall i | 0 <= i < |l|
      ensures l[i] == r[i]
    {
      if i < |a| {
        assert (a + b)[i] == a[i];
      } else {
        assert (a + b)[i] == b[i - |a|];
      }
    }
  }

  /** Protection is one-to-one on text without marks. */
  lemma ProtectInjective(a: string, b: string)
    requires OpenMark !in a && CloseMark !in a
    requires OpenMark !in b && CloseMark !in b
    requires ProtectTags(a) == ProtectTags(b)
    ensures a == b
  {
    RoundTrip(a);
    RoundTrip(b);
  }

  lemma MarkFreeSlice(s: string, a: nat, b: nat)
    requires a <= b <= |s|
    requires OpenMark !in s && CloseMark !in s
    ensures OpenMark !in s[a..b] && CloseMark !in s[a..b]
  {
    forall i | 0 <= i < b - a
      ensures s[a..b][i] != OpenMark && s[a..b][i] != CloseMark
    {
      assert s[a..b][i] == s[a + i];
    }
  }

  /** On text without marks, protection neither creates nor hides an occurrence. */
  lemma ProtectOccursAt(hay: string, needle: string, k: nat)
    requires OpenMark !in hay && CloseMark !in hay
    requires OpenMark !in needle && CloseMark !in needle
    ensures OccursAt(ProtectTags(hay), ProtectTags(needle), k) <==> OccursAt(hay, needle, k)
  {
    if k + |needle| <= |hay| {
      ProtectSlice(hay, k, k + |needle|);
      if ProtectTags(hay[k..k + |needle|]) == ProtectTags(needle) {
        MarkFreeSlice(hay, k, k + |needle|);
        ProtectInjective(hay[k..k + |needle|], needle);
      }
    }
  }

  /** On text without marks, the substring test gives the same answer after protection. */
  lemma ProtectContains(hay: string, needle: string)
    requires OpenMark !in hay && CloseMark !in hay
    requires OpenMark !in needle && CloseMark !in needle
    ensures Contains(ProtectTags(hay), ProtectTags(needle)) <==> Contains(hay, needle)
  {
    ContainsAt(ProtectTags(hay), ProtectTags(needle));
    ContainsAt(hay, needle);
    forall k: nat
      ensures OccursAt(ProtectTags(hay), ProtectTags(needle), k) <==> OccursAt(hay, needle, k)
    {
      ProtectOccursAt(hay, needle, k);
    }
  }
}
