/**
 * analyze_word_structure_deep.py: the diagnostic that inspects the Target
 * cell of a sample row run by run. `analyze_cell_deep` records every
 * paragraph and run and sums them up (Tag-styled runs against the others,
 * text length, style names); `generate_solution_recommendation` turns the
 * summary into the text-reading strategy the update scripts should use; and
 * `main` picks the sample row by its segment id.
 */
module StructureAnalysis {
  import opened Wrappers
  import opened Text
  import opened Docx

  /** `props['style']` of `get_run_properties`: the `w:val` of the first `w:rStyle` in the
      run's `w:rPr`, if there is one. */
  function StyleOf(r: Run): (s: Option<string>)
    ensures s == Some(TagStyle) <==> IsTagRun(r)
  {
    if r.rPr.Some? then r.rPr.value.style else None
  }

  // ---------------------------------------------------------------------
  // analyze_cell_deep

  /** `run_info`, with the run's style standing for its `properties` (the rest is only
      printed). */
  datatype RunInfo = RunInfo(text: string, textLength: nat, style: Option<string>)

  /** `para_info`. */
  datatype ParaInfo = ParaInfo(text: string, textLength: nat, runsCount: nat, runs: seq<RunInfo>)

  /** `analysis['summary']`; `styles_found` is a set until it is turned into a list. */
  datatype Summary = Summary(hasTag: bool, hasNonTag: bool, tagCount: nat, nonTagCount: nat,
                             textLength: nat, styles: set<string>)

  /** The dictionary `analyze_cell_deep` returns, less the cell's display name. */
  datatype Analysis = Analysis(totalParagraphs: nat, totalRuns: nat, paragraphs: seq<ParaInfo>, summary: Summary)

  /** The summary before any run is seen. */
  const NoRuns: Summary := Summary(false, false, 0, 0, 0, {})

  function InfoOf(r: Run): RunInfo
  {
    RunInfo(RunText(r), |RunText(r)|, StyleOf(r))
  }

  function InfosOf(rs: seq<Run>): seq<RunInfo>
  {
    seq(|rs|, i requires 0 <= i < |rs| => InfoOf(rs[i]))
  }

  function ParaInfoOf(p: Paragraph): ParaInfo
  {
    ParaInfo(ParagraphText(p), |ParagraphText(p)|, |Runs(p.children)|, InfosOf(Runs(p.children)))
  }

  function ParaInfos(ps: seq<Paragraph>): seq<ParaInfo>
  {
    seq(|ps|, i requires 0 <= i < |ps| => ParaInfoOf(ps[i]))
  }

  /** The summary after one more run: its text length is added, a non-empty style name is
      collected, and it is counted as a Tag run or as another run. */
  function CountRun(s: Summary, r: Run): Summary
  {
    var style := StyleOf(r);
    var s1 := s.(textLength := s.textLength + |RunText(r)|);
    var s2 := if style.Some? && style.value != [] then s1.(styles := s1.styles + {style.value}) else s1;
    if style == Some(TagStyle) then s2.(hasTag := true, tagCount := s2.tagCount + 1)
    else s2.(hasNonTag := true, nonTagCount := s2.nonTagCount + 1)
  }

  /** The summary after the runs `rs`, in order. */
  function SummaryOf(rs: seq<Run>): Summary
  {
    if rs == [] then NoRuns else CountRun(SummaryOf(rs[..|rs| - 1]), rs[|rs| - 1])
  }

  /** The runs of the paragraphs, paragraph by paragraph. */
  function AllRuns(ps: seq<Paragraph>): seq<Run>
  {
    if ps == [] then [] else AllRuns(ps[..|ps| - 1]) + Runs(ps[|ps| - 1].children)
  }

  /** The analysis of a cell with the paragraphs `ps`. */
  function AnalysisOf(ps: seq<Paragraph>): Analysis
  {
    Analysis(|ps|, |AllRuns(ps)|, ParaInfos(ps), SummaryOf(AllRuns(ps)))
  }

  /** `analyze_cell_deep(cell)`: one pass over the paragraphs and their runs. */
  method AnalyzeCellDeep(cell: Cell) returns (analysis: Analysis)
    ensures analysis == AnalysisOf(cell.paragraphs)
  {
    var ps := cell.paragraphs;
    var paragraphs: seq<ParaInfo> := [];
    var totalRuns := 0;
    var summary := NoRuns;
    var pi := 0;
    while pi < |ps|
      invariant pi <= |ps|
      invariant paragraphs == ParaInfos(ps[..pi])
      invariant totalRuns == |AllRuns(ps[..pi])| && summary == SummaryOf(AllRuns(ps[..pi]))
    {
      var p := ps[pi];
      var runs := Runs(p.children);
      var infos;
      infos, totalRuns, summary := AnalyzeRuns(runs, AllRuns(ps[..pi]), totalRuns, summary);
      AllRunsNext(ps, pi);
      ParaInfosNext(ps, pi);
      var text := ParagraphText(p);
      paragraphs := paragraphs + [ParaInfo(text, |text|, |runs|, infos)];
      pi := pi + 1;
    }
    assert ps[..pi] == ps;
    analysis := Analysis(|ps|, totalRuns, paragraphs, summary);
  }

  /** The inner loop of `analyze_cell_deep` over one paragraph's runs: their records, and the
      run total and summary carried on from the runs `before` of the earlier paragraphs. */
  method AnalyzeRuns(runs: seq<Run>, ghost before: seq<Run>, totalRuns: nat, summary: Summary)
    returns (infos: seq<RunInfo>, totalRuns': nat, summary': Summary)
    requires totalRuns == |before| && summary == SummaryOf(before)
    ensures infos == InfosOf(runs)
    ensures totalRuns' == |before + runs| && summary' == SummaryOf(before + runs)
  {
    infos, totalRuns', summary' := [], totalRuns, summary;
    var ri := 0;
    assert before + runs[..0] == before;
    while ri < |runs|
      invariant ri <= |runs|
      invariant infos == InfosOf(runs[..ri])
      invariant totalRuns' == |before| + ri && summary' == SummaryOf(before + runs[..ri])
    {
      var r := runs[ri];
      SummaryOfSnoc(before + runs[..ri], r);
      InfosOfSnoc(runs, ri);
      TakeSnoc(before, runs, ri);
      var text := RunText(r);
      totalRuns' := totalRuns' + 1;
      summary' := CountRun(summary', r);
      infos := infos + [RunInfo(text, if text != [] then |text| else 0, StyleOf(r))];
      ri := ri + 1;
    }
    assert runs[..ri] == runs;
  }

  lemma SummaryOfSnoc(rs: seq<Run>, r: Run)
    ensures SummaryOf(rs + [r]) == CountRun(SummaryOf(rs), r)
  {
    assert (rs + [r])[..|rs|] == rs;
  }

  lemma InfosOfSnoc(rs: seq<Run>, k: nat)
    requires k < |rs|
    ensures InfosOf(rs[..k + 1]) == InfosOf(rs[..k]) + [InfoOf(rs[k])]
  {
  }

  lemma AllRunsNext(ps: seq<Paragraph>, i: nat)
    requires i < |ps|
    ensures AllRuns(ps[..i + 1]) == AllRuns(ps[..i]) + Runs(ps[i].children)
  {
    assert ps[..i + 1][..i] == ps[..i];
  }

  lemma ParaInfosNext(ps: seq<Paragraph>, i: nat)
    requires i < |ps|
    ensures ParaInfos(ps[..i + 1]) == ParaInfos(ps[..i]) + [ParaInfoOf(ps[i])]
  {
  }

  // ---------------------------------------------------------------------
  // properties of the summary

  /** Every run lands in exactly one of the two counts, and each flag is set exactly when its
      count is positive. */
  lemma {:induction false} SummaryCounts(rs: seq<Run>)
    ensures SummaryOf(rs).tagCount + SummaryOf(rs).nonTagCount == |rs|
    ensures SummaryOf(rs).hasTag <==> SummaryOf(rs).tagCount > 0
    ensures SummaryOf(rs).hasNonTag <==> SummaryOf(rs).nonTagCount > 0
  {
    if rs != [] {
      SummaryCounts(rs[..|rs| - 1]);
    }
  }

  /** `has_tag_style` says that some run is Tag-styled, `has_non_tag_style` that some run is
      not. */
  lemma {:induction false} SummaryFlags(rs: seq<Run>)
    ensures SummaryOf(rs).hasTag <==> exists i :: 0 <= i < |rs| && IsTagRun(rs[i])
    ensures SummaryOf(rs).hasNonTag <==> exists i :: 0 <= i < |rs| && !IsTagRun(rs[i])
  {
    if rs != [] {
      var init := rs[..|rs| - 1];
      SummaryFlags(init);
      assert forall i :: 0 <= i < |init| ==> init[i] == rs[i];
      if SummaryOf(rs).hasTag && !IsTagRun(rs[|rs| - 1]) {
        var i :| 0 <= i < |init| && IsTagRun(init[i]);
        assert IsTagRun(rs[i]);
      }
      if SummaryOf(rs).hasNonTag && IsTagRun(rs[|rs| - 1]) {
        var i :| 0 <= i < |init| && !IsTagRun(init[i]);
        assert !IsTagRun(rs[i]);
      }
    }
  }

  /** `total_text_length` is the length of all the run texts together. */
  lemma {:induction false} SummaryTextLength(rs: seq<Run>)
    ensures SummaryOf(rs).textLength == |RunsText(rs)|
  {
    if rs != [] {
      var init := rs[..|rs| - 1];
      SummaryTextLength(init);
      RunsTextSnoc(init, rs[|rs| - 1]);
      assert init + [rs[|rs| - 1]] == rs;
    }
  }

  lemma {:induction false} RunsTextSnoc(rs: seq<Run>, r: Run)
    ensures RunsText(rs + [r]) == RunsText(rs) + RunText(r)
  {
    if rs == [] {
      assert [r][1..] == [];
    } else {
      assert (rs + [r])[1..] == rs[1..] + [r];
      RunsTextSnoc(rs[1..], r);
      AppendAssoc(RunText(rs[0]), RunsText(rs[1..]), RunText(r));
    }
  }

  /** The style names of the runs, the empty name left out. */
  function StyleNames(rs: seq<Run>): set<string>
  {
    set i | 0 <= i < |rs| && StyleOf(rs[i]).Some? && StyleOf(rs[i]).value != [] :: StyleOf(rs[i]).value
  }

  /** `styles_found` holds exactly the non-empty style names of the runs. */
  lemma {:induction false} SummaryStyles(rs: seq<Run>)
    ensures SummaryOf(rs).styles == StyleNames(rs)
  {
    if rs != [] {
      var init := rs[..|rs| - 1];
      var last := rs[|rs| - 1];
      SummaryStyles(init);
      assert forall i :: 0 <= i < |init| ==> init[i] == rs[i];
      var extra: set<string> := if StyleOf(last).Some? && StyleOf(last).value != [] then {StyleOf(last).value} else {};
      forall n | n in StyleNames(rs)
        ensures n in StyleNames(init) + extra
      {
        var i :| 0 <= i < |rs| && StyleOf(rs[i]).Some? && StyleOf(rs[i]).value != [] && StyleOf(rs[i]).value == n;
        if i < |init| {
          assert StyleOf(init[i]).value == n;
        }
      }
      forall n | n in StyleNames(init)
        ensures n in StyleNames(rs)
      {
        var i :| 0 <= i < |init| && StyleOf(init[i]).Some? && StyleOf(init[i]).value != [] && StyleOf(init[i]).value == n;
        assert StyleOf(rs[i]).value == n;
      }
      if extra != {} {
        assert StyleOf(rs[|rs| - 1]).value in StyleNames(rs);
      }
    }
  }

  /** Sum of the `runs_count` of the paragraph records. */
  function RunsCountSum(infos: seq<ParaInfo>): nat
  {
    if infos == [] then 0 else RunsCountSum(infos[..|infos| - 1]) + infos[|infos| - 1].runsCount
  }

  /** Sum of the `text_length` of the paragraph records. */
  function TextLengthSum(infos: seq<ParaInfo>): nat
  {
    if infos == [] then 0 else TextLengthSum(infos[..|infos| - 1]) + infos[|infos| - 1].textLength
  }

  /** The totals agree with the paragraph records: `total_runs` is the sum of the paragraphs'
      run counts, and `total_text_length` the sum of their text lengths. */
  lemma {:induction false} AnalysisTotals(ps: seq<Paragraph>)
    ensures AnalysisOf(ps).totalRuns == RunsCountSum(AnalysisOf(ps).paragraphs)
    ensures AnalysisOf(ps).summary.textLength == TextLengthSum(AnalysisOf(ps).paragraphs)
  {
    if ps != [] {
      var init := ps[..|ps| - 1];
      var last := ps[|ps| - 1];
      AnalysisTotals(init);
      assert ParaInfos(ps)[..|ps| - 1] == ParaInfos(init);
      SummaryTextLength(AllRuns(ps));
      SummaryTextLength(AllRuns(init));
      RunsTextAppend(AllRuns(init), Runs(last.children));
    }
  }

  lemma {:induction false} RunsTextAppend(a: seq<Run>, b: seq<Run>)
    ensures RunsText(a + b) == RunsText(a) + RunsText(b)
  {
    if a == [] {
      assert a + b == b;
    } else {
      assert (a + b)[1..] == a[1..] + b;
      RunsTextAppend(a[1..], b);
      AppendAssoc(RunText(a[0]), RunsText(a[1..]), RunsText(b));
    }
  }

  // ---------------------------------------------------------------------
  // generate_solution_recommendation

  /** The `--strategy` the advice names: `all`, `tag_only` or `non_tag_only`. */
  datatype Strategy = AllText | TagOnly | NonTagOnly

  /** What the advice reports: no Tag runs, only Tag runs, or a mix with its counts and the
      text lengths on each side. */
  datatype Finding = NoTagRuns | OnlyTagRuns | MixedRuns(tagRuns: nat, nonTagRuns: nat, tagTextLength: nat, nonTagTextLength: nat)

  /** The content of the advice text: the finding, the strategy, and whether the XML-export
      hint for complex cells is added. */
  datatype Recommendation = Recommendation(finding: Finding, strategy: Strategy, exportXml: bool)

  /** `tag_text_length` and `non_tag_text_length`. */
  datatype Lengths = Lengths(tag: nat, other: nat)

  function AddInfo(l: Lengths, info: RunInfo): Lengths
  {
    if info.style == Some(TagStyle) then l.(tag := l.tag + info.textLength) else l.(other := l.other + info.textLength)
  }

  function AddInfos(l: Lengths, infos: seq<RunInfo>): Lengths
  {
    if infos == [] then l else AddInfo(AddInfos(l, infos[..|infos| - 1]), infos[|infos| - 1])
  }

  /** The text lengths of the Tag runs and of the other runs, over all the paragraph
      records. */
  function StyleLengths(paras: seq<ParaInfo>): Lengths
  {
    if paras == [] then Lengths(0, 0) else AddInfos(StyleLengths(paras[..|paras| - 1]), paras[|paras| - 1].runs)
  }

  /** The advice for an analysis, reading the run total from `analysis['total_runs']`. */
  function RecommendationOf(a: Analysis): Recommendation
  {
    var s := a.summary;
    if s.tagCount == 0 then Recommendation(NoTagRuns, AllText, a.totalRuns > 10)
    else if s.nonTagCount == 0 then Recommendation(OnlyTagRuns, TagOnly, a.totalRuns > 10)
    else
      var l := StyleLengths(a.paragraphs);
      Recommendation(MixedRuns(s.tagCount, s.nonTagCount, l.tag, l.other),
                     if l.tag > l.other then TagOnly else NonTagOnly, a.totalRuns > 10)
  }

  /** `generate_solution_recommendation(analysis)`, with the run total read from the analysis
      rather than from its summary. */
  method GenerateSolutionRecommendation(a: Analysis) returns (rec: Recommendation)
    ensures rec == RecommendationOf(a)
  {
    var s := a.summary;
    var finding: Finding;
    var strategy: Strategy;
    if s.tagCount == 0 {
      finding, strategy := NoTagRuns, AllText;
    } else if s.nonTagCount == 0 {
      finding, strategy := OnlyTagRuns, TagOnly;
    } else {
      var tagTextLength: nat := 0;
      var nonTagTextLength: nat := 0;
      var pi := 0;
      while pi < |a.paragraphs|
        invariant pi <= |a.paragraphs|
        invariant Lengths(tagTextLength, nonTagTextLength) == StyleLengths(a.paragraphs[..pi])
      {
        var runs := a.paragraphs[pi].runs;
        ghost var before := StyleLengths(a.paragraphs[..pi]);
        var ri := 0;
        while ri < |runs|
          invariant ri <= |runs|
          invariant Lengths(tagTextLength, nonTagTextLength) == AddInfos(before, runs[..ri])
        {
          assert runs[..ri + 1][..ri] == runs[..ri];
          if runs[ri].style == Some(TagStyle) {
            tagTextLength := tagTextLength + runs[ri].textLength;
          } else {
            nonTagTextLength := nonTagTextLength + runs[ri].textLength;
          }
          ri := ri + 1;
        }
        assert runs[..ri] == runs;
        assert a.paragraphs[..pi + 1][..pi] == a.paragraphs[..pi];
        pi := pi + 1;
      }
      assert a.paragraphs[..pi] == a.paragraphs;
      finding := MixedRuns(s.tagCount, s.nonTagCount, tagTextLength, nonTagTextLength);
      strategy := if tagTextLength > nonTagTextLength then TagOnly else NonTagOnly;
    }
    rec := Recommendation(finding, strategy, a.totalRuns > 10);
  }

  /** The decision rule: no Tag runs (no runs at all included) gives `all`; Tag runs only
      give `tag_only`; a mix gives the side with more text, a tie going to `non_tag_only`.
      The XML hint comes with more than ten runs. */
  lemma RecommendationRule(a: Analysis)
    ensures RecommendationOf(a).strategy == AllText <==> a.summary.tagCount == 0
    ensures RecommendationOf(a).strategy == TagOnly <==>
      (a.summary.tagCount > 0
       && (a.summary.nonTagCount == 0 || StyleLengths(a.paragraphs).tag > StyleLengths(a.paragraphs).other))
    ensures RecommendationOf(a).strategy == NonTagOnly <==>
      (a.summary.tagCount > 0 && a.summary.nonTagCount > 0
       && StyleLengths(a.paragraphs).tag <= StyleLengths(a.paragraphs).other)
    ensures RecommendationOf(a).finding.MixedRuns? <==> a.summary.tagCount > 0 && a.summary.nonTagCount > 0
    ensures RecommendationOf(a).exportXml <==> a.totalRuns > 10
  {
  }

  /** The two text lengths of the records split the run texts between the Tag runs and the
      others. */
  lemma {:induction false} AddInfosSplit(l: Lengths, infos: seq<RunInfo>)
    ensures AddInfos(l, infos).tag + AddInfos(l, infos).other == l.tag + l.other + InfoLengthSum(infos)
  {
    if infos != [] {
      AddInfosSplit(l, infos[..|infos| - 1]);
    }
  }

  function InfoLengthSum(infos: seq<RunInfo>): nat
  {
    if infos == [] then 0 else InfoLengthSum(infos[..|infos| - 1]) + infos[|infos| - 1].textLength
  }

  /** On the analysis of a cell, the Tag text and the other text add up to
      `total_text_length`, so `tag_only` in a mixed cell means the Tag runs hold more than
      half of the cell's run text. */
  lemma CellLengthsSplit(ps: seq<Paragraph>)
    ensures StyleLengths(ParaInfos(ps)).tag + StyleLengths(ParaInfos(ps)).other == SummaryOf(AllRuns(ps)).textLength
    ensures var a := AnalysisOf(ps);
      RecommendationOf(a).finding.MixedRuns? && RecommendationOf(a).strategy == TagOnly ==>
        2 * StyleLengths(a.paragraphs).tag > a.summary.textLength
  {
    var paras := ParaInfos(ps);
    forall i | 0 <= i < |paras|
      ensures InfoLengthSum(paras[i].runs) == paras[i].textLength
    {
      InfoLengthSumOfRuns(Runs(ps[i].children));
    }
    StyleLengthsTotal(paras);
    AnalysisTotals(ps);
  }

  /** `StyleLengths` covers every run record: the two sides add up to the paragraphs' text
      lengths when each paragraph's text is the text of its runs. */
  lemma {:induction false} StyleLengthsTotal(paras: seq<ParaInfo>)
    requires forall i :: 0 <= i < |paras| ==> InfoLengthSum(paras[i].runs) == paras[i].textLength
    ensures StyleLengths(paras).tag + StyleLengths(paras).other == TextLengthSum(paras)
  {
    if paras != [] {
      StyleLengthsTotal(paras[..|paras| - 1]);
      AddInfosSplit(StyleLengths(paras[..|paras| - 1]), paras[|paras| - 1].runs);
    }
  }

  /** In a paragraph record the run lengths add up to the paragraph's text length. */
  lemma {:induction false} InfoLengthSumOfRuns(rs: seq<Run>)
    ensures InfoLengthSum(InfosOf(rs)) == |RunsText(rs)|
  {
    if rs != [] {
      var init := rs[..|rs| - 1];
      InfoLengthSumOfRuns(init);
      assert InfosOf(rs)[..|rs| - 1] == InfosOf(init);
      RunsTextSnoc(init, rs[|rs| - 1]);
      assert init + [rs[|rs| - 1]] == rs;
    }
  }

  // ---------------------------------------------------------------------
  // the script as written

  /** The keys `analysis['summary']` holds that map to numbers, and their values. */
  function SummaryNumber(s: Summary, key: string): Option<nat>
  {
    if key == "tag_style_count" then Some(s.tagCount)
    else if key == "non_tag_style_count" then Some(s.nonTagCount)
    else if key == "total_text_length" then Some(s.textLength)
    else None
  }

  /** `generate_solution_recommendation` as written: the XML hint reads `total_runs` from the
      summary, which has no such key, so the call ends in a `KeyError`. */
  function RecommendationAsWritten(a: Analysis): (r: Result<Recommendation, string>)
  {
    match SummaryNumber(a.summary, "total_runs")
    case None => Failure("KeyError: 'total_runs'")
    case Some(n) => Success(RecommendationOf(a).(exportXml := n > 10))
  }

  /** Whatever the cell, the function as written never returns its advice. */
  lemma AsWrittenAlwaysFails(a: Analysis)
    ensures RecommendationAsWritten(a) == Failure("KeyError: 'total_runs'")
  {
  }

  // ---------------------------------------------------------------------
  // the sample row in main

  /** A data row with at least four cells whose stripped first cell is the segment id. */
  predicate IsSampleRow(row: Row, segment: string)
    reads set c | c in row.cells
  {
    |row.cells| >= 4 && Strip(CellText(row.cells[0].paragraphs)) == segment
  }

  /** The loop over `table.rows[1:]` in `main`: the first matching data row, if any. */
  method FindSampleRow(table: seq<Row>, segment: string) returns (found: Option<nat>)
    ensures found.Some? ==>
      1 <= found.value < |table| && IsSampleRow(table[found.value], segment)
      && forall j :: 1 <= j < found.value ==> !IsSampleRow(table[j], segment)
    ensures found.None? ==> forall j :: 1 <= j < |table| ==> !IsSampleRow(table[j], segment)
  {
    found := None;
    var i := 1;
    while i < |table|
      invariant 1 <= i <= |table| || |table| == 0
      invariant forall j :: 1 <= j < i && j < |table| ==> !IsSampleRow(table[j], segment)
    {
      var row := table[i];
      if |row.cells| >= 4 {
        var segmentId := Strip(CellText(row.cells[0].paragraphs));
        if segmentId == segment {
          return Some(i);
        }
      }
      i := i + 1;
    }
  }
}
