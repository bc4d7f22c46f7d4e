# Tracked-change translation updates for a Word translation table

This project models the scripts that rewrite the fourth ("Target") column of a
translation table inside a Word document as tracked changes. It also models the
small Markdown pipeline around them, which exports the table, pairs it with new
translations and validates the resulting old/new mappings. The document markup
follows ECMA-376 Part 1:
- `w:del` and `w:ins`, sections 17.13.5.14 and 17.13.5.18;
- `w:delText`, section 17.3.3.7;
- `w:br`, section 17.3.3.1.

The Markdown tables are GitHub Flavored Markdown pipe tables (section 4.10, "Tables").

The model has one Dafny module per script, over shared modules:

- `Wrappers`: `Option` and `Result`.
- `Text`: the parts of Python's `str` the scripts use. These are whitespace as
  `str.isspace()`, `strip`, `split()`, `split(sep)`, `join`, substring tests and
  single-character `replace`.
- `Docx`: a table is a list of rows, a row a list of cells, a cell a list of
  paragraphs, and a paragraph a list of child elements. The children are runs,
  `w:del`, `w:ins`, hyperlinks, bookmarks, paragraph properties and other
  elements.
  - A cell is a class, because the scripts edit its paragraphs in place.
  - `paragraph.runs` are the direct `w:r` children.
  - `cell.text` joins the paragraph texts with line breaks.
- `TagProtector` (`tag_protector.py`): the reversible swap of `<`/`>` for `⟨`/`⟩`.
- `Placeholders`: the `<\d+/>` and `"<\d+/>"` patterns, written as scanners.
- `RowIndex` and `Translations`: the segment-id row map and the translations file.
- One module per update script:
  - `SmartUpdate`, `TrackedUpdate`, `WithTagsUpdate`, `V3Update`, `ReverseUpdate`;
  - `FuzzyUpdate`, `SimpleUpdate`, `TrackChanges`, `LineBreaks`.

  Each module models the script's cell reader, its check of the expected old
  text, its in-place rewrite of the target paragraph and its batch loop with
  the revision-id counter.
- The Markdown pipeline:
  - `MarkdownTable`: the reader shared by `load_markdown_table` and `parse_markdown_table`;
  - `TranslationMapping`: `generate_translation_mapping.py`;
  - `MarkitdownTables`: `extract_table_markitdown.py`;
  - `DocxToMarkdown`: `extract_table_to_markdown.py`;
  - `ExtractSimple`: `extract_table_simple.py`.
- `CleanTranslation`: `scripts/clean_translation_text.py`.
- `StructureAnalysis`: `analyze_word_structure_deep.py`.

Several scripts repeat the same function word for word. Such a function is
defined once:
- the simple script's element builders and row search also stand for the fuzzy
  copies, and its `restore_tags_in_document` also stands for the fuzzy and
  withtags copies. The withtags builders (update_fc_insider_withtags.py:73-128)
  and row search (update_fc_insider_withtags.py:130-137) differ and are modelled
  on their own, as `WithTagsUpdate.DeleteRun`, `WithTagsUpdate.InsertRun` and
  `WithTagsUpdate.FindRowTagless`;
- `clear_cell_tracked_changes` of the tracked script also stands for the copy in
  `scripts/handle_text_with_linebreaks.py`;
- `load_markdown_table` and `parse_markdown_table` are one reader.

Rewrites are methods on `Cell`. Their postconditions tie the new paragraphs to a
specification function of the old ones. The properties are lemmas about those
functions.

Each batch loop is a method over the whole table. Its postcondition says that
the final cells (`StateOf`, a map from each cell to its paragraphs) and counters
are those of `Batch`, a fold of a pure `Step` over the entries. `StepOutcome`
then states what one entry does: when it succeeds, which cell it rewrites, and
how the counters move. `V3Update` writes the blocks as the script evidently
intends; the edit as written is kept beside it (see "## Findings").

## Model

| member | source | states |
|---|---|---|
| TagProtector.ProtectTags | tag_protector.py:9-26 | the result has the input's length and each character is the input's, with `<` turned into `⟨` and `>` into `⟩` (the empty text is returned as it is) |
| TagProtector.RestoreTags | tag_protector.py:29-36 | the result has the input's length and each character is the input's, with `⟨` turned back into `<` and `⟩` into `>` |
| TagProtector.ProtectedHasNoAngleBrackets | tag_protector.py:26 | protected text holds no `<` and no `>` |
| TagProtector.RestoredHasNoMarks | tag_protector.py:36 | restored text holds no `⟨` and no `⟩` |
| TagProtector.RoundTrip | tag_protector.py:59-66 | restoring protected text gives the original back whenever the original holds no `⟨`/`⟩` (the round trip the self-test checks) |
| TagProtector.RoundTripLosesMarks | tag_protector.py:26-36 | the round trip is not the identity on text that already holds `⟨`: it comes back as `<` |
| TagProtector.ProtectedIff | tag_protector.py:39-43 | `is_protected(protect_tags(x))` holds exactly when x holds one of `<`, `>`, `⟨`, `⟩` |
| TagProtector.ProtectIdempotent | tag_protector.py:26 | protecting twice is protecting once |
| TagProtector.RestoreIdempotent | tag_protector.py:36 | restoring twice is restoring once |
| TagProtector.ProtectKeepsSpaces | tag_protector.py:26 | protection changes no whitespace position, so stripping commutes with it |
| TagProtector.StripProtect | tag_protector.py:26 | `protect_tags(x).strip() == protect_tags(x.strip())` |
| TagProtector.RestoreAppend | tag_protector.py:36 | restoring a concatenation is concatenating the restored parts |
| TagProtector.ProtectInjective | tag_protector.py:26 | on text without `⟨`/`⟩`, different texts stay different once protected |
| TagProtector.ProtectContains | tag_protector.py:26 | on text without `⟨`/`⟩`, substring containment is the same before and after protection, so the containment checks of the update scripts may compare protected texts |
| Translations.GetOr | update_fc_insider_smart.py:382-384 | `entry.get(key, default)`: the entry's value when the key is present, the default otherwise |
| Docx.ParagraphTexts | update_fc_insider_smart.py:89-91 | one text per paragraph, each the concatenated text of that paragraph's direct runs (`paragraph.text`) |
| Docx.LineItemsRoundTrip | update_fc_insider_smart.py:282 | what the `run.text` setter writes (a `w:t` per line, a `w:br` for each `\n` and for each `\r`) reads back as the text with every `\r` turned into `\n`, and as the text itself when it holds no `\r` |
| Docx.WithTextReadsBack | update_fc_insider_fuzzy.py:315 | after `run.text = t` the run reads back as `t` with every `\r` turned into `\n` (so `"a\r\nb"` reads `"a\n\nb"`) and keeps its properties |
| Docx.NewRunText | update_fc_insider_smart.py:282 | a run added with `add_run(t)` reads back as `t` with every `\r` turned into `\n` |
| Docx.RemoveWhere | update_fc_insider_withtags.py:208-220 | removing the selected children of a snapshot of the child list leaves exactly the unselected ones, in order |
| Docx.WithoutDrops | update_fc_insider_withtags.py:208-220 | no selected child survives the removal |
| Docx.WithoutKeeps | update_fc_insider_withtags.py:208-220 | every unselected child survives the removal |
| Docx.WithoutSubset | update_fc_insider_withtags.py:208-220 | the removal adds nothing: what survives was there and is unselected |
| Docx.NoRunsLeft | update_fc_insider_smart.py:271-273 | after removing the direct runs of a paragraph, it has no direct runs |
| Docx.RevisionBlocksShape | update_fc_insider_smart.py:281-312 | the appended blocks are a `w:del` holding the old run (if any) then a `w:ins` holding the new run (if any), with consecutive ids from the current revision id and the given author and date |
| Docx.Cell.EnsureOneParagraph | update_fc_insider_smart.py:275-277 | a cell without paragraphs gets one empty paragraph; otherwise nothing changes |
| Docx.Cell.AppendChild | update_fc_insider_smart.py:292 | `p.append(node)`: the node goes at the end of that paragraph and no other paragraph changes |
| Docx.Cell.InsertChild | scripts/update_fc_insider_tracked.py:135 | `p.insert(k, node)`: the node is placed at position k of that paragraph's children |
| Docx.Cell.SetRunText | update_fc_insider_fuzzy.py:315 | `run.text = t` on one direct run: only that child of that paragraph changes |
| Docx.Cell.RemoveChild | update_fc_insider_smart.py:273 | `p.remove(child)`: exactly that child leaves that paragraph |
| Docx.Cell.RemoveChildrenWhere | update_fc_insider_withtags.py:208-220 | the paragraph's children become the unselected ones, in order; other paragraphs are unchanged |
| Docx.Cell.RemoveDirectRuns | update_fc_insider_smart.py:271-273 | every paragraph loses exactly its direct runs; the paragraph count is unchanged |
| Docx.Cell.AppendRevisions | update_fc_insider_smart.py:281-312 | the del/ins blocks are appended to the target paragraph, and the returned id is the old one plus the number of blocks |
| Placeholders.TagLen | update_fc_insider_smart.py:57 | a match of `<\d+/>` at the start: none, or at least four characters `<`, digits, `/>` |
| Placeholders.MatchLen | update_fc_insider_smart.py:54 | a match of either pattern is at least four characters long and needs a `<` |
| Placeholders.RemoveAll | update_fc_insider_smart.py:54-57 | `re.sub(pattern, '', s)` never lengthens the text |
| Placeholders.RemoveAllWithoutOpen | update_fc_insider_smart.py:54-57 | text without `<` holds no match and passes through both substitutions unchanged |
| Placeholders.RemoveQuotedWithoutQuote | update_fc_insider_smart.py:54 | text without `"` passes through the quoted substitution unchanged |
| Placeholders.RemoveBareAt | update_fc_insider_smart.py:57 | a leading `<digits/>` is removed and the rest is processed on |
| Placeholders.RemoveQuotedAt | update_fc_insider_smart.py:54 | a leading `"<digits/>"` is removed together with its quotes |
| Placeholders.RemoveAllShrinks | update_fc_insider_smart.py:54-57 | each removed match takes at least four characters away |
| Placeholders.RemoveAllChangesIff | update_fc_insider_smart.py:54-57 | the substitution changes the text exactly when the text holds a match |
| Placeholders.RemoveAllIsOnePass | update_fc_insider_smart.py:57 | `re.sub` is one left-to-right pass, not repeated to a fixpoint: `<<1/>1/>` becomes `<1/>`, which still matches |
| SmartUpdate.SmartFilterNormalizes | update_fc_insider_smart.py:53-68 | the filter is placeholder removal (quoted, then bare) followed by whitespace normalisation: the line-wise strip and blank-line removal add nothing once `\s+` is collapsed |
| SmartUpdate.SmartFilterShape | update_fc_insider_smart.py:60-68 | the filtered text has no leading or trailing whitespace, no line break, and every whitespace character is a single space between two non-space characters |
| SmartUpdate.SmartFilterPlain | update_fc_insider_smart.py:53-68 | on text without `<` the filter is exactly `' '.join(text.split())` |
| SmartUpdate.SmartFilterExample | update_fc_insider_smart.py:44 | the documented example `"<0/>"在第 <1/> 頁` becomes `在第 頁`, not the empty text |
| SmartUpdate.QuotedPassBefore | update_fc_insider_smart.py:54 | a leading quoted placeholder is removed together with its quotes |
| SmartUpdate.BarePassBetween | update_fc_insider_smart.py:57 | a bare placeholder between placeholder-free text is removed and its surroundings are joined |
| SmartUpdate.NormalizeTwoWords | update_fc_insider_smart.py:68 | two words separated by a run of spaces are joined by exactly one space |
| SmartUpdate.QuotedPassMustComeFirst | update_fc_insider_smart.py:53-57 | the order of the two substitutions matters: removing bare placeholders first would leave the quotes `""` of `"<0/>"` behind, while the source's order leaves nothing |
| SmartUpdate.CellTextSmartPlain | update_fc_insider_smart.py:77-98 | for a cell whose paragraphs hold no `<`, the smart cell text is the whitespace-normalised `cell.text` |
| SmartUpdate.ReadCellSmart | update_fc_insider_smart.py:77-98 | the loop collects the stripped non-empty paragraph texts, joins them with line breaks and filters, as the specification function states |
| SmartUpdate.SelectedRunsTextAll | update_fc_insider_smart.py:130-132 | with no target style every run is included |
| SmartUpdate.SelectedTextAll | update_fc_insider_smart.py:113-142 | with no target style the collected text is the concatenation of all paragraph texts |
| SmartUpdate.SelectedRunsTextSplit | update_fc_insider_smart.py:130-135 | `"Tag"` and `"NotTag"` select complementary runs: their text lengths add up to the whole |
| SmartUpdate.SelectedTextSplit | update_fc_insider_smart.py:113-142 | the same split holds across all paragraphs of a cell |
| SmartUpdate.SelectedRunsTextOther | update_fc_insider_smart.py:128-135 | any other target style includes no run |
| SmartUpdate.SelectedTextOther | update_fc_insider_smart.py:113-142 | any other target style collects nothing from any paragraph |
| SmartUpdate.CellTextByOtherStyle | update_fc_insider_smart.py:103-145 | any target style other than `None`, `"Tag"` and `"NotTag"` reads the cell as `""` |
| SmartUpdate.SelectedTextAppend | update_fc_insider_smart.py:113-142 | collecting over two groups of paragraphs is collecting over each in turn |
| SmartUpdate.ReadCellByStyle | update_fc_insider_smart.py:103-145 | the nested loop over paragraphs and runs computes the style-filtered text of the specification function |
| SmartUpdate.SmartRewriteShape | update_fc_insider_smart.py:270-312 | after the rewrite every paragraph has lost its direct runs, other children stay in place, a cell without paragraphs gets one, and paragraph 0 ends with a del of id `revision_id` then an ins of id `revision_id + 1` |
| SmartUpdate.SmartRewriteBlocksText | update_fc_insider_smart.py:281-312 | the del block holds one run reading as the old text (each `\r` read back as `\n`) and the ins block one run reading as the new text |
| SmartUpdate.SmartRewriteReadsEmpty | update_fc_insider_smart.py:270-312 | after the rewrite the smart reader sees an empty cell, because tracked blocks are not direct runs |
| SmartUpdate.ReplaceCellSmart | update_fc_insider_smart.py:222-315 | success exactly when the text read with the chosen strategy (an unknown strategy reads as `'all'`) equals the old text; on success the cell is rewritten as above, otherwise it is untouched |
| SmartUpdate.TargetRowSpec | update_fc_insider_smart.py:382-392 | against the index of a table, an entry names the last data row with four cells whose stripped first cell reads as its `segment_id`, and names none exactly when the id is missing, empty or carried by no such row |
| SmartUpdate.StepOutcome | update_fc_insider_smart.py:381-415 | an entry succeeds exactly when it names a target cell whose reading, by the chosen strategy and as the earlier entries left it, equals its stripped old translation; a failure counts one failure and changes neither the cells nor the revision id; a success rewrites that one cell with the current id |
| SmartUpdate.StepCounts | update_fc_insider_smart.py:388-415 | every entry adds one to exactly one of the two counts, and the revision id moves by 2 exactly when it is a success |
| SmartUpdate.BatchCounts | update_fc_insider_smart.py:373-415 | after n entries the successes and failures add up to n and the revision id is 1000 plus twice the successes |
| SmartUpdate.BatchUntouched | update_fc_insider_smart.py:393-394 | a cell that no entry targets keeps its content through the whole batch |
| SmartUpdate.BatchUnknownIds | update_fc_insider_smart.py:388-391 | when no entry names a mapped row, every entry is a failure, the revision id stays 1000 and the document is unchanged |
| SmartUpdate.EditTarget | update_fc_insider_smart.py:399-408 | the cell edit seen on the whole table: it succeeds exactly when the cell reads as the old text, and then only that cell changes; otherwise nothing does |
| SmartUpdate.ApplyEntry | update_fc_insider_smart.py:381-415 | one pass of the loop body does to the cells, the counts and the revision id what `Step` says |
| SmartUpdate.UpdateTranslations | update_fc_insider_smart.py:358-428 | with the index built from the table as it was, the final cells, both counts and the next revision id are those of `Batch` over all entries |
| RowIndex.TableKeys | update_fc_insider_smart.py:358-362 | the header row (row 0) never has a key; every other row has its own key |
| RowIndex.IndexMap | update_fc_insider_smart.py:358-362 | every key in the map built from the first n ids points at a position below n that carries that key |
| RowIndex.IndexMapLastWins | update_fc_insider_smart.py:358-362 | every keyed row's key is in the map, and for a duplicated key the map holds the last row with it |
| RowIndex.RowMapSpec | update_fc_insider_smart.py:357-362 | the row map holds every key of rows 1 onward, maps it to a row with that key, and no later row has that key |
| RowIndex.BuildRowMap | update_fc_insider_smart.py:357-362 | the loop builds the row map, and every mapped row is past the header and has at least four cells |
| TrackedUpdate.RawTrackedTextOther | scripts/update_fc_insider_tracked.py:59-77 | a mode that reads neither deletions nor insertions collects nothing |
| TrackedUpdate.TrackedTextOtherMode | scripts/update_fc_insider_tracked.py:45-84 | any mode other than `read_deleted`, `read_inserted` and `read_both` reads the cell as `""` |
| TrackedUpdate.RawTrackedTextBoth | scripts/update_fc_insider_tracked.py:56-79 | `read_both` is, paragraph by paragraph, each paragraph's deleted text followed by its inserted text, with no separator (not the line break the doc comment promises); for one paragraph it is the `read_deleted` text followed by the `read_inserted` text |
| TrackedUpdate.RawTrackedTextBothChars | scripts/update_fc_insider_tracked.py:56-79 | `read_both` reads exactly the characters `read_deleted` and `read_inserted` read together, counted with multiplicity |
| TrackedUpdate.RawTrackedTextAppend | scripts/update_fc_insider_tracked.py:56-77 | collecting over two groups of paragraphs is collecting over each in turn |
| TrackedUpdate.ReadTracked | scripts/update_fc_insider_tracked.py:45-84 | the nested loop computes the tracked text of the specification function: `w:delText` inside direct `w:del` children and/or `w:t` inside direct `w:ins` children, in document order, joined and stripped |
| TrackedUpdate.NormalOrTracked | scripts/update_fc_insider_tracked.py:87-109 | the first non-empty of plain cell text, deleted text and inserted text, with its source named; the source is `empty` exactly when the text is `""` |
| TrackedUpdate.UnwrappedInTwoPasses | scripts/update_fc_insider_tracked.py:118-139 | removing every `w:del` first and then splicing each `w:ins`'s runs in its place gives the unwrapped child list |
| TrackedUpdate.UnwrappedNoRevisions | scripts/update_fc_insider_tracked.py:118-139 | after clearing, no direct `w:del` or `w:ins` child is left |
| TrackedUpdate.UnwrappedKeepsOthers | scripts/update_fc_insider_tracked.py:118-139 | the children other than runs and revisions keep their relative order |
| TrackedUpdate.UnwrappedRuns | scripts/update_fc_insider_tracked.py:129-135 | the direct runs after clearing are the accepted runs: the former direct runs and each `w:ins`'s runs at its position, in order |
| TrackedUpdate.UnwrappedIdempotent | scripts/update_fc_insider_tracked.py:112-139 | clearing a cleared paragraph changes nothing |
| TrackedUpdate.UnwrapIdentity | scripts/update_fc_insider_tracked.py:112-139 | a paragraph without tracked changes is left as it is |
| TrackedUpdate.SpliceAt | scripts/update_fc_insider_tracked.py:129-138 | one `w:ins` is replaced by its runs at its own position |
| TrackedUpdate.SpliceInsertions | scripts/update_fc_insider_tracked.py:126-138 | the loop over a snapshot of the `w:ins` children splices each in place |
| TrackedUpdate.ClearParagraph | scripts/update_fc_insider_tracked.py:116-138 | one paragraph's children become the unwrapped list; the other paragraphs are untouched |
| TrackedUpdate.ClearTrackedChanges | scripts/update_fc_insider_tracked.py:112-139 | every paragraph of the cell is cleared |
| TrackedUpdate.NoRevisionsNoText | scripts/update_fc_insider_tracked.py:59-77 | a paragraph without revisions contributes no tracked text |
| TrackedUpdate.BlocksReadBack | scripts/update_fc_insider_tracked.py:59-77 | of freshly appended blocks, the deletion reader sees the `w:delText` of the del run and the insertion reader the `w:t` of the ins run |
| TrackedUpdate.RevisionBlocksTrackedText | scripts/update_fc_insider_tracked.py:217-247 | the blocks the rewrite appends read as `""` for deletions (the del run holds `w:t`, not `w:delText`) and as the new text for insertions |
| TrackedUpdate.TrackedRewriteParagraphs | scripts/update_fc_insider_tracked.py:202-247 | after the rewrite paragraph 0 holds the only tracked changes, whose inserted text is the new text |
| TrackedUpdate.RestTrackedTextEmpty | scripts/update_fc_insider_tracked.py:56-79 | paragraphs without revisions read as `""` in every mode |
| TrackedUpdate.TrackedRewriteReadsBack | scripts/update_fc_insider_tracked.py:45-84 | reading a rewritten cell again gives the stripped new text in a mode that reads insertions and `""` otherwise |
| TrackedUpdate.TrackedRewriteReadsAuto | scripts/update_fc_insider_tracked.py:87-109 | a rewritten cell has no plain text, so the auto reader returns the stripped new text from the inserted source, or `empty` |
| TrackedUpdate.ReplaceCellTracked | scripts/update_fc_insider_tracked.py:166-249 | success exactly when the text read in the given mode (`auto` by the fallback chain) equals the old text; only `clear_and_replace` changes the cell, by clearing, removing direct runs and appending del then ins; otherwise the cell is unchanged |
| TrackedUpdate.OldTextOf | scripts/update_fc_insider_tracked.py:324 | `old_text` takes precedence over `old_translation`, then `""`; the value is stripped |
| TrackedUpdate.NewTextOf | scripts/update_fc_insider_tracked.py:325 | `new_text` takes precedence over `new_translation`, then `""`; the value is stripped |
| TrackedUpdate.StepOutcome | scripts/update_fc_insider_tracked.py:321-357 | an entry succeeds exactly when it names a mapped row and that row's fourth cell, as the earlier entries left it, reads (by the chosen reading mode) as its stripped old text; a failure counts one failure and changes nothing else; a success rewrites that cell in `clear_and_replace` mode (leaves it as it is in any other mode) with the current revision id and moves the id by 2 |
| TrackedUpdate.BatchCounts | scripts/update_fc_insider_tracked.py:313-357 | after n entries the successes and failures add up to n and the revision id is 1000 plus twice the successes |
| TrackedUpdate.BatchUntouched | scripts/update_fc_insider_tracked.py:334-350 | a cell that no entry targets, or any cell when the update mode is not `clear_and_replace`, keeps its content through the whole batch |
| TrackedUpdate.BatchUnknownIds | scripts/update_fc_insider_tracked.py:329-332 | when no entry names a mapped row, every entry is a failure, the revision id stays 1000 and the cells are unchanged |
| TrackedUpdate.EditTarget | scripts/update_fc_insider_tracked.py:340-350 | the cell edit seen on the whole table: it succeeds exactly when the cell reads as the old text, and then only that cell changes, to its rewritten form in `clear_and_replace` mode; otherwise nothing changes |
| TrackedUpdate.ApplyEntry | scripts/update_fc_insider_tracked.py:321-357 | one pass of the loop body does to the cells, the counts and the revision id what `Step` says |
| TrackedUpdate.ApplyAll | scripts/update_fc_insider_tracked.py:313-357 | the loop over all entries leaves the cells, both counts and the revision id as `Batch` over all of them from the cells as they were |
| TrackedUpdate.UpdateTranslations | scripts/update_fc_insider_tracked.py:286-357 | a list, a `{"translations": ...}` wrapper or an empty object (which holds no entry) is processed, and a non-empty object without a `translations` key fails with nothing changed; with the row index built from the table as it was, the final cells, the tally and the next revision id are those of `Batch` over all entries |
| WithTagsUpdate.PlainTextAppend | update_fc_insider_withtags.py:38-56 | collecting the non-Tag text over two groups of paragraphs is collecting over each in turn |
| WithTagsUpdate.PlainTextIsNotTag | update_fc_insider_withtags.py:26-56 | the text collected while skipping Tag runs is the `"NotTag"` selection of the style reader of the smart script |
| WithTagsUpdate.PlainTextOnlyTag | update_fc_insider_withtags.py:38-56 | a cell whose runs are all Tag runs collects no text |
| WithTagsUpdate.TaglessTextOnlyTag | update_fc_insider_withtags.py:26-56 | such a cell reads as `""` |
| WithTagsUpdate.PlainTextNoTag | update_fc_insider_withtags.py:38-56 | a cell without Tag runs collects the concatenation of its paragraph texts |
| WithTagsUpdate.TaglessTextNoTag | update_fc_insider_withtags.py:26-56 | such a cell reads as its stripped concatenated paragraph texts (not joined with line breaks) |
| WithTagsUpdate.ReadPlainRuns | update_fc_insider_withtags.py:39-54 | the loop over one paragraph's runs collects the text of the runs not styled Tag |
| WithTagsUpdate.ReadTagless | update_fc_insider_withtags.py:26-56 | the nested loop computes the Tag-free cell text of the specification function |
| WithTagsUpdate.AcceptsBlankCell | update_fc_insider_withtags.py:150-164 | a cell that reads as blank accepts any old text, because the empty current text is a substring of anything |
| WithTagsUpdate.AcceptsOwnReading | update_fc_insider_withtags.py:150-164 | old text whose stripped form is the current reading is accepted |
| WithTagsUpdate.HasPlainRunIff | update_fc_insider_withtags.py:175-186 | a paragraph has non-Tag content exactly when some direct run is not a Tag run, whatever that run's text |
| WithTagsUpdate.TargetParagraph | update_fc_insider_withtags.py:170-193 | the target is the first paragraph with a non-Tag run, or paragraph 0 when there is none |
| WithTagsUpdate.FormatSourceFirst | update_fc_insider_withtags.py:197-206 | the formatting comes from the first run that has `w:rPr` and is not a Tag run; runs without `w:rPr` are passed over; there is none exactly when every run is passed over |
| WithTagsUpdate.CopyFormat | update_fc_insider_withtags.py:83-90 | the copied formatting exists iff the source does, keeps its other formatting, never carries the Tag style, and equals the source when that was not Tag-styled |
| WithTagsUpdate.NewRunsAreNotTag | update_fc_insider_withtags.py:73-127 | the runs inside the created del and ins blocks are never Tag runs |
| WithTagsUpdate.ClearedWithRuns | update_fc_insider_withtags.py:208-220 | clearing the target paragraph leaves exactly its Tag runs among its direct runs |
| WithTagsUpdate.TaglessNextId | update_fc_insider_withtags.py:223-238 | the returned revision id grows by 0, 1 or 2 |
| WithTagsUpdate.RunsOfCleared | update_fc_insider_withtags.py:208-220 | the clearing loop removes the non-Tag runs and the `w:del`/`w:ins`/`w:hyperlink` children, so the remaining runs are the Tag runs in order |
| WithTagsUpdate.TaglessRewriteKeepsTagRuns | update_fc_insider_withtags.py:140-238 | the rewrite changes only the target paragraph, whose remaining direct runs are its Tag runs in their original order |
| WithTagsUpdate.WithoutPlainOnlyTag | update_fc_insider_withtags.py:208-220 | what the clearing leaves among the runs are Tag runs only |
| WithTagsUpdate.ClearedWithReading | update_fc_insider_withtags.py:26-56 | after the rewrite the Tag-free reading sees only the paragraphs after the target |
| WithTagsUpdate.ClearedTargetReadsNothing | update_fc_insider_withtags.py:208-238 | the cleared target paragraph contributes no Tag-free text, since the new text lives in del/ins blocks |
| WithTagsUpdate.NoPlainPrefixReadsNothing | update_fc_insider_withtags.py:170-193 | the paragraphs before the target contribute no Tag-free text |
| WithTagsUpdate.TaglessRewriteIsCleared | update_fc_insider_withtags.py:195-238 | the rewrite is: clear the target paragraph, then append the optional del and ins blocks built with its formatting |
| WithTagsUpdate.TaglessRewriteReading | update_fc_insider_withtags.py:140-238 | reading the rewritten cell without tags gives what the paragraphs after the target read |
| WithTagsUpdate.BlocksPresentIff | update_fc_insider_withtags.py:223-236 | a del block is built exactly when the protected old text is not blank, and an ins block exactly when the protected new text is not blank |
| WithTagsUpdate.TaglessBlocksReadBack | update_fc_insider_withtags.py:73-127 | the del block reads back the protected old text as `w:delText` and the ins block the protected new text as `w:t` |
| WithTagsUpdate.ReplaceCellTagless | update_fc_insider_withtags.py:140-238 | it fails with a text mismatch, leaving the cell untouched, exactly when the containment check fails; otherwise it rewrites the cell and returns the advanced revision id |
| WithTagsUpdate.FindRowFrom | update_fc_insider_withtags.py:130-137 | a row found lies in the table at or after the starting row and has a first cell; a failure is either "not found" or the missing first cell of a row without cells |
| WithTagsUpdate.FindRowFromFound | update_fc_insider_withtags.py:132-136 | the row found reads, without its `Tag` runs, as the key, and every row scanned before it has a first cell that does not |
| WithTagsUpdate.FindRowFromMissing | update_fc_insider_withtags.py:132-137 | the search reports "not found" exactly when every row from the start has a first cell and none reads as the key |
| WithTagsUpdate.FindRowTagless | update_fc_insider_withtags.py:130-137 | the scan from row 0, header included, ends as `FindRowFrom` does on the cells as they are, with the stripped segment id as key |
| WithTagsUpdate.Step | update_fc_insider_withtags.py:256-298 | one entry either succeeds, keeping the failure list and moving the revision id by at most 2, or appends one failure and changes neither the cells nor the id; only cells of the fourth column can change |
| WithTagsUpdate.Batch | update_fc_insider_withtags.py:243-300 | after n entries the successes and failures add up to n, the revision id, from 0, is at most twice the successes, no success leaves the cells as they were, and cells outside the fourth column never change |
| WithTagsUpdate.StepOutcome | update_fc_insider_withtags.py:267-298 | an entry succeeds exactly when its row is found, has a fourth cell and that cell, as the earlier entries left it, passes the containment check; a failure is appended under the entry's id (or `Unknown`) and changes nothing else; a success rewrites exactly that cell with the current id, and the id advances by the blocks written |
| WithTagsUpdate.EditTarget | update_fc_insider_withtags.py:284-286 | the cell edit seen on the whole table: it fails with a text mismatch and changes nothing exactly when the check fails; otherwise only that cell changes, to its rewritten form, and the advanced id is returned |
| WithTagsUpdate.ApplyEntry | update_fc_insider_withtags.py:256-298 | one pass of the `try` block does to the cells, the count, the failure list and the revision id what `Step` says |
| WithTagsUpdate.UpdateTranslations | update_fc_insider_withtags.py:241-300 | with revision ids from 0, the final cells, the success count, the failures in order and the next id are those of `Batch` over all entries |
| V3Update.ChildrenNamedIff | update_fc_insider_v3.py:26-31 | a node is among the returned children exactly when it is a direct child with that element name |
| V3Update.ChildrenNamedAppend | update_fc_insider_v3.py:26-31 | the returned children keep document order |
| V3Update.FormatOf | update_fc_insider_v3.py:38-47 | the formatting is the `w:rPr` of the first run that has one and is not a Tag run; runs without `w:rPr` are skipped; there is none exactly when no run qualifies |
| V3Update.NonTagTextSkipsTags | update_fc_insider_v3.py:49-56 | Tag runs contribute no text |
| V3Update.NonTagTextAppendTag | update_fc_insider_v3.py:49-56 | a further Tag run adds nothing to the collected text |
| V3Update.NormalizeParagraph | update_fc_insider_v3.py:34-72 | it returns the formatting and the non-Tag `w:t` text, unescaped and then protected, and removes every direct run, Tag runs included, leaving the other children in place |
| V3Update.FirstWithText | update_fc_insider_v3.py:101-124 | the first paragraph from position i that has a non-Tag run with non-blank `w:t` text |
| V3Update.TargetParagraph | update_fc_insider_v3.py:101-129 | no target exactly when the cell has no paragraphs; otherwise the first paragraph with non-blank non-Tag text, or paragraph 0 when there is none |
| V3Update.FirstRowFrom | update_fc_insider_v3.py:75-91 | the first row from position i whose first cell has a paragraph whose stripped run text equals the stripped segment id; rows without cells are skipped |
| V3Update.LocateRow | update_fc_insider_v3.py:75-91 | the first matching row of the table, or none when no row matches |
| V3Update.AcceptsUnescaped | update_fc_insider_v3.py:236-247 | old text contained in the unescaped paragraph text passes the containment check on the protected texts |
| V3Update.EditShape | update_fc_insider_v3.py:232-252 | the intended edit fails exactly when the check refuses (decided after the runs were removed); only the target paragraph changes, it always loses its direct runs, and the del/ins blocks follow its other children only on success |
| V3Update.EditBlocksShape | update_fc_insider_v3.py:197-206 | the blocks the intended edit appends number at most two and carry consecutive ids from the starting id |
| V3Update.EditIds | update_fc_insider_v3.py:197-206 | on success the returned id is the starting id plus the number of blocks, at most two, whose ids run consecutively from the starting id |
| V3Update.BlocksCarryFormat | update_fc_insider_v3.py:161-195 | each block's one run carries the paragraph's captured formatting, as the intended edit writes it |
| V3Update.AsWrittenLosesText | update_fc_insider_v3.py:161-206 | as written, an entry that passes the check and has non-blank old or new text fails with its paragraph stripped of its runs and given nothing, while the intended edit succeeds on the same input and writes more children |
| V3Update.ReplaceInCell | update_fc_insider_v3.py:232-252 | the method performs the intended edit of `EditCell`, outcome and new paragraphs alike |
| V3Update.Step | update_fc_insider_v3.py:225-259 | one entry either succeeds, keeping the failure list, or appends one failure; only cells of the fourth column can change |
| V3Update.Batch | update_fc_insider_v3.py:209-261 | after n entries the successes and failures add up to n and cells outside the fourth column never change |
| V3Update.StepOutcome | update_fc_insider_v3.py:225-259 | an unknown segment or a row without a fourth cell appends a failure and changes nothing; otherwise the fourth cell, as the earlier entries left it, becomes what the edit with ids from 2i makes of it (a refused check included), and the entry succeeds exactly when the edit does |
| V3Update.IdsNeverCollide | update_fc_insider_v3.py:249-252 | every block entry i writes has a smaller id than every block a later entry j writes, so no two blocks of a batch share an id |
| V3Update.EditTarget | update_fc_insider_v3.py:232-252 | the cell edit seen on the whole table: the outcome is that of `EditCell` and only that cell changes, to the paragraphs it yields |
| V3Update.ApplyEntry | update_fc_insider_v3.py:225-259 | one pass of the `try` block for entry i does to the cells, the count and the failure list what `Step` says |
| V3Update.UpdateTranslations | update_fc_insider_v3.py:209-261 | with entries counted from 1, the final cells, the success count and the failures in order are those of `Batch` over all entries |
| ReverseUpdate.NoTagRunsSelected | update_fc_insider_reverse.py:45-56 | runs none of which is a Tag run contribute nothing to the Tag-only text |
| ReverseUpdate.TagOnlyWithoutTagRuns | update_fc_insider_reverse.py:37-64 | a cell without Tag runs reads as `""` under `only_tags` |
| ReverseUpdate.TagTextWithoutTagRuns | update_fc_insider_reverse.py:43-58 | a cell without Tag runs collects no Tag text |
| ReverseUpdate.FilteredTextPlain | update_fc_insider_reverse.py:67-82 | on a cell without `<` the filtered reading is the stripped `cell.text`, internal whitespace untouched |
| ReverseUpdate.PreservedRunTexts | update_fc_insider_reverse.py:114-130 | every preserved text is non-empty and, stripped, begins with a `<digits/>` match |
| ReverseUpdate.PreservedTexts | update_fc_insider_reverse.py:109-132 | the same holds over all paragraphs of the cell |
| ReverseUpdate.PreservedWhateverFollows | update_fc_insider_reverse.py:127 | the match is anchored at the start only: a run whose stripped text begins with `<digits/>` is preserved whatever follows |
| ReverseUpdate.NotPreservedWithoutLeadingTag | update_fc_insider_reverse.py:127 | a run whose stripped text does not begin with `<` is not preserved |
| ReverseUpdate.TagRunNodes | update_fc_insider_reverse.py:178-180 | one new Tag-styled run per preserved text, in order |
| ReverseUpdate.SelectedTagRuns | update_fc_insider_reverse.py:178-180 | the re-added Tag runs are read back by the Tag-only reader as the concatenated preserved texts, each `\r` read back as `\n` |
| ReverseUpdate.BlocksHaveNoRuns | update_fc_insider_reverse.py:182-230 | the del and ins blocks add no direct runs |
| ReverseUpdate.RewriteShape | update_fc_insider_reverse.py:166-230 | after the rewrite every paragraph has lost its direct runs, except that paragraph 0 holds exactly the re-added Tag runs; its other children stay, followed by the del and ins blocks |
| ReverseUpdate.RewriteTagText | update_fc_insider_reverse.py:37-64 | reading the rewritten cell with `only_tags` sees only the preserved placeholder texts (each `\r` read back as `\n`), which filter away |
| ReverseUpdate.BlocksText | update_fc_insider_reverse.py:182-230 | the del block holds a Tag-styled run reading as the old text with each `\r` read back as `\n` (as `w:t`, not `w:delText`) and the ins block a Tag-styled run reading as the new text, with ids `revision_id` and `revision_id + 1` |
| ReverseUpdate.AppendTagRuns | update_fc_insider_reverse.py:177-180 | the loop appends the preserved Tag runs to paragraph 0 in order |
| ReverseUpdate.ReplaceCell | update_fc_insider_reverse.py:135-230 | success exactly when the text read with the chosen method (anything but `only_tags` reads filtered) equals the old text exactly; on success the cell is rewritten as above, otherwise it is unchanged |
| ReverseUpdate.StepOutcome | update_fc_insider_reverse.py:296-336 | an entry succeeds exactly when it names a target cell that, read with the chosen method as the earlier entries left it, equals its stripped old translation; a failure counts one failure and changes nothing else; a success rewrites that one cell and moves the revision id by 2 |
| ReverseUpdate.BatchCounts | update_fc_insider_reverse.py:288-336 | after n entries the successes and failures add up to n and the revision id is 1000 plus twice the successes |
| ReverseUpdate.BatchUntouched | update_fc_insider_reverse.py:308-309 | a cell that no entry targets keeps its content through the whole batch |
| ReverseUpdate.BatchUnknownIds | update_fc_insider_reverse.py:303-306 | when no entry names a mapped row, every entry is a failure, the revision id stays 1000 and the document is unchanged |
| ReverseUpdate.EditTarget | update_fc_insider_reverse.py:320-328 | the cell edit seen on the whole table: it succeeds exactly when the cell reads as the old text, and then only that cell changes; otherwise nothing does |
| ReverseUpdate.ApplyEntry | update_fc_insider_reverse.py:296-336 | one pass of the loop body does to the cells, the counts and the revision id what `Step` says |
| ReverseUpdate.UpdateTranslations | update_fc_insider_reverse.py:273-335 | with the index built from the table as it was, the final cells, both counts and the next revision id are those of `Batch` over all entries |
| FuzzyUpdate.NormalizeIsNormalForm | update_fc_insider_fuzzy.py:27-42 | `normalize_text` is whitespace normalisation `' '.join(text.split())`, the empty text included |
| FuzzyUpdate.NormalizeShape | update_fc_insider_fuzzy.py:27-42 | normalised text is stripped, is its own normal form, and every whitespace character in it is a single space between two non-space characters |
| FuzzyUpdate.NormalizeKeepsWords | update_fc_insider_fuzzy.py:36-42 | normalising keeps the words, in order |
| FuzzyUpdate.NormalizeBlank | update_fc_insider_fuzzy.py:33-42 | blank text normalises to `""` |
| FuzzyUpdate.FuzzyMatchReflexiveSymmetric | update_fc_insider_fuzzy.py:45-81 | every text matches itself, and the match does not depend on the order of its arguments |
| FuzzyUpdate.FuzzyMatchContained | update_fc_insider_fuzzy.py:64-66 | texts one of whose normal forms contains the other always match |
| FuzzyUpdate.FuzzyMatchBlank | update_fc_insider_fuzzy.py:60-66 | blank text matches every text in both orders, because `""` is contained in any string |
| FuzzyUpdate.WordSetEmpty | update_fc_insider_fuzzy.py:69-73 | the word set is empty exactly when the text has no words |
| FuzzyUpdate.NoWordsNormalizeEmpty | update_fc_insider_fuzzy.py:69-73 | a normal form without words is `""` |
| FuzzyUpdate.FuzzyMatchJaccard | update_fc_insider_fuzzy.py:61-81 | when the normal forms are neither equal nor contained in one another, both word sets are non-empty and the match is exactly the Jaccard comparison of the size of the common words over the size of all words with the threshold |
| FuzzyUpdate.SimilarEnoughMonotone | update_fc_insider_fuzzy.py:76-81 | word sets similar enough for a threshold are similar enough for any lower one |
| FuzzyUpdate.FuzzyMatchMonotone | update_fc_insider_fuzzy.py:45-81 | a match under a threshold stays a match under any lower threshold |
| FuzzyUpdate.ExactIsSimple | update_fc_insider_fuzzy.py:183-189 | in exact mode the check is the one-way containment check of the simple script |
| FuzzyUpdate.FuzzyAcceptsContained | update_fc_insider_fuzzy.py:173-181 | in fuzzy mode old text whose normal form occurs in the current text's normal form is accepted |
| FuzzyUpdate.AcceptsOwnReading | update_fc_insider_fuzzy.py:165-189 | the current text is always accepted as its own old text, in either mode |
| FuzzyUpdate.ReplaceCell | update_fc_insider_fuzzy.py:151-236 | it fails with a text mismatch, leaving the cell untouched, exactly when the exact or fuzzy check fails; otherwise it rewrites the cell as the simple script does and returns the advanced id |
| FuzzyUpdate.Step | update_fc_insider_fuzzy.py:265-300 | one entry either succeeds, keeping the failure list and moving the revision id by at most 2, or appends one failure and changes neither the cells nor the id; only cells of the fourth column can change |
| FuzzyUpdate.Batch | update_fc_insider_fuzzy.py:241-302 | after n entries the successes and failures add up to n, the revision id, from 0, is at most twice the successes, no success leaves the cells as they were, and cells outside the fourth column never change |
| FuzzyUpdate.ExactStepIsSimple | update_fc_insider_fuzzy.py:255-300 | without `--fuzzy` an entry does to the cells, the counts, the failures and the revision id exactly what it does in the simple script |
| FuzzyUpdate.StepOutcome | update_fc_insider_fuzzy.py:265-300 | an entry succeeds exactly when its row is found, has a fourth cell and that cell, as the earlier entries left it, passes the check in the chosen mode; a failure is appended under the entry's id (or `Unknown`) and changes nothing else; a success rewrites exactly that cell and the id advances by the blocks written |
| FuzzyUpdate.EditTarget | update_fc_insider_fuzzy.py:284-286 | the cell edit seen on the whole table: it fails with a text mismatch and changes nothing exactly when the check in the chosen mode fails; otherwise only that cell changes, to its rewritten form, and the advanced id is returned |
| FuzzyUpdate.ApplyEntry | update_fc_insider_fuzzy.py:265-300 | one pass of the `try` block does to the cells, the count, the failure list and the revision id what `Step` says |
| FuzzyUpdate.UpdateTranslations | update_fc_insider_fuzzy.py:239-302 | with revision ids from 0, the final cells, the success count, the failures in order and the next id are those of `Batch` over all entries |
| SimpleUpdate.AcceptsIff | update_fc_insider_simple.py:125-132 | on text without `⟨`/`⟩` the check passes exactly when the old text is blank or occurs in the stripped current cell text |
| SimpleUpdate.AcceptsOwnReading | update_fc_insider_simple.py:125-132 | the current text is accepted as its own old text |
| SimpleUpdate.AcceptsIsStrictExample | update_fc_insider_simple.py:125-132 | the check is one-way and unstripped: `"ab "` and `"abc"` are refused for a cell reading `"ab"`, while `"b"` is accepted in `"abc"` |
| SimpleUpdate.RefusesLonger | update_fc_insider_simple.py:125-132 | non-blank old text longer than the current text is always refused |
| SimpleUpdate.AcceptsOccurrence | update_fc_insider_simple.py:125-132 | old text occurring anywhere in the current text is accepted |
| SimpleUpdate.NextId | update_fc_insider_simple.py:134-172 | the returned revision id grows by 0, 1 or 2 |
| SimpleUpdate.BlocksPresentIff | update_fc_insider_simple.py:155-169 | a del block is built exactly when the old text is not blank, an ins block exactly when the new text is not blank |
| SimpleUpdate.NextIdCounts | update_fc_insider_simple.py:134-172 | a cell without paragraphs returns the id unchanged (after the check); otherwise the id grows by one per non-blank old or new text |
| SimpleUpdate.RewriteShape | update_fc_insider_simple.py:137-169 | only paragraph 0 changes: its runs, revisions, hyperlinks and bookmarks are removed, its other children stay in order, and the del/ins blocks follow, built with the formatting of its first run |
| SimpleUpdate.RewriteClears | update_fc_insider_simple.py:148-153 | the children kept are exactly the original children of the other kinds, in order, ahead of the new blocks |
| SimpleUpdate.NoRunsKept | update_fc_insider_simple.py:148-153 | the kept children contain no runs and no tracked text |
| SimpleUpdate.BlocksReadBack | update_fc_insider_simple.py:42-90 | the del block reads back the protected old text as `w:delText`, the ins block the protected new text as `w:t` |
| SimpleUpdate.RewriteReadsBack | update_fc_insider_simple.py:137-169 | paragraph 0 of the rewritten cell has no direct runs and reads as `""`; its tracked text is the protected old and new text |
| SimpleUpdate.ReplaceCell | update_fc_insider_simple.py:102-172 | it fails with a text mismatch, leaving the cell untouched, exactly when the containment check fails; otherwise it rewrites paragraph 0 and returns the advanced id |
| SimpleUpdate.FindRowFrom | update_fc_insider_simple.py:90-97 | a row found lies in the table at or after the starting row and has a first cell; a failure is either "not found" or the missing first cell of a row without cells |
| SimpleUpdate.FindRowFromFound | update_fc_insider_simple.py:92-96 | the row found reads, stripped, as the key, and every row scanned before it has a first cell that does not |
| SimpleUpdate.FindRowFromMissing | update_fc_insider_simple.py:92-97 | the search reports "not found" exactly when every row from the start has a first cell and none reads as the key |
| SimpleUpdate.FindRow | update_fc_insider_simple.py:90-97 | the scan from row 0, header included, ends as `FindRowFrom` does on the cells as they are, with the stripped segment id as key |
| SimpleUpdate.Step | update_fc_insider_simple.py:209-232 | one entry either succeeds, keeping the failure list and moving the revision id by at most 2, or appends one failure and changes neither the cells nor the id; only cells of the fourth column can change |
| SimpleUpdate.Batch | update_fc_insider_simple.py:188-234 | after n entries the successes and failures add up to n, the revision id, from 0, is at most twice the successes, no success leaves the cells as they were, and cells outside the fourth column never change |
| SimpleUpdate.StepOutcome | update_fc_insider_simple.py:209-232 | an entry succeeds exactly when its row is found, has a fourth cell and that cell, as the earlier entries left it, passes the containment check; a failure is appended under the entry's id (or `Unknown`) and changes nothing else; a success rewrites exactly that cell and the id advances by the blocks written |
| SimpleUpdate.EditTarget | update_fc_insider_simple.py:221-224 | the cell edit seen on the whole table: it fails with a text mismatch and changes nothing exactly when the check fails; otherwise only that cell changes, to its rewritten form, and the advanced id is returned |
| SimpleUpdate.ApplyEntry | update_fc_insider_simple.py:209-232 | one pass of the `try` block does to the cells, the count, the failure list and the revision id what `Step` says |
| SimpleUpdate.UpdateTranslations | update_fc_insider_simple.py:176-234 | with revision ids from 0, the final cells, the success count, the failures in order and the next id are those of `Batch` over all entries |
| SimpleUpdate.RestoredChildren | update_fc_insider_simple.py:247-250 | every child of a paragraph is restored in place; the count is unchanged |
| SimpleUpdate.RestoredParagraphs | update_fc_insider_simple.py:245-250 | every paragraph is restored; the count is unchanged |
| SimpleUpdate.RestoredRunReads | update_fc_insider_simple.py:249-250 | a restored run reads as the restored text, each `\r` read back as `\n`, and keeps its properties |
| SimpleUpdate.RestoredRunIdempotent | update_fc_insider_simple.py:249-250 | restoring a run twice is restoring it once |
| SimpleUpdate.RestoredParagraphsIdempotent | update_fc_insider_simple.py:237-252 | restoring a document twice changes nothing more |
| SimpleUpdate.RestoredChildrenText | update_fc_insider_simple.py:248-250 | the text of a paragraph's direct runs after restoring is the restored text, each `\r` read back as `\n` |
| SimpleUpdate.RestoredCellText | update_fc_insider_simple.py:237-252 | after restoring, `cell.text` is the restored text (each `\r` read back as `\n`) and holds no `⟨`/`⟩` |
| SimpleUpdate.RestoreCell | update_fc_insider_simple.py:245-250 | the loop restores every direct run of every paragraph of one cell |
| SimpleUpdate.RestoreRow | update_fc_insider_simple.py:244-250 | every cell of a row is restored exactly once, even when cells are shared |
| SimpleUpdate.RestoreTable | update_fc_insider_simple.py:243-250 | every cell of a table is restored |
| SimpleUpdate.RestoreTagsInDocument | update_fc_insider_simple.py:237-252 | every cell of every table ends up with its paragraphs restored from its original ones |
| TrackChanges.BlankedChildren | track_changes.py:165-167 | blanking keeps the child count and blanks each child in place |
| TrackChanges.NextId | track_changes.py:125-201 | the returned revision id grows by 0, 1 or 2 |
| TrackChanges.NoRunNodes | track_changes.py:165-167 | a child list without runs has no run child |
| TrackChanges.BlankingIsIdle | track_changes.py:151-167 | once runs are removed, the later loop that sets each run's text to `''` finds nothing to change |
| TrackChanges.RewriteShape | track_changes.py:139-199 | only paragraph 0 changes: its runs, revisions, hyperlinks and bookmarks go, its other children stay in order, and the unformatted del/ins blocks follow |
| TrackChanges.NextIdCounts | track_changes.py:131-201 | a cell without paragraphs returns the id unchanged; otherwise the id grows by one for a non-empty stripped cell text and one for a non-blank new text |
| TrackChanges.BlocksReadBack | track_changes.py:45-123 | the del block reads back the original text as `w:delText`, the ins block the new text as `w:t` (no tag protection here) |
| TrackChanges.BlocksUnformatted | track_changes.py:45-123 | every created block holds one run without `w:rPr` |
| TrackChanges.RewriteReadsBack | track_changes.py:125-201 | paragraph 0 of the rewritten cell reads as `""`; its deleted text is the old stripped cell text and its inserted text the new text when not blank; no old text is checked |
| TrackChanges.BlankRunTexts | track_changes.py:165-167 | the loop blanks each direct run's text in one paragraph and nothing else |
| TrackChanges.ReplaceCell | track_changes.py:125-201 | the method performs the rewrite of the specification function and returns the advanced id |
| TrackChanges.RowAt | track_changes.py:271-281 | Python indexing of `table.rows`: a negative index counts from the end, and one below `-len` has no row |
| TrackChanges.CountProcessed | track_changes.py:263-275 | the number of revisions that have both keys and whose row index passes the range check is at most the number of revisions |
| TrackChanges.Step | track_changes.py:261-305 | a pass ends without error exactly when no earlier pass raised, its revision has both keys, and its target is reachable or skipped; after an error nothing changes; only cells of the fourth column can change |
| TrackChanges.StepWritten | track_changes.py:271-305 | a pass appends at most two blocks, none when skipped or after an error, with consecutive ids from the counter, and moves the counter past them |
| TrackChanges.Batch | track_changes.py:255-305 | the first n revisions end without error exactly when none lacks a key or has an unreachable target; the blocks written carry the ids 0, 1, 2, ... in order, the counter is their number, at most two per revision processed, and cells outside the fourth column never change |
| TrackChanges.BatchStopped | track_changes.py:261-305 | once a revision has raised, the later ones change nothing |
| TrackChanges.StepOutcome | track_changes.py:263-305 | an entry without `row_index`, or with it but without `revised_text`, raises a `KeyError` for that key with nothing else changed; a row index at or past the row count is skipped with nothing changed; an index no row has or a row with fewer than four cells raises the matching error with the cells and the counter unchanged; otherwise the fourth cell, as the earlier revisions left it, is rewritten with the new text and the counter moves past its blocks |
| TrackChanges.EditTarget | track_changes.py:293-305 | the cell rewrite seen on the whole table: only that cell changes, to its rewritten form, and the advanced id is returned |
| TrackChanges.ApplyRevision | track_changes.py:263-305 | one pass of the loop does to the cells what `Step` says and returns its counter, or its error |
| TrackChanges.ApplyRevisions | track_changes.py:255-305 | with ids from 0, the final cells and the outcome (the final counter, or the error that stopped the loop with the cells the earlier revisions made) are those of `Batch` over all revisions |
| TrackChanges.KeyErrorStops | track_changes.py:261-265 | an entry lacking a key ends the batch with the `KeyError` for that key, and the cells, counter and blocks stay as the entries before it left them, whatever entries follow |
| TrackChanges.ApplyTrackChanges | track_changes.py:237-305 | a document without tables fails with the `ValueError` and changes nothing; otherwise the first table gets exactly what `ApplyRevisions` does |
| LineBreaks.EntityShape | scripts/handle_text_with_linebreaks.py:36-41 | each of the five entities starts with `&`, ends with its only `;`, and holds no other `&` and no markup character |
| LineBreaks.EntityNotPrefix | scripts/handle_text_with_linebreaks.py:36-41 | no entity is a prefix of another entity's text, so decoding one kind never eats another |
| LineBreaks.XmlEscapeAppend | scripts/handle_text_with_linebreaks.py:34-41 | escaping a concatenation is concatenating the escaped parts |
| LineBreaks.EscapeOther | scripts/handle_text_with_linebreaks.py:34-41 | a character other than `& < > " '` is kept as it is |
| LineBreaks.EscapeSpecial | scripts/handle_text_with_linebreaks.py:34-41 | each of `& < > " '` becomes its entity; escaping `&` first means no entity's `&` is escaped again |
| LineBreaks.XmlEscapeEncoded | scripts/handle_text_with_linebreaks.py:34-41 | the chain of five replacements is the same as escaping character by character |
| LineBreaks.EscapedHasNoMarkup | scripts/handle_text_with_linebreaks.py:34-41 | escaped text holds no `<`, `>`, `"` or `'` |
| LineBreaks.EscapedAmpersands | scripts/handle_text_with_linebreaks.py:34-41 | every `&` in escaped text starts an entity |
| LineBreaks.Origin | scripts/handle_text_with_linebreaks.py:34-41 | each position of the escaped text comes from a position of the input |
| LineBreaks.EncodedAmpersandAt | scripts/handle_text_with_linebreaks.py:34-41 | an `&` at a position of the escaped text starts the entity of the character it came from |
| LineBreaks.EscapeIdentity | scripts/handle_text_with_linebreaks.py:34-41 | text without the five special characters is returned unchanged |
| LineBreaks.UnescapeEscape | scripts/handle_text_with_linebreaks.py:34-41 | decoding the entities (`&amp;` last) gives the original text back: escaping loses nothing |
| LineBreaks.EscapedParts | scripts/handle_text_with_linebreaks.py:50-57 | each line is escaped on its own |
| LineBreaks.Parsed | scripts/handle_text_with_linebreaks.py:132-133 | parsing the run markup reads each `w:t` back item by item, through the XML line-end normalisation and the entities |
| LineBreaks.LineEndsWithoutLf | scripts/handle_text_with_linebreaks.py:133 | on text without a line feed, the parser's line-end normalisation (section 2.11 of XML 1.0) turns each carriage return into a line feed |
| LineBreaks.EncodedCrAsLf | scripts/handle_text_with_linebreaks.py:34-41 | escaping commutes with turning carriage returns into line feeds |
| LineBreaks.ParsedPiece | scripts/handle_text_with_linebreaks.py:56-57 | an escaped line without line feeds parses back to the line with each carriage return read as a line feed |
| LineBreaks.EscapeEmptyIff | scripts/handle_text_with_linebreaks.py:56 | a line escapes to `""` exactly when it is empty, so escaping does not change which lines get a `w:t` |
| LineBreaks.PartXmlDescribes | scripts/handle_text_with_linebreaks.py:56-57 | the markup for one line is one `w:t xml:space="preserve"` holding the escaped line, or nothing for an empty line |
| LineBreaks.ItemsXmlAroundBr | scripts/handle_text_with_linebreaks.py:53-55 | a line break is written as `<w:br/>` between the markup of the lines around it |
| LineBreaks.PartsXmlDescribes | scripts/handle_text_with_linebreaks.py:50-57 | the markup for the lines is the escaped lines as `w:t` elements with `<w:br/>` between consecutive lines |
| LineBreaks.RunXmlDescribes | scripts/handle_text_with_linebreaks.py:44-61 | the run markup is `<w:r ...>`, the line items, then `</w:r>` |
| LineBreaks.PiecesItemsCounts | scripts/handle_text_with_linebreaks.py:50-57 | n lines give n−1 breaks and one `w:t` per non-empty line |
| LineBreaks.NonEmptyEscaped | scripts/handle_text_with_linebreaks.py:56 | escaping keeps exactly the non-empty lines non-empty |
| LineBreaks.RunCounts | scripts/handle_text_with_linebreaks.py:44-61 | the run holds one `<w:br/>` per line break of the text and the escaped non-empty lines as its `w:t` texts, in order |
| LineBreaks.CrAsLfJoin | scripts/handle_text_with_linebreaks.py:50-57 | reading each line's carriage returns as line feeds and joining the lines with line feeds is reading the joined text that way |
| LineBreaks.ParsedPieces | scripts/handle_text_with_linebreaks.py:44-61 | the parsed run items are the line items the `run.text` setter would write for the lines with carriage returns read as line feeds |
| LineBreaks.ParsedRun | scripts/handle_text_with_linebreaks.py:44-61 | parsing the run built from a text gives the items of that text split at line feeds, carriage returns read as line feeds; for text without carriage returns, exactly the items of the text |
| LineBreaks.RunReadsBack | scripts/handle_text_with_linebreaks.py:44-61 | the parsed run reads back as the original text with every carriage return turned into a line feed |
| LineBreaks.RunReadsBackIff | scripts/handle_text_with_linebreaks.py:44-61 | the parsed run reads back as exactly the original text if and only if the text has no carriage return |
| LineBreaks.AsDeleted | scripts/handle_text_with_linebreaks.py:134-136 | renaming keeps the item count and turns each `w:t` into `w:delText` in place |
| LineBreaks.RenameToDelText | scripts/handle_text_with_linebreaks.py:134-136 | the loop renames every `w:t` of the run to `w:delText` |
| LineBreaks.ShownAroundBr | scripts/handle_text_with_linebreaks.py:134-136 | the deleted text shows line breaks where the `w:br` elements are |
| LineBreaks.ShownPiece | scripts/handle_text_with_linebreaks.py:134-136 | a renamed line shows as the line |
| LineBreaks.AsDeletedPiecesShown | scripts/handle_text_with_linebreaks.py:134-136 | the renamed lines show as the lines joined with line breaks |
| LineBreaks.AsDeletedNoT | scripts/handle_text_with_linebreaks.py:134-136 | no `w:t` is left after the renaming |
| LineBreaks.AsDeletedKeepsBreaks | scripts/handle_text_with_linebreaks.py:134-136 | the renaming keeps every `w:br` |
| LineBreaks.DeletionRunReadsBack | scripts/handle_text_with_linebreaks.py:131-139 | the deletion run shows the old text with carriage returns read as line feeds, one `w:br` per line feed of the old text, and holds no `w:t` |
| LineBreaks.InsertionRunReadsBack | scripts/handle_text_with_linebreaks.py:148-153 | the insertion run reads back as the new text with carriage returns read as line feeds, with one `w:br` per line feed of the new text |
| LineBreaks.BlocksIds | scripts/handle_text_with_linebreaks.py:126-153 | the edit always appends exactly a del with id `revision_id` and an ins with id `revision_id + 1`, holding the two runs |
| LineBreaks.WithoutRunsThenOthers | scripts/handle_text_with_linebreaks.py:113-116 | removing the direct runs keeps every other child in order |
| LineBreaks.ClearedBare | scripts/handle_text_with_linebreaks.py:64-86 | after clearing tracked changes and removing runs, a paragraph has no runs and no revisions, and its other children keep their order |
| LineBreaks.CleanedShape | scripts/handle_text_with_linebreaks.py:111-120 | every paragraph is bare after the clearing, and a cell without paragraphs gets one |
| LineBreaks.EditShape | scripts/handle_text_with_linebreaks.py:89-162 | paragraph 0 ends with the del and ins blocks and is otherwise bare; every other paragraph is bare; the non-run children keep their order |
| LineBreaks.ApplyTrackedChangeWithLinebreaks | scripts/handle_text_with_linebreaks.py:89-162 | the edit always succeeds (no old text is checked) and leaves the cell as the specification function states |
| LineBreaks.FindFrom | scripts/handle_text_with_linebreaks.py:166-177 | a row found lies in the table at or after the starting row and has at least three cells |
| LineBreaks.FindFromFound | scripts/handle_text_with_linebreaks.py:168-175 | the row found has at least three cells and a stripped first cell equal to the segment id, and no row scanned before it has both |
| LineBreaks.FindFromMissing | scripts/handle_text_with_linebreaks.py:168-177 | nothing is found exactly when no row from the start has at least three cells and a matching first cell |
| LineBreaks.FindCellBySegmentId | scripts/handle_text_with_linebreaks.py:166-177 | the scan from row 0, header included, ends as `FindFrom` does on the cells as they are; a row without cells, or a matching row with fewer than three cells, is passed over |
| LineBreaks.Step | scripts/handle_text_with_linebreaks.py:215-244 | an entry either adds one to the count or changes nothing, and only cells of the third column can change |
| LineBreaks.Batch | scripts/handle_text_with_linebreaks.py:209-244 | after n entries the count is at most n, a count of 0 leaves the cells as they were, and cells outside the third column never change |
| LineBreaks.StepOutcome | scripts/handle_text_with_linebreaks.py:223-244 | an entry counts exactly when its row is found; an entry whose row is not found changes nothing; otherwise the third cell of the row found, as the earlier entries left it, gets the line-break edit with id `1000 + 2·idx` |
| LineBreaks.EditTarget | scripts/handle_text_with_linebreaks.py:231-239 | the cell edit seen on the whole table: only that cell changes, to the line-break edit of it |
| LineBreaks.ApplyEntry | scripts/handle_text_with_linebreaks.py:215-244 | one pass of the loop body does to the cells and the count what `Step` says |
| LineBreaks.EntryIds | scripts/handle_text_with_linebreaks.py:230 | entry idx uses the ids `1000 + 2·idx` and `1000 + 2·idx + 1` |
| LineBreaks.IdsDisjoint | scripts/handle_text_with_linebreaks.py:230 | ids of different entries never collide and increase with the entry |
| LineBreaks.ApplyAll | scripts/handle_text_with_linebreaks.py:209-244 | the loop over all entries, numbered from 1, leaves the cells and the count as `Batch` over all of them from the cells as they were |
| LineBreaks.ProcessTranslations | scripts/handle_text_with_linebreaks.py:195-255 | a list, a `{"translations": ...}` wrapper or an empty object (which holds no entry) is processed, and a non-empty object without a `translations` key fails with nothing changed; the final cells and the success count are those of `Batch` over all entries from the cells as they were |
| MarkdownTable.StripAllClean | generate_translation_mapping.py:49 | stripping every cell of a row without a bar character leaves cells that are stripped and hold no bar character |
| MarkdownTable.RowCellsClean | generate_translation_mapping.py:50 | the cells of a row, split at the bar and cut at both ends, are stripped and hold no bar character |
| MarkdownTable.LoadMarkdownTable | generate_translation_mapping.py:21-58 | the loop over the lines computes the records of the specification scan (the same code as `parse_markdown_table`, extract_table_to_markdown.py lines 143-183) |
| MarkdownTable.RemoveCharIn | generate_translation_mapping.py:39 | after removing every bar character (or `-`) a character remains exactly when it was there and is not the removed one |
| MarkdownTable.SeparatorIff | extract_table_to_markdown.py:163 | a stripped pipe line counts as a separator exactly when it consists of bar characters, `-` and whitespace only |
| MarkdownTable.LoadStepFlag | generate_translation_mapping.py:34-56 | after one line the table is open exactly when it was open or the stripped line is a separator or header line; before it opens no record is read; once open the line adds its record, if any |
| MarkdownTable.LoadFromAppend | generate_translation_mapping.py:34-56 | scanning a + b is scanning b from the state left by a |
| MarkdownTable.LoadFromOpen | generate_translation_mapping.py:48-56 | from an open table every later line contributes exactly its own record |
| MarkdownTable.LoadedOpenIff | extract_table_to_markdown.py:157-170 | the table is open after the lines exactly when one of them is a separator or header line, and nothing is read when none is |
| MarkdownTable.LoadedAppend | extract_table_to_markdown.py:172-181 | once the table is open, the later lines add exactly their own records |
| MarkdownTable.LoadedRowsShape | generate_translation_mapping.py:48-56 | at most one record per line, and every field of a record is stripped and holds no bar character |
| TranslationMapping.NatToString | generate_translation_mapping.py:98 | `str(i)` is never empty |
| TranslationMapping.NatToStringRoundTrip | generate_translation_mapping.py:98 | `str(i)` reads back as i |
| TranslationMapping.NatToStringInjective | generate_translation_mapping.py:98 | different indices give different keys |
| TranslationMapping.NumberedKeys | generate_translation_mapping.py:98 | `{str(i): line for i, line in enumerate(lines)}` has exactly the keys `str(0)` to `str(n-1)`, each mapped to its line |
| TranslationMapping.TextTranslationsKeys | generate_translation_mapping.py:95-98 | the text format maps `str(i)` to the i-th non-blank stripped line, and has no other keys |
| TranslationMapping.LoadNewTranslationsFormats | generate_translation_mapping.py:61-101 | only `auto`, `json` and `text` are accepted; `auto` picks JSON exactly when the stripped content starts with `{`; the text format yields the numbered lines |
| TranslationMapping.ToRecord | generate_translation_mapping.py:136-140 | a mapping is written with the keys `segment_id`, `old_text` and `new_text` |
| TranslationMapping.GenerateTranslationMapping | generate_translation_mapping.py:104-142 | it fails exactly when the match mode is neither `segment_id` nor `index` and the table has a row (the check sits inside the loop) |
| TranslationMapping.ChangedRowsAscend | generate_translation_mapping.py:120-142 | the mapped rows keep table order |
| TranslationMapping.ChangedRowsIff | generate_translation_mapping.py:122-141 | a row is mapped exactly when its new text exists, is non-empty and differs from its target |
| TranslationMapping.MappingsUpToSpec | generate_translation_mapping.py:120-142 | each mapping holds its row's segment id, its target as old text and a non-empty new text different from it |
| TranslationMapping.IndexModePairsLines | generate_translation_mapping.py:129-130 | matching by index pairs row i with the i-th non-blank line of a text-format file |
| TranslationMapping.ValidStep | generate_translation_mapping.py:181-197 | the mappings so far stay valid exactly when the next one has a non-empty stripped segment id and new text and a segment id not seen before |
| TranslationMapping.RowErrors | generate_translation_mapping.py:184-197 | a row has no error exactly when its segment id and new text are non-empty and its id is not repeated; errors carry the row number |
| TranslationMapping.ValidateMappings | generate_translation_mapping.py:168-208 | the result is true exactly when the list is non-empty, every segment id and new text is non-blank and no id repeats; for a non-empty list it is true exactly when no error was recorded; rows are numbered from 1 |
| MarkitdownTables.ParseMarkdownTables | extract_table_markitdown.py:53-108 | the loop over the split lines returns exactly the records and the table count of the specification scan, for either separator pattern |
| MarkitdownTables.RuleHasTwoBars | extract_table_markitdown.py:75 | a line matching the separator regex as written holds exactly two bar characters, one at each end |
| MarkitdownTables.WideTablesReadNothing | extract_table_markitdown.py:69-107 | with the regex as written, when every pipe line holds three or more bar characters no separator or header is recognised, so no table opens, no record is read and no table is counted |
| MarkitdownTables.AsWrittenMissesTable | extract_table_markitdown.py:69-107 | with the regex as written, a header and separator of two or more columns followed by data lines yield no record and no table |
| MarkitdownTables.StandardSeparatorMissed | extract_table_markitdown.py:75 | the four-column separator line the extractors write matches the widened pattern and not the written one |
| MarkitdownTables.RuleIsIntendedRule | extract_table_markitdown.py:75 | the widened pattern accepts every line the written one accepts |
| MarkitdownTables.SeparatorClass | extract_table_markitdown.py:75-79 | a line matching the separator pattern opens a table and counts it |
| MarkitdownTables.HeaderClass | extract_table_markitdown.py:82-86 | a pipe line that is no separator but is followed by one opens the table without being read |
| MarkitdownTables.DataLineClass | extract_table_markitdown.py:88-103 | a pipe line with at least four cells that are not all empty, neither a separator nor followed by one, is read as the record of its first four cells |
| MarkitdownTables.TableClasses | extract_table_markitdown.py:69-103 | header, separator and data lines are classed as such under the widened pattern |
| MarkitdownTables.RunData | extract_table_markitdown.py:88-103 | inside a table, data rows are appended in order and nothing else in the state changes |
| MarkitdownTables.TableRun | extract_table_markitdown.py:69-103 | a header, a separator and data rows leave the table open, counted once, holding the rows in order |
| MarkitdownTables.IntendedReadsTable | extract_table_markitdown.py:53-108 | with the widened pattern, a header line, a separator and data lines yield one record per data line, in order, holding its first four stripped cells, and one table |
| MarkitdownTables.MdScannedRun | extract_table_markitdown.py:69-107 | the scan is the effect of the lines' classes applied in order |
| MarkitdownTables.MdStepCloses | extract_table_markitdown.py:105-107 | an open table closes exactly at a non-empty stripped line that does not start with a bar |
| MarkitdownTables.MdStepReads | extract_table_markitdown.py:73-103 | a line adds a record exactly when the table is open, the line is a pipe line, neither it nor the next line is a separator, its cells are not all empty and there are at least four of them; it adds at most that one record |
| MarkitdownTables.MdStepTables | extract_table_markitdown.py:75-79 | the table count grows by one exactly at a separator line |
| MarkitdownTables.MdScannedCounts | extract_table_markitdown.py:69-108 | at most one record per line read, and the table count is the number of separator lines |
| DocxToMarkdown.StrCleanTrimmed | extract_table_to_markdown.py:140 | a plain cell string is stripped and its line breaks become spaces, so the result is trimmed |
| DocxToMarkdown.CleanCellTrimmed | extract_table_to_markdown.py:123-140 | every cleaned cell, nested lists included, is trimmed |
| DocxToMarkdown.ListPartsTrimmed | extract_table_to_markdown.py:130-137 | every part collected from a list is trimmed |
| DocxToMarkdown.CleanAllTrimmed | extract_table_to_markdown.py:103 | cleaning a row keeps its length and yields trimmed cells |
| DocxToMarkdown.CleanCellNoBreak | extract_table_to_markdown.py:123-140 | a cell whose nested strings all sit inside lists or are plain strings at the top has no line break after cleaning |
| DocxToMarkdown.ListPartsNoBreak | extract_table_to_markdown.py:133-137 | parts collected from nested lists carry no line break when the items are flat |
| DocxToMarkdown.CleanAllNoBreak | extract_table_to_markdown.py:103 | cleaning a row of flat cells leaves no line break in any cell |
| DocxToMarkdown.NonEmptyKeepsOut | extract_table_to_markdown.py:138 | `filter(None, ...)` only drops parts, so a character absent from all parts stays absent |
| DocxToMarkdown.NonEmptyTrimmed | extract_table_to_markdown.py:138 | `filter(None, ...)` over stripped parts leaves only parts that are non-empty and still stripped |
| DocxToMarkdown.JoinTrimmed | extract_table_to_markdown.py:138 | `' '.join` of non-empty stripped parts is itself stripped: it neither starts nor ends with whitespace |
| DocxToMarkdown.DirectStringKeepsBreak | extract_table_to_markdown.py:137 | a string directly inside a list keeps its line break (only stripped), while a top-level string has it replaced by a space |
| DocxToMarkdown.JoinPadded | extract_table_to_markdown.py:104 | the row line puts each cell between single spaces between bars |
| DocxToMarkdown.PaddedStrip | extract_table_to_markdown.py:104 | a trimmed cell padded with one space on each side strips back to itself |
| DocxToMarkdown.RowLineReadsBack | extract_table_to_markdown.py:104 | a row line of trimmed cells without bar characters is a stripped pipe line whose cells, read back as the table loaders read them, are the original cells |
| DocxToMarkdown.EmitRows | extract_table_to_markdown.py:100-105 | the loop over the rows emits exactly the row lines of the specification |
| DocxToMarkdown.BuildMarkdown | extract_table_to_markdown.py:84-107 | the loop over the tables emits the title and then one block per table, numbered from 1 |
| DocxToMarkdown.WideRowsSpec | extract_table_to_markdown.py:100-101 | the rows emitted are, in order, exactly those with at least four cells |
| DocxToMarkdown.RowLinesSpec | extract_table_to_markdown.py:100-105 | one line per row with at least four cells, holding its first four cells cleaned |
| DocxToMarkdown.EmittedRowReadsBack | extract_table_to_markdown.py:103-104 | an emitted row whose cleaned cells hold no bar character reads back as its four cleaned cells |
| DocxToMarkdown.TableBlockLength | extract_table_to_markdown.py:88-107 | a non-empty table block has its heading, the fixed header and separator when the first row has at least four cells, one line per such row, and a blank line |
| ExtractSimple.EscapeKeepsNoSpace | extract_table_simple.py:125 | escaping bars adds no whitespace and keeps a word non-empty |
| ExtractSimple.EscapeWords | extract_table_simple.py:122-125 | escaped words stay non-empty and free of whitespace |
| ExtractSimple.EscapeJoin | extract_table_simple.py:122-125 | escaping a space-joined text escapes each word |
| ExtractSimple.EscapeBars | extract_table_simple.py:125 | escaping keeps the number of bar characters and puts a backslash before each |
| ExtractSimple.CleanTextWords | extract_table_simple.py:111-127 | the cleaned text is the escaped words joined by single spaces, and splitting it again gives those escaped words |
| ExtractSimple.CleanTextShape | extract_table_simple.py:119-122 | the cleaned text is trimmed and its only whitespace is single spaces between non-space characters |
| ExtractSimple.CleanTextNoBreaks | extract_table_simple.py:119 | no line feed or carriage return survives cleaning |
| ExtractSimple.CleanTextBars | extract_table_simple.py:125 | every bar in the cleaned text is escaped, and their number is unchanged |
| ExtractSimple.CleanTextWithoutBars | extract_table_simple.py:119-122 | without bars, cleaning only normalises whitespace |
| ExtractSimple.CleanTextEmptyIff | extract_table_simple.py:111-127 | the cleaned text is empty exactly when the input is all whitespace |
| ExtractSimple.PadCells | extract_table_simple.py:80-84 | padding appends empty cells up to four and keeps the cells given; its first four cells are the ones kept |
| ExtractSimple.ExtractRows | extract_table_simple.py:69-98 | the loop over rows 1 onward emits exactly the lines and records of the specification, and the row count is the number of records |
| ExtractSimple.EmitRow | extract_table_simple.py:72-98 | one row emits what the specification says of it |
| ExtractSimple.DataRowsNext | extract_table_simple.py:71-98 | each further row appends its own lines and records |
| ExtractSimple.ExtractTableToMarkdown | extract_table_simple.py:25-108 | no tables gives no Markdown and no records; otherwise the document and records are those of the specification |
| ExtractSimple.EmitTable | extract_table_simple.py:46-100 | one table emits its heading, the empty-table note when it has no rows, otherwise its header lines, data rows and a blank line |
| ExtractSimple.CleanRowEmptyIff | extract_table_simple.py:73-77 | a row's cleaned cells are all empty exactly when every cell is whitespace only |
| ExtractSimple.RowOutSpec | extract_table_simple.py:72-98 | a row yields no record exactly when it is blank; otherwise one line and one record whose four fields are the cleaned cells, with empty strings past the row's end |
| ExtractSimple.KeptRowsOrder | extract_table_simple.py:71 | the rows kept are in order and skip the header row |
| ExtractSimple.KeptRowsIff | extract_table_simple.py:71-77 | a data row is kept exactly when it is not blank |
| ExtractSimple.DataRowsSpec | extract_table_simple.py:69-98 | one line and one record per kept row, in order, each the output of that row |
| ExtractSimple.RowOutStep | extract_table_simple.py:76-98 | a blank row emits nothing; any other row exactly one line and one record |
| ExtractSimple.HeaderLinesReadBack | extract_table_simple.py:56-67 | read back by the Markdown reader, four or more headers give the fixed header's four column names over a separator; one to three stripped, bar-free headers read back as themselves over a separator with one `---` cell per header |
| ExtractSimple.FixedHeaderReadsBack | extract_table_simple.py:60-63 | the fixed header's cells read back as Segment ID, Status, Source and Target, and the fixed separator is a pipe line the reader takes for a separator |
| ExtractSimple.SeparatorLineShape | extract_table_simple.py:67 | the generic separator is a pipe line the table loaders recognise as a separator |
| ExtractSimple.SeparatorLineCells | extract_table_simple.py:67 | the generic separator reads back as one dash cell per header |
| ExtractSimple.RowLineBars | extract_table_simple.py:87 | a row line holds the bars of its cells plus one more than the number of cells |
| ExtractSimple.RowReadsBack | extract_table_simple.py:87-97 | read back by splitting at bars, an emitted row yields four cells plus one per escaped bar, so it reads back as its record exactly when no cell holds a bar |
| CleanTranslation.DigitLen | scripts/clean_translation_text.py:37 | the greedy digit run: all digits, and the next character is none |
| CleanTranslation.NumberPrefixFixed | scripts/clean_translation_text.py:37 | any match of the leading line-number pattern has its whitespace and digits fixed by the greedy runs, and its trailing spaces within the space run |
| CleanTranslation.SpaceLenOf | scripts/clean_translation_text.py:37 | the greedy whitespace run ends at the first non-space |
| CleanTranslation.DigitLenOf | scripts/clean_translation_text.py:37 | the greedy digit run ends at the first non-digit |
| CleanTranslation.SpaceLenAtLeast | scripts/clean_translation_text.py:37 | the greedy whitespace run covers any whitespace prefix |
| CleanTranslation.DropLineNumberSuffix | scripts/clean_translation_text.py:37 | removing the line number leaves a suffix of the line |
| CleanTranslation.DropLineNumberLongest | scripts/clean_translation_text.py:37 | the removal takes at least as much as any match of the pattern |
| CleanTranslation.DropLineNumberOnlyMatches | scripts/clean_translation_text.py:37 | the line changes only when the pattern matches, and then exactly a match is removed |
| CleanTranslation.RunsArePrefix | scripts/clean_translation_text.py:37 | whitespace, a non-empty digit run and non-empty whitespace form a match of the pattern |
| CleanTranslation.CleanLineShape | scripts/clean_translation_text.py:23-42 | a cleaned line holds no box-drawing bar and is trimmed |
| CleanTranslation.NumberOnlyLine | scripts/clean_translation_text.py:23-42 | a line of only a number and its line break cleans to nothing (the pattern needs whitespace after the digits, which the line break gives) |
| CleanTranslation.NumberTokenLen | scripts/clean_translation_text.py:56 | the length of the number token at the start never exceeds the text |
| CleanTranslation.DropNumberTokens | scripts/clean_translation_text.py:56 | removing number tokens never lengthens the text |
| CleanTranslation.DropQuotes | scripts/clean_translation_text.py:57 | removing quotes and angle brackets never lengthens the text |
| CleanTranslation.DropPageWords | scripts/clean_translation_text.py:58 | removing the page words never lengthens the text |
| CleanTranslation.ShortIsPlaceholder | scripts/clean_translation_text.py:60-61 | a text of at most three characters is a placeholder line |
| CleanTranslation.TwoTagsIsPlaceholder | scripts/clean_translation_text.py:64-66 | a text of at most 30 characters holding two `<n/>` tags is a placeholder line |
| CleanTranslation.ShortTaggedIsPlaceholder | scripts/clean_translation_text.py:64-66 | two or more tags in at most 30 characters make a placeholder line |
| CleanTranslation.TwoTagsCount | scripts/clean_translation_text.py:64 | a text holding two tags counts at least two |
| CleanTranslation.TagCountAfterTag | scripts/clean_translation_text.py:64 | a tag at the front counts once more than the rest |
| CleanTranslation.TagLenOf | scripts/clean_translation_text.py:64 | `<digits/>` matches with its full length |
| CleanTranslation.TagCountAfter | scripts/clean_translation_text.py:64 | `<digits/>` in front adds one to the count |
| CleanTranslation.TagLenShape | scripts/clean_translation_text.py:64 | a tag match fits in the text and holds no second `<` after the first character |
| CleanTranslation.TagCountAppend | scripts/clean_translation_text.py:64 | a prefix never lowers the count of the rest |
| CleanTranslation.TagCountSkip | scripts/clean_translation_text.py:64 | characters other than `<` add no tag |
| CleanTranslation.DropNumberTokensKeep | scripts/clean_translation_text.py:56 | a character that starts no number token is kept |
| CleanTranslation.DropNumberTokensTag | scripts/clean_translation_text.py:56 | a `<digits/>` tag is removed as one token |
| CleanTranslation.DropQuotesCons | scripts/clean_translation_text.py:57 | each quote or angle bracket is removed and every other character kept |
| CleanTranslation.DropPageWordsKeep | scripts/clean_translation_text.py:58 | a character that starts no page word is kept |
| CleanTranslation.DropPageWordsChinese | scripts/clean_translation_text.py:58 | `在第` and `頁` are removed |
| CleanTranslation.SpacesArePlain | scripts/clean_translation_text.py:56-58 | whitespace is untouched by the three removals |
| CleanTranslation.DropNumberTokensPlain | scripts/clean_translation_text.py:56 | plain text passes the number removal unchanged |
| CleanTranslation.DropQuotesPlain | scripts/clean_translation_text.py:57 | plain text passes the quote removal unchanged |
| CleanTranslation.DropPageWordsPlain | scripts/clean_translation_text.py:58 | plain text passes the page-word removal unchanged |
| CleanTranslation.PageReferenceTokens | scripts/clean_translation_text.py:56 | in a quoted page reference both tags are removed |
| CleanTranslation.PageReferenceQuotes | scripts/clean_translation_text.py:57 | then the quotes are removed |
| CleanTranslation.PageReferenceWords | scripts/clean_translation_text.py:58 | then `在第` and `頁` are removed, leaving only the whitespace |
| CleanTranslation.TagCountNone | scripts/clean_translation_text.py:64 | a text without `<` holds no tag |
| CleanTranslation.PlainTextPlaceholderIff | scripts/clean_translation_text.py:45-68 | for text without digits, quotes, angle brackets, `在`, `頁` or the letters o and p, a placeholder line is exactly one of at most three characters once stripped |
| CleanTranslation.PageReferenceIsPlaceholder | scripts/clean_translation_text.py:45-68 | a quoted page reference such as `"<1/>"在第 <2/> 頁` is a placeholder line |
| CleanTranslation.PageReferenceReduced | scripts/clean_translation_text.py:56-58 | such a reference reduces to whitespace |
| CleanTranslation.BlankIsPlaceholder | scripts/clean_translation_text.py:60-61 | a text that reduces to whitespace is a placeholder line |
| CleanTranslation.ClassifySpec | scripts/clean_translation_text.py:100-125 | a line is skipped as empty exactly when it cleans to nothing, as a placeholder exactly when its non-empty cleaned form is one, and otherwise kept as its cleaned form, trimmed and without box bars |
| CleanTranslation.CleanTranslationFile | scripts/clean_translation_text.py:71-136 | the total is the number of lines, and the counters and the kept lines are those of the tally of the lines' outcomes |
| CleanTranslation.TallyOfNext | scripts/clean_translation_text.py:100-125 | each further line adds its own outcome to the tally |
| CleanTranslation.CountLine | scripts/clean_translation_text.py:104-125 | one line updates the counters and the kept lines as its outcome says |
| CleanTranslation.TallyBalance | scripts/clean_translation_text.py:98-125 | empty, placeholder and cleaned lines add up to the total; truncated lines are among the cleaned; one kept line per cleaned line |
| CleanTranslation.KeptLinesSpec | scripts/clean_translation_text.py:100-124 | the kept line numbers are in order, and a line is kept exactly when its outcome is to keep it |
| CleanTranslation.KeptInOrder | scripts/clean_translation_text.py:124 | the written lines are the kept cleaned lines in input order |
| StructureAnalysis.StyleOf | analyze_word_structure_deep.py:59-66 | a run's style is `Tag` exactly when it is a Tag-styled run |
| StructureAnalysis.AnalyzeCellDeep | analyze_word_structure_deep.py:110-172 | the analysis is that of the cell's paragraphs: their count, the total number of runs over all paragraphs, one record per paragraph and the summary of all runs in order |
| StructureAnalysis.AnalyzeRuns | analyze_word_structure_deep.py:140-166 | one record per run of the paragraph, and the run total and summary carried on over the runs so far |
| StructureAnalysis.SummaryCounts | analyze_word_structure_deep.py:151-162 | the Tag and non-Tag counts add up to the number of runs, and each flag is set exactly when its count is positive |
| StructureAnalysis.SummaryFlags | analyze_word_structure_deep.py:158-162 | `has_tag_style` holds exactly when some run is Tag-styled, `has_non_tag_style` exactly when some run is not |
| StructureAnalysis.SummaryTextLength | analyze_word_structure_deep.py:152-153 | `total_text_length` is the length of the runs' texts joined |
| StructureAnalysis.SummaryStyles | analyze_word_structure_deep.py:155-156 | `styles_found` holds exactly the non-empty style names of the runs |
| StructureAnalysis.AnalysisTotals | analyze_word_structure_deep.py:131-151 | `total_runs` is the sum of the paragraphs' run counts and `total_text_length` the sum of their text lengths |
| StructureAnalysis.GenerateSolutionRecommendation | analyze_word_structure_deep.py:247-303 | the advice computed by the loop over the run records equals the decision rule, the run total being read from the analysis |
| StructureAnalysis.RecommendationRule | analyze_word_structure_deep.py:259-299 | no Tag runs gives the all-text strategy; only Tag runs, or more Tag text than other text, gives tag-only; a mix with no more Tag text gives non-tag-only; the mixed finding exactly when both kinds occur; the XML hint exactly with more than ten runs |
| StructureAnalysis.CellLengthsSplit | analyze_word_structure_deep.py:275-289 | the Tag and non-Tag text lengths split the cell's total text length, so choosing tag-only on a mixed cell means the Tag runs hold more than half the text |
| StructureAnalysis.StyleLengthsTotal | analyze_word_structure_deep.py:278-284 | when every paragraph record's run lengths add up to its text length, the two style lengths add up to the sum of the paragraph lengths |
| StructureAnalysis.AsWrittenAlwaysFails | analyze_word_structure_deep.py:297 | as written the advice is never returned: every analysis ends in `KeyError`, because the summary has no `total_runs` key |
| StructureAnalysis.FindSampleRow | analyze_word_structure_deep.py:366-381 | the result is the first data row after the header with at least four cells whose stripped first cell is the segment id, and none is found only when no data row matches |

## Findings

| source | as written | input that shows it | evidently intended | confidence | as-written member | corrected member |
|---|---|---|---|---|---|---|
| analyze_word_structure_deep.py:297 | the XML hint reads `total_runs` from the summary, which has no such key, so `generate_solution_recommendation` raises `KeyError` | any analysis, for example that of a cell with no paragraphs | read `analysis['total_runs']`, as lines 206 and 429 do, and give the hint for more than ten runs | high, not executed | StructureAnalysis.AsWrittenAlwaysFails | StructureAnalysis.RecommendationRule |
| update_fc_insider_v3.py:161-205 | the blocks are built as lxml elements, the captured `w:rPr` is parsed with `minidom` and appended to an lxml run (lines 170 and 188), and each block is appended to the `minidom` paragraph with `append` (lines 200 and 204), which a `minidom` element does not have; so the first block raises, after lines 64-70 removed the paragraph's runs | an entry whose row and paragraph are found, that passes the containment check, and whose old or new text is not blank | append the del/ins blocks to the paragraph, as the other scripts do | high, not executed | V3Update.AsWrittenLosesText | V3Update.EditShape |
| extract_table_markitdown.py:75 | the separator regex allows only whitespace, `-` and `:` between the outer bar characters, so no separator of two or more columns matches, and a table whose lines all hold three or more bar characters yields no rows | a header line, then the separator line `DocxToMarkdown.SeparatorLine` of the four-column tables the extractors write, then data rows | separator lines with inner bar characters recognised, so the data rows are read | high, not executed | MarkitdownTables.AsWrittenMissesTable | MarkitdownTables.IntendedReadsTable |

## Left out

- Document libraries: python-docx, lxml and minidom objects, opening and saving documents, `parse_xml` and `OxmlElement` are replaced by the `Docx` datatypes. What `paragraph.runs` and `cell.text` expose is fixed as stated above; whether the library also sees runs nested in `w:ins`, `w:del` or `w:hyperlink` is hidden library behaviour.
- `enable_track_changes` and `has_track_changes_enabled` are not modelled: they touch the settings part inside bare `except` blocks, outside the table.
- Command-line parsing, `main`, printing, exit codes, verbose diagnostics and `preview_changes` are left out: they only report.
- The `restore_tags` pass in `batch_update` (update_fc_insider_v3.py:299-305) is not modelled. It rewrites the word/document.xml file on disk as raw text before `doc.save()` at lines 308-314, and what that save writes over it is up to the `Document` class, which is not part of this model. The V3 blocks therefore hold the protected text (`⟨`, `⟩`) as the entries give it, and the model makes no claim about the saved file.
- File reading and writing are left out. A text file is given as its list of lines. The Markdown that a script writes is returned as its list of lines.
- A translations file is given already decoded, and each script accepts its own shapes:
  - scripts/update_fc_insider_tracked.py and scripts/handle_text_with_linebreaks.py take a list of records or an object wrapping the list under `translations`; `Translations.TranslationList` models that choice, an empty object included;
  - update_fc_insider_v3.py, update_fc_insider_withtags.py, update_fc_insider_simple.py and update_fc_insider_fuzzy.py call `data.get` on the top level, so a bare list raises and only the wrapping object works; their `UpdateTranslations` takes the unwrapped list;
  - update_fc_insider_smart.py and update_fc_insider_reverse.py iterate over the top level as it is, so only a bare list works; their `UpdateTranslations` takes that list.
- The time stamp of a revision (`datetime.now()`) is a parameter.
- The XML that update_fc_insider_smart.py:286-308, scripts/update_fc_insider_tracked.py:221-243 and update_fc_insider_reverse.py:199-224 build from f-strings is modelled as the element it describes, with the text and the attributes as its payload. What the XML parser does to them is a library effect and is not modelled, so `SmartUpdate.ReplaceCellSmart`, `TrackedUpdate.ReplaceCellTracked` and `ReverseUpdate.ReplaceCell` succeed where the script raises:
  - the text: the parser raises on a raw `<` or `&` or on a control character that XML 1.0 forbids, and it turns each carriage return into a line feed (section 2.11 of XML 1.0);
  - the `w:author` attribute, which update_fc_insider_smart.py:287 and :299, scripts/update_fc_insider_tracked.py:222 and :234 and update_fc_insider_reverse.py:200 and :212 write without escaping: an author holding `&`, `<` or `"` makes the parser raise. The `w:date` attribute is a formatted time stamp and holds none of these.
- The rPr element that update_fc_insider_fuzzy.py and update_fc_insider_simple.py append to both the deletion run and the insertion run: lxml moves a node appended twice. The model copies the formatting into each block and makes no claim about which run ends up holding it.
- V3Update.EditShape, V3Update.EditIds, V3Update.BlocksCarryFormat, V3Update.ReplaceInCell and the V3Update loop members (`Step`, `StepOutcome`, `ApplyEntry`, `UpdateTranslations`) state the edit the script evidently intends. As written, an edit with a block to write raises after the runs were removed; `V3Update.EditCellAsWritten` and `V3Update.AsWrittenLosesText` state that (see "## Findings").
- `html.unescape` in update_fc_insider_v3.py is a function parameter of the model.
- `replace_paragraph_with_xml` in update_fc_insider_v3.py is not modelled: nothing in the script calls it.
- The `Document` class that update_fc_insider_v3.py imports from `scripts.document` is not part of this model. The table rows and the author it supplies are parameters.
- The float division in `fuzzy_match` is not modelled: the threshold is a fraction, and the comparison is done by integer cross-multiplication.
- Regular expressions are hand-coded for the fixed patterns the scripts use. `\d` is taken as the ASCII digits, `\s` as the whitespace of `str.isspace()`, and `lower()` and `re.IGNORECASE` as ASCII case folding.
- `analyze_cell_structure` in update_fc_insider_smart.py is not modelled: it is a diagnostic printout.
- In analyze_word_structure_deep.py the following are not modelled:
  - the properties `get_run_properties` reads beyond the style name;
  - `print_analysis_report`, `export_cell_xml`, and the branch of `main` that analyses every row;
  - the display label `cell_name`.
- In analyze_word_structure_deep.py, `styles_found` is kept as a set, so the order of the list it becomes is not modelled.
- In analyze_word_structure_deep.py, the advice is a record of finding, strategy and XML hint rather than its text lines.
- The external converters (pandoc, MarkItDown, docx2python) are not modelled. Their output is the input of the model: Markdown text, or the nested cell lists of docx2python.
- `extract_with_markitdown` and `extract_with_pandoc` are not modelled: they only call those converters.
- `scripts/run_complete_workflow.py`, `scripts/extract_table_markitdown_simple.py`, `simple_document.py`, `diagnose_word_document.py` and `debug_markdown_parsing.py` are not part of this model.
- The JSON branch of `load_new_translations` returns the content undecoded: decoding JSON is library behaviour.
- LineBreaks.ApplyTrackedChangeWithLinebreaks: a control character that XML 1.0 forbids in the old or new text makes `parse_xml` raise in scripts/handle_text_with_linebreaks.py:133 and :151. That failure is not modelled, so the edit always succeeds. The parser's carriage-return normalisation is modelled (`XmlLineEnds`).
- WithTagsUpdate.Batch: the final revision id is only bounded by twice the number of successes. The exact value depends on how many of each edit's blocks were written, and `WithTagsUpdate.StepOutcome` states it entry by entry.
- SimpleUpdate.Batch: the final revision id is only bounded by twice the number of successes, for the same reason; `SimpleUpdate.StepOutcome` states it entry by entry.
- FuzzyUpdate.Batch: the final revision id is only bounded by twice the number of successes, for the same reason; `FuzzyUpdate.StepOutcome` states it entry by entry.
- TrackChanges.ApplyTrackChanges: a `row_index` that is present but not an integer, or a `revised_text` that is present but not a string, is not modelled. Such a value makes the script raise a `TypeError` or an `AttributeError` later in the pass; the model's entries hold an integer and a string, or lack the key.
- TrackChanges.Batch: the number of blocks is only bounded by twice the number of processed revisions. Whether a block is written depends on each cell's text, and `TrackChanges.StepOutcome` states it revision by revision.
- LineBreaks.Batch: the count is only bounded by the number of entries; `LineBreaks.StepOutcome` states which entries count.
