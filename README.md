# Global Culture Project, modelled in Dafny

The Global Culture Project turns ethnographic source documents into a catalogue of cultures.
Its pipeline has these stages:

- It cuts plain text into culture segments. A line that looks like a culture heading starts a
  new segment.
- It cuts each segment into named sections.
- It stamps each segment with provenance: the source file, a run id and a segment id.
- It scores each segment's confidence and flags the weak ones for review.
- It merges each batch into a repository table with exact duplicates dropped.
- It exports the segments as Markdown with YAML front matter.

Around the pipeline sit small catalogue tools:

- a parser for bold-labelled profile text;
- a placeholder AI enrichment of a culture record;
- validators and question scaffolds for catalogue entries with missing fields;
- a language-name to BCP 47 tag table;
- a region-code to flag-emoji encoder;
- the non-UI helpers of the catalogue viewer: the next field to fill, the missing-field summary,
  the advanced search, the schema check and the colour themes.

This project models those parts as Dafny values and functions. Where the Python code works by
looping and updating variables, the model is a Dafny method with its loop. Each such method is
proved equal to a specification function, and the properties the code promises are proved about
that function.

- The Python dictionaries a stage fills in are `map<string, Value>` records (`Values.Record`).
- `Value` is a JSON-like scalar: a string, an integer, a boolean flag or `None`.
- Python truthiness (`Values.Truthy`) and `str()` (`Values.Repr`) are written out explicitly,
  because the source's "missing or empty" tests depend on them.
- String helpers are `seq<char>` functions in `Strings`: `strip`, ASCII `upper`/`lower`,
  `split` and `join`, and `splitlines` on `\n`.
- Generic sequence facts are in `Seqs`: `Filter`, subsequence, counting, and duplicate removal
  that keeps the first copy.

Where the code and its own tests disagree, the model follows the code:

- `tests/test_utils.py:8` expects `"not a title"` not to be a culture title. The line is
  upper-cased before the heading pattern is applied, so it is one
  (`CultureSegmenter.LowerCasePhraseIsTitle`).
- `tests/test_segment_utils.py:11` expects two segments, and the code does give two. Lines
  12-13 expect the titles `"JAPANESE"` and `"FRENCH"`. But `"INTRO"`, `"BONJOUR"` and
  `"OUI OUI"` also match the heading pattern, so they join the title runs. The code's titles are
  `"JAPANESE Intro"` and `"FRENCH Bonjour Oui oui"`. The model does not restate that test.
- `tests/test_utils.py:15` expects the title `"JAPANESE"`. The next line, `"Orientation"`,
  matches the heading pattern once upper-cased (`CultureSegmenter.SectionWordIsTitle`), so it
  joins the title run and the code's title is `"JAPANESE Orientation"`.
- `tests/test_utils.py:21` expects `truncate_for_gpt` to shorten a 4000-character text without
  an encoder. The text is under the 6000-character limit, so the code returns it whole
  (`CultureSegmenter.TruncateForGpt`).

## Model

| member | source | states |
|---|---|---|
| CultureSegmenter.TitleIgnoresCase | utils.py:5-12 | a stripped line longer than 3 characters made of ASCII letters, whitespace and hyphens and starting with a letter, in either case, is a title; a line that is not a known culture is a title only then |
| CultureSegmenter.IsCultureTitle | utils.py:5-12 | a line whose upper-cased strip is a known culture is a title; a title that is not a known culture strips to more than 3 characters and starts with an ASCII letter |
| CultureSegmenter.LowerCasePhraseIsTitle | utils.py:9-12 | `"not a title"` is a culture title, because the heading pattern is applied to the upper-cased line |
| CultureSegmenter.SectionWordIsTitle | utils.py:5-12 | `"Orientation"` is a culture title when only `"JAPANESE"` is known, because the heading pattern is applied to the upper-cased line |
| CultureSegmenter.TitleNotBlank | utils.py:9-12 | when `""` is not a known culture, no title line strips to the empty string |
| CultureSegmenter.TruncateForGpt | utils.py:57-64 | without an encoder the result is the first `min(6000, len(text))` characters of the text |
| CultureSegmenter.CultureRules | utils.py:28-33 | the line classifier is `is_culture_title` over the known cultures; a run of title lines is merged by stripping each line and joining with spaces |
| CultureSegmenter.CultureRulesTruthy | utils.py:29-33 | when `""` is not a known culture, every merged title is non-empty, so `if current_title` always holds once a title is seen |
| CultureSegmenter.TakeRun | utils.py:30-32 | the inner loop takes the longest run of consecutive title lines, and the run is non-empty at a title line |
| CultureSegmenter.TakeRunAllTitles | utils.py:30-32 | every line of a merged run is a title line |
| CultureSegmenter.TakeBody | utils.py:43-44 | a segment's content is the longest run of non-title lines, and it ends at a title line or at the end of the text |
| CultureSegmenter.TakeBodyHasNoTitle | utils.py:43-44 | no content line is a title line |
| CultureSegmenter.BlocksPartition | utils.py:26-45 | the title runs and their contents give back exactly the lines they were cut from, as maximal runs |
| CultureSegmenter.SegmentationPartition | utils.py:14-55 | every line of the text lands in exactly one place: the overview lead or one segment's title run or content; the segment count is the number of title runs, plus one when there is a lead |
| CultureSegmenter.SegmentCultures | utils.py:14-55 | the loop computes the exact line-by-line state machine for every input, and when `""` is not a known culture it computes the declarative segmentation: an optional "Overview" of the lead, then one segment per title run |
| CultureSegmenter.FoldIsSegmentation | utils.py:26-54 | the state machine and the declarative segmentation agree whenever merged titles are non-empty |
| CultureSegmenter.NoTitlesOneOverview | utils.py:46-54 | text without any title line becomes a single "Overview" segment of all its lines, and empty text gives no segment |
| CultureSegmenter.OrphanNeedsBlankTitle | utils.py:48-50 | the branch that appends trailing text to the previous segment needs a title that strips to `""`: otherwise a title is open or no segment exists |
| SegmentByCulture.KnownCulturesFrom | scripts/segment_by_culture.py:25-31 | the known-culture set is exactly the upper-cased stripped non-blank lines of the file, so it never holds `""` |
| SegmentByCulture.SegmentCultures | scripts/segment_by_culture.py:41-89 | the script's `segment_cultures` is the utils.py loop plus logging, so the loop is modelled once and run here over the script's own known cultures: its segments are the utils.py fold, and the declarative segmentation when `""` is not a known culture |
| SegmentByCulture.LoadedCulturesSegmentation | scripts/segment_by_culture.py:25-39 | with the cultures the loader reads, the segmenting loop yields the declarative segmentation |
| SegmentByCulture.Flush | scripts/segment_by_culture.py:178-179 | the pending section is emitted only when it collected lines |
| SegmentByCulture.IsSectionHeader | scripts/segment_by_culture.py:174-177 | a line whose strip is one of the nine listed headings is a header; any other header has 5 to 8 words and an upper-case letter |
| SegmentByCulture.SegmentSections | scripts/segment_by_culture.py:168-186 | the loop over the lines returns one section per group of the header-delimited grouping, in order |
| SegmentByCulture.GroupsConserveLines | scripts/segment_by_culture.py:173-185 | the groups hold the pending lines followed by exactly the non-header lines, in order, none lost or repeated |
| SegmentByCulture.SectionsKeepBodyLines | scripts/segment_by_culture.py:168-186 | the sections' lines are exactly the non-header lines of the content, in order |
| SegmentByCulture.SectionsHaveNoHeaders | scripts/segment_by_culture.py:174-181 | no header line is part of any section |
| SegmentByCulture.SectionsNotEmpty | scripts/segment_by_culture.py:178-185 | every emitted section holds at least one line |
| SegmentByCulture.SectionNames | scripts/segment_by_culture.py:171-180 | each section is named "Uncategorized" or after a stripped header line of the content |
| SegmentByCulture.LeadingTextUncategorized | scripts/segment_by_culture.py:171-183 | content that does not open with a header starts with an "Uncategorized" section |
| SegmentByCulture.HeaderAfterHeaderEmitsNothing | scripts/segment_by_culture.py:174-181 | a header directly followed by another header emits no section for the first one |
| SegmentByCulture.ListedHeadingNotTitleCased | scripts/segment_by_culture.py:174-177 | "Marriage and Family" is not title-cased; it is a header only because it is listed |
| SegmentByCulture.ApplyRule | scripts/segment_by_culture.py:275-280 | applying a matching rule keeps the four enrichment keys, and a field the rule omits keeps its value |
| SegmentByCulture.EnrichCulture | scripts/segment_by_culture.py:266-281 | the loop starts from the defaults and applies every matching rule in list order |
| SegmentByCulture.EnrichStep | scripts/segment_by_culture.py:273-280 | visiting one more rule applies it when its match text occurs in the title, ignoring case, and otherwise changes nothing |
| SegmentByCulture.LaterRuleWins | scripts/segment_by_culture.py:273-280 | the last matching rule that sets a key decides that key's value |
| SegmentByCulture.UnsetKeyKeepsDefault | scripts/segment_by_culture.py:267-280 | a key that no matching rule sets keeps its default |
| SegmentByCulture.NoMatchGivesDefaults | scripts/segment_by_culture.py:267-274 | with no matching rule the enrichment is exactly the defaults |
| SegmentByCulture.ConfidenceScore | scripts/segment_by_culture.py:145-151 | "low" iff some value is "unknown" in any case, "medium" iff none is and the content is under 300 characters, "high" iff neither |
| SegmentByCulture.NoMatchIsLow | scripts/segment_by_culture.py:145-147 | a title that no rule matches scores "low" whatever its content |
| SegmentByCulture.EnrichLanguageServices | scripts/segment_by_culture.py:165-166 | the services entry is the one stored under the lower-cased culture name, else the empty entry |
| SegmentByCulture.LanguageServicesIgnoreCase | scripts/segment_by_culture.py:165-166 | the lookup does not depend on the case of the culture name |
| SegmentTextExtraction.SegmentRows | scripts/segment_text_extraction.py:20-50 | the loop over the rows returns the records of the row-by-row fold |
| SegmentTextExtraction.IsAllCaps | scripts/segment_text_extraction.py:17-18 | a heading candidate iff upper-casing leaves the text unchanged, lower-casing changes it (it has a cased letter) and it has at most four words |
| SegmentTextExtraction.BlankRowSkipped | scripts/segment_text_extraction.py:26-28 | a blank row, wherever it stands, changes neither the records nor the current culture or section |
| SegmentTextExtraction.RecordPerBodyRow | scripts/segment_text_extraction.py:36-48 | exactly one record per body row, in order; headings, section titles and blank rows emit nothing |
| SegmentTextExtraction.BodyPositions | scripts/segment_text_extraction.py:36-48 | the positions of the body rows: increasing, each one a body row, and every body row among them |
| SegmentTextExtraction.RecordContext | scripts/segment_text_extraction.py:20-48 | record `k` is made at the `k`-th body row: that row's stripped text and file columns, with the culture and section current when that row is read |
| SegmentTextExtraction.RecordCultureAndSection | scripts/segment_text_extraction.py:31-48 | the culture of record `k` is `None` when no heading precedes its row and otherwise the last heading before it; its section is the last heading-or-title before its row when that is a section title, and `None` otherwise |
| SegmentTextExtraction.CultureIsLastHeading | scripts/segment_text_extraction.py:31-33 | the current culture is `None` until the first heading row, and afterwards the stripped text of the last heading row |
| SegmentTextExtraction.SectionIsLastTitle | scripts/segment_text_extraction.py:31-35 | the current section is the text of the last heading or section-title row when that row is a section title, and `None` otherwise |
| SegmentTextExtraction.HeadingResetsSection | scripts/segment_text_extraction.py:31-33 | a heading row sets the culture, clears the section and emits nothing |
| SegmentTextExtraction.SectionTitlesAreNotHeadings | scripts/segment_text_extraction.py:11-18 | no listed section title is taken for a culture heading, so each one sets the section |
| Core.SanitizeTitle | core.py:58 | the title keeps its length, every unsafe file-name character becomes `_`, and every other character is kept |
| Core.SafeFilename | core.py:57-61 | the file name is the sanitized title followed by `_` and the first six characters of the id when there is one, then `.md` |
| Core.SafeFilenameIdempotent | core.py:57-61 | sanitizing an already sanitized title gives the same file name |
| Core.Basename | core.py:67 | the base name holds no `/` |
| Core.BasenameIsLastComponent | core.py:67 | the base name is the longest slash-free suffix of the path |
| Core.BasenameIdempotent | core.py:67 | a base name is its own base name |
| Core.EnrichMetadata | core.py:66-70 | the segment gains exactly `source_file` (the base name of the path), `run_id` (the timestamp) and a fresh `segment_id`; every other key keeps its value |
| Core.AssignedConfidence | core.py:102-108 | a stored quality score is copied; otherwise "medium" iff the summary is under 100 characters or ends in "...", and "high" iff not |
| Core.PostprocessOne | core.py:98-113 | the loop body adds exactly `segment_id`, `confidence_score` and `needs_attention`: an existing id is kept and a fresh one used only when absent, the confidence is the assigned one and is "low" only when copied from a "low" quality score, and the flag is the attention test on the result; other keys keep their values |
| Core.PostprocessSegments | core.py:97-114 | every segment is post-processed in list order, and one that lacks an id gets its own fresh id |
| Core.PostprocessIdempotent | core.py:97-114 | post-processing a post-processed segment changes nothing, whatever fresh id is on offer |
| Core.PostprocessKeepsStampedId | core.py:66-70 | the segment id stamped by `enrich_metadata` survives post-processing |
| Core.FlaggedAfterPostprocess | core.py:109-113 | after post-processing a segment is flagged exactly when it has low or medium confidence, content under 200 characters, or no tags |
| Core.DetectDuplicates | core.py:157-159 | a title is reported iff it occurs more than once among the segment titles |
| Core.DuplicatesAreRepeatedTitles | core.py:157-159 | the duplicates are exactly the titles carried by two different segments |
| Core.FilterSegments | core.py:161-164 | an empty search returns the list as is; otherwise the segments whose title or content contains the search, ignoring case |
| Core.FilterSegmentsKeepsMatches | core.py:161-164 | the result is an ordered subsequence holding exactly the matching segments |
| Core.GetFlaggedSegments | core.py:166-167 | the result is an ordered subsequence holding exactly the segments whose `needs_attention` is truthy, each as many times as in the input |
| Core.MarkdownWithFrontmatter | core.py:120-131 | the Markdown opens with `---` and the quoted title line, and ends with the closing `---`, a blank line, the content and a newline |
| Core.FrontmatterReadsBack | core.py:120-131 | split at newlines, the Markdown gives back the seven front-matter lines, a blank line and the content's lines |
| Core.MergeRepo | core.py:147-153 | without a repository the batch is written as is; with one, the rows are duplicate-free and are exactly the rows of the repository and the batch |
| Core.MergeKeepsOneCopy | core.py:150 | every distinct row of the repository and the batch is kept exactly once |
| Core.MergeKeepsOldRows | core.py:150 | a duplicate-free repository stays a prefix of the merged rows, in its own order |
| Core.MergeKnownRows | core.py:150 | a batch whose rows are all in a duplicate-free repository leaves it unchanged |
| Core.MergeKeepsFirstOrder | core.py:150 | the merged rows are in the order of their first copies among the repository rows followed by the batch |
| Confidence.ScoreConfidence | confidence.py:8-15 | a stored quality score is returned; otherwise "medium" iff the summary is under 100 characters or ends in "...", else "high" |
| Confidence.MissingSummaryIsMedium | confidence.py:12-14 | a segment with neither a score nor a summary scores "medium" |
| Confidence.LowOnlyByPassThrough | confidence.py:10-15 | "low" can only come from a stored quality score |
| Confidence.AgreesWithPostprocess | confidence.py:8-15 | the scorer gives the confidence that post-processing stores on the same segment |
| UiUtils.AssignMetadata | ui_utils.py:11-17 | every segment gets the base name of the source file and one run id: the given one, or one timestamp taken before the loop |
| UiUtils.Stamp | ui_utils.py:14-16 | one segment gains exactly `source_file` and `run_id` with the given values, and every other key keeps its value |
| UiUtils.StampIdempotent | ui_utils.py:14-16 | stamping twice with the same values is stamping once |
| UiUtils.FilterSegments | ui_utils.py:19-22 | an ordered subsequence holding exactly the segments whose title or content contains the search, ignoring case, with missing fields read as `""`, each as many times as in the input |
| UiUtils.FiltersAgree | ui_utils.py:19-22 | on segments that carry text titles and contents, this filter and core's agree |
| UiUtils.AppendToRepo | ui_utils.py:24-31 | the written rows are those core's repository merge writes, and the returned count is their number |
| PopulateExcel.Chunks | populate_excel.py:5 | the profiles, joined back with the separator, give the stripped input |
| PopulateExcel.ChunksLeftmost | populate_excel.py:5 | `str.split` cuts at the leftmost occurrences: no profile holds the separator, and no profile ends in text that the following separator would complete into an earlier occurrence |
| PopulateExcel.OneChunkWithoutSeparator | populate_excel.py:5 | text without the separator is one profile |
| PopulateExcel.NextField | populate_excel.py:10 | the leftmost `**key:** value` match at or after a position, and `None` only when no later `**` is followed by `:**` |
| PopulateExcel.FindFields | populate_excel.py:10 | every match found is a field match, and each search resumes where the previous match ended |
| PopulateExcel.FindFieldsChain | populate_excel.py:10 | the matches are exactly the chain of leftmost searches: the list is empty iff the first search fails, its first element is the first search's match, every later one is the match of the search from the end of the one before, and the search after the last match fails |
| PopulateExcel.DropDash | populate_excel.py:15 | a leading `"- "` is removed and any other line is kept |
| PopulateExcel.DropListMarkersLines | populate_excel.py:15 | the value has the same lines as before, each without its leading `"- "` |
| PopulateExcel.CollapseBlankLines | populate_excel.py:16 | collapsing keeps the first character and maps only the empty text to the empty text |
| PopulateExcel.CollapseLeavesNoBlankLine | populate_excel.py:16 | after collapsing, no line between two newlines is blank |
| PopulateExcel.CollapseRemovesOnlySpace | populate_excel.py:16 | the collapsed value is a subsequence of the input with the same non-whitespace characters in the same order, so only whitespace is removed |
| PopulateExcel.CollapseUnchanged | populate_excel.py:16 | a value with no match of `\n\s*\n` (no two newlines with only whitespace between them) is left unchanged |
| PopulateExcel.CollapseIdempotent | populate_excel.py:16 | collapsing a collapsed value changes nothing |
| PopulateExcel.EscapeNewlines | populate_excel.py:17 | the escaped value holds no newline |
| PopulateExcel.EscapeRoundTrip | populate_excel.py:17 | escaping loses nothing when the text holds no backslash |
| PopulateExcel.CleanValue | populate_excel.py:14-17 | the cleaned value, stripped with list markers dropped and blank lines collapsed, holds no newline |
| PopulateExcel.Fields | populate_excel.py:12-17 | one (stripped key, cleaned value) pair per match, in match order |
| PopulateExcel.BuildProfile | populate_excel.py:18 | every key of the profile comes with a value that one of its fields gave it |
| PopulateExcel.LastKeyWins | populate_excel.py:12-18 | a repeated key holds the value of its last occurrence |
| PopulateExcel.FieldKeysKept | populate_excel.py:12-18 | every matched key is in the profile |
| PopulateExcel.ParseProfile | populate_excel.py:9-19 | the inner loop builds the profile dictionary of one profile text |
| PopulateExcel.ParseProfileText | populate_excel.py:4-20 | one dictionary per profile, in order |
| PopulateExcel.ProfileValuesSingleLine | populate_excel.py:14-17 | no value of a parsed profile spans more than one line |
| PopulateExcel.NoMarkupNoFields | populate_excel.py:10 | a profile without `**` yields the empty dictionary |
| GptEnrichFields.PromptFieldsDistinct | gpt_enrich_fields.py:6-17 | there are ten prompt fields, one template each, with pairwise different names |
| GptEnrichFields.GenerateFieldContent | gpt_enrich_fields.py:30-32 | the placeholder content names the field first, ends with the quoted prompt, and is never empty |
| GptEnrichFields.FillPrompts | gpt_enrich_fields.py:62-74 | the loop over the prompts fills each field in turn with its generated content when forced, or when the field is missing or empty |
| GptEnrichFields.EnrichCultureWithAi | gpt_enrich_fields.py:34-80 | the function computes the enriched record: the defaults, then the population entry, the prompt fields and the source, or it fails |
| GptEnrichFields.FillKeys | gpt_enrich_fields.py:62-71 | the loop adds exactly the fields it visits to the record's keys |
| GptEnrichFields.FillKeepsOthers | gpt_enrich_fields.py:62-71 | a key the loop does not visit keeps its presence and its value |
| GptEnrichFields.FillField | gpt_enrich_fields.py:62-71 | after the loop a visited field holds its content when forced or when it was missing or empty, and its old value otherwise |
| GptEnrichFields.PromptFieldRewrittenIff | gpt_enrich_fields.py:62-71 | a prompt field is rewritten iff enrichment is forced or the field was missing or empty after the population update |
| GptEnrichFields.PromptFieldsFilled | gpt_enrich_fields.py:62-71 | after enrichment every prompt field is filled |
| GptEnrichFields.SourceAddedOnlyWhenAbsent | gpt_enrich_fields.py:77-78 | an existing `source`, even an empty one, is kept; the simulated source is added only when the key is absent |
| GptEnrichFields.CultureNameDefault | gpt_enrich_fields.py:43-49 | a non-empty `culture_name` or `language_tag` is kept, and an empty or missing one gets the culture name or `"und"` |
| GptEnrichFields.Enriched | gpt_enrich_fields.py:48-52 | enrichment fails exactly when the language tag is a truthy value that is not a string, because `.lower()` raises |
| GptEnrichFields.EnrichedKeys | gpt_enrich_fields.py:41-80 | the result's keys are the input's, `culture_name`, `language_tag`, `source`, the population entry's and the ten prompt fields |
| GptEnrichFields.EnrichedOtherKeys | gpt_enrich_fields.py:41-59 | a key that is neither a prompt field nor `source` is present iff it is in the defaulted copy or the population entry of `culture_name.lower()`, and holds the population entry's value when that has it, else the defaulted copy's |
| CatalogPopulation.ValidateEntry | catalog_population.py:17-19 | the reported fields are the required fields that are missing or falsy, in `REQUIRED_FIELDS` order |
| CatalogPopulation.ValidEntryIff | catalog_population.py:17-19 | nothing is reported iff all three required fields are present and truthy |
| CatalogPopulation.SuggestMissingFields | catalog_population.py:21-28 | `language_tags` and `region` each get a suggestion iff missing or falsy, and no other key does |
| CatalogPopulation.SuggestionsAreReported | catalog_population.py:21-28 | every suggestion is for a field the validator reports, and carries that field's question |
| CatalogPopulation.NormalizeRow | catalog_population.py:47 | a row fails exactly when a required cell is `None` in a short row; otherwise the entry has exactly the three required keys |
| CatalogPopulation.NormalizedValuesTrimmed | catalog_population.py:47 | every normalised value is the trimmed cell text, and is its own strip |
| CatalogPopulation.NormalizedMissingIff | catalog_population.py:47 | a normalised row is reported missing exactly the fields whose trimmed cell is empty |
| EnrichMissingFields.Missing | enrich_missing_fields.py:11 | the missing fields are the required fields whose value is missing or falsy |
| EnrichMissingFields.EnrichEntry | enrich_missing_fields.py:10-20 | the loop over the missing fields returns one question per missing field |
| EnrichMissingFields.PromptKeysIff | enrich_missing_fields.py:11-19 | a field gets a question iff it is required and missing or falsy |
| EnrichMissingFields.CommunicationPromptNamesCulture | enrich_missing_fields.py:14-15 | the `communication_style` question names the culture, or "this culture" when the key is absent, and ends with "." |
| EnrichMissingFields.SocialNormsPromptNamesRegion | enrich_missing_fields.py:16-17 | the `social_norms` question depends only on the region, names it or "this region", and ends with "?" |
| EnrichMissingFields.OtherPromptsGeneric | enrich_missing_fields.py:18-19 | every other missing field gets "Please provide {field}." |
| EnrichMissingFields.CompleteEntryNoPrompts | enrich_missing_fields.py:10-20 | an entry with all five fields filled gets no questions |
| GenerateCultureStubs.DictGetLast | generate_culture_stubs.py:11-35 | a key absent from the table displays yields nothing, and a present one yields its last entry's value |
| GenerateCultureStubs.TagsAreDetermined | generate_culture_stubs.py:11-35 | no tag in the table is `"und"` or empty |
| GenerateCultureStubs.TibetanListedTwiceAlike | generate_culture_stubs.py:25-30 | both `"tibetan"` entries carry `"bo"`, so the repeated key looks up `"bo"` |
| GenerateCultureStubs.UndeterminedIff | generate_culture_stubs.py:37-44 | the tag is `"und"` iff the cleaned name is not in the table, and otherwise the table's last entry for it |
| GenerateCultureStubs.GetLanguageTag | generate_culture_stubs.py:37-44 | the tag is never empty, and it is `"und"` or the tag of a table entry for the cleaned name |
| GenerateCultureStubs.CaseInsensitive | generate_culture_stubs.py:38 | names that agree up to ASCII case get the same tag |
| GenerateCultureStubs.UpperCaseSameTag | generate_culture_stubs.py:38 | upper-casing a name does not change its tag |
| GenerateCultureStubs.ParenthesisIgnored | generate_culture_stubs.py:38 | a parenthesised qualifier is ignored: only the text before the first `(` counts |
| GenerateCultureStubs.StrippedNonEmpty | generate_culture_stubs.py:65-67 | no kept name is empty and at most one name is kept per piece |
| GenerateCultureStubs.StrippedNonEmptyIsFilter | generate_culture_stubs.py:65-67 | the kept names are exactly the non-empty ones among the stripped pieces, in order |
| GenerateCultureStubs.StrippedNamesTrimmed | generate_culture_stubs.py:65-67 | every kept name is the strip of a piece, and is its own strip |
| GenerateCultureStubs.LanguageNames | generate_culture_stubs.py:64-67 | the names are the non-empty stripped pieces, in order, of the comma split when the text has a comma and of the lines otherwise; none is empty |
| GenerateCultureStubs.CommaListRoundTrip | generate_culture_stubs.py:64-65 | two or more clean names joined with commas are read back as they are |
| GenerateCultureStubs.LineListRoundTrip | generate_culture_stubs.py:66-67 | clean names without commas, written one per line, are read back as they are |
| RenderCards.Indicator | render_cards.py:36 | a character's regional indicator is the character shifted by 127397, and it fails exactly past U+10FFFF |
| RenderCards.Indicators | render_cards.py:36 | the flag fails iff some character's indicator would pass U+10FFFF; otherwise it has one symbol per character of the code, each the upper-cased character shifted by 127397 |
| RenderCards.IsoToFlag | render_cards.py:35-36 | a falsy code gives `""`; the call fails exactly for a truthy non-string code, or a two-character code with a character whose indicator would pass U+10FFFF; a non-empty flag comes only from a two-character text code and has two symbols |
| RenderCards.EmptyUnlessTwoCharacters | render_cards.py:36 | a falsy code, or a text code of any length but two, gives the empty flag |
| RenderCards.AsciiLettersGiveIndicators | render_cards.py:36 | two ASCII letters give two regional indicators, with A-Z mapped onto U+1F1E6-U+1F1FF in order |
| RenderCards.CaseInsensitive | render_cards.py:36 | the flag does not depend on the case of the code |
| RenderCards.FlagRoundTrip | render_cards.py:36 | subtracting the offset from each symbol of a flag gives back the upper-cased code |
| RenderCards.Injective | render_cards.py:36 | distinct upper-case two-letter codes give distinct flags |
| Viewer.FirstBlankIsFirst | viewer.py:114-118 | the next field is `None` iff no value prints as blank, and otherwise the key of the first blank item |
| Viewer.GetNextField | viewer.py:114-118 | the loop with its early return gives the key of the first blank item in insertion order |
| Viewer.CompletedPlusMissing | viewer.py:80-82 | every item is either completed or missing: completed plus missing equals the field total |
| Viewer.CompletedCount | viewer.py:81 | the count of truthy values is at most the field total, and equals it iff every value is truthy |
| Viewer.MissingFields | viewer.py:82 | at most one key per item, and every reported key belongs to an item whose value is falsy |
| Viewer.MissingFieldsIff | viewer.py:82 | a key is reported missing iff some item with that key has a falsy value |
| Viewer.MissingFieldsInOrder | viewer.py:82 | the missing fields are the keys of the falsy items, each item once, in insertion order, so they form a subsequence of the keys |
| Viewer.ReprNotBlank | viewer.py:116 | a value that is not a string never prints as blank |
| Viewer.BlankVersusFalsy | viewer.py:82 | "blank" and "falsy" disagree exactly on non-empty all-whitespace strings and on falsy non-strings |
| Viewer.SpacesAreNextNotMissing | viewer.py:82 | a value of only spaces is the next field to fill, yet the summary does not count it missing |
| Viewer.ZeroIsMissingNotNext | viewer.py:82 | a value of `0` is counted missing, yet it is never the next field to fill |
| Viewer.FiltersMatch | viewer.py:287-289 | the inner loop over the filters keeps the match flag only when every non-empty filter value occurs in its field, ignoring case, and fails where a field is not text |
| Viewer.EntryMatches | viewer.py:284-289 | one entry passes iff the query occurs in its culture name and every filter occurs in its field, ignoring case |
| Viewer.AdvancedSearch | viewer.py:281-292 | the loop returns the entries that pass, in order, or fails where `.lower()` would raise |
| Viewer.SearchKeepsMatchesInOrder | viewer.py:281-292 | the result is an ordered subsequence holding exactly the matching entries |
| Viewer.EmptySearchKeepsAll | viewer.py:281-292 | an empty query with only empty filter values returns every entry |
| Viewer.ValidateSchema | viewer.py:303-310 | the loop returns one error per missing or mistyped schema field, in schema order |
| Viewer.NoErrorsIffConforms | viewer.py:303-310 | there are no errors iff the entry has every schema field with its named type, and at most one error per field |
| Viewer.FlagPassesAsInteger | viewer.py:313-318 | a flag passes where the default schema asks for an integer, because `bool` is a subclass of `int` |
| Viewer.DefaultThemeIff | viewer.py:178-187 | the white and black palette is returned iff the region is not one of the six listed |
| Viewer.GetThemeColors | viewer.py:178-187 | a listed region gets its own palette, and the white and black default is returned iff the region is not listed |

## Left out

- File, CSV, Excel, JSON, YAML and zip input and output are not modelled. Nor are the
  command-line mains, argument parsing, logging, progress bars and prints. Each operation takes
  the parsed data and returns what would be written.
- Clocks, `uuid.uuid4()` and other fresh values become parameters:
  - the run timestamp (`now`);
  - a fresh segment id per segment (`freshIds`).
- The OpenAI calls are not modelled. Nor are `langdetect`, `tiktoken` and `unidecode`.
- The Streamlit user interface and the image, map and gallery helpers of viewer.py are not
  modelled.
- Dictionaries that the Python code updates in place are modelled as values: each operation
  returns the updated record or list. Aliasing is not captured, neither between a segment list
  and its caller nor inside one list. When the same dict object stands twice in the list given to
  `postprocess_segments`, Python updates it once and both positions carry the first uuid;
  Core.PostprocessSegments treats the two positions as separate records, each with its own fresh
  id.
- `Value` has strings, integers, booleans and `None`. JSON lists, nested objects and
  floating-point numbers are not represented.
- SegmentByCulture.Rule: an enrichment rule is assumed to have a string `match` and string
  values for the keys it sets. The JSON file may hold a rule without `"match"` (`KeyError`), or a
  number, boolean, `null` or list as a value. Such a value would be copied into the enrichment,
  and `confidence_score`'s `.lower()` would then raise. Neither case is modelled.
- CultureSegmenter.TruncateForGpt: models only the branch without an encoder. The token-based
  branch needs `tiktoken`.
- Viewer's completion percentage is not modelled because it is a floating-point division. Its
  two counts are modelled (`CompletedCount`, `MissingFields`).
- Python exceptions are modelled as `None` results in `gpt_enrich_fields`, `render_cards`,
  `catalog_population` and viewer.py. This covers `.lower()` on a non-string, `len` of a number,
  `chr` past U+10FFFF, and `.strip()` on the `None` cell that `csv.DictReader` gives a short row
  (CatalogPopulation.NormalizeRow). The exception types and messages are not.
- In core.py, confidence.py and ui_utils.py the inputs that would raise are excluded by
  preconditions instead:
  - Core.PostprocessOne and Core.PostprocessSegments require `Postprocessable`. A `summary`
    that is read (no quality score is stored) is a string or absent. A `content` that is read
    (the confidence is not "low" or "medium") is a string or absent. So `len` does not raise
    `TypeError`.
  - Confidence.ScoreConfidence requires `ScoreComputable`: without a stored quality score, the
    `summary` is a string or absent, so `len(summary)` does not raise `TypeError`.
  - Core.DetectDuplicates requires `HasTitles`: every segment has a `title`, so `seg['title']`
    does not raise `KeyError`.
  - Core.FilterSegments requires `CoreSearchable` of every segment when the search is not
    empty. The `title` is present and a string, and the `content` is present and a string
    unless the title already matches. So neither `KeyError` nor `AttributeError` is raised.
  - UiUtils.FilterSegments requires `UiSearchable`: the same, with an absent field read as `""`.
  - Core.MarkdownWithFrontmatter requires `title` and `content` keys, so `seg['title']` and
    `seg['content']` do not raise `KeyError`.
- Upper- and lower-casing act on ASCII letters only, so `upper`, `lower`, `isupper` and
  `istitle` are modelled on ASCII letters. Whitespace (`strip`, `split()` and `\s`) is the full
  set of characters Python's `str.isspace` accepts (`Strings.IsSpace`). `splitlines` splits at
  `\n` only.
- The `LANGUAGE_TAG_MAP` display is three entry sequences in source order, with a last-wins
  lookup. This is how a dict display with a repeated key behaves.
- PopulateExcel.Chunks: its own contract states only that the profiles join back to the
  stripped input. That no profile holds the separator, and that the cuts are leftmost, is proved
  separately in `PopulateExcel.ChunksLeftmost`, which keeps the callers' proofs small.
- PopulateExcel.FindFields: its own contract states only that each match is a field match and
  that the searches resume where the previous match ended. That no match is skipped, and that the
  list ends exactly when the search fails, is proved separately in
  `PopulateExcel.FindFieldsChain`.
- PopulateExcel.CollapseBlankLines: its own contract states only that the first character is kept
  and that only empty text collapses to empty text. What is kept is proved separately:
  `CollapseRemovesOnlySpace` (only whitespace is removed), `CollapseUnchanged` (text with no
  blank line is unchanged), `CollapseLeavesNoBlankLine` and `CollapseIdempotent`.
- Viewer.MissingFields: its own contract states only bounds and that each reported key has a
  falsy item. That the result is exactly the keys of the falsy items, in insertion order, is
  proved separately in `Viewer.MissingFieldsInOrder`.
- Core.DetectDuplicates and Core.MergeRepo compare values structurally: `Int(1)` and
  `Flag(true)` are different values, and so are `Int(0)` and `Flag(false)`. Python's `==`, hashing
  and pandas' `drop_duplicates` treat `1` and `True` (and `0` and `False`) as equal. So titles or
  rows that differ only that way count as duplicates in the source but not in the model.
- SegmentTextExtraction.SegmentRows: a "Content" cell is taken as the text `str()` gives. An
  empty cell, or one pandas reads as a missing value (`N/A`, `NA`, `null`, `None` and the like),
  becomes NaN, prints as `"nan"` and so yields a body record. The model takes that text as given
  and does not model pandas' missing-value parsing.
- CatalogPopulation.SuggestMissingFields: the suggestions are a `map`, so the dict's insertion
  order is not modelled.
- EnrichMissingFields.EnrichEntry: the questions are a `map`, so the dict's insertion order,
  which is the key order `main` writes them in, is not modelled.
- Core.Basename: models POSIX `os.path.basename`, which splits only at `/`. The Windows form,
  which also splits at `\` and after a drive prefix such as `C:`, is not modelled.
- The loop of `generate_culture_stubs` is not modelled. It writes one stub file per language
  name and consists of file-system calls. Its pure parts, `get_language_tag` and the reading
  of the name list, are modelled.
- The pandas semantics of `drop_duplicates` are modelled on rows as values. Column alignment of
  `concat` between frames with different columns is not.
- `segment_cultures` with `""` among the known cultures is modelled exactly by the state
  machine. The declarative segmentation and its partition properties assume `""` is not known.
  `load_known_cultures` never yields `""`.
