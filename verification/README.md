# CLO indenture compliance checker — verified model of its core

The system checks a CLO (collateralised loan obligation) indenture against a
list of stipulations. It extracts named sections from the document text and
asks a language model, the "judge", whether each section meets each rule. It
parses the model's free-text verdict into PASS, FAIL or UNCLEAR, and then
tallies the verdicts into a summary. This project models that core in Dafny
and proves what each step promises:

- `Text` (`text.dfy`): the ASCII parts of Python's `str` that the core uses.
  These are `lower`, `upper`, `strip`, `in`, `split('\n')`, `'\n'.join` and
  `split(':', 1)[1]`. It proves that joining a split gives the string back,
  and that splitting a join gives the parts back.
- `DocumentProcessor` (`document_processor.dfy`): `_extract_until_next_section`,
  `_find_section` and `extract_sections`. Each is a method with its loop,
  proved against a specification function.
- `ComplianceEngine` (`compliance_engine.dfy`): the verdict parser, the
  covenant parser (a small state machine over reply lines), the confidence
  score, and `check_compliance` / `batch_check_compliance`. The model call is
  a parameter.
- `DataLoader` (`data_loader.dfy`): the stipulation format check and the
  summary tally.
- `Orchestrator` (`orchestrator.dfy`): the caller-side defaults in main.py, plus what
  the summary of a batch is with and without an API key.

The engine and the processor never change after construction, so they are
datatypes. The source's loops are methods whose loop invariants tie the
partial state to the specification function on the prefix processed so far.

## Model

| member | source | states |
|---|---|---|
| DocumentProcessor.SliceStop | src/document_processor.py:128 | The end of the slice `lines[1:max_lines]` never passes the number of lines, and a non-negative budget is clamped to it. |
| DocumentProcessor.ScanEnd | src/document_processor.py:128-132 | The scan ends at the first header line before the stop, or at the stop. No line it passes over is a header. |
| DocumentProcessor.SectionLength | src/document_processor.py:125-132 | The extract keeps between 1 and `len(lines)` lines. |
| DocumentProcessor.ExtractUntilNextSection | src/document_processor.py:111-134 | The result is the first `SectionLength` lines joined with line feeds. |
| DocumentProcessor.Section | src/document_processor.py:125-134 | The extract always starts with `lines[0]`, even when that line is a header. |
| DocumentProcessor.SectionWithinBudget | src/document_processor.py:122-128 | A budget `m >= 1` bounds the extract to `m` lines. With no budget the bound is 100. |
| DocumentProcessor.SectionStopsAtFirstHeader | src/document_processor.py:128-132 | No kept line after the first is a header. If the extract is shorter than both the input and the budget, the next line is a header. |
| DocumentProcessor.SectionWithoutPattern | src/document_processor.py:126-130 | With no `section_header` pattern the extract is exactly `min(len(lines), max_lines)` lines long. |
| DocumentProcessor.SectionLines | src/document_processor.py:134 | Splitting the extract on line feeds gives back exactly the kept prefix of the input lines. |
| DocumentProcessor.FirstMention | src/document_processor.py:103-105 | Returns the first line at or after `from` that mentions the name, ignoring case, or None if no such line exists. |
| DocumentProcessor.FoundSection | src/document_processor.py:85-109 | None exactly when no pattern is configured or no line mentions the name. |
| DocumentProcessor.FoundSectionAtFirstMention | src/document_processor.py:103-107 | When some line mentions the name, the result is the extract starting at the first such line. |
| DocumentProcessor.FoundSectionNonEmpty | src/document_processor.py:105-107 | A section found for a non-empty name is non-empty text. |
| DocumentProcessor.FindSection | src/document_processor.py:85-109 | The loop with its early return computes `FoundSection`. |
| DocumentProcessor.SectionsHoldStoredNames | src/document_processor.py:74-83 | The extracted map's keys are requested names. A requested name is a key exactly when its search gives non-empty text, and then it maps to that text. |
| DocumentProcessor.Sections | src/document_processor.py:74-83 | Every key of the extracted map is one of the requested names. |
| DocumentProcessor.ExtractSections | src/document_processor.py:62-83 | The loop computes the `Sections` map. |
| DocumentProcessor.StoredIffFound | src/document_processor.py:77-81 | For a non-empty name, the name is missing from the map exactly when `_find_section` gives None. No fallback text is stored. |
| Text.JoinSplit | src/document_processor.py:134 | `'\n'.join(s.split('\n')) == s`. |
| Text.SplitJoin | src/document_processor.py:134 | Splitting a join of parts that contain no line feed gives back the parts. |
| Text.Split | src/document_processor.py:103 | `split` yields at least one part, and no part contains the separator. |
| Text.Strip | src/document_processor.py:130 | `strip()` never lengthens the string, and its result neither starts nor ends with whitespace. |
| Text.TrimStart | src/compliance_engine.py:207 | `lstrip()` drops only whitespace, and what it leaves does not start with whitespace. |
| Text.TrimStartSuffix | src/compliance_engine.py:207 | What `lstrip()` leaves is a suffix of the string. |
| Text.TrimEnd | src/compliance_engine.py:207 | `rstrip()` drops exactly a trailing run of whitespace. |
| Text.StripPiece | src/compliance_engine.py:207 | `strip()` gives the piece `s[a:b]` of the string, where everything before `a` and from `b` on is whitespace. |
| Text.LowerChars | src/document_processor.py:105 | `lower()` leaves no upper-case letter and changes each character only in case. |
| Text.UpperChars | src/compliance_engine.py:130 | `upper()` leaves no lower-case letter and changes each character only in case. |
| Text.UpperOfLower | src/data_loader.py:245 | Upper-casing a lower-cased string gives the upper-cased original. |
| Text.UpperOfUpper | src/data_loader.py:245 | Upper-casing twice gives the same as upper-casing once. |
| Text.Contains | src/compliance_engine.py:130 | `t in s` holds when `s` starts with `t`, and only when `t` is no longer than `s`. |
| Text.Join | src/document_processor.py:134 | `join` starts with the first part, and joining one part gives that part. |
| Text.AfterFirst | src/compliance_engine.py:211 | `split(c, 1)[1]` is the suffix after the first `c`: the character before it is `c` and no earlier character is. |
| Text.AfterFirstPrefix | src/compliance_engine.py:211-215 | When the line starts with a prefix whose only colon is its last character, `split(':', 1)[1]` is the text after that prefix. |
| ComplianceEngine.Parse | src/compliance_engine.py:123-133 | The parsed reply has exactly the keys status, explanation and excerpts. The status is one of PASS, FAIL or UNCLEAR. |
| ComplianceEngine.ParseStatus | src/compliance_engine.py:130-133 | The status is PASS iff the upper-cased reply contains PASS. It is FAIL iff PASS is absent and FAIL is present. Otherwise it is UNCLEAR. |
| ComplianceEngine.StatusOf | src/compliance_engine.py:130-133 | The status is always one of PASS, FAIL or UNCLEAR. |
| ComplianceEngine.FieldValueFromSetter | src/compliance_engine.py:136-141 | A field is `''` or the line right after some line that sets it. |
| ComplianceEngine.FieldValueAfterLastSetter | src/compliance_engine.py:136-141 | A field holds the line after the last line that sets it, or `''` when that line is the last one. |
| ComplianceEngine.FieldValueWithoutSetter | src/compliance_engine.py:123-141 | A field that no line sets stays `''`. |
| ComplianceEngine.ParseResponseLine | src/compliance_engine.py:137-141 | One line of the loop moves each field from its value after `i` lines to its value after `i + 1` lines. A line mentioning "explanation" sets only the explanation. |
| ComplianceEngine.ParseComplianceResponse | src/compliance_engine.py:113-143 | The method computes `Parse(response)`. |
| ComplianceEngine.MockReplyParse | src/compliance_engine.py:84-91 | The keyless mock reply parses as PASS. The explanation is the "Relevant Excerpts" line and the excerpts are `''`. |
| ComplianceEngine.PlaceholderReplyParse | src/compliance_engine.py:107 | The reply given with a key, "Mock LLM response", parses as UNCLEAR with empty explanation and excerpts. |
| ComplianceEngine.QueryLlm | src/compliance_engine.py:73-111 | Without a key the reply reads as PASS. With a key it is the model's reply to the prompt. |
| ComplianceEngine.CheckCompliance | src/compliance_engine.py:40-71 | The result has the three keys. Without a key the status is PASS. With a key the status is the keyword status of the model's reply. |
| ComplianceEngine.CheckComplianceParsesReply | src/compliance_engine.py:60-69 | `check_compliance` is the parse of `_query_llm` applied to the formatted prompt. |
| ComplianceEngine.CheckAllPairwise | src/compliance_engine.py:162-168 | There is one result per pair, in order, and result `i` is the check of pair `i` alone. |
| ComplianceEngine.BatchCheckCompliance | src/compliance_engine.py:145-168 | The loop computes `CheckAll`. |
| ComplianceEngine.ValueAfterPrefix | src/compliance_engine.py:211-215 | For a line that starts with a covenant prefix, the text after the first colon is the text after the prefix. |
| ComplianceEngine.Step | src/compliance_engine.py:206-215 | One line either leaves the closed covenants alone or closes the open one after them. An open covenant stays open. |
| ComplianceEngine.RunFrom | src/compliance_engine.py:206-215 | Covenants closed before the run stay in front, and an open covenant stays open. |
| ComplianceEngine.StepNames | src/compliance_engine.py:206-215 | One line keeps every record named with known keys, and adds the name of a name line to the names. |
| ComplianceEngine.RunFromNames | src/compliance_engine.py:205-215 | Running over lines adds exactly the names of the name lines, in order. |
| ComplianceEngine.CovenantsMatchNameLines | src/compliance_engine.py:205-219 | There is one covenant per name line, in order, named by that line. Every record has a name and only the keys name, threshold and condition. |
| ComplianceEngine.RunFromAppend | src/compliance_engine.py:206 | Scanning two blocks of lines in turn is scanning their concatenation. |
| ComplianceEngine.RunWithoutNames | src/compliance_engine.py:209-215 | Without a name line nothing is recorded. |
| ComplianceEngine.LeadingLinesIgnored | src/compliance_engine.py:212-215 | Lines before the first name line, Threshold and Condition lines included, do not change the result. |
| ComplianceEngine.LastValueExists | src/compliance_engine.py:212-215 | A block gives a value for a prefix iff some line of the block starts with it. |
| ComplianceEngine.LastValueIsLastSetter | src/compliance_engine.py:212-215 | The value is the text after the prefix on the last line that starts with it. |
| ComplianceEngine.Fill | src/compliance_engine.py:212-215 | Filling a covenant from its lines keeps its keys and adds at most threshold and condition. |
| ComplianceEngine.FillField | src/compliance_engine.py:212-215 | After a block, the threshold (or condition) is the last such line's value. Without such a line it is as it was before. |
| ComplianceEngine.FillKeepsOthers | src/compliance_engine.py:212-215 | Threshold and Condition lines leave every other key unchanged. |
| ComplianceEngine.BlockRecordFields | src/compliance_engine.py:208-215 | A block's covenant has its name line's name. It has a threshold iff some line of the block is a Threshold line, and then the last one's value. The same holds for condition. |
| ComplianceEngine.RunBody | src/compliance_engine.py:206-215 | Lines without a name line only fill the open covenant. |
| ComplianceEngine.RunKeepsDone | src/compliance_engine.py:206-215 | A run appends to the covenants closed before it and does not depend on them. |
| ComplianceEngine.CloseBeforeRest | src/compliance_engine.py:208-219 | A covenant still open when a name line or the end of the reply comes is recorded before the covenants that follow. |
| ComplianceEngine.CovenantBlock | src/compliance_engine.py:205-219 | A name line and the lines up to the next name line give exactly one covenant, `BlockRecord(name, body)`, in front of the covenants of the rest. Lines before the first name line are ignored. |
| ComplianceEngine.ParseCovenantLine | src/compliance_engine.py:207-215 | One line of the loop performs one `Step` of the scan. |
| ComplianceEngine.ParseCovenantResponse | src/compliance_engine.py:192-220 | The result is `CovenantsOf` of the reply's lines: one well-formed covenant per name line, in order, with that line's name. Its threshold and condition come from the last such lines of its block (`CovenantBlock`, `BlockRecordFields`). |
| ComplianceEngine.CountPresent | src/compliance_engine.py:238-239 | Each indicator counts at most once. The count is 0 iff no indicator occurs. |
| ComplianceEngine.CertaintyCount | src/compliance_engine.py:233-238 | At most 4 certainty indicators count. |
| ComplianceEngine.UncertaintyCount | src/compliance_engine.py:234-239 | At most 5 uncertainty indicators count. |
| ComplianceEngine.Ratio | src/compliance_engine.py:245 | `c / t` lies in [0, 1], and `r * t == c`. |
| ComplianceEngine.Score | src/compliance_engine.py:242-246 | The score is 0.5 with no indicators. Otherwise `score * (c + u) == c`, and it always lies in [0, 1]. |
| ComplianceEngine.ConfidenceScore | src/compliance_engine.py:222-246 | The confidence score lies in [0, 1]. |
| ComplianceEngine.ConfidenceAboveHalf | src/compliance_engine.py:245 | The score is above one half iff more certainty than uncertainty indicators occur. It is below one half iff fewer occur. |
| ComplianceEngine.ConfidenceWithoutIndicators | src/compliance_engine.py:242-243 | With no indicator word in the reply the score is exactly 0.5. |
| ComplianceEngine.ConfidenceExtremes | src/compliance_engine.py:242-246 | The score is 1 iff only certainty indicators occur. It is 0 iff only uncertainty indicators occur. |
| ComplianceEngine.ScoreExtremes | src/compliance_engine.py:242-246 | In terms of the counts: the score is 1 iff `c > 0` and `u == 0`, and 0 iff `c == 0` and `u > 0`. |
| DataLoader.ValidateStipsFormat | src/data_loader.py:192-211 | True iff every stipulation has the keys id, category and description. The empty list is valid. |
| DataLoader.Count | src/data_loader.py:244-251 | A counter never exceeds the number of results. |
| DataLoader.CountsAddUp | src/data_loader.py:244-251 | Every result goes to exactly one of the three counters. |
| DataLoader.Summarize | src/data_loader.py:237-251 | `total_checks == len(results)` and `passed + failed + unclear == total_checks`. |
| DataLoader.CreateSummaryReport | src/data_loader.py:227-254 | The loop computes `Summarize(results)` and keeps the conservation law. |
| DataLoader.SummaryAppend | src/data_loader.py:244-251 | Appending a result adds one to the total and one to the counter its status selects. The other two counters are unchanged. |
| DataLoader.CountAppend | src/data_loader.py:244-251 | The counts of a concatenation are the sums of the counts. |
| DataLoader.CountRemove | src/data_loader.py:244-251 | Removing one result lowers only the counter that result went to. |
| DataLoader.CountPermutation | src/data_loader.py:244-251 | Each counter depends only on the multiset of results. |
| DataLoader.SummaryPermutation | src/data_loader.py:237-251 | The summary is unchanged by any reordering of the results. |
| DataLoader.OutcomeExamples | src/data_loader.py:245-251 | Examples: "pass" and "Fail" count as passed and failed. ERROR and a missing status both count as unclear. |
| DataLoader.NormalizedStatus | src/data_loader.py:245 | A missing status reads as UNCLEAR. A given status keeps its length. |
| DataLoader.NormalizedStatusIsUpper | src/data_loader.py:245 | The normalised status is already upper case. |
| DataLoader.OutcomeByStatus | src/data_loader.py:245-251 | Passed iff the status is PASS, failed iff it is FAIL, unclear iff it is neither. |
| DataLoader.OutcomeIgnoresCase | src/data_loader.py:245-251 | A status counts the same as its lower-case and its upper-case form. |
| DataLoader.UniformCount | src/data_loader.py:244-251 | When every result goes to the same counter, that counter holds them all. |
| DataLoader.AllPassedSummary | src/data_loader.py:244-247 | When every status is PASS, the summary counts every check as passed. |
| DataLoader.AllUnclearSummary | src/data_loader.py:244-251 | When every status is UNCLEAR, the summary counts every check as unclear. |
| Orchestrator.SectionNameFor | main.py:111 | A stipulation without a section is checked against "Definitions", the first configured section. |
| Orchestrator.EvidenceFor | main.py:112 | The extracted section when there is one. Otherwise the first `min(len(document), 1000)` characters of the document. |
| Orchestrator.KeylessBatchPasses | main.py:105-133 | Without an API key, the summary of a batch counts every check as passed. |
| Orchestrator.PlaceholderBatchUnclear | main.py:105-133 | With a key but the placeholder reply, the summary of a batch counts every check as unclear. |
| Orchestrator.KeyedCheckOutcome | main.py:115-133 | With a key, a check is counted as passed iff the model's reply contains PASS in any case. |
| Orchestrator.StatusOutcome | src/data_loader.py:245-247 | A row whose status was read from a reply is counted as passed iff the reply contains PASS in any case. |

## Left out

- The OpenAI client, the API-key lookup from the environment, and the model name and temperature (src/compliance_engine.py:21-38, 93-111). These are foreign, non-deterministic calls.
  - The engine holds the key as a string: empty means no key, because both `None` and `""` are false in Python.
  - The reply given with a key is the field `llm`, a function from prompt to reply.
  - The code currently returns the fixed text "Mock LLM response" at line 107. That case is `PLACEHOLDER_REPLY`, covered by `PlaceholderReplyParse` and `Orchestrator.PlaceholderBatchUnclear`.
  - The `"ERROR: ..."` reply of the exception path is one more string `llm` may return.
- `_query_llm`'s `max_tokens` argument and all logging are not modelled. They do not affect any result.
- CheckCompliance: the keyless branch returns the precomputed parse `MOCK_RESULT` rather than parsing `MOCK_REPLY` afresh. `CheckComplianceParsesReply` proves that the two agree.
- `str.format` of the prompt template is a function parameter `(section, rule) -> prompt`. Placeholder syntax is not modelled.
- Regular expressions: the compiled `section_header` pattern is an arbitrary predicate on the stripped line. Compiling patterns and `find_patterns` (src/document_processor.py:34-37, 136-154) are not part of this model.
- PDF loading, page slicing and table extraction (src/document_processor.py:39-60, 156-201) are I/O placeholders and are not part of this model.
- The file and directory I/O of src/data_loader.py is not part of this model: loading stipulations, metadata and CSV files, saving reports, and listing input files.
- `extract_covenants` (src/compliance_engine.py:170-190) only formats a prompt, calls the model and hands the reply to `_parse_covenant_response`. Only that parser is modelled.
- main.py: command-line parsing, logging and the wiring of I/O components are not modelled.
  - Only the defaults at main.py:111-112 and the tally of a batch are modelled.
  - The result row that merges stipulation metadata with the check result is represented by the check result alone, since the status is the only field the summary reads.
- Text: `lower`, `upper` and `isspace` cover ASCII only. Full Unicode case mapping and whitespace are not modelled.
- ConfidenceScore: the score is a Dafny `real`, not an IEEE double, so rounding of `c / (c + u)` is not modelled.
- Behaviour that is described for this system but absent from its code is not modelled, because the code was followed:
  - AMBIGUOUS or ERROR verdicts: the parser yields only PASS, FAIL and UNCLEAR.
  - A start/body/end boundary matcher, and evidence truncation budgets.
  - JSON verdict parsing, and an error count in the summary.
  - Falling back to the whole document for a missing section: the only fallback is the first 1000 characters, in main.py:112.
