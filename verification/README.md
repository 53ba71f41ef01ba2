# Research-agent pipeline core, modelled in Dafny

The application searches arXiv for papers on a topic and filters the
results. It enriches each survivor with OpenAlex citation metadata. A
language model analyses each paper into four sections (summary,
methodology, analysis, hypothesis). A second request turns all findings
into global hypotheses. A writer request then drafts a paper from
everything collected.

This project models the deterministic core between those service calls:

- `Text` covers the character classes of the section regexes. These are
  Python's `str.isspace` set and `re.IGNORECASE` folding against ASCII
  patterns. It also covers the leftmost case-insensitive search, the
  regex alternation and `str.strip()`.
- `Sections` models `parse_markdown_sections`, covering the four
  `re.search` calls, their lookaheads and the placeholders. It proves
  that the capture is exactly the group the regex engine produces. The
  leftmost anchor is followed by a greedy `\s*`, then the shortest lazy
  group whose `\s*(?=...|$)` tail succeeds, and `strip()` leaves that
  group unchanged. The HYPOTHESIS group `(.*)` is greedy instead and runs
  to the end of the text, and `strip()` drops its trailing whitespace.
- `SectionLayout` models the layout the analysis prompt asks for: each
  header alone on its line, its text on the next line, and a blank line
  between sections. It proves that a reply in that layout parses back to
  its four fields, and more generally that any whitespace between a header
  and its text, and between a text and the next header, gives the same
  fields.
- `ParserCases` works through concrete replies: a lone section, sections
  out of order, the empty reply, and lower-case anchors with empty bodies.
- `Papers` models the paper record, `enrich_metadata` once its HTTP reply
  is in, and `clean_and_deduplicate`. The filter is specified against an
  independent reference, `Kept`, which lists the surviving positions.
- `Analyzer` models `agent_logic_processor`, the per-paper analysis loop.
  Each language-model reply is a parameter: the text or the exception
  message.
- `Contexts` and `Synthesis` model the per-paper context blocks and
  `global_hypothesis_generator`.
- `Writer` models `writer_agent_universal`. It comes in two versions: as
  written, and corrected (see Findings).
- `Pipeline` models the "Start Research Agents" sequence and the
  "Generate PDF Report" call.

Service calls become parameters. `Completion.Service` maps a prompt (only
its varying parts) to `Success(text)` or `Failure(message)`. The metadata
search is a function from title to `Papers.Lookup`. The analysis replies
are a function from position to result.

## Model

| member | source | states |
|---|---|---|
| Text.MatchAtChars | app.py:91-94 | an `re.IGNORECASE` match of a pattern at a position is exactly a character-by-character agreement up to case folding |
| Text.MatchesAnyIff | app.py:91-93 | the lookahead alternation `T1\|T2\|...` matches at a position iff one of its alternatives does |
| Text.FirstMatch | app.py:91-94 | `re.search` finds the leftmost occurrence: the result matches, nothing before it matches, and None means no position matches |
| Text.NextMatch | app.py:91-93 | the first position at or after the start where a terminator matches, or the end of the text, with no match in between |
| Text.StripAround | app.py:97-103 | `strip()` removes exactly the whitespace around a core whose ends are not whitespace |
| Text.StripSlice | app.py:97-103 | the same for a span of a larger text given by positions |
| Sections.Section | app.py:96-103 | a field keeps its placeholder when its anchor occurs nowhere; otherwise it is stripped and no longer than the text |
| Sections.Parse | app.py:83-105 | the parser is total, and each of the four fields is its placeholder whenever its anchor occurs nowhere in the reply |
| Sections.CaptureIsShortestRegexGroup | app.py:91-101 | the search fails exactly when the anchor occurs nowhere; otherwise the capture is the text of the group the regex engine picks (leftmost anchor, greedy `\s*`, shortest lazy group whose tail reaches a terminator or the end) |
| Sections.FieldMatchesRegex | app.py:91-103 | a field is its placeholder exactly when the anchor occurs nowhere, and otherwise the stripped text of the group the regex engine picks |
| Sections.ParseMatchesRegexes | app.py:83-105 | all four fields of the parse are what their four regexes find, with the placeholders where a search fails |
| Sections.StripBoundsAreGroupBounds | app.py:91-93 | the boundaries `strip()` finds in the searched region are the regex group's boundaries |
| Sections.CaptureSpan | app.py:91-103 | a present field is the stripped text between the first anchor and the first later terminator of that field, or the end of the text |
| Sections.EmptyCapture | app.py:91-101 | an anchor followed only by whitespace before a terminator yields the empty string, not the placeholder |
| Sections.HypothesisRunsToEnd | app.py:94-103 | the hypothesis field is everything after the first HYPOTHESIS anchor, stripped, whatever anchors follow |
| SectionLayout.LaidOutField | app.py:91-103 | in a reply whose headers are followed and whose texts are separated by whitespace, each field parses back to itself |
| SectionLayout.ParseLayout | app.py:83-105 | the four headers in order, each followed by whitespace and a stripped text that mentions no anchor, with whitespace before the next header, parse back to exactly those texts |
| SectionLayout.PromptSpaced | app.py:118-128 | the prompt's layout (header line, text line, blank line) separates every header from its text and every text from the next header by whitespace |
| SectionLayout.ParseRender | app.py:83-105 | a reply in the prompt's layout of lines 118-128, with stripped fields that mention no anchor, parses back to exactly those fields |
| ParserCases.AnalysisOnly | app.py:91-105 | a reply with only an ANALYSIS section keeps the other three placeholders |
| ParserCases.OutOfOrder | app.py:91-105 | with HYPOTHESIS before SUMMARY, the hypothesis swallows the later summary section while the summary is still found |
| ParserCases.EmptyReply | app.py:84-105 | the empty reply gives the four placeholders |
| ParserCases.LowerCaseEmptySummary | app.py:91-97 | a lower-case anchor matches, and an empty body gives "" rather than the placeholder |
| Papers.EnrichMetadata | app.py:52-65 | at most three concept names; the fallback `(0, [])` on any failure, a missing key included; otherwise the first work's citation count (0 when absent) and its first three concepts' names, in order |
| Papers.Enriched | app.py:74-76 | enrichment writes `citations` and `concepts` and changes nothing else |
| Papers.Kept | app.py:70-73 | the reference list of surviving positions is increasing, and every listed position survives |
| Papers.KeptMembers | app.py:70-73 | a position is kept iff no earlier record has its title and its abstract has at least 50 characters |
| Papers.CleanAndDeduplicate | app.py:67-78 | the first five survivors of the reference list, in input order, each enriched by its own title's lookup; hence at most five, distinct titles, abstracts of at least 50 characters, at most three concepts |
| Papers.SeenStep | app.py:69-72 | the seen-title set holds a record's title exactly when an earlier record has that title |
| Papers.DistinctSurvivors | app.py:69-72 | surviving records have pairwise distinct titles |
| Papers.EarlierTitleShadows | app.py:71-73 | a record whose title appeared earlier is dropped, even when that earlier record was itself dropped for its abstract |
| Analyzer.AnalyzeOne | app.py:131-144 | a reply overwrites all four fields with the parse; a failure sets summary to "Error: " + message and leaves the other three as they were; nothing else in the record changes |
| Analyzer.Analyze | app.py:107-146 | same length and order as the input, record `i` analysed with reply `i` |
| Analyzer.Isolation | app.py:111-144 | one record's result depends only on its own reply |
| Analyzer.SummaryAlwaysSet | app.py:138-142 | after the loop every record has a summary |
| Analyzer.FailureLeavesSectionsOut | app.py:141-142 | a failed analysis of a fresh record leaves methodology, analysis and hypothesis absent, not placeholders |
| Analyzer.AnalyzeRendered | app.py:117-139 | a reply in the prompt's layout (header line, text, blank line) is analysed back into exactly its sections |
| Contexts.JoinAppend | app.py:149-151 | the accumulated context of a concatenated list is the concatenation of the contexts |
| Contexts.JoinAt | app.py:149-151 | record `k`'s block sits between the blocks of the records before it and after it |
| Synthesis.HypothesisContextAppend | app.py:149-151 | the findings context of a longer list extends the context of its prefix |
| Synthesis.HypothesisContextOrder | app.py:149-151 | paper `k`'s block appears in list order within the findings context |
| Synthesis.HypothesisContextReads | app.py:151 | the context depends only on title, analysis and hypothesis; a missing analysis or hypothesis reads as "" |
| Synthesis.SameFindingsSameHypotheses | app.py:148-167 | knowledge bases that agree on every paper's title, analysis and hypothesis get the same global hypotheses |
| Synthesis.GlobalHypotheses | app.py:148-167 | the reply text on success, and exactly "Global Hypothesis Generation Failed." on any failure |
| Writer.Respond | app.py:231-239 | the draft text with "Gemini-2.5-Flash" on success, and "Error: " + message with "None" on failure |
| Writer.WriterAgentAsWritten | app.py:223-239 | the writer as written is defined only when every record has summary, methodology and analysis, and then returns the draft or the error pair |
| Writer.FailedAnalysisStopsWriter | app.py:141-142 | a fresh record whose analysis failed lacks a field the writer indexes, so the writer as written cannot take the analysed list |
| Writer.WriterAgent | app.py:223-239 | the corrected writer is total and returns the draft or the error pair |
| Writer.ReadyLiteratureAgrees | app.py:225-226 | on records with the three fields, the corrected literature section is the same text as the original |
| Writer.ReadyWriterAgrees | app.py:224-227 | wherever the original writer is defined, the corrected one sends the same context and returns the same result |
| Writer.LiteratureOrder | app.py:225-226 | paper `k`'s literature block appears in list order within the writer's context |
| Pipeline.Insight | app.py:479 | the analyst's insight, or "No Data Analysis Performed." when the analyst has produced no result |
| Pipeline.Research | app.py:400-404 | the knowledge base is the analysis of the first five enriched survivors of the filter, each with its own reply, and the hypotheses are the global synthesis over it; so it has at most five records with distinct titles, long abstracts and a summary; each successful reply's sections are in its record; the hypotheses are the sentinel when the request fails; on freshly searched records, one failed reply leaves the list unfit for the original writer |
| Pipeline.AnalysedSurvivors | app.py:402-403 | the filter's guarantees survive the analysis step |
| Pipeline.FailedReplyStopsWriter | app.py:401-403 | one failed analysis reply among fresh search results makes the original writer's precondition fail |
| Pipeline.Report | app.py:479-485 | the report names one of the two model strings, and equals the original writer's result whenever that one is defined |

## Left out

- The Streamlit user interface is left out: tabs, buttons, session state, progress bars and the dashboard. Only the order of calls at app.py:400-404 and app.py:479-485 is kept.
- `fetch_papers` and the arXiv client are left out. The search result is an arbitrary list of records.
- The HTTP requests and JSON decoding in `enrich_metadata` are abstracted. A failed request or undecodable body is `Lookup.RequestFailed`, and the decoded reply is a `Lookup.Reply`. A `cited_by_count` holding JSON `null` is not distinguished from a number. A `concepts` holding JSON `null` makes `None[:3]` raise, which in the program falls back to no citations and no concepts; the model reads it as a missing key and keeps the citation count. A `display_name` holding `null` would put `None` into the concept list; the model's names are always strings.
- The Groq and Gemini calls are parameters. Prompts keep only their varying parts; the fixed instruction wording, model names and temperatures are not modelled.
- `generate_synthetic_data`, `data_analyst_agent` and the pandas processing are left out. Only the analyst insight string reaches the model, through `Pipeline.Insight`.
- PDF generation and reading (`generate_pdf_from_text`, PyPDF2) and the draft editor tab are left out: I/O and further service calls.
- Client construction and environment variables are left out.
- Unicode is covered only as far as `str.isspace` and `re.IGNORECASE` against the ASCII anchors. The four non-ASCII letters Python folds onto ASCII letters are included, and no other normalisation is modelled.
- Python dictionaries are records. A missing key is an `Option` field, in-place mutation is a returned copy, and aliasing between `clean` and the knowledge base is not modelled.
- Papers.CleanAndDeduplicate: `enrich_metadata` is called for every survivor, including those past the fifth that `[:5]` drops. Lookups are pure functions here, so the extra calls change nothing in the result.
- Papers.CleanAndDeduplicate: the test `not p['abstract']` is subsumed by the length check against 50. A `None` abstract is not modelled.
- SectionLayout.ParseLayout: the round trip covers replies that start with the SUMMARY header; text before the first header is not modelled by it.
- Sections.Parse: its own contract states only the placeholder cases. The content of a present field is stated by Sections.ParseMatchesRegexes, Sections.CaptureSpan and Sections.HypothesisRunsToEnd.

## Findings

| source | as written | input that shows it | evidently intended | confidence | as-written member | corrected member |
|---|---|---|---|---|---|---|
| app.py:226 | the writer indexes `p['methodology']` and `p['analysis']` directly, outside its `try`; the UI call at app.py:480-485 has no handler | one paper whose analysis request raises: app.py:142 sets only `summary`, so the writer raises `KeyError` and "Generate PDF Report" fails | a missing field reads as "", as app.py:151 does with `.get` | not executed | Writer.FailedAnalysisStopsWriter | Writer.ReadyWriterAgrees |
