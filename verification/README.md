# AgileStories estimation and analysis core, in Dafny

This project models the logic of AgileStories that turns language-model
completions into structured results. AgileStories is a user-story review
tool: an agile coach, a senior developer and a team of estimator personas
each answer with free text.

- **Team estimates.**
  - The day-estimate workflow reads each member's `Person-days:` line. It
    averages the numbers found and routes workflow steps
    (`ai/workflow/story_handler_days.py`).
  - The two command-line collectors do the same with `Story Points:` and
    `Person-days`. The story-point collector also snaps the average to the
    nearest Fibonacci value (`scripts/test_team_points.py`,
    `scripts/test_team_estimation.py`).
- **Analysis packaging.**
  - `Story` and `AnalysisResult` and their dictionary forms.
  - The bulleted list rendering.
  - The success and error envelopes of the agile and technical stages.
  - The placeholder extractors (`ai/shared/story_analyzer.py`).
- **Presentation.**
  - The frontend's `transformAnalysis`, which builds the six INVEST entries
    and the key/value suggestions (`frontend/src/api/storyApi.ts`).
  - The text report of `scripts/format_response.py`.

Everything is modelled as pure functions over immutable datatypes. Several
things become explicit inputs:
- the completion calls, as `Completion` and `CallOutcome`;
- JSON decoding, as a decoded `Reply` or `ReportBody`, or a `loads` function;
- the clock, as timestamp strings.

Python exceptions that escape a function become `Raised` values of `Result`.
Absent dictionary keys are `None` of `Option`.

The files are:
- `results.dfy`: `Option` and `Result`.
- `text.dfy`: the string operations the sources use, with round-trip lemmas. These are `strip`/`trim`, `split`, `join`, `in`/`includes`, `replace` of the first occurrence, and `startswith`.
- `decimal.dfy`: Python `float(text)` on plain decimal text. It states exactly which texts parse and the value of each as an exact real, and proves that printing a number and parsing the text back gives the same value.
- `estimation.dfy`: shared by the three estimate collectors. It covers the first-match line scan, gathering per-reply outcomes, the mean, and the nearest-member snap.
- `team_points.dfy`, `team_estimation.dfy`, `story_handler_days.dfy`, `story_analyzer.dfy`, `story_api.dfy`, `format_response.dfy`: one module per source file.

## Model

| member | source | states |
|---|---|---|
| Decimal.ParseShow | ai/workflow/story_handler_days.py:97 | `float(segment.strip())` of a decimal written with an optional minus and fraction, padded with whitespace on both sides, is the number written, as an exact real |
| Decimal.ParseDecimal | ai/workflow/story_handler_days.py:97 | a text that parses has a digit after stripping, and a negative value comes only from a leading minus sign |
| Decimal.ParseDecimalAccepts | ai/workflow/story_handler_days.py:97 | a text parses iff, once stripped, it is an optional `+` or `-` followed by digits with at most one `.` and at least one digit; every other text is a `ValueError` |
| Decimal.ParseWritten | ai/workflow/story_handler_days.py:97 | any numeral with a point, under an optional `+` or `-`, with leading zeros or an empty side of the point (`+5.`, `05.25`, `-.5`) and padded with whitespace, parses to its signed value |
| Decimal.ParseWrittenWhole | ai/workflow/story_handler_days.py:97 | any numeral without a point, under an optional `+` or `-` and with leading zeros (`+5`, `007`), padded with whitespace, parses to its signed value |
| Decimal.ParseUnsignedAccepts | ai/workflow/story_handler_days.py:97 | an unsigned text parses iff it is digits with at most one `.` and at least one digit |
| Decimal.StrayCharRejected | ai/workflow/story_handler_days.py:96-99 | a character after the first that is neither a digit nor `.` (a unit as in `5 days`, a range as in `3-5`, a doubled sign as in `+-1`) makes the segment no number |
| Decimal.SecondDotRejected | ai/workflow/story_handler_days.py:96-99 | a second `.` (as in `1.2.3`) makes the segment no number |
| Decimal.NoDigitNoNumber | ai/workflow/story_handler_days.py:96-99 | a segment with no digit never yields a number (the `try` falls through to the next line) |
| Text.JoinSplit | ai/workflow/story_handler_days.py:94 | splitting a text on a character and joining the pieces with it restores the text |
| Text.SplitJoin | ai/workflow/story_handler_days.py:94 | splitting a join of separator-free pieces gives back exactly those pieces |
| Text.Split | ai/workflow/story_handler_days.py:94 | there is at least one piece, no piece contains the separator, and there is exactly one piece iff the text has no separator |
| Text.RemoveFirst | frontend/src/api/storyApi.ts:44 | `replace(pat, '')` with a string pattern cuts out an occurrence of `pat` that has no occurrence before it, so the first one, and changes nothing when `pat` is absent |
| Text.RemoveFirstSplice | frontend/src/api/storyApi.ts:44 | cutting `pat` out of `a + pat + b`, when no occurrence starts inside `a`, leaves `a + b` |
| Text.Find | frontend/src/api/storyApi.ts:42 | the reported position is an occurrence with none before it; absence means no occurrence anywhere |
| Text.StripPadded | ai/workflow/story_handler_days.py:97 | stripping removes exactly the whitespace padding around a trimmed text |
| Estimation.SecondSegment | ai/workflow/story_handler_days.py:97 | `line.split(':')[1]` is absent exactly when the line has no colon (the `IndexError` case); otherwise it starts right after the first colon and runs up to the second colon or the end of the line |
| Estimation.SecondSegmentOf | ai/workflow/story_handler_days.py:97 | for colon-free `head` and `segment`, both `head:segment` and `head:segment:tail` have `segment` as their second segment |
| Estimation.FirstValue | ai/workflow/story_handler_days.py:94-100 | no value iff no line yields one; otherwise the value of a line that yields one, with every earlier line yielding none |
| Estimation.FirstValueIgnoresLaterLines | ai/workflow/story_handler_days.py:94-97 | once a line yields a value, appending lines changes nothing (the loop returns early) |
| Estimation.FirstValueSkipsMisses | ai/workflow/story_handler_days.py:95-99 | lines that yield nothing, including labelled lines that do not parse, can be put in front without changing the result |
| Estimation.ExtractEstimateOfLines | ai/workflow/story_handler_days.py:94 | the estimate of a text built from newline-free lines is the first value among those lines |
| Estimation.Gather | scripts/test_team_points.py:67-83 | collecting succeeds iff no reply raised; at most one estimate per reply; no estimate iff every reply yielded none |
| Estimation.GatherEmpty | scripts/test_team_points.py:67-99 | no exception and no estimate iff every reply returns normally without an estimate (the "No valid estimates found" case) |
| Estimation.GatherAppend | scripts/test_team_points.py:69-80 | estimates are appended in reply order: gathering a concatenation concatenates the estimates |
| Estimation.MeanBounds | scripts/test_team_points.py:87 | `sum(estimates) / len(estimates)` lies between any lower and upper bound of the estimates |
| Estimation.MeanAppend | scripts/test_team_points.py:87 | the mean of two lists together is the length-weighted mean of the two lists' means |
| Estimation.NearestIndex | scripts/test_team_points.py:90 | `min` with a distance key returns a closest member, and every earlier member is strictly farther (ties go to the first) |
| Estimation.SnapToFibonacci | scripts/test_team_points.py:66-90 | the snapped value is on the scale 1, 2, 3, 5, 8, 13, 21, no member is closer, and every smaller member is strictly farther |
| Estimation.SnapFixesScaleMembers | scripts/test_team_points.py:66-90 | a value already on the scale snaps to itself |
| Estimation.SnapIdempotent | scripts/test_team_points.py:90 | snapping twice is snapping once |
| Estimation.SnapExamples | scripts/test_team_points.py:90 | 4.4 snaps to 5; 4.0 is a tie between 3 and 5 and goes to 3 |
| TeamPoints.ScanPointsIsFirstMatch | scripts/test_team_points.py:76-83 | for a member with a name, the per-reply scan is first-match over `Story Points:` lines; an unparsable line is skipped |
| TeamPoints.ScanPointsWithoutName | scripts/test_team_points.py:76-83 | for a member without `name`, the scan raises iff an unparsable `Story Points:` line comes before the first parsable one (the handler reads `member['name']`); otherwise it is first-match |
| TeamPoints.ReplyPoints | scripts/test_team_points.py:69-73 | a reply whose status is not 200 contributes nothing and cannot raise; a status-200 reply that does not raise has a decodable body with a `team_member` and an `analysis` |
| TeamPoints.ReplyPointsWellFormed | scripts/test_team_points.py:69-83 | a well-formed status-200 reply from a named member contributes the first `Story Points:` value of its analysis |
| TeamPoints.ReplyPointsUnnamed | scripts/test_team_points.py:69-83 | a well-formed status-200 reply from a member without `name` raises (ending the whole calculation) iff an unparsable `Story Points:` line comes before the first parsable one; otherwise it contributes the first `Story Points:` value |
| TeamPoints.CalculateAverageEstimate | scripts/test_team_points.py:64-99 | it completes iff no reply raises; "no valid estimates" iff no reply yields one; otherwise the estimates are the collected ones in reply order (1 to n of them), the raw average is their mean and lies between their minimum and maximum, and the Fibonacci estimate is the snap of that average |
| TeamPoints.SingleReplyUnchecked | scripts/test_team_points.py:79-90 | a single reply's value is the raw average as is, even when off the scale; only the snapped value is on the scale |
| TeamPoints.CollectPointsAppend | scripts/test_team_points.py:69-80 | estimates appear in reply order |
| TeamEstimation.ReplyDays | scripts/test_team_estimation.py:58-64 | non-200 replies contribute nothing; a status-200 reply that does not raise has a body, a `team_member` with a `name`, and an `analysis` |
| TeamEstimation.ColonlessLineContributesNothing | scripts/test_team_estimation.py:66-76 | a line mentioning `Person-days` without any colon contributes nothing (the `IndexError` is caught) |
| TeamEstimation.LabelledLineValue | scripts/test_team_estimation.py:67-72 | a line `prefix:number`, where the prefix mentions `Person-days`, yields that number whatever else the prefix says |
| TeamEstimation.CalculateAverageEstimate | scripts/test_team_estimation.py:55-86 | it completes iff no reply raises; no estimates iff no reply yields one; otherwise the estimates are the collected ones in reply order (1 to n of them) and the average is their mean, between their minimum and maximum |
| TeamEstimation.CollectDaysAppend | scripts/test_team_estimation.py:58-74 | estimates appear in reply order |
| TeamEstimation.ReplyDaysWellFormed | scripts/test_team_estimation.py:58-74 | a well-formed status-200 reply contributes exactly its first parsable `Person-days` value, or nothing |
| StoryHandlerDays.BuildEvent | ai/workflow/story_handler_days.py:49-55 | the event exists iff the story has `text` and `acceptance_criteria`, and it copies them; `context` defaults to the empty string |
| StoryHandlerDays.ExtractDayEstimateOfLines | ai/workflow/story_handler_days.py:92-100 | the day estimate of a multi-line analysis is none iff no line yields a `Person-days:` number; otherwise it is the number of the first line that does |
| StoryHandlerDays.LabelledLineParsesSegment | ai/workflow/story_handler_days.py:95-97 | a line containing `Person-days:` always has a colon, and contributes what its second colon-segment parses to |
| StoryHandlerDays.Entry | ai/workflow/story_handler_days.py:67-80 | a member's outcome is kept iff the call returned a status-200 reply with a decodable body holding `analysis`; a kept entry copies name, role and analysis and carries the extracted estimate |
| StoryHandlerDays.TeamEntriesAppend | ai/workflow/story_handler_days.py:66-78 | entries are appended in join order: the entries of a concatenation concatenate |
| StoryHandlerDays.TeamEntriesSingle | ai/workflow/story_handler_days.py:69-80 | one outcome adds its entry when kept, and nothing otherwise |
| StoryHandlerDays.KnownEstimates | ai/workflow/story_handler_days.py:83 | at most one known estimate per entry, and none iff every entry's estimate is `None`; with KnownEstimatesAppend and KnownEstimatesSingle, exactly the present estimates in entry order |
| StoryHandlerDays.KnownEstimatesAppend | ai/workflow/story_handler_days.py:83 | the known estimates of a concatenation are those of each part, in order |
| StoryHandlerDays.KnownEstimatesSingle | ai/workflow/story_handler_days.py:83 | one entry gives its estimate if it has one, and nothing otherwise |
| StoryHandlerDays.AggregateDayEstimates | ai/workflow/story_handler_days.py:66-90 | `team_estimates` is the kept entries in join order; `total_estimates` counts their known estimates and is 0 iff none is known; the average is 0 then, and otherwise the mean of the known estimates, between the smallest and largest |
| StoryHandlerDays.GetTeamDayEstimates | ai/workflow/story_handler_days.py:49-90 | it raises iff the story lacks `text` or `acceptance_criteria`; otherwise its result is the aggregation of the joined outcomes, with at most one entry and one estimate per team member |
| StoryHandlerDays.HandleStoryWorkflowDays | ai/workflow/story_handler_days.py:102-120 | `start` goes to the initial analysis; `agile_feedback` goes to feedback, approved iff the action is `approve`; `technical_feedback` with `approve` goes to the team estimates; anything else is the invalid-step error |
| StoryHandlerDays.TechnicalRejectionIsInvalid | ai/workflow/story_handler_days.py:117-120 | a technical review that is not approved gets the error response |
| StoryApi.CriterionPiece | frontend/src/api/storyApi.ts:42-46 | a line contributes iff it contains `criterion:`, and it contributes the line with the first occurrence of the tag cut out, trimmed |
| StoryApi.CriterionPieces | frontend/src/api/storyApi.ts:41-46 | at most one piece per line, none iff no line contains the tag, and every piece trimmed |
| StoryApi.CriterionPiecesAppend | frontend/src/api/storyApi.ts:41-46 | the filter-and-map works line by line: the pieces of a concatenation concatenate |
| StoryApi.CriterionPiecesSingle | frontend/src/api/storyApi.ts:42-46 | a single line contributes its piece or nothing |
| StoryApi.CriterionContentAbsent | frontend/src/api/storyApi.ts:38-47 | an analysis that never mentions `criterion:` gives that entry empty content |
| StoryApi.SingleMentionContent | frontend/src/api/storyApi.ts:38-47 | with one heading line and one line mentioning the criterion, the content is that line with the tag removed, trimmed |
| StoryApi.KeyValue | frontend/src/api/storyApi.ts:68-71 | a pair exists iff the text has a colon and does not start with one; the key is the trimmed text before the first colon, and the value the trimmed text after it, later colons kept |
| StoryApi.Suggestion | frontend/src/api/storyApi.ts:57-71 | a line adds a pair iff it is a suggestion line, its key/value split succeeds, and the key is not `__proto__` (assigning a string to that key of a plain object is ignored) |
| StoryApi.RecordKeys | frontend/src/api/storyApi.ts:66-72 | the record's keys are exactly the keys of the pairs the lines add, which never include `__proto__` |
| StoryApi.ReservedKeyNeverRecorded | frontend/src/api/storyApi.ts:69 | whatever the analysis, `__proto__` is never a key of the found suggestions |
| StoryApi.RecordLastWins | frontend/src/api/storyApi.ts:67-71 | a key holds the value of the last line that carries it |
| StoryApi.Suggestions | frontend/src/api/storyApi.ts:57-72 | the record is empty iff no line is a parsable suggestion line with a key other than `__proto__` |
| StoryApi.ShownSuggestions | frontend/src/api/storyApi.ts:80 | found suggestions are shown when there are any; otherwise the reply's own, or `{}` |
| StoryApi.FirstEntry | frontend/src/api/storyApi.ts:12-54 | the first entry is always `Independent`, lettered `I`, with that criterion's content |
| StoryApi.InvestAnalysis | frontend/src/api/storyApi.ts:12-54 | six entries in INVEST order, each titled with its criterion, lettered with its initial, and holding the joined pieces of the lines that mention it |
| StoryApi.InvestEntries | frontend/src/api/storyApi.ts:38-53 | entry k is the k-th letter of INVEST, the k-th criterion, and that criterion's content |
| StoryApi.TransformAnalysis | frontend/src/api/storyApi.ts:36-82 | six entries lettered I, N, V, E, S, T with their criteria and contents; the suggestions found in the analysis when some line yields one, which are then non-empty, and otherwise the reply's own or `{}`; the improved story's text defaults to `''` and its criteria to `[]` |
| StoryApi.InvestLetters | frontend/src/api/storyApi.ts:12-40 | the entry letters spell I, N, V, E, S, T in order |
| StoryApi.SuggestionsFallBack | frontend/src/api/storyApi.ts:57-80 | with no suggestion line in the analysis, the reply's own suggestions (or `{}`) are shown |
| StoryApi.SuggestionsFound | frontend/src/api/storyApi.ts:57-80 | once one line yields a pair (a parsable suggestion line whose key is not `__proto__`), the found record is shown and contains its key |
| StoryApi.IndependentExample | frontend/src/tests/storyApi.test.ts:16-37 | for the test's reply (its analysis given as the heading, a newline and the bulleted line), the first entry is letter `I`, title `Independent`, and content `-  Score: 4 Good independence...`, which contains `Score: 4` |
| StoryAnalyzer.NewStory | ai/shared/story_analyzer.py:11-16 | a story built from text, criteria and context has version 1 and those fields |
| StoryAnalyzer.StoryToDict | ai/shared/story_analyzer.py:18-19 | the dictionary has exactly the keys text, acceptance_criteria, context and version |
| StoryAnalyzer.StoryDictRoundTrip | ai/shared/story_analyzer.py:18-19 | `to_dict` reproduces all four fields: the story reads back from it |
| StoryAnalyzer.StoryDictInverse | ai/shared/story_analyzer.py:18-19 | every well-formed story dictionary is the `to_dict` of the story read from it |
| StoryAnalyzer.ResultToDict | ai/shared/story_analyzer.py:29-36 | the result dictionary has exactly the five keys |
| StoryAnalyzer.ResultDictRoundTrip | ai/shared/story_analyzer.py:29-36 | the result dictionary, with the story nested as its own dictionary, loses nothing |
| StoryAnalyzer.ResultDictInverse | ai/shared/story_analyzer.py:29-36 | every well-formed result dictionary is the `to_dict` of the result read from it |
| StoryAnalyzer.FormatList | ai/shared/story_analyzer.py:175-177 | the rendering is `None provided` iff the list is empty; otherwise it is the items, each behind a `- ` bullet, joined by newlines in order |
| StoryAnalyzer.FormatListRoundTrip | ai/shared/story_analyzer.py:175-177 | single-line items are read back from the rendering, where every line must carry the `- ` bullet, in order: none lost, none invented |
| StoryAnalyzer.FormatListInverse | ai/shared/story_analyzer.py:175-177 | every text that reads back as a bulleted list, or `None provided`, is the rendering of what it reads back as |
| StoryAnalyzer.StringsRoundTrip | ai/shared/story_analyzer.py:11-19 | a list of strings survives its JSON form |
| StoryAnalyzer.ExtractorsConstant | ai/shared/story_analyzer.py:180-202 | the six extraction helpers do not depend on the analysis text |
| StoryAnalyzer.AgileSuggestions | ai/shared/story_analyzer.py:78-82 | exactly the keys improved_story, acceptance_criteria and invest_analysis, holding `Extraction not implemented`, `[]` and `{}` |
| StoryAnalyzer.TechnicalSuggestions | ai/shared/story_analyzer.py:118-122 | exactly the keys technical_feasibility, implementation_details and complexity, holding `Extraction not implemented`, `{}` and `Medium` |
| StoryAnalyzer.Envelope | ai/shared/story_analyzer.py:84-98 | the status is `success` iff the call completed, with its text and the stage's suggestions; otherwise `error`, with the message and no suggestions; the story is unchanged |
| StoryAnalyzer.AgileAnalysis | ai/shared/story_analyzer.py:60-98 | success iff completed; analysis is the completion or the error message; agile suggestion keys on success, `{}` on error; same story |
| StoryAnalyzer.TechnicalAnalysis | ai/shared/story_analyzer.py:100-138 | success iff completed; analysis is the completion or the error message; technical suggestion keys with complexity `Medium` on success, `{}` on error; same story |
| StoryAnalyzer.AnalyzeStory | ai/shared/story_analyzer.py:46-58 | `timestamp` is the clock reading; both stage results carry the input story and the class-level timestamp; each is `success` with its completion and its stage's suggestion keys iff its own call completed, and `error` with the message and `{}` otherwise |
| StoryAnalyzer.AnalyzeStoryShared | ai/shared/story_analyzer.py:46-58 | both results carry the input story and the same class-level timestamp, and each succeeds iff its own call completed |
| FormatResponse.Rule | scripts/format_response.py:14 | a rule is 80 copies of its character |
| FormatResponse.ShownCriteria | scripts/format_response.py:25 | criteria are shown iff present and non-empty |
| FormatResponse.ReportLines | scripts/format_response.py:13-34 | eleven fixed lines, plus a header, a rule and one line per criterion when criteria are shown |
| FormatResponse.ReportFrame | scripts/format_response.py:13-34 | `=` rule, title, `=` rule at the top; the story header in slot 5 and the story, or an empty line, in slot 7; the analysis header, a `-` rule and the analysis, or an empty line, last |
| FormatResponse.ReportCriteriaSlots | scripts/format_response.py:24-29 | slot 8 holds the criteria header iff criteria are shown, and the criteria follow from slot 10 as `- ` bullets in order |
| FormatResponse.ReportOpens | scripts/format_response.py:13-36 | the text is the `=` rule, the title and the `=` rule, each followed by a newline, then the rest of the report |
| FormatResponse.ReportCloses | scripts/format_response.py:32-36 | the text is the rest of the report, then the analysis header, a `-` rule and the analysis, each after a newline |
| FormatResponse.ReportBrackets | scripts/format_response.py:13-36 | every report text starts with the `=` rule, the title and the `=` rule, each with its newline, and ends with a newline, the analysis header, a `-` rule and the analysis |
| FormatResponse.ReportCriteriaBlock | scripts/format_response.py:25-36 | with criteria, the text is the header block, then the criteria header, a rule and the bullets, then the analysis block |
| FormatResponse.ReportWithoutCriteria | scripts/format_response.py:25-36 | without criteria the header block is followed directly by the analysis block |
| FormatResponse.ErrorReport | scripts/format_response.py:38-39 | the error text starts with `Error formatting response: `, then the message, and ends with the original-response marker and the input verbatim |
| FormatResponse.AbsentBodyReport | scripts/format_response.py:10-39 | a reply without a `body` key, when `{}` decodes to a body without keys, is the report with an empty story, no criteria block and an empty analysis |
| FormatResponse.FormatAnalysis | scripts/format_response.py:5-39 | a failure to decode either the reply or its body (an absent body decodes from `{}`) gives an error text that starts with `Error formatting response: ` and ends with the marker and the input verbatim; otherwise the report lines joined by newlines, opening with the title block and closing with the analysis block |

## Left out

- Completion and estimator calls, the thread pool and credential loading. The OpenAI requests, the concurrent fan-out, and the environment and `.env` reads are foreign I/O. Their outcomes are inputs: `Completion` for the analysis stages, `CallOutcome`/`MemberOutcome` for the joined futures, and `Reply` for the scripts' responses. Completion order is whatever order the joined list has.
- StoryHandlerDays.HandleStoryWorkflowDays: `start_analysis` and `process_user_feedback` are not defined in `ai/shared/story_analyzer.py`. The route names the handler and its approval flag but does not model what those handlers do.
- Decimal.ParseDecimal: values are exact reals. Python's `float` rounds to the nearest double, so `0.1` is not exactly 1/10, and a numeral beyond the largest double (about 1.8e308; for instance any numeral with 310 or more integer digits after its leading zeros) becomes `inf`. Neither is modelled.
- TeamPoints.CalculateAverageEstimate: the sum and mean are exact. Python's IEEE `sum(estimates) / len(estimates)` can round, which can move a value that lies exactly between two Fibonacci members to the other side of the tie. The same applies to TeamEstimation.CalculateAverageEstimate's mean.
- StoryHandlerDays.AggregateDayEstimates: the average is the exact mean. `round(average, 1)` and IEEE float arithmetic are not modelled, because values are exact reals. The bounds still hold for the unrounded mean.
- Decimal.ParseDecimal: Python's `float` grammar is only partly modelled. Exponents, `inf`/`nan`, digit-group underscores and non-ASCII digits are not, because the estimates are plain decimals. Text in those forms yields no number here, where Python might parse it.
- Text.Strip: only the ASCII whitespace both languages trim (space, and tab through carriage return) is trimmed. Python's `str.strip()` also removes `\x1c` to `\x1f`, which JavaScript's `trim()` keeps, and both remove Unicode spaces. One `Strip` serves both the Python and the JavaScript paths. So a segment padded with those characters parses in Python but yields no number here.
- Printing: the scripts' `print` output, their debug lines and `:.1f` formatting are left out. The collectors return what they would report, and printing does not affect control flow, with two exceptions, both modelled. The points script's handler reads `member['name']` (scripts/test_team_points.py:83). The days script's debug print reads `member['name']` before the scan (scripts/test_team_estimation.py:64). Either read raises `KeyError` when the member has no name.
- Timestamps: `datetime.now()` readings are strings passed in. This includes the class-level default that `AnalysisResult.timestamp` takes once, at class definition.
- Prompt construction (`_create_agile_prompt`, `_create_technical_prompt`) and the persona prompt templates are left out. They are static text. The persona `UXDesigner.get_prompt` takes no arguments although its base class passes three (ai/agents/team/ux_designer.py:10), so that persona always ends in its error path; it is not modelled.
- JSON decoding: bodies are decoded records, or `loads` in the report formatter. Their fields have the types the code expects. Non-string values, and the errors they would cause when indexed, interpolated or joined, are not modelled.
- `LETTER_COLORS`, `SECTION_TITLES` and `submitStoryForAgileReview` in `frontend/src/api/storyApi.ts` are left out: display constants and an HTTP call. `transformAnalysis` takes `analysis` as the string its type declares.
- StoryApi.Suggestions: the record is a map, so the key insertion order of a JavaScript object is not represented.
