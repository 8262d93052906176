# Test-of-design control analysis, modelled in Dafny

The tool sends each internal-control row of a spreadsheet to an LLM nine times and writes the answers back as new columns. The nine questions are:

1. completeness against the six W's;
2. control objective;
3. execution;
4. control type;
5. frequency;
6. system dependencies;
7. adaptability;
8. an overall rating;
9. the evidence to expect.

This project models the deterministic core of that tool and proves what the code promises about it. The network call becomes a sequence of attempt outcomes, and `json.loads` becomes an abstract parse function.

- **Retry** (`retry.dfy`) models `make_llm_call_with_retry`.
  - Errors are classified by substring on the lower-cased message, in priority order: 429 / too many requests, 401 / unauthorized, 404 / not found, then anything else.
  - The delays are in integer milliseconds: capped exponential for a rate limit, uncapped for a generic error.
  - The loop is an imperative method proved equal to a specification function `CallSpec`.
  - `CallSpec` exposes the result, the number of attempts and the sleeps taken, and lemmas state what that trace promises.
- **ClientSetup** (`client_setup.dfy`) models `initialize_client`.
  - It covers the placeholder-key exit and the warning for an unsupported model.
  - It also covers the probe loop, which ends the program (`Exit`, with a reason) where the call loop would return `None`.
- **Extraction** (`extraction.dfy`) models `extract_json_from_response`.
  - A case-insensitive `json` tag is dropped.
  - The greedy `\{.*\}` span is selected: it runs from the first `{` to the last `}`.
  - The parser's exceptions become `None`.
- **Catalog** (`catalog.dfy`) models what the nine `ask_*` functions do with a reply:
  - the `if not raw_response` / `if not data` guards and their failure markers;
  - `.get(key, "LLM error")`;
  - the `• k: v` bullet lists;
  - the exception a truthy non-dict raises.
- **Processor** (`processor.dfy`) models the record loop of `process_controls`.
  - `ResultLists` is a class holding the nineteen result lists. Its methods append step by step, and its padding loop runs when a step raises.
  - The methods are proved against `Table`, in which list `k` holds cell `k` of every record, in input order.
- **Assembly** (`assembly.dfy`) models the data-frame side.
  - It covers the required-column check of `load_and_validate_data`.
  - It also covers the column assignments, deletions and rename of `process_controls`, on a `Frame` class whose columns the methods update.
- **Report** (`report.dfy`) models the text rules of `save_results_to_excel`.
  - The `Present & Missing` cell is rewritten line by line, each decision reading the lines already emitted.
  - The red font is chosen from those lines.
  - As written, the program never reaches that rewrite. Two rows are inserted above the sheet's header after it is written, and the pair column is then looked up in the row where the header used to be, which is now empty. The rewrite and the font are modelled as they run once the lookup reads the header row (see "## Findings").
  - The sheet layout is modelled as far as that lookup reads it.
  - The automatic column width is modelled too.
- **Demo** (`demo.dfy`) models the decisions of `demo.py`: the version gate, the key check and its masking, and the answer to the confirmation prompt.
- **Text**, **JsonValue** and **Wrappers** hold the Python string built-ins the core uses (`strip`, `lower`, `split`, `join`, `in`), the loaded JSON value with its truthiness, `dict.get` and `str()`, and `Option`.

Nothing is executed: inputs that the program reads from its environment are parameters of the model.
- `service` is a per-call sequence of `Attempt`s, each `Reply(choices)` or `Raise(message)`.
- `parse` stands for `json.loads`.
- `env` and `entered` are the environment variable and the typed answer.

Where the documented behaviour of the tool and its code disagree, the model follows the code:
- An authentication or not-found error during a call gives `None` for that call. It is not fatal.
- A generic error backs off without the cap, and does not sleep after the last attempt.
- A model outside the supported list only produces a warning.
- Without a brace span, the untrimmed reply is parsed. It is stripped only when a `json` tag was removed.
- Completeness fails as `("", "LLM error", "")` and the dependency question as `("LLM error", "")`.

## Model

| member | source | states |
|---|---|---|
| Retry.CallSpec | tod_control_testing_v21_enhanced.py:196 | the call loop makes at most `MAX_RETRIES` attempts, and at least one when the budget is positive |
| Retry.MakeLlmCallWithRetry | tod_control_testing_v21_enhanced.py:194-227 | the loop, branch for branch, returns exactly the result, attempt count and sleeps of `CallSpec` |
| Retry.BackoffIsExponential | tod_control_testing_v21_enhanced.py:221-224 | the delay after attempt `a` is `RETRY_DELAY * 2 ** a` |
| Retry.RunShape | tod_control_testing_v21_enhanced.py:196-227 | the attempt loop stops at its first finishing step or after the budget; every earlier step went on; it returns that step's value (or the fallback) with the sleeps of exactly the attempts made |
| Retry.RunStopsAt | tod_control_testing_v21_enhanced.py:205-220 | the first step that finishes ends the loop with its value, after `k + 1` attempts and the earlier sleeps |
| Retry.RunExhausts | tod_control_testing_v21_enhanced.py:227 | when no step finishes, every attempt is made and the fallback is returned |
| Retry.CallStepFacts | tod_control_testing_v21_enhanced.py:205-226 | one attempt ends the loop exactly when it is not a retryable failure; it returns text exactly when the reply had content, which it returns stripped; a rate-limited failure sleeps the capped delay of that attempt, the last attempt included; a generic failure sleeps the uncapped delay, except on the last attempt, where it neither sleeps nor stops |
| Retry.FailureStepFacts | tod_control_testing_v21_enhanced.py:206-226 | an exception ends the loop, with `None`, exactly when it is classified neither rate limit nor generic; a rate limit sleeps `min(RETRY_DELAY * 2 ** attempt, MAX_RETRY_DELAY)`, the last attempt included; a generic error sleeps `RETRY_DELAY * 2 ** attempt` except on the last attempt, which goes on without a sleep |
| Retry.CallSpecRetried | tod_control_testing_v21_enhanced.py:196-226 | every attempt but the last was a retryable failure, and a stop before the budget is used up was caused by one that is not |
| Retry.CallSpecResult | tod_control_testing_v21_enhanced.py:205 | text is returned exactly when the last attempt delivered content, and it is that content stripped |
| Retry.CallSpecWaits | tod_control_testing_v21_enhanced.py:211-224 | the recorded sleeps are those of the attempts made, in order |
| Retry.FirstSuccessWins | tod_control_testing_v21_enhanced.py:205 | after retryable failures, the first attempt with content returns it stripped, and no further attempt is made |
| Retry.NonRetryableStops | tod_control_testing_v21_enhanced.py:215-220 | a 401/unauthorized or 404/not-found error (and not a rate limit, which is checked first) returns `None` after that attempt, with no sleep for it |
| Retry.ExhaustedGivesNone | tod_control_testing_v21_enhanced.py:225-227 | using up the budget on retryable failures returns `None` after exactly `MAX_RETRIES` attempts |
| Retry.BackoffMonotone | tod_control_testing_v21_enhanced.py:222 | a later attempt never backs off less |
| Retry.BackoffSleepsIncrease | tod_control_testing_v21_enhanced.py:221-224 | sleeps that follow the uncapped schedule strictly increase and are bounded by its last delay |
| Retry.CallSleepsIncrease | tod_control_testing_v21_enhanced.py:211-224 | with a positive base delay and a cap that the budget's delays never reach, the recorded sleeps strictly increase |
| Retry.DefaultBackoffs | tod_control_testing_v21_enhanced.py:60-62 | the default delays are 1, 2, 4, 8 and 16 seconds |
| Retry.DefaultsNeverCapped | tod_control_testing_v21_enhanced.py:212 | with the defaults the 60 s cap is never reached: the capped and uncapped delays agree |
| Retry.DefaultSleepsIncrease | tod_control_testing_v21_enhanced.py:211-224 | with the defaults, the recorded sleeps strictly increase, whatever the service does |
| Retry.DefaultAllRateLimited | tod_control_testing_v21_enhanced.py:211-214 | five rate-limit errors give `None` after five attempts, with a sleep after every one of them, the last included |
| Retry.DefaultAllOtherErrors | tod_control_testing_v21_enhanced.py:221-226 | five generic errors give `None` after five attempts, with no sleep after the last |
| Retry.NoKeywordIsOtherError | tod_control_testing_v21_enhanced.py:207-221 | a message that contains none of the six keywords, in any letter case, takes the generic branch |
| Retry.NoChoicesIsOtherError | tod_control_testing_v21_enhanced.py:205 | the `IndexError` of a reply without choices takes the generic branch |
| Retry.NoContentIsOtherError | tod_control_testing_v21_enhanced.py:205 | the `AttributeError` of a choice without content takes the generic branch |
| Retry.MalformedReplyRetried | tod_control_testing_v21_enhanced.py:205-224 | a reply with no choices or no content is retried like any other generic error |
| ClientSetup.ProbeSpec | tod_control_testing_v21_enhanced.py:119 | the probe makes at most `MAX_RETRIES` attempts, and at least one when the budget is positive |
| ClientSetup.InitializeClient | tod_control_testing_v21_enhanced.py:95-167 | `initialize_client`, branch for branch: it returns exactly the model warning, outcome, attempts and sleeps of `StartupSpec` |
| ClientSetup.ProbeStepFacts | tod_control_testing_v21_enhanced.py:131-164 | one probe attempt: it connects exactly on a non-empty reply, exits for authentication exactly on a 401 class error and for the endpoint exactly on a 404 class error, and ends with "all attempts failed" exactly on a generic error at the last attempt; it never gives the placeholder or the not-established exit |
| ClientSetup.ProbeFailureFacts | tod_control_testing_v21_enhanced.py:138-164 | each kind of exception ends the probe, or not, as its `except` branch says, and never connects |
| ClientSetup.ProbeSpecRetried | tod_control_testing_v21_enhanced.py:119-164 | every probe attempt but the last was retried, and an early stop was on an attempt that is not |
| ClientSetup.ProbeSpecLast | tod_control_testing_v21_enhanced.py:119-167 | the probe ends with its last attempt's decision, or with "could not be established" after the full budget when that attempt was retried |
| ClientSetup.ConnectedIff | tod_control_testing_v21_enhanced.py:131-134 | the client is returned exactly when the last attempt's reply had choices and non-empty content |
| ClientSetup.NotEstablishedOnlyAfterRateLimit | tod_control_testing_v21_enhanced.py:143-167 | "could not be established" is reached only after every attempt, the last of them rate-limited |
| ClientSetup.AuthErrorExits | tod_control_testing_v21_enhanced.py:147-149 | an authentication error exits at once, after the earlier retried attempts and their sleeps |
| ClientSetup.LastGenericErrorExits | tod_control_testing_v21_enhanced.py:153-164 | a generic error on the last attempt exits with "all attempts failed" |
| ClientSetup.PlaceholderKeyExits | tod_control_testing_v21_enhanced.py:97-99 | the placeholder key exits before any attempt and before the model check |
| ClientSetup.RealKeyProbes | tod_control_testing_v21_enhanced.py:102-104 | with a real key, the warning is given exactly for an unsupported model, and the outcome is the probe's |
| ClientSetup.DefaultModelSupported | tod_control_testing_v21_enhanced.py:102-104 | the configured model `gpt-4` is in the supported list, so with a real key startup gives no model warning and goes straight to the probe |
| ClientSetup.InvalidStructureIsOtherError | tod_control_testing_v21_enhanced.py:136 | the probe's own "Invalid response structure" exception takes the generic branch |
| ClientSetup.EmptyReplyIsGenericFailure | tod_control_testing_v21_enhanced.py:131-136 | an empty probe reply is retried with backoff, or ends with "all attempts failed" on the last attempt |
| ClientSetup.GenericFailure | tod_control_testing_v21_enhanced.py:153-164 | a generic error is retried with the uncapped delay except on the last attempt, which exits |
| Extraction.TaggedReplyUnprefixed | tod_control_testing_v21_enhanced.py:179-180 | a reply tagged `json` in any letter case loses the four characters and the blanks around the rest |
| Extraction.BraceFirstNotTagged | tod_control_testing_v21_enhanced.py:179 | a reply that opens with `{` is left as it is |
| Extraction.BraceSpanIff | tod_control_testing_v21_enhanced.py:183 | the pattern matches exactly when the first `{` precedes the last `}` |
| Extraction.CandidateSpan | tod_control_testing_v21_enhanced.py:183-184 | with a match, the parser gets the span from the first `{` to the last `}` |
| Extraction.CandidateWithoutSpan | tod_control_testing_v21_enhanced.py:184 | without a match, the parser gets the whole text |
| Extraction.BracedTextUnchanged | tod_control_testing_v21_enhanced.py:183-184 | a text that begins with `{` and ends with `}` is its own span |
| Extraction.CandidateIdempotent | tod_control_testing_v21_enhanced.py:183-184 | selecting the span twice changes nothing |
| Extraction.ExtractJsonParses | tod_control_testing_v21_enhanced.py:175-192 | the result is the parse of the untagged reply's brace span, or of the whole untagged reply when it has none |
| JsonValue.Get | tod_control_testing_v21_enhanced.py:327 | `.get(key, default)` gives the default for an absent key, and otherwise the value of the first entry with the key |
| Catalog.Loaded | tod_control_testing_v21_enhanced.py:283-288 | a value that gets past both guards is truthy |
| Catalog.LoadedIff | tod_control_testing_v21_enhanced.py:282-288 | the guards stop exactly a missing or empty reply, an unparsable one and a falsy parse; otherwise the parsed value is handed on |
| Catalog.NoDataGivesMarkers | tod_control_testing_v21_enhanced.py:282-288 | without data, completeness gives `("", "LLM error", "")`, dependencies give `("LLM error", "")` and the six other questions give `("LLM error", "LLM error")`, without raising |
| Catalog.RaisedIff | tod_control_testing_v21_enhanced.py:319-327 | a question raises exactly when the data is truthy but no dict; the dependency question raises in the same cases, and completeness raises then too |
| Catalog.AnswerFields | tod_control_testing_v21_enhanced.py:327 | on a dict, the answer and the explanation default to "LLM error" independently, and otherwise hold the first value of their key |
| Catalog.SystemDependencyExplanationEmpty | tod_control_testing_v21_enhanced.py:422-430 | the dependency explanation is always empty, and the systems cell is "LLM error" unless the dict has a `systems` key |
| Catalog.CompletenessSectionDefaults | tod_control_testing_v21_enhanced.py:290-298 | a completeness reply without the three sections gives three empty lists, not an error |
| Catalog.BulletLines | tod_control_testing_v21_enhanced.py:294 | one `• k: v` line per item, in order |
| Catalog.BulletsLines | tod_control_testing_v21_enhanced.py:294-296 | splitting a bullet list at newlines gives back its lines, one per item, when no key or value holds a newline |
| Catalog.BulletLineShape | tod_control_testing_v21_enhanced.py:294 | each bullet line starts with the bullet and holds a colon |
| Catalog.EvidenceOfCallReply | tod_control_testing_v21_enhanced.py:499 | the evidence of a call that returned text is that text, already stripped |
| Catalog.EvidenceError | tod_control_testing_v21_enhanced.py:498-499 | the evidence is "LLM error" exactly when the call gave nothing, or that very text |
| Processor.Table | tod_control_testing_v21_enhanced.py:541-610 | after the records, each of the nineteen lists has exactly one entry per record |
| Processor.ResultLists.constructor | tod_control_testing_v21_enhanced.py:528-537 | nineteen empty result lists |
| Processor.ResultLists.Append | tod_control_testing_v21_enhanced.py:548-598 | an append adds the next cell of the record to the next list and changes no other list |
| Processor.ResultLists.PadRecord | tod_control_testing_v21_enhanced.py:605-610 | the padding loop appends "Processing error" to exactly the lists of length at most `idx` |
| Processor.ResultLists.Raise | tod_control_testing_v21_enhanced.py:602-610 | when a step raises, the padding completes the record with the cells `CellsFrom` gives it |
| Processor.ResultLists.CompletenessStep | tod_control_testing_v21_enhanced.py:547-552 | step 1 raises with the record padded, or appends present, missing, suggestions and the pair cell |
| Processor.ResultLists.CompletenessAppends | tod_control_testing_v21_enhanced.py:548-552 | the four appends of step 1, in order |
| Processor.ResultLists.PairStepRun | tod_control_testing_v21_enhanced.py:555-594 | a two-cell step raises with the record padded, or appends its answer and explanation |
| Processor.ResultLists.DesignSteps | tod_control_testing_v21_enhanced.py:554-572 | steps 2 to 5 in order, stopping at the first that raises |
| Processor.ResultLists.ContextSteps | tod_control_testing_v21_enhanced.py:574-594 | steps 6 to 8 in order, stopping at the first that raises |
| Processor.ResultLists.EvidenceStep | tod_control_testing_v21_enhanced.py:597-598 | step 9 appends the evidence and completes the record |
| Processor.ResultLists.RecordSteps | tod_control_testing_v21_enhanced.py:545-610 | the `try` block and its `except`: the lists end extended by exactly the record's cells |
| Processor.ResultLists.ProcessRecord | tod_control_testing_v21_enhanced.py:545-610 | one record extends every list by exactly one entry, the record's cell for that list |
| Processor.AnalyseRecords | tod_control_testing_v21_enhanced.py:541-610 | the record loop leaves the lists equal to `Table`: one entry per record in every list, in input order |
| Processor.TableStep | tod_control_testing_v21_enhanced.py:541 | one more record extends the table by that record's cells and keeps the earlier entries |
| Processor.RecordPadding | tod_control_testing_v21_enhanced.py:602-610 | the steps before the first raising step keep their real cells, and every list from that step on gets "Processing error"; a record that never raises is not padded |
| Processor.PadExtend | tod_control_testing_v21_enhanced.py:605-610 | padding after `n` appends fills exactly the other `19 - n` lists, one entry each |
| Processor.EvidenceNeverRaises | tod_control_testing_v21_enhanced.py:597-598 | the evidence step never raises; its cell is the evidence unless an earlier step raised |
| Processor.FirstStepRaiseFillsAll | tod_control_testing_v21_enhanced.py:547 | a record whose completeness step raises is "Processing error" in all nineteen lists |
| Processor.PresentMissingCell | tod_control_testing_v21_enhanced.py:551 | the pair cell is `"Present:\n" + pres + "\n\nMissing:\n" + miss`, built from the same record's present and missing cells |
| Assembly.Absent | tod_control_testing_v21_enhanced.py:512 | a name is reported exactly when it is required and absent |
| Assembly.RequiredCheck | tod_control_testing_v21_enhanced.py:512-514 | loading goes on exactly when every required column is present, and the error names exactly the absent ones |
| Assembly.AbsentSubsequence | tod_control_testing_v21_enhanced.py:512 | no required column is reported more often than it is listed |
| Assembly.AssignHas | tod_control_testing_v21_enhanced.py:613 | after `df[name] = values` the column is there with those values |
| Assembly.AssignKeeps | tod_control_testing_v21_enhanced.py:620 | an assignment keeps every column of another name |
| Assembly.AssignFrom | tod_control_testing_v21_enhanced.py:620 | an assignment adds no column but the assigned one |
| Assembly.DropMembers | tod_control_testing_v21_enhanced.py:616-618 | after `del df[name]`, exactly the columns of other names are left |
| Assembly.DropAbsent | tod_control_testing_v21_enhanced.py:623-624 | deleting a name no column has changes nothing |
| Assembly.RenameAbsent | tod_control_testing_v21_enhanced.py:648-649 | renaming a name no column has changes nothing |
| Assembly.AnalysisTableGood | tod_control_testing_v21_enhanced.py:627-640 | the fourteen analysis columns have distinct, ordinary names and hold lists that are shown |
| Assembly.AssignAllFresh | tod_control_testing_v21_enhanced.py:627-640 | assigning columns that do not exist yet appends them in order |
| Assembly.AssignAllHas | tod_control_testing_v21_enhanced.py:627-640 | every analysis column holds its own list after all the assignments |
| Assembly.AssignAllKeeps | tod_control_testing_v21_enhanced.py:627-640 | the assignments keep every column whose name is not an analysis name |
| Assembly.AssignAllFrom | tod_control_testing_v21_enhanced.py:627-640 | the assignments add no column but analysis columns |
| Assembly.BeforeAnalysisHas | tod_control_testing_v21_enhanced.py:613-624 | the pair column and the suggestions are in, each with its list, before the analysis columns |
| Assembly.BeforeAnalysisFrom | tod_control_testing_v21_enhanced.py:613-624 | before the analysis columns, every column is a surviving input column, the pair column or the suggestions |
| Assembly.FreshAssembly | tod_control_testing_v21_enhanced.py:612-649 | on input without the written names, the output is the surviving input columns, then the documented-header column, the suggestions and the fourteen analysis columns in order, whatever the rows hold |
| Assembly.KeptFrom | tod_control_testing_v21_enhanced.py:616-644 | a surviving input column has none of the four deleted names |
| Assembly.RemovedNamesGone | tod_control_testing_v21_enhanced.py:616-649 | whatever the input, `Present`, `Missing`, `Source`, the system explanation and `Present & Missing` are gone from the output |
| Assembly.WrittenColumnsPresent | tod_control_testing_v21_enhanced.py:612-649 | whatever the input, the documented-header column, the suggestions and every analysis column are in the output with their own lists |
| Assembly.OutputOrigin | tod_control_testing_v21_enhanced.py:612-649 | every output column holds an input column's values or a shown list: the present, missing and system-explanation lists are never written out |
| Assembly.Frame.constructor | tod_control_testing_v21_enhanced.py:509 | a frame of the given rows and columns |
| Assembly.Frame.SetColumn | tod_control_testing_v21_enhanced.py:613 | `df[name] = values` updates the columns as `Assign` says, with a value per row |
| Assembly.Frame.DeleteColumn | tod_control_testing_v21_enhanced.py:616-618 | the guarded `del` updates the columns as `Drop` says |
| Assembly.Frame.RenameColumn | tod_control_testing_v21_enhanced.py:647-649 | the guarded rename updates the columns as `Rename` says |
| Assembly.Frame.AssignAnalysis | tod_control_testing_v21_enhanced.py:627-640 | the fourteen assignments, in table order |
| Assembly.Frame.AssembleOutput | tod_control_testing_v21_enhanced.py:612-649 | the frame ends with the columns `Assembled` gives, one value per row |
| Assembly.ProcessControls | tod_control_testing_v21_enhanced.py:523-652 | `process_controls`: the frame ends with the columns assembled from the table of all records' results |
| Report.FormatPresentMissingCell | tod_control_testing_v21_enhanced.py:706-740 | one pair cell is rewritten line by line, each decision reading the lines already emitted, and is bold red exactly when an emitted line carries the red marker |
| Report.FindColumn | tod_control_testing_v21_enhanced.py:700-704 | the 1-based position of the first header with the name, or none when no header has it |
| Report.HeaderRowMoved | tod_control_testing_v21_enhanced.py:664-670 | once the frame is written below two empty rows and two more rows are inserted at the top, the header is in row 5 and row 3 is empty |
| Report.LocatePairColumn | tod_control_testing_v21_enhanced.py:699-705 | as written, the lookup in row 3 finds no pair column, whatever the frame's header |
| Report.LocatePairColumnInHeaderRow | tod_control_testing_v21_enhanced.py:699-705 | the lookup in the header row finds the first column named with the documented header, and finds none exactly when no column has that name |
| Report.AssembledHeaderNamed | tod_control_testing_v21_enhanced.py:647-664 | the header written for the assembled frame always names the documented-header column |
| Report.EmittedPrefix | tod_control_testing_v21_enhanced.py:711-731 | the rewrite is online: its first `k` lines depend only on the first `k` lines of the cell |
| Report.EmittedAt | tod_control_testing_v21_enhanced.py:712-731 | line `i` is rewritten in view of exactly the `i` lines emitted before it |
| Report.RewrittenAt | tod_control_testing_v21_enhanced.py:712-731 | line `i` is marked in view of whether one of the last two lines emitted before it mentions "Missing" |
| Report.LineCountPreserved | tod_control_testing_v21_enhanced.py:710-733 | the rewritten cell has as many lines as the value, and splitting it gives back exactly the rewritten lines |
| Report.RewrittenNoNewline | tod_control_testing_v21_enhanced.py:710-733 | a rewritten line holds no newline |
| Report.MarkLineChars | tod_control_testing_v21_enhanced.py:713-731 | every character of a marked line comes from the line, from the bold markup `*` and `:`, from the heading word, or (for a red colon bullet) from the red marker |
| Report.MarkLineRed | tod_control_testing_v21_enhanced.py:717-727 | a marked line carries the red marker exactly when it is a bullet with a colon marked red |
| Report.MarkedBullet | tod_control_testing_v21_enhanced.py:719-727 | a red bullet starts with `[RED]`, a bold one with `**` |
| Report.RedAt | tod_control_testing_v21_enhanced.py:723-727 | a rewritten line is red exactly when it is a colon bullet and one of the two lines emitted just before it mentions "Missing" |
| Report.RedIff | tod_control_testing_v21_enhanced.py:737-740 | the cell is red exactly when some colon bullet follows, within two emitted lines, a line mentioning "Missing" |
| Report.RedLine | tod_control_testing_v21_enhanced.py:737-738 | a red cell has a colon bullet with a line mentioning "Missing" among the two lines emitted just before it |
| Report.RedFromBullet | tod_control_testing_v21_enhanced.py:723-738 | a colon bullet with a line mentioning "Missing" among the two lines emitted just before it makes the cell red |
| Report.SectionRewritten | tod_control_testing_v21_enhanced.py:722 | the section-aware rewrite keeps the line count |
| Report.PresentSectionOpen | tod_control_testing_v21_enhanced.py:551 | in a pair cell, the nearest heading before a present line is the present one |
| Report.MissingSectionOpen | tod_control_testing_v21_enhanced.py:551 | in a pair cell, the nearest heading before a missing line is the missing one |
| Report.RedInSection | tod_control_testing_v21_enhanced.py:722-725 | with the section-aware rewrite, a colon bullet of the missing section starts with `[RED]` |
| Report.BoldInSection | tod_control_testing_v21_enhanced.py:726-727 | with the section-aware rewrite, a colon bullet outside the missing section starts with `**` |
| Report.PresentBulletBold | tod_control_testing_v21_enhanced.py:722-727 | every present bullet of a pair cell is bold |
| Report.MissingBulletRed | tod_control_testing_v21_enhanced.py:722-725 | every missing bullet of a pair cell is red |
| Report.SectionColours | tod_control_testing_v21_enhanced.py:722-727 | with the section-aware rewrite, every missing bullet is red and every present bullet bold |
| Report.NoMissingLine | tod_control_testing_v21_enhanced.py:717-731 | a marked line that is no heading mentions "Missing" only if the line has an `M` |
| Report.BulletAfterQuiet | tod_control_testing_v21_enhanced.py:723-727 | a colon bullet after two emitted lines without "Missing" is bold and has no red marker |
| Report.BulletAfterTwoPlainLines | tod_control_testing_v21_enhanced.py:723 | as written, a colon bullet after two lines that are no headings and have no `M` is bold, not red |
| Report.ThirdMissingBulletBold | tod_control_testing_v21_enhanced.py:723 | as written, the third missing bullet of a pair cell is bold, not red, when the first two do not mention "Missing" |
| Report.ExampleLines | tod_control_testing_v21_enhanced.py:551 | the example cell with no present and three missing elements has the pair-cell layout |
| Report.ThirdMissingBulletNotRed | tod_control_testing_v21_enhanced.py:723 | in the example cell, the third missing bullet is not red as written, and red with the section-aware rewrite |
| Report.MaxLength | tod_control_testing_v21_enhanced.py:744 | the longest display length of the column, reached by some cell |
| Report.ColumnWidth | tod_control_testing_v21_enhanced.py:743-745 | the width is the longest cell plus two, capped at 60 |
| Report.ContainerCellLength | tod_control_testing_v21_enhanced.py:744 | a list or dict cell, even an empty one, is measured by its written `str()` text, so at least 2; a column holding only `[]` is 4 wide |
| Text.StripSlice | tod_control_testing_v21_enhanced.py:205 | `strip()` keeps a slice of the text, with only blanks removed around it and no blank at either end |
| Text.StripIdempotent | tod_control_testing_v21_enhanced.py:499 | stripping twice is stripping once |
| Text.JoinSplit | tod_control_testing_v21_enhanced.py:710-733 | joining the pieces of a split with the same separator gives the text back |
| Text.SplitJoin | tod_control_testing_v21_enhanced.py:710-733 | splitting a join of pieces free of the separator gives the pieces back |
| Demo.VersionGate | demo.py:36-39 | setup stops exactly for versions before 3.8, whatever follows the minor number |
| Demo.TupleLessIrreflexive | demo.py:36 | no version is below itself |
| Demo.TupleLessTransitive | demo.py:36 | the version order is transitive |
| Demo.NewerVersionPasses | demo.py:36-39 | the version gate is upward closed: 3.8 itself passes, and every version later than a passing one passes |
| Demo.MaskShape | demo.py:75 | a key longer than 11 characters is shown as its first 7, `...` and its last 4: 14 characters |
| Demo.MaskHidesMiddle | demo.py:75 | the masked key depends only on the characters it shows |
| Demo.ShortKeysLookAlike | demo.py:75 | every key of at most 11 characters is shown as `***` |
| Demo.ObtainKeyEmpty | demo.py:60-76 | no key is obtained exactly when the environment has none and the stripped answer is empty; an obtained key is never empty |
| Demo.SetupReady | demo.py:29-92 | setup succeeds exactly when the version is 3.8 or later, every package imports, a key is found or entered and the sample file is there; the key is the environment's when it has one |
| Demo.EmptyKeyRejected | demo.py:66-73 | with no key in the environment, a blank answer fails setup |
| Demo.LowerIdempotent | demo.py:178 | lower-casing twice is lower-casing once |
| Demo.ConfirmIgnoresCase | demo.py:178 | the answer is read regardless of letter case |
| Demo.ConfirmIgnoresLeadingBlanks | demo.py:178 | leading blanks make no difference to the answer |
| Demo.ShoutedYesProceeds | demo.py:178-180 | `"  YES "` proceeds |
| Demo.ConfirmDecisive | demo.py:178-185 | an answer that is `y` or `yes` once lower-cased and stripped proceeds, one that is `n` or `no` cancels, and exactly the others ask again |

## Left out

- The OpenAI and httpx client and the network calls are not modelled. Each call's behaviour is an input: a sequence of attempt outcomes.
- `time.sleep` is not performed. The waits are recorded as integer milliseconds, which is exact for the program's 1.0 s base and 60.0 s cap.
- Logging, `sys.exit` and `KeyboardInterrupt` in `main` are side effects and are left out. An exit is a terminal `Exit` value with its reason.
- `json.loads` is not modelled. Its grammar belongs to the library: the parse is a parameter of the model, and any exception it raises is `None`.
- The prompt texts of the `ask_*` functions are left out. Each call's answer is its own attempt sequence.
  - As a result, the model keeps the order of the calls, and the overall rating comes after the five answers.
  - It does not keep the data dependency of the overall-rating prompt on those answers.
  - That prompt never uses the `adaptability` argument.
- Reading the spreadsheet with pandas is left out. The model starts from the frame's columns.
- The model assumes a default `RangeIndex`: the row label `idx` is the row's position. A different index changes which lists the padding test `len(lst) <= idx` fills, and that case is not modelled.
- The openpyxl rendering is left out: merged header bands, the row-1 labels, alignment and `wb.save`. The inserted rows are modelled only as far as they move the header row.
- The worksheet `Source` deletion (lines 684-689) also scans row 3, and so finds nothing either. It is not modelled: the frame has already dropped that column, so it would delete nothing in any case.
- The loop over the rows of the pair column (lines 706-707) is not modelled. `Report.FormatPresentMissingCell` rewrites one cell, and the cells are independent.
- Fonts are modelled only as bold versus bold red.
- `Text.Lower` folds the ASCII letters only. Python's `lower()` also folds other letters, and can change a string's length. This affects `Retry.Classify`, `Extraction.Unprefixed` and `Demo.ConfirmAnswer`.
- `Text.IsSpace` is the whitespace set of `str.isspace`.
- JSON floats are left out: numbers are integers.
- `repr` of a string always uses single quotes and no escapes. Python would switch to double quotes for text with an apostrophe.
- An object is modelled as a dict's items, one per key. The parser sees to that.
- `Report.ColumnWidth`: a list or dict cell is measured by its `str()` text, and any other value by `str(value or "")`. Input-sheet values of other types (floats, dates) are not modelled. The rows above the header are not measured. The program measures them too, and in row 1 they hold the labels `INPUT COLUMNS` (column 1) and `OUTPUT COLUMNS` (column 8), which widen those two columns to 15 and 16 when every cell below is shorter.
- Assigning to a duplicated column name updates every column of that name. pandas behaviour for duplicated names is not modelled beyond that.
- demo.py is modelled only for its decisions. The package probe is the list `missing` of imports that failed. Whether the sample file exists or could be created is the flag `sampleReady`. Banners, prints, `input()` with its `while True` loop, and the call to `main` are I/O.
- `Retry.MakeLlmCallWithRetry` and `ClientSetup.InitializeClient` require one outcome per attempt the budget allows. This is how the model provides the service's answers, not a demand the program makes.
- `Report.RedIff` is stated for cells whose lines hold no `[`. A line that already contains `[RED]` would colour the cell whatever the rule decides.
- `Report.MarkLineRed`, `Report.RedAt`, `Report.RedLine` and `Report.RedFromBullet` carry the same restriction to lines without `[`, for the same reason.

## Findings

| source | as written | input that shows it | evidently intended | confidence | as-written member | corrected member |
|---|---|---|---|---|---|---|
| tod_control_testing_v21_enhanced.py:701 | the pair column is looked up in row 3, but `startrow=2` (line 664) writes the header in row 3 and `insert_rows(1, amount=2)` (line 670) then moves it to row 5, so row 3 is empty, the lookup finds nothing, and lines 706-740 rewrite no cell and set no font | any frame; the assembled one always has the `Has the control been formally documented? …` column, and it is not found | the lookup reads the row that holds the header, so the rewrite and the red font run as modelled | not executed | Report.LocatePairColumn | Report.LocatePairColumnInHeaderRow |
| tod_control_testing_v21_enhanced.py:723 | once the lookup reads the header row (the finding above), a bullet is coloured red only if one of the two lines emitted just before it mentions "Missing" | a pair cell with no present elements and missing elements `a`, `b`, `c`: `"Present:\n\n\nMissing:\n• a: x\n• b: y\n• c: z"`; the third bullet follows two red bullets, neither of which mentions "Missing", so it is made bold | every bullet of the missing section is red, as the comment "If in missing section, color red" says | not executed | Report.ThirdMissingBulletNotRed | Report.SectionColours |
