# AI code review: a Dafny model of the analysis server and the review dashboard

The system reviews source files with a language model. An Express server
takes a file's text and name and detects its language from the name. It
builds a prompt, calls the Gemini endpoint with retries and exponential
backoff, and cleans the reply down to its JSON object. It then normalises
the parsed report and caches it for ten minutes, keyed by the file name and
text. When the model's reply cannot be parsed or the call fails, the server
returns a fallback report or an error report instead. A React dashboard
shows the reports. Its user can accept or reject each finding, select
files (at most 20), filter the file list by name and language, sort the
findings, and read counts by severity, level and kind, both live and as
saved to the history.

The model is split by concern. Each Dafny module follows one part of
`server/index.js` or `src/components/Dashboard.jsx`:

- `Common`: the JavaScript string operations the code relies on.
  - Case: `toLowerCase`, `toUpperCase`.
  - Search: `includes`, `indexOf`, `lastIndexOf`.
  - Text: `trim` with JavaScript's white space, `split`, `join`.
  - Numbers and order: number to text, and the default sort order of strings.
- `Report`: the analysis report: findings, suggestions, metrics, summary.
- `Language`: `detectLanguage`, with Node's `path.basename` and
  `path.extname`, plus the tables of `getLanguageContext` and
  `getSpecificRequirements`.
- `Prompt`: `createAnalysisPrompt`.
- `Cleaning`: the clean-up of the model's reply text: the code fences, the
  greedy object regex, and `trim`.
- `Normalize`: `validateAndEnhanceResult`, `getLineContext`,
  `createFallbackResult` and `createErrorResult`.
- `Cache`: the analysis cache: its key, lookup, store and the periodic sweep.
- `Pipeline`: `analyzeWithGemini` with its retry loop, and the `/analyze`
  input guards.
- `Review`: accepting and rejecting findings and their status.
- `Stats`: `calculateStats`.
- `History`: the counts `saveAnalysisToHistory` stores.
- `Files`: `getLanguage`, `getFilteredFiles` and `getLanguages`.
- `Sorting`: `sortErrors`.
- `Selection`: `toggleFileSelection` and `selectAllFiltered`.

The cache, the review marks and the file selection are classes whose
methods update their fields. `sweep`, `calculateStats`, the level count of
`validateAndEnhanceResult`, the retry loop and `selectAllFiltered` are
loops. Each is proved against a specification function, and the
properties are proved about that function. Everything else is functions
and lemmas.

Where the code as written differs from what it evidently intends (see
"## Findings"), both behaviours are modelled. `Common.Program` names the
two programs, `AsWritten` and `Corrected`, and the normalisation, the cache
key, language detection and the whole request pipeline take it as a
parameter. A lemma about the pipeline holds for both programs unless it
names one.

The model's replies, `JSON.parse` and the clock are parameters. The reply
to each attempt is a function of the attempt's number. The parse is a
function from the cleaned text to a syntax error or a parsed reply. The
clock is the request's start time.

## Model

| member | source | states |
|---|---|---|
| Common.ToLowerAt | server/index.js:20 | lower-casing maps each character on its own and keeps the length |
| Common.ToUpperAt | src/components/Dashboard.jsx:710 | upper-casing maps each character on its own and keeps the length (ASCII letters only) |
| Common.NoUpperIsLower | server/index.js:20 | a text with no upper-case letter is its own lower case |
| Common.ToLowerIdempotent | src/components/Dashboard.jsx:717 | lower-casing twice is lower-casing once |
| Common.ContainsIff | src/components/Dashboard.jsx:115 | `includes` holds exactly when the text occurs at some position |
| Common.IndexOfFirst | server/index.js:272 | the found `{` is the first one, and none is found exactly when there is none |
| Common.IndexOfIs | server/index.js:272 | the first occurrence of a character is what the search returns |
| Common.LastIndexOfLast | server/index.js:272 | the found `}` is the last one, and none is found exactly when there is none |
| Common.LastIndexOfIs | server/index.js:272 | the last occurrence of a character is what the backwards search returns |
| Common.NatToStringRoundTrip | server/index.js:100 | the decimal rendering of a length reads back as that length |
| Common.NatToStringInjective | server/index.js:100 | different numbers render as different texts |
| Common.DigitRunUnique | server/index.js:100 | a run of digits followed by a non-digit splits in only one way |
| Common.SplitOn | server/index.js:95 | splitting on a character gives one more piece than there are separators, and no piece holds the separator |
| Common.JoinSplit | server/index.js:311 | joining the pieces of a split with the separator gives back the text |
| Common.LeadingSpaceRun | server/index.js:273 | the leading run that trimming drops is all white space and stops at a non-space |
| Common.TrailingSpaceRun | server/index.js:273 | the trailing run that trimming drops is all white space and stops at a non-space |
| Common.TrimSlice | server/index.js:273 | trimming keeps a contiguous slice; what it cuts off is white space; the result neither starts nor ends with white space |
| Common.TrimEmptyIff | server/index.js:487 | a text trims to empty exactly when it is all white space |
| Common.LexLessIrreflexive | src/components/Dashboard.jsx:725 | no string sorts before itself |
| Common.LexLessAsymmetric | src/components/Dashboard.jsx:725 | two strings never each sort before the other |
| Common.LexLessTransitive | src/components/Dashboard.jsx:725 | the string order is transitive |
| Common.LexLessTotal | src/components/Dashboard.jsx:725 | of two different strings, one sorts before the other |
| Report.CountSeverity | src/components/Dashboard.jsx:220-231 | the count of findings with a severity is at most the number of findings |
| Report.CountSeverityAppend | src/components/Dashboard.jsx:217-231 | counting over concatenated lists adds the counts, as the history's reduce does |
| Language.StripTrailingSlashes | server/index.js:54 | what is left is a prefix of the path with no trailing slash |
| Language.Basename | server/index.js:54 | the base name holds no slash |
| Language.BasenameOfJoined | server/index.js:54 | the base name of a path joined from a directory and a name is that name |
| Language.ExtOf | server/index.js:20 | the extension is empty or one dot followed by no other dot |
| Language.DetectLanguage | server/index.js:19-58 | corrected detection: the exact base name wins when it is a table key; the result is always a table value or "Unknown" |
| Language.DetectLanguageUnknownIff | server/index.js:20-57 | the language is unknown exactly when neither the base name nor the lower-cased extension is in the table |
| Language.ViteConfigSegments | server/index.js:20-54 | a `vite.config.js` file has that base name and the extension `.js` |
| Language.ExactNameWinsOverExtension | server/index.js:20-57 | an exact file name wins over its extension: `vite.config.js` is "Vite Config", although `.js` is JavaScript |
| Language.ConfigurationOnlyByExactName | server/index.js:20-57 | "Configuration" is detected exactly for a file named `.config.js`, never through an extension |
| Language.ConfigurationKeyUnique | server/index.js:22-51 | `.config.js` is the only table key that maps to "Configuration" |
| Language.ExtensionCaseInsensitive | server/index.js:20-57 | files whose base names are not table keys and whose extensions agree up to case get the same language |
| Language.DetectLanguageAsWritten | server/index.js:19-58 | detection as written: a string result is a table value or "Unknown", and an inherited member is reached only through the base name |
| Language.InheritedMemberMisclassified | server/index.js:54-55 | as written, a file named `constructor` reads the inherited Object member; the corrected detection says unknown |
| Language.AsWrittenAgreesOffPrototype | server/index.js:20-57 | off the inherited Object member names, the detection as written and the corrected one agree |
| Language.DottedNotInherited | server/index.js:20-57 | an extension is never an inherited Object member name |
| Language.AsWrittenInheritedIff | server/index.js:52-57 | as written, detection yields an inherited member exactly when the base name is an inherited name and not a table key |
| Language.DetectIn | server/index.js:201 | the language the request works with: inherited only as written and only for an inherited base name; otherwise the corrected detection |
| Language.DetectedIsTableValue | server/index.js:20-57 | a detected language is a value of the table or the unknown marker |
| Language.TableHasNoTypeScriptOrPython | server/index.js:22-51 | detection never yields TypeScript or Python |
| Language.ContextKeys | server/index.js:61-91 | the context table covers JavaScript, TypeScript, Java, Python and the ESLint config |
| Language.DetectedLanguagesShareJavaScriptContext | server/index.js:61-91 | every detected language other than JavaScript, Java and the ESLint config gets the JavaScript context |
| Language.RequirementKeys | server/index.js:179-191 | the requirements table covers JavaScript, TypeScript, Java, Python, the ESLint config, CSS and HTML |
| Language.DetectedLanguagesRequirements | server/index.js:179-191 | a detected language gets its own requirement line only for JavaScript, Java, the ESLint config, CSS and HTML, and the generic line otherwise |
| Prompt.LineCount | server/index.js:95 | the line count is one more than the number of line breaks |
| Prompt.PromptEmbedsCode | server/index.js:94-176 | the prompt ends with a fence labelled with the language, the source text verbatim, the closing fence and the trailer |
| Prompt.PromptCarriesLanguageHints | server/index.js:94-176 | the prompt contains the language's context block and its specific requirements |
| Prompt.InstructionsStartWithSpace | server/index.js:100 | the text after the counts starts with a space, so the counts are delimited |
| Prompt.CountsDetermineText | server/index.js:100 | two prompts with the same frame and digit counts that agree carry the same source text |
| Prompt.PromptDeterminesCode | server/index.js:94-176 | two equal prompts for the same file, language and context embed the same source text |
| Prompt.AnalysisPrompt | server/index.js:94-176 | defines the prompt text from the source, the file name, the language and its context; its properties are `PromptEmbedsCode`, `PromptCarriesLanguageHints` and `PromptDeterminesCode` |
| Cleaning.StripMarker | server/index.js:270-271 | removing the fence markers never lengthens the text |
| Cleaning.StripKeepsHead | server/index.js:270-271 | a character that does not start a marker is kept, in front of what the rest becomes |
| Cleaning.FenceMarkerIff | server/index.js:271 | the plain fence marker matches exactly where three backticks stand |
| Cleaning.NoFenceAtFront | server/index.js:271 | after the removal no fence starts the text when none did |
| Cleaning.StripFenceFree | server/index.js:271 | after removing every plain fence no three backticks remain |
| Cleaning.FenceFreeSlice | server/index.js:272-273 | a slice of a fence-free text is fence-free |
| Cleaning.ExtractObjectMatches | server/index.js:272 | when the regex matches, the kept text runs from the first `{` to the last `}` |
| Cleaning.ExtractObjectNoMatch | server/index.js:272 | when the regex does not match, the text is kept as it is |
| Cleaning.ExtractObjectShape | server/index.js:272 | the kept text is the whole text, or starts with `{`, ends with `}` and is the regex's span |
| Cleaning.ExtractObjectIdempotent | server/index.js:272 | extracting the object twice is extracting it once |
| Cleaning.ExtractObject | server/index.js:272 | defines the greedy object regex: from the first `{` to the last `}`, or the text unchanged when there is no such span; its properties are the `ExtractObject*` lemmas |
| Cleaning.CleanedIsFenceFree | server/index.js:269-273 | the cleaned reply holds no code fence |
| Cleaning.ExtractFenceFree | server/index.js:272 | extracting the object keeps a text fence-free |
| Cleaning.TrimFenceFree | server/index.js:273 | trimming keeps a text fence-free |
| Cleaning.CleanedIsObjectSpan | server/index.js:269-273 | when the de-fenced reply holds an object span, the cleaned reply is exactly that span |
| Cleaning.TrimObjectSpan | server/index.js:272-273 | trimming an extracted object span leaves it as it is |
| Cleaning.CleanResponse | server/index.js:269-273 | defines the cleaning: both fence removals, the object regex, then `trim`; its properties are `CleanedIsFenceFree` and `CleanedIsObjectSpan` |
| Normalize.GetLineContext | server/index.js:374-383 | defines the context text: the numbered window joined with line breaks; `LineContextEmptyIff` states when it is empty |
| Normalize.Lines | server/index.js:311 | splitting the source into lines gives at least one line |
| Normalize.ContextWindow | server/index.js:374-383 | the window is the line before, the line and the line after, clipped to the source and numbered from 1; it is empty off the source |
| Normalize.LineContextEmptyIff | server/index.js:374-383 | the line context is empty exactly for an index outside the source |
| Normalize.KeepFindings | server/index.js:339-347 | filtering never adds findings |
| Normalize.KeepFindingsAppend | server/index.js:339-347 | the filter and completion work finding by finding, in order |
| Normalize.KeptFindingsWellFormed | server/index.js:339-347 | every kept finding is on a line of the source and has a column and a context |
| Normalize.CompleteSuggestion | server/index.js:350-355 | a suggestion's own reasoning wins; a missing one is filled in, and nothing else changes |
| Normalize.CompleteSuggestions | server/index.js:350-355 | every suggestion is kept, in order, each completed |
| Normalize.Incremented | server/index.js:366 | `++` on a number adds one, and on NaN gives NaN |
| Normalize.Bump | server/index.js:363-368 | the table never loses a key and keys other than the finding's level keep their counters; corrected, no key is added; as written, a level named like an inherited member other than `__proto__` is added as NaN |
| Normalize.LevelTally | server/index.js:363-368 | counting keeps every key of the start table; corrected it adds none; as written, every added key is an inherited member name holding NaN |
| Normalize.TallyLevels | server/index.js:363-368 | in either program, the loop over the findings computes the level tally |
| Normalize.CountLevel | server/index.js:363-368 | a level's count is at most the number of findings |
| Normalize.LevelTallyCounts | server/index.js:363-368 | in either program, a numeric counter ends at its start plus the number of findings at its level, a missing level counting as logical |
| Normalize.AsWrittenTallyAgrees | server/index.js:363-368 | when no finding's level is an inherited name missing from the table, the as-written tally is the corrected one |
| Normalize.InheritedLevelAddsNaN | server/index.js:363-368 | as written, a finding at level `toString` adds a NaN entry to the default table and one at `__proto__` changes nothing; corrected, neither changes it |
| Normalize.LevelCounts | server/index.js:326-332 | counting from zero keeps exactly the five levels |
| Normalize.LevelCountsExact | server/index.js:363-368 | counting from zero gives each level exactly the number of its findings, as a number |
| Normalize.FiveLevelsBounded | server/index.js:363-368 | the numbers of findings at the five levels add up to at most the number of findings |
| Normalize.LevelCountsBounded | server/index.js:363-368 | the five level counters are numbers that add up to at most the number of findings |
| Normalize.ModelCountsAreDoubled | server/index.js:312-368 | as written, a model that already counted its one logical finding ends with a logical count of 2 and an inconsistent summary; corrected, the count is 1 |
| Normalize.MissingModelCountsFail | server/index.js:312-368 | as written, a summary from the model without level counts makes the count throw; corrected, the reply is normalised |
| Normalize.LinesOfOneLine | server/index.js:311 | a one-line source has one line |
| Normalize.EnhanceAsWritten | server/index.js:310-371 | defines the normalisation as written: the model's summary object and its level counters are reused; `ModelCountsAreDoubled`, `MissingModelCountsFail` and `AsWrittenAgreesWithoutModelSummary` state its behaviour |
| Normalize.Enhance | server/index.js:310-371 | defines the corrected normalisation: levels recounted from zero; `EnhanceFailsIff` and `EnhanceConsistent` state its behaviour |
| Normalize.EnhanceFailsIff | server/index.js:310-371 | the corrected normalisation fails exactly on a `null` reply, findings or suggestions that are not an array, or a summary that is not an object |
| Normalize.EnhanceConsistent | server/index.js:310-371 | a corrected report's totals and level counts agree with its findings, and all findings are on source lines |
| Normalize.AsWrittenAgreesWithoutModelSummary | server/index.js:310-371 | without a summary from the model and with no finding at an inherited-member level, the as-written and corrected normalisations agree |
| Normalize.EnhanceIn | server/index.js:310-371 | in either program, a normalised report's totals agree with its findings, all of which are on source lines; corrected, its level table agrees too |
| Normalize.ValidateAndEnhance | server/index.js:310-371 | the normalisation, with its counting loop run in place, computes the chosen program's report |
| Normalize.Prefix | server/index.js:396 | the preview is a prefix of at most 200 characters, and the whole text when that is shorter |
| Normalize.OneSyntaxFinding | server/index.js:417 | one syntax finding gives the level table of the degraded reports |
| Normalize.FallbackShape | server/index.js:386-421 | the fallback report holds one syntax-level parse error and one suggestion, and its summary agrees with them |
| Normalize.FallbackResult | server/index.js:386-421 | defines the fallback report; `FallbackShape` states its shape and consistency |
| Normalize.ErrorResult | server/index.js:424-462 | defines the error report; `ErrorResultClassification` and `ErrorResultConsistentIff` state its behaviour |
| Normalize.ErrorResultClassification | server/index.js:424-462 | the type is `rate_limit` exactly for a message with 429, `quota_exceeded` exactly for one without 429 but with a quota or limit, `api_error` otherwise; no critical count exactly for a rate limit |
| Normalize.ErrorResultConsistentIff | server/index.js:424-462 | the error report's summary agrees with its one finding exactly for a rate limit |
| Cache.BoundaryEntry | server/index.js:207 | an entry exactly ten minutes old is neither served nor swept |
| Cache.Survivors | server/index.js:465-477 | the sweep keeps exactly the entries that are not expired, unchanged |
| Cache.ExpiredKeys | server/index.js:465-477 | the swept keys are exactly those of the expired entries |
| Cache.SweepPartition | server/index.js:465-477 | kept and swept keys split the cache's keys; the cleaned count and the survivors add up to its size |
| Cache.AnalysisCache.constructor | server/index.js:16 | the cache starts empty |
| Cache.AnalysisCache.Lookup | server/index.js:206-210 | a lookup hits exactly when the key is present and its entry is fresh, and returns the stored report |
| Cache.AnalysisCache.Set | server/index.js:284-289 | storing maps the key to the entry and leaves every other key as it was |
| Cache.AnalysisCache.Sweep | server/index.js:465-477 | the sweep leaves the survivors and returns the number of expired entries |
| Cache.MissStaysMiss | server/index.js:206-210 | a key that misses at one time misses at any later time |
| Cache.StoredIsFound | server/index.js:284-289 | a stored entry is found under its key |
| Cache.SweepKeepsHits | server/index.js:465-477 | an entry that would hit at a later time survives an earlier sweep |
| Cache.KeyContentAsWritten | server/index.js:194-197 | defines the hashed content as written: file name, colon, code; `KeyContentCollision` shows two requests that share it |
| Cache.KeyContentCollision | server/index.js:194-197 | as written, two different requests ("a:b", "c") and ("a", "b:c") share a key |
| Cache.KeyContent | server/index.js:194-197 | defines the corrected content: the file name's length, a colon, the file name, a colon and the code; `KeyContentInjective` shows it tells requests apart |
| Cache.KeyContentInjective | server/index.js:194-197 | with the length-prefixed content, equal keys mean equal file name and text |
| Pipeline.Pow2 | server/index.js:252 | the backoff factor is at least 1 |
| Pipeline.LastAttempt | server/index.js:246-258 | the attempt that ends the retries is the first attempt or one of the two retries |
| Pipeline.WaitedBeforeClosed | server/index.js:252-254 | the waits double: before attempt n the request has waited (2^n - 1) seconds |
| Pipeline.OnlyRetryableRetried | server/index.js:251 | each attempt before the last got a 429 or 5xx reply, and the last attempt's reply is not retried |
| Pipeline.Finish | server/index.js:246-306 | a last reply gives an error report exactly when it was refused, not ok or empty; otherwise the parse or normalisation decides; never a cached origin |
| Pipeline.Interpret | server/index.js:269-300 | the origin is normalised exactly when the cleaned text parses and the chosen normalisation succeeds; otherwise it is the fallback report for the cleaned text |
| Pipeline.AnalyzeSpec | server/index.js:200-212 | a cache hit is served; a miss crashes exactly when the detected language is an inherited member, which happens only as written and only for an inherited base name |
| Pipeline.AnalyzeCalls | server/index.js:200-258 | in either program, a cache hit makes no call and returns the cached report; a miss with a string language makes one to three calls and waits (2^(calls-1) - 1) seconds; a miss with an inherited language crashes |
| Pipeline.FinishNormalised | server/index.js:246-300 | in either program, a reply yields a normalised report only when it is ok, with totals that agree with its findings, all on source lines; corrected, its level table agrees too |
| Pipeline.InterpretNormalised | server/index.js:269-292 | in either program, a normalised report's totals agree with its findings, all on source lines; corrected, its level table agrees too |
| Pipeline.NormalisedIsConsistent | server/index.js:246-300 | in either program, the only report that is stored came from an ok reply and its totals agree with its findings; corrected, its level table agrees too |
| Pipeline.ExhaustedRateLimit | server/index.js:246-306 | three 429 replies in a row make three calls with 1 + 2 seconds of backoff and end in the error report for the last 429, which is classified as a rate limit |
| Pipeline.StoreAfterStores | server/index.js:281-292 | a normalised report is stored under the request's key with its language, stamped after the waits; other keys are untouched, and other outcomes leave the cache as it was |
| Pipeline.Analyze | server/index.js:200-307 | the analysis returns the specified outcome of the chosen program for what the cache held, and updates the cache as specified |
| Pipeline.Decide | server/index.js:200-307 | the decision between cache, crash and model changes nothing and returns the specified outcome |
| Pipeline.Store | server/index.js:281-292 | the cache afterwards is the specified store |
| Pipeline.RunAttempts | server/index.js:213-258 | the retry loop computes the specified outcome of the attempts |
| Pipeline.SelfCountedReplyStored | server/index.js:312-368 | as written, a reply whose summary already counts its logical finding is answered with a logical count of 2, an inconsistent summary, and stored |
| Pipeline.SelfCountedReplyCorrected | server/index.js:312-368 | corrected, the same reply is answered and stored with a logical count of 1 and a consistent summary |
| Pipeline.UncountedReplyFallsBack | server/index.js:290-300 | as written, a reply whose summary lacks level counts gets the fallback report, which is not stored; corrected, it is normalised and stored |
| Pipeline.CollidingRequestServedFromCache | server/index.js:194-210 | as written, the request ("a", "b:c") is served the fresh report stored for ("a:b", "c") without a call; corrected, their keys differ |
| Pipeline.ConstructorFileCrashes | server/index.js:115 | as written, a file named `constructor` that is not cached makes no call and the route answers 500; corrected, it is analysed with one to three calls |
| Pipeline.Answer | server/index.js:531-539 | an outcome is answered with its report, or with a 500 exactly when an exception escaped |
| Pipeline.ValidateRequest | server/index.js:484-501 | a request is accepted exactly when its code is a non-blank string of at most 100000 characters and its file name is missing or a string; missing or falsy code and blank or long code are 400s; other non-string code or file name is a 500; the file name defaults to `unknown.js` |
| Pipeline.BlankBeforeSize | server/index.js:487-492 | blank code is rejected as empty, whatever its length or file name |
| Pipeline.HandleAnalyze | server/index.js:480-539 | a rejected request makes no call and leaves the cache; an accepted one answers with the chosen program's outcome, a report or a 500, and stores as specified |
| Review.ErrorKey | src/components/Dashboard.jsx:138 | defines the key of a finding: result id, line and message joined by dashes, `undefined` for a missing part |
| Review.ReviewMarks.constructor | src/components/Dashboard.jsx:77-78 | nothing is accepted or rejected at first |
| Review.ReviewMarks.Status | src/components/Dashboard.jsx:167-172 | accepted when the key is accepted, rejected when it is rejected and not accepted, pending otherwise |
| Review.ReviewMarks.Accept | src/components/Dashboard.jsx:137-149 | accepting adds the key to the accepted set, takes it out of the rejected set, keeps the sets disjoint, and makes the status accepted |
| Review.ReviewMarks.Reject | src/components/Dashboard.jsx:152-164 | rejecting adds the key to the rejected set, takes it out of the accepted set, keeps the sets disjoint, and makes the status rejected |
| Stats.Unaccepted | src/components/Dashboard.jsx:88-92 | leaving out accepted findings never adds findings |
| Stats.UnacceptedStep | src/components/Dashboard.jsx:88-92 | the loop over one report's findings extends the unaccepted list by one finding at a time |
| Stats.UnacceptedMembership | src/components/Dashboard.jsx:88-92 | a finding is counted exactly when it is in the report and its key is not accepted |
| Stats.UnresolvedMembership | src/components/Dashboard.jsx:86-121 | a finding is counted exactly when some report lists it unaccepted |
| Stats.SeverityCount | src/components/Dashboard.jsx:95-101 | a severity's count is at most the number of findings |
| Stats.LevelCount | src/components/Dashboard.jsx:104-111 | a level's count is at most the number of findings |
| Stats.CompileTimeCount | src/components/Dashboard.jsx:114-119 | the compile-time count is at most the number of findings |
| Stats.RuntimeCount | src/components/Dashboard.jsx:114-119 | the runtime count is at most the number of findings |
| Stats.OtherSeverityCount | src/components/Dashboard.jsx:95-101 | the count of unlisted severities is at most the number of findings |
| Stats.OtherLevelCount | src/components/Dashboard.jsx:104-111 | the count of unlisted levels is at most the number of findings |
| Stats.StatsOf | src/components/Dashboard.jsx:93-119 | defines the counts of a list of findings as a fold of one step per finding; `StatsAreBucketCounts` states what each counter holds |
| Stats.StatsAreBucketCounts | src/components/Dashboard.jsx:82-128 | each counter is the number of findings in its bucket, and the total is the sum of the four severities |
| Stats.SeverityBuckets | src/components/Dashboard.jsx:95-125 | the total and the findings with an unlisted severity add up to all findings |
| Stats.LevelBuckets | src/components/Dashboard.jsx:104-111 | the five level counts and the unlisted levels add up to all findings |
| Stats.KindBuckets | src/components/Dashboard.jsx:114-119 | every finding is compile-time or runtime, never both |
| Stats.MissingNamesDefault | src/components/Dashboard.jsx:95-104 | a finding without severity or level counts as medium and logical |
| Stats.StatsAppend | src/components/Dashboard.jsx:93-119 | counting one more finding is one step of the count |
| Stats.CalculateStats | src/components/Dashboard.jsx:82-128 | the loops compute the counts of the unaccepted findings of all reports |
| Stats.CountResult | src/components/Dashboard.jsx:87-121 | the inner loop adds one report's unaccepted findings to the counts |
| Stats.CountOne | src/components/Dashboard.jsx:93-119 | one finding moves the counts one step |
| Stats.CountStep | src/components/Dashboard.jsx:88-119 | one iteration of the inner loop extends the counted list by the finding when it is not accepted |
| Stats.UnacceptedEmptyPrefix | src/components/Dashboard.jsx:88 | before the inner loop nothing is counted |
| History.TotalErrors | src/components/Dashboard.jsx:215-231 | defines the saved total as the sum of the findings of all reports; `HistoryCountsAllErrors` states it |
| History.HistoryCountsAllErrors | src/components/Dashboard.jsx:215-231 | the saved totals are the counts over all findings of all reports |
| History.FourSeveritiesBounded | src/components/Dashboard.jsx:220-231 | the four severity counts add up to at most the number of findings |
| History.HistoryBucketsBounded | src/components/Dashboard.jsx:215-231 | the saved severity counts add up to at most the saved total |
| History.NothingAcceptedCountsAll | src/components/Dashboard.jsx:87-92 | with nothing accepted, the live counts see every finding of every report |
| History.NothingAcceptedKeepsResult | src/components/Dashboard.jsx:88-92 | with nothing accepted, every finding of a report is counted |
| History.PlainSeverityCounts | src/components/Dashboard.jsx:95 | for findings with a lower-case severity, the live and the saved severity counts agree |
| History.HistoryAgreesWithStats | src/components/Dashboard.jsx:215-231 | with nothing accepted and lower-case severities, the saved counts equal the live ones |
| Files.LastSegment | src/components/Dashboard.jsx:702 | the last segment holds no dot |
| Files.SplitAppend | src/components/Dashboard.jsx:702 | splitting a name with one more extension adds that extension as the last piece |
| Files.SplitNoSeparator | src/components/Dashboard.jsx:702 | a text with no dot splits into itself |
| Files.LastSegmentOfExtension | src/components/Dashboard.jsx:702 | the last segment of a name ending in an extension is that extension |
| Files.GetLanguage | src/components/Dashboard.jsx:701-711 | corrected lookup: a known extension gives its table value; anything else its upper-cased extension |
| Files.GetLanguageByExtension | src/components/Dashboard.jsx:701-711 | a known extension, in any case, gives its language; any other gives the upper-cased extension |
| Files.GetLanguageAsWritten | src/components/Dashboard.jsx:701-711 | lookup as written: an inherited member exactly for an extension named like one; otherwise the corrected language |
| Files.InheritedExtensionMisclassified | src/components/Dashboard.jsx:701-711 | as written, the extension `constructor` reads the inherited Object member; the corrected lookup gives `CONSTRUCTOR` |
| Files.InheritedLookup | src/components/Dashboard.jsx:701-711 | as written, any extension named like an inherited member reads that member |
| Files.ConstructorIsPlain | src/components/Dashboard.jsx:704-709 | `constructor` is lower case, not a table key, and an inherited member name |
| Files.ExtensionsAreShort | src/components/Dashboard.jsx:704-709 | every table key has at most six characters |
| Files.PrototypeKeysAreLong | src/components/Dashboard.jsx:704-709 | every inherited member name has at least seven characters |
| Files.ExtensionNotInherited | src/components/Dashboard.jsx:704-709 | no table key is an inherited member name |
| Files.AsWrittenAgreesOffPrototype | src/components/Dashboard.jsx:701-711 | off the inherited member names, the as-written and corrected lookups agree |
| Files.GetFilteredFiles | src/components/Dashboard.jsx:714-720 | corrected: a file is listed exactly when it matches the name filter and the language filter; nothing is added |
| Files.NoFilterKeepsAll | src/components/Dashboard.jsx:714-720 | with no name filter and every language, all files are listed, in order |
| Files.FilterIdempotent | src/components/Dashboard.jsx:714-720 | filtering a filtered list again changes nothing |
| Files.MatchesAsWritten | src/components/Dashboard.jsx:715-718 | as written, one file's test throws exactly when a language filter is set and its language is an inherited member; otherwise it is the corrected test |
| Files.FilterAsWrittenIff | src/components/Dashboard.jsx:714-720 | as written, filtering throws exactly when a language filter is set and some file has an inherited-member extension; otherwise it lists what the corrected filter lists |
| Files.ConstructorFileBreaksFilter | src/components/Dashboard.jsx:717 | as written, a `.constructor` file makes a language filter throw; corrected, the file is simply not listed |
| Files.InsertName | src/components/Dashboard.jsx:723-726 | adding a name to a sorted set of names keeps it sorted and adds exactly that name |
| Files.GetLanguages | src/components/Dashboard.jsx:723-726 | the list is sorted without repeats and holds exactly the languages of the files |
| Files.SortedHeadIsLeast | src/components/Dashboard.jsx:725 | the head of a sorted list comes first |
| Files.StrictlySortedUnique | src/components/Dashboard.jsx:723-726 | two sorted lists without repeats that hold the same names are equal, so the list is determined |
| Sorting.IndexOfName | src/components/Dashboard.jsx:764-765 | the rank is the first position of the level in the order, and -1 exactly when it is not there |
| Sorting.CompareMeansBefore | src/components/Dashboard.jsx:763-768 | the comparator is negative exactly when the first key comes before, and zero exactly when the keys are equal |
| Sorting.RankDefaults | src/components/Dashboard.jsx:764-765 | a missing level ranks as logical |
| Sorting.Insert | src/components/Dashboard.jsx:763 | inserting adds one element |
| Sorting.InsertPermutes | src/components/Dashboard.jsx:763 | inserting adds exactly that element |
| Sorting.SortBy | src/components/Dashboard.jsx:763 | sorting keeps the length |
| Sorting.SortByPermutes | src/components/Dashboard.jsx:763 | sorting is a permutation |
| Sorting.InsertSorted | src/components/Dashboard.jsx:763 | inserting into a sorted list keeps it sorted |
| Sorting.SortBySorted | src/components/Dashboard.jsx:763 | the result is sorted by the key |
| Sorting.WithKey | src/components/Dashboard.jsx:763 | picking the elements with one key never adds any |
| Sorting.WithKeyAppend | src/components/Dashboard.jsx:763 | picking from a concatenation concatenates the picks |
| Sorting.NoneWithKeyAfter | src/components/Dashboard.jsx:763 | a sorted list whose head comes after a key has no element with that key |
| Sorting.InsertStable | src/components/Dashboard.jsx:763 | insertion places the new element after the equal ones |
| Sorting.InsertAtFrontStable | src/components/Dashboard.jsx:763 | insertion in front of the head keeps equal elements in order |
| Sorting.InsertAfterHeadStable | src/components/Dashboard.jsx:763 | insertion behind the head keeps equal elements in order |
| Sorting.ConsKeepsStable | src/components/Dashboard.jsx:763 | putting an element in front keeps equal elements in order |
| Sorting.SortByStable | src/components/Dashboard.jsx:763 | elements with equal keys keep their order: the sort is stable |
| Sorting.SortErrors | src/components/Dashboard.jsx:761-769 | the sorted findings are a permutation of the findings |
| Sorting.SortErrorsCorrect | src/components/Dashboard.jsx:761-769 | the findings are ordered by level, then line, and findings that compare equal keep their order |
| Selection.Toggled | src/components/Dashboard.jsx:598-612 | defines one toggle on the selected set and whether it was refused at the limit; `ToggleTwice` and `ToggleKeepsLimit` state its behaviour |
| Selection.ToggleTwice | src/components/Dashboard.jsx:598-612 | toggling a file twice restores the selection, unless the first toggle was refused at the limit |
| Selection.ToggleKeepsLimit | src/components/Dashboard.jsx:598-612 | toggling keeps at most 20 selected; the file ends selected exactly when it was not and there was room |
| Selection.SliceEnd | src/components/Dashboard.jsx:620 | a slice end is clipped to the list, with a negative end counted from the back |
| Selection.PathSet | src/components/Dashboard.jsx:620-622 | the set holds exactly the listed paths |
| Selection.PathSetSize | src/components/Dashboard.jsx:620-622 | adding the listed paths grows a set by at most their number |
| Selection.Taken | src/components/Dashboard.jsx:615-629 | at most the remaining room is taken, and every filtered file when they fit |
| Selection.SelectAllKeepsLimit | src/components/Dashboard.jsx:615-629 | selecting all filtered files keeps at most 20 selected |
| Selection.FileSelection.constructor | src/components/Dashboard.jsx:66 | nothing is selected at first |
| Selection.FileSelection.Toggle | src/components/Dashboard.jsx:598-612 | the selection becomes the toggled one and the refusal is reported; the limit is kept |
| Selection.FileSelection.SelectAllFiltered | src/components/Dashboard.jsx:615-629 | the filtered files that fit are added, the cap is reported, and the limit is kept |

## Left out

- I/O: the HTTP server, the call to the Gemini endpoint and its latency, and logging. The model's reply to each attempt is a parameter.
- Time: the clock is a parameter. A stored report is stamped with the start time plus the backoff waits; time spent inside the calls is not modelled.
- Concurrency: requests running at once, and the sweep timer firing between requests.
- Pipeline.Analyze: a retry checks the cache again at a later time. The model checks it once. `Cache.MissStaysMiss` shows that the later checks also miss, unless another request stores the key in between, which is not modelled.
- `JSON.parse` is a parameter. A parsed reply keeps only the fields the normaliser reads. `null` is kept apart from a missing key for the reply itself, its findings, its suggestions and its summary. A top-level array or primitive reads as an object without those keys. Non-integer line numbers and other unusual JSON are not modelled.
- Normalize.SuggestionsFrom: suggestions that are neither an array nor `null` are modelled as a failure. The source keeps such a value, and `warnings` becomes its `length` property.
- Normalize.EnhanceFailsIff: for the same reason, it lists non-array suggestions among the failures; the source fails only on `null` ones.
- Normalize.EnhanceAsWritten: the `TypeError` that the normalisation throws is modelled as a failure with a fixed message. A model-supplied `errorsByLevel` that is a primitive, and counters that are not numbers, are not modelled.
- Pipeline.Answer: the 500 answer carries a fixed stand-in for the `TypeError` text.
- `_metadata`, added at `server/index.js:521-527`, is left out: the processing time, the timestamp and the `cacheHit` flag. Writing it also mutates the cached report object.
- The other routes: GitHub, health, analytics, cache status and cache clearing.
- Cache.KeyContent: the key is modelled by the content that is hashed. As written, that is the file name, a colon and the code; corrected, the file name is prefixed by its length. The SHA-256 hash and its truncation to 16 hex digits are not modelled.
- Strings: a Dafny character is a Unicode scalar value, while JavaScript counts, cuts and compares UTF-16 code units. A character above U+FFFF is one character here and two in the source. This changes the following members for such text:
  - Pipeline.ValidateRequest: the size cap counts scalar values, so 60000 emoji (120000 code units) pass the cap here, while the source answers "Code too large".
  - Prompt.AnalysisPrompt: the rendered character count of the code is the number of scalar values.
  - Normalize.Prefix: the 200-character prefix of the fallback report is cut by scalar values.
  - Common.LexLess and Files.GetLanguages: the sort order of characters above U+FFFF follows their scalar values, not their code units.
- Common.ToLower: only ASCII letters change case. Other characters are left as they are.
- Common.ToUpper: only ASCII letters change case. JavaScript also maps other letters, and some to two characters ("ß" becomes "SS").
- Language.GetLanguageContext has no contract of its own. `Language.DetectedLanguagesShareJavaScriptContext` and `Language.ContextKeys` state its behaviour for detected languages.
- Language.GetSpecificRequirements has no contract of its own. `Language.DetectedLanguagesRequirements` and `Language.RequirementKeys` state its behaviour for detected languages.
- Both tables are also read with an inherited Object member as the language. Its text is not a table key, so each falls back to its default. Building the prompt then throws at `server/index.js:115` anyway, so this is not modelled.
- Files.GetLanguages: only the corrected lookup is modelled. As written, a file with an inherited-member extension puts an Object function into the list, which is then sorted by its source text.
- Selection.FileSelection.SelectAllFiltered: it selects from the corrected filter. As written, the filter throws for a `.constructor` file when a language filter is set (see `Files.FilterAsWrittenIff`); the dashboard's render already runs that filter (`src/components/Dashboard.jsx:776`) and fails first, so the button cannot be reached in that state.
- The dashboard's rendering, PDF export, alerts and the saving of history to the database. An alert is modelled as the boolean a method returns.
- React's batched state updates: each update is applied at once.
- Files are modelled by their paths.
- Stats.CalculateStats: a finding's key includes the text of its line number. A missing line is rendered as `undefined`, and a missing message likewise.

## Findings

| source | as written | input that shows it | evidently intended | confidence | as-written member | corrected member |
|---|---|---|---|---|---|---|
| server/index.js:312-368 | the level tally starts from the level counts the model sent back, because `...result` copies its summary, and then adds one per kept finding | a reply with one logical finding and a summary whose logical count is 1 | each level count equals the number of kept findings of that level | not executed | Pipeline.SelfCountedReplyStored | Pipeline.SelfCountedReplyCorrected |
| server/index.js:363-368 | a summary from the model without `errorsByLevel` makes the count throw, and the whole reply falls back | a reply with one logical finding and a summary with no level counts | the reply is normalised with freshly counted levels | not executed | Pipeline.UncountedReplyFallsBack | Normalize.EnhanceConsistent |
| server/index.js:366 | a finding whose level is an inherited Object member other than `__proto__` adds that name with the counter NaN | a finding at level `toString` | only the five levels are counted | not executed | Normalize.InheritedLevelAddsNaN | Normalize.LevelCountsBounded |
| server/index.js:194-197 | the cache key hashes the file name and the code joined by a colon | file "a:b" with code "c", and file "a" with code "b:c" | different requests get different keys | not executed | Pipeline.CollidingRequestServedFromCache | Cache.KeyContentInjective |
| server/index.js:54-55 | the exact-name lookup reads the plain object, so it sees inherited members, and building the prompt then throws at line 115 | a file named `constructor` that is not cached | an unknown name gives the unknown language and is analysed | not executed | Pipeline.ConstructorFileCrashes | Language.AsWrittenAgreesOffPrototype |
| src/components/Dashboard.jsx:701-711 | the extension lookup reads the plain object, so it sees inherited members, and the language filter then throws at line 717 | a file `a.constructor` with a language filter set | an unknown extension gives the upper-cased extension | not executed | Files.ConstructorFileBreaksFilter | Files.FilterAsWrittenIff |
