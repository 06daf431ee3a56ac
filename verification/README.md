# SOBS: verified models of its stateful and algorithmic kernels

SOBS is an observability server written in Go with scripts for the browser. This project models the
parts of it whose correctness is hard to see from a body alone, and proves what each of them is for.
One Dafny module stands for one component; `dafny verify dfyconfig.toml` checks the whole project.

- **Raw-window copy worker** (`CopyWorker`, `CopyHistory`, `CopyCoverage`, `CopyProgress`). A restartable
  job copies the metric rows of registered windows into pinned tables, with a budget per run, an
  anti-join on a four-part key and completion marks. The tables are fields of a class; every database
  statement may fail, an insert may land in part, others ingest, expire and register between any two
  statements, and the worker may die at any of them. The results hold over all such histories.
- **Issue de-duplication and Copilot limits** (`DedupeKey`, `IssueFlow`, `IssueUniqueness`, `IssueNoise`,
  `CopilotLimits`, `CopilotCases`). The protocol over work items, open issues and run rows. GitHub, the
  language model, the guard and the screening service answer through the inputs of a run, in any way they
  like. `IssueNoise` and `CopilotCases` hold concrete series of runs.
- **BLAKE2b** (`Blake2b`). In-place mixing and compression, proved against RFC 7693, and the algebra of
  the mixing function: bijections, and which mixings commute.
- **Anomaly rule engine** (`AnomalyRules`). Rows are objects that annotation rewrites in place while
  composite rules read other rows through maps of the same objects.
- **Parsers, printers, encoders.** The ANSI colour parser, stripper and renderer (`AnsiStyle`, `Ansi`,
  `AnsiRender`); JSON printing and parsing and the canonical form (`Json`, `JsonRoundTrip`,
  `CanonicalJson`); response comparison (`GoldenCompare`); the sanitised, signed action token
  (`Encoding`, `ActionText`, `ClientAction`, `ActionToken`); SQL literal masking (`SqlLiterals`).
- **Folds and streams.** The two readers of a streamed model answer (`LlmStream`), turn cards built from
  spans (`TurnCards`), shaded chart areas (`MarkAreas`), the browser-context stream (`BrowserContext`),
  and embedding similarity over the real numbers (`Embedding`).
- `Ordering`, `Text` and `Options` hold the string order, the sorts and the string functions of Go's
  standard library that the others share.

Code that changes variables, arrays or fields is a method with loops, proved equal to a function of its
inputs or of the old state; the properties are then lemmas about that function.

## Where the code does less than one would expect

Each of these has its exact condition, and an input that meets it where the condition does not show one.

- The copy worker inserts a pinned key again exactly when the namespace or node filter of its anti-join
  hides the pinned row (`ReinsertedExactly`), which takes two rows of one key with different attributes
  (`CopiedTwiceExactly`, `KeyCopiedTwice`). Marks are kept per window id, and ids hash
  the minute of a signal: a marked window can lack rows that its copy read exactly when windows share an id
  and one does not lie within the other (`CoverageFailsExactly`, `SameMinuteClashes`). A row that comes in
  after the mark is pinned only by a copy for another id (`LateRowExactly`, `OpenWindowMisses`).
- Two dedupe keys are equal exactly when their parts agree without the outer blank ones, so the key is injective
  only for repositories with a non-blank normal form (`SameKeyExactly`, `BlankRepoCollides`). A run
  opens a second issue for one service and signal exactly when no candidate matches it
  (`DuplicateExactly`), which ten rows of another issue bring about (`TwoOpenIssues`).
- A failing count query answers 0: a run breaks its hourly limit exactly then, when the hour is full
  (`LimitBreaksExactly`, `UnreadableCountExceeds`). The limit counts recorded requests, so one whose row is not
  written is not counted: an hour holds more requests than the limit exactly when some run makes one into a
  full hour, which a run that has read the count does only behind a lost row (`MadeLimitExactly`,
  `FullHourLost`, `UnsavedRequestExceeds`). A run that asks for no assignment copies a
  busy status and can exceed the active limit (`ActiveLimitBreaksExactly`, `PlainReuseExceeds`). An issue is
  requested again exactly when its newest row is not busy, whatever earlier rows say
  (`RequestedAgainExactly`, `RequestedTwice`).
- Masking and restoring SQL is not the identity on every text without the marker: behind a later literal,
  `SQL_LITERAL_0__` completes the token in front of it (`TrapExample`); it is the identity exactly
  when there is no such trap.
- What is executed is what was proposed exactly when sanitising keeps every text of the proposal
  (`ExecutedIsProposed`, and over the payload `ExecutedExactly`). A text
  that takes more than 4096 bytes once trimmed is changed by the second sanitising when the cut ends with a blank or tears a four-byte character
  behind its third byte, and only then (`SettlesExactly`, `ExecutedDiffers`).
- `stripAnsi` and `parseAnsi` agree exactly on texts whose sequences are digits and semicolons ended by a
  letter (`StripAgreesExactly`, `StripDisagrees`).
- A tool entry of a turn card can be listed twice: exactly when two events report one action whose 180th
  character is a blank (`ToolsDistinctExactly`, `ListedTwice`).
- Shading fails exactly when the state column is longer than the time column and a run crosses its end
  (`Shade`).
- The browser's context hash collides (`ChecksumCollides`); contexts are recovered exactly when no two
  neighbours do (`RecoversExactly`).
- Memories are ranked by rounded score, so a dropped one is ahead of a kept one exactly when both round
  alike and the better one is stored later (`DroppedAheadExactly`, `RoundingHides`).
- `equalResponses` can take different headers for the same exactly when the name of one is the name of
  another, a NUL character and what the other's value begins with (`MistakenExactly`, `NulConfuses`).

Where comments and code disagree the code was followed: `canonicalJSON` is said to mirror Python's
`json.dumps`, but it escapes `<`, `>` and `&` and leaves other characters unescaped, as Go's encoder does;
`parseJSONValue` is said to decode a JSON document, but it accepts one whose closing brackets are missing
or wrong (`CutOffReads`) and ignores what follows the first value.

## Model

| member | source | states |
|---|---|---|
| CopyWorker.Database.CopyOne | go/cmd/sobs/background_tasks.go:78-184 | one (window, table) pair, statement by statement: before each, others may ingest, expire and register, and each may fail; the new tables, the outcome and the number of statements used are those of the step `CopyPair`, about which the invariants below are proved |
| CopyWorker.Database.RunWorker | go/cmd/sobs/background_tasks.go:58-188 | the two nested loops with their budget checks: tables and returned counters after a run, for every listing (or a failed one) and everything that happens at its statements |
| CopyWorker.Database.MarkCopied | go/cmd/sobs/background_tasks.go:160-164 | a failed marker write is ignored; otherwise exactly this (window id, table) mark is added |
| CopyWorker.Database.InsertPinned | go/cmd/sobs/background_tasks.go:173-181 | an insert appends its rows to one pinned table and leaves the others alone |
| CopyWorker.Database.SelectMissing | go/cmd/sobs/background_tasks.go:139-152 | the rows of the anti-join are read from the tables as they are when the statement arrives |
| CopyHistory.Safety | go/cmd/sobs/background_tasks.go:54-188 | main result: over every history whose steps are single statements, with ingestion, expiry, registration, failures and crashes between any two: pinned tables are exactly what the copies wrote, each written row matches its registered window and was ingested, and a marked pair has the key of every matching row that the last missing-count or insert of its copy read |
| CopyHistory.NextKeepsInv | go/cmd/sobs/background_tasks.go:54-188 | every single event keeps that invariant, the stage of the copy under way included |
| CopyHistory.ExecuteKeepsInv | go/cmd/sobs/background_tasks.go:92-184 | so does each of the five statements of a copy, failing or not |
| CopyHistory.RunIsHistory | go/cmd/sobs/background_tasks.go:58-188 | a whole run of the worker, whatever happens at its statements, is a history of such steps that ends with the same tables |
| CopyCoverage.ReinsertedExactly | go/cmd/sobs/background_tasks.go:144-147 | a copy inserts a key that is already pinned exactly when the namespace or node filter of its anti-join hides every pinned row with that key |
| CopyCoverage.EachKeyCopiedOnce | go/cmd/sobs/background_tasks.go:54-188 | main result: over every history in which the fingerprint determines namespace and node, no key of a pinned table is inserted by two copies |
| CopyCoverage.CopiedTwiceExactly | go/cmd/sobs/background_tasks.go:54-188 | main result: over a set of rows some history inserts a key by two copies exactly when two of them share their key but not their namespace and node |
| CopyCoverage.KeyCopiedTwice | go/cmd/sobs/background_tasks.go:144-147 | the history for any two such rows: a copy without filters, then one that filters on the attributes of the other row |
| CopyCoverage.OwnIdCovers | go/cmd/sobs/background_tasks.go:92-184 | every registered window whose id no other window has is covered once it is marked: each of its matching rows that was read is pinned by key |
| CopyCoverage.CoverageFailsExactly | go/cmd/sobs/background_tasks.go:92-101 | main result: over a set of windows some history leaves a marked window with a read matching row unpinned exactly when two of them share an id and one does not lie within the other |
| CopyCoverage.SameIdExample | go/cmd/sobs/background_tasks.go:92-101 | the windows 0 to 10 and 5 to 15 with one id are two such windows |
| CopyCoverage.SameMinuteClashes | go/cmd/sobs/raw_window.go:11-44 | so are the windows registered for two signals of one minute that differ in time only, whatever the digest |
| CopyCoverage.MarkedIsSkipped | go/cmd/sobs/background_tasks.go:92-101 | once a mark is set, no event of any run, whatever it lists, copies rows for a window with that id, nor changes what the mark covers |
| CopyCoverage.SkippedForGood | go/cmd/sobs/background_tasks.go:92-101 | nor does any sequence of events |
| CopyCoverage.MissedExactly | go/cmd/sobs/background_tasks.go:92-184 | a matching row of a marked window with its own id is unpinned exactly when the copy did not read it and no copy wrote its key |
| CopyCoverage.LateRowExactly | go/cmd/sobs/background_tasks.go:92-101 | a key that is not pinned when the mark is set is pinned later exactly when a copy for a window with another id writes it |
| CopyCoverage.OpenWindowMisses | go/cmd/sobs/background_tasks.go:67-76 | in every proper window a row can come in after the mark, be raw and matching, and stay unpinned: the mark does not wait for the window to close |
| CopyProgress.RunWithinBudget | go/cmd/sobs/background_tasks.go:77-187 | whatever fails, a run makes at most ten copies, and succeeded plus failed copies are among the counted windows |
| CopyProgress.RunProgress | go/cmd/sobs/background_tasks.go:77-187 | a run without failures finishes min(10, remaining) of the pending pairs of its listing, and reports that many |
| CopyProgress.CleanRunFrom | go/cmd/sobs/background_tasks.go:77-187 | from any pair on, such a run marks pending pairs only and as many as its remaining budget allows |
| CopyProgress.QuietExactlyWhenDone | go/cmd/sobs/background_tasks.go:77-187 | a run without failures changes nothing exactly when no pair is pending |
| CopyProgress.RunsConverge | go/cmd/sobs/background_tasks.go:34-48 | main result: k runs leave max(0, N - 10k) of N pending pairs, and further runs change nothing exactly from the first k with 10k >= N on |
| DedupeKey.NormalizeJoinsWords | go/cmd/sobs/agent_dedupe.go:62-66 | lower-casing, collapsing and trimming gives the words of the text joined by single blanks, and the words are read back from it |
| DedupeKey.SameNormalExactly | go/cmd/sobs/agent_dedupe.go:62-66 | two texts have one normal form exactly when they have the same words |
| DedupeKey.NormalizeIdempotent | go/cmd/sobs/agent_dedupe.go:62-66 | normalizing twice is normalizing once |
| DedupeKey.SameKeyExactly | go/cmd/sobs/agent_dedupe.go:94-104 | two keys are equal exactly when the parts agree after dropping blank parts in front and behind |
| DedupeKey.KeyInjective | go/cmd/sobs/agent_dedupe.go:94-104 | for repositories with a non-blank normal form the key determines all five normalized parts |
| DedupeKey.BlankRepoCollides | go/cmd/sobs/agent_dedupe.go:94-104 | without that condition the service of one incident can stand for the repository of another |
| IssueFlow.BuildCandidates | go/cmd/sobs/agent_dedupe.go:268-327 | the two filling loops with their `seen` set compute the candidate list, numbers falling back to the work item |
| IssueFlow.CandidatesSpec | go/cmd/sobs/agent_dedupe.go:268-327 | that list holds every open issue once, described by the newest recent work item of the issue if there is one and bare otherwise, and nothing else |
| IssueFlow.Desk.ReuseExisting | go/cmd/sobs/agent_dedupe.go:429-508 | status detection, occurrence count and the ordered blocking conditions of the reuse branch |
| IssueFlow.Desk.ChooseOutcome | go/cmd/sobs/agent_dedupe.go:262-427 | classification, lookup of the matched candidate, reuse or new issue |
| IssueFlow.Desk.RunRule | go/cmd/sobs/agent_flow.go:90-270 | one run: the work item it appends, if any, and those of the three run rows pending, running and final status whose insert succeeds, on every path |
| IssueFlow.Bounded | go/cmd/sobs/agent_dedupe.go:529-547 | a missing setting is its default, a given one the nearest value within the bounds |
| IssueUniqueness.AtMostOneOpenIssue | go/cmd/sobs/agent_dedupe.go:262-353 | main result: over every series of runs with the local classifier and visible issues, at most one open agent-created issue exists per repository, normalized service and normalized signal, and all work items of an issue share them |
| IssueUniqueness.OpensExactly | go/cmd/sobs/agent_dedupe.go:127-154 | with the local classifier a run opens an issue exactly when one may be created, GitHub answers with an address, and no candidate has its key or its service and signal |
| IssueUniqueness.DuplicateExactly | go/cmd/sobs/agent_dedupe.go:351-360 | one run leaves two live issues of a named family exactly when those inputs hold and another issue of the family is live |
| IssueUniqueness.VisibleMeansReuse | go/cmd/sobs/agent_dedupe.go:130-154 | while an open issue of a named family is fetched and among the recent work items, the fallback never lets a new one be opened |
| IssueUniqueness.ReuseSharesFamily | go/cmd/sobs/agent_dedupe.go:127-154 | an issue the fallback reuses belongs to the run's own family, by key or by service and signal |
| IssueUniqueness.NextConsistent | go/cmd/sobs/agent_flow.go:230-252 | a run keeps all work items of one issue at one repository, service and signal |
| IssueNoise.TwoOpenIssues | go/cmd/sobs/agent_dedupe.go:106-125 | for any two named families of any repository: a series of runs in which every open issue is fetched, and which leaves two live issues of one family, because ten rows of the other fill the list of recent work items |
| IssueNoise.SceneExists | go/cmd/sobs/agent_dedupe.go:106-125 | such a repository with two families exists |
| IssueFlow.AsksExactly | go/cmd/sobs/agent_dedupe.go:429-508 | a run appends a row that records a request exactly when it asks, a condition on its inputs and the work items before it |
| CopilotLimits.HourlyLimit | go/cmd/sobs/agent_dedupe.go:485-520 | main result: over every serial series with readable counts, limit m and a clock that does not run backwards, no 3600-second window holds more than m recorded requests, over both paths and for any classifier |
| CopilotLimits.StepWithinLimitExactly | go/cmd/sobs/agent_dedupe.go:407-425 | one run breaks any limit exactly when it asks, is answered and saved, and the hour before its request is full already |
| CopilotLimits.LimitBreaksExactly | go/cmd/sobs/agent_dedupe.go:510-520 | so it breaks its own limit exactly when moreover its count could not be read |
| CopilotLimits.AppendWithinLimitExactly | go/cmd/sobs/agent_dedupe.go:510-520 | the same for one appended row |
| CopilotCases.UnreadableCountExceeds | go/cmd/sobs/agent_dedupe.go:510-520 | two runs from an empty desk that record two requests in an hour with a limit of one, the second with a failed count |
| CopilotLimits.RecordedWasMade | go/cmd/sobs/agent_dedupe.go:353-427 | recorded requests are made ones, and all made ones of a window are recorded exactly when each of their runs wrote its work item |
| CopilotLimits.MadeLimit | go/cmd/sobs/agent_dedupe.go:485-520 | over the same series no hour holds more requests, recorded or not, than the limit and the lost rows of that hour together |
| CopilotLimits.MadeBreaksExactly | go/cmd/sobs/agent_dedupe.go:485-520 | one run breaks the limit on the requests themselves exactly when it makes one into a full hour |
| CopilotLimits.MadeLimitExactly | go/cmd/sobs/agent_dedupe.go:485-520 | main result: over a series whose requests come in the order of their times, some hour holds more than m of them exactly when some run makes one into a full hour |
| CopilotLimits.FullHourLost | go/cmd/sobs/agent_dedupe.go:510-520 | a run that has read the count meets such an hour within its own limit only behind a lost row of that hour |
| CopilotCases.UnsavedRequestExceeds | go/cmd/sobs/agent_dedupe.go:353-427 | two runs with readable counts that make two requests in an hour with a limit of one, as the first row is not written |
| CopilotLimits.RequestWithinActiveLimit | go/cmd/sobs/agent_dedupe.go:415-419 | a step that requests an assignment and has read the count does not take the requested or active count over its limit |
| CopilotLimits.ActiveLimitBreaksExactly | go/cmd/sobs/agent_dedupe.go:407-508 | main result: from within the limit a run exceeds it exactly when it is reached already and the saved row copies a busy status without asking, or requests without having read the count |
| CopilotCases.PlainReuseExceeds | go/cmd/sobs/agent_dedupe.go:477-484 | two runs from an empty desk with a limit of one and two active assignments after them |
| CopilotLimits.RequestedAgainExactly | go/cmd/sobs/agent_dedupe.go:485-508 | main result: an issue requested before is requested again exactly when the other conditions of the branch hold and the newest of its recent rows is neither requested nor active |
| CopilotCases.RequestedTwice | go/cmd/sobs/agent_dedupe.go:485-508 | three runs from an empty desk that request, are blocked, and request the same issue again |
| CopilotCases.SiteExists | go/cmd/sobs/agent_dedupe.go:353-427 | a repository and an issue address that these series can run on |
| Blake2b.MixInPlace | go/cmd/sobs/blake2b.go:38-47 | the eight assignments on the array are section 3.1 of RFC 7693 on the four words and leave the other twelve alone |
| Blake2b.ColumnsInPlace | go/cmd/sobs/blake2b.go:63-66 | the four column calls |
| Blake2b.DiagonalsInPlace | go/cmd/sobs/blake2b.go:67-70 | the four diagonal calls are the wrapped diagonals with message words 8 to 15 of the schedule |
| Blake2b.RoundInPlace | go/cmd/sobs/blake2b.go:61-70 | one round is the four columns, then the four diagonals |
| Blake2b.CompressInPlace | go/cmd/sobs/blake2b.go:49-75 | the in-place compression is the function F of section 3.2 of RFC 7693 |
| Blake2b.FullBlocks | go/cmd/sobs/blake2b.go:98-105 | the block loop: the chained state, and the counter at 128 times the number of blocks |
| Blake2b.PersonalSum | go/cmd/sobs/blake2b.go:82-115 | main result: for data of every length the result is the digest of section 3.3 of RFC 7693 with the parameter block of section 2.5 and the personalization in its words 6 and 7, the last block compressed once with the data length as its counter |
| Blake2b.BlocksSpellData | go/cmd/sobs/blake2b.go:99-110 | read in order the blocks are the data followed by less than a block of zeros, or one zero block when there is no data |
| Blake2b.ParameterWord | go/cmd/sobs/blake2b.go:88-90 | the three ORed terms are the parameter word 0x0101 0000 XOR the length |
| Blake2b.LeWordOfLeBytes | go/cmd/sobs/blake2b.go:111-113 | writing a word little-endian and reading it gives the word |
| Blake2b.LeBytesOfLeWord | go/cmd/sobs/blake2b.go:51-54 | reading eight bytes and writing them gives the bytes |
| Blake2b.GBijective | go/cmd/sobs/blake2b.go:38-47 | for fixed message words G is a bijection of its four words, with the inverse written out |
| Blake2b.ApplyAllBijective | go/cmd/sobs/blake2b.go:59-71 | any sequence of mixings permutes the sixteen-word states |
| Blake2b.RoundsArePermutation | go/cmd/sobs/blake2b.go:59-71 | so do the twelve rounds for a fixed block |
| Blake2b.DisjointMixesCommute | go/cmd/sobs/blake2b.go:63-70 | mixings on disjoint words commute |
| Blake2b.OrderOfMixes | go/cmd/sobs/blake2b.go:63-70 | pairwise disjoint mixings give the same state in every order |
| Blake2b.LanesAreDisjoint | go/cmd/sobs/blake2b.go:63-70 | the four columns are pairwise disjoint, and so are the four diagonals |
| Blake2b.ColumnsInAnyOrder | go/cmd/sobs/blake2b.go:63-70 | main result: within a round the columns may run in any order and so may the diagonals |
| AnomalyRules.BuildLookups | go/cmd/sobs/chart_anomaly_engine.go:171-182 | the two maps hold the last row of every series, and of every series at every time |
| AnomalyRules.EvaluateComposite | go/cmd/sobs/chart_anomaly_engine.go:203-253 | the composite verdict through maps that alias rows already rewritten is the verdict on the original table |
| AnomalyRules.AnnotateRow | go/cmd/sobs/chart_anomaly_engine.go:360-406 | one row rewritten in place: the new cells as a function of the old ones and the original table, and all rows keep what evaluation reads |
| AnomalyRules.AnnotateRows | go/cmd/sobs/chart_anomaly_engine.go:355-407 | main result: annotation in place, rows possibly listed twice, equals annotating each original row against the original table |
| AnomalyRules.SameJudge | go/cmd/sobs/chart_anomaly_engine.go:71-85 | no evaluator reads a column that annotation writes |
| AnomalyRules.AnnotatedFrames | go/cmd/sobs/chart_anomaly_engine.go:361-365 | annotation changes no column but its own six |
| AnomalyRules.AnnotatedColumns | go/cmd/sobs/chart_anomaly_engine.go:400-405 | what each of the six holds in terms of the best verdict |
| AnomalyRules.BestSpec | go/cmd/sobs/chart_anomaly_engine.go:366-399 | the loop keeps the first verdict of the highest (severity, type, name) rank |
| AnomalyRules.EffectiveIsMaximum | go/cmd/sobs/chart_anomaly_engine.go:405-405 | main result: the effective state is as severe as the row's own state and every matching rule's verdict, and no more severe than one of them |
| AnomalyRules.RuleOrderIrrelevant | go/cmd/sobs/chart_anomaly_engine.go:370-399 | the order of the rules changes neither the rule state, the rule name nor the effective state |
| AnomalyRules.Combine | go/cmd/sobs/chart_anomaly_engine.go:160-169 | the combined state is one of the two and at least as severe as both |
| AnomalyRules.AnnotatedTwice | go/cmd/sobs/chart_anomaly_engine.go:355-407 | annotating an annotated row changes nothing, whichever other rows are annotated by then |
| AnomalyRules.AnnotateIdempotent | go/cmd/sobs/chart_anomaly_engine.go:355-407 | main result: annotating a table a second time changes nothing |
| AnsiStyle.ApplyCodes | static/sobs-ansi.js:105-174 | the index loop over the codes, 38 and 48 taking their parameters, computes the style of the sequence |
| AnsiStyle.ApplyForeground | static/sobs-ansi.js:129-147 | the extended foreground forms and how many parameters each takes, too few leaving the style alone |
| AnsiStyle.ApplyBackground | static/sobs-ansi.js:152-169 | the same for the background |
| AnsiStyle.SgrKeepsOneColour | static/sobs-ansi.js:105-174 | no sequence leaves both a palette colour and an RGB colour set |
| AnsiStyle.SgrComposes | static/sobs-ansi.js:105-174 | codes in one sequence act like the same codes in two, if the first ends with no open 38 or 48 |
| AnsiStyle.ThemeColourByIndex | static/sobs-ansi.js:134-140 | the sixteen theme colours have the same effect by short code and by index |
| AnsiStyle.CubeColour | static/sobs-ansi.js:60-65 | index 16 + 36r + 6g + b is the cube colour of levels r, g, b |
| AnsiStyle.GrayColour | static/sobs-ansi.js:66-67 | index 232 + k is the gray 8 + 10k |
| AnsiStyle.PaletteInjective | static/sobs-ansi.js:60-68 | no two indices from 16 to 255 give one colour |
| Ansi.ParseAnsi | static/sobs-ansi.js:72-186 | main result: the segments, flattened, are the characters outside complete sequences with the style in force, and no segment is empty |
| Ansi.ScanFinal | static/sobs-ansi.js:87-91 | the scan stops at the first final byte or at the end |
| Ansi.LexSpells | static/sobs-ansi.js:79-95 | every text is characters and complete sequences, then possibly one cut-off sequence |
| Ansi.LexUnique | static/sobs-ansi.js:79-95 | in one way only |
| Ansi.LexConcat | static/sobs-ansi.js:79-95 | the reading of a + b is that of a, then that of b, when a ends outside a sequence |
| Ansi.ParseComposes | static/sobs-ansi.js:72-186 | main result: under that condition parsing a + b is parsing a, then b from the style that a leaves |
| Ansi.StyledKeeps | static/sobs-ansi.js:175-178 | what is kept does not depend on the styles, and every style names each colour once |
| Ansi.StripAgreesExactly | static/sobs-ansi.js:233-236 | main result: parser and stripper keep the same characters exactly when every sequence is digits and semicolons ended by a letter and none is cut off |
| Ansi.StripDisagrees | static/sobs-ansi.js:233-236 | a text on which they do not |
| AnsiRender.EscapeByChar | static/sobs-ansi.js:188-194 | the four replacements in a row act on each character alone |
| AnsiRender.EscapedVisible | static/sobs-ansi.js:188-194 | a page shows the escaped text as the text |
| AnsiRender.RenderSegments | static/sobs-ansi.js:196-231 | the rendering loop |
| AnsiRender.HtmlVisible | static/sobs-ansi.js:222-227 | tags of the renderer are never shown |
| AnsiRender.RenderAnsi | static/sobs-ansi.js:196-231 | main result: the page shows exactly the characters outside control sequences |
| Ordering.Sink | go/internal/jsonenc/jsonenc.go:316-322 | the inner loop puts one element in its place and leaves the rest of the array alone |
| Ordering.SortStrings | go/internal/jsonenc/jsonenc.go:316-322 | the in-place sort is the insertion sort whose result is sorted and a permutation |
| Ordering.SortPermutes | go/internal/jsonenc/jsonenc.go:316-322 | it is a permutation |
| Ordering.SortSorts | go/internal/jsonenc/jsonenc.go:316-322 | it is sorted, for every strict weak order |
| Ordering.SameMultisetExactly | go/goldenreplay/normalize.go:177-196 | sorted lists of strings are equal exactly when their multisets are |
| JsonRoundTrip.EncodeReads | go/internal/jsonenc/jsonenc.go:94-199 | main result: what either key-sorting printer writes for a well-formed value parses back to the value with its members sorted |
| JsonRoundTrip.EscapeReads | go/internal/jsonenc/jsonenc.go:277-309 | every escaped character reads back, in both escaping styles |
| JsonRoundTrip.CutOffReads | go/cmd/sobs/dbutil.go:148-193 | the parser reads a text that breaks off before the last bracket of an object as the whole object |
| CanonicalJson.CanonicalText | go/goldenreplay/normalize.go:130-175 | the recursive printer writes the canonical text |
| CanonicalJson.ArrayText | go/goldenreplay/normalize.go:156-170 | the list branch |
| CanonicalJson.ObjectText | go/goldenreplay/normalize.go:133-155 | the object branch: keys collected, sorted and looked up again |
| CanonicalJson.CanonicalExactly | go/goldenreplay/normalize.go:130-175 | main result: two nested values have one canonical text exactly when they are the same value up to member order |
| GoldenCompare.Normalize | go/goldenreplay/normalize.go:35-73 | the header loop: which headers are dropped, rewritten or kept, in order |
| GoldenCompare.AllowExactly | go/goldenreplay/normalize.go:57-69 | two Allow values normalize alike exactly when they list the same methods equally often, and normalizing twice is normalizing once |
| GoldenCompare.HeaderMultiset | go/goldenreplay/normalize.go:177-184 | the sorted list of header lines, sorted in place |
| GoldenCompare.EqualMultiset | go/goldenreplay/normalize.go:186-196 | the loop decides equality |
| GoldenCompare.EqualResponses | go/goldenreplay/normalize.go:198-209 | responses pass exactly when status, body and the multiset of normalized header lines agree |
| GoldenCompare.LinesExactly | go/goldenreplay/normalize.go:177-184 | unless two of the headers are confused, the lines agree as multisets exactly when the headers do, names without case |
| GoldenCompare.AcceptedExactly | go/goldenreplay/normalize.go:198-209 | then responses pass exactly when status, body and the multiset of normalized headers agree |
| GoldenCompare.NulFreeIsClear | go/goldenreplay/normalize.go:177-184 | names without the NUL separator are never confused |
| GoldenCompare.MistakenExactly | go/goldenreplay/normalize.go:177-196 | main result: from a set of headers two lists with the same lines and different headers can be drawn exactly when two of the headers are confused: the name of one is that of the other, the separator and what the value of the other begins with |
| GoldenCompare.NulConfuses | go/goldenreplay/normalize.go:177-209 | with the separator in a name, responses that differ in their one header pass |
| GoldenCompare.HeaderOrderIrrelevant | go/goldenreplay/normalize.go:198-209 | responses that differ in header order only have the same multiset of lines |
| Encoding.GroupsRead | go/cmd/sobs/ai_action_execute.go:43-47 | padded base64url (RFC 4648, section 5) decodes what it encodes, at every length |
| Encoding.StripRoundTrip | go/cmd/sobs/ai_action_normalize.go:29-29 | stripping the padding and putting it back is a round trip at every length, and the token body holds no dot |
| Encoding.Utf8Reads | go/cmd/sobs/ai_action_normalize.go:28-29 | UTF-8 bytes read back as the text |
| Encoding.ItoaReads | go/cmd/sobs/ai_action_execute.go:62-72 | a 64-bit integer printed as a JSON number is read back by the expiry check |
| ClientAction.SanitizeValue | go/cmd/sobs/ai_action_execute.go:105-145 | the recursive sanitiser with its depth, member, item and byte limits, a cut text being what JSON shows of its bytes |
| ClientAction.SanitizeObject | go/cmd/sobs/ai_action_execute.go:119-132 | its member loop: fifty members, trimmed keys, blank keys skipped, later duplicates winning |
| ClientAction.SanitizeList | go/cmd/sobs/ai_action_execute.go:133-141 | its item loop |
| ClientAction.BuildClientAction | go/cmd/sobs/ai_action_execute.go:147-165 | the type first, then the sanitised members; nothing for a missing type or payload |
| ClientAction.SanitizeShapes | go/cmd/sobs/ai_action_execute.go:105-145 | whatever the value, the result is within all limits |
| ClientAction.SanitizeFixes | go/cmd/sobs/ai_action_execute.go:105-145 | a value within the limits with clean texts is unchanged |
| ClientAction.FixedIsClean | go/cmd/sobs/ai_action_execute.go:105-145 | and a value within the limits that comes out the same had clean texts |
| ActionText.FrontReads | go/cmd/sobs/ai_action_execute.go:113-118 | the first n bytes of a text, as JSON shows them, are its whole characters and one U+FFFD for each byte of the next one |
| ActionText.TextFixed | go/cmd/sobs/ai_action_execute.go:113-118 | a text is sanitised to itself exactly when it is trimmed and takes at most 4096 bytes, or is too long by the one or two U+FFFD that the cut tears and JSON shows again |
| ActionText.SettlesExactly | go/cmd/sobs/ai_action_execute.go:113-118 | a second sanitising changes nothing exactly when the text fits, or the cut neither tears a four-byte character behind its third byte nor ends with a blank |
| ClientAction.SettledExactly | go/cmd/sobs/ai_action_execute.go:105-145 | a sanitised value has clean texts exactly when each text that the depth, member and item limits let through settles |
| ClientAction.RebuiltExactly | go/cmd/sobs/ai_action_execute.go:147-165 | building an action from a built action gives the same action exactly when its texts are clean |
| ActionToken.SignedOpens | go/cmd/sobs/ai_action_execute.go:32-60 | a well-signed token opens to what its body spells, and to nothing once expired |
| ActionToken.IssuedOpens | go/cmd/sobs/ai_action_normalize.go:34-48 | main result: an issued token opens to its payload, members sorted, until 300 seconds have passed and not after |
| ActionToken.ExecutedIsProposed | go/cmd/sobs/ai_action_execute.go:169-211 | main result: build, seal, open in time and build again gives the same action exactly when sanitising keeps each of its texts; an expired token executes nothing |
| ActionToken.ExecutedExactly | go/cmd/sobs/ai_action_execute.go:105-211 | main result: within its time a payload is executed as proposed exactly when each of its texts that the limits let through settles, and its type is kept or replaced |
| ActionToken.OneTextExactly | go/cmd/sobs/ai_action_execute.go:105-211 | a payload of one text is executed as proposed exactly when its text settles |
| ActionToken.ExecutedDiffers | go/cmd/sobs/ai_action_execute.go:113-118 | two proposals that are executed differently: 4093 letters and a four-byte character, and a text whose cut ends with a blank |
| SqlLiterals.ScanLiteral | go/cmd/sobs/ai_view.go:242-254 | the scan ends behind the closing quote, doubled quotes passed over, or at the end of the text |
| SqlLiterals.MaskLiterals | go/cmd/sobs/ai_view.go:229-259 | the text is parted into quote-free texts and literals, and the masked text has a numbered token for each literal |
| SqlLiterals.PiecesUnique | go/cmd/sobs/ai_view.go:229-259 | a text is parted in one way only |
| SqlLiterals.ReplaceOutsideQuotes | go/cmd/sobs/ai_view.go:226-268 | main result: under rewrites that touch texts only, every literal comes back verbatim and in order exactly when no text traps a token; with none, the text itself comes back under the same condition |
| SqlLiterals.RestoresExactly | go/cmd/sobs/ai_view.go:264-266 | restoring token by token is exact if and only if no text behind a literal completes an earlier token |
| SqlLiterals.TrapExample | go/cmd/sobs/ai_view.go:264-266 | a text without the marker on which restoring is not exact |
| SqlLiterals.RestoresOrBreaks | go/cmd/sobs/ai_view.go:264-266 | from any token on, restoring is exact or leaves a broken token for good |
| SqlLiterals.StaysBroken | go/cmd/sobs/ai_view.go:264-266 | a broken token is never repaired by later replacements |
| LlmStream.StreamEndpoint | go/cmd/sobs/ai_helper.go:392-490 | text, calls and usage returned for a whole body, or nothing on failure |
| LlmStream.StreamWithCallbacks | go/cmd/sobs/ai_helper.go:499-601 | main result: the deltas heard concatenate to the other reader's text, none empty, and the calls heard are its list; a missing callback hears nothing; the same usage |
| LlmStream.FlushCalls | go/cmd/sobs/ai_helper.go:405-425 | a flush emits one call per index in ascending order |
| LlmStream.SortedIndices | go/cmd/sobs/ai_helper.go:406-410 | indices collected in any order and sorted are the ascending list |
| LlmStream.AscendingUnique | go/cmd/sobs/ai_helper.go:410-410 | there is only one such list |
| LlmStream.Accumulate | go/cmd/sobs/ai_helper.go:451-463 | the inner loop over the deltas of an event |
| LlmStream.SplitEvent | go/cmd/sobs/ai_helper.go:451-469 | splitting the content and the deltas of an event over two events changes nothing |
| LlmStream.SplitArguments | go/cmd/sobs/ai_helper.go:457-462 | splitting one argument text over two deltas changes nothing |
| LlmStream.SlotsAssemble | go/cmd/sobs/ai_helper.go:451-463 | a slot holds all argument text of its index in order and the last name given |
| TurnCards.CollectTurns | go/cmd/sobs/ai_view.go:823-959 | the map of records that the span loop updates, and the order of first appearance |
| TurnCards.BuildCards | go/cmd/sobs/ai_view.go:795-1023 | the cards, sorted and numbered |
| TurnCards.CardsAre | go/cmd/sobs/ai_view.go:961-1021 | main result: one card per distinct non-blank turn id, strictly ordered by start and id, each what its own spans say |
| TurnCards.TokensConserved | go/cmd/sobs/ai_view.go:872-874 | main result: each of the three token sums over the cards is the sum over the spans that have a turn id |
| TurnCards.StartAndEnd | go/cmd/sobs/ai_view.go:864-870 | start and end are the least and the greatest non-empty time |
| TurnCards.StatusIs | go/cmd/sobs/ai_view.go:906-925 | the last blocking, failing or cancelling event decides; a completion counts only without one |
| TurnCards.MessagesAre | go/cmd/sobs/ai_view.go:877-894 | the first question given; the answer of the last completion, else the first given |
| TurnCards.UntrimmedExactly | go/cmd/sobs/ai_view.go:725-757 | an entry has an untrimmed field exactly when it is summed up by an action of more than 180 characters whose 180th is a blank |
| TurnCards.ToolsDistinctExactly | go/cmd/sobs/ai_view.go:927-957 | main result: no tool entry is listed twice exactly when no two tool events of the turn make one entry with such a summary |
| TurnCards.ListedTwice | go/cmd/sobs/ai_view.go:927-957 | two spans that report one proposal, and list it twice |
| TurnCards.TimesListed | go/cmd/sobs/ai_view.go:945-957 | how often each entry is listed, trimmed or not |
| MarkAreas.Shade | go/cmd/sobs/chart_render_binding.go:674-700 | main result: the areas are exactly the maximal runs of one non-normal state that begin within the chart, with the times of their ends; it fails exactly when a run goes on behind the last time |
| MarkAreas.RunsUnique | go/cmd/sobs/chart_render_binding.go:674-700 | those runs are determined by the states |
| MarkAreas.AreasPartition | go/cmd/sobs/chart_render_binding.go:674-700 | an index lies in an area exactly when its state is not normal, and then in one only |
| MarkAreas.SplitPoints | go/cmd/sobs/chart_render_binding.go:702-713 | warning and outlier points are the points at exactly the indices of rank 1 and 2 |
| MarkAreas.IndicesOf | go/cmd/sobs/chart_render_binding.go:568-577 | those indices, in ascending order |
| BrowserContext.Page.UpdateBrowserContext | static/rum.js:302-312 | the stored context and hash change exactly when the hash differs |
| BrowserContext.Page.SendOne | static/rum.js:790-809 | which of full context, hash and unchanged mark an event carries, for every kind and switch |
| BrowserContext.Page.SendBatch | static/rum.js:786-820 | a batch, or nothing without an endpoint |
| BrowserContext.Page.TrackPageView | static/rum.js:827-836 | a page view, after which it is no longer the first |
| BrowserContext.Page.Perform | static/rum.js:786-836 | over every course of sends, page views and late configuration the stream stays faithful to the captured contexts |
| BrowserContext.RecoversExactly | static/rum.js:794-806 | main result: with delivery in order no item says unchanged before a full context, and the receiver recovers every captured context exactly when no two neighbours collide |
| BrowserContext.InjectiveRecovers | static/rum.js:794-806 | with an injective hash it always does |
| BrowserContext.MergedExactly | static/rum.js:302-312 | what the receiver sees is each context replaced by its neighbour on a hash collision |
| BrowserContext.ChecksumCollides | static/rum.js:286-300 | the script's hash is not injective: two texts agree in any surroundings |
| Embedding.TextEmbedding | go/cmd/sobs/ai_helper_context.go:33-59 | counting, norm and scaling in place |
| Embedding.CosineSimilarity | go/cmd/sobs/ai_helper_context.go:61-76 | the accumulated dot product over the shared prefix |
| Embedding.EmbedIsUnit | go/cmd/sobs/ai_helper_context.go:47-58 | an embedding is non-negative and of length one, or nought without tokens |
| Embedding.SimilarityBounds | go/cmd/sobs/ai_helper_context.go:61-76 | main result: similarity lies between 0 and 1, and is 1 for a text with tokens against itself |
| Embedding.EmbedIgnoresOrder | go/cmd/sobs/ai_helper_context.go:42-46 | the order of tokens does not matter |
| Embedding.SemanticMemoryMatches | go/cmd/sobs/ai_helper_context.go:359-383 | at most the asked number of memories, a prefix of the qualifying ones sorted by rounded score |
| Embedding.KeptAreBest | go/cmd/sobs/ai_helper_context.go:371-382 | kept and dropped are the qualifying memories, and none dropped has a higher rounded score than one kept, so in full it is ahead by at most 0.0001 |
| Embedding.SortStable | go/cmd/sobs/ai_helper_context.go:378-378 | memories of one rounded score keep their stored order |
| Embedding.DroppedAheadExactly | go/cmd/sobs/ai_helper_context.go:371-382 | main result: a dropped memory is ahead of a kept one in full exactly when two qualifying memories share their rounded score across the cut and the later stored one is ahead |
| Embedding.RoundingHides | go/cmd/sobs/ai_helper_context.go:359-383 | a token two hundred times and another, stored before the token alone: asked for the token with room for one, the first is kept, the second dropped, and the second is ahead in full |

## Left out

- HTTP handlers, SQL text, prompt text, template pages and logging: no invariant of their own.
- The database, GitHub, the language model, the guard and the screening service: inputs of the modelled steps, with success and failure outcomes. SHA-256, regular expressions, zlib, number parsing and printing in the rule engine, and JavaScript's `Number` are function parameters; SHA-256 is only known to give hexadecimal text.
- Concurrency of agent runs: counts are read and written in separate statements, so the limits and the uniqueness of issues are stated for serial runs.
- CopyWorker.Database.RunWorker: the listing query is an input, so its order and its limit of 200 windows are not modelled; neither are the order in which an insert stores rows nor the loop that sleeps between runs and recovers from panics.
- CopyWorker.Database.CopyOne: a row is its key, the two filter attributes and an opaque payload; times are integers, and a time text that does not parse is a failing statement. The value of a mark's version is left out.
- CopyCoverage.EachKeyCopiedOnce: retention of the pinned tables is not an event, so a key deleted there and copied again is not counted as a second copy.
- IssueFlow.Desk.ChooseOutcome: titles, bodies, confidences and reasons are not part of an outcome; soft-deleted work items and the work items of repository onboarding do not exist in the model; whether another issue may be created this hour is an input.
- The backfill of `work_item_backfill.go`, which refreshes the status, state and linked pull request of open work items from GitHub between runs: the series of runs have no such step.
- IssueUniqueness.AtMostOneOpenIssue: for runs whose created issue lies in the configured repository; which issues are visible is a condition, because the code does not provide it (see TwoOpenIssues).
- DedupeKey.SameNormalExactly: lower-casing is modelled for ASCII and the two other characters whose lower case is an ASCII letter; all others are separators with or without it.
- Blake2b.PersonalSum: for lengths from 1 to 64 and fewer than 2^64 bytes of data, as the function's comment demands; keyed hashing and salt are not in the code.
- AnomalyRules.AnnotateRows: the seven column names the caller chooses must not be among the six written ones, as in all its callers; numbers are reals, without NaN and infinities; the bucket that applies to a seasonal rule at a time is an uninterpreted function; an entry of the rule list that is no object is skipped by the code and absent here.
- Ansi.ParseAnsi: characters are whole code points where JavaScript counts UTF-16 units, and a code whose digits exceed the range of a JavaScript number is not modelled.
- AnsiRender.RenderAnsi: the colour tables are parameters that hold no character that ends a tag; applying the result to page elements is left out.
- CanonicalJson.CanonicalText: a number is its literal text, so decoding to a 64-bit float and printing it again is left out; `decodeSessionPayload` and `applyMasks` are not modelled, session cookies being rewritten by a function parameter.
- JsonRoundTrip.EncodeReads: a bare number that is followed by more number characters, as in `1-2`, is no value here, while the parser reads its longest number; only objects are used of what it reads.
- ClientAction.SanitizeValue: a text that was cut is modelled as JSON shows its bytes, which is all that the token and the browser see of it.
- ActionToken.ExecutedIsProposed: the page's action manifest, the confirmation dialogue and attaching the token to a proposal are left out; the declared type is an input.
- SqlLiterals.ReplaceOutsideQuotes: rewrites are functions on the masked text; those that insert a marker, or text behind an unclosed literal, are not covered by the restoring result.
- LlmStream.StreamEndpoint: one response body that has arrived whole, as in the code; the request, elapsed time and the emitted span are left out.
- TurnCards.BuildCards: parsing of messages, and what encoding/json reads of a tool action, are inputs of each span; the rounded duration is left out.
- MarkAreas.Shade: the other series, axis bounds and percent scaling of the chart are left out, as are the colours and titles of an area.
- BrowserContext.Page.SendBatch: capturing the context, trace data and buffering (`_pushBounded`) are left out; delivery is in order.
- Embedding.KeptAreBest: over the reals; the square root is any function that is one.
- Auth, base paths, vulnerability bookkeeping, seeding and the load generators: one-branch decisions.
