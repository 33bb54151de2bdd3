# Verified models of a coding agent's guards, scanners and diff machinery

A Dafny model of the self-contained algorithms and state machines of a coding-agent command line:
the loop guard and its canonical JSON printer, the patch and edit previews, terminal-text wrapping
and word highlighting, the highlight cache, context truncation, the bounded worker pool, two JSONC
comment strippers, the streaming display of reasoning text, tool grouping, the exploration guard and
the paste interceptor. `dafny verify dfyconfig.toml` verifies the whole project.

Objects whose methods update fields are classes (`LoopGuard`, `ConcurrentMap`, `Cache`,
`ThinkingDisplay`, `Guard`, `Interceptor`), and loops are methods with invariants. Each is proved
against a specification function, and the laws are lemmas about those functions: over all inputs, all
runs of events, or all schedules.

| file | models |
|---|---|
| `CountMap`, `ToolHistory`, `LoopDetectors`, `LoopGuard`, `LoopGuardRuns`, `LoopGuardWarnings`, `ToolKeys` | the loop guard: counting maps in insertion order, keys, repetition counts, detectors, the object, whole runs, what a warning says and when it comes |
| `CanonicalJson`, `CanonicalJsonLaws`, `CanonicalJsonForm` | the key-sorting JSON printer, a parser for what it prints, and the exact form of the text |
| `TextLines`, `PatchPreview`, `PatchLaws`, `PatchOrder`, `PatchDisplay` | locating patch hunks and numbering the lines of a patch preview, for hunks in file order and in any order; what the preview displays |
| `EditLocalizer`, `EditNumbers` | line numbers of several edits to one file, and which lines they name |
| `AnsiText`, `WrapAnsi`, `WordHighlight`, `WordChanges` | terminal text as tokens: wrapping, painting word changes, when the ranges of a word diff are right |
| `HighlightCache` | the recency cache of rendered code |
| `ContextBudget` | token estimates and truncation |
| `WorkerPool` | at most `limit` asynchronous tasks in flight |
| `JsoncStrip`, `JsoncLaws` | the two comment strippers, and when they agree |
| `HideThinking`, `ThinkingTags`, `ThinkingTiles`, `ThinkingRuns` | the handlers that overwrite streamed text for display, the transforms of both modes and what they keep, whole runs and sessions |
| `ToolGrouping` | which tool calls are summarised together, and who renders the summary |
| `ExplorationGuard` | steering after turns that only read or only talk |
| `PasteInterceptor` | carriage returns in raw pastes |

## What came out

- The loop guard's class comment says that the detection after a warning terminates tool use
  (`src/extensions/loop-guard.ts:49-52`). The code always warns and never terminates (line 150); the
  model follows the code.
- The canonical printer identifies more than key orders: a field whose value is `undefined` prints like an
  absent one, and an array holding a single `undefined` prints as the empty array
  (`CanonicalJsonLaws.LoneUndefinedPrintsEmpty`). `CanonicalJsonLaws.PrintsAlikeIffSame` is exact, with these
  in its equality. Outside the model, NaN and the infinities print as `null`.
- Truncation promises a list that fits (`src/extensions/model-guard.ts:223-227`), but always keeps the last two
  messages and returns lists of at most two as they are, so the promise can fail
  (`ContextBudget.TwoLargeMessagesStayLarge`). `ContextBudget.TruncationFitsExactly` decides it for every list and
  window, by a condition that can be checked beforehand. The branch that returns the list because nothing was
  pruned is dead.
- The two comment strippers differ on a line comment that holds a carriage return, and on an unclosed block
  comment with at least one character after its opener; `JsoncLaws.StrippersAgree` shows that they agree on
  every other input and on no such input.
- Reasoning text with an opening tag but no closed pair of tags is lost once an update has displayed it, whether it
  is hidden or dimmed: the display stays and nothing is recorded under it (`ThinkingRuns.UnclosedThinkIsLost`, with two
  such texts in `ThinkingRuns.LostTexts`). `ThinkingRuns.ComesBackExactly` says when a block comes back, for all
  transforms, and `ThinkingRuns.TaggedComesBackExactly` gives the condition on what was sent; it holds in the hiding
  mode for all texts and in the dimming mode for texts without escape bytes (`ThinkingRuns.HiddenComesBackExactly`,
  `ThinkingRuns.DimmedComesBackExactly`).
- Wrapping re-establishes the foreground on the next row from codes it tracks; standard colours (30-37, 90-97) and
  the empty reset are not among them, so red text loses its colour at a row break
  (`WrapAnsi.StandardColorIsLost`). The contract of `WrapAnsi.WrapAnsi` says exactly when all colours are kept.
- A word diff that ignores spacing shares the new text's spacing, so its parts need not spell the old text. Its ranges
  are right for the old text exactly when in front of every removed part the shared pieces are together as long in that
  text as in the parts (`WordChanges.RangesRightExactly`, painted in `WordChanges.HighlightsExactlyChanges`). That can
  hold for parts that do not spell the line (`WordChanges.FrontChangeIsInPlace`), and can fail
  (`WordChanges.RespacedTextIsMismarked`).
- Similarity 1 does not mean equal texts. For parts that spell the new text it means that nothing was added and the old
  text is no longer than the new one (`WordHighlight.SimilarityOneExactly`), which holds for texts that differ in spacing
  and even with a word removed (`WordHighlight.RespacedTextIsSimilar`, `WordHighlight.RemovedTextIsSimilar`).
- A patch hunk that the forward search misses is found from the top, but still numbered with the delta of all hunks listed
  before it. For located hunks that do not overlap, in any order, its new number is right exactly when the listed-earlier
  hunks behind it move as many lines as the listed-later hunks in front of it (`PatchOrder.NewStartRightExactly`);
  `PatchOrder.OutOfOrderIsMisnumbered` is a patch whose second hunk gets number 2 and stands at line 1.
- The group of a failed or ungroupable tool call is the runs on both of its sides, joined, so such a call
  can render nothing although no summary counts it (`ToolGrouping.FailedToolBetweenToolsIsHidden`).
  `ToolGrouping.BreakerStaysVisibleExactly` says exactly when it stays visible.
- Without ranges, painting re-establishes no background after a full reset
  (`WordHighlight.WithoutRangesResetsWin`).

## Model

| member | source | states |
|---|---|---|
| `LoopGuardClass.LoopGuard.Record` | src/extensions/loop-guard.ts:112-174 | One call of `record` takes the guard's whole state and answers as the step of the run model does: tally, push, evict, detect, and on a warning clear the window and the totals of the fired keys. |
| `LoopGuardClass.LoopGuard.Reset` | src/extensions/loop-guard.ts:87-97 | Every field is back at its initial value. |
| `LoopGuardClass.LoopGuard.BlockIfLoop` | src/extensions/loop-guard.ts:199-266 | The probe swaps the history in place and restores it: afterwards nothing has changed but `triggered`, which is set exactly when the call is blocked; it never blocks before a warning or on an empty history. |
| `LoopGuardClass.LoopGuard.RunDetectors` | src/extensions/loop-guard.ts:273-282 | The first detection in the fixed order of the detectors. |
| `LoopGuardClass.LoopGuard.DetectConsecutiveIdenticalCalls` | src/extensions/loop-guard.ts:288-305 | The backward count of equal keys is the 1-gram repetition count of the history. |
| `LoopGuardClass.LoopGuard.DetectExactNgram` | src/extensions/loop-guard.ts:307-317 | Fires on the maximal repetition count of exact keys, pairs before triples. |
| `LoopGuardClass.LoopGuard.DetectFuzzyNgram` | src/extensions/loop-guard.ts:319-329 | The same for keys of name and arguments only. |
| `LoopGuardClass.LoopGuard.DetectBashRepetition` | src/extensions/loop-guard.ts:384-420 | Window tallies before task totals, raw before normalized, each by its highest entry. |
| `ToolHistory.CountContiguousNgramReps` | src/extensions/loop-guard.ts:453-476 | The block-by-block walk returns the greatest repetition count of the trailing n-gram. |
| `ToolHistory.RepsIsGreatest` | src/extensions/loop-guard.ts:447-452 | The last r*n records have period n exactly for the r up to the returned count: the count is maximal and every smaller one holds. |
| `ToolHistory.RepeatsAreCopies` | src/extensions/loop-guard.ts:447-452 | Having period n over r*n records means being r copies of the last n. |
| `ToolHistory.FuzzyRepsAtLeastExact` | src/extensions/loop-guard.ts:307-329 | The fuzzy repetition count is never below the exact one. |
| `ToolHistory.ExactKeyIsCollisionFree` | src/extensions/loop-guard.ts:423-428 | For fields without U+0000, equal exact keys mean equal records, all four fields. |
| `ToolHistory.FuzzyKeyIsCollisionFree` | src/extensions/loop-guard.ts:423-432 | For tool names without U+0000, equal fuzzy keys mean equal name and arguments, whatever the arguments hold. |
| `ToolKeys.KeysCompareCalls` | src/extensions/loop-guard.ts:423-432 | On records as the tool-result handler builds them, key equality is equality of the calls themselves, arguments compared up to key order. |
| `CountMap.GetOfIncrement` | src/extensions/loop-guard.ts:614-616 | Incrementing changes one key's count, by one, and keeps the map free of zero counts and duplicate keys. |
| `CountMap.GetOfDecrement` | src/extensions/loop-guard.ts:618-622 | Decrementing changes one key's count, by one but not below zero, and drops a key that reaches zero. |
| `CountMap.MapMax` | src/extensions/loop-guard.ts:625-631 | The loop returns the top entry of the map. |
| `CountMap.TopIsEarliestMaximum` | src/extensions/loop-guard.ts:624-631 | The top entry has the highest count and is the earliest inserted among those. |
| `LoopGuardRuns.RunsStayValid` | src/extensions/loop-guard.ts:112-174 | After every sequence of records and resets the window holds at most 30 records and each window map is exactly the recount of its extractor over the window, keys of positive count only; the totals stay well-formed. |
| `LoopGuardRuns.WindowHoldsLatest` | src/extensions/loop-guard.ts:130-160 | The window is the last 30 records since the last reset or warning. |
| `LoopGuardRuns.DetectsExactlyAtThresholds` | src/extensions/loop-guard.ts:273-420 | No detector fires if and only if every repetition count and every tally is below its threshold, for all keys. |
| `LoopGuardRuns.OkLeavesAllBelow` | src/extensions/loop-guard.ts:145-148 | After an `ok` answer, in any run, every bash window count is below 12, every bash total below 15, no edit-run pair and no repetition is at its threshold. |
| `LoopGuardRuns.TotalCountsSinceLastCut` | src/extensions/loop-guard.ts:162-171 | A task total is the number of matching records since the last reset or the last warning that fired on its key. |
| `LoopGuardWarnings.BashTotalsAreSpaced` | src/extensions/loop-guard.ts:162-171 | In every run, two task-total bash warnings with one key have at least 15 records of that key between them, the second included. |
| `LoopGuardWarnings.EditRunTotalsAreSpaced` | src/extensions/loop-guard.ts:162-171 | Two task-total edit-run warnings with one file have at least 12 edits of it between them, and with one command at least 12 runs of it. |
| `LoopGuardWarnings.RecordsAreAnswered` | src/extensions/loop-guard.ts:273-420 | In every run a call is answered with a warning if and only if some detector's count is at its threshold; the warning is that of the first such detector in order, and each count it reports is the count of its key, or of its repetition, and the highest. |
| `LoopGuardWarnings.WarnedExactly` | src/extensions/loop-guard.ts:150-152 | In every run the probe is armed if and only if there was a warning since the last reset; recording never triggers. |
| `LoopGuardRuns.BashWarningsAreSpaced` | src/extensions/loop-guard.ts:162-171 | A task-total bash warning on a key that fired before comes only after 15 fresh records of that key. |
| `LoopGuardRuns.EditRunWarningsAreSpaced` | src/extensions/loop-guard.ts:351-376 | A task-total edit-run warning comes only after 12 fresh records of each of its keys that fired before. |
| `LoopGuardRuns.WindowWarningsAreSpaced` | src/extensions/loop-guard.ts:154-160 | After a reset or a warning, a warning of a window detector takes the records that detector needs, at least 3. |
| `LoopGuardRuns.ShortCircuitIsSound` | src/extensions/loop-guard.ts:188-191 | When no record in the window has the call's name and arguments, no consecutive or n-gram detector fires on the extended window, for every error flag and fingerprint. |
| `LoopGuardRuns.ProbeSeesTopKeys` | src/extensions/loop-guard.ts:212-239 | The cycle part of the probe blocks a call only when the call's own key is at the threshold with a highest count, and always when it alone has the highest. |
| `LoopGuardRuns.ProbePredictsRecord` | src/extensions/loop-guard.ts:241-266 | The n-gram part of the probe blocks a call if and only if recording it, with the result of the latest same call, would be answered by an n-gram or consecutive warning. |
| `LoopGuardRuns.ProxyIsLatest` | src/extensions/loop-guard.ts:241-249 | The record the probe takes the result from is the latest of the same call in the window, and there is none only if no record is of that call. |
| `LoopGuardWarnings.CycleProbeSeesOwnKeys` | src/extensions/loop-guard.ts:212-239 | The four lookups together: only a call whose own file or command has the highest count of its tally and has reached 8 in the window or 12 in the task extends a cycle, and one whose count is alone the highest always does. |
| `LoopGuardWarnings.ProbeBlocksExactly` | src/extensions/loop-guard.ts:199-266 | In every run a call is blocked if and only if there was a warning since the last reset, a record has come since the last warning, and the call extends a cycle or recording it would be answered by an n-gram or consecutive warning. |
| `CanonicalJsonLaws.RoundTrip` | src/extensions/loop-guard.ts:490-503 | Parsing a printed value gives back its canonical form (keys sorted, undefined fields dropped), with nothing left over. |
| `CanonicalJsonLaws.PrintsAlikeIffSame` | src/extensions/loop-guard.ts:490-503 | Two values print alike if and only if they are equal up to key order and undefined fields. |
| `CanonicalJsonLaws.SameIsSameCanon` | src/extensions/loop-guard.ts:497-502 | Equality up to key order, defined on the values alone, is equality of canonical forms. |
| `CanonicalJsonLaws.StringRoundTrip` | src/extensions/loop-guard.ts:490-493 | Every text, with any control characters and lone surrogates, survives quoting (section 7 of RFC 8259), whatever follows it. |
| `CanonicalJsonLaws.PrintIsPrintable` | src/extensions/loop-guard.ts:423-425 | The printed text has no control character, so none is U+0000. |
| `CanonicalJsonForm.UnitIsPrinted` | src/extensions/loop-guard.ts:490-493 | The escape of every unit: seven short ones, four lower-case hexadecimal digits for other control characters and lone surrogates, the unit itself otherwise. |
| `CanonicalJsonForm.TextIsPrintedByUnits` | src/extensions/loop-guard.ts:490-493 | A text is quoted unit by unit, a surrogate pair standing for itself. |
| `CanonicalJsonForm.KeysAscend` | src/extensions/loop-guard.ts:497-502 | The fields of an object are printed in ascending order of their keys, compared unit by unit at the first difference. |
| `CanonicalJsonForm.LiteralsArePrinted` | src/extensions/loop-guard.ts:490-493 | How null, the truth values, an undefined value and numbers are printed. |
| `CanonicalJsonForm.ExampleIsPrinted` | src/extensions/loop-guard.ts:490-503 | The printed text, unit by unit, of an object with an array, an empty string, an undefined field and keys out of order. |
| `CanonicalJsonLaws.LoneUndefinedPrintsEmpty` | src/extensions/loop-guard.ts:494-496 | A collision that is no key order: an array holding one undefined element prints like the empty array. |
| `ContextBudget.EstimateTokens` | src/extensions/model-guard.ts:117-152 | The two loops compute the latest positive usage plus the text and images after it. |
| `ContextBudget.EstimateMessageTokens` | src/extensions/model-guard.ts:228-242 | A message counts its usage when it has one, else its own text and images. |
| `ContextBudget.BlocksCost` | src/extensions/model-guard.ts:142-148 | A text block costs a token for every four characters begun, an image 1000, any other block nothing. |
| `ContextBudget.MessageCosts` | src/extensions/model-guard.ts:117-152 | One more message: an assistant's reported usage replaces the conversation estimate and is the message's own cost, any other message adds what its content costs. |
| `ContextBudget.SafeWindowIsGreatest` | src/extensions/model-guard.ts:9-13 | The safe window is the greatest number of tokens within 95 hundredths of the window. |
| `ContextBudget.EstimateAtMostTotal` | src/extensions/model-guard.ts:117-242 | The conversation estimate never exceeds the sum of the message estimates, on every list. |
| `ContextBudget.TruncateMessages` | src/extensions/model-guard.ts:244-273 | A list within budget, or of at most two messages, comes back as it is; any other comes back as the notice and a suffix that is longest within the budget but never under two messages. |
| `ContextBudget.CutIsStrictAndUnique` | src/extensions/model-guard.ts:263-264 | Behind the notice at least one message is dropped and at least two are kept, so the same-length return is dead; and only one list satisfies the contract of truncation. |
| `ContextBudget.CutFitsWindow` | src/extensions/model-guard.ts:244-273 | A cut list is within floor(0.95*maxTokens) if and only if the budget holds the last three messages, or that window holds the last two with the notice's share, which is nothing once one of them reports its usage. |
| `ContextBudget.TruncationFitsExactly` | src/extensions/model-guard.ts:223-273 | For every list and window, cut or not, the result fits if and only if a condition on the input holds: the list is within budget, or (up to two messages) within the window, or the condition of the cut. |
| `ContextBudget.TwoLargeMessagesStayLarge` | src/extensions/model-guard.ts:223-227 | Concrete lists whose results exceed the window: three messages of twice the window, and one alone. |
| `ContextBudget.EstimateWithNotice` | src/extensions/model-guard.ts:117-152 | The notice in front adds its own estimate, or nothing when a later message reports its usage. |
| `WorkerPool.RunsAreSafe` | src/ollama.ts:31-48 | In every reachable state of every interleaving, thunks have started in order and at most once, at most max(1, min(limit, n)) are in flight, no worker has finished while an item is unclaimed, and no run settles more often than there are items. |
| `WorkerPool.RunsComplete` | src/ollama.ts:31-48 | With succeeding thunks the pool is at rest exactly after n settlements, and then results[i] is the value of items[i] for every i and every thunk has started exactly once. |
| `WorkerPool.RunsAreBusy` | src/ollama.ts:31-48 | With succeeding thunks exactly as many are in flight in every reachable state as the limit allows, or as have not settled yet when these are fewer. |
| `WorkerPool.RunGoesOn` | src/ollama.ts:38-47 | Every run can be continued until every worker has returned or failed, in finitely many steps, whatever the thunks settle to. |
| `WorkerPool.RunsStayValid` | src/ollama.ts:34-48 | Every schedule of settlements keeps claims, workers and results consistent. |
| `WorkerPool.StepsCountSettledItems` | src/ollama.ts:38-43 | Claimed minus in-flight items counts the steps taken: the measure that makes every run end. |
| `WorkerPool.ConcurrentMap.constructor` | src/ollama.ts:36-46 | Starting the workers one after the other gives the initial state of the protocol. |
| `WorkerPool.ConcurrentMap.NextItem` | src/ollama.ts:39-42 | Between awaits a worker claims the next index atomically, or finishes. |
| `WorkerPool.ConcurrentMap.Continue` | src/ollama.ts:38-44 | What a worker does after its await, on the shared index and the results array, is one step of the protocol. |
| `JsoncStrip.StripJsoncComments` | src/config/json.ts:66-112 | The flag-driven scanner computes the settings reader's stripping. |
| `JsoncStrip.StripBeforeParse` | src/agent-discovery/jsonc.ts:4-49 | The scanner with inner loops computes the agent discovery stripping. |
| `JsoncLaws.TilingTiles` | src/config/json.ts:61-65 | Every input is a sequence of code characters, literals and comments, each with its own delimiters. |
| `JsoncLaws.AgreeExactly` | src/config/json.ts:61-112 | For every tiling: the strippers agree if and only if no line comment holds CR and no unclosed block comment has a body; then both give the input with exactly its comments deleted. |
| `JsoncLaws.StrippersAgree` | src/agent-discovery/jsonc.ts:1-49 | The same if-and-only-if for every input. |
| `JsoncLaws.ConfigStripsOnce` | src/config/json.ts:66-112 | Stripping is idempotent on every input. |
| `JsoncLaws.DiscoveryStripsOnce` | src/agent-discovery/jsonc.ts:4-49 | Stripping is idempotent on every input. |
| `PatchPreview.FindLineSequence` | src/extensions/tool-rendering.ts:2778-2787 | The labelled search loop computes the forward search from the start index. |
| `PatchPreview.FindIsFirst` | src/extensions/tool-rendering.ts:2778-2787 | The search result is a match, and there is no earlier one from the start index on; a negative result means no match at all. |
| `PatchPreview.InferApplyPatchHunkStarts` | src/extensions/tool-rendering.ts:2789-2828 | The first pass: hunks split at headers, each searched forward from the previous match and then from the top, new starts shifted by the running delta. |
| `PatchPreview.ParseApplyPatchUpdateDiff` | src/extensions/tool-rendering.ts:2841-2901 | The second pass: numbered lines, separators, trimmed ends and counts. |
| `PatchPreview.TrimDiffSeparators` | src/extensions/tool-rendering.ts:2834-2839 | Separators are removed from both ends. |
| `PatchLaws.PassesAlign` | src/extensions/tool-rendering.ts:2794-2806 | The two independent passes open the same hunks at the same lines, and the second pass's counters stand inside the current hunk. |
| `PatchLaws.LocatedHunkMatches` | src/extensions/tool-rendering.ts:2816-2820 | A start is given exactly when a match was found, and the hunk's old lines really stand there. |
| `PatchLaws.OldNumbersNameSource` | src/extensions/tool-rendering.ts:2841-2893 | For every patch with bare headers and every source: a line with old number m is source line m. |
| `PatchLaws.NewNumbersName` | src/extensions/tool-rendering.ts:2841-2893 | Whenever the hunks' new lines stand in a text at the numbers of the first pass, every line of the preview is numbered, and a line with new number n is line n of that text. |
| `PatchLaws.NewNumbersNamePatched` | src/extensions/tool-rendering.ts:2789-2893 | When every hunk is found by the forward search, every line is numbered, and a line with new number n is line n of the patched file. |
| `PatchLaws.FirstPassTracksPatching` | src/extensions/tool-rendering.ts:2809-2825 | The search position and the running delta are those of actually applying the hunks. |
| `PatchLaws.PreviewNumbersAreRight` | src/extensions/tool-rendering.ts:2841-2901 | Both numbering results for the finished preview of a non-empty source. |
| `PatchLaws.BodyLineByMarker` | src/extensions/tool-rendering.ts:2772-2776 | A body line is added, deleted or context as it starts with a plus sign, a minus sign or anything else; the marker put back in front of its content gives the raw line, and a line without marker is its own content. |
| `PatchLaws.PreviewLosesNothing` | src/extensions/tool-rendering.ts:2852-2900 | For every patch and source the preview shows exactly the body lines in order, each the raw line once its marker is put back, and its counts are the body lines that start with a plus and with a minus sign. |
| `PatchDisplay.PreviewIsLaidOut` | src/extensions/tool-rendering.ts:2834-2901 | The whole display: the stretches of body lines between hunk headers, with exactly one separator between two that are not empty and none at the ends. |
| `PatchDisplay.LinesCountFromTheirHeader` | src/extensions/tool-rendering.ts:2854-2893 | For every patch, with or without numbers in its headers: a body line carries the start of its hunk, as the header says or as inferred for the hunk by its place, moved by the old, or new, lines before it in the hunk. |
| `PatchOrder.EditPlace` | src/extensions/tool-rendering.ts:2816-2825 | For located hunks that do not overlap, in any order: the new lines of each stand in the patched file at its old place, moved by the hunks in front of it in the file. |
| `PatchOrder.NewStartRightExactly` | src/extensions/tool-rendering.ts:2816-2825 | For such hunks, the new start of a hunk names that place if and only if the hunks listed earlier that stand behind it and those listed later that stand before it move the same number of lines. |
| `PatchOrder.BalancedPreviewIsRight` | src/extensions/tool-rendering.ts:2789-2901 | When that holds of every hunk, the whole finished preview is numbered and each new number names the line of the patched file. |
| `PatchOrder.FoundInOrderIsBalanced` | src/extensions/tool-rendering.ts:2809-2825 | Hunks found by the forward search meet the condition, and the file as a walk over the source is the one that applying them in turn gives. |
| `PatchOrder.OutOfOrderIsMisnumbered` | src/extensions/tool-rendering.ts:2817-2819 | A patch of two hunks in reverse order: the second gets new number 2, but its line is line 1 of the patched file. |
| `EditLocalizer.ComputeLocalizedEditDiffs` | src/extensions/tool-rendering.ts:2338-2362 | Entries come back in the order of the call, each numbered by its match and the line changes of the edits before it; nothing comes back exactly when there is no operation, one is unmatched or two overlap. |
| `EditLocalizer.NewStartLineIsTrue` | src/extensions/tool-rendering.ts:2353-2361 | For any number of non-overlapping edits: each replacement stands in the file with all edits applied, and every position in it has the line number the running delta predicts. |
| `EditNumbers.LinesAreMovedToTheirChunk` | src/extensions/tool-rendering.ts:2353-2361 | Every line of every entry carries its number in the chunk, an old one moved to the line where the match starts and a new one to the line where the replacement starts in the file with all edits applied. |
| `EditNumbers.NumbersNameLines` | src/extensions/tool-rendering.ts:2281-2293 | With a diff that numbers the lines of its chunks, every old number names that line of the file and every new number that line of the edited file; only at the ends of the chunk may more stand on the line. |
| `TextLines.LinesSpellText` | src/extensions/tool-rendering.ts:2273-2275 | Lines are the pieces between line feeds: put together with line feeds they are the text, and none holds one. |
| `EditLocalizer.RefusesExactlyOverlaps` | src/extensions/tool-rendering.ts:2344-2351 | For matches of non-empty text, comparing neighbours in file order refuses exactly the lists in which some two matches overlap. |
| `EditLocalizer.SortedInOrder` | src/extensions/tool-rendering.ts:2344-2346 | The matches are put into file order. |
| `WrapAnsi.WrapAnsi` | src/extensions/tool-rendering.ts:1574-1639 | At most max(1, maxRows) rows, each exactly `width` columns; a text that fits is shown whole and padded with spaces, any other up to the capacity, closed by the cut mark when there is room; every shown character keeps its foreground if and only if the character that starts each further row has a colour the wrapper tracks. A row on its own is the text, filled up; of several rows each ends with the reset, each further one opens with the state of the row before and the fill, and the last is filled up or closed by the dimmed mark. |
| `WrapAnsi.TrackedColorsAreKept` | src/extensions/tool-rendering.ts:1542-1560 | A text without standard foreground codes and empty resets keeps every colour. |
| `WrapAnsi.StandardColorIsLost` | src/extensions/tool-rendering.ts:1542-1560 | A text in a standard colour that loses it on its second row. |
| `WrapAnsi.AnsiState` | src/extensions/tool-rendering.ts:1542-1560 | The scan gives the escapes of the last background and foreground in force. |
| `WrapAnsi.StateRestores` | src/extensions/tool-rendering.ts:1542-1560 | Emitted at the start of a row, those escapes show nothing and leave the terminal in the tracked foreground, which is the real one for a text of tracked codes. |
| `WrapAnsi.StateRestoresBackground` | src/extensions/tool-rendering.ts:1542-1560 | They leave the terminal in the tracked background, too, which is the real one for a text whose background codes are all tracked. |
| `WordHighlight.WordDiffAnalysis` | src/extensions/tool-rendering.ts:1850-1877 | For all parts: on each side the ranges are sorted, disjoint and hold exactly the positions changed by the parts of that side; the similarity is the length of the shared parts over that of the longer text. |
| `WordHighlight.SimilarityOfSpelled` | src/extensions/tool-rendering.ts:1870-1876 | For parts that spell both texts the similarity lies between 0 and 1 and is 1 for equal texts only. |
| `WordHighlight.SimilarityIsShare` | src/extensions/tool-rendering.ts:1875-1876 | The similarity times the longer length is the length of the shared parts; two empty texts have similarity 1. |
| `WordHighlight.SimilarityOneExactly` | src/extensions/tool-rendering.ts:1870-1876 | For parts that spell the new text, unless both texts are empty: the similarity is 1 if and only if every added part is empty and the old text is no longer than the new one. |
| `WordHighlight.SharedSpellsExactly` | src/extensions/tool-rendering.ts:1855-1876 | Parts that spell the new text and add nothing: with nothing removed they spell the old text if and only if it equals the new one, otherwise only an old text that is longer. |
| `WordHighlight.RemovedTextIsSimilar` | src/extensions/tool-rendering.ts:1875-1876 | Two texts, a word removed between them, with similarity 1. |
| `WordHighlight.RespacedTextIsSimilar` | src/extensions/tool-rendering.ts:1875-1876 | Two texts that differ in spacing, with similarity 1. |
| `WordHighlight.InjectBg` | src/extensions/tool-rendering.ts:1879-1908 | The visible text is preserved and a position has the highlight background if and only if some range holds it, the base background otherwise, across full resets; without ranges the base background ends at the first reset. Without its background codes and the closing reset the painted line is the line. |
| `WordHighlight.PointerIsMembership` | src/extensions/tool-rendering.ts:1897-1898 | The moving range pointer decides membership in any of the ranges. |
| `WordHighlight.WithoutRangesResetsWin` | src/extensions/tool-rendering.ts:1880 | Without ranges the base background lasts until the line's first full reset and no longer. |
| `WordChanges.SameChangesExactly` | src/extensions/tool-rendering.ts:1855-1869 | Two lists of the same changes, with shared pieces as either text has them, change the same positions of a side if and only if in front of every non-empty change of the side the shared pieces are together equally long. |
| `WordChanges.RangesRightExactly` | src/extensions/tool-rendering.ts:1855-1877 | The ranges collected from the parts hold exactly the changed positions of the side's own text if and only if that condition holds. |
| `WordChanges.HighlightsExactlyChanges` | src/extensions/tool-rendering.ts:1850-1908 | A line painted with the ranges of a side, or with none when nothing changed, has the highlight background exactly at its changed characters if and only if that condition holds. |
| `WordChanges.RespacedTextIsMismarked` | src/extensions/tool-rendering.ts:1855-1877 | Parts that share the new text's spacing and an old text for which the condition fails: a space is marked and the removed character is not. |
| `WordChanges.FrontChangeIsInPlace` | src/extensions/tool-rendering.ts:1855-1869 | A change in front of all shared text is in place whatever the spacing of that text: parts need not spell the line. |
| `HighlightCache.Cache.Touch` | src/extensions/tool-rendering.ts:1780-1789 | Delete, re-insert, evict from the front: the new entries are those of the specification. |
| `HighlightCache.Cache.Fetch` | src/extensions/tool-rendering.ts:1791-1804 | A hit answers with the held value and refreshes it; a miss answers with the rendered value and stores it. |
| `HighlightCache.Cache.Clear` | src/extensions/tool-rendering.ts:1776-1778 | Nothing is held afterwards. |
| `HighlightCache.HoldsMostRecentlyTouched` | src/extensions/tool-rendering.ts:1774-1789 | After every run of touches and clears the cache holds exactly the keys touched last since the last clear, at most 48, in order of last touch, each with its last value. |
| `HighlightCache.FindIsLastTouched` | src/extensions/tool-rendering.ts:1791-1797 | After every run a lookup finds a held key with the value it was last touched with, and no other key. |
| `HighlightCache.FetchAnswersLastStored` | src/extensions/tool-rendering.ts:1791-1804 | Over every run of stores, fetches and clears: a fetch answers with the value that the latest store, or missed fetch, of its key has put while the key is held, and with its own rendering otherwise. |
| `HideThinking.ThinkingDisplay.MessageStart` | src/extensions/hide-thinking.ts:260-262 | A new message starts with nothing remembered. |
| `HideThinking.ThinkingDisplay.MessageUpdate` | src/extensions/hide-thinking.ts:268-297 | Every text block is overwritten by the display of all it has been sent, or left alone when no tag has opened; what was sent stays recoverable. |
| `HideThinking.ThinkingDisplay.MessageEnd` | src/extensions/hide-thinking.ts:302-346 | The final transform is applied to exactly what the provider sent for each block, and each pair of display text and original is recorded. |
| `HideThinking.ThinkingDisplay.Context` | src/extensions/hide-thinking.ts:349-374 | Every text recorded as a display text is replaced by its recorded original, every other block is kept. |
| `HideThinking.AppendTracks` | src/extensions/hide-thinking.ts:282-285 | A provider's append to the overwritten text loses nothing of what was sent. |
| `HideThinking.UpdateTracks` | src/extensions/hide-thinking.ts:274-295 | Nor does an update, for every display transform. |
| `HideThinking.TracksReconstructs` | src/extensions/hide-thinking.ts:315-327 | What the end of the message reconstructs is the concatenation of what was sent. |
| `HideThinking.TagsAreOfOneKind` | src/extensions/hide-thinking.ts:36-41 | The test for tags: an opening and a closing tag of one kind occur, in whichever order. |
| `HideThinking.RestoresRecorded` | src/extensions/hide-thinking.ts:349-374 | A recorded block gets its original back if and only if the latest pair under its display text has that original; so always when no two originals share one. |
| `HideThinking.LeavesOrdinaryAlone` | src/extensions/hide-thinking.ts:349-374 | An ordinary text is left alone if and only if no recorded display text equals it. |
| `ThinkingRuns.RunExplained` | src/extensions/hide-thinking.ts:268-297 | For every run of provider appends and updates, each with any display transform: a block's text is what was sent, or the display of a tagged prefix followed by the rest of what was sent. |
| `ThinkingRuns.OverwrittenExactly` | src/extensions/hide-thinking.ts:282-296 | A block is overwritten in a run if and only if some update found an opening tag in what had been sent. |
| `ThinkingRuns.ReadsAsSentExactly` | src/extensions/hide-thinking.ts:282-296 | At the end of a run a block reads as sent if and only if the update in force changed nothing. |
| `ThinkingRuns.RecordedIsLogged` | src/extensions/hide-thinking.ts:329-341 | Every block that the final transform changes and that holds tags is recorded with its original. |
| `ThinkingRuns.ComesBackExactly` | src/extensions/hide-thinking.ts:302-374 | For every block of every message of a session, at its end: `context` gives back what the provider sent if and only if the latest pair under the stored text has that original, or there is none and the block reads as sent. |
| `ThinkingRuns.WithoutClashComesBack` | src/extensions/hide-thinking.ts:349-374 | When no two originals share a display text and no unrecorded text is one, exactly the blocks come back that were recorded or read as sent. |
| `ThinkingRuns.TaggedComesBackExactly` | src/extensions/hide-thinking.ts:268-374 | For every run without clashes, when updates alter tagged text and the final transform records exactly the texts with a closed pair: a block comes back if and only if what was sent holds a closed pair or no update found an opening tag. |
| `ThinkingRuns.HiddenComesBackExactly` | src/extensions/hide-thinking.ts:268-374 | So in the hiding mode, for all texts. |
| `ThinkingRuns.DimmedComesBackExactly` | src/extensions/hide-thinking.ts:268-374 | So in the dimming mode, when what was sent holds no escape byte. |
| `ThinkingRuns.UnclosedThinkIsLost` | src/extensions/hide-thinking.ts:317-327 | In either mode: every text with an opening tag that one update altered and the final transform does not record is lost. |
| `ThinkingRuns.LostTexts` | src/extensions/hide-thinking.ts:36-41 | Two such texts, one of which the test for tags accepts because of a stray closing tag. |
| `ThinkingTags.StripsExactly` | src/extensions/hide-thinking.ts:101-103 | Stripping changes a text, and shortens it, if and only if an opening tag is followed by its closing tag. |
| `ThinkingTiles.TextIsTiled` | src/extensions/hide-thinking.ts:34 | Every text is a sequence of closed pairs of tags, each up to its first closing tag, and of characters at which no closed pair starts. |
| `ThinkingTiles.StripKeepsOutside` | src/extensions/hide-thinking.ts:101-103 | For every such tiling, stripping leaves exactly the characters outside the pairs, in order. |
| `ThinkingTiles.ReplaceRendersPairs` | src/extensions/hide-thinking.ts:156-167 | Dimming leaves those characters too, with each pair's rendering in the pair's place. |
| `ThinkingTiles.StreamShowsUpToOpenTag` | src/extensions/hide-thinking.ts:176-203 | The hiding display is the characters outside the pairs, up to the first tag among them that opens. |
| `ThinkingTiles.DimmedStreamGoesOn` | src/extensions/hide-thinking.ts:176-203 | The dimming display is the rendered text up to the same place, followed by the rest dimmed. |
| `ThinkingTags.DisplayShortens` | src/extensions/hide-thinking.ts:176-203 | The hiding display of a text with an opening tag is shorter than the text. |
| `ThinkingTags.ReplacesExactly` | src/extensions/hide-thinking.ts:156-167 | Dimming changes a text if and only if a pair is closed in it, and then emits an escape or shortens it. |
| `ThinkingTags.DimmedDisplayDiffers` | src/extensions/hide-thinking.ts:176-203 | The dimming display of a text with an opening tag and no escape byte differs from the text. |
| `ToolGrouping.FindToolGroup` | src/extensions/tool-grouping.ts:131-166 | The two walks and the collecting loop compute the group of a component. |
| `ToolGrouping.GroupIsRun` | src/extensions/tool-grouping.ts:127-166 | A groupable tool's group holds exactly the tools that only spacers and groupable tools separate from it. |
| `ToolGrouping.GroupsPartition` | src/extensions/tool-grouping.ts:131-166 | Members of one run compute the same group, and groups of different runs share no tool. |
| `ToolGrouping.GroupInOrder` | src/extensions/tool-grouping.ts:154-165 | The tools of every group stand in the order of the transcript, each once. |
| `ToolGrouping.StrangerStandsAlone` | src/extensions/tool-grouping.ts:131-136 | A component that is not among the children has no group but itself and renders as it is. |
| `ToolGrouping.OneMemberRendersSummary` | src/extensions/tool-grouping.ts:265-286 | In an unexpanded group of two or more, the last member renders the summary and every other renders nothing; otherwise all render as they are. |
| `ToolGrouping.BreakerJoinsNeighbours` | src/extensions/tool-grouping.ts:131-166 | The group computed for a component that breaks runs is the runs next to it on both sides, joined. |
| `ToolGrouping.BreakerStaysVisibleExactly` | src/extensions/tool-grouping.ts:269-280 | A failed or ungroupable call renders as it is if and only if those runs hold fewer than two tools together or the last of them is expanded, and renders nothing otherwise. |
| `ToolGrouping.FailedToolBetweenToolsIsHidden` | src/extensions/tool-grouping.ts:269-280 | The smallest such case: a failed call between two single tools renders nothing. |
| `ExplorationGuard.Guard.TurnEnd` | src/extensions/exploration-guard.ts:136-200 | The counters, the steers sent and the pending abort after one turn. |
| `ExplorationGuard.Guard.RecordToolCall` | src/extensions/exploration-guard.ts:126-134 | A turn's flags say which kinds of tools it has called. |
| `ExplorationGuard.Guard.Reset` | src/extensions/exploration-guard.ts:111-118 | Counters, flags and the pending abort are cleared. |
| `ExplorationGuard.CountersAreStreaks` | src/extensions/exploration-guard.ts:136-200 | In every run each counter is its streak modulo its threshold, and a streak of k has produced exactly k div T mandatory steers; a threshold below 1 is never met. |
| `ExplorationGuard.SteersExactly` | src/extensions/exploration-guard.ts:145-200 | For all thresholds and runs each steer is sent exactly when a counted turn brings its streak to that steer's place in the period, a warning never in place of a mandatory steer, and only sub-agents get the abort steer. |
| `ExplorationGuard.LastPlace` | src/extensions/exploration-guard.ts:154-199 | The place of a mandatory steer is where the streak is a multiple of its threshold. |
| `PasteInterceptor.LooksLikeRawPaste` | src/paste-interceptor.ts:16-25 | The early-exit loop decides: four characters, no escape byte, two carriage returns. |
| `PasteInterceptor.RewriteNormalizes` | src/paste-interceptor.ts:27-30 | The rewrite leaves no carriage return, and is the normalisation of line endings. |
| `PasteInterceptor.Interceptor.Emit` | src/paste-interceptor.ts:40-58 | One chunk: what is emitted and which time is remembered. |
| `PasteInterceptor.RewrittenExactly` | src/paste-interceptor.ts:40-58 | Over every run: a chunk is rewritten if and only if it holds CR, no ESC, and is a burst or arrives within 100 ms of the latest rewritten chunk. |
| `PasteInterceptor.RewritesChainToSeed` | src/paste-interceptor.ts:12-13 | Every rewrite goes back to a burst through rewritten chunks, each within the window of the one before. |

## Left out

- Reason texts of detections, steering messages and their formatting; the model returns the detection itself with its keys and counts.
- `extractEditTarget`, `extractBashPrefix`, `extractBashPrefixNormalized` and `normalizeBashCommand` are arbitrary functions of name and arguments to an optional key; an empty key is not counted, as in the source.
- Fingerprint hashing, extraction of output text and the wiring of extension events, including the abort of subagents.
- Numbers are printed and parsed as their decimal text, not as floating-point values; cyclic values, `toJSON`, and NaN and the infinities, which print as `null`, are not part of the model.
- `JSON.parse` after stripping comments is not part of the model.
- `SAFETY_MARGIN` 0.95 is exact, as 95*x/100 rounded down; binary rounding of 0.95 is not modelled. Token usage is a natural number, an absent or zero usage counting as none.
- Worker pool: a step runs from one await to the next; a thunk settles with a value or an error, and after an error its worker stops. How `Promise.all` reports a rejection to its caller is not modelled.
- Outputs of the diff and highlighting libraries are arbitrary inputs: a word diff is any list of parts, a chunk diff any function of the chunks.
- The numbers in a hunk header are read by an arbitrary function of the header line; the numbering results are for headers without numbers and patches without the end-of-file marker.
- PatchOrder.NewStartRightExactly: claims new numbers only for hunks that are all located and do not overlap, because the patched file is not determined otherwise.
- EditLocalizer.ComputeLocalizedEditDiffs: takes the matches as given, because exact and fuzzy text search and the first changed line of an entry are not modelled; file reading and its errors are left out.
- Terminal text is a sequence of visible characters and complete single-code escapes; an escape byte without its final letter, colour codes combined in one escape, and character widths other than one are left out.
- WrapAnsi.WrapAnsi: says with which codes a row opens and closes, but not which background each character is shown in, nor anything about bold, dim and other attributes, because the source does not restore them on the next row.
- WordHighlight.InjectBg: requires that the full reset is the line's only escape that changes the background, because the source re-establishes the background after that escape only.
- The cache key's parts and the palette are left out; recency, eviction and values are modelled.
- ThinkingRuns.DimmedComesBackExactly: leaves open what a closed pair and an unclosed tail are rendered as; a rendering emits an escape byte or less than it was given, which leaves out a tail whose dimmed pairs lose their escapes to the removal of markdown.
- Settings and sub-agent mode are left out.
- `classifyTool`, the summary text and the temporary swap of a component's content box are left out; a category is part of a component.
- Outside the loop guard a `string` stands for the sequence of a text's UTF-16 code units. Dafny's characters have no lone surrogates and count a character outside the basic multilingual plane once, so lengths and thresholds agree with the source on texts of that plane.
- Clocks, the environment, standard input, files, the network, themes and all other rendering are left out. A paste chunk carries the clock readings its handling takes.
- Configuration merging, model metadata, commands and setup, which would only add easy members.
