# Verification of the audiobook pipeline

This project models the pipeline that turns an EPUB into a reviewed script and then into audio, and proves what its
parts promise each other. `dafny verify dfyconfig.toml` checks everything.

The exact-text chain, in order:

* `Extractor`, `ExtractionLimits`, `ExtractionRefusals` – the XHTML body becomes passages and a text ledger, exactly when
  that is exact, and exactly when it is refused.
* `Windows`, `AdaptiveDirection` – a chapter is sent to the model in passage windows that shrink after failures.
* `Fidelity`, `AcceptedAnswers` – the model's answer is repaired and accepted only when it spells the passages exactly,
  and every answer that does is accepted.
* `Splitter`, `SourceCoverage` – accepted fragments are split for speech and become numbered segments.
* `DirectedChapter` – the chain from window answers to segments as one theorem.

The protocols around it:

* `FallbackApprovals` – decisions on fallback voices and the catalog they live in.
* `CatalogAccess` – the fair per-book section around that catalog.
* `CompletedOutput` – who may open finished audio while decisions keep changing.
* `GpuResidency` – one model process per GPU lease.
* `IngestStore` – crash-safe storage of one book.
* `AudiobookJob`, `DirectionRuns`, `RenderRuns` – the job aggregate, its validator, and the resumable runs over it.

`Wrappers.dfy` holds `Option`, `Result` and the text helpers.

Conventions. Code with loops and changing fields is a method whose contract ties it to a specification function; the
properties are lemmas about those functions. Protocols whose parts interleave between awaits are step relations on a
state value, and their theorems speak about every run. A `char` is a code point, so string lengths are code points;
`Fidelity` and `Windows` work on UTF-16 units where the code does. Grapheme segmentation is a parameter, hashes are
injective (an identity is the value it is computed from), and clocks, model answers, file faults and process deaths are
parameters that take every value.

Where the code does not keep what a caller could expect, a lemma gives an input and another one gives the condition:

* The splitter can move a white-space piece past an earlier one when a white-space run is longer than the budget, at
  every budget from nine code points on (`Splitter.LongBlankRunIsReordered`). It is exact if and only if `GroupsInOrder`
  (`Splitter.SplitIsExactIff`), whenever no piece is appended while an earlier one is deferred
  (`Splitter.SplitIsExactUnlessOvertaken`), and always when white-space runs fit (`Splitter.SplitIsExactPartition`).
* Shrinking can lengthen a window because of the floor of 500 characters; `Windows.ShrinkNeverLengthensIff` gives the
  exact settings for which it cannot.
* A passage element inside a passage's script, reading or ruby is recorded twice
  (`ExtractionLimits.PassageInScriptIsRecordedTwice`, `ExtractionLimits.PassageInRubyIsNarratedTwice`), and text behind
  one in a script is narrated before it (`ExtractionLimits.PassageInScriptIsNarratedLate`).
  `ExtractionLimits.ExtractionIsExactIff` says for every tree when neither happens: no passage that bears text starts
  where an enclosing passage records everything (`RecordedTwice`), and none has text behind text of a passage inside it
  (`NarratedLate`). `Extractor.ExtractionIsExact` adds the roles for `Clean` markup.
* `beginRendering` alone does not keep a job readable (`AudiobookJob.UndirectedRenderingIsUnreadable`).
* A failed command leaves no running job behind, unless its closing save fails. The last save of a finished render is
  not repeated, so when only it faults the stored job stays running and needs consent to go on
  (`RenderRuns.LostOutputStaysRunning`); `RenderRuns.RenderWorkspace.Execute` and
  `DirectionRuns.DirectionWorkspace.Execute` state the exact cases.
* A commit that fails after its manifest was renamed removes that committed manifest again
  (`IngestStore.PublishedManifestVanishes`), exactly when making the rename durable faults and the rollback gets as far
  as its own rename (`IngestStore.BookStore.CommitNewTarget`, `IngestStore.CommitFresh`). A record that was returned, or
  found committed by an ingest, is permanent (`IngestStore.ReturnedIsForever`).

## Model

| member | source | states |
|---|---|---|
| Extractor.DocumentExtractor.Walk | packages/epub-ingestion/src/extractor.ts:913-1010 | the block walk collects exactly the specified source nodes and pushes exactly the specified markup and ruby entries |
| Extractor.DocumentExtractor.Visit | packages/epub-ingestion/src/extractor.ts:1071-1078 | the visit pushes every block's entries and passages in document order |
| Extractor.DocumentExtractor.CaptureSpecial | packages/epub-ingestion/src/extractor.ts:1124-1149 | adds exactly the unseen text nodes, and fails exactly at non-blank text outside passages and markup |
| Extractor.DocumentExtractor.ExtractDocument | packages/epub-ingestion/src/extractor.ts:823-1154 | the whole extraction is the specified one, including both errors |
| Extractor.Partition | packages/epub-ingestion/src/extractor.ts:904-1078 | visit, enclosing walk and leftovers together record every text node once, in every context |
| Extractor.CaptureCompletes | packages/epub-ingestion/src/extractor.ts:1124-1149 | capturing what is left completes the ledger to every text node, or fails exactly for orphaned text |
| Extractor.ExtractionIsExact | packages/epub-ingestion/src/extractor.ts:849-1154 | extraction of clean markup succeeds iff no passage text is reordered and no text is orphaned; then the ledger is every text node once, in document order, with the role its context gives it, and the passages concatenate to the source entries; for other markup see `ExtractionLimits.ExtractionIsExactIff` |
| Extractor.PassagesSpellSource | packages/epub-ingestion/src/extractor.ts:874-888 | the nested-order check makes the passages, in push order, the source entries in document order |
| ExtractionLimits.OnceIff | packages/epub-ingestion/src/extractor.ts:913-1078 | for every tree the passes record no text node twice iff no passage that bears text starts where an enclosing passage records everything |
| ExtractionLimits.PushedInOrderIff | packages/epub-ingestion/src/extractor.ts:1071-1078 | for every tree the pushed passages follow the document iff no passage has text behind text of a passage inside it |
| ExtractionLimits.ExtractionIsExactIff | packages/epub-ingestion/src/extractor.ts:849-1154 | for markup of every shape: a returned ledger is every text node once in document order iff nothing is recorded twice, and its source entries are the passages iff none is narrated late |
| ExtractionLimits.CleanIsExact | packages/epub-ingestion/src/extractor.ts:849-1154 | clean markup that is extracted has neither defect |
| ExtractionLimits.ScriptOutsidePassagesIsHarmless | packages/epub-ingestion/src/extractor.ts:1071-1078 | a passage inside a script outside every passage is extracted once |
| ExtractionLimits.PassageInScriptIsRecordedTwice | packages/epub-ingestion/src/extractor.ts:924-927 | the returned ledger of a passage inside a script of a passage holds its text as markup and as source |
| ExtractionLimits.PassageInRubyIsNarratedTwice | packages/epub-ingestion/src/extractor.ts:958-960 | the returned passages of a passage inside ruby say its text twice |
| ExtractionLimits.PassageInScriptIsNarratedLate | packages/epub-ingestion/src/extractor.ts:848-889 | text behind a passage in a script is narrated before it, and the order check lets it through |
| ExtractionRefusals.RefusedForOrderIff | packages/epub-ingestion/src/extractor.ts:848-889 | a body is refused for its order iff some passage has text of its own, not white space, beside a passage nested in it, with no script, style or reading between |
| ExtractionRefusals.RefusedForNoPassageIff | packages/epub-ingestion/src/extractor.ts:1124-1149 | an ordered body is refused for missing a passage iff some text, not white space and in no script or style, is recorded by no passage |
| Windows.PlanWindow | packages/gemma-director/src/chunking.ts:118-137 | the loop computes the planned window |
| Windows.PlannedIsLongest | packages/gemma-director/src/chunking.ts:111-137 | a planned window is admissible and no longer admissible window starts there |
| Windows.PlanChapterWindows | packages/gemma-director/src/chunking.ts:143-155 | the loop computes the chapter plan |
| Windows.PlanIsPlan | packages/gemma-director/src/chunking.ts:143-155 | the plan cuts the chapter into consecutive windows that are solo or fit every budget |
| Windows.PlanHasFewestWindows | packages/gemma-director/src/chunking.ts:143-155 | no contiguous plan of the same or a longer rest of the chapter has fewer windows |
| Windows.ShrinkNeverLengthensIff | packages/gemma-director/src/chunking.ts:162-168 | shrinking lengthens no window of any chapter iff the floor is no raise or another budget excludes it |
| AdaptiveDirection.SamplingAttempts | packages/gemma-director/src/fidelity-recovery.ts:31-54 | the policy always yields the initial profile and two distinct retries |
| AdaptiveDirection.ExecuteWindow | packages/gemma-director/src/gemma-director-model.ts:794-885 | the attempts are sent in turn, each with its profile, until one is not rejected; accepted is directed, truncated or all rejected is too large, fatal or late fails; a late one is not sent |
| AdaptiveDirection.AnswersIff | packages/gemma-director/src/gemma-director-model.ts:794-885 | each answer of a window is characterised by the first attempt that is not rejected |
| AdaptiveDirection.ShrinkUntilMoved | packages/gemma-director/src/gemma-director-model.ts:621-630 | the halving loop ends and always moves the plan of a window with several passages |
| AdaptiveDirection.PreflightWindow | packages/gemma-director/src/gemma-director-model.ts:520-593 | a window leaves the pre-flight only within both budgets, after one plan move per shrink and only overflowing windows on the way; a solo refusal means the passage can never be sent; out of shrinks means every remaining shrink moved the plan once and a window of several passages still overflows |
| AdaptiveDirection.DirectWindows | packages/gemma-director/src/gemma-director-model.ts:506-676 | for all settings, answers and deadlines the loop ends within passages plus shrinks calls and three times as many requests; stitched iff the answered windows tile the chapter; every early end has its cause, out of shrinks included |
| AdaptiveDirection.OnlyShrinksDecide | packages/gemma-director/src/gemma-director-model.ts:506-676 | when every window gets an accepted attempt in time and every passage fits alone, nothing but exhausted shrinks ends a chapter early |
| AdaptiveDirection.RetryIsShorter | packages/gemma-director/src/gemma-director-model.ts:609-634 | unless shrinking can lengthen, the window sent after a size failure starts at the same passage and is strictly shorter |
| AdaptiveDirection.StitchedMeansEachPassageFits | packages/gemma-director/src/gemma-director-model.ts:550-577 | a chapter with a passage over a budget of its own is never stitched |
| Utf16.CutIsCodePointBoundary | packages/gemma-director/src/validation.ts:96-101 | a cut that splits no surrogate pair decodes to a cut between code points |
| Fidelity.TextDifferenceFinding | packages/gemma-director/src/validation.ts:115-163 | classifies a difference as duplication, insertion, omission or substitution exactly when the texts differ that way |
| Fidelity.RepairMechanicalSourceEcho | packages/gemma-director/src/fidelity-recovery.ts:76-133 | the in-place repair equals the passage-by-passage repair |
| Fidelity.RepairIsExactOrAbsent | packages/gemma-director/src/fidelity-recovery.ts:76-133 | each passage's fragments are repaired to the exact source or left alone; ids, annotations, lengths and other passages never change |
| Fidelity.FaithfulNeedsNoRepair | packages/gemma-director/src/fidelity-recovery.ts:89-93 | an accepted answer is left as it is |
| Fidelity.AnalyzeFidelity | packages/gemma-director/src/validation.ts:170-241 | no findings iff the fragments are in passage order and spell every passage at code-point boundaries; the derived ranges are the specified ones |
| Fidelity.AcceptedCovers | packages/gemma-director/src/validation.ts:205-239 | accepted ranges tile every passage and their texts cover it exactly |
| Fidelity.OrderedIsPassageOrder | packages/gemma-director/src/validation.ts:180-203 | an ordered answer lists its fragments passage by passage, none out of place |
| AcceptedAnswers.ExactAnswerIsAccepted | packages/gemma-director/src/validation.ts:170-241 | every answer whose fragments cover the passages exactly and in order is accepted as it is |
| AcceptedAnswers.FlattenedAnswerIsRepaired | packages/gemma-director/src/fidelity-recovery.ts:76-133 | such an answer with any of its no-break spaces flattened is repaired to itself and accepted |
| AcceptedAnswers.AcceptedIsKept | packages/gemma-director/src/validation.ts:205-239 | an accepted answer is kept item by item: passage, text and annotation, in order |
| Splitter.ClassifyBoundary | packages/application/src/split-directed-segments.ts:76-93 | the boundary tier of a cut, for every neighbourhood |
| Splitter.TierIff | packages/application/src/split-directed-segments.ts:82-92 | a cut ends a sentence, or a clause, iff a terminator of that kind precedes it behind white space and closing punctuation only |
| Splitter.LatestBoundary | packages/application/src/split-directed-segments.ts:95-107 | the last cut of the best tier within reach |
| Splitter.SplitText | packages/application/src/split-directed-segments.ts:123-167 | the loop over code-point prefixes computes the specified pieces or refusal |
| Splitter.CutLoopSucceedsIff | packages/application/src/split-directed-segments.ts:131-165 | cutting ends, and succeeds iff every cluster and every run of non-space clusters fits the budget |
| Splitter.CutIsPreferred | packages/application/src/split-directed-segments.ts:147-163 | text over the budget is cut behind the last sentence in reach, without one behind the last clause, and only without either at the last white space |
| Splitter.ShortTextIsOnePiece | packages/application/src/split-directed-segments.ts:124-126 | a text within the budget is never cut |
| Splitter.AttachOrphanSeparators | packages/application/src/split-directed-segments.ts:177-223 | the loop with a rewritten last element computes the specified attachment |
| Splitter.AttachIsRenderable | packages/application/src/split-directed-segments.ts:177-223 | no attached piece is blank or over the ceiling |
| Splitter.AttachExactIff | packages/application/src/split-directed-segments.ts:196-203 | attaching keeps the text iff no blank piece overtakes a deferred one |
| Splitter.PiecesAlternate | packages/application/src/split-directed-segments.ts:95-165 | when white-space runs fit, no two consecutive pieces are blank |
| Splitter.SplitIsExactPartition | packages/application/src/split-directed-segments.ts:123-223 | when white-space runs fit, the pieces are the text cut at boundaries next to white space, each speakable and within the budget plus eight |
| Splitter.SplitIsExactIff | packages/application/src/split-directed-segments.ts:123-223 | for every text, the pieces concatenate to it iff no blank group is reordered |
| Splitter.SplitIsExactUnlessOvertaken | packages/application/src/split-directed-segments.ts:196-203 | text is only reordered when a blank piece is appended while an earlier one is deferred |
| Splitter.SplitIsRenderable | packages/application/src/split-directed-segments.ts:123-223 | whatever the white space, every piece is speakable and within the budget plus eight |
| Splitter.OrdinaryTextIsSplit | packages/application/src/split-directed-segments.ts:123-223 | text that starts with a word, with words within the budget and white-space runs within the budget and eight, is never refused and is split exactly |
| Splitter.BlankTextIsRefused | packages/application/src/split-directed-segments.ts:207-214 | text without a word is refused |
| Splitter.LongBlankRunIsReordered | packages/application/src/split-directed-segments.ts:196-203 | at every budget from nine code points on, a long white-space run that a returned split reorders |
| SourceCoverage.GroupExactFragments | packages/domain/src/source-coverage.ts:11-54 | the shared index loop computes the specified grouping or error |
| SourceCoverage.GroupingAcceptsIff | packages/domain/src/source-coverage.ts:11-54 | fragments are accepted iff they divide into one run per passage spelling exactly its text |
| SourceCoverage.CreateSegments | packages/domain/src/source-coverage.ts:56-76 | the loops number the grouped fragments as specified |
| SourceCoverage.NumberShape | packages/domain/src/source-coverage.ts:56-76 | segments are numbered consecutively, have distinct ids and keep the fragments in order |
| SourceCoverage.CoverageSpellsChapter | packages/domain/src/source-coverage.ts:11-54 | exactly covering fragments concatenate to the chapter text |
| SourceCoverage.SplitDirectedSegments | packages/application/src/split-directed-segments.ts:232-243 | splits every fragment in order or refuses |
| SourceCoverage.SplitKeepsCoverage | packages/application/src/split-directed-segments.ts:225-243 | splitting keeps exact coverage and makes every fragment speakable |
| SourceCoverage.CoveredChapterMakesSegments | packages/domain/src/source-coverage.ts:56-76 | after splitting, making segments never raises a coverage error and reproduces the chapter |
| DirectedChapter.StitchedCovers | packages/gemma-director/src/gemma-director-model.ts:595-676 | accepted answers of tiling windows cover the chapter passage by passage |
| DirectedChapter.StitchedKeepsLabels | packages/gemma-director/src/gemma-director-model.ts:595-676 | stitching keeps every fragment of every answer under its passage and with its annotation, in order |
| DirectedChapter.DirectedChapterIsExact | packages/application/src/direct-audiobook.ts:322-335 | from accepted windows only the splitter can refuse; otherwise segments are numbered, distinct, speakable and spell the chapter |
| DirectedChapter.BoundedChapterIsExact | packages/application/src/direct-audiobook.ts:322-335 | the same whenever the white-space runs of the chapter's own passages fit the budget |
| FallbackApprovals.FallbackApprovalRepository.Save | packages/persistence/src/fallback-approvals.ts:111-165 | stores the record, clears the segment's exclusion and moves the revision |
| FallbackApprovals.FallbackApprovalRepository.Revoke | packages/persistence/src/fallback-approvals.ts:167-215 | removes the record, excludes the segment only for a human withdrawal, and moves the revision |
| FallbackApprovals.ReviewFallbackApprovals.Reconcile | packages/application/src/review-fallback-approvals.ts:121-212 | the loops over the catalog write exactly the specified reconciliation and report approved and pending in book order |
| FallbackApprovals.ReviewFallbackApprovals.GrantBookFallback | packages/application/src/review-fallback-approvals.ts:271-308 | refused under a render or for a stale selection without a catalog write; otherwise the specified grant, and no completed job is left |
| FallbackApprovals.ReviewFallbackApprovals.ApproveSegment | packages/application/src/review-fallback-approvals.ts:323-339 | approves exactly the named fallback segment |
| FallbackApprovals.ReviewFallbackApprovals.RevokeSegment | packages/application/src/review-fallback-approvals.ts:346-362 | withdraws exactly the named fallback segment and excludes it |
| FallbackApprovals.SelectOfferable | packages/application/src/review-fallback-approvals.ts:443-466 | accepts a selection iff it is non-empty, free of repetitions and entirely on offer, and then returns exactly it |
| FallbackApprovals.SelectionIsAcceptedIff | packages/application/src/review-fallback-approvals.ts:443-466 | a selection is accepted iff it is non-empty, repeats nothing and is on offer as a whole, and then names exactly the selected subjects |
| FallbackApprovals.GrantIsAcceptedIff | packages/application/src/review-fallback-approvals.ts:271-308 | a grant is accepted iff its selection is, or for the whole queue iff there is a queue or a grant |
| FallbackApprovals.ReconciledShape | packages/application/src/review-fallback-approvals.ts:121-212 | reconciliation leaves one approval per approvable subject and no other, keeps exclusions and grant, and moves the revision iff it changes the catalog |
| FallbackApprovals.ReconcileIsIdempotent | packages/application/src/review-fallback-approvals.ts:107-212 | a second reconciliation at any later time writes nothing |
| FallbackApprovals.ResolveApprovals | packages/application/src/render-audiobook.ts:397-419 | claims the live record of every fallback segment or names the missing ones in book order |
| FallbackApprovals.ResolvedShape | packages/application/src/render-audiobook.ts:397-419 | an open gate claims exactly the fallback segments, each with its live record |
| FallbackApprovals.PendingIsWhatTheGateMisses | packages/application/src/render-audiobook.ts:397-419 | after a reconciliation the gate misses exactly the pending segments, so it opens iff nothing is pending |
| FallbackApprovals.DecisionsCount | packages/application/src/ports.ts:150-162 | every decision keeps the catalog consistent and moves the revision whenever it changes it |
| FallbackApprovals.RevisionNamesCatalog | packages/application/src/ports.ts:150-162 | along every run the revision only grows, and an unchanged revision means an unchanged catalog |
| FallbackApprovals.WithdrawalSticks | packages/application/src/review-fallback-approvals.ts:341-362 | a withdrawn segment has no live approval after any decisions until it is approved by name |
| FallbackApprovals.WithdrawalTakesEffect | packages/application/src/review-fallback-approvals.ts:346-362 | a withdrawal removes the approval, excludes the segment under the actor, changes nothing else, moves the revision and closes the gate for the segment |
| FallbackApprovals.ApprovalTakesEffect | packages/application/src/review-fallback-approvals.ts:323-339 | an approval by name files a record of exactly that segment, lifts its exclusion and changes nothing else |
| FallbackApprovals.GrantRevocationTakesEffect | packages/application/src/review-fallback-approvals.ts:310-321 | revoking the grant removes it and nothing that was approved |
| FallbackApprovals.WithdrawnStaysUnapproved | packages/application/src/review-fallback-approvals.ts:341-362 | from the withdrawal on, the segment has no live approval after any decisions until it is approved by name |
| FallbackApprovals.DecisionIsWrites | packages/application/src/review-fallback-approvals.ts:121-362 | every decision is a sequence of single repository writes that belong to it |
| FallbackApprovals.WithdrawalSurvivesDeaths | packages/application/src/review-fallback-approvals.ts:341-362 | also over decisions cut short after any of their writes, a withdrawn segment has no live approval until it is approved by name |
| FallbackApprovals.GrantCreatesExactlySelected | packages/application/src/review-fallback-approvals.ts:261-308 | an accepted explicit grant creates approvals for exactly the selected segments |
| FallbackApprovals.GrantCreatesWholeQueue | packages/application/src/review-fallback-approvals.ts:261-308 | a grant of the whole queue approves exactly the subjects waiting for a decision |
| CatalogAccess.ApprovalCatalogAccess.Enter | packages/application/src/completed-output.ts:58-73 | joins the book's queue, or refuses a blank book and a call from inside a held section |
| CatalogAccess.ApprovalCatalogAccess.Finish | packages/application/src/completed-output.ts:80-84 | releases the turn and forgets the tail exactly when no later call joined |
| CatalogAccess.ReentryIff | packages/application/src/completed-output.ts:60-64 | a nested call is refused iff its enclosing operation still holds; outer ones have all finished |
| CatalogAccess.FirstComeFirstServed | packages/application/src/completed-output.ts:65-73 | a call starts only after every earlier call for its book is done |
| CatalogAccess.TailsTrackUse | packages/application/src/completed-output.ts:65-84 | a book has a stored tail iff some call for it holds or waits |
| CatalogAccess.SomeoneCanAct | packages/application/src/completed-output.ts:58-85 | every unfinished call waits only for an earlier call of its book that can act: there is no waiting cycle |
| CatalogAccess.EveryRunIsFair | packages/application/src/completed-output.ts:54-86 | in every interleaving one call holds per book, in call order, and none is stuck |
| CatalogAccess.JoiningWaitsItsTurn | packages/application/src/completed-output.ts:65-73 | a call that joins may start at once iff every earlier call of its book is done |
| CatalogAccess.EveryCallGetsIn | packages/application/src/completed-output.ts:58-85 | from every valid queue each waiting call can come to hold its section while the others only finish |
| CompletedOutput.EveryWorldIsGood | packages/application/src/render-audiobook.ts:163-342 | the invariant on history, claims, gathered recordings, stored output and held sections is kept by every step of every interleaving |
| CompletedOutput.ExposedOutputIsLive | packages/application/src/completed-output.ts:170-208 | while a consumer works on an output, it holds one recording for each segment of its script, and every fallback segment has a live approval about exactly it, under whose identity its recording was rendered |
| CompletedOutput.ExposedScriptIsApproved | packages/application/src/completed-output.ts:170-208 | at that moment the render gate would miss no segment of the exposed script |
| CompletedOutput.OpenedGateClaimsLive | packages/application/src/render-audiobook.ts:355-419 | an opened gate claims the live decision of every fallback segment of its script and none for the others |
| CompletedOutput.MovedCatalogIsNeverExposed | packages/application/src/completed-output.ts:178-207 | once a decision moved the revision past a job's claim, that job opens no output again |
| CompletedOutput.CurrentOutputIsMinted | packages/application/src/completed-output.ts:114-135 | a stored completed job mints its output iff its claim is the live revision |
| CompletedOutput.DecisionReopens | packages/application/src/review-fallback-approvals.ts:406-432 | when a decision is over no completed job is stored, unless a render committed while the reviewer was rechecking |
| CompletedOutput.UndisturbedDecisionIsMade | packages/application/src/review-fallback-approvals.ts:264-362 | a reviewer who is not kept waiting takes a completed job back to review, writes, and leaves |
| CompletedOutput.RenderCanReachTheGate | packages/application/src/render-audiobook.ts:163-215 | whatever directed job a render finds, completed, running or stopped, it can come to read the gate |
| CompletedOutput.UndisturbedRenderIsExposed | packages/application/src/render-audiobook.ts:244-342 | from any catalog that settles the script, a run exists that ends with a consumer holding the freshly rendered output |
| GpuResidency.LiveMeansLeased | packages/gemma-director/src/gemma-director-model.ts:1127-1151 | a live model process means its owner still holds the kernel lock, or ended quarantined |
| GpuResidency.NeverResidentTogether | packages/gemma-director/src/owned-llama-lifecycle.ts:121-139 | two owners' processes are never alive together |
| GpuResidency.FreedMeansGone | packages/gemma-director/src/gemma-director-model.ts:340-374 | a freed lease means the runtime was proved gone |
| GpuResidency.NoSpawnAfterRelease | packages/gemma-director/src/owned-llama-lifecycle.ts:200-258 | once release has begun no step spawns a process for that owner, alive or not: its process can only exit |
| GpuResidency.UnprovenCleanupKeepsLease | packages/gemma-director/src/gemma-director-model.ts:350-368 | an unproven cleanup never gives the lease back |
| GpuResidency.NoGrantAfterMarker | packages/gpu-lease/src/index.ts:384-407 | after the quarantine marker was written no acquisition succeeds, even after its writer ended |
| GpuResidency.ArmedOwnerSpawns | packages/gemma-director/src/owned-llama-lifecycle.ts:200-258 | before its release begins, an owner ready to spawn does spawn |
| GpuResidency.FreeLockLeadsToResidency | packages/gemma-director/src/gemma-director-model.ts:1127-1206 | from every reachable machine with a free, unmarked lock, an untouched owner can come to hold it with a live process |
| GpuResidency.ResidencyLeadsToFreeLock | packages/gemma-director/src/gemma-director-model.ts:340-374 | from there a proven release can free the lease and the lock |
| GpuResidency.OwnersTakeTurns | packages/gpu-lease/src/index.ts:384-407 | so owners can be resident one after the other |
| IngestStore.BookStore.VerifyExisting | packages/epub-ingestion/src/adapter.ts:870-941 | returns the stored record iff it is this upload's with its files present |
| IngestStore.BookStore.DiscardTarget | packages/epub-ingestion/src/adapter.ts:830-863 | clears the target or leaves it; a recovery discard never clears a committed one |
| IngestStore.BookStore.RecoverTarget | packages/epub-ingestion/src/adapter.ts:691-748 | keeps a committed target, promotes a proven pending one, discards the rest |
| IngestStore.BookStore.CommitNewTarget | packages/epub-ingestion/src/adapter.ts:750-814 | stages, renames and publishes, or rolls back, leaving a complete or absent target after any fault or death; a manifest it renamed is gone at the end iff the next operation faulted and the rollback reached its own rename |
| IngestStore.CommitFresh | packages/epub-ingestion/src/adapter.ts:750-814 | a commit publishes iff every operation up to the manifest rename works, and the published target is still there iff it did not vanish in the rollback |
| IngestStore.PublishedManifestVanishes | packages/epub-ingestion/src/adapter.ts:782-794 | a fault right after the manifest rename makes a committed book vanish |
| IngestStore.BookStore.Ingest | packages/epub-ingestion/src/adapter.ts:483-528 | under any faults a committed target is untouched and a returned record is committed; without faults the upload's record is returned, or another upload's is already committed and stays |
| IngestStore.CommittedStays | packages/epub-ingestion/src/adapter.ts:708-719 | no sequence of ingests alters a committed target |
| IngestStore.ReturnedIsForever | packages/epub-ingestion/src/adapter.ts:691-863 | once a record was returned, target and record stay for all later ingests with any faults and deaths |
| AudiobookJob.AudiobookJob.ResumeFailedStage | packages/domain/src/audiobook-job.ts:266-334 | takes over an interrupted stage at a valid checkpoint of that stage, or throws and changes nothing |
| AudiobookJob.AudiobookJob.RecordDirectionProgress | packages/domain/src/audiobook-job.ts:374-402 | counts never go back or over their totals |
| AudiobookJob.AudiobookJob.Complete | packages/domain/src/audiobook-job.ts:534-550 | completes an assembling job under a catalog revision |
| AudiobookJob.AudiobookJob.Reconstitute | packages/domain/src/audiobook-job.ts:595-629 | the job object of a valid snapshot |
| AudiobookJob.CallKeepsSound | packages/domain/src/audiobook-job.ts:192-567 | every call keeps the job accepted by the validator, when rendering begins only on a directed script |
| AudiobookJob.EverySnapshotRoundTrips | packages/domain/src/audiobook-job.ts:570-824 | every snapshot of every such history is accepted and reconstitutes to itself |
| AudiobookJob.SoundIsClosed | packages/domain/src/audiobook-job.ts:192-567 | the readable jobs are closed under every call of the use cases |
| AudiobookJob.EveryJobCanBeFinished | packages/domain/src/audiobook-job.ts:192-567 | no readable job is a dead end: calls of the use cases lead from each to completion |
| AudiobookJob.WarningIsKept | packages/domain/src/audiobook-job.ts:521-532 | a fallback warning is on the list afterwards and no earlier one is lost |
| AudiobookJob.ApprovedRenderMayBegin | packages/application/src/render-audiobook.ts:287-290 | an approved render always finds a complete direction and may begin |
| AudiobookJob.UndirectedRenderingIsUnreadable | packages/domain/src/audiobook-job.ts:464-480 | without complete direction a reopened job is refused by its own validator |
| DirectionRuns.DirectionWorkspace.OnProgress | packages/application/src/direct-audiobook.ts:302-321 | a report with possible counts and a message is recorded, and lost only with its write; any other is refused and changes nothing |
| DirectionRuns.DirectionWorkspace.DirectBook | packages/application/src/direct-audiobook.ts:229-366 | a pass extends the approved prefix and directs only chapters after it, each once; when writes work and the director cooperates it succeeds, so its own progress is never refused |
| DirectionRuns.DirectionWorkspace.ResumePass | packages/application/src/direct-audiobook.ts:119-221 | a resumed pass rebases to the persisted prefix; when nothing fails it succeeds, so a finished pass is always accepted for review |
| DirectionRuns.DirectionWorkspace.BeginFresh | packages/application/src/direct-audiobook.ts:189-201 | a fresh direction starts from a persisted draft script |
| DirectionRuns.NeverDirectedAgain | packages/application/src/direct-audiobook.ts:229-366 | along a chain of passes, such as `DirectionRuns.DirectRepeatedly` leaves behind, a persisted chapter is never directed again |
| DirectionRuns.DirectReadably | packages/application/src/direct-audiobook.ts:189-221 | a first direction, with any faults and deaths, saves only jobs that are read back unchanged, leaves an approved prefix stored, and directs chapters in order, each once, at most one beyond that prefix; when nothing fails it finishes |
| DirectionRuns.ResumeReadably | packages/application/src/direct-audiobook.ts:119-221 | resuming any interrupted direction, with any faults and deaths, saves only jobs that are read back unchanged, leaves a longer approved prefix and a directing job stored, and directs only later chapters, in order; when nothing fails it finishes with the whole script approved |
| DirectionRuns.DirectionWorkspace.Execute | packages/application/src/direct-audiobook.ts:92-221 | a directed job, another command's job, a job of a later stage and a crashed one without consent are refused; anything else is resumed or started at extraction, and succeeds when nothing fails; a command that throws inside its pass stores its failure, or abandonment when aborted, unless that last write fails |
| DirectionRuns.DirectOnce | packages/application/src/direct-audiobook.ts:92-221 | any command on any readable job saves only readable jobs and a longer approved prefix; without faults it succeeds iff it may serve the job |
| DirectionRuns.RetryAfterFailure | packages/application/src/direct-audiobook.ts:119-221 | after a recorded failure the same command succeeds without consent once nothing fails |
| DirectionRuns.PersistedIsFinal | packages/application/src/direct-audiobook.ts:254-285 | after any later commands a chapter once stored as approved is still approved and was not handed to the director again |
| DirectionRuns.DirectRepeatedly | packages/application/src/direct-audiobook.ts:92-366 | over any sequence of commands on a job, with any faults and deaths: every saved job reads back unchanged, every stored script is an approved prefix that only grows, and no persisted chapter is directed again |
| RenderRuns.RenderWorkspace.RenderItem | packages/application/src/render-audiobook.ts:487-511 | audio is durable before it is counted, so the count in memory and every saved one stay honest after any death |
| RenderRuns.RenderWorkspace.Render | packages/application/src/render-audiobook.ts:455-535 | a batch that returns has generated plus reused equal to the plan; the count in memory and every saved one never exceed the durable artifacts |
| RenderRuns.RenderWorkspace.RenderPass | packages/application/src/render-audiobook.ts:244-307 | a pass counts from the verified artifacts, renders no durable item, saves only honest counts, ends accepted for assembly, and succeeds when nothing fails |
| RenderRuns.NeverRenderedAgain | packages/application/src/render-audiobook.ts:455-535 | over all passes a durable segment and identity pair is never rendered again |
| RenderRuns.RenderWorkspace.Execute | packages/application/src/render-audiobook.ts:163-342 | an exposable output is returned as it is; a command succeeds only for a stale completed, an approved or an interrupted job, a crashed one with consent, and without faults always then; one that throws inside its pass stores its failure, or abandonment when aborted, unless that last write fails |
| RenderRuns.RenderReadably | packages/application/src/render-audiobook.ts:163-342 | on any readable stored job, with any faults and deaths, a command saves only jobs that are read back unchanged and honest about their counts, keeps every artifact and renders no durable one again; without faults it succeeds iff it may serve the job |
| RenderRuns.RetryAfterFailure | packages/application/src/render-audiobook.ts:163-342 | after a recorded failure the same command succeeds without consent once nothing fails |
| RenderRuns.LostOutputStaysRunning | packages/application/src/render-audiobook.ts:320-341 | when only the last save of a finished render faults, the stored job stays running and is refused without consent |
| RenderRuns.RenderRepeatedly | packages/application/src/render-audiobook.ts:163-535 | over any sequence of commands with faults, deaths and reopenings between them, every saved job counts no more than the durable recordings of the plan of a command up to then |

## Left out

- Hashes, canonical JSON, timestamps, locators, image and annotation records: identities are the values they are computed from; an instant or an actor is an opaque value.
- XML, ZIP and OPF parsing: the extractor starts from the parsed tree, in which every element is visited once, so the guard against extracting a block twice cannot fire and is not modelled.
- Fidelity.AnalyzeFidelity: the speaker rules and confidence warnings of `validation.ts` are not modelled; they can refuse an answer that this model accepts, and never change text.
- Grapheme segmentation: any segmentation into non-empty clusters that spell the text.
- fsync and power loss: a rename is atomic and durable once it returned; file-system checks that cannot fail on a workspace of this shape (symbolic links, escapes) are part of the fault of the operation they guard.
- IngestStore.BookStore.VerifyExisting: groups its reads under one fault; the schema version is a constant.
- Abrupt death of an owner process with a live model and no marker, and outside kills of the lock holder: the code relies on diagnostics there. Competing owners in `GpuResidency` follow the same adapter protocol.
- GPU acquisitions that lost the race against the chapter deadline are not claimed to be freed.
- CompletedOutput and GpuResidency are step functions on a state value, not classes: their blocks interleave between awaits, which methods on one object cannot express.
- CompletedOutput assumes one render worker per job and that every catalog write goes through the review service; `RenderAudiobook.execute` hands its own fresh output to its caller without the authority, and that return value is not covered. A resumed assembly is a render that finds every recording of its plan.
- FallbackApprovals keeps a grant's subjects as a set; its canonical sorting and the record identifiers derived by hashing are not modelled, nor are the character checks on actors.
- AudiobookJob drops the counts inside progress messages, reads segment ids as their parts, and takes the checks on finished output paths as one condition.
- DirectionRuns and RenderRuns: fallback warnings, voice assignment, chapter render states and the binding of the render contract are not carried along; a caller's own progress callback is part of the write it follows, and the checks on a book that was read or extracted are part of reading it.
- Assembly itself, loudness, FFmpeg and the Qwen engine: programs that cannot be seen.
- Apps, benchmark, Python scripts and web interface: evidence recording and display.
