# Verified models of the dashboard's hard parts

Dafny models of six components of the trading workbench, with proofs of what they keep. Each operation is
modelled in its own form: methods with loops and classes with fields where the TypeScript changes state,
functions where it computes. A method is tied by its `ensures` to a specification function, and the lemmas
about that function say what the component is for.

| component | files |
|---|---|
| agent event reducer and permission ceremony | `AgentTurn`, `AgentConfluence`, `AgentRuns`, `AgentContent`, `AgentRequests`, `AgentScope` |
| research-environment job claims and heartbeat | `JobRepository`, `JobRows`, `JobProtocol`, `JobHistory`, `Heartbeat` |
| chat markdown | `JsText`, `FenceSegments`, `FenceReading`, `InlineMarkdown`, `InlineReading`, `MarkdownBlocks`, `MarkdownLayout`, `LineReading` |
| workflow contract | `CanonicalJson`, `CanonicalEquality`, `CanonicalGrammar`, `StrategyRules`, `WorkflowSnapshots`, `SnapshotExchange`, `RevisionDoubles` |
| walk-forward training numerics | `RankOrder`, `RocAuc`, `Pooling`, `Calibration`, `FoldSplitter` |
| framing and locking | `Splitter`, `StreamFraming`, `ProcessOutput`, `ProcessReport`, `ConfigFile`, `ConfigLock` |

`Options` holds the shared `Option` and `Result`, `Sequences` facts about concatenation. The modules named after what
they read (`AgentContent`, `JobRows`, `CanonicalGrammar`, `InlineReading` and so on) say what the operations compute
without naming the functions that compute it: from payloads, columns, grammar and characters.
`dafny verify dfyconfig.toml` checks the whole project.

Where a promise of the source does not hold of its code, the model keeps the code, gives a failing input and
states when the promise does hold:

- The pooling loop never merges a closed run backwards, so the fitted breakpoints can decrease although a unit test
  promises monotone ones (`Pooling.PoolingCanDecrease`). They are monotone exactly when no block of ones and then
  zeros, in order of prediction, is followed by one with a smaller share of ones
  (`Calibration.FittedBreakpointsRiseExactly`). The interpolated map is monotone exactly when the first and the last
  breakpoint of each abscissa rise, those between two of the same abscissa being hidden (`Calibration.MonotoneExactly`).
- The ROC-AUC loop breaks ties by input order (`RocAuc.TiedRowsAreNotHalf`). It equals the usual metric exactly
  when half of the tied pairs have their positive row first (`RocAuc.TiesCountByInputOrder`).
- Examining the configuration lock and removing it are two calls, so two writers that meet a stale lock can both
  enter and lose an update (`ConfigLock.TakeoverRaceLosesAnUpdate`). Judged by what a writer can see of the lock when
  it removes it, a takeover is safe exactly when the lock is still stale, or gone (`ConfigLock.TakeoverIsSafeExactly`).
- A fence opener whose line is still streaming in may turn out to be prose: its block stays exactly when the rest of
  its line holds no backtick (`FenceSegments.UnfinishedOpenerStaysExactly`).
- Two canonical strings coincide for some different values (`CanonicalEquality.Collisions`). They coincide exactly when
  the values are equal once undefined and non-finite numbers are null, undefined members are left out, and numbers are
  spelled as the objects they print as (`CanonicalEquality.CanonicalStringDecidesSpelling`); on plain values that is
  equality itself (`CanonicalEquality.CanonicalStringDecidesEquality`).
- Standard output and standard error share one line buffer, so a line can mix them while the process runs
  (`ProcessOutput.StreamsShareTheLineBuffer`) or when it ends (`ProcessOutput.UnfinishedLinesAreFlushedAsOne`). What
  the listener has been given is, at every moment and after the ending, what two separate buffers would have given,
  exactly when every chunk that ends a line finds its own stream's unfinished line in the buffer (where the chunk
  begins with the newline, up to one carriage return), and at the ending the whole unfinished line is one stream's
  and the other has none (`ProcessOutput.StayApartExactly`). Taking turns at line ends is enough.
- A position still open is never purged, so without an embargo every later fold trains on it
  (`FoldSplitter.OpenRowsAreNeverPurged`); of rows with an exit none is trained on too early.
- An event that waits in the reorder buffer was checked against the pins of its arrival and is not looked at again,
  so a start event that fills the gap can pin another session before it is folded
  (`AgentScope.BufferedEventsAreNotCheckedAgain`). From every state whose buffer agrees with its pins nothing that
  disagrees with them is folded (`AgentScope.HistoryStaysInScope`).
- An acknowledgement and a resolution with different verdicts commute only in the cases listed by
  `AgentRuns.AcknowledgeAndResolveCommuteExactly`.

## Model

| member | source | states |
|---|---|---|
| AgentTurn.ApplyAgentEvent | apps/web-dashboard/src/agent-chat.ts:748-803 | the arrival handler with its drain loop computes `Apply`: scope check, duplicate check, buffering up to 64 entries, folding and draining; what the fold shows is said by `AgentContent`, `AgentRequests` and `AgentScope` |
| AgentConfluence.ReduceIgnoresBuffer | apps/web-dashboard/src/agent-chat.ts:495-735 | folding an event neither reads nor changes the reorder buffer |
| AgentConfluence.DrainReachesGap | apps/web-dashboard/src/agent-chat.ts:782-803 | draining folds exactly to the end of the contiguous prefix received and leaves what lies beyond the gap |
| AgentConfluence.ArrivalsFoldThePrefix | apps/web-dashboard/src/agent-chat.ts:748-803 | after any arrivals in any order with duplicates that do not overflow the buffer, the visible turn is the in-order fold of the longest contiguous prefix, `lastSeq` is its end, the buffer holds exactly what lies beyond the gap, and the gap clock runs iff it is non-empty |
| AgentConfluence.DeliveryOrderDoesNotMatter | apps/web-dashboard/src/agent-chat.ts:748-803 | two deliveries of the same events give the same visible turn and the same buffer |
| AgentConfluence.ProtocolErrorStays | apps/web-dashboard/src/agent-chat.ts:748-803 | no later arrival clears a protocol error |
| AgentConfluence.OverflowReportedExactly | apps/web-dashboard/src/agent-chat.ts:748-803 | a delivery ends in a protocol error exactly when some arrival finds the buffer full |
| AgentContent.ContentIsTheText | apps/web-dashboard/src/agent-chat.ts:495-733 | for every message and event list: the text is the last 32768 units of the start text and all deltas in order, and after a completion that carries a text of its own it is that text, extended by later deltas only |
| AgentContent.LastReportsStand | apps/web-dashboard/src/agent-chat.ts:495-733 | thoughts obey the same law; plan, usage, governance, candidate, error stage, visualization and the admission with its status are the last ones sent, and untouched when none is sent |
| AgentContent.CallsAndChangesShow | apps/web-dashboard/src/agent-chat.ts:495-733 | one trace entry per start and one file change per proposal, in order; each call shows status and presentation-only outcome of its last completion since it started and is running without one, each change the last hash it was applied with |
| AgentContent.LastEndingStands | apps/web-dashboard/src/agent-chat.ts:495-733 | the status is that of the last deciding event, a completion deciding only while no candidate has been held |
| AgentContent.TerminalOutcomeStands | apps/web-dashboard/src/agent-chat.ts:495-733 | the terminal outcome is that of the last call that did not succeed, or else what was there, or else that of the first failure or cancellation of the turn |
| AgentContent.StagesAreTheLastReports | apps/web-dashboard/src/agent-chat.ts:661-704 | the stages shown are the last report of each stage of the current admission since it started, in order; reports for another admission show nothing |
| AgentContent.IdentityStands | apps/web-dashboard/src/agent-chat.ts:495-512 | the last 256 event ids are remembered, the session of the last start is pinned and the other four pins never change |
| AgentContent.DeliveriesShowThePrefix | apps/web-dashboard/src/agent-chat.ts:495-803 | however a log is delivered, short of an overflow, the turn shows what the payloads of the longest contiguous prefix received say |
| AgentRequests.ConfirmsAnswerRequests | apps/web-dashboard/src/agent-chat.ts:588-635 | one confirm per request, in order, for the latest call of its operation that no earlier confirm governs; it shows what the authority's last decision, its call's completions and the turn's cancellation make of it, an unconsumed and unacknowledged approval or refusal being held back |
| AgentRequests.ItemsAreStamped | apps/web-dashboard/src/agent-chat.ts:513-733 | the one summary item is stamped by the last text or completion, every request item by its request, and a call by its start unless a later request moves it |
| AgentRequests.CeremonyReachesVerdict | apps/web-dashboard/src/agent-chat.ts:833-916 | a decision begun, verified and acknowledged ends in its verdict exactly when the authority decides alike; expiry and cancellation end it too, and a different user verdict leaves it submitting |
| AgentRequests.DecisionsDoNotOverlap | apps/web-dashboard/src/agent-chat.ts:857-883 | a decision in flight is not replaced by another |
| AgentRequests.FailedAttemptStartsOver | apps/web-dashboard/src/agent-chat.ts:895-916 | after a failed attempt a resolution alone decides nothing, and a new attempt with its verdict does |
| AgentScope.BoundTurnsAreFresh | apps/web-dashboard/src/agent-chat.ts:919-951 | a turn bound to its handle has folded, buffered and shown nothing, and is in scope of exactly the events of its fingerprint and of the runtime, task and workspace selected |
| AgentScope.RefusedForScopeExactly | apps/web-dashboard/src/agent-chat.ts:737-767 | an arriving event of the turn is refused, and the turn failed, exactly when it disagrees with a pinned field |
| AgentScope.HistoryStaysInScope | apps/web-dashboard/src/agent-chat.ts:737-803 | in every run from a state whose buffer agrees with its pins, no event that disagrees with what was pinned there is ever folded, and what is pinned stays pinned alike |
| AgentScope.HistoryWasAdmitted | apps/web-dashboard/src/agent-chat.ts:737-803 | every event folded arrived in the run, for this turn and in scope of what was pinned at its arrival |
| AgentScope.BufferedEventsAreNotCheckedAgain | apps/web-dashboard/src/agent-chat.ts:500-512 | a start event that fills the gap pins its session, and an event of another session that waited behind it is folded all the same |
| AgentScope.WatchdogFiresExactly | apps/web-dashboard/src/agent-chat.ts:805-816 | the watchdog fails the turn exactly when a gap, opened at any instant but zero, is 5000 ms old |
| AgentRuns.RunKeepsSound | apps/web-dashboard/src/agent-chat.ts:495-916 | over every run of events, watchdog ticks and UI calls: buffered events keep their sequence, verdicts are justified, records match the history, and with distinct ids the presentation invariant holds |
| AgentRuns.VerdictsComeFromTheAuthority | apps/web-dashboard/src/agent-chat.ts:545-568 | a confirm is approved or declined only if a resolution of that very scope with that verdict was folded |
| AgentRuns.TerminalPhasesAreClosed | apps/web-dashboard/src/agent-chat.ts:833-916 | over every continuation of every run confirms keep place, scope and call, and a terminal phase stays terminal |
| AgentRuns.RunsPresentWell | apps/web-dashboard/src/agent-chat.ts:513-735 | with distinct call and request ids every run shows each call and request exactly once in nondecreasing order, no call is governed twice, and a governed call stands right behind its confirm |
| AgentRuns.AcknowledgeAndResolveCommute | apps/web-dashboard/src/agent-chat.ts:907-916 | an acknowledgement and a resolution with the same verdict give the same message in either order |
| AgentRuns.AcknowledgeAndResolveCommuteExactly | apps/web-dashboard/src/agent-chat.ts:833-842 | for any two verdicts: the exact condition under which the two orders give the same confirm |
| JobRepository.InterruptedStageIsLegal | packages/research-environment/src/job-repository.ts:806-821 | the stage written on a reclaimed job is never admission, and is one its operation may report exactly when the current stage is missing, belongs to the operation, is a transition, or is an install or repair under verify |
| JobRepository.LogTail | packages/research-environment/src/job-repository.ts:438-451 | the kept log is the last lines up to the bound; a line within its bound is kept whole, a longer one is cut to exactly the bound |
| JobRepository.ResearchEnvironmentJobRepository.ReconcileAbandoned | packages/research-environment/src/job-repository.ts:304-369 | computes `Reconcile` and returns the reclaimed ids; what that leaves in each row is said by `JobRows.ReconcileInterrupts` |
| JobRepository.ResearchEnvironmentJobRepository.Admit | packages/research-environment/src/job-repository.ts:252-293 | reconciles and admits in one transaction, or rolls back when an active job remains |
| JobRepository.ResearchEnvironmentJobRepository.Heartbeat | packages/research-environment/src/job-repository.ts:380-389 | refreshes the claim and answers true iff the row is active and owned |
| JobRepository.ResearchEnvironmentJobRepository.AssertOwnedAndActive | packages/research-environment/src/job-repository.ts:673-697 | tells missing, foreign and terminal rows apart, in the source's order |
| JobRepository.ResearchEnvironmentJobRepository.UpsertPublishedProjection | packages/research-environment/src/job-repository.ts:640-664 | replaces the one projection row of the status's profile and no other |
| JobRepository.ResearchEnvironmentJobRepository.MarkRunning | packages/research-environment/src/job-repository.ts:392-406 | whole new state of the transaction, or the error and no change |
| JobRepository.ResearchEnvironmentJobRepository.AdvanceStage | packages/research-environment/src/job-repository.ts:415-426 | whole new state of the transaction, or the error and no change |
| JobRepository.ResearchEnvironmentJobRepository.AppendLogTail | packages/research-environment/src/job-repository.ts:438-451 | whole new state of the transaction, or the error and no change |
| JobRepository.ResearchEnvironmentJobRepository.MarkSucceeded | packages/research-environment/src/job-repository.ts:458-477 | finishes the row and publishes the status in one transaction |
| JobRepository.ResearchEnvironmentJobRepository.PublishProjection | packages/research-environment/src/job-repository.ts:485-501 | publishes with a pending cleanup, the job staying active |
| JobRepository.ResearchEnvironmentJobRepository.CompletePublishedTransition | packages/research-environment/src/job-repository.ts:504-521 | publishes without a pending cleanup and finishes the row |
| JobRepository.ResearchEnvironmentJobRepository.ClearPendingCleanup | packages/research-environment/src/job-repository.ts:551-560 | clears only the pending cleanup of the job's profile, for its owner |
| JobRepository.ResearchEnvironmentJobRepository.MarkFailed | packages/research-environment/src/job-repository.ts:563-580 | fails an owned active row and leaves every projection alone |
| JobRows.ReconcileInterrupts | packages/research-environment/src/job-repository.ts:329-369 | a reconciliation fails exactly the foreign active rows silent for more than 90 000 ms, each as interrupted with its operation and the stage to blame, every other column and row as it was |
| JobRows.AdmissionCommitsExactly | packages/research-environment/src/job-repository.ts:252-293 | an admission commits exactly when every active job of the profile may be reclaimed and the id is new; the new row and the interrupted ones are given column by column, and otherwise nothing changes |
| JobRows.OwnerCallCommitsExactly | packages/research-environment/src/job-repository.ts:392-580 | an owner's call commits exactly on its own active job with a well-formed payload; which columns each call writes, and what, for the row and for the published projection; otherwise the first thing wrong and no change |
| JobRows.HeartbeatCommitsExactly | packages/research-environment/src/job-repository.ts:380-389 | a heartbeat writes one column of the caller's own active job, or nothing |
| JobProtocol.RunsKeepAtMostOneActive | packages/research-environment/src/job-repository.ts:252-389 | at most one active job per profile in every state reachable by any interleaving of transactions, ticks and crashes |
| JobProtocol.RowsChangeOnlyByOwnerOrReclaim | packages/research-environment/src/job-repository.ts:329-389 | a row changes only while active, by its live owner naming it, or by a foreign reconcile after 90 s of silence, and then becomes the interrupted row |
| JobProtocol.TerminalRowsAreFrozen | packages/research-environment/src/job-repository.ts:673-697 | a terminal row is the same row in every later state |
| JobProtocol.PunctualOwnersAreNeverReclaimed | packages/research-environment/src/job-repository.ts:329-389 | a job whose owner shows life within 90 000 ms of every foreign reconcile is never touched by another instance |
| JobProtocol.AdmissionSucceedsExactly | packages/research-environment/src/job-repository.ts:252-293 | an admission succeeds exactly when every active job of the profile is foreign and silent past the cutoff; those are then failed as interrupted, and it is the only active one |
| JobProtocol.NothingSucceedsAfterReclaim | packages/research-environment/src/job-repository.ts:380-697 | after a reclaim every heartbeat and mutation naming the job fails and changes nothing, by anyone, ever |
| JobProtocol.PublicationIsVisible | packages/research-environment/src/job-repository.ts:458-521 | a committed publication is what readers see, with its publisher and cleanup |
| JobProtocol.PublicationsAreDurable | packages/research-environment/src/job-repository.ts:458-560 | a publication stays until another one into its profile; failures, crashes and reclaims never revert it |
| JobProtocol.RunsKeepPublishers | packages/research-environment/src/job-repository.ts:640-664 | every projection names an existing job and sits under its own profile, in every run |
| JobHistory.RowsTellTheirHistory | packages/research-environment/src/job-repository.ts:252-580 | over every run the row of a job that was active is the record of it: live exactly until it is ended, running once its owner ran it, and then with the columns of the step that ended it |
| JobHistory.SuccessIsTheOwners | packages/research-environment/src/job-repository.ts:458-521 | a job is succeeded exactly when an accepted finish of its live owner committed, and its result is that finish's status |
| JobHistory.FailureIsReportedOrReclaimed | packages/research-environment/src/job-repository.ts:329-369 | a job is failed exactly when its live owner's accepted failure committed or another instance took it away after more than 90 000 ms of silence; its failure says which, with operation and stage |
| Heartbeat.ResearchEnvironmentHeartbeat.Start | packages/research-environment/src/heartbeat.ts:46-54 | restarts the timer for the given job |
| Heartbeat.ResearchEnvironmentHeartbeat.Stop | packages/research-environment/src/heartbeat.ts:56-66 | clears the interval once and forgets the job |
| Heartbeat.ResearchEnvironmentHeartbeat.Tick | packages/research-environment/src/heartbeat.ts:68-77 | beats once for the active job and, on a lost claim, stops before it notifies |
| Heartbeat.StartedTimerBeatsForItsJob | packages/research-environment/src/heartbeat.ts:46-77 | whatever happens elsewhere after a start, the next firing refreshes the claim of the job the timer was started for, or else clears the new interval and reports that job |
| Heartbeat.LostClaimIsReportedOnce | packages/research-environment/src/heartbeat.ts:46-77 | composed with the repository and any starts and stops by the host: a lost job is reported exactly once if the timer fires before the host's next call, after its interval is cleared, and otherwise never, unless the host starts it again |
| Heartbeat.ReportedAtMostOncePerStart | packages/research-environment/src/heartbeat.ts:46-77 | over every run a job is reported lost at most once per start by the host |
| Heartbeat.UnwatchedIsNotReported | packages/research-environment/src/heartbeat.ts:46-77 | a job that is not watched, and not started again, is never reported |
| Heartbeat.HeldClaimIsRefreshed | packages/research-environment/src/heartbeat.ts:68-77 | a firing for a held claim refreshes it and reports nothing |
| Heartbeat.IdleTimerStaysIdle | packages/research-environment/src/heartbeat.ts:56-77 | between calls of the host a stopped timer does nothing |
| JsText.TrimEmptyExactly | packages/chat-markdown/src/markdown.ts:122-163 | the blank-line test holds exactly of lines of white space |
| FenceSegments.FindClosingFence | packages/chat-markdown/src/segment.ts:111-128 | the line walk finds `FindClose` |
| FenceSegments.FindCloseIsFirst | packages/chat-markdown/src/segment.ts:111-128 | the closing fence is the first line start whose trimmed line opens with a fence, and none exists when none is found |
| FenceSegments.SplitContentSegments | packages/chat-markdown/src/segment.ts:45-96 | the cursor loop computes `Split` |
| FenceSegments.SegmentsTile | packages/chat-markdown/src/segment.ts:45-96 | segments tile the raw text without gap or overlap, and each shows the text it spans |
| FenceSegments.StreamingKeepsBlocks | packages/chat-markdown/src/segment.ts:45-128 | for every extension of every text, each code segment whose opener line is complete keeps its index, start and language and all before it; once closed, its content too |
| FenceSegments.UnfinishedOpenerMayBeProse | packages/chat-markdown/src/segment.ts:45-96 | the smallest instance: three backticks open a block that a fourth one takes back |
| FenceSegments.UnfinishedOpenerStaysExactly | packages/chat-markdown/src/segment.ts:45-96 | for every extension of every text, a code segment whose opener line is unfinished keeps its index, type and start, and all before it, exactly when the rest of its line holds no backtick |
| FenceSegments.OpenerExtends | packages/chat-markdown/src/segment.ts:36 | an opener without its newline still matches in a longer text exactly when no backtick follows on its line |
| FenceReading.FirstOpenerCounts | packages/chat-markdown/src/segment.ts:36-128 | by characters: the block taken is the first whose line opens one, its language named by its hint, its body behind that line and up to the first line that closes it; there is none exactly when no line opens one |
| FenceReading.LanguageIsNamed | packages/chat-markdown/src/language.ts:16-36 | a trimmed hint names a language exactly when it is one of the seven names, in small or capital letters |
| FenceReading.BodyLosesOneNewline | packages/chat-markdown/src/segment.ts:149-151 | the content is the body, or the body but for one newline at its end |
| InlineMarkdown.ParseInline | packages/chat-markdown/src/markdown.ts:363-397 | the recursive loop terminates and computes `Parse`; what that is, is said by `InlineReading.ParseFollowsFirstSpan` |
| InlineMarkdown.MatchIsDelimited | packages/chat-markdown/src/markdown.ts:350-357 | each expression's match is its delimiter, non-empty content and its delimiter |
| InlineMarkdown.ParsePrintsBack | packages/chat-markdown/src/markdown.ts:363-423 | printing the parsed nodes with their delimiters gives back every text exactly |
| InlineMarkdown.ParseIsNormal | packages/chat-markdown/src/markdown.ts:363-423 | text nodes are never empty or adjacent and spans never empty, at every depth |
| InlineReading.ParseFollowsFirstSpan | packages/chat-markdown/src/markdown.ts:346-423 | by characters: the parse of every text is what stands before its first span, as text, that span, and the parse of the rest; first is the least index at which a code, strong or emphasis span stands, in that order of kinds, and it ends at the first delimiter that closes it; a text is one text node exactly when no span stands in it |
| MarkdownBlocks.SplitLines | packages/chat-markdown/src/markdown.ts:323-340 | the loop computes `Lines` |
| MarkdownBlocks.SplitTableRow | packages/chat-markdown/src/markdown.ts:250-274 | the escape-aware loop computes the row's cells, blank outer ones dropped and each trimmed |
| MarkdownBlocks.ConsumeList | packages/chat-markdown/src/markdown.ts:174-198 | pushes the one maximal list block and returns the line behind it |
| MarkdownBlocks.ConsumeTable | packages/chat-markdown/src/markdown.ts:208-242 | pushes a table exactly when a delimiter row of the header's width follows |
| MarkdownBlocks.ConsumeParagraph | packages/chat-markdown/src/markdown.ts:299-321 | pushes the one maximal paragraph block |
| MarkdownBlocks.ParseTextSegment | packages/chat-markdown/src/markdown.ts:122-163 | appends the blocks of the segment's lines |
| MarkdownBlocks.ParseChatMarkdown | packages/chat-markdown/src/markdown.ts:94-113 | the blocks of all segments in order |
| MarkdownLayout.ParagraphPrintsBack | packages/chat-markdown/src/markdown.ts:299-340 | a paragraph's nodes, hard breaks as newlines, print back to the raw text it spans |
| MarkdownLayout.TableIsRectangular | packages/chat-markdown/src/markdown.ts:208-242 | header, alignments and every row of a table have one width |
| MarkdownLayout.RowIsCutAtPipes | packages/chat-markdown/src/markdown.ts:250-274 | the raw cells of every row, joined by pipes, are its text, and the cuts are exactly the pipes that do not follow a backslash |
| MarkdownLayout.BlockShows | packages/chat-markdown/src/markdown.ts:122-242 | a heading shows its line without the closing hashes, a list one item per line, a table its cells unescaped, row by row |
| MarkdownLayout.TextBlocksCover | packages/chat-markdown/src/markdown.ts:122-163 | the blocks of a text segment are ordered and faithful to the lines they span, and only white space lies between them |
| MarkdownLayout.DocumentCoversText | packages/chat-markdown/src/markdown.ts:94-113 | for every text: paragraphs print back to their span, headings, list items and table cells to the parts of the lines they span, code blocks hold the body between their fences, and only white space lies outside the spans |
| LineReading.ListKindIsRead | packages/chat-markdown/src/markdown.ts:73-74 | by characters: which lines are items of a bullet or a numbered list, and with what text |
| LineReading.HashLinesAreHeadings | packages/chat-markdown/src/markdown.ts:80 | by characters: which lines are headings, of what level and with what text |
| LineReading.ClosingRunIsStripped | packages/chat-markdown/src/markdown.ts:291-297 | a heading loses its closing run of hashes exactly when that run stands apart, and the white space around what is left |
| LineReading.RowCellsAre | packages/chat-markdown/src/markdown.ts:250-274 | the cells of a row are its text cut at the unescaped pipes, a white one at either end left out, each trimmed |
| LineReading.PipesAreUnescaped | packages/chat-markdown/src/markdown.ts:276-279 | a cell shows its text without the backslashes that stand right before a pipe |
| LineReading.ColonsAlign | packages/chat-markdown/src/markdown.ts:281-289 | a delimiter cell is dashes with a colon at either end or none, and the colons are its alignment |
| CanonicalJson.PrintEndsItself | packages/ai-studio-operations/src/ai-studio-workflow-contract.ts:159-176 | canonical printing is injective on normal forms even with arbitrary text behind it |
| CanonicalJson.CanonicalStringDecidesNorm | packages/ai-studio-operations/src/ai-studio-workflow-contract.ts:159-176 | for all values whatever, equal strings mean equal normal forms, and conversely; what a string reads as is said by `CanonicalGrammar.CanonicalStringSpells` |
| CanonicalEquality.CanonicalStringDecidesEquality | packages/ai-studio-operations/src/ai-studio-workflow-contract.ts:159-176 | for plain values, equal strings iff equal values, with objects as maps and the zeros alike |
| CanonicalEquality.MemberOrderDoesNotMatter | packages/ai-studio-operations/src/ai-studio-workflow-contract.ts:159-176 | reordering the members of objects, at any depth, never changes the string, plain values or not |
| CanonicalEquality.PermutationIsRearranged | packages/ai-studio-operations/src/ai-studio-workflow-contract.ts:159-176 | permuting the members of an object is such a reordering |
| CanonicalEquality.Collisions | packages/ai-studio-operations/src/ai-studio-workflow-contract.ts:159-176 | a finite number prints like the object that spells it, a non-finite number and undefined like null |
| CanonicalEquality.CanonicalStringDecidesSpelling | packages/ai-studio-operations/src/ai-studio-workflow-contract.ts:159-176 | for all values with distinct keys, equal strings iff equal values after undefined and non-finite become null, undefined members are left out and numbers are spelled out |
| CanonicalGrammar.CanonicalStringSpells | packages/ai-studio-operations/src/ai-studio-workflow-contract.ts:159-176 | for all values with distinct keys the text is what the grammar of RFC 8259 spells: literals, escapes only where one is needed and read back to their units, sixteen base-16 digits for the bytes of a finite number, arrays in order, every defined member by strictly ascending key; the same for the spelled value |
| CanonicalGrammar.LessExactly | packages/ai-studio-operations/src/ai-studio-workflow-contract.ts:174 | keys are compared by the first unit where they differ, or a proper start comes first |
| StrategyRules.CanonicalizeStrategyRules | packages/ai-studio-operations/src/ai-studio-workflow-contract.ts:207-250 | the field loop computes `Canonicalize`, with its first shape error |
| StrategyRules.CanonicalizeIsIdempotent | packages/ai-studio-operations/src/ai-studio-workflow-contract.ts:207-250 | canonical rules canonicalize to themselves |
| StrategyRules.OnlyBehaviourMatters | packages/ai-studio-operations/src/ai-studio-workflow-contract.ts:207-250 | rules that agree on the behavioural fields have the same canonical form |
| StrategyRules.CanonicalStringDecidesBehaviour | packages/ai-studio-operations/src/ai-studio-workflow-contract.ts:159-262 | equal canonical rule strings iff equal behavioural projections, field by field |
| StrategyRules.CanonicalFieldsAre | packages/ai-studio-operations/src/ai-studio-workflow-contract.ts:207-250 | the canonical rules are the five behavioural fields in their order: lists as sent or empty, the risk object with the knobs that are set |
| StrategyRules.CanonicalizesExactly | packages/ai-studio-operations/src/ai-studio-workflow-contract.ts:207-250 | rules have a canonical form exactly when they are absent or an object and every field sent has its shape |
| WorkflowSnapshots.ValidSnapshotsAreSelfCertified | packages/ai-studio-operations/src/ai-studio-workflow-contract.ts:293-441 | whatever passes validation carries the hash of its own rules within the byte bound, names a session, has a revision of at least 1 and is unexpired; what passes is said by `SnapshotExchange` |
| SnapshotExchange.SentSnapshotsArrive | packages/ai-studio-operations/src/ai-studio-workflow-contract.ts:293-441 | round trip: for every live, self-certified snapshot with trimmed session and hash, a revision of at least 1 and a bounded artifact hash, validating the payload that carries it gives back that very snapshot, every field |
| SnapshotExchange.RefusedWithItsCode | packages/ai-studio-operations/src/ai-studio-workflow-contract.ts:293-441 | for every payload: refused with the code of the first thing wrong, and accepted when nothing is |
| SnapshotExchange.AlteredEnvelopeIsRefused | packages/ai-studio-operations/src/ai-studio-workflow-contract.ts:307-352 | another or a missing version, another algorithm or a fractional revision: the contract is unavailable |
| SnapshotExchange.AlteredRulesAreRefused | packages/ai-studio-operations/src/ai-studio-workflow-contract.ts:362-401 | rules that hash differently do not match, or are too large |
| SnapshotExchange.LateSnapshotIsRefused | packages/ai-studio-operations/src/ai-studio-workflow-contract.ts:406-417 | at or after its expiry a sendable snapshot is refused as expired |
| RevisionDoubles.RevisionHasDouble | packages/ai-studio-operations/src/ai-studio-workflow-contract.ts:334-341 | every revision below 2 to the 53 is held by a double, so each such snapshot can be sent |
| WorkflowSnapshots.AcceptedExactly | packages/ai-studio-operations/src/ai-studio-workflow-contract.ts:526-575 | a snapshot is accepted exactly when it is of the binding's subject and session and newer; the binding then carries each of its fields, and the refusals have their codes in order |
| WorkflowSnapshots.DeliveryStep | packages/ai-studio-operations/src/ai-studio-workflow-contract.ts:526-575 | an acceptance raises the revision and counts one row revision; a rejection changes nothing; subject and session never change |
| WorkflowSnapshots.DeliveriesEndAtTheMaximum | packages/ai-studio-operations/src/ai-studio-workflow-contract.ts:526-575 | any non-empty delivery ends at a delivered snapshot of the maximum revision for the first subject and session, with one row revision per acceptance |
| WorkflowSnapshots.DeliveryOrderDoesNotMatter | packages/ai-studio-operations/src/ai-studio-workflow-contract.ts:526-575 | with the snapshot determined by its revision, order and duplicates change only the row revision |
| WorkflowSnapshots.BindingsAreSelfCertified | packages/ai-studio-operations/src/ai-studio-workflow-contract.ts:293-575 | bindings built from validated snapshots always store the hash of their own rules |
| RankOrder.StableOrder | packages/corrective-ai-core/src/metrics.ts:62-63 | the stable sort lists every index exactly once, by key and then by input position |
| RocAuc.ComputeRocAuc | packages/corrective-ai-core/src/metrics.ts:51-90 | the trapezoid loop's result is the share of (positive, negative) pairs whose positive outranks the negative; 0.5 for one class; an error exactly for mismatched or empty input |
| RocAuc.RankingCountsOutrankingPairs | packages/corrective-ai-core/src/metrics.ts:62-90 | counting along the ranking counts the outranking pairs of the input |
| RocAuc.RateIsBetween | packages/corrective-ai-core/src/metrics.ts:51-90 | the result lies between the strictly concordant share and the concordant-plus-tied share, within [0,1] |
| RocAuc.PerfectSeparation | packages/corrective-ai-core/src/metrics.ts:51-90 | the result is 1 exactly when every positive outranks every negative |
| RocAuc.FlippingLabelsComplements | packages/corrective-ai-core/src/metrics.ts:51-90 | swapping the classes complements the result, ties or not |
| RocAuc.TiesCountByInputOrder | packages/corrective-ai-core/src/metrics.ts:62-90 | the result counts ties as half exactly when half of them have the positive row first |
| RocAuc.TiedRowsAreNotHalf | packages/corrective-ai-core/src/metrics.ts:62-90 | two tied rows score 1 or 0 by input order |
| Pooling.PoolThrough | packages/corrective-ai-core/src/calibration.ts:61-70 | one pooling step in place: the run takes the mean of its own inputs, all weights stay 1, the rest is untouched |
| Pooling.PoolRun | packages/corrective-ai-core/src/calibration.ts:58-73 | the inner loop stops exactly where the run's mean is below the next value |
| Pooling.PoolAdjacentViolators | packages/corrective-ai-core/src/calibration.ts:52-78 | the in-place loops compute `Pooled` |
| Pooling.RunsAreMeans | packages/corrective-ai-core/src/calibration.ts:52-78 | the runs tile the input, each constant at its own mean, strictly below the next input, while no shorter start of it was |
| Pooling.PoolingConservesTotal | packages/corrective-ai-core/src/calibration.ts:52-78 | the total is conserved |
| Pooling.PoolingKeepsRange | packages/corrective-ai-core/src/calibration.ts:52-78 | the range is not widened |
| Pooling.RunsAreBlocks | packages/corrective-ai-core/src/calibration.ts:52-78 | for labels the runs are the leading zeros and then the maximal ones-then-zeros blocks, at their share of ones |
| Pooling.PooledLabelsAreMonotoneExactly | packages/corrective-ai-core/src/calibration.ts:52-78 | pooled labels never decrease iff no block is followed by one with a smaller share of ones |
| Pooling.PoolingCanDecrease | packages/corrective-ai-core/src/calibration.ts:52-78 | 1,1,0,1,0,0 pools to two thirds and then one third |
| Calibration.FitIsotonicCalibration | packages/corrective-ai-core/src/calibration.ts:6-50 | both errors, and otherwise the breakpoints of the sorted pooled labels: first, last and every change |
| Calibration.SelectedRises | packages/corrective-ai-core/src/calibration.ts:31-39 | the breakpoints rise exactly when the pooled values do |
| Calibration.FittedIsSorted | packages/corrective-ai-core/src/calibration.ts:24-50 | the breakpoints are non-empty, sorted, with ordinates in [0,1], for all predictions and labels |
| Calibration.ApplyIsotonicCalibration | packages/corrective-ai-core/src/calibration.ts:80-111 | the binary search ends at adjacent points bracketing the input, so the equal-abscissa branch is dead; for sorted points the result is `Calibrated` |
| Calibration.CalibratedIsAProbability | packages/corrective-ai-core/src/calibration.ts:6-111 | fit then apply stays in [0,1] for every input |
| Calibration.CalibratedStaysWithin | packages/corrective-ai-core/src/calibration.ts:80-111 | interpolation and clamping stay within the ordinates' range |
| Calibration.CalibratedRises | packages/corrective-ai-core/src/calibration.ts:80-111 | with the shown ordinates rising, the map is monotone across segments and clamps |
| Calibration.CalibratedPassesThrough | packages/corrective-ai-core/src/calibration.ts:80-111 | with distinct abscissas the map passes through every point |
| Calibration.CalibratedIsStraight | packages/corrective-ai-core/src/calibration.ts:80-111 | between two neighbours of distinct abscissas the map rises by their rise, in proportion |
| Calibration.FittedMapIsMonotoneExactly | packages/corrective-ai-core/src/calibration.ts:6-111 | the fitted map is monotone exactly when the breakpoints it shows rise; the blocks' shares rising is enough, and with distinct predictions it is needed |
| Calibration.FittedBreakpointsRiseExactly | packages/corrective-ai-core/src/calibration.ts:6-50 | for all predictions and labels the breakpoints never decrease exactly when no block is followed by one with a smaller share of ones |
| Calibration.MonotoneExactly | packages/corrective-ai-core/src/calibration.ts:80-111 | between sorted points the map is monotone exactly when the first and last ordinates of each abscissa rise |
| FoldSplitter.BuildPurgedWalkForwardFolds | packages/corrective-ai-core/src/fold-splitter.ts:11-89 | the errors exactly, and otherwise the viable folds |
| FoldSplitter.SplitTrainingRows | packages/corrective-ai-core/src/fold-splitter.ts:53-71 | the inner loop's indices and counters are the rows with each verdict |
| FoldSplitter.WindowsTile | packages/corrective-ai-core/src/fold-splitter.ts:34-44 | every row from the first window's start on lies in exactly one window |
| FoldSplitter.WindowsAreNonEmpty | packages/corrective-ai-core/src/fold-splitter.ts:34-44 | with two rows per fold no window is empty |
| FoldSplitter.WindowsAreEqualParts | packages/corrective-ai-core/src/fold-splitter.ts:34-44 | each window starts where that many of one more equal parts of the rows end, rounded down, and its size is less than a row away from an exact part |
| FoldSplitter.FoldAccountsForEveryRow | packages/corrective-ai-core/src/fold-splitter.ts:46-83 | trained, purged and embargoed rows add up to the window start, and training indices are exactly the rows with that verdict |
| FoldSplitter.RowsAreThose | packages/corrective-ai-core/src/fold-splitter.ts:53-71 | a verdict's index list holds exactly the rows with it |
| FoldSplitter.RowsAscend | packages/corrective-ai-core/src/fold-splitter.ts:53-71 | it holds them once, in order |
| FoldSplitter.ViableFoldsAreViable | packages/corrective-ai-core/src/fold-splitter.ts:30-83 | every returned fold trains on something, and folds come in order |
| FoldSplitter.ViableFoldsAreAll | packages/corrective-ai-core/src/fold-splitter.ts:30-83 | every fold with a row to train on is returned |
| FoldSplitter.WindowsDoNotLookAhead | packages/corrective-ai-core/src/fold-splitter.ts:46-83 | over any window of time-sorted rows, a training row clears every validation row's decision time: its exit, if it has one, is strictly before, and where an embargo applies so is exit (or entry) plus embargo |
| FoldSplitter.FoldsDoNotLookAhead | packages/corrective-ai-core/src/fold-splitter.ts:46-83 | on time-sorted rows, of rows with an exit no fold trains on one that any of its validation rows could not have known; where an embargo applies it is kept too |
| FoldSplitter.OpenRowsAreNeverPurged | packages/corrective-ai-core/src/fold-splitter.ts:53-69 | a row without an exit is trained on by every fold behind it when no embargo applies, and otherwise exactly when its entry plus the embargo is before the window |
| FoldSplitter.TrainedRowsClearTheWindowExactly | packages/corrective-ai-core/src/fold-splitter.ts:46-83 | the rows trained on are exactly those before the window that clear its first row's decision time, sorted or not; a row without an exit clears it when no embargo applies |
| FoldSplitter.TrainingGrowsAndEmbargoShrinks | packages/corrective-ai-core/src/fold-splitter.ts:30-83 | later folds train on a superset, longer embargoes on a subset |
| FoldSplitter.FoldsValidateDisjointRows | packages/corrective-ai-core/src/fold-splitter.ts:30-83 | returned folds validate different rows, in order |
| FoldSplitter.BuildHoldoutSplit | packages/corrective-ai-core/src/fold-splitter.ts:91-123 | a partition whose holdout is the requested share rounded up; the two errors exactly |
| Splitter.PartsSplitAlike | apps/web-dashboard/src/event-stream.ts:133-143 | feeding a stream in two parts gives the pieces of the whole, wherever the cut falls |
| Splitter.PiecesRestoreStream | apps/web-dashboard/src/event-stream.ts:138-143 | pieces with their delimiters and the rest give back the stream |
| Splitter.PiecesAreUnique | apps/web-dashboard/src/event-stream.ts:138-143 | there is only one way to cut a stream into complete pieces and a rest |
| StreamFraming.EventStreamReader.Feed | apps/web-dashboard/src/event-stream.ts:137-143 | one read dispatches the complete frames and keeps the rest |
| StreamFraming.ConsumeEventStream | apps/web-dashboard/src/event-stream.ts:128-151 | for every chunking and every abort, the frames are those of the concatenated text read, and only its unterminated tail is withheld |
| StreamFraming.CompleteFramesExactly | apps/web-dashboard/src/event-stream.ts:138-143 | the frames a sender can terminate: no blank line inside and no newline at the end |
| StreamFraming.SentFramesArrive | apps/web-dashboard/src/event-stream.ts:128-151 | terminated frames arrive as sent, however the stream is cut |
| StreamFraming.CarriageReturnsHideFrames | apps/web-dashboard/src/event-stream.ts:138-143 | a stream that ends its lines with a carriage return and a newline never completes a frame |
| ProcessOutput.ProcessRun.EmitLines | packages/research-environment/src/node-host.ts:127-140 | reports the non-empty terminated lines, each without one trailing carriage return, and keeps the rest pending |
| ProcessOutput.ProcessRun.Capture | packages/research-environment/src/node-host.ts:142-156 | counts bytes, captures under the cap, and feeds the line buffer |
| ProcessOutput.ProcessRun.Settle | packages/research-environment/src/node-host.ts:161-172 | flushes the pending tail and resolves, the first time only |
| ProcessOutput.ProcessRun.OnEnding | packages/research-environment/src/node-host.ts:174-198 | the two endings settle with what was captured |
| ProcessOutput.LinesOfWholeText | packages/research-environment/src/node-host.ts:127-156 | while running, the lines reported are those of the whole arrived text, however it was chunked |
| ProcessOutput.EndingFlushesTheTail | packages/research-environment/src/node-host.ts:161-198 | at the end the unterminated last line is reported as it stands, and the run resolves with the capture |
| ProcessReport.RunResolvesWith | packages/research-environment/src/node-host.ts:142-198 | the result of each ending, field by field: code and signal, or the spawn error; whether the timer had fired; and the output captured under the cap |
| ProcessReport.TellingLinesAreReported | packages/research-environment/src/node-host.ts:127-140 | every line that holds more than a carriage return is reported once, in order, without one carriage return at its end |
| ProcessOutput.ResolvesOnce | packages/research-environment/src/node-host.ts:161-198 | nothing that arrives later changes the result |
| ProcessOutput.CaptureIsAPrefix | packages/research-environment/src/node-host.ts:142-156 | the capture is the longest prefix of arrivals within the cap; later chunks are dropped even if they would fit |
| ProcessOutput.StreamsShareTheLineBuffer | packages/research-environment/src/node-host.ts:127-159 | a chunk of one stream lands inside an unfinished line of the other |
| ProcessOutput.UnfinishedLinesAreFlushedAsOne | packages/research-environment/src/node-host.ts:161-172 | two unfinished lines of different streams are flushed as one at the ending, though every chunk met the condition while running |
| ProcessOutput.HandedOutIsEmitted | packages/research-environment/src/node-host.ts:127-172 | the credited lines are, at every moment and after the ending, what the listener was given |
| ProcessOutput.StayApartExactly | packages/research-environment/src/node-host.ts:127-159 | for every run and its ending: the lines given to the listener are, as a collection, those of two separate buffers at every moment and in the end, iff they can be credited so that each stream gets its own lines and tail in order, iff every chunk that ends a line goes on from its own stream's unfinished line and at the ending one stream has the whole unfinished line and the other none |
| ProcessOutput.SwitchingAtLineEndsKeepsApart | packages/research-environment/src/node-host.ts:127-159 | streams that take turns at line ends only keep their lines and the flushed tail apart, through the ending |
| ConfigFile.ConfigDirectory.AcquireLock | packages/config-file/src/json-config-file.ts:44-69 | with other writers setting and removing the lock between any two calls: the wait ends with a lock of one's own, or past the deadline with one made since the wait began; alone, a lock left behind is always taken over |
| ConfigFile.ConfigDirectory.WriteAtomically | packages/config-file/src/json-config-file.ts:92-102 | after each call a reader finds the old content, and after the rename the whole new document |
| ConfigFile.ConfigDirectory.Update | packages/config-file/src/json-config-file.ts:119-136 | merge, timeout and invalid file, whatever the lock's stamp: the whole outcome, with the lock released on every way out but a timeout, and nothing but the old and the new content ever shown |
| ConfigLock.RunsKeepSound | packages/config-file/src/json-config-file.ts:39-136 | every permitted run keeps: a holder made the lock and has not outlived it, its merge is current, and the file is the merge of the history |
| ConfigLock.LockGuardsTheMerge | packages/config-file/src/json-config-file.ts:39-136 | at most one writer between acquire and release, and the file is the first one merged with the renamed patches in rename order, with crashes anywhere |
| ConfigLock.ReadersNeverSeeAPart | packages/config-file/src/json-config-file.ts:92-102 | in every run, the lock broken or not, a reader finds the first content or one writer's whole document |
| ConfigLock.LastPatchWins | packages/config-file/src/json-config-file.ts:119-136 | a member has the value of the last renamed patch that sets it |
| ConfigLock.HistoryOnlyGrows | packages/config-file/src/json-config-file.ts:92-102 | no renamed patch is forgotten |
| ConfigLock.TimeoutMeansContention | packages/config-file/src/json-config-file.ts:44-69 | a writer gives up only on a lock made since it began to wait |
| ConfigLock.StaleLockIsTakenOver | packages/config-file/src/json-config-file.ts:44-69 | a lock left by a crash yields to the next writer once stale |
| ConfigLock.StaleLocksAreFree | packages/config-file/src/json-config-file.ts:53-59 | in a sound state a stale or missing lock has no live holder |
| ConfigLock.TakeoverIsSafeExactly | packages/config-file/src/json-config-file.ts:53-59 | judged by the clock and by the presence and age of the lock at the removal, a takeover leaves its writer alone in every sound world exactly when the lock is still stale or gone |
| ConfigLock.TwoHoldersLoseAnUpdate | packages/config-file/src/json-config-file.ts:119-136 | two holders at once rename both patches and keep only the second |
| ConfigLock.TakeoverRaceLosesAnUpdate | packages/config-file/src/json-config-file.ts:44-69 | two writers that meet a stale lock have a run, without crash or tick, that loses the first update |

## Left out

- Numbers are reals or unbounded integers: IEEE rounding, NaN inputs to the training numerics, nanosecond
  timestamps beyond 2^53 and 32-bit overflow of the `>>` in the binary search are not modelled. JSON numbers are
  modelled by their eight bytes, because the canonical printer prints those.
- FoldSplitter.FoldsDoNotLookAhead: the embargo is a number of bars that the code adds to nanosecond timestamps
  as it stands; the model does the same, and no bar length enters the statement. Nothing is promised of a position
  still open; the trainer passes completed rows only.
- ConfigLock.LockGuardsTheMerge: holds under two hypotheses on the run, that live holders release within
  `LOCK_STALE_MS` and that a removal hits a lock that is still stale; the second is not enforced by the code.
- ConfigFile.ConfigDirectory.AcquireLock: other writers intervene finitely often; against endless intervention the
  code, which retries at once when a lock vanishes, need not end. Which writer does what is in `ConfigLock`. Two
  updates of one process share a temporary path, which the lock keeps apart; the model gives each writer its own.
- ConfigFile.ConfigDirectory.Update: with no other writer at work; the interleavings are in `ConfigLock`.
- JobProtocol.PublicationIsVisible: SQL text, row decoding and the contract parsers are total predicates on
  records; ISO timestamps are instants, and each transaction reads the clock once.
- The job repository's error for a second active job names that job; the model keeps the kind of error only.
- WorkflowSnapshots.ValidSnapshotsAreSelfCertified: SHA-256 is a parameter, so the statements are about the
  hashed string; conflict messages and their expected and actual details are not modelled.
- CanonicalEquality.CanonicalStringDecidesEquality: values that JSON cannot hold (functions, symbols, big
  integers, cyclic objects) are not modelled, and a raw snapshot that is an array is treated as one without fields.
- `parseAgentEvent` and its payload checks are not modelled: the reducer receives parsed events. Ids and texts of
  the turn are Dafny strings; only markdown and canonical JSON work on UTF-16 code units.
- AgentConfluence.ArrivalsFoldThePrefix: one event per sequence, distinct ids, one scope and no overflow, which is
  what the server promises; `AgentConfluence.OverflowReportedExactly` covers the overflow.
- StreamFraming.ConsumeEventStream: chunks are decoded text; the incremental UTF-8 decoder, fetching, reconnecting
  and the parsing of a dispatched frame's lines are not modelled.
- ProcessOutput.LinesOfWholeText: a run with a line listener; spawning, signals and the decoding of chunks that cut
  a multi-byte character are not modelled, and the statements about whole runs end with the ending.
- Platt scaling, log loss, PR-AUC, drawdown, binned reliability, Sharpe and bootstrap intervals would add
  transcendental functions or repeat the ROC loop's style.
- `highlight.ts`, `parity.ts`, the attestation lifecycle, the generation manifest checks, action gates and the
  evaluation contract are not part of this model.
