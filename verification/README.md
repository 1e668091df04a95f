# A verified model of unitprep-api

unitprep-api prepares self-storage data for import. It finds tenants whose names
are probably misspellings of each other, groups related tenants into households,
joins and checks exported tables, edits Word documents in place, keeps sessions in
memory and in Postgres, and throttles the calls it makes. This project models the
parts of it that are hardest to get right and proves what they promise.

* **Name matching** (`Matching`, `Similarity`, `VariantPairs`): the Ratcliff/Obershelp matcher with
  its rolling table and explicit work stack, against its recursive definition; the
  character bound that prunes the quadratic pass, and that pruning changes nothing.
  Floating point is any monotone rounding of the exact ratio that keeps 0 and 1.
* **The expiry sweep** (`Scheduling`, `SweepProtocol`, `SweepCoverage`,
  `SweepQuiescence`, `SweepProgress`, `SweepExamples`, `DurableSweep`): writers, a
  background sweeper and a table as a state machine over all interleavings, and the
  sweep's code as steps of that machine.
* **The rate limiter** (`RateLimiting`, `RateWaiting`), with any number of callers, and
  **the session store** (`SessionStore`, `SessionSweep`), with its two-pass sweep
  interleaved with everything else.
* **Households** (`Households`): union-find with path compression against chains of
  shared evidence.
* **Documents** (`DocxFlatten`, `DocxText`, `DocxReading`, `DocxCells`, `DocxRuns`,
  `DocxEdit`, `DocxReplaced`, `DocxSplice`, `DocxMeaning`, `DocxApply`, `DocxReread`,
  `DocxLostText`): flattening WordprocessingML events into regions of text, and what
  exactly each region then holds; applying a batch of edits to the XML, what the regions
  then say, and reading them back.
* **Tables** (`UnitLink`, `UnitSettled`, `Joining`, `JoinMeaning`, `JoinOffers`, `JoinColumns`,
  `JoinTwice`, `JoinTwiceExamples`): spreading tenants over units, filling blanks from
  other reports, and doing it again.
* **Choosing files** (`FileSelection`, `Suggesting`) and **reporting mismatches**
  (`Comparison`).

`Sorting`, `Images`, `Lists`, `Numbers`, `Text`, `Csv` and `Options` hold what several of these share.
`dafny verify dfyconfig.toml` checks the whole project.

## What turned out not to hold

Each of these has a lemma that shows it at an input or in a run, and one that states
exactly when the promise is kept.

* A row whose write was noted before the deadline but inserted after that sweep's look
  at the table can be left behind (`LateInsertionIsForgotten`). Only rows that such
  insertions left since the latest look can be without a sweep in time
  (`RowsNotLateAreCovered`), and the rows of an idle store are exactly those
  (`IdleTableIsLateRows`). They stay only until the next look: once writes stop the
  sweeper empties the table if and only if it is still to look or there is no such row
  (`SweepingEmptiesTableIff`). A row written in the gap after the deadline is covered
  only by the follow-up sweep, a lifetime after re-arming, not within the minimum
  spacing (`GapRowWaitsForFollowUp`); that is its bound in `RowsNotLateAreCovered`.
* Sweeps can be closer than the minimum spacing when a writer read the clock before the
  previous sweep and takes the lock after it (`StaleClockBreaksSpacing`). A deadline is
  too close if and only if a clock reading behind it was so old when the previous sweep
  began that a lifetime from the reading ends before the spacing (`SpacingBrokenIff`).
* `src/rate_limit.rs:42` says no caller waits longer than one window. Under contention
  one can (`WaitsCanExceedAWindow`): a caller waits longer if and only if as many other
  calls as the limit are granted in the window after its arrival, or the millisecond
  that every sleep lasts at least carries it past the window's end
  (`WaitExceedsWindowIff`).
* A session saved again under its id between the sweep's two passes is removed although
  it is new (`ReplacementIsRemoved`), and a touch does not protect a session when the
  timeout is below the touch granularity (`ShortTimeoutIgnoresTouch`). Those are the only
  cases (`UsedSessionRemovedIff`).
* The overlap check depends on the order of the edits: an insertion listed before a
  replacement starting at the same point is accepted, listed after it is refused
  (`CheckDependsOnOrder`). An accepted list is accepted in every order if and only if it
  holds no such pair (`OrderMattersIffMixed`).
* Edits leave the region reading as if its text had been edited directly if and only if
  no edit reaches over a separator between runs (`EditsReadAsReplacements`,
  `EditOverSeparatorKeepsIt`).
* Text inserted into a self-closing text element is written after the element and is not
  there on reading the document again (`SelfClosingElementLosesText`). A region reads back
  as the edits intended if and only if none of them puts text into such an element
  (`EditedDocumentReadsBack`).
* Text in a table cell that the document never closes is in no region
  (`OpenCellLosesText`); every other text element is a run of exactly one
  (`DocxCells.EveryTextInOneRegion`).
* Merging the same files again can differ when link files are among them: a joined file
  that gives a row a tenant the link file knows at another unit makes the second merge
  move it (`OfferedTenantMoves`). With one link file merging again changes nothing if and
  only if the merged file is settled, each linked tenant's rows standing together, one for
  each of its units in order (`MergeAgainIff`); so it is unless a row without a linked
  tenant is offered one (`MergeWithLinkIsIdempotent`). Two link files that disagree about
  a tenant can make the second merge fail (`TwoLinksRefusedAgain`).
* The list of differing values shows "(blank)" twice when a record's own value reads
  "(blank)" beside records that are blank (`BlankListedTwice`), and only then
  (`ValuesDifferUnlessAmbiguous`).
* Without a primary file the suggestion can depend on the order of the files
  (`OrderMattersWithoutPrimary`): the order is irrelevant if and only if there is a primary
  or all recognized files are of one system (`OrderIrrelevantIff`).

## Model

| member | source | states |
|---|---|---|
| `Matching.IndexPositions` | dedup/src/similarity.rs:65-68 | the index maps each character to its positions in ascending order, all of them and nothing else |
| `Matching.LongestMatch` | dedup/src/similarity.rs:91-131 | the block is common, inside the window, no common block in the window is longer, and among the longest it starts earliest in the first string, then in the second |
| `Matching.BestIsLongest` | dedup/src/similarity.rs:91-131 | the best run over all cells visited in sweep order is that longest block |
| `Matching.TotalMatched` | dedup/src/similarity.rs:64-86 | the explicit stack terminates and computes the recursive total, although empty sides are never pushed; that is the size of a matching of the two strings |
| `Matching.TotalIsMatching` | dedup/src/similarity.rs:61-86 | the total of a window is the size of a matching: common blocks, in order and apart on both sides, such that between any two of them, and between any one and the ends, the longest and earliest common block is one of them, and where none stands nothing is common |
| `Matching.MatchingUnique` | dedup/src/similarity.rs:61-131 | a window has only one such list of blocks |
| `Matching.TotalWithinShared` | dedup/src/similarity.rs:175-180 | the matched total never exceeds the number of characters the two sides share, counted with multiplicity |
| `Matching.FullMatch` | dedup/src/similarity.rs:50-59 | everything is matched on both sides if and only if the strings are equal |
| `Similarity.ExactRatioRange` | dedup/src/similarity.rs:50-59 | the exact ratio lies in [0, 1] and is 1 if and only if the strings are equal |
| `Similarity.SequenceMatcherRatio` | dedup/src/similarity.rs:50-59 | the computed ratio is the rounded exact ratio, and exactly 1 for two empty strings |
| `Similarity.RatioIsMatchedShare` | dedup/src/similarity.rs:44-59 | the exact ratio times the length of both strings is twice the size of their matching |
| `Similarity.SameWordsSortAlike` | dedup/src/similarity.rs:38-42 | strings with the same words, each as often, have the same sorted form |
| `Similarity.SortedForm` | dedup/src/similarity.rs:38-42 | the sorted form has exactly the words of the string, each as often, in the order of strings, with one space between neighbours and nothing else |
| `Similarity.SameWordsAreSimilar` | dedup/src/similarity.rs:30-36 | names with the same multiset of words have similarity exactly 1 |
| `Similarity.NameSimilarity` | dedup/src/similarity.rs:30-36 | the result is at least the rounded straight ratio and the rounded word-sorted ratio, and one of the two |
| `Similarity.MultisetIntersection` | dedup/src/similarity.rs:159-173 | the two-pointer merge over sorted characters counts exactly the shared characters |
| `Similarity.RatioUpperBound` | dedup/src/similarity.rs:181-187 | the computed bound is the rounded shared-character ratio |
| `Similarity.BoundIsSharedShare` | dedup/src/similarity.rs:175-187 | the exact bound times the length of both strings is twice the number of shared characters |
| `Similarity.BoundAboveRatio` | dedup/src/similarity.rs:175-187 | the bound is never below the ratio, before and after rounding |
| `Similarity.CouldReachThreshold` | dedup/src/similarity.rs:189-193 | a pair is kept if and only if one of its two bounds reaches the threshold |
| `Similarity.PruningIsSound` | dedup/src/similarity.rs:189-193 | a pair whose similarity reaches the threshold is never pruned |
| `Similarity.BuildProfiles` | dedup/src/similarity.rs:213-219 | one profile per group with a name, none for a blank one |
| `Similarity.ComparePairsOf` | dedup/src/similarity.rs:222-259 | one outer iteration finds what the unpruned comparison with every later group finds |
| `Similarity.FindTypoVariantCandidates` | dedup/src/similarity.rs:207-269 | the pruned pass returns what comparing every pair with the real matcher returns, sorted |
| `Similarity.CandidatesAreThePairs` | dedup/src/similarity.rs:207-269 | an entry is in the result if and only if it is a pair of an earlier and a later group with non-blank names reaching the threshold; best ratio first, equal ratios in the order of the double loop |
| `VariantPairs.CandidatesListVariants` | dedup/src/similarity.rs:207-269 | the result lists every pair of groups whose non-blank names reach the threshold once, with their ratio and no other pair, by falling ratio and pairs of equal ratio by their first and then their second group |
| `Scheduling.SweepSchedule.constructor` | core/src/sweep_schedule.rs:45-48 | a new schedule has no deadline, no gap and no stored wake-up |
| `Scheduling.SweepSchedule.LowerTo` | core/src/sweep_schedule.rs:57-71 | the deadline becomes the earlier of the old one and the new, nothing else changes, and the sweeper is woken if and only if the deadline changed |
| `Scheduling.SweepSchedule.NoteWrite` | core/src/sweep_schedule.rs:78-100 | a deadline that has passed stays and the gap is marked; otherwise it becomes the earlier of the old one and the expiry; the sweeper is woken if and only if the deadline changed |
| `Scheduling.SweepSchedule.BeginSweep` | core/src/sweep_schedule.rs:104-108 | the schedule is forgotten and the gap mark is reported once |
| `SweepProtocol.RunsAreSafe` | core/src/durable_session_store.rs:231-305 | every step of writers, sweeper and database keeps the safety invariant: no lost wake-up, no early sweep, times in the past, and every deadline at the spacing or at a lifetime from the clock reading behind it |
| `SweepProtocol.SweepsAreNeverMissedOrEarly` | core/src/durable_session_store.rs:231-245 | in every run from a fresh store: a sweeper waiting for no deadline or a later one has a wake-up stored or about to be; a sweep begins only once the clock has reached the deadline; it begins at least the spacing after the previous one, or a lifetime after the earliest clock reading behind a deadline set since |
| `SweepProtocol.SpacingBrokenIff` | core/src/durable_session_store.rs:27-34 | in every run, the deadline is closer to the previous sweep than the spacing (or a lifetime, if that is less) if and only if a clock reading behind it lies that much before that sweep began |
| `SweepProtocol.RowsGoIff` | core/src/durable_session_store.rs:594-611 | a step that does not write or drop a row removes it if and only if it is a deletion and the row has been idle for longer than the timeout; otherwise the row is unchanged |
| `SweepProtocol.LiveRowsSurvive` | core/src/durable_session_store.rs:594-611 | in every run that does not write or drop it, a row not idle for longer than the timeout at the end is there unchanged |
| `SweepProtocol.RowsAreWrites` | core/src/durable_session_store.rs:268-304 | in every run each row stands for a write of its own session, with the last access and clock reading of that write: one of the run, or one the table started with |
| `SweepCoverage.RowsAreCovered` | core/src/durable_session_store.rs:537-581 | in every run with timely insertions, failed sweeps included, whenever no sweep is in progress each row has a sweep scheduled within its bound |
| `SweepCoverage.RowsNotLateAreCovered` | core/src/durable_session_store.rs:537-581 | in every run, overtaken insertions and failed sweeps included, whenever no sweep is in progress each row has a sweep scheduled within its bound, unless an insertion that a look overtook left it since the latest look |
| `SweepQuiescence.RipeSweepDeletes` | core/src/durable_session_store.rs:594-611 | a sweep beginning when a row is ripe deletes at least one row |
| `SweepQuiescence.LaterSweepsDelete` | core/src/durable_session_store.rs:537-611 | once writes have stopped, every sweep after the first that starts on a non-empty table deletes a row |
| `SweepQuiescence.SweepsRunOut` | core/src/durable_session_store.rs:537-611 | after any run, once writes stop and sweeps succeed, at most rows + 2 more sweeps begin, and after that many the store is idle |
| `SweepQuiescence.IdleStaysIdle` | core/src/sweep_schedule.rs:104-108 | an idle store sweeps nothing, and keeps its rows, until the next write |
| `SweepProgress.SweepingComesToRest` | core/src/durable_session_store.rs:231-245 | after any run, once no write is in flight the sweeper can always proceed on its own until nothing is scheduled; the table is then empty if it was still to look, and otherwise holds exactly the rows overtaken insertions had left since the latest look |
| `SweepProgress.RestLeaves` | core/src/durable_session_store.rs:187-222 | after any run, whatever happens then without further writes, failed sweeps and deletions included: at rest the table is empty if the sweeper was still to look, and otherwise, if no row is deleted, holds exactly those rows |
| `SweepProgress.SweepingEmptiesTableIff` | core/src/durable_session_store.rs:187-222 | after any run, the sweeper empties the table once writes stop if and only if it is still to look or no overtaken insertion has left a row since the latest look |
| `SweepProgress.IdleTableIsLateRows` | core/src/durable_session_store.rs:215-222 | in whatever run, the rows of an idle store are exactly those that overtaken insertions left since the latest look |
| `SweepProgress.IdleTableIsEmpty` | core/src/durable_session_store.rs:215-222 | in a run with timely insertions an idle store holds no rows |
| `SweepExamples.LateInsertionIsForgotten` | core/src/sweep_schedule.rs:78-108 | a run in which an untimely insertion leaves a row with nothing scheduled |
| `SweepExamples.GapRowWaitsForFollowUp` | core/src/durable_session_store.rs:553-571 | a run in which a gap row is covered only by the follow-up sweep |
| `SweepExamples.StaleClockBreaksSpacing` | core/src/durable_session_store.rs:287-304 | a run in which a writer's old clock reading schedules a sweep too close to the last |
| `DurableSweep.DurableTable.DeleteExpiredRows` | core/src/durable_session_store.rs:594-611 | a row stays if and only if it has not been idle for longer than the timeout, unchanged, and the number of rows gone is reported |
| `DurableSweep.DurableTable.OldestRow` | core/src/durable_session_store.rs:584-592 | the oldest remaining row's time, or none for an empty table |
| `DurableSweep.DurableTable.Rearm` | core/src/durable_session_store.rs:553-571 | re-arming is the protocol's arm and follow-up steps |
| `DurableSweep.DurableTable.SweepOnce` | core/src/durable_session_store.rs:537-581 | one sweep takes the store through the steps of a whole sweep, or up to the query that fails (the deletion or the look) and its failure step |
| `DurableSweep.SweepIsRun` | core/src/durable_session_store.rs:537-581 | the code's effect is a run of the protocol, so what every run keeps holds of the code |
| `DurableSweep.FailedSweepIsRun` | core/src/durable_session_store.rs:546-580 | so is the effect of a sweep that fails at either query |
| `RateLimiting.RateLimiter.constructor` | src/rate_limit.rs:32-39 | a new limiter has granted nothing |
| `RateLimiting.RateLimiter.TryAcquire` | src/rate_limit.rs:46-75 | one pass under the lock evicts, then grants or tells how long to wait |
| `RateLimiting.RateLimiter.Acquire` | src/rate_limit.rs:43-78 | with nobody else about: at most one sleep, of at most one window, granted as soon as there is room |
| `RateLimiting.FirstPass` | src/rate_limit.rs:46-76 | a lone caller is granted on its first pass if there is room, else on the second, exactly after the sleep it was told |
| `RateLimiting.EvictedIsSuffix` | src/rate_limit.rs:46-75 | right after eviction the queue is sorted and holds exactly the grants younger than one window |
| `RateLimiting.WindowBound` | src/rate_limit.rs:43-78 | for any number of callers, no interval of one window's length, wherever it starts, holds more than the limit of grants |
| `RateLimiting.GrantedExactlyWhenRoom` | src/rate_limit.rs:46-75 | a pass is granted if and only if fewer than the limit of grants are younger than a window; otherwise the wait ends when the oldest of them leaves it |
| `RateLimiting.Burst` | src/rate_limit.rs:124-136 | the n-th of back-to-back calls is granted exactly n / limit windows after the first |
| `RateLimiting.NobodyServedBeforeWake` | src/rate_limit.rs:46-75 | with a full queue nobody is served, and nothing changes, before the wake time |
| `RateLimiting.QueueAtWake` | src/rate_limit.rs:46-75 | at the wake time the freed slots go to the first passes, one each |
| `RateLimiting.WaiterServedIff` | src/rate_limit.rs:43-78 | a waiter is served at its first wake time if and only if fewer callers than freed slots passed at that moment before it |
| `RateWaiting.ToldBeyondWindowIff` | src/rate_limit.rs:46-75 | a refused caller is told to come back more than a window after its arrival if and only if the limit of calls was granted since it arrived, none of them a window old |
| `RateWaiting.WaitExceedsWindowIff` | src/rate_limit.rs:42-78 | in every run, a caller is granted more than a window after arriving if and only if the limit of other calls is granted in that window, or the least sleep carries it past the end |
| `RateWaiting.WaitsCanExceedAWindow` | src/rate_limit.rs:42-78 | a run of three callers at once on a limit of one: the last is told to wait a window, then another, and is granted more than a window after arriving |
| `SessionStore.InMemorySessionStore.Save` | core/src/in_memory_session_store.rs:225-247 | the session is stored under its id with the current time, counted as created only if the id is new |
| `SessionStore.InMemorySessionStore.GetHandle` | core/src/in_memory_session_store.rs:249-280 | the stored session is found; its time becomes now if it is a touch granularity old or in the future, and stays otherwise; nothing else changes |
| `SessionStore.InMemorySessionStore.Delete` | core/src/in_memory_session_store.rs:282-290 | the id goes, and is counted only if it was there |
| `SessionStore.InMemorySessionStore.ScanExpiredCandidates` | core/src/in_memory_session_store.rs:147-158 | the candidates are exactly the stored sessions idle for longer than the timeout |
| `SessionStore.InMemorySessionStore.RemoveStillExpired` | core/src/in_memory_session_store.rs:166-212 | exactly the candidates that are still idle for longer than the timeout and still stored go, and are counted |
| `SessionStore.InMemorySessionStore.CleanupExpired` | core/src/in_memory_session_store.rs:131-140 | an uninterrupted sweep keeps a session if and only if it has not been idle for longer than the timeout |
| `SessionSweep.CountersAddUp` | core/src/in_memory_session_store.rs:93-109 | in every interleaving created = stored + deleted + expired + removed but not yet counted |
| `SessionSweep.UsedSessionRemovedIff` | core/src/in_memory_session_store.rs:131-222 | with a timeout of at least the touch granularity, a session used since the sweep read its clock is removed if and only if it replaced the one scanned |
| `SessionSweep.ReplacementIsRemoved` | core/src/in_memory_session_store.rs:166-212 | a run in which a new session under an old id is removed |
| `SessionSweep.ShortTimeoutIgnoresTouch` | core/src/in_memory_session_store.rs:249-280 | for every timeout below the touch granularity, a run in which a touched session is removed |
| `Households.UnionFind.Find` | dedup/src/relatedness/household.rs:40-57 | the root is returned, every node on the key's path then points straight at it, no other node moves, and no key's root changes; a new key becomes its own root |
| `Households.UnionFind.Union` | dedup/src/relatedness/household.rs:59-65 | keys are together afterwards if and only if they were before, or one was with each argument |
| `Households.UnionAll` | dedup/src/relatedness/household.rs:78-82 | joining neighbouring keys of all evidence connects all keys of each piece and no others |
| `Households.RootsAreHouseholds` | dedup/src/relatedness/household.rs:74-98 | two tenants have the same root if and only if a chain of shared evidence connects them |
| `Households.Bucket` | dedup/src/relatedness/household.rs:85-91 | each bucket holds exactly the evidence about one connected set of tenants, in order |
| `Households.AboutIs` | dedup/src/relatedness/household.rs:85-91 | the evidence about a tenant is all evidence whose tenants are connected with it, in the order given |
| `Households.GroupIntoHouseholds` | dedup/src/relatedness/household.rs:74-98 | each household is everyone connected with its root and all evidence about them, no tenant is in two, and only households over the size limit are left out |
| `Households.SameHousehold` | dedup/src/relatedness/household.rs:74-98 | connected tenants have the same household |
| `DocxFlatten.ExtractFlatText` | docx-surgeon/src/read.rs:290-574 | the event loop computes the fold of the event handler over the stream |
| `DocxReading.RegionsReadTheStream` | docx-surgeon/src/read.rs:290-574 | the body is what the events outside cells write, and the cells what the events in each closed cell write: a newline between paragraphs and after a text box, a tab outside tab stops, the text of text elements, in stream order; each run, underlined tab and insertion point is the one the events describe |
| `DocxReading.ClosedCellsAre` | docx-surgeon/src/read.rs:290-574 | the cells are exactly those that are opened and closed, each once, in the order of their closing |
| `DocxReading.BetweenRuns` | docx-surgeon/src/read.rs:270-289 | between neighbouring runs of a region stands exactly what the events between their text elements write |
| `DocxFlatten.RegionsAreWellFormed` | docx-surgeon/src/read.rs:290-574 | in every region of every stream: runs in bounds, ordered and apart; only newlines and tabs between them; recorded tabs are tabs, in order |
| `DocxFlatten.FallbackContributesNothing` | docx-surgeon/src/read.rs:315-330 | removing fallback content from the stream changes no region |
| `DocxFlatten.EveryTextCounted` | docx-surgeon/src/read.rs:586-613 | every text element outside fallback content becomes exactly one run, of the body, a finished cell or a cell still open, and there are no other runs |
| `DocxFlatten.ContentRangesApart` | docx-surgeon/src/read.rs:290-574 | the content ranges of any two runs, in one region or two, do not overlap |
| `DocxFlatten.InsertionPointMeansNoText` | docx-surgeon/src/read.rs:453-525 | only a cell without runs or text offers an insertion point |
| `DocxCells.EveryTextInOneRegion` | docx-surgeon/src/read.rs:290-574 | in the regions of every stream a text element is a run as often as it occurs outside fallback content and outside cells never closed |
| `DocxCells.OpenCellLosesText` | docx-surgeon/src/read.rs:348-354 | a stream whose only text lies in a cell that is never closed: no region has a run |
| `DocxRuns.RunsStandForTheirText` | docx-surgeon/src/read.rs:586-613 | in every region of every stream each run's stretch of text is exactly what its text element holds |
| `DocxEdit.CheckNoOverlaps` | docx-surgeon/src/edit/overlap.rs:46-77 | for any edits: accepted if and only if, as listed, every two are apart in the check's sense and neighbours after sorting have different spans; for edits that start no later than they end this is every two having different spans and the earlier-listed ending before the other starts or the other lying strictly before it |
| `DocxEdit.CheckDependsOnOrder` | docx-surgeon/src/edit/overlap.rs:57-74 | an insertion and a replacement at one point are accepted in one order and refused in the other |
| `DocxEdit.OrderMattersForPairIff` | docx-surgeon/src/edit/overlap.rs:57-74 | a pair of edits is treated alike in either order if and only if it is not an insertion and a replacement that start together |
| `DocxEdit.OrderIrrelevantUnlessMixed` | docx-surgeon/src/edit/overlap.rs:46-77 | a list of edits without such a pair is accepted in every order or in none |
| `DocxEdit.OrderMattersIffMixed` | docx-surgeon/src/edit/overlap.rs:46-77 | an accepted list is accepted in every order if and only if it holds no such pair |
| `DocxEdit.SpliceAll` | docx-surgeon/src/edit/fragment.rs:106-124 | the cursor loop yields the text with each range replaced and everything between copied |
| `DocxReplaced.ReplacedIs` | docx-surgeon/src/edit/fragment.rs:106-124 | in the result each replacement stands where its range was and the text between ranges is kept, both moved by what earlier replacements added or took, and nothing else is there |
| `DocxEdit.TouchedRunsAreNeighbours` | docx-surgeon/src/read.rs:110-126 | the runs an edit touches are consecutive |
| `DocxEdit.TouchingIs` | docx-surgeon/src/read.rs:110-126 | a span touches exactly the runs it overlaps, a point exactly the first run that holds it, ends included |
| `DocxSplice.SortCommutes` | docx-surgeon/src/edit/fragment.rs:79-89 | sorting a run's fragments by local start gives the fragments of the sorted edits, in their order |
| `DocxSplice.FragmentsFit` | docx-surgeon/src/edit/fragment.rs:79-89 | the sorted fragments of a run never overlap and stay inside the run, so the cursor never moves back |
| `DocxSplice.RunByRun` | docx-surgeon/src/edit/fragment.rs:25-99 | rebuilding each run on its own is substituting all fragments at once into the region's text |
| `DocxMeaning.FragmentsArePieces` | docx-surgeon/src/edit/fragment.rs:36-71 | the fragments collected run by run are, in order, the pieces of the edits, edit by edit |
| `DocxMeaning.CoveredIsTiled` | docx-surgeon/src/edit/fragment.rs:36-71 | an edit with no separator in its range is exactly tiled by its pieces, its text carried once, by the first |
| `DocxMeaning.EditsReadAsReplacements` | docx-surgeon/src/edit/mod.rs:85-92 | accepted edits, each touching a run, leave the region reading as if all were applied to its text at once (as far as the text goes), if and only if none reaches over a separator |
| `DocxMeaning.EditOverSeparatorKeepsIt` | docx-surgeon/src/edit/fragment.rs:36-71 | an accepted edit over two paragraphs leaves the separator between them |
| `DocxApply.EscapeRoundTrip` | docx-surgeon/src/edit/run_xml.rs:97-108 | escaped text reads back as the text and holds no angle bracket |
| `DocxApply.EscapedIff` | docx-surgeon/src/edit/run_xml.rs:97-108 | escaping leaves a text as it is if and only if it holds no ampersand and no angle bracket |
| `DocxApply.EscapeText` | docx-surgeon/src/edit/run_xml.rs:97-108 | the loop computes that escaping |
| `DocxApply.CollectFragments` | docx-surgeon/src/edit/fragment.rs:31-71 | refused if and only if some edit touches no run; otherwise each run of each region gets exactly its own fragments, in the order of the edits |
| `DocxApply.BuildReplacements` | docx-surgeon/src/edit/fragment.rs:73-98 | one replacement for each edited run and for no other, with its rebuilt text escaped |
| `DocxApply.ApplyEdits` | docx-surgeon/src/edit/mod.rs:85-92 | refused for overlap if and only if some region's edits conflict, refused for a missing run only if an edit touches none, and otherwise the XML changes exactly in the contents of the edited runs |
| `DocxApply.FlattenedIsEditable` | docx-surgeon/src/read.rs:290-574 | the regions of every flattened document meet what applying edits asks: runs well formed, content ranges in bounds and strictly apart over all regions |
| `DocxReread.RegionsReadAsHeld` | docx-surgeon/src/read.rs:290-574 | the stream a reader delivers for the edited XML, stray text after self-closing elements included, flattens to the same regions with each run's text replaced by what its element now holds |
| `DocxReread.EmptyRunRebuilt` | docx-surgeon/src/edit/fragment.rs:73-98 | a run without text is rebuilt without text if and only if no edit puts any into it |
| `DocxReread.EditedDocumentReadsBack` | docx-surgeon/src/edit/mod.rs:60-92 | every region of the edited document, read again, is what the edits intended if and only if none of its edits puts text into a self-closing element |
| `DocxLostText.SelfClosingElementLosesText` | docx-surgeon/src/read.rs:480-525 | text put into the self-closing element of a paragraph's only run is accepted and written, and is not there on reading the document again |
| `Csv.HeaderIndex` | core/src/csv_document.rs:51-56 | the first column whose normalized name equals the normalized name asked for, if any |
| `Csv.SetCell` | dedup/src/unit_link.rs:135-140 | the cell is set, the row padded as far as needed, and no other cell changes |
| `UnitLink.ReadUnits` | dedup/src/unit_link.rs:65-78 | each tenant's distinct non-blank units in file order |
| `UnitLink.ReadTenants` | dedup/src/unit_link.rs:80-102 | unlinked rows kept in order; linked tenants in order of first appearance, each with its rows without exact repeats |
| `UnitLink.UnitsAre` | dedup/src/unit_link.rs:65-78 | a tenant's units are the non-blank units on the link rows with its id, each once, by first occurrence |
| `UnitLink.TenantsAre` | dedup/src/unit_link.rs:80-102 | the linked tenants are those of the main file that hold a unit, each once, by first occurrence |
| `UnitLink.RowsAre` | dedup/src/unit_link.rs:80-102 | a tenant's rows are the rows with its id, exact repeats left out, by first occurrence |
| `UnitLink.UnlinkedAre` | dedup/src/unit_link.rs:80-102 | the rows left alone are all rows of tenants that hold nothing, in order |
| `UnitLink.AttachUnits` | dedup/src/unit_link.rs:48-133 | refused without the columns or when some linked tenant's rows are neither one nor as many as its units; otherwise the unlinked rows, then each linked tenant's block |
| `UnitLink.SpreadRows` | dedup/src/unit_link.rs:104-129 | the loops give the only row once per unit, or the rows and units in step |
| `UnitLink.BlockRows` | dedup/src/unit_link.rs:104-129 | a linked tenant gets exactly one row per distinct unit, in order, each its only row or the row at the unit's place with the unit cell changed and no other |
| `UnitLink.AttachedRowsOf` | dedup/src/unit_link.rs:104-129 | in the result, a linked tenant's rows are exactly its block |
| `UnitLink.AttachedTenants` | dedup/src/unit_link.rs:85-95 | in the result, the unlinked rows are those of the input, verbatim and in order, and the linked tenants are the same |
| `UnitLink.AttachIsIdempotent` | dedup/src/unit_link.rs:48-133 | applying the same link file again succeeds and changes nothing |
| `UnitSettled.AttachChangesNothingIff` | dedup/src/unit_link.rs:80-133 | attaching units succeeds and changes nothing if and only if the unlinked rows come first and each linked tenant's rows stand together, one for each of its units in order |
| `Joining.KeysMeet` | dedup/src/join.rs:26-28 | rows are matched if and only if their trimmed units agree up to case and their names agree word by word up to case |
| `Joining.FirstMatchIsFirst` | dedup/src/join.rs:59-66 | the match for a key is the first row with it, if there is one |
| `Joining.ReadMatches` | dedup/src/join.rs:59-66 | each key maps to the first row with it |
| `Joining.AddColumns` | dedup/src/join.rs:77-84 | a blank column is added at the end for each header not there yet |
| `Joining.FillRow` | dedup/src/join.rs:99-107 | blank cells take the trimmed source value, column by column |
| `Joining.JoinOne` | dedup/src/join.rs:50-109 | one join file applied to every row, or refused without its two columns |
| `Joining.MergeJoined` | dedup/src/join.rs:34-112 | link files first, then the join files in order, refused as soon as one is |
| `JoinMeaning.JoinedAt` | dedup/src/join.rs:50-109 | after one join file each cell is what it was, or, if it was blank, what that file offers |
| `JoinMeaning.MergeSucceedsIff` | dedup/src/join.rs:45-58 | for any files and tables: merging succeeds if and only if the link files attach, the main file then has the two columns to match on, and so has every file that is joined |
| `JoinMeaning.MergeFillsBlanks` | dedup/src/join.rs:34-112 | rows and their order, existing columns and non-blank cells stay; a blank takes the trimmed value from the earliest file whose first matching row is not blank there, or stays |
| `JoinOffers.BlankIff` | dedup/src/join.rs:93-104 | a cell counts as blank if and only if it holds nothing but whitespace |
| `JoinOffers.MergedCellIs` | dedup/src/join.rs:34-112 | a merged cell is the main file's unless that is all whitespace and some file offers a value; then it is the trimmed cell of the first row with the key, in the first file where that is not blank |
| `JoinMeaning.MergeIsIdempotent` | dedup/src/join.rs:34-112 | merging the same files, none of them a link file, again changes nothing |
| `JoinMeaning.LinksComeFirst` | dedup/src/join.rs:34-45 | wherever link files stand among the others, merging is attaching them all and then merging the rest |
| `JoinTwice.MergeAgainIff` | dedup/src/join.rs:34-112 | with one link file among the files, merging again changes nothing if and only if the merged file is settled for it |
| `JoinTwice.MergeWithLinkIsIdempotent` | dedup/src/join.rs:34-112 | so merging again changes nothing unless some row without a linked tenant is offered one by a joined file |
| `JoinTwiceExamples.OfferedTenantMoves` | dedup/src/join.rs:34-112 | a joined file gives a row a tenant that the link file knows at another unit: the second merge differs |
| `JoinTwiceExamples.TwoLinksRefusedAgain` | dedup/src/unit_link.rs:104-129 | one link file gives a tenant one unit, the next gives it two: the first merge succeeds, the second is refused |
| `JoinColumns.MergedColumns` | dedup/src/join.rs:68-84 | for any files and tables: the merged file has the columns of the linked main file, then, file by file and in their order, those of the joined files whose name no earlier column bears |
| `FileSelection.PlanIngest` | dedup/src/file_selection.rs:384-461 | a run is planned if and only if all files are recognized and usable, exactly one is primary, and the joins share its system and differ in format; the planned joins are all join files in upload order; every error given is true of the files |
| `Suggesting.BestSystem` | dedup/src/file_selection.rs:246-258 | the chosen system beats every other by top priority, then number of primaries, then name |
| `Suggesting.PicksPermute` | dedup/src/file_selection.rs:272-289 | the join files picked, one per kind, have the same names in the same order whatever the order of the files |
| `Suggesting.Suggest` | dedup/src/file_selection.rs:227-299 | the suggestion is for the system whose best primary has the highest priority, then with the most primaries, then first by name; it names a primary of it that no other outranks, then of each kind of join file the system has one that none of its kind outranks, best first, with the other primaries as alternatives in rank order; without a primary it shows the first recognized file's system, if any, and selects nothing |
| `Suggesting.SuggestionRecommends` | dedup/src/file_selection.rs:227-299 | the same of every suggestion for the files |
| `Suggesting.SuggestionsRun` | dedup/src/file_selection.rs:227-299 | the files behind every non-empty suggestion are files of the folder that a run can be planned with |
| `Suggesting.SuggestionIgnoresOrder` | dedup/src/file_selection.rs:246-298 | with a primary among them, files in any order get the same suggestion, also when names and priorities tie |
| `Suggesting.OrderIrrelevantIff` | dedup/src/file_selection.rs:227-299 | files get the same suggestion in every order if and only if there is a primary among them or all recognized ones are of one system |
| `Suggesting.OrderMattersWithoutPrimary` | dedup/src/file_selection.rs:239-244 | two supporting files of different systems: each order shows the system of its first file |
| `Text.WordsOfJoin` | dedup/src/normalization.rs:92-94 | words joined by single spaces read back as the same words, so collapsing whitespace loses nothing else |
| `Text.WordsAtWhitespace` | dedup/src/normalization.rs:92-94 | a text may be cut at any whitespace without changing its words |
| `Text.TrimCuts` | dedup/src/join.rs:26-28 | trimming takes off whitespace at both ends, all of it and nothing else |
| `Text.StringLeqIff` | dedup/src/similarity.rs:38-42 | strings are ordered by prefix, then by the first character in which they differ |
| `Comparison.KeysIgnoreTrimming` | dedup/src/comparison.rs:128-136 | for every field kind, a value and its trimmed form have the same key |
| `Comparison.BlankKeyIff` | dedup/src/comparison.rs:128-136 | a key is blank if and only if the value is empty, or is a placeholder in a plain field |
| `Comparison.PhoneCharacter` | dedup/src/normalization.rs:102-104 | a phone number is read character by character, digits kept and everything else dropped |
| `Comparison.SamePhoneIff` | dedup/src/normalization.rs:96-104 | two phone numbers compare equal if and only if both are empty, or neither is and their digits agree in order |
| `Comparison.SamePlainIff` | dedup/src/normalization.rs:72-94 | two plain values compare equal if and only if both are empty or placeholders, or neither is and their words agree up to case |
| `Comparison.AddressCharacter` | dedup/src/normalization.rs:106-122 | an address is read character by character: periods go, letters, digits, underscores and whitespace stay, anything else becomes a space |
| `Comparison.SameAddressIff` | dedup/src/normalization.rs:106-136 | two addresses compare equal if and only if both are empty, or neither is and their words agree up to case, punctuation and the spelling of suffixes |
| `Comparison.ListDistinctValues` | dedup/src/comparison.rs:81-98 | the loop over a sorted map computes the list of distinct values, blank last |
| `Comparison.ListUnitsByValue` | dedup/src/phrasing.rs:141-163 | the loop over a sorted map computes the values with their units, blank last |
| `Comparison.FlaggedIffTwoValues` | dedup/src/comparison.rs:167-178 | a field is flagged if and only if its list has at least two entries |
| `Comparison.ListingsAgree` | dedup/src/phrasing.rs:141-163 | the report's list equals, in order, the values the sentence is made of |
| `Comparison.ClausesPartition` | dedup/src/phrasing.rs:141-163 | there is one clause per distinct key, listing, sorted, exactly the units of the records with that key |
| `Comparison.ShownIsFirst` | dedup/src/comparison.rs:81-122 | a key is shown as the trimmed value of its first record, or as blank |
| `Comparison.ListedInOrder` | dedup/src/comparison.rs:138-143 | blank is listed after all other values, which stand in the order of strings |
| `Comparison.OwnValueFirst` | dedup/src/phrasing.rs:141-163 | of two clauses shown alike, the one of a record's own value comes before the blank one |
| `Comparison.SentenceNamesEveryUnit` | dedup/src/phrasing.rs:141-163 | over all clauses each unit is named exactly as often as records have it |
| `Comparison.ValuesDifferUnlessAmbiguous` | dedup/src/comparison.rs:81-122 | the listed values are all different if and only if no record's own value stands for "(blank)" beside blank records |
| `Comparison.BlankListedTwice` | dedup/src/comparison.rs:81-122 | a record reading "(blank)" beside an empty one: "(blank)" is listed twice |

## Left out

- Postgres, tokio, locks, zip and XML parsing are a map of rows, one stored wake-up,
  atomic steps and a stream of events; byte offsets in the events are arbitrary but
  ordered.
- Lower-casing, alphanumeric characters, header normalization and the street-suffix table
  are arbitrary functions; where two fixed header names must differ this is required.
- Floating point is any monotone rounding that keeps 0 and 1; the threshold is compared
  after rounding.
- Matching.LongestMatch: the window's bounds are natural numbers without a machine width.
- DocxApply.ApplyEdits: which region and spans an error names is not modelled, only which
  kind of error is given; edits name regions the document has, and start no later than
  they end.
- DocxApply.CollectFragments: edits start no later than they end; the source takes a span
  given backwards inside a run, repeating the text between its ends.
- DocxMeaning.EditsReadAsReplacements: the same; a span given backwards names no range of
  text to replace.
- DocxReread.EditedDocumentReadsBack: how a parser cuts the spliced XML into events is a
  premise: the same events, contents as written and unescaped, and further events where
  text was written after a self-closing element. The escaping is proved to read back.
- UnitLink.AttachUnits: error texts are not modelled.
- Comparison.SameAddressIff: the suffix table spells words as words, as the source's does.
- JoinMeaning.MergeFillsBlanks: rows as long as the header, which is how files are parsed
  (`core/src/parsing/csv.rs:60-63`), and headers that differ after normalization; for
  files that repeat a header only success, columns and the method's own contract are stated.
- JoinOffers.MergedCellIs: the same; files without link files.
- JoinMeaning.MergeIsIdempotent: the same; files without link files.
- JoinTwice.MergeAgainIff: the same; one link file. For several only a failing input is given.
- FileSelection.PlanIngest: guidance texts and near misses are not modelled.
- Comparison.ListUnitsByValue: one field at a time; the table that gives each field its
  kind is not modelled, both listings are taken to use the same kind.
- Underlined edits, text-box growth, group blanks and writing into empty table cells are
  other edit kinds built on the same fragments.
- Durable deletes racing writes, and two rehydrations of one id, are unordered in the
  source; no claim is made about them.
- HTTP handlers, sign-in, roles, audit logs, note wording and geometry would only add
  easy members.
