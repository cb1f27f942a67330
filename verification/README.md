# Komika server: a verified model of its protocols

Komika is a manga server. What it promises a reader rests on a handful of stateful protocols and a
few parse and encode routines, and this project models those and proves what they promise: the
sliding-window walk over the MangaDex catalogue and the permanent marker its backfill latches, the
seed sweep and the chapter sweep, the rate limiter, the readable-date drain, the Browse query
compiler with its two-phase pager and its memo, the two-database cover protocol with its garbage
collector and its warmer, the dedup ladder, the discovery diff, chapter labels and view counts.

Run `dafny verify dfyconfig.toml` in this directory.

## How the model is built

- **State machine first.** A protocol is a function from a state and one event to the next state.
  What the process cannot decide is in the event: what a request returns, which record parses, which
  read or write fails, when a budget runs out, when a future is dropped, when the process dies. A
  theorem over all runs quantifies over all sequences of events.
- **The program's own form beside it.** Where the source updates fields or buffers in a loop there
  is a class or a method with that loop, and its postcondition equates the new state with the state
  machine's: `BackfillSync.Catalogue`, `CatalogueSync.Mirror`, `TokenBuckets.TokenBucket`,
  `Views.ViewStore`, `Discovery.Snapshots`, `BrowseMemo.CountMemo`, `CoverSweep.CoverStore`,
  `CoverWarmer.Warmer`, and the methods of `BrowseFilter`, `BrowseKey`, `BrowsePager`,
  `ChapterLabels`, `ChapterSweep`, `ReadableDrain` and `DedupLadder`.
- **Tables are maps and sequences**, scores and token counts are reals, chapter numbers are doubles
  whose product with 100 is itself rounded to a double, and text is a sequence of Unicode scalar values ordered as the
  program orders its UTF-8 bytes.

| files | what they are about |
|---|---|
| `Upstream` | the listing the sweeps walk: windows, slices, cursors of one second's precision |
| `Backfill`, `BackfillSafety`, `BackfillPasses`, `BackfillHanded`, `BackfillGrowth`, `BackfillTermination`, `BackfillAnswers`, `BackfillProgress`, `BackfillLimits`, `BackfillSync` | the one-shot gap backfill: machine, invariant, runs over passes, what a marker can lack, a catalogue that grows between passes, termination, what a pass answers and what it brings, the inputs it does not survive, the program's loops |
| `CatalogueSweep`, `CatalogueCycles`, `CatalogueIncrements`, `CatalogueProgress`, `CatalogueSync`, `ChapterSweep` | the seed sweep, runs over its cycles, the cycles after the latch, what each of them brings, the program's loops, and the chapter sweep's latch and cursor |
| `TokenBucket`, `ReadableDrain` | the rate limiter and the cursorless drain |
| `BrowseFilter`, `BrowsePager`, `BrowseListing`, `BrowseKey`, `Memo`, `BrowseMemo` | filter compiler, pager, what a reader sees of each sort, memo key, memo and its runs, the memo of Browse totals |
| `CoverProtocol`, `CoverSweep`, `CoverWarmer`, `StampText` | covers in two databases, the sweep of orphans, the rotating warmer, times compared as text |
| `DedupScore`, `Dedup` | likeness scores and the merge ladder |
| `Discovery`, `Views` | the rank diff and its poll, view windows |
| `Doubles`, `ChapterLabel`, `ChapterLabelRoundTrip` | rounding to 53 bits, chapter labels, what their text and their keys say |
| `Ordering`, `Text`, `Wrappers` | sorting by a strict total order, trimming and decimals, the option type |

## What the code does that its comments do not say

Each of these is a lemma that exhibits the input or the family of inputs, beside the theorem that says
exactly when the code does keep the promise.

- A pass budget or a page error that ends a window mid-second falls through to the rule that steps to
  the next second, so a backfill pass can step over a second with far fewer than 9,900 records, stay
  clean and latch the marker (`BackfillLimits.BudgetStopLosesARecord`). Without such a hasty step a marker
  lacks none (`BackfillPasses.MarkerMeansComplete`), and among clean passes it lacks exactly the records
  no pass was handed (`BackfillHanded.CleanMarkerLoses`).
- A dirty backfill pass whose rewind does not happen, because the pass errored, the process died or
  the write failed, lets a later clean pass latch the marker over the loss
  (`BackfillLimits.FailedRewindLosesARecord`). With every dirty pass rewound it cannot
  (`BackfillPasses.MarkerMeansComplete`, `BackfillPasses.MarkerMeansAccounted`), and in any case the marker is complete exactly when all that
  was handed over landed at least once (`BackfillHanded.MarkerCompleteIffHandedLanded`).
- `sync_catalogue` believes a fourth empty page and latches the seed
  (`CatalogueSync.EmptyPagesLatchOverALoss`), and so does a window without a readable timestamp
  (`CatalogueCycles.StuckSeedLatches`). A seed that is withheld resumes past what it dropped
  (`CatalogueSync.WithheldSeedResumesPastTheDrop`), as the comment in `run_one_cycle` does say. A seed
  latched at the end of upstream is complete over any cycles that dropped and failed nothing
  (`CatalogueCycles.LosslessCyclesLand`), and over all cycles exactly when all that was handed over landed
  (`CatalogueCycles.SeedCompleteIffHandedLanded`).
- The chapter sweep's comment says the cursor never moves past a record that was not landed; a later
  chapter of the same window moves it (`ChapterSweep.CursorMovesPast`, `ChapterSweep.SkippedChapterIsPassedOver`).
- `trigger_due_now` swallows failed updates, so trigger-then-snapshot is at least once for attempts
  and not for wake-ups: once the order is stored, a mover is awake exactly when that one update took
  (`Discovery.FailedWakeIsForgotten`).
- A blank upstream date is counted as a date upstream supplied (`ReadableDrain.BlankDateCountsAsSupplied`).
- The external-id rung of the dedup ladder returns before the split guard (`DedupLadder.ExternalIgnoresSplits`).
- A chapter name that is nothing but an insane number is printed as it stands
  (`ChapterLabelRoundTrip.InsanePrintedIff`).
- Two decimals round the exact number, halves to even, and the grouping key rounds a product that is itself
  rounded, halves away from zero. So a chapter prints like the row below its own exactly when it is halfway
  above an even hundredth or lies below a half to which its product is rounded up
  (`ChapterLabelRoundTrip.TextIsOfKeyUnlessTie`, `ChapterLabelRoundTrip.TiePrintsLikeAnotherRow`): 10.125 is of
  the first kind, 2.675 of the second. Whole hundredths, and all numbers up to 5,000 farther from a half than
  the product is off, print what they are keyed on (`ChapterLabelRoundTrip.TextIsOfKeyAwayFromHalves`).
- The memo's count and its store are two steps, and so are a refresh and its clear, so a count taken
  before a refresh can be served after it (`Memo.LateStoreIsStale`, `Memo.ServedExactIffNotStale`).
- Startup reconciliation clears pointers only when the covers database is empty; partial loss is not
  reconciled (`CoverProtocol.RestartReconciles`). A pointer can fall behind its blob when two puts overlap
  or a crash falls between the two writes (`CoverProtocol.VersionsMayCross`, `CoverProtocol.CrashTears`),
  and not otherwise (`CoverProtocol.VersionsAgree`).

## Assumptions

- Upstream does not change while one walk runs, and the sequences of passes and cycles fix it throughout,
  except that `BackfillGrowth` lets it grow at its end between passes and `CatalogueIncrements` lets each cycle
  meet its own listing; its `total` counts the window; a page is some prefix of
  the slice asked for, the empty prefix included; times are compared at a second's precision.
- A lock-contended write is one write with its final outcome.
- Ids of works are never minted twice. The covers database survives a crash whole or is lost whole,
  except where a lemma says otherwise.
- Title and description similarities lie between 0 and 1, and a non-empty title is fully similar to itself.

## Model

| member | source | states |
|---|---|---|
| `Upstream.NextWindowAdvances` | apps/server/src/mangadex.rs:2108-2122 | whichever rule applies, slide or one-second step, the next window opens strictly later in seconds and no earlier in the listing |
| `Backfill.CloseWindow` | apps/server/src/mangadex.rs:2108-2155 | closing a window changes neither the spine, the marker nor the counters; it opens the next window at its start, storing its cursor or keeping the old one, or ends the pass and stores nothing |
| `Backfill.Step` | apps/server/src/mangadex.rs:1921-2107 | one reply: the offset never leaves the listing and the marker is never touched by the walk |
| `BackfillSafety.PageLands` | apps/server/src/mangadex.rs:1981-2079 | after a page every record it handed over is in the spine unless the outcome is dirty |
| `BackfillSafety.CloseWindowSound` | apps/server/src/mangadex.rs:2108-2155 | whatever ended the window, everything before the new cursor is in the spine or belongs to a second noted as stepped over |
| `BackfillSafety.StepSound` | apps/server/src/mangadex.rs:1916-2156 | every turn keeps the invariant: a clean outcome means everything before the walk's position and before the stored cursor is accounted for |
| `BackfillPasses.RunPassSound` | apps/server/src/mangadex.rs:2189-2295 | one scheduled pass keeps the stored state sound unless it was dirty and not rewound |
| `BackfillPasses.MarkerMeansAccounted` | apps/server/src/mangadex.rs:1901-2295 | over any sequence of passes in which every dirty pass was rewound, everything before the stored cursor is accounted for, and once the marker is latched every upstream record is in the spine or in the tail of a stepped-over second |
| `BackfillPasses.StepHarmless` | apps/server/src/mangadex.rs:2098-2122 | a turn that is not hasty steps over a second only behind a full window of it or at its end, whatever ended the window |
| `BackfillPasses.MarkerMeansComplete` | apps/server/src/mangadex.rs:1901-2295 | over any passes, spent budgets, page errors and resumptions included: if every dirty pass was rewound, no clean one left a second hastily and no second holds more than 9,900 records, a latched marker means every upstream record is in the spine |
| `BackfillHanded.PassesWalk` | apps/server/src/mangadex.rs:1901-2295 | over any passes at all, rewound or not, everything before the stored cursor was handed over or lies in a stepped-over tail, and once the marker is latched everything |
| `BackfillHanded.MarkerCompleteIffHandedLanded` | apps/server/src/mangadex.rs:2254-2293 | without a hasty turn, and rewound or not, a latched marker covers every upstream record if and only if every record handed over landed at least once |
| `BackfillHanded.CleanMarkerLoses` | apps/server/src/mangadex.rs:1901-2295 | over passes that all came out clean a record is missing behind a marker if and only if no pass was ever handed it, and with no crowded second that needs a hasty turn |
| `BackfillGrowth.GrowthKeepsCursor` | apps/server/src/mangadex.rs:1901-1914 | records appended upstream between passes leave true what the stored cursor says of the records before it |
| `BackfillGrowth.MarkerMeansAccountedOver` | apps/server/src/mangadex.rs:1901-2295 | over passes that each meet a longer catalogue, every dirty one rewound, a set marker was latched by one of the passes and accounts for all of the catalogue that very pass met |
| `BackfillGrowth.LatchedOnce` | apps/server/src/mangadex.rs:2189-2302 | at most one pass latches the marker, and no later pass changes anything |
| `BackfillLimits.IngestedIsGrowth` | apps/server/src/mangadex.rs:2056-2079 | the spine grows by exactly the records a pass reports as ingested |
| `BackfillLimits.ClosingPassesOver` | apps/server/src/mangadex.rs:2108-2122 | closing a window passes over unwalked records if and only if it steps over a second it has not finished |
| `BackfillLimits.FailedRewindLosesARecord` | apps/server/src/mangadex.rs:2274-2293 | two records and two passes on which an unrewound dirty pass ends in a marker over a lost record |
| `BackfillLimits.BudgetStopLosesARecord` | apps/server/src/mangadex.rs:2098-2122 | a crowded second and a spent budget on which a clean pass latches the marker over a lost record |
| `BackfillTermination.StepIsFewer` | apps/server/src/mangadex.rs:1916-2156 | each turn of a walking pass strictly decreases the measure of seconds left, records left and retries left |
| `BackfillTermination.PassEnds` | apps/server/src/mangadex.rs:1916-2156 | whatever each request returns, a number of requests known at the start ends the pass |
| `BackfillTermination.EveryPassEnds` | apps/server/src/mangadex.rs:1901-2156 | from any store and in any world a pass ends within that bound |
| `BackfillTermination.RequestsStayBelowCeiling` | apps/server/src/mangadex.rs:24-30 | no request of any run asks for an offset plus a page at or above 10,000 |
| `BackfillAnswers.PassAnswers` | apps/server/src/mangadex.rs:2189-2302 | over all stores and events: a pass says stop if and only if the flag read and the marker was set, the seed was not done, or this walk survived to the end of upstream and lost nothing; it dies exactly with its process; otherwise it says retry, with the number of records a finished walk was handed and could parse, and zero after any other |
| `BackfillAnswers.PassLeaves` | apps/server/src/mangadex.rs:2189-2302 | a pass that walks keeps what its walk stored, sets the marker exactly on a clean conclusion whose write lands, and forgets the cursor exactly on a finished walk with a loss whose rewind lands; any other changes nothing |
| `BackfillAnswers.RunScans` | apps/server/src/mangadex.rs:1981-2079 | the scanned counter is the number of parsed records a walk was handed |
| `BackfillProgress.PageIngests` | apps/server/src/mangadex.rs:1981-2079 | after a page the spine has what it had and exactly the parsed records whose presence check and write succeeded |
| `BackfillProgress.PageCountersAre` | apps/server/src/mangadex.rs:1993-2085 | ingested, refreshed and failed each count their records of the page, by what was present when the loop came to each |
| `BackfillProgress.PageStampIs` | apps/server/src/mangadex.rs:1994-1998 | a page's last stamp is that of its last parsed record that shows one |
| `BackfillProgress.PageCheckpoints` | apps/server/src/mangadex.rs:2086-2097 | a page stores its last second as the cursor exactly when the write lands and the stamp reads |
| `BackfillProgress.CloseCheckpoints` | apps/server/src/mangadex.rs:2108-2155 | a window that closes behind a readable stamp opens the next at that second, or one later if it began there, and stores it exactly when the write lands |
| `BackfillProgress.GoodPassLatches` | apps/server/src/mangadex.rs:1901-2302 | when every page comes, parses, shows its times and is written, and the budget holds, a pass ends within the bound, says stop and sets the marker |
| `BackfillSync.Catalogue.TakeMangas` | apps/server/src/mangadex.rs:1981-2079 | the record loop computes exactly the page's effect on spine, tally and last timestamp |
| `BackfillSync.Catalogue.TakeReply` | apps/server/src/mangadex.rs:1955-2106 | what the page loop does with a page is the machine's step, up to the window's end |
| `BackfillSync.Catalogue.WalkWindow` | apps/server/src/mangadex.rs:1917-2107 | the inner loop is the machine's run over the turns it consumed |
| `BackfillSync.Catalogue.BackfillMissingCatalogue` | apps/server/src/mangadex.rs:1901-2173 | the nested loops, breaks and all, leave the store, outcome and status of the machine's run |
| `BackfillSync.Catalogue.RunBackfillPass` | apps/server/src/mangadex.rs:2189-2302 | flag, seed, lock, pass, marker and rewind act as one pass of the machine |
| `BackfillSync.Catalogue.SpawnBackfill` | apps/server/src/mangadex.rs:2341-2378 | the schedule ends after the first pass that says stop or dies, after the third in a row that walked nothing, or after twenty-four; when every pass finishes its walk with something parsed and short of a clean end, it runs the lesser of all and twenty-four |
| `CatalogueSweep.TailLanded` | apps/server/src/mangadex.rs:1620-1650 | stepping over a second after a full window loses only records past that second's first 9,900 |
| `CatalogueSweep.StepSound` | apps/server/src/mangadex.rs:1501-1660 | every turn keeps: an outcome that may latch means every record before the walk's position has landed or lies past its second's cap |
| `CatalogueSweep.LatchedSeedLandedAll` | apps/server/src/mangadex.rs:1491-1679 | a latched seed that ended at the end of upstream has landed every record from its starting cursor on, except past 9,900 within one second; the other latched endings, a believed empty page and a window of unreadable timestamps, end before it |
| `CatalogueSweep.LatchedSeedIsComplete` | apps/server/src/mangadex.rs:3187-3261 | a fresh seed that ends exhausted and latches has landed every upstream record, when no second holds more than 9,900 |
| `CatalogueSync.SweepEnds` | apps/server/src/mangadex.rs:1499-1660 | whatever upstream and the database do, a sweep ends within a bound known when it starts |
| `CatalogueSync.EmptyPagesLatchOverALoss` | apps/server/src/mangadex.rs:1524-1541 | four empty pages latch a seed that landed nothing |
| `CatalogueSync.WithheldSeedResumesPastTheDrop` | apps/server/src/mangadex.rs:3223-3249 | a seed withheld over a dropped record latches on the next cycle without it |
| `CatalogueCycles.CyclesCover` | apps/server/src/mangadex.rs:3187-3261 | over any cycles, losses, errors and stops included, everything before the stored row was handed over or lies past 9,900 of its second, and once the seed latched at the end of upstream everything |
| `CatalogueCycles.LosslessCyclesLand` | apps/server/src/mangadex.rs:3187-3261 | as long as no cycle dropped or failed a record, everything before the stored row has landed up to the cap, and a seed latched at the end of upstream is complete |
| `CatalogueCycles.SeedCompleteIffHandedLanded` | apps/server/src/mangadex.rs:3187-3261 | with no crowded second a seed so latched has every record if and only if every record its cycles were handed landed at least once |
| `CatalogueCycles.StuckSeedLatches` | apps/server/src/mangadex.rs:1642-1650 | a first window of unreadable timestamps latches the seed with the rest of upstream missing |
| `CatalogueIncrements.ChangesLand` | apps/server/src/mangadex.rs:3187-3262 | a cycle after the latch walks what was updated since the stored row; the row moves, to the start of the cycle, exactly when the walk ended and the write lands; a walk that exhausted the changes and lost none has upserted every one from the row on, up to the cap |
| `CatalogueIncrements.RowIsLastMove` | apps/server/src/mangadex.rs:3187-3262 | over any cycles after the latch, errors and stops included, the row is the start of the last one that ended and whose write landed, and the seed stays done |
| `CatalogueIncrements.ChangesAreCaught` | apps/server/src/mangadex.rs:3181-3191 | over any cycles after the latch, each meeting its own listing: if those that moved the row were clean and no listing backdates a change, every change listed now between the first row and the present one has been upserted |
| `CatalogueIncrements.RoundsBring` | apps/server/src/mangadex.rs:3187-3262 | and the spine has what it had and the works of those changes |
| `CatalogueIncrements.ChangeIsFetched` | apps/server/src/mangadex.rs:3202-3208 | one change of an old work is fetched by the cycle after it |
| `CatalogueProgress.PageUpserts` | apps/server/src/mangadex.rs:1543-1586 | a page upserts exactly the parsed records whose write lands, and counts those and the failed ones |
| `CatalogueProgress.PageCheckpoints` | apps/server/src/mangadex.rs:1596-1607 | while seeding, a page stores its last second exactly when the write lands and the stamp reads |
| `CatalogueProgress.CloseCheckpoints` | apps/server/src/mangadex.rs:1617-1660 | so does a window's end, with the second where the next one opens |
| `CatalogueProgress.SeedCycleLeaves` | apps/server/src/mangadex.rs:3217-3256 | a seeding cycle latches exactly when its walk ended, dropped and failed nothing and the write lands; it then stores its start, and else keeps the walk's checkpoint |
| `CatalogueProgress.GoodSeedLatches` | apps/server/src/mangadex.rs:1491-1679 | when every page comes, parses, shows its times and is written, a seed comes to the end of upstream within the bound and latches |
| `CatalogueProgress.GoodRoundMoves` | apps/server/src/mangadex.rs:3187-3262 | so does a cycle after the latch, and upserts every change from the row on, up to the cap |
| `CatalogueSync.Mirror.SyncCatalogue` | apps/server/src/mangadex.rs:1491-1679 | the sweep's loops leave the spine, cursor, outcome and status of the machine's run |
| `CatalogueSync.Mirror.RunOneCycle` | apps/server/src/mangadex.rs:3187-3262 | one cycle picks the window by the latch and persists cursor and latch as the machine's cycle does |
| `ChapterSweep.SweepWindow` | apps/server/src/mangadex.rs:2927-3033 | the chapter loop's counters and last timestamp are those of taking the chapters one by one |
| `ChapterSweep.CountersAre` | apps/server/src/mangadex.rs:2904-3033 | each counter is the number of chapters of the window with its fates |
| `ChapterSweep.LatchMeansSettled` | apps/server/src/mangadex.rs:3289-3294 | the seed may latch if and only if every chapter offered is mirrored, already equal, or not English |
| `ChapterSweep.CursorMovesPast` | apps/server/src/mangadex.rs:2928-2945 | the cursor moves past a chapter it did not land if and only if a chapter of a later second in the window let it |
| `ChapterSweep.SkippedChapterIsPassedOver` | apps/server/src/mangadex.rs:2969-2976 | two chapters on which a skipped one is passed over |
| `TokenBuckets.Budget` | apps/server/src/mangadex.rs:109-126 | tokens granted plus tokens left never exceed tokens at the start plus what flowed in |
| `TokenBuckets.BudgetIsSpent` | apps/server/src/mangadex.rs:109-126 | of a bucket that never overflows nothing is lost: grants plus what is left are what there was plus what flowed in |
| `TokenBuckets.RateBound` | apps/server/src/mangadex.rs:90-126 | in any interleaving with monotone time, grants in an interval are at most the allowance of that interval, and tokens stay within 0 and capacity |
| `TokenBuckets.AllowanceIs` | apps/server/src/mangadex.rs:90-126 | that allowance is the capacity plus the rate times the length of the interval |
| `TokenBuckets.SleeperSucceeds` | apps/server/src/mangadex.rs:109-126 | a refused caller that sleeps as told succeeds on its next try if nobody else came, for any positive rate |
| `TokenBuckets.SleepIsShort` | apps/server/src/mangadex.rs:109-126 | and before that sleep is over there is no token, unless the sleep is the least of a millisecond |
| `TokenBuckets.NewBucketIs` | apps/server/src/mangadex.rs:91-107 | a new bucket is full, holds a second's tokens and one at least, and its rate is a tenth at least |
| `TokenBuckets.TokenBucket.TryAcquire` | apps/server/src/mangadex.rs:109-126 | one locked attempt refills, grants or names the wait as the bucket does |
| `TokenBuckets.TokenBucket.AcquireAlone` | apps/server/src/mangadex.rs:109-126 | an uncontended caller sleeps at most once |
| `ReadableDrain.UpdateChapter` | apps/server/src/mangadex.rs:2612-2651 | one row's update and its counters |
| `ReadableDrain.FindIs` | apps/server/src/mangadex.rs:2611-2618 | a record of an id is found exactly when one came back, wherever it stands in the response, and of several the last |
| `ReadableDrain.WriteReadableBackfill` | apps/server/src/mangadex.rs:2606-2656 | the batch loop writes exactly the batch and counts each row once |
| `ReadableDrain.FillCounts` | apps/server/src/mangadex.rs:2479-2500 | each of the four counters is the number of the batch's rows it speaks of |
| `ReadableDrain.BlankDateCountsAsSupplied` | apps/server/src/mangadex.rs:2606-2656 | the rows counted as dated by upstream are as many as those given upstream's readable date if and only if no row was answered with a blank one |
| `ReadableDrain.DatedRowsGetTheDate` | apps/server/src/mangadex.rs:2523-2541 | a row whose answer has a readable date that is not blank is given that date, trimmed |
| `ReadableDrain.BlankDateOfOneRow` | apps/server/src/mangadex.rs:2606-2656 | a row whose blank upstream date is counted as supplied although a fallback is stored |
| `ReadableDrain.BatchLeavesWorkList` | apps/server/src/mangadex.rs:2559-2656 | a batch takes exactly its rows off the work-list whatever upstream answers |
| `ReadableDrain.BatchFrame` | apps/server/src/mangadex.rs:2606-2656 | other rows, rows of other sources and the URL of unanswered rows stay as they were |
| `ReadableDrain.UnansweredClock` | apps/server/src/mangadex.rs:2523-2541 | an unanswered row's effective clock is unchanged if and only if its stored date is absent, trimmed, or blank and equal to the creation date |
| `ReadableDrain.AnsweredClock` | apps/server/src/mangadex.rs:2523-2541 | an answer's readable date comes before its publish date, and its URL is taken trimmed |
| `ReadableDrain.DrainTerminates` | apps/server/src/mangadex.rs:2559-2687 | each written batch takes a hundred rows off the list or empties it, so the drain ends and failed fetches lose nothing |
| `BrowseFilter.BuildWhere` | apps/server/src/browse.rs:404-523 | pushing onto the two buffers one decision at a time gives the clause list and the bind list |
| `BrowseFilter.CompiledMeansMatches` | apps/server/src/browse.rs:404-523 | each placeholder receives the bind meant for it: evaluating the clauses uses up exactly their binds and holds of exactly the rows the filter asks for, with anything appended left over |
| `BrowseFilter.CompiledWithIds` | apps/server/src/browse.rs:775-825 | the same with the trending list appended as a selection or as an exclusion |
| `BrowseFilter.CompiledUnrated` | apps/server/src/browse.rs:719-736 | the same with the complement of the rated works appended |
| `BrowsePager.PromisedIsStrictTotal` | apps/server/src/browse.rs:534-541 | every sort's order is a strict total order on ids, ties and missing keys included |
| `BrowsePager.SplitLands` | apps/server/src/browse.rs:667-674 | no split is negative, and the two phases' slices put together are the page of the concatenated list |
| `BrowsePager.PhasesJoin` | apps/server/src/browse.rs:683-740 | sorting the ranked part and the rest separately gives the whole list sorted by the combined order |
| `BrowsePager.RatingPageIs` | apps/server/src/browse.rs:683-740 | the rating page's three statements together serve a slice of that list |
| `BrowsePager.TrendingPageIs` | apps/server/src/browse.rs:749-827 | the trending page, empty ranking included, serves a slice of the ranked matches followed by the rest newest first |
| `BrowsePager.PageIsSlice` | apps/server/src/browse.rs:601-657 | for all four sorts and any page number the page is a slice of one listing and the total is its length |
| `BrowsePager.ListingIsPromised` | apps/server/src/browse.rs:38-41 | the listing holds each matching row exactly once, strictly in the promised order |
| `BrowsePager.StorageOrderIsInvisible` | apps/server/src/browse.rs:38-41 | the listing does not depend on the order the table stores its rows in |
| `BrowsePager.PagesAreTheListing` | apps/server/src/browse.rs:601-827 | pages 1 to the total divided by thirty, rounded up, concatenate to the whole listing |
| `Ordering.LessMeans` | apps/server/src/browse.rs:227-237 | one text comes before another if and only if it is a proper beginning of it or has the lesser character where they first differ |
| `BrowseListing.NewestReads` | apps/server/src/browse.rs:534-541 | under newest a dated row never follows an undated one, dates never rise, and of one date ids descend |
| `BrowseListing.ChaptersReads` | apps/server/src/browse.rs:534-541 | under chapters the count never rises, and of one count ids descend |
| `BrowseListing.RatingReads` | apps/server/src/browse.rs:683-745 | under rating the rated rows come first, averages never rising and ids descending among equals, then the unrated, newest first |
| `BrowseListing.TrendingReads` | apps/server/src/browse.rs:749-827 | under trending the ranked rows come first, in the order in which the ranking names them, then the rest, newest first |
| `BrowseListing.PageReads` | apps/server/src/browse.rs:601-655 | page k is the rows from 30(k-1) up to 30k of the listing, a page below one is the first, and the total is its length |
| `BrowseListing.UnratedIsZero` | apps/server/src/browse.rs:505-514 | a work without reviews counts as rated zero in both bounds |
| `BrowsePager.TrendingWorkIds` | apps/server/src/browse.rs:838-889 | the resolved ranking names each work once, in the order of first mention, and every resolvable one |
| `BrowsePager.WorkOfIs` | apps/server/src/browse.rs:838-889 | a key that begins with `w_` names itself, any other the work its source belongs to, if any |
| `BrowsePager.NamedInOrder` | apps/server/src/browse.rs:876-887 | works are named in the order of the keys |
| `BrowseKey.CanonicalGenres` | apps/server/src/browse.rs:227-237 | the loop, sort, dedup and truncation give the canonical list |
| `BrowseKey.CanonicalDependsOnSet` | apps/server/src/browse.rs:219-237 | order and repeats of the trimmed non-blank names never show |
| `BrowseKey.CanonicalKeepsTheFirst` | apps/server/src/browse.rs:227-237 | at most twelve names, strictly ascending, and none dropped sorts before one kept |
| `BrowseKey.CanonicalIsStable` | apps/server/src/browse.rs:227-237 | canonicalizing twice changes nothing |
| `BrowseKey.BuildCountKey` | apps/server/src/browse.rs:299-340 | pushing the fields and the length-prefixed tags gives the key |
| `BrowseKey.KeyTellsFiltersApart` | apps/server/src/browse.rs:271-340 | keys are equal if and only if filters are, for words of the vocabulary, bounds that are doubles and any genre strings at all |
| `BrowseKey.UnitPrinterIsFaithful` | apps/server/src/browse.rs:327-333 | there is a printer that tells all doubles apart without a bar, as the key needs |
| `BrowseKey.GenreKeyInjective` | apps/server/src/browse.rs:290-338 | the length-prefixed concatenation of tags can be read back |
| `BrowseKey.Utf8LenIs` | apps/server/src/browse.rs:309-346 | the length before a tag is the number of its UTF-8 bytes |
| `BrowseKey.EmptyTierCollides` | apps/server/src/browse.rs:309-311 | an empty tier would share the key of no tier although it admits nothing |
| `Memo.StoreIsBounded` | apps/server/src/browse.rs:371-382 | the memo never exceeds 2,048 entries |
| `Memo.StoredIsServed` | apps/server/src/browse.rs:348-382 | what is stored is served for a minute and no longer |
| `Memo.LiveEntriesAreKept` | apps/server/src/browse.rs:360-382 | a store discards a live entry of another key if and only if the memo is full and every entry is live |
| `BrowseMemo.CountMemo.Lookup` | apps/server/src/browse.rs:352-356 | a lookup answers exactly with a live entry |
| `BrowseMemo.CountMemo.Store` | apps/server/src/browse.rs:371-382 | expired entries go first, everything if that frees nothing, then the entry is stored |
| `BrowseMemo.CountMemo.Clear` | apps/server/src/browse.rs:391-395 | a clear forgets everything |
| `BrowseMemo.CountMemo.Total` | apps/server/src/browse.rs:617-630 | with a truthful memo the total of a request is the exact count, and the memo stays truthful and bounded |
| `Memo.RunKeepsDated` | apps/server/src/browse.rs:352-395 | in any interleaving of counts, stores, foreign stores, time, table changes and clears each answer is the exact count on the version of the table it is dated |
| `Memo.ServedExactIffNotStale` | apps/server/src/browse.rs:617-630 | in any such run the total served is exact if and only if no live entry answers with a count from before the last change, or that count has not changed since |
| `Memo.SettledIsExact` | apps/server/src/browse.rs:385-395 | if the last change was followed by a clear and no count from before it was stored after, every total served is exact |
| `Memo.MissKeepsSettled` | apps/server/src/browse.rs:618-632 | a request that misses, counts and stores at once keeps a settled run settled |
| `BrowseMemo.MemoExactIff` | apps/server/src/browse.rs:617-630 | the same two conditions for the Browse keys and counts: over any run, exact if and only if not stale |
| `BrowseMemo.MemoStaysExact` | apps/server/src/browse.rs:352-395 | over any settled run the total served for any filter is the exact count |
| `Memo.LateStoreIsStale` | apps/server/src/browse.rs:617-630 | the run count, change, clear, store serves the old count for as long as it lives, exact only if the change left it as it was |
| `CoverProtocol.StepKeepsSound` | apps/server/src/cover.rs:195-224 | every step of every participant keeps the two stores in their relation |
| `CoverProtocol.PointerImpliesBlob` | apps/server/src/cover.rs:183-224 | in every interleaving with crashes and restarts, a live work whose pointer is set has its blob |
| `CoverProtocol.SweepSparesLiveAndYoung` | apps/server/src/gc.rs:151-187 | a sweep's delete, whenever it comes, leaves the blob of every live work and every blob written within the last day |
| `CoverProtocol.NeverReborn` | apps/server/src/gc.rs:159-169 | a deleted work's id is never live again |
| `CoverProtocol.RestartReconciles` | apps/server/src/main.rs:1219-1240 | a restart restores the relation if and only if the covers database is empty or already had what the pointers need |
| `CoverProtocol.RestartIs` | apps/server/src/main.rs:1219-1240 | it brings the server up, clears every pointer when no cover is left and else changes neither database |
| `CoverProtocol.VersionedUrlIsServed` | apps/server/src/cover.rs:144-157 | a versioned URL given out for a live work finds a blob |
| `CoverProtocol.UrlIs` | apps/server/src/cover.rs:144-157 | the URL is versioned exactly with a set pointer, lazy exactly without one and with a whole anchor, and else empty |
| `CoverProtocol.PutLands` | apps/server/src/cover.rs:195-224 | a put that nothing interrupts stores a blob of its version, points its work at it and touches no other |
| `CoverProtocol.BatchDeletes` | apps/server/src/gc.rs:257-307 | a sweep batch that nothing interrupts deletes exactly those of its blobs that belong to no work and are older than the cutoff |
| `CoverProtocol.DeletedWorkLeavesOrphan` | apps/server/src/gc.rs:165-190 | deleting a work leaves its blob to a reclaim or the sweep, and a crash never touches the main database |
| `CoverProtocol.VersionsAgree` | apps/server/src/cover.rs:195-224 | in every run in which the puts of a work come one at a time and no crash falls between a blob and its pointer, a work with no put under way has its blob's version in its pointer |
| `CoverProtocol.CrashTears` | apps/server/src/cover.rs:190-194 | a crash leaves a pointer behind its blob if and only if it falls between that blob and its pointer and the versions differ |
| `CoverProtocol.VersionsMayCross` | apps/server/src/cover.rs:195-224 | two overlapping puts of one work leave pointer and blob with different versions |
| `CoverSweep.CoverStore.SampledOrphans` | apps/server/src/gc.rs:234-245 | the chunked probe counts the sample's orphans |
| `CoverSweep.CoverStore.Delete` | apps/server/src/gc.rs:280-296 | a delete removes exactly the named rows older than the cutoff and reports how many |
| `CoverSweep.CoverStore.Drain` | apps/server/src/gc.rs:257-307 | paging by key while deleting purges exactly a prefix of the table, as long as the visits say, and ends in an error exactly when a batch it reaches does |
| `CoverSweep.CoverStore.SweepWorkCoverBlobs` | apps/server/src/gc.rs:215-308 | the whole sweep, guards included, leaves what the specification says, whichever query fails, and returns the rows it removed or the error |
| `CoverSweep.SweepDeletesAgedOrphansOnly` | apps/server/src/gc.rs:104-110 | a sweep deletes fewer than 1,500 rows, all of them aged orphans, under any shutdown or error |
| `CoverSweep.GuardsAre` | apps/server/src/gc.rs:100-135 | a sweep may delete exactly with at least 10,000 works and at most a quarter of the first 2,000 rows without one |
| `CoverSweep.WrongDatabaseIsSpared` | apps/server/src/gc.rs:215-255 | with fewer works, or more than a quarter of those rows without one, nothing is deleted |
| `CoverSweep.PlausibleDatabaseIsSwept` | apps/server/src/gc.rs:257-320 | otherwise a sweep that nothing stops deletes 1,000 rows or leaves no aged orphan |
| `CoverSweep.StopsOnlyShorten` | apps/server/src/gc.rs:257-307 | a shutdown or an error only shortens the prefix that is purged, and what it spares are aged orphans |
| `CoverSweep.ErrorsAreQueries` | apps/server/src/gc.rs:215-308 | an error is answered only for a failing query: of the first two, or of a batch before which no other failed and no shutdown came |
| `CoverSweep.SweepDeletesABudgetOrAll` | apps/server/src/gc.rs:257-307 | a sweep let through and not stopped either deletes at least 1,000 rows or leaves no aged orphan, though it deletes what it pages over |
| `CoverSweep.SweepsDrain` | apps/server/src/gc.rs:215-320 | repeated sweeps that pass the guards lower the backlog by at least 1,000 each until it is gone, whatever shutdowns and errors cut others short in between |
| `CoverWarmer.Warmer.WarmSuwayomiCovers` | apps/server/src/cover.rs:742-836 | one tick moves the cursor before working, caches exactly the ids that are stored and counts those and the failed ones; a failed load changes nothing |
| `CoverWarmer.TalliesAddUp` | apps/server/src/cover.rs:790-836 | stored and failed add up to the batch if and only if no id of it was dropped by a shutdown |
| `CoverWarmer.CandidatesAre` | apps/server/src/cover.rs:674-690 | the candidates are the first so many uncached ids below the cursor, none for a limit below one |
| `CoverWarmer.FullBatchDescends` | apps/server/src/cover.rs:772-781 | a full batch leaves its whole size fewer series between a floor and the next cursor |
| `CoverWarmer.EverySeriesIsAttempted` | apps/server/src/cover.rs:725-781 | whatever succeeds or fails, failed loads included, a series that stays uncached is taken up once twice the candidates divided by the limit, rounded up, ticks have loaded, from any cursor |
| `StampText.TextOrderIsTimeOrder` | apps/server/src/gc.rs:759-782 | printed UTC times compare as text as the times do, with no, three, six or nine fractional digits |
| `DedupScore.PhashSimilarity` | apps/server/src/catalog/similarity.rs:149-167 | a hash similarity, when there is one, lies between 0 and 1 |
| `DedupScore.PhashSimilarityIs` | apps/server/src/catalog/similarity.rs:149-167 | two hashes compare exactly when both are hexadecimal, of one length and not empty, and are then as alike as the share of their bits that agree |
| `DedupScore.BitsOfDigit` | apps/server/src/catalog/similarity.rs:149-167 | each hexadecimal digit stands for its four bits |
| `DedupScore.DiscriminativeIs` | apps/server/src/dedup.rs:92-101 | a hash is discriminative exactly when it has 16 digits and from 12 to 52 bits set |
| `DedupScore.AuthorsMatchAsBags` | apps/server/src/dedup.rs:368-388 | author names match if and only if they hold the same words equally often, in any order, and some word at all |
| `DedupScore.TopTokensAreLongest` | apps/server/src/dedup.rs:396-408 | the tokens blocked on are distinct, at most as many as asked for, and none left out is longer |
| `DedupScore.LongWordsAre` | apps/server/src/dedup.rs:396-402 | they are chosen from the words of at least three characters |
| `DedupScore.PiecesAre` | apps/server/src/dedup.rs:366-377 | words are exactly the stretches of wanted characters, each as long as it goes |
| `DedupScore.ScoreBounds` | apps/server/src/dedup.rs:321-363 | a score lies between 0 and 1, and a shared title alone reaches the review band |
| `DedupScore.TitleAloneStaysBelowHigh` | apps/server/src/dedup.rs:318-363 | without a description or a cover to compare no score reaches the merge band |
| `DedupScore.TitleScoreIs` | apps/server/src/dedup.rs:327-341 | the title likeness is the greatest over all pairs of a title and an alias, or zero |
| `DedupScore.CorroborationIs` | apps/server/src/dedup.rs:343-350 | what corroborates is the description or the cover, whichever is more alike, or zero |
| `DedupScore.ScoreIs` | apps/server/src/dedup.rs:352-363 | the score is 0.6 of the one and 0.4 of the other, with 0.05 for the same author and 0.03 for years at most one apart, cut at one |
| `DedupLadder.ExternalRung` | apps/server/src/dedup.rs:117-132 | the loop finds the first external id that names another work |
| `DedupLadder.ExternalHitIs` | apps/server/src/dedup.rs:117-131 | it answers with the first whole id that names a work other than the excluded one, and with nothing exactly when none does |
| `DedupLadder.NormTitlesAre` | apps/server/src/dedup.rs:133-144 | the titles looked up are all titles, normalized, blank ones dropped, each once |
| `DedupLadder.CandidatesAre` | apps/server/src/dedup.rs:146-198 | the candidates are the works that carry a title, if any other than the excluded one does, else those the three longest words lead to |
| `DedupLadder.ExactRung` | apps/server/src/dedup.rs:149-180 | the title loop and its corrections give the other works matched, whether any was, and whether by a long title |
| `DedupLadder.FuzzyRung` | apps/server/src/dedup.rs:185-193 | the token loop gives the other works that share a top token |
| `DedupLadder.BestOf` | apps/server/src/dedup.rs:207-228 | in whatever order the set is walked the running best is the highest score, the lowest id among equals |
| `DedupLadder.BestIsUnique` | apps/server/src/dedup.rs:198-202 | there is one such best |
| `DedupLadder.ResolveEx` | apps/server/src/dedup.rs:112-308 | the ladder's verdict is the order-free one |
| `DedupLadder.NeverTheExcluded` | apps/server/src/dedup.rs:106-111 | no verdict names the excluded work |
| `DedupLadder.TitleMergeNeedsIdentity` | apps/server/src/dedup.rs:255-296 | a merge that no external id and no corroborating cover made rests on a title of at least five characters, and all titles together match that one work only; so every fuzzy merge rests on the cover |
| `DedupLadder.IdentityMerges` | apps/server/src/dedup.rs:284-296 | conversely, titles that identify one loaded, unsplit work merge it |
| `DedupLadder.ExactHitIsNeverNew` | apps/server/src/dedup.rs:292-306 | an exact hit whose best loaded pair was never split is merged or reviewed, never new |
| `DedupLadder.BandsDecide` | apps/server/src/dedup.rs:262-310 | without an external hit and on an unsplit best pair, exact or fuzzy: merged if and only if the titles identify the work, or it scores 0.85 and a discriminative cover agrees to 0.9; reviewed if and only if not merged and scoring 0.6; new otherwise |
| `DedupLadder.VerdictBeforeBands` | apps/server/src/dedup.rs:117-131 | an external hit merges at once; with nothing loaded or a split best pair the candidate is new |
| `DedupLadder.SplitPairIs` | apps/server/src/dedup.rs:256-261 | a pair is split when the table of rulings holds it with the lesser id first |
| `DedupLadder.SplitPairsStayApart` | apps/server/src/dedup.rs:231-254 | the title and fuzzy rungs never reunite a split pair, in either orientation |
| `DedupLadder.ExternalIgnoresSplits` | apps/server/src/dedup.rs:117-132 | an external id merges whatever was split |
| `Discovery.FlaggedIffFlags` | apps/server/src/discovery.rs:334-345 | the diff lists exactly the ids that stand at a rank it flags |
| `Discovery.UnmovedSinks` | apps/server/src/discovery.rs:300-332 | when some set moves to the front, no series outside it ranks better than before |
| `Discovery.DiffFlagsMovers` | apps/server/src/discovery.rs:300-345 | for any two page depths the diff flags an id if and only if it moved and improved its rank or entered within the old depth |
| `Discovery.SnapshotAfterTriggers` | apps/server/src/discovery.rs:222-254 | in any run with drops anywhere, a replaced snapshot's movers were all attempted first, and woken where the update took |
| `Discovery.PollIs` | apps/server/src/discovery.rs:198-254 | a poll attempts flagged ids only, wakes exactly those whose update takes, and replaces the snapshot by the first forty of the page exactly when it read both, was not dropped and the write lands; a first poll attempts nobody |
| `Discovery.TakenIs` | apps/server/src/scanner.rs:1289-1311 | the count of a poll is the number of attempts whose update took |
| `Discovery.InterruptedPollRepeats` | apps/server/src/discovery.rs:222-254 | a dropped or unstored poll leaves the snapshot, and the next poll of the page wakes the same movers |
| `Discovery.WokenIffUpdateTakes` | apps/server/src/scanner.rs:1289-1311 | a completed poll wakes a flagged series if and only if its update takes |
| `Discovery.StandingOrderFlagsNothing` | apps/server/src/discovery.rs:334-345 | an order compared with itself flags nothing if and only if it lists no id twice |
| `Discovery.FailedWakeIsForgotten` | apps/server/src/discovery.rs:222-254 | over any run of polls that see the order a completed poll stored, a series it flagged is awake if and only if that one update took |
| `Discovery.SecondOfTwoIsForgotten` | apps/server/src/discovery.rs:222-254 | a listing of two whose second moves up while its update fails never wakes it |
| `Discovery.Snapshots.TriggerDueNow` | apps/server/src/scanner.rs:1289-1311 | each id is attempted in turn and the count is of those that took |
| `Discovery.Snapshots.PollSource` | apps/server/src/discovery.rs:198-254 | one poll, wherever it is dropped, leaves the stored rows and counts the machine says |
| `ChapterLabels.FirstNumber` | apps/server/src/chapter_label.rs:144-165 | the byte scan finds the number the recursive scan defines |
| `ChapterLabelRoundTrip.ParsesBack` | apps/server/src/chapter_label.rs:189-196 | every printed count of hundredths is read as the double nearest to it, and up to 5,000 that is a finite and sane number |
| `ChapterLabelRoundTrip.ExponentParses` | apps/server/src/chapter_label.rs:97-110 | a numeral with an exponent behind it is read as that number times that power of ten |
| `ChapterLabelRoundTrip.ExponentIs` | apps/server/src/chapter_label.rs:97-110 | an exponent is a mark, a sign or none, and digits |
| `ChapterLabelRoundTrip.ScaleIs` | apps/server/src/chapter_label.rs:97-110 | one more power of ten is ten times as much |
| `ChapterLabelRoundTrip.SignIsTaken` | apps/server/src/chapter_label.rs:97-110 | a sign before a number is taken |
| `ChapterLabelRoundTrip.WordsAreNotFinite` | apps/server/src/chapter_label.rs:97-110 | the words for infinity and no number are read as not finite, in any case and with a sign or without |
| `ChapterLabelRoundTrip.NumbersAreWritten` | apps/server/src/chapter_label.rs:97-138 | text that is a number holds nothing but digits, a dot, an exponent's mark and signs |
| `ChapterLabelRoundTrip.LabelReadsBack` | apps/server/src/chapter_label.rs:97-110 | for the double of every number of hundredths up to 5,000 the printed label in the raw slot is read back, whatever the name |
| `ChapterLabelRoundTrip.LabelReadsBackFromName` | apps/server/src/chapter_label.rs:111-165 | and out of a name, behind words without a digit that name no volume and before anything that does not continue the number |
| `ChapterLabelRoundTrip.LabelReadsBackBehindVolume` | apps/server/src/chapter_label.rs:141-186 | and behind a volume token in any case, its separators and its number |
| `ChapterLabelRoundTrip.VolumeIsDropped` | apps/server/src/chapter_label.rs:168-186 | a leading volume token and its number are dropped whichever of the four tokens matches |
| `ChapterLabelRoundTrip.KeysAgree` | apps/server/src/chapter_label.rs:53-69 | keys are equal if and only if hundredths are, or identities are, and never across the two kinds |
| `ChapterLabelRoundTrip.ProductStaysBetween` | apps/server/src/chapter_label.rs:64-68 | the rounded product with 100 lies between the same two halves as the exact one, or on one of them |
| `ChapterLabelRoundTrip.TextIsOfKeyUnlessTie` | apps/server/src/chapter_label.rs:64-68 | the printed text is that of the key's hundredths if and only if the number is no tie above an even hundredth and its product is not rounded up to a tie |
| `ChapterLabelRoundTrip.TextIsOfKeyAwayFromHalves` | apps/server/src/chapter_label.rs:53-68 | every number up to 5,000 whose hundredths are more than 2^-35 from a half prints the hundredths it is keyed on |
| `ChapterLabelRoundTrip.PrintedAlikeIffGrouped` | apps/server/src/chapter_label.rs:46-69 | two numbered chapters print alike if and only if their keys agree once each tie and each product rounded up to one is counted one lower; so where neither or both are such, if and only if they share a key |
| `ChapterLabelRoundTrip.HundredthsPrintedAlikeIffGrouped` | apps/server/src/chapter_label.rs:46-69 | the doubles of whole hundredths up to 5,000 print alike and share a key if and only if they are the same number of hundredths |
| `ChapterLabelRoundTrip.TiePrintsLikeAnotherRow` | apps/server/src/chapter_label.rs:189-196 | every tie, and every number whose product is rounded up to one, prints like the row below its own and not like its own |
| `ChapterLabelRoundTrip.TieOfTenAndAnEighth` | apps/server/src/chapter_label.rs:189-196 | 10.125 prints like 10.12 and is grouped with 10.13 |
| `ChapterLabelRoundTrip.RaisedTwoPointSixSevenFive` | apps/server/src/chapter_label.rs:64-68 | the double that 2.675 is read as is no tie, prints like 2.67 and is grouped with 2.68 |
| `Doubles.DoubleIsNearest` | apps/server/src/chapter_label.rs:64-68 | the rounding that parsing and the product use goes to a double that no other one is nearer than |
| `Doubles.DoubleIsMonotone` | apps/server/src/chapter_label.rs:64-68 | it never swaps two numbers |
| `ChapterLabelRoundTrip.OnlySaneNumbersShown` | apps/server/src/chapter_label.rs:97-138 | a number shown is sane, and the words shown come from the raw slot exactly when it holds words that are no number, else from the name, else the generic label |
| `ChapterLabelRoundTrip.FirstSaneNumberIsShown` | apps/server/src/chapter_label.rs:97-118 | the source's number is shown if it is sane, else the raw text's, else the first of the name, else words |
| `ChapterLabelRoundTrip.InsanePrintedIff` | apps/server/src/chapter_label.rs:97-138 | a label that is no sane number is printed as a number if and only if no slot yields a sane one, the raw slot holds no words that are not a number, and the trimmed name is a number |
| `ChapterLabelRoundTrip.InsaneNameIsPrinted` | apps/server/src/chapter_label.rs:126-137 | any number above 5,000 alone in a name is printed as it stands |
| `Views.ViewStore.Record` | apps/server/src/views.rs:76-101 | one view adds one to the total and one to the hour's bucket |
| `Views.ViewStore.PruneBuckets` | apps/server/src/views.rs:159-166 | pruning removes exactly the buckets at or below the cutoff and reports how many |
| `Views.PrunedAre` | apps/server/src/views.rs:159-166 | pruning keeps every total and exactly the buckets of the last 168 hours |
| `Views.ViewStore.CountsFor` | apps/server/src/views.rs:109-136 | one scan of the buckets gives both windows |
| `Views.ViewStore.TrendingKeys` | apps/server/src/views.rs:141-153 | the grouped, sorted and cut list is the ranking of the last 24 hours: most viewed first, ties by key, none left out that should precede one kept |
| `Views.CountsMatchTheLog` | apps/server/src/views.rs:76-166 | after any interleaving of views and prunes in order of time the three counts are those of the complete log, and 24 hours ≤ 7 days ≤ total |
| `Views.TrendingMatchesTheLog` | apps/server/src/views.rs:141-153 | a list is the trending list of the pruned buckets if and only if it is that of the complete log |

## Left out

- HTTP, GraphQL, image work, hashing, JSON decoding and SQLite itself: parsing is an arbitrary partial function, a table is a map or a sequence, and a statement is a list of clauses with placeholders rather than characters of SQL.
- The review aggregate is given as a map from works to averages; the union of the two kinds of review key behind it is not modelled.
- Token lookups of the fuzzy rung are given as an answer per token, already cut to their limit of 50, since the statement has no order.
- Title normalization, lower-casing, similarity of titles and descriptions: functions with the bounds stated under Assumptions.
- Floating point: scores, tokens and bounds are reals, so rounding inside an operation, NaN, infinite bounds and the sign of zero are not captured; bounds range over a given set of doubles. Chapter numbers are rounded where the program rounds them, to the nearest double by `Doubles.Double`; only the sign of zero is missing.
- `ChapterLabelRoundTrip.TextIsOfKeyUnlessTie`: says nothing of numbers from 2^52 hundredths on, which are no sane chapter, nor of the saturation of keys at 64 bits.
- Upstream records that move while an incremental sweep pages by `updatedAt`: the code does not guard against it and the listing is frozen during a walk.
- The chapter sweep's paging, its checkpoints and the comparison inside `chapter_row_unchanged`: its windows are the catalogue's, and what is modelled is what each chapter does to counters, cursor and latch.
- The Suwayomi half of the cover sweep, whose ids can be reused.
- Repeats, cancellation and fairness among callers that contend for the token bucket: the bound is over any interleaving of locked attempts, the promise to a sleeper is for an uncontended one.
- Locks that are poisoned, task spawning, sleeping, logging and metrics.
- `CoverProtocol.PointerImpliesBlob`: claims that a blob exists; that its version is the pointer's holds under the conditions of `CoverProtocol.VersionsAgree` only.
- `CoverProtocol.StepKeepsSound`: the main database is never rolled back to an earlier state while the covers database keeps a later one.
- `CoverSweep.SweepsDrain`: the works and the cutoff do not change between the sweeps, and whether the sampled orphan rate passes is a condition on each sweep, since nothing makes it pass.
- `CatalogueIncrements.ChangesAreCaught`: a cycle that drops or fails a change and still moves the row loses it until it changes again, which the code accepts and says so.
- `CoverWarmer.EverySeriesIsAttempted`: an id taken up by the batch in which a shutdown falls is dropped unattempted; the next process begins again at the top.
- `BackfillPasses.MarkerMeansAccounted`: says nothing of runs with a dirty pass that was not rewound, for which it is false; `BackfillHanded.MarkerCompleteIffHandedLanded` covers those.
- `CatalogueSweep.LatchedSeedLandedAll`: says of seeds that believed an empty page or got stuck only that they stopped before the end of upstream.
- `BrowseMemo.MemoStaysExact`: says nothing of runs that are not settled; `BrowseMemo.MemoExactIff` says when those are exact.
- `ChapterLabelRoundTrip.LabelReadsBackFromName`: the words before the number may hold no digit, since the first number of a name is the one read.
- Job states, configuration, authentication, notifications, the TypeScript label mirror and the front end: they would only add easy members.
