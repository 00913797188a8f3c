# The walk layer of ghchronicle, modelled and proved in Dafny

ghchronicle reads a GitHub account through an API that pages, caps, refuses, times out and changes while it is being read. The walks of `internal/collect` each claim that what they read is complete, or is a floor that says so. This project models those walks and proves the claims, over every server that answers honestly and every pattern of refusals.

How the model is built:

- A server is a function of the number of queries already sent and of what is asked. A statement for every such function is a statement for every run of replies: pages of any length, refusals at any point, the same question answered differently twice. What an answer that does arrive must look like is an `Honest` predicate in each module; no walk assumes anything else unless its contract says so.
- A walk returns, as ghost results, the queries it sent or how many, and why it stopped. Its contract says of each query that it is the one the replies before it call for, of the last one that its reply is the reason to stop, and of what is emitted that it is what those replies held. A walk that asks less, gives up sooner or reads on longer does not meet it.
- A listing that moves is a function from the request to the listing as it stands then. Time is whole seconds, or days where the code truncates to days, counted from Go's zero time, which is 0. A cursor of 0 is the empty cursor, and any other is how far the list has been read.
- A point is the identity of what it is about and the few numbers a claim needs.
- Properties over many passes or sweeps are lemmas over runs of such contracts.

The modules:

- `CoauthoredWalk.dfy`, `CoauthoredTally.dfy`: the co-authored pull request count. The walk splits a range of days around the search cap, halves pages, and reads commit tails through a worklist; a verdict for each pull request, kept as a ghost map, is what its counters are proved to count. The tally carried between passes is proved to refine walking everything every time.
- `AliasBatch.dfy`, `Deployments.dfy`: batched alias queries with both recoveries, every repository accounted for by the reply that decided it, and the per-repository cursors of deployments on top.
- `Caches.dfy`, `Folds.dfy`, `RepoActivity.dfy`: a listing by page number that moves under its reader, and the folds that make row identities unique.
- `EventFeed.dfy`: the feed read down to what the sweep before it handed over.
- `ItemListing.dfy`: the pull requests and the issues of a repository in one query, a cursor for each, which `PullsWalk.dfy` and `IssueEvents.dfy` both walk.
- `CommitWalk.dfy`, `OutboundSearch.dfy`, `SecurityCounts.dfy`: cursor walks with bounds; `Walks.dfy` and `Cursors.dfy` have what all of them share.
- `JobExpansion.dfy`, `Refusals.dfy`: the memories kept across sweeps.

Hypotheses the source relies on, stated where they are used: a next page comes only after a page that held something, and has a cursor, but for the pages of one pull request's commits; ids are unique; repositories of one call have distinct names; a list stays as it is during one walk unless the module is about its moving; an event is dated no later than its item's `updatedAt`, and only an item in a stack has events of a type the timeline lacks; a search index date lies between an item's closing and its update.

What the proofs found:

- `internal/collect/actions.go:456-459` takes a listing read with the count its first page declared for the listing of that first request. `RightCountIsRightReadingIff`: so it is exactly when at each request the entries newer than the first one fit on the pages already read, a hundred to a page; `AWholeThatIsNot` runs the walk on an input just past that.
- `internal/collect/events.go:67-70` reads at most three pages back to the event handed over. `JoinsIff` is the exact condition on the feed under which a sweep that did not meet that event leaves no gap; `MovedTooFar` runs two sweeps that leave one, and `AGapStays` says that no later sweep of the run closes it.
- `internal/collect/achievement_progress.go:482` takes a page that promises more commits and has no cursor for the last one, where line 445 makes a floor of the same page. `MissedWithoutACursor` is a pull request counted nowhere for it. `UncountedIffLost` and `FloorHoldsIff` say exactly which ones that is and when the upper bound of the count survives it; with a cursor on each such page none is lost.
- `internal/collect/commits.go:210` compares the last row of a page with the bound, and that row may be a check. `LosesACommitIff` is the exact condition under which a commit of the bound is left unread, known before the walk when pages come full, from the history and their size; `AnEarlyCheckStopsTheWalk` runs the walk on an input that meets it.
- `internal/collect/security.go:382` answers a list refused as too deep, on its first page too. `AfterOnePageIff`: that refusal of the list of open alerts, with an open alert among the rows read, is exactly when a sweep of one page counts fewer open alerts than it read; `TooDeepCountsNone` is such a server. The comment at lines 319-320 says a refusal deeper in that list keeps every open one of the rows read, which holds for a first walk of one page and not for a longer one: `BelowTheRowsReadIff`.
- `internal/collect/issueevents.go:457` sends an item to its own list when it is in a stack now. `RoadsAgreeIff`: for any other item the two roads differ exactly when an event of a type the timeline lacks lies inside the bound, as an item that has left its stack may have.
- `internal/collect/refusals.go:156` keeps a held window that has closed in place of a recalled one that still stands: `AClosedWindowBlocksRecall`, with `RecallStandsIff` for exactly when. Recalling into a fresh memory, which is what a restart does, is not affected.
- A clock that never goes back makes the refusal memory exact. On one that does, a refusal can be forgotten inside its window (`ClockSetBackAsksAgain`); `HeldIff` says what is held on any clock, and `ExactOnAnyClockIff` when that tells no difference.
- The tally's refinement needs no clock that never goes back, only that a day once settled looks the same to later passes on that day or after it.

## Model

| member | source | states |
|---|---|---|
| `CoauthoredWalks.CoauthoredWalk.Walk` | internal/collect/achievement_progress.go:380-414 | Against any honest server the verdicts before are kept and each new one is of the range; done, each day of it is read, whole or the thousand a search shows; capped exactly when a day is overfull; floored or lost only what the server holds back; not done only after a query of its own that failed or was cancelled |
| `CoauthoredWalks.CountersAreAFloor` | internal/collect/achievement_progress.go:314-328 | Counted never exceeds the co-authored pull requests of the range, and once all are judged these never exceed counted plus truncated plus those lost; the same for the settled pair |
| `CoauthoredWalks.CappedCountsAreAFloor` | internal/collect/achievement_progress.go:314-328 | Of any walk that is done, capped or not, the true number is at least the count and at most counted, truncated and lost plus what the overfull days hold past a thousand each; the same for the settled pair |
| `CoauthoredWalks.UnreadIsExcess` | internal/collect/achievement_progress.go:396-411 | Of days each read as far as a search shows them, no more is unread than the overfull ones hold past the cap |
| `CoauthoredWalks.UncountedIffLost` | internal/collect/achievement_progress.go:476-485 | Once all are judged, a co-authored pull request is in neither counter if and only if it was lost |
| `CoauthoredWalks.FloorHoldsIff` | internal/collect/achievement_progress.go:321-327 | The true number is at most counted plus truncated if and only if no more co-authored pull requests were lost than floors were left of others; the same of the settled pair |
| `CoauthoredWalks.HeldBackIsLeast` | internal/collect/achievement_progress.go:437-485 | What a walk is excused by comes down to replies: a floor or a loss is excused only if some reply of the server held that pull request's commits back or promised more of them without a cursor, and no fewer excuses do |
| `CoauthoredWalks.CoauthoredWalk.WalkHalves` | internal/collect/achievement_progress.go:396-402 | Walking both halves of a range, each on its own, reads of every day what one walk of the range would: nothing twice, no day of either half passed over when the other is capped, ended early only by one of its own queries |
| `CoauthoredWalks.SplitRange` | internal/collect/achievement_progress.go:396-402 | The two halves partition the pull requests of the range, and a day is overfull in the range exactly when it is in one half |
| `CoauthoredWalks.CoauthoredWalk.Page` | internal/collect/achievement_progress.go:384-394 | The page is the server's answer at the first halved size it did not give up on, each larger one having been asked for and given up on; a page given up on for good is of ten at most |
| `CoauthoredWalks.CoauthoredWalk.Count` | internal/collect/achievement_progress.go:437-452 | A page of the search gives each of its pull requests one verdict or a place on the worklist, never both, with nothing read before a worklist cursor carrying a trailer |
| `CoauthoredWalks.CoauthoredWalk.CountOne` | internal/collect/achievement_progress.go:438-450 | Counted exactly with a trailer in sight, passed over exactly when all its commits are read, requeued exactly when the page says how to read on, and otherwise left a floor |
| `CoauthoredWalks.CoauthoredWalk.Follow` | internal/collect/achievement_progress.go:462-488 | The worklist ends for every server; unless a query of it was cancelled it is then empty and each pull request of it has a verdict, a floor only where a page did not come, lost only where a cursor was missing |
| `CoauthoredWalks.CoauthoredWalk.FollowBatch` | internal/collect/achievement_progress.go:464-486 | One query settles or requeues its batch and leaves strictly fewer commits and entries to read, the measure that ends the worklist |
| `CoauthoredWalks.CoauthoredWalk.FollowOne` | internal/collect/achievement_progress.go:476-485 | Requeued exactly on an unmarked page with a next cursor, further on than before; otherwise a floor exactly if no page came, found exactly on a trailer, lost exactly on a page that promises more without a cursor, and clean |
| `CoauthoredWalks.MissedWithoutACursor` | internal/collect/achievement_progress.go:482-484 | A next page without a cursor is taken for the last one: a concrete co-authored pull request ends in neither the count nor the floor |
| `CoauthoredWalks.CoauthoredWalk.ReadOn` | internal/collect/achievement_progress.go:405-408 | A page of the search takes the judged from one prefix of the listing to the next, its worklist read to the end, or is cut short by one of its own queries |
| `CoauthoredWalks.CoauthoredWalk.FoundOne` | internal/collect/achievement_progress.go:524-529 | The counters stay those of the verdicts with one more found, settled exactly when merged before today |
| `CoauthoredWalks.CoauthoredWalk.FloorOne` | internal/collect/achievement_progress.go:532-537 | The counters stay those of the verdicts with one more floor, settled exactly when merged before today |
| `CoauthoredWalks.OneMoreVerdict` | internal/collect/achievement_progress.go:524-537 | A pull request not read before moves the four counters by its own verdict and day, and no other way |
| `CoauthoredWalks.ListedLength` | internal/collect/achievement_progress.go:287-306 | A count over a thousand on one day means that day is overfull, and a count within it means no day of the range is |
| `CoauthoredTallies.RefinesTheWholeWalk` | internal/collect/achievement_progress.go:270-281 | Over any run of passes, skipped days, forced walks, changed rules and clocks set back included, if settled days never change then a report stands for exactly what a walk from the first day to today counts |
| `CoauthoredTallies.ExactReadsReportTheTruth` | internal/collect/achievements.go:154-173 | With its own read exact, and no floor or cap in the settled days of those before, the number reported is that of the whole walk, with no floor and no cap |
| `CoauthoredTallies.StoredIsExact` | internal/collect/achievement_progress.go:249-265 | If settled days stay, the stored count stands for exactly the co-authored pull requests merged on or before Through, as its last walk saw them |
| `CoauthoredTallies.StoredIsAFloor` | internal/collect/achievement_progress.go:249-265 | After every pass of every run the stored count is a floor of the pull requests it stands for, within its own truncated when not capped, and all of them merged on or before Through |
| `CoauthoredTallies.ReportIsAFloor` | internal/collect/achievements.go:162-166 | Every report of every run is a floor of what it stands for, by at most its own truncated unless it says capped |
| `CoauthoredTallies.StoredByLastWalked` | internal/collect/achievements.go:156-173 | What is stored is what the last pass whose walk came back left: a failed walk leaves no trace |
| `CoauthoredTallies.AWholePassStandsAlone` | internal/collect/achievement_progress.go:270-281 | In any run, whatever is stored before it, a pass told to walk everything reports a floor of what it sees itself from the first day on, and the tally it leaves is of its own days, its own rule and a week that begins with it |
| `CoauthoredTallies.NeverBelowVisible` | internal/collect/achievement_progress.go:225-232 | If settled days may lose pull requests and never gain any, a report stands for all the pass can see |
| `CoauthoredTallies.NeverReportsFewer` | internal/collect/achievement_progress.go:225-232 | With its own read exact, no floor or cap in the settled days of those before, and history that only loses, no pass reports fewer than it can see |
| `CoauthoredTallies.SeenSinceWhole` | internal/collect/achievement_progress.go:262-281 | Everything a stored count stands for was seen by a pass made on or after the day last walked whole |
| `CoauthoredTallies.GoneAWeekLater` | internal/collect/achievement_progress.go:225-232 | A pull request that no pass sees after day d is in no report of day d+7 or later, on any run |
| `CoauthoredTallies.StillThereSixDaysLater` | internal/collect/achievement_progress.go:225-232 | The week is tight: a run in which a pull request gone after day d is still reported on day d+6 |
| `CoauthoredTallies.Achievements.Collect` | internal/collect/achievements.go:154-173 | One pass, whatever is stored: told to walk everything, or with no tally, or one of another rule, zero, not before today or a week old, it reports and keeps a floor of its own from the account's first day, and the week begins anew; otherwise one of the days the tally lacks, on top of it; no report only after a failed or cancelled query |
| `CoauthoredTallies.WalkFrom` | internal/collect/achievements.go:155-161 | The walk of a pass over its own days is a floor of what the pass could see there, today's row and settled days both, short of it by no more than its floors and what overfull days hold past the cap, and comes back with nothing only when one of its queries failed or was cancelled |
| `AliasBatches.Reading.Asked` | internal/collect/deployments.go:76-106 | Every repository of the list gets one fate, resting on the server's reply to one of the queries this reading sent; asked is the number answered for, failed every refusal that lost a stretch of the list, in its order; ends within 2n - chunks queries for any refusals |
| `AliasBatches.LossesInOrder` | internal/collect/deployments.go:86-97 | The refusals told are those that lost a stretch of the list, one for each, in the order of the list, each the one its repositories were lost for |
| `AliasBatches.LossesByLaterQueries` | internal/collect/deployments.go:80-97 | Each is the reply to a query of its own, later than those of the ones told before it |
| `AliasBatches.EveryLossIsTold` | internal/collect/deployments.go:71-97 | Every repository that was lost has the refusal that lost it told, whatever else was refused before or after it |
| `AliasBatches.Reading.AskChunk` | internal/collect/deployments.go:84-103 | A refused chunk is given up only for good or alone, and asked again smaller otherwise, in at most 2n - 1 queries |
| `AliasBatches.Reading.Decode` | internal/collect/deployments.go:151-163 | Each repository of an answered chunk is handed its own alias's node, once, in order; null, missing and undecodable aliases emit nothing and count as asked |
| `AliasBatches.AliasBatch` | internal/collect/deployments.go:42-48 | No error exactly when nothing was lost; otherwise every refusal that lost something, in order, under a PartialError exactly when something was asked, carrying how many; at most 2n - chunks queries |
| `AliasBatches.Branches` | internal/collect/branches.go:79-139 | The second recovery keeps the same promises: every refusal that lost something, in order, every repository its fate, the same bound on queries |
| `AliasBatches.BothRecover` | internal/collect/deployments.go:131-148 | Both retry rules always shrink a batch of several, drop for good only what no smaller query can help, and drop as gone only a repository asked alone |
| `AliasBatches.EmittedInOrder` | internal/collect/deployments.go:34-36 | What is emitted follows the order of the list: the j-th emission is the repository of the j-th emitting place, with that place's own node |
| `AliasBatches.EmittedOnce` | internal/collect/deployments.go:34-36 | No repository of a list without duplicates is emitted twice |
| `AliasBatches.NothingUnaccounted` | internal/collect/deployments.go:50-61 | Asked, gone alone and lost sum to the length of the list, and lost is positive exactly when a failure is reported |
| `AliasBatches.RecoveriesAgree` | internal/collect/branches.go:114-123 | On a server that refuses a query exactly when it names a vanished repository, one at a time and halving both emit exactly the survivors, in order, and lose none |
| `AliasBatches.ChunksIsCeiling` | internal/collect/deployments.go:82-84 | The number of chunks in the query bound is the ceiling of n over the size |
| `DeploymentWalks.Collect` | internal/collect/deployments.go:281-320 | Whatever is refused, a repository emits pages the server gave it, whole, each asked for where the last ended, to the first past the bound or the end, or as many as the limit, or short of a query that gave it none; the error joins, round by round, every refusal that lost one; under two queries for each repository of each round |
| `DeploymentWalks.Round` | internal/collect/deployments.go:296-313 | One round leaves the points, cursors and next list that its emissions make in order, each on a fair reading of one of its own queries, at most 2n - chunks of them, and fails exactly when a repository was lost |
| `DeploymentWalks.NextPage` | internal/collect/deployments.go:296-313 | A round keeps every repository's standing: a gap-free prefix of its own history, as many pages as rounds while it waits, its cursor at the end of them, once in the next round |
| `DeploymentWalks.BookForOne` | internal/collect/deployments.go:298-310 | A round adds to the pages of a repository the one it was given, asked for at its own cursor, or ends them |
| `DeploymentWalks.CallForOne` | internal/collect/deployments.go:303-310 | A call leaves a repository's points, cursor and place as its own page decides, whatever the others in the batch did |
| `DeploymentWalks.OwnAsk` | internal/collect/deployments.go:298-302 | A repository is asked about at its own cursor, at any depth of retry, however many pages of others were emitted before it |
| `DeploymentWalks.NextRound` | internal/collect/deployments.go:297-312 | Who waits for the next round are repositories of this one, each once, so names stay distinct in every call |
| `DeploymentWalks.RoundsGrow` | internal/collect/deployments.go:296-313 | A repository is asked about in as many rounds as it was given pages, and in one more if it was dropped, and in no other |
| `DeploymentWalks.LostInRound` | internal/collect/deployments.go:311-311 | The joined error is empty exactly while no repository has been lost |
| `DeploymentWalks.LostToARefusal` | internal/collect/deployments.go:66-73 | A repository is lost only to the refusal told for it, the server's reply to a query that named it, for good or alone |
| `DeploymentWalks.ReadsTheBound` | internal/collect/deployments.go:296-313 | A newest-first history that was read out emitted every deployment made at the bound or after it |
| `Caches.CacheEntries` | internal/collect/actions.go:461-493 | What is read is the pages up to the first that is short, refused or past the cap, ten where none is named, merged with no id twice; whole is the comparison with the declared total; on a listing whose newer entries fit on the pages already read, whole means the ids the first request held, and a still one is always whole |
| `Caches.ReadPages` | internal/collect/actions.go:464-491 | The walk stops at the first page that is not full, or at its cap: every page before came full, it ended exactly on a short one, and failed exactly on a failed one |
| `Caches.Snapshot` | internal/collect/actions.go:446-460 | On such a listing the count of a walk that ended equals the declared total if and only if it read exactly what the first request's listing held |
| `Caches.RightCountIsRightReadingIff` | internal/collect/actions.go:456-459 | A walk that ended with the declared count read what the first request's listing held if and only if at each request the newer entries fit on the pages already read, a hundred to a page |
| `Caches.NothingNewReadIff` | internal/collect/actions.go:456-460 | Pages read hold nothing but what the first request's listing did if and only if that is so, whether or not the count is right |
| `Caches.StaysNewFirst` | internal/collect/actions.go:446-456 | However entries are inserted in front and deleted anywhere, the ones new since the first request stand before all those left of it |
| `Caches.MovementDrifts` | internal/collect/actions.go:446-460 | Insertions in front and deletions anywhere, with never more newer entries at a request than the pages before it hold, are what the snapshot by counting needs |
| `Caches.NothingNewOnPageIff` | internal/collect/actions.go:446-460 | A page holds none of the newer entries if and only if the pages before it have room for them all |
| `Caches.Merge` | internal/collect/actions.go:481-486 | Reading a page into the entries keeps each id once, first seen first |
| `Caches.MergedOnce` | internal/collect/actions.go:481-486 | What has been read after a page has the ids of both, each once, as it was first seen |
| `Caches.AWholeThatIsNot` | internal/collect/actions.go:461-493 | The walk run on a hundred and fifty entries, of which a deletion and a hundred and one insertions make another listing before its second request: it says it is whole, and did not read the listing of the first |
| `Folds.CacheRows` | internal/collect/actions.go:512-562 | Each entry is in one row, of its cache and ref; a row counts its entries and sums their sizes, is of the one used last, the larger id among those used at one moment, and of the earliest creation; counts and sizes sum to the listing's |
| `Folds.OrderDoesNotMatter` | internal/collect/actions.go:502-511 | Any permutation of entries with distinct ids, ties included, folds into the same rows |
| `Folds.CountOfBag` | internal/collect/actions.go:512-562 | A key's count and size depend only on the bag of entries |
| `RepoActivity.ActivityPoints` | internal/collect/repoevents.go:88-127 | Each entry is in one row, of its type, actor and instant, nobody being one actor; rows come in order of first appearance, of their first entry, with the branch of each of their entries in order; the event counts sum to the length of the log |
| `RepoActivity.GroupOne` | internal/collect/repoevents.go:92-111 | One more entry joins the row of its key or starts one, and every other row stands for what it stood for |
| `EventFeeds.Events.Collect` | internal/collect/events.go:66-99 | On a feed that grows and ages between requests, a sweep holds all of it from its newest down to its reach: the rows of pages that each led on, up to the one that carries After, is short or empty, was refused or failed, or is the last of the three, or fewer, it may ask for |
| `EventFeeds.SweepIsSound` | internal/collect/events.go:71-98 | What any such pages are worth: no gap below the newest event, the end of the feed read where it was met, an empty feed where there is no newest |
| `EventFeeds.AddPage` | internal/collect/events.go:79-92 | A page read after insertions overlaps the pages before it and leaves no gap below them |
| `EventFeeds.NoGap` | internal/run/feeds.go:14-24 | Over any run of sweeps that each join the last, every event between the first sweep's reach and the last event handed over is in some sweep |
| `EventFeeds.WhenItJoins` | internal/collect/events.go:86-95 | What joining is in what was read: a sweep joins the last exactly when every event after the one handed to it, down from its newest, is among its points |
| `EventFeeds.JoinsIff` | internal/collect/events.go:67-95 | A sweep that stopped on the event handed over joins the last; one that ran out of pages or met the end of the feed or a refusal does if and only if one of its pages, as the feed stood when it was asked for, reached down to the event after that one |
| `EventFeeds.MovedTooFar` | internal/collect/events.go:67-70 | Two sweeps run on a feed that gains four hundred events between them: the second runs out of pages, does not join, and an event three pages below the one handed over is in neither |
| `EventFeeds.AGapStays` | internal/run/feeds.go:14-24 | An event unread three pages or more below the one handed over is in no later sweep of the run |
| `IssueEvents.RoadsAgreeIff` | internal/collect/issueevents.go:454-471 | A timeline that fits a page renders exactly what the per-issue list filtered by date gives if and only if no event of a type the timeline lacks lies inside the bound |
| `IssueEvents.Visit` | internal/collect/issueevents.go:457-468 | Whichever road an item takes, what is emitted is its events inside the bound, in order, stacks and long timelines included; if its own list was refused, failed or ran past the ceiling, exactly those of the pages that came |
| `IssueEvents.ItemEvents` | internal/collect/issueevents.go:588-603 | Every page of the item's own list up to a short one gives all its events inside the bound; the read stops early exactly on a refused or failed page of it or at the ceiling, with those of the pages before |
| `IssueEvents.VisitEach` | internal/collect/issueevents.go:568-578 | The items of a page in turn, each emitted whole or cut by a query about that very item, up to the first that fails; skipping those last updated before the bound changes nothing that is emitted, and no item's fate depends on another's |
| `IssueEvents.Collect` | internal/collect/issueevents.go:501-550 | The listing is asked page by page at its cursors until neither list is wanted, the limit is reached, or a query is refused or fails; what is emitted is exactly what each item's fate says, one fate for every item of every page up to a failure; none twice, and with pages enough none left out but the rest of the lists cut short |
| `IssueEvents.SweepEnds` | internal/collect/issueevents.go:432-438 | Of a sweep that wanted nothing more, or whose pages can hold both lists and were filled, what is emitted and the rest of the items cut short are every event inside the bound, each exactly once, by either road |
| `IssueEvents.EmittedAndLeftOut` | internal/collect/issueevents.go:588-603 | What is emitted of a run of items and what is left of those cut short add up to what is wanted of them |
| `IssueEvents.ReadOutIsAll` | internal/collect/issueevents.go:493-495 | Once the last item read is older than the bound, the items left unread hold nothing wanted |
| `IssueEvents.WantedAre` | internal/collect/issueevents.go:580-599 | What is wanted of an item is each event its list names, dated at the bound or after it, as often as it happened, and no other |
| `ItemListings.ReadOutOrWanted` | internal/collect/issueevents.go:555-562 | A list a walk no longer asks for has been read to its end or past the bound, and a list it asks for is asked for from where it was read to |
| `ItemListings.FilledWhileWanted` | internal/collect/issueevents.go:526-547 | From a server that fills its pages, a list still asked for has been read for as much as that many pages hold |
| `ItemListings.FilledAsAsked` | internal/collect/pulls.go:353-367 | From a server that fills its pages, a walk has read of each list all it asked for or the whole of it, however often a page was halved |
| `ItemListings.WalkEnds` | internal/collect/pulls.go:336-387 | A walk of the two lists reads at most its limit of pages, and stops unrefused only when both are read out or that limit is reached exactly |
| `IssueEvents.SkippingLosesNothing` | internal/collect/moved.go:84-93 | When no item was updated since the bound, the sweep would emit nothing from any prefix of the two lists |
| `IssueEvents.MovedIff` | internal/collect/moved.go:84-93 | The newest update of the two lists is not before a moment if and only if some item was updated at it or after it |
| `PullsWalks.Collect` | internal/collect/pulls.go:312-388 | From the size asked for, or fifty, halved while above ten, the queries are the ones the cursors call for; the rows are exactly what the answers held of each list, in order; it stops with both lists read out, exactly its limit of pages, or a query that failed or was given up on at ten or less |
| `PullsWalks.ReachesTheBound` | internal/collect/pulls.go:330-335 | A list read out on a newest-first order emitted everything updated at or after the bound |
| `PullsWalks.ReachesItsBudget` | internal/collect/pulls.go:336-367 | From a server that fills its pages, a walk whose budget ran out has read each list out, or of it at least the smallest page of a halving for every page of the budget, or the whole |
| `CommitWalks.Collect` | internal/collect/commits.go:142-216 | From a page of fifty at most, halved while above ten, the queries are the ones the cursor calls for; the rows are those of the commits the answers held; a walk no reply stops asks for as many commits as its pages hold at the first size, one page of them where it names none, and never for a whole page more |
| `CommitWalks.OneLog` | internal/collect/commits.go:170-216 | The queries of a walk, and so what it read and emitted, are the only ones its server and budget let it have |
| `CommitWalks.RenderPage` | internal/collect/commits.go:220-277 | A page adds the rows of the next stretch of history, commits then checks, and hands back a cursor exactly while there is more |
| `CommitWalks.RowsInOrder` | internal/collect/commits.go:220-277 | Each commit makes a row of its own date and, right behind it, one of each check, of its date, and there are no others |
| `CommitWalks.StoppingLosesNothingIff` | internal/collect/commits.go:208-212 | Stopping on the last row's date leaves no commit of the bound unread, wherever pages end, if and only if each commit after a row past the bound is itself past it |
| `CommitWalks.LosesACommitIff` | internal/collect/commits.go:208-212 | From full pages the walk stops at a page end known beforehand, and leaves a commit of the bound unread if and only if the next commit after that page end is inside it |
| `CommitWalks.StopsAtTheFirst` | internal/collect/commits.go:170-214 | From full pages, no page end before the stop is past the bound by its last row, and the stop is, or is the end of the history |
| `CommitWalks.ChecksAfterCommits` | internal/collect/commits.go:208-212 | It holds whenever no check finished before its commit was made |
| `CommitWalks.ReadsTheBound` | internal/collect/commits.go:208-212 | Then a walk stopped on its bound or on the end has the rows of every commit made at the bound or after it, and of its checks |
| `CommitWalks.AnEarlyCheckStopsTheWalk` | internal/collect/commits.go:208-212 | Run on two commits, one to a page, the first with a check dated before the bound: the rows are the first commit's alone, and the second is inside the bound |
| `CommitWalks.SkippingLosesNothing` | internal/collect/moved.go:72-82 | The history since a moment is empty exactly when the head is older than it, and then there is nothing to render |
| `OutboundSearches.Search` | internal/collect/community.go:961-1014 | A search no query failed and no cap cut short: an open one is read whole; a closed one has all that closed since the sweep before, whatever pages its walk names, or, without one, since its bound unless its pages ran out, one where it names none. Warned exactly where there is no next page and the count is not reached |
| `OutboundSearches.SearchEnds` | internal/collect/community.go:975-1012 | A search that ran out of next pages has read its whole list or the thousand that are served, and one past its bound ends on an item past it |
| `OutboundSearches.NothingClosedIsMissed` | internal/collect/community.go:940-957 | Ordered by an index date between closing and updating, a closed search stopped on its bound or its end emitted every item closed at or after the bound |
| `OutboundSearches.AheadOfItsOriginal` | internal/collect/community.go:940-957 | A search run on two items, the first with an index date ahead of its update, stops on it and leaves unread one closed inside the bound |
| `SecurityCounts.OpenAlerts` | internal/collect/security.go:303-330 | Both walks' queries, and what they say, each by the reply it rests on; the first is read to its end, past every alert inside the bound, or a hundred for each page that came; the count is of the open rows read, or of the open list as far as its pages came, when that was asked for and answered |
| `SecurityCounts.CountIsTheWholeLists` | internal/collect/security.go:303-330 | Refused nowhere, the count is the number of open alerts in the whole list, wherever the first walk stopped |
| `SecurityCounts.BelowTheRowsReadIff` | internal/collect/security.go:315-330 | The count never exceeds the open alerts there are, and is below those in the rows read if and only if the open list answered and came in fewer pages than hold them |
| `SecurityCounts.AfterOnePageIff` | internal/collect/security.go:365-397 | After a walk of one page that comes down to one reply: the first page of the open list is too deep, with some row read open |
| `SecurityCounts.TooDeepCountsNone` | internal/collect/security.go:382-384 | A server on which a hundred open alerts are read and none is counted |
| `SecurityCounts.DependabotPages` | internal/collect/security.go:365-397 | Every page asked for led on but the last, and answered, more, failed and the rows are what that last reply makes of them: off only on a first page, a later refusal keeping the pages before, too deep ending the list |
| `SecurityCounts.CodeScanningPages` | internal/collect/security.go:404-429 | The same promises for the list paged by number, which ends at a short page |
| `SecurityCounts.OpenCountOfPrefix` | internal/collect/security.go:469-488 | Open alerts read are never more than the list holds |
| `SecurityCounts.CountOpen` | internal/collect/security.go:576-594 | The loop's count is the number of open rows |
| `SecurityCounts.OpenCountIs` | internal/collect/security.go:576-594 | It is the number of places in the rows where an alert is open |
| `JobExpansion.Actions.Collect` | internal/collect/actions.go:162-191 | After a sweep, failing or not, exactly the runs whose jobs are in the points returned are added to the memory, and all it holds that the listing still shows is marked seen now; it fails exactly at a run whose jobs were asked for and failed, with a row for every finished run before it |
| `JobExpansion.Actions.RunPoints` | internal/collect/actions.go:269-301 | Up to the first that fails, a run is asked for its jobs exactly if finished, unwritten and with fewer than MaxJobRuns such before it, or none if there is no limit; a row for each finished run, and the jobs of each run that answered |
| `JobExpansion.NeverListedAgain` | internal/collect/actions.go:277-297 | Over any sweeps no attempt is asked for again once listed, none twice in one sweep, and none asks for more than MaxJobRuns |
| `JobExpansion.WindowFillsIn` | internal/collect/actions.go:277-297 | After n error-free sweeps of a fixed window, exactly its first min(size, n * MaxJobRuns) finished runs are listed |
| `JobExpansion.AllAtOnce` | internal/collect/actions.go:277-297 | Without a limit one error-free sweep lists every finished run of its window not listed before, and those after it ask for nothing |
| `RefusalMemory.Refusals.GetJSON` | internal/collect/refusals.go:58-70 | No request exactly while the window of what is held is open, which is then the answer; otherwise the server's answer, and if it is a refusal it is held from when it came for a day, or the length set; nothing else held changes but a closed window for the path |
| `RefusalMemory.Refusals.Lookup` | internal/collect/refusals.go:73-85 | Answers what stands at the moment and forgets only a closed window |
| `RefusalMemory.StandsExactly` | internal/collect/refusals.go:58-94 | Over any interleaving of calls on a clock that never goes back, what stands for a path is the last refusal heard while its window is open, or what stood before the run |
| `RefusalMemory.UnaskedExactlyWhileItStands` | internal/collect/refusals.go:58-94 | From an empty memory a path is answered without a request if and only if some refusal heard for it is inside its window |
| `RefusalMemory.ClockSetBackAsksAgain` | internal/collect/refusals.go:80-83 | A clock set back makes it false: a lookup past the window forgets what an earlier time would still answer |
| `RefusalMemory.HeldIff` | internal/collect/refusals.go:73-94 | Whatever the clock does, a path is held after a run if and only if a refusal was heard for it and no lookup since the last one came at or past its window |
| `RefusalMemory.UnaskedOnAnyClockIff` | internal/collect/refusals.go:58-94 | On any clock a path is answered without a request if and only if the last refusal heard is inside its window and was never found closed |
| `RefusalMemory.ExactOnAnyClockIff` | internal/collect/refusals.go:80-83 | The rule of a clock that never goes back holds at every moment of any clock if and only if each refusal heard for the path is no later than one still held |
| `RefusalMemory.Refusals.Standing` | internal/collect/refusals.go:122-138 | Lists exactly the refusals whose window is open, with status, reason and window, in strictly ascending order of path |
| `RefusalMemory.Refusals.Recall` | internal/collect/refusals.go:144-166 | Whatever is held stays as it was; any other path is held exactly if the list has an open entry for it, by the first, with its status, reason and window |
| `RefusalMemory.RecallKeepsWhatIsHeld` | internal/collect/refusals.go:140-158 | Recalling any list leaves every path already held exactly as it was |
| `RefusalMemory.RecallTakesTheFirstOpen` | internal/collect/refusals.go:144-166 | A path not held is held afterwards exactly when the list has an open entry for it, by the first |
| `RefusalMemory.AClosedWindowBlocksRecall` | internal/collect/refusals.go:156-158 | A held window that closed unnoticed keeps a refusal that still stands from being recalled |
| `RefusalMemory.RecallStandsIff` | internal/collect/refusals.go:156-158 | Where the list has an open entry for a path, a refusal stands after recall if and only if the path was not held or is held inside its window |
| `RefusalMemory.RestartIsTransparentIff` | internal/collect/refusals.go:122-166 | Recalling what was listed into a fresh memory answers every later lookup as the old one, if and only if each standing refusal names the path it is held by |
| `RefusalMemory.RestartLosesNothing` | internal/collect/refusals.go:122-166 | A run cut by a restart, however long, answers every later lookup as the uncut run, as the client names the path in each refusal |
| `Walks.OlderIsPast` | internal/collect/collect.go:128-137 | Past is closed downwards: a dated item older than one past the bound is past it, which lets a newest-first walk stop |
| `Walks.PastIs` | internal/collect/collect.go:128-137 | An item is past exactly when it is dated and earlier than the bound: one at the bound, or without a date, is not |
| `Cursors.ReadOutReaches` | internal/collect/collect.go:128-137 | A newest-first list read to the first item past the bound leaves nothing inside the bound unread |

## Left out

- CoauthoredWalks.CoauthoredWalk.Walk: the trailer is one bit of each commit, so the regular expression is not modelled; the account is taken not to move during one walk.
- CoauthoredWalks.CoauthoredWalk.Page: the retry of a page at half its size is a loop of its own, where the source continues the loop of the walk; the size carries over to the next page in both.
- CoauthoredTallies.Achievements.Collect: for a server whose commit pages that promise more have their cursors; what a missing one does is said of the walk.
- CoauthoredTallies.StillThereSixDaysLater: the run it gives settles one pull request; that it generalises to any number is not stated.
- AliasBatches.Reading.Asked: the callback is not called back; the log of what was emitted, in order, stands for it, and a query may be any function of its batch and of that log, which is how cursors move between the chunks of one call.
- AliasBatches.Branches: one recursion serves both collectors, with the retry rule as the parameter; joined errors are a sequence of refusals, and what an inventory renders is the node. That a skippable refusal is asked again one at a time by one rule and in halves by the other is not stated apart: both lose and emit the same.
- DeploymentWalks.Collect: histories do not move while they are read; the rendering of a deployment is its identity.
- Caches.CacheEntries: on a listing whose newer entries overtake the pages already read nothing is claimed of what whole means; `RightCountIsRightReadingIff` is why. The loop and the comparison after it are two methods.
- Folds.CacheRows: the order of the rows is not stated; days since use and age are the two moments they are computed from.
- EventFeeds.NoGap: claims nothing after a sweep that does not join the one before it; `JoinsIff` says exactly when, `MovedTooFar` and `AGapStays` that it matters.
- IssueEvents.Collect: the order in which the rows of the two lists alternate is left open. The queries of the listing and of the items' own lists are numbered apart.
- IssueEvents.SkippingLosesNothing: for a bound that is set; a window that starts at the zero time skips nothing.
- PullsWalks.Collect: the switch to open items alone, and the review threads asked for, change what the lists are and not how they are walked.
- CommitWalks.Collect: `Since` standing in for an unset walk bound is the walk it is given; the rows of a commit's checks are their finishing moments.
- OutboundSearches.Search: the row of an item and the record of its repository are left out, one field each.
- SecurityCounts.OpenAlerts: what is written where a list is off, and the rows by severity, are left out; the first walk's refusal memory is that of `RefusalMemory`.
- JobExpansion.Actions.Collect: a listing of jobs that answered and one that had nothing are the same row here; the memory's cleaning by age, outside this file, is not part of this model.
- RefusalMemory.Refusals.GetJSON: a method is one step or two under the lock, and a run is any interleaving of such steps; a nil memory, which only asks, is left out. Paths are numbers in the order of the strings.
- `viewerDiscussionComments` and `discussionComments` of `internal/collect/community.go`, `codeScanningTotal` of `internal/collect/security.go`, `runList` of `internal/collect/actions.go`: a cursor walk without a property of its own, and single lookups.
- The HTTP, GraphQL and JSON transport, rate limits and conditional requests (`internal/ghapi` is not part of this model): an answer is a value, or one of the refusals the walks branch on.
- Rendering of tags, fields, URLs and durations, HTML, DSN and Link header parsing, and logging.
- The runner, ledger, checkpoint and lock of `internal/run`, beyond how the events collector is handed the last event.
- Lag and late delivery by GitHub, beyond the hypotheses named above.
- Sorting rows with the library: `Standing` is given an insertion that keeps the order.
