# Pumper: the dataset mirror and its companions, verified

A Dafny model of how a product mirrors a Pumper dataset, and of the pieces of the server and the clients
that mirror stands on. Everything below is proved for all inputs; nothing here was executed.

## The mirror

A feed is a sequence of revisions with strictly increasing positions (stamp, rowid). `Feed` says what one
revision means for the sink - upsert, tombstone, map drop, or anomaly (not `removed`, yet no post-image) -
and gives the reference: applying the feed revision by revision (`Fold`, per key `Settle`). `PagePlan` plans one
page, `Drain` specifies one undisturbed incremental run, `Snapshot` the cold-start export, and
`MirrorProtocol` is the protocol as a state machine: the server appends, a run reads a page or takes an
image, any part of it lands in the sink, the position is checkpointed, and a crash may fall between any two
of these steps. `MirrorClient` holds the objects a mirror works with; each carries a script of what its next
calls do, so that revisions arriving between requests, failing requests, sinks that break half way and
stores that refuse are all inputs. `MirrorSync.PumperSync` is the class itself: its methods are the loops of
sync.ts, and every one of them ensures that what it did - also when it failed half way - is a sequence of
protocol steps (`Reaches`), so the invariant proved about the protocol is a fact about the code.
`Backward` and `PythonSync` are the newest-first twin, `InstantProtocol` is what that one keeps over any
history of finished and broken runs, `TwinMirrors` runs the two side by side, and `TokenPosition` ties the
positions the mirror works with to the text of the stored token.

What the mirror is proved to need of its surroundings, and what happens without it:

- **Map drops.** With a `map` that returns null, page boundaries can show in the sink. They cannot exactly
  when no key ends on a drop after a revision of it that writes (`Drain.PagingAgreesExactly`); where runs may
  be cut anywhere, when no revision is dropped after an earlier one of its key was written
  (`NoDropAfterWrite`, part of `FeedOk`). A map that never returns null satisfies both.
- **The snapshot's map context.** A snapshot tells the map that every record `changed`. An export into an
  empty sink is worth the feed it was taken from exactly when the map does not tell `new` from `changed` on
  the live records that were never changed (`Snapshot.ExportIsFoldExactly`). The image may lag behind the feed:
  what is committed while the stream runs is drained later.
- **The page cap.** The server clamps a page to 1000 revisions (crates/server/src/routes/datasets.rs:1092) while the
  drain stops at a page shorter than `batchSize`, so a run with a larger batch reads one page and stops; one
  run drains everything exactly when the batch, or the backlog, fits the cap (`Drain.OneRunDrainsAll`).
- **Page accounting.** clients/typescript/src/types.ts:177-178 promises that `revisionsSeen - upserted - tombstoned` is
  accounted for in `skipped`. That identity is exact precisely when no dropped revision is superseded in its
  own page (`PagePlan.PageAccounting`, `PagePlan.AccountingCanOvercount`).
- **The bare instant.** A stamp alone loses the revisions of its instant that were not read yet
  (`Snapshot.InstantSkipsSiblings`), which shows in the sink exactly when some key is not written again and
  does not end there as it was before (`Snapshot.SkippingCostsExactly`); (stamp, rowid 0) does not
  (`MirrorSync.PumperSync.ColdStart`). Over a history of runs of the twin that stores one, an arrival keeps the
  mirror's invariant exactly when it is stamped past the instant or changes nothing
  (`InstantProtocol.ArrivalKeepsExactly`). The export's image may stamp a removal with an older `updated_at`,
  because removing a record does not move it (crates/core/src/datasets.rs:1558).
- **The Python twin.** Its docstring calls the two loops identical; they are not. It reads newest first, keeps
  the first revision per key, and consumes a missing post-image in silence. The two leave the same sink when
  everything up to and including the stored instant was applied, no post-image is missing and nothing is
  dropped after it was written (`Backward.BackwardIsForward`, for the loops themselves
  `TwinMirrors.CycleBoth`). The silence costs nothing exactly when no key ends on a drop or a missing
  post-image after a revision of it that writes (`Backward.SilenceExactly`); `Backward.SilenceLosesWrite` is a
  feed on which it does.

## Around the mirror

- `LineSplitter`: both copies of the incremental line reader against one specification.
- `EventLog`: the cursor walk over the event log, with events arriving under it.
- `Retry`: the two retry loops, and exactly where they wait out different things.
- `WatermarkToken` (over `Lexical`, `Decimal`, `Calendar`, `JsNumber`, `ShortestDigits`): widening a stamp to fixed-width UTC micros, and
  the token. A text that ends in Z is widened without checking that its fields name a real date. On the stamps
  of real times string order is chronological order, except that 24:00:00 is the same instant as the midnight
  after it and sorts before it, whatever the microseconds (`WatermarkToken.OrderExactly`). An offset text whose
  UTC year has not four digits is cut in the wrong place (`WatermarkToken.NormalFormExactly`). The rowid of a
  token the server minted is read exactly when a floating-point number can hold it
  (`WatermarkToken.TokenReadsExactly`); what is read is written in
  the fewest digits that read back (`ShortestDigits.FewestDigits`), so below 10^21 the token survives exactly when
  nothing that reads as its rowid ends in more zeros, and of what ends in as many its rowid is the nearest
  (`WatermarkToken.TokenSurvivesExactly`); 2^60 is read in full and comes back as another cursor
  (`WatermarkToken.CursorRewritten`). From 10^21 the number prints with an exponent, which does not parse
  (`WatermarkToken.RoundTripExactly`). Below 2^53 all of it holds.
- `HttpCache`: the response cache as a state machine over its table, with eviction. Over any later traffic a purge
  never shows for a key exactly when every refresh of the key finds it with the purge as without, and every
  eviction pass decides alike about it while it is live (`HttpCache.PurgeShowsExactly`). A pass counts the
  purged rows, so a purge can save a live row (`HttpCache.EvictionSeesPurge`) and can cost one
  (`HttpCache.PurgeCostsRow`).
- `Freshness`: the one-pass freshness model against grouping by key.
- `CacheKey`: what is hashed into a cache key, when it determines the request, and which requests share it: among others
  every request with a header, whose line can hide behind a NUL in another one's body (`CacheKey.SharesExactly`).
- `Budget`: the verdict, the two metered seams, and whole runs of calls. From one
  granted state the two seams record the same spend exactly when the engine failed or reported a positive
  bill (`Budget.SeamsAgreeExactly`): a missing bill makes a job unpriceable when `research` got it and passes as free
  when `fetch` did (`Budget.UnreportedFetchIsInvisible`), and a reported bill of zero counts as a priced
  call in one and not in the other (`Budget.ZeroBillParts`).
- `Jitter`: the 64-bit generator behind the jitter fraction.

A function that other statements lean on - a ceiling, a lifetime, an offset, a counter, a trimmed line - has a statement
of its own that does not name it, or values spelled out, so that what leans on it says what it seems to say.

Generics stand for payloads and mapped values; `Feed.Key` is a record key, only ever compared for equality. The
`hide` statements in some bodies keep a definition away from a proof that does not need it.

## Model

| member | source | states |
|---|---|---|
| PagePlan.PlanPage | clients/typescript/src/sync.ts:101-138 | the plan is a stall with one anomaly counted if any revision lacks its post-image; else the last verdict per key in first-mention order, with every drop and supersession counted |
| PagePlan.PlanWrites | clients/typescript/src/sync.ts:131-137 | a key is upserted (tombstoned) if and only if its last verdict in the page is that upsert (a removal), and never both |
| PagePlan.AppliedIsPlanned | clients/typescript/src/sync.ts:314-315 | the two sink calls leave each key at its last verdict, in either order |
| PagePlan.LastWriteWins | clients/typescript/src/sync.ts:95-96 | going forward, where the last revision of a key writes, last-wins agrees with applying revision by revision, whatever the sink held |
| PagePlan.PageAccounting | clients/typescript/src/sync.ts:116-137 | read = upserts + tombstones + keys ending on a drop + superseded; the report's identity is exact if and only if no dropped revision was superseded |
| PagePlan.PlanCounts | clients/typescript/src/sync.ts:101-138 | each counter of a plan alone: the keys whose last verdict is an upsert, those whose last is a removal, the revisions dropped, and those a later one of their key in the page replaces |
| PagePlan.PlanOrder | clients/typescript/src/sync.ts:106-137 | both lists are in the order in which the page first mentions their keys |
| PagePlan.AccountingCanOvercount | clients/typescript/src/types.ts:177-178 | a page on which the identity fails |
| Drain.WhereRunStops | clients/typescript/src/sync.ts:288-330 | a run passes no anomaly, stalls only in front of a page that holds one, and otherwise stops at the end of the feed or, with a batch over the cap, after one page |
| Drain.OneRunDrainsAll | clients/typescript/src/sync.ts:329 | on an anomaly-free backlog one run drains everything if and only if the batch or the backlog fits the server's cap |
| Drain.RunAccounts | clients/typescript/src/sync.ts:300-349 | over a run the report has seen what it passed plus the page it stalled on, names one anomaly exactly if it stalled, and names everything it passed |
| Drain.RunCounts | clients/typescript/src/sync.ts:286-327 | over a run each counter grows by what it is named for, counted on the stretch it passed page by page; a page it stalled on adds to none |
| Drain.DropsAddUp | clients/typescript/src/sync.ts:303 | the drops counted are the dropped revisions of the stretch, however it was cut |
| Drain.PagesNeeded | clients/typescript/src/sync.ts:315 | a stretch takes as few pages as the clamped page size allows |
| Drain.RunWatermark | clients/typescript/src/sync.ts:325-349 | the watermark is the position of the last revision passed, or where the run began |
| Drain.RunIsFold | clients/typescript/src/sync.ts:288-330 | whatever the batch size, a run leaves the sink at the revision-by-revision fold of what it read |
| Drain.PagingAgreesExactly | clients/typescript/src/sync.ts:127-136 | every way of cutting a backlog into pages leaves every sink at the fold if and only if no key ends on a drop after a write |
| Drain.DropsMakeBatchSizeVisible | clients/typescript/src/sync.ts:127-136 | a backlog whose drop makes batch sizes one and two differ |
| Drain.ReportIgnoresSink | clients/typescript/src/sync.ts:158-164 | the report and the stopping point of a run do not depend on what the sink held |
| Drain.RunPosition | clients/typescript/src/sync.ts:325-337 | the reported watermark is the position the run drained up to |
| MirrorProtocol.StepKeepsInv | clients/typescript/src/sync.ts:265-337 | appends, page reads, image reads, partial sink writes, checkpoints and crashes each keep the mirror invariant |
| MirrorProtocol.StepKeepsPosition | clients/typescript/src/sync.ts:325-328 | no step moves the stored position back |
| MirrorProtocol.ReachesKeepsInv | clients/typescript/src/sync.ts:288-337 | after any number of runs, crashes and appends the invariant holds and the position has not moved back |
| MirrorProtocol.CrashSafe | clients/typescript/src/sync.ts:288-337 | over every run, a key with no revision past the stored position has in the sink exactly its value in the fold of the feed up to it |
| MirrorProtocol.CaughtUpIsExact | clients/typescript/src/sync.ts:288-337 | once the position covers the feed the sink is the fold of the whole feed |
| MirrorProtocol.NeverPastAnomaly | clients/typescript/src/sync.ts:306-312 | over every run, a revision without its post-image past the snapshot's position stays ahead of the stored position, and no page in flight contains it |
| MirrorMoves.PageReaches | clients/typescript/src/sync.ts:314-328 | reading, fully applying and checkpointing a page is a legal sequence of protocol steps |
| MirrorMoves.BrokenPageReaches | clients/typescript/src/sync.ts:314-328 | so is a page that landed in part and was abandoned |
| MirrorMoves.SnapshotReaches | clients/typescript/src/sync.ts:245-251 | so is a snapshot flushed in full and checkpointed at or below its newest stamp |
| Snapshot.RecordIsLastVerdict | clients/typescript/src/sync.ts:232-241 | a record of a point-in-time image says what the last revision of its key says if and only if it is removed, was changed since it was new, or the map does not tell the two apart on it |
| Snapshot.ExportIsFoldExactly | clients/typescript/src/sync.ts:232-241 | exporting an image into an empty sink leaves the fold of the feed it was taken from if and only if the map does not tell new from changed on its live records that were never changed |
| Snapshot.ChangeBlindExactly | clients/typescript/src/sync.ts:238 | every image of every feed exports to the fold of that feed if and only if the map tells new from changed nowhere |
| Snapshot.FlushFolds | clients/typescript/src/sync.ts:219-230 | flushing a buffered chunk is folding its records |
| Snapshot.SnapshotAccounting | clients/typescript/src/sync.ts:219-244 | every record is upserted, tombstoned or dropped; both buffers stay below the batch, every flush but the last was forced by a full batch and none came late |
| Snapshot.ReportCounts | clients/typescript/src/sync.ts:252-263 | each counter of a snapshot's report: the live records the map keeps, the removed ones, the live ones it drops, and all of them |
| Snapshot.ReportPages | clients/typescript/src/sync.ts:219-245 | the flushes of a snapshot, the last one included, are as few as full batches of one kind allow |
| Snapshot.NewestStampIsMax | clients/typescript/src/sync.ts:46-50 | the running later-of-two is the maximum stamp |
| Snapshot.NewestStampIsBehind | clients/typescript/src/sync.ts:246-250 | the newest record stamp never lies past the prefix the image was taken from |
| Snapshot.TokenRereadsItsStamp | clients/typescript/src/watermark.ts:51-58 | resuming at (stamp, 0) re-reads exactly the revisions of that stamp and later |
| Snapshot.InstantSkipsSiblings | clients/typescript/src/watermark.ts:6-12 | resuming at created_at > stamp skips nothing if and only if no later revision shares the stamp |
| Snapshot.SkippingCostsExactly | clients/typescript/src/watermark.ts:6-12 | skipping a stretch of the feed leaves the sink of the whole feed if and only if every key is written again further on or ends in the stretch as it was before it |
| Snapshot.InstantLosesSibling | clients/typescript/src/watermark.ts:6-12 | so a skipped sibling that introduces a key never reaches the sink |
| MirrorClient.PumperClient.ChangesPage | crates/core/src/datasets.rs:1269-1307 | an ascending page is the first revisions past the cursor up to the clamped limit, and carries a cursor whenever it is not empty |
| MirrorClient.PumperClient.Head | clients/typescript/src/sync.ts:172-174 | the newest-first one-row read is the newest revision's stamp |
| MirrorClient.WatermarkStore.Set | clients/typescript/src/sync.ts:162-164 | a store takes the position or refuses and keeps what it had |
| MirrorSync.PumperSync.ApplyPage | clients/typescript/src/sync.ts:314-315 | a page's sink calls apply its plan, or break with each key at its old or its planned value |
| MirrorSync.PumperSync.ReadPage | clients/typescript/src/sync.ts:290-297 | a page read, with whatever the server appended before answering, is a protocol step and serves the stretch past the cursor |
| MirrorSync.PumperSync.SettlePage | clients/typescript/src/sync.ts:314-328 | the position moves only after the sink settled; a break in between is a legal crash |
| MirrorSync.PumperSync.OneTurn | clients/typescript/src/sync.ts:288-330 | one turn of the loop: a legal protocol move, and undisturbed one step of the drain's specification |
| MirrorSync.PumperSync.Incremental | clients/typescript/src/sync.ts:275-351 | the whole loop, under appends, failing requests, breaking sinks and refusing stores, is a sequence of protocol steps; it terminates; undisturbed its report, sink and stored value are those of the specified drain, each counter what was counted on the feed; what it leaves stored is the position of the last revision passed or the one it began at, but a stalled first page leaves the stored value verbatim |
| MirrorSync.PumperSync.StreamAll | clients/typescript/src/sync.ts:219-245 | the export loop leaves the sink at the fold of its records, in part if anything breaks, with the specified report |
| MirrorSync.PumperSync.Snapshot | clients/typescript/src/sync.ts:207-264 | a cold start is a sequence of protocol steps, restartable wherever it broke, and stores (newest stamp, 0) |
| MirrorSync.PumperSync.Run | clients/typescript/src/sync.ts:150-154 | a cycle keeps the invariant, and undisturbed returns and leaves what the specifications say |
| MirrorSync.PumperSync.PreviewThenRun | clients/typescript/src/sync.ts:66-83 | a dry run writes nothing and its report is the following run's in every field but `applied` |
| MirrorSync.PumperSync.ColdStart | clients/typescript/src/sync.ts:246-251 | snapshot, revisions committed meanwhile, drain: the sink is the fold of the whole feed, also after a crashed earlier snapshot |
| MirrorSync.PumperSync.SafeNow | clients/typescript/src/sync.ts:288-337 | the mirror object, after any history of runs, crashes and commits, holds the folded value of every key with no revision past its stored position |
| MirrorSync.PumperSync.StalledNow | clients/typescript/src/sync.ts:306-312 | after any such history its stored position is before every revision without a post-image that the snapshot's position had not passed |
| MirrorSync.PumperSync.Status | clients/typescript/src/sync.ts:169-201 | status writes nothing; up to date if and only if nothing lies past the position; pending is the first page a run would read |
| MirrorSync.FeedLagIs | clients/typescript/src/sync.ts:62-67 | the lag is the nearest whole second, halves up, and none when the feed is not ahead |
| Backward.FirstIsLast | clients/python/pumper_sync/sync.py:152-153 | the first revision of a key in newest-first order is its last in feed order |
| Backward.PassIsPlanned | clients/python/pumper_sync/sync.py:151-179 | a backward pass leaves each key where one forward page over the same stretch would |
| Backward.PassCounts | clients/python/pumper_sync/sync.py:163-180 | the pass writes as many keys as end its stretch on an upsert and removes as many as end it on a removal |
| Backward.PassIsFoldExactly | clients/python/pumper_sync/sync.py:151-179 | it is the fold, whatever the sink held, if and only if no key ends on a drop after a write |
| Backward.BackwardIsForward | clients/python/pumper_sync/sync.py:151-181 | with everything up to the stored instant applied, backward pass and forward drain both leave the fold of the whole feed |
| Backward.RereadIsFold | clients/typescript/src/watermark.ts:46-50 | re-reading revisions already applied, then the rest, is folding everything once |
| Backward.SilenceExactly | clients/python/pumper_sync/sync.py:168-173 | with missing post-images passed over in silence, the backward pass is the fold of the stretch, whatever the sink held, if and only if no key ends on a drop or a missing post-image after a revision that writes |
| Backward.SilenceLosesWrite | clients/python/pumper_sync/sync.py:168-173 | a feed whose missing post-image hides an older write from this loop, where the other stalls |
| PythonSync.FeedClient.ChangesPage | crates/core/src/datasets.rs:1269-1307 | a newest-first page is the newest revisions past the instant and before the cursor, with a cursor only when full |
| PythonSync.PumperSync.Gather | clients/python/pumper_sync/sync.py:163-173 | a page adds to the lists exactly the first revision of each key not seen before |
| PythonSync.PumperSync.Collect | clients/python/pumper_sync/sync.py:161-177 | the walk terminates and covers every revision past the instant as of its first page, however the feed grows meanwhile |
| PythonSync.PumperSync.Incremental | clients/python/pumper_sync/sync.py:151-182 | the sink becomes the backward pass over what is newer, and the newest stamp is stored only after both sink calls settled; a cycle that fails in a request, a sink call or the store keeps the instant and leaves each key at its old or its planned value; either way it is a run of the protocol |
| PythonSync.PumperSync.Write | clients/python/pumper_sync/sync.py:179-180 | the two sink calls leave the backward pass, or break with each key at its old or its planned value |
| InstantProtocol.TurnKeepsHeld | clients/python/pumper_sync/sync.py:151-182 | arrivals past the stored instant, broken cycles and finished cycles each keep the twin's invariant |
| InstantProtocol.FinishIsExact | clients/python/pumper_sync/sync.py:151-182 | a finished cycle leaves the fold of everything it read and an instant that claims all of it |
| InstantProtocol.ArrivalKeepsExactly | clients/typescript/src/watermark.ts:6-12 | an arrival keeps the invariant if and only if it is stamped past the instant or applying it leaves its key as the sink has it |
| InstantProtocol.InstantSafe | clients/python/pumper_sync/sync.py:151-182 | over any history of broken and finished cycles with every arrival on time, a key with no revision past the instant has in the sink exactly its value in the fold of what the instant claims |
| InstantProtocol.FoldHolds | clients/python/pumper_sync/sync.py:113-149 | such a history may start from any sink that is the fold of what its instant claims |
| TwinMirrors.CycleBoth | clients/python/pumper_sync/sync.py:1-14 | from one stored instant, over one feed without missing post-images, one undisturbed cycle of each mirror leaves both sinks at the fold of the whole feed |
| PythonSync.NewestSeenIsLast | clients/python/pumper_sync/sync.py:81-87 | the running later-of-two is the last revision's stamp, or the stored instant if nothing is newer |
| LineSplitter.GetLines | clients/cli/src/api.ts:86-109 | for every chunking, the lines delivered are the non-blank trimmed lines of the whole text, in order |
| LineSplitter.StreamNdjson | clients/typescript/src/http.ts:87-111 | the values delivered are the parsed lines on offer up to the first that does not parse; it ends on a bad line exactly if there is one, else too large exactly if the cap tripped |
| LineSplitter.LinesSplit | clients/typescript/src/http.ts:100-110 | a text falls into lines at every newline and at its end, and nowhere else |
| LineSplitter.PieceIsKept | clients/typescript/src/http.ts:103 | a piece with anything but white space yields everything from its first to its last such character, a blank one nothing |
| LineSplitter.LineOfDos | clients/cli/src/api.ts:101 | a carriage return before the newline goes with it |
| LineSplitter.LinesAreTrimmed | clients/typescript/src/http.ts:104-106 | no blank or untrimmed line is ever delivered |
| Lexical.TrimTakesSpaces | clients/typescript/src/http.ts:103 | trimming takes white space off both ends and nothing else |
| Lexical.TrimLeaves | clients/typescript/src/http.ts:103 | what stands between white space and neither starts nor ends with any is what is left |
| LineSplitter.CapTripsExactly | clients/typescript/src/http.ts:49-60 | the cap trips if and only if the whole stream is over it, and the bytes passed on stay within it |
| LineSplitter.CapOffersPrefix | clients/typescript/src/http.ts:49-60 | when the cap trips, the lines on offer are a prefix of those of the whole text |
| LineSplitter.CapOffersExactly | clients/typescript/src/http.ts:49-60 | every chunk passes up to the first that takes the total over the cap, and every line completed by then is on offer |
| LineSplitter.ParsedAre | clients/typescript/src/http.ts:87-111 | the values are the parsed lines in order, up to the first that does not parse |
| LineSplitter.ChunkingDoesNotMatter | clients/typescript/src/http.ts:100-110 | two chunkings of one text trip the cap alike, and within it deliver the same values and the same ending |
| LineSplitter.ChunkingOverCapExactly | clients/typescript/src/http.ts:49-60 | over the cap neither completes, and values and ending are the same if and only if both offer equally many lines or the shorter offer holds a bad one |
| LineSplitter.ChunkingShowsOverCap | clients/typescript/src/http.ts:49-60 | a text over the cap that ends on a bad line in one chunking and too large in another |
| EventLog.EventServer.EventsPage | crates/server/src/routes/events.rs:365-375 | a page is the first wanted events past the cursor up to the clamped limit; the next cursor is given if and only if it is full |
| EventLog.WantedIs | clients/typescript/src/client.ts:117-119 | a filter asks for one kind, one app, both or nothing; an empty one asks for nothing |
| EventLog.PastHas | crates/core/src/storage.rs:2416-2428 | what lies past a cursor is every wanted event with a greater number |
| EventLog.PageSizeIs | crates/server/src/routes/events.rs:365 | a page holds a hundred events, or as many as asked for up to five hundred |
| EventLog.Subscribe | clients/typescript/src/client.ts:134-147 | the walk terminates and yields each wanted event past the cursor once, ascending, also when events arrive meanwhile; stopped early, it has yielded a prefix |
| EventLog.ResumeIsExact | clients/python/pumper_sync/client.py:212-221 | a walk from the number of any yielded event is exactly the rest |
| EventLog.PastRises | crates/core/src/storage.rs:2420-2422 | what a walk yields is ascending and repeats nothing |
| Retry.Open | clients/python/pumper_sync/client.py:94-115 | the loop ends on the first answer not worth waiting for or after the configured retries, having waited twice as long each time |
| Retry.EndsAtFirst | clients/python/pumper_sync/client.py:101-115 | with every earlier answer worth waiting for, the loop ends at the first that is not, or at the retry limit |
| Retry.PythonWaitsOut | clients/python/pumper_sync/client.py:30-54 | the three codes and the four statuses this client waits out, and no others |
| Retry.CliWaitsOut | clients/cli/src/api.ts:76 | the same three codes, or without a code any status from 500 on; no answer at all is not waited out |
| Retry.SpentBudgetIsTerminal | clients/python/pumper_sync/client.py:8-13 | neither client retries a spent budget |
| Retry.TwinsAgreeExactly | clients/cli/src/api.ts:61-82 | exactly which answers the two clients treat alike |
| WatermarkToken.NormalFormExactly | clients/typescript/src/watermark.ts:32-41 | widening fails only on an offset text naming no real instant, and is canonical if and only if the text ends in Z or its UTC year has four digits |
| WatermarkToken.MatchExactly | clients/typescript/src/watermark.ts:24 | a text has certain parts if and only if it is the date, one of T, t and a blank, the time, a fraction if there is one, and the zone |
| WatermarkToken.OffsetExactly | clients/typescript/src/watermark.ts:38-40 | an offset names an instant if and only if the written reading is real, its hours below 24 and its minutes below 60; then the written reading is ahead of the widened one by hh:mm for a plus and behind it for a minus |
| WatermarkToken.ZuluKeepsFields | clients/typescript/src/watermark.ts:32-37 | a text ending in Z keeps its fields, and one outside the grammar is an error |
| WatermarkToken.WidensMorning | clients/typescript/src/watermark.ts:38-40 | 10:00 at +02:00 widens to 08:00 |
| WatermarkToken.WidensLeapDay | clients/typescript/src/watermark.ts:38-40 | half past midnight on the first of March 2024 at +01:00 widens to the leap day, the fraction cut |
| WatermarkToken.CutsSeconds | clients/typescript/src/watermark.ts:40 | in a year without four digits the text is signed and six digits long there, and the cut takes the seconds off |
| WatermarkToken.SpoilsLate | clients/typescript/src/watermark.ts:38-40 | the last hour of the year 9999, an hour behind UTC, widens to no canonical stamp |
| WatermarkToken.SplitExactly | clients/typescript/src/watermark.ts:25 | what is a token: something on one line, a bar and digits, cut at the last bar |
| WatermarkToken.ParsesTo | clients/typescript/src/watermark.ts:51-58 | a token parses to its widened stamp and its number, anything else to its widened stamp and rowid 0, and neither to an error |
| WatermarkToken.CanonicalIsFixed | clients/typescript/src/watermark.ts:32-41 | widening is idempotent |
| WatermarkToken.NeverLater | clients/typescript/src/watermark.ts:35-40 | the widened stamp keeps the second and truncates the fraction: never later than its input, and less than a microsecond earlier |
| WatermarkToken.OrderIsChronological | clients/typescript/src/watermark.ts:27-31 | on canonical stamps of real times before 24:00:00, string order is chronological order to the microsecond |
| WatermarkToken.OrderExactly | clients/typescript/src/watermark.ts:27-31 | on canonical stamps of all real times it is, except between the end of a day and the midnight after it: one second, and the end of the day sorts first |
| WatermarkToken.UnwidenedSortsLate | clients/typescript/src/watermark.ts:27-31 | unwidened, a whole-second stamp sorts after every fraction of its own second |
| WatermarkToken.TokenReadsExactly | clients/typescript/src/watermark.ts:51-56 | a token the server minted parses to its own rowid if and only if a floating-point number can hold it, so for every rowid below 2^53 |
| WatermarkToken.FormatsInFull | clients/typescript/src/watermark.ts:61-63 | formatting a position below 2^53 mints the server's own token |
| WatermarkToken.RoundTripExactly | clients/typescript/src/watermark.ts:51-63 | on every rowid a JavaScript number can be, parsing inverts formatting if and only if the number prints without an exponent; else it throws |
| WatermarkToken.TokenSurvivesExactly | clients/typescript/src/watermark.ts:51-63 | a server-minted token is parsed and formatted back to itself if and only if its rowid is below 10^21 and zero or the shortest that reads alike: none ends in more zeros, and of those ending in as many it is the nearest; so for every rowid below 2^53 |
| WatermarkToken.RowIdLost | clients/typescript/src/watermark.ts:55 | the stored token of rowid 2^53 + 1 is read as rowid 2^53 |
| WatermarkToken.CursorRewritten | clients/typescript/src/watermark.ts:61-63 | the token of rowid 2^60 is read in full and written back as another cursor |
| JsNumber.NumberExactly | clients/typescript/src/watermark.ts:55 | a digit string becomes the number it says if and only if that is a multiple of the spacing there |
| JsNumber.FirstGap | clients/typescript/src/watermark.ts:55 | the gaps begin at 2^53, and a tie goes to the even neighbour |
| JsNumber.TextIs | clients/typescript/src/watermark.ts:61-63 | a number prints in full, or from 10^21 as its first digit, the others without the zeros at the end, and how many follow |
| ShortestDigits.NumberMonotone | clients/typescript/src/watermark.ts:55 | larger digits never read as a smaller number |
| ShortestDigits.ShownExactly | clients/typescript/src/watermark.ts:61-63 | a number prints the digits of n if and only if n reads as it, nothing that does ends in more zeros, and of what ends in as many n is the nearest, the lower one on a tie |
| ShortestDigits.FewestDigits | clients/typescript/src/watermark.ts:61-63 | nothing that reads as a number has fewer significant digits than what it prints |
| TokenPosition.TokensAreStored | clients/typescript/src/watermark.ts:51-58 | a server-minted token parses to the position the mirror resumes from if and only if a floating-point number can hold its rowid, a bare instant always to row id 0 of its stamp |
| TokenPosition.PositionOrder | clients/typescript/src/watermark.ts:27-31 | the feed's order of positions is the text order of the stamps, then the order of the rowids |
| TokenPosition.TokenOrderExactly | clients/typescript/src/watermark.ts:61-63 | two whole tokens sort as text like their positions if and only if their stamps differ, or their rowids have equally many digits, or the shorter rowid is no more than as many leading digits of the other |
| TokenPosition.ShorterSorts | clients/typescript/src/watermark.ts:61-63 | of two rowids the one with fewer digits sorts first as text if and only if it is no more than as many leading digits of the other |
| WatermarkToken.LegacyIsRowZero | clients/typescript/src/watermark.ts:57 | a bare instant becomes the position below every revision of its stamp |
| WatermarkToken.EntriesAreApart | clients/typescript/src/watermark.ts:65-67 | datasets share a store entry only if they are the same, while app names hold no slash |
| WatermarkToken.MemoryWatermark.Set | clients/typescript/src/watermark.ts:71-81 | storing one dataset's watermark leaves every other dataset's alone |
| Calendar.ClockOrder | clients/typescript/src/watermark.ts:38-40 | clock readings are ordered as the instants they name |
| Calendar.DaysFollow | clients/typescript/src/watermark.ts:38-40 | days are numbered without a gap, the next one being the Gregorian calendar's |
| Calendar.ClockRoundTrip | clients/typescript/src/watermark.ts:38-40 | reading the clock and counting seconds are inverse |
| HttpCache.HttpCache.Get | crates/core/src/cache.rs:98-123 | a hit is the last stored response for the key, its caller's TTL not over since the last confirmation, and confirmed within max_age; a disabled cache never hits |
| HttpCache.HttpCache.GetStale | crates/core/src/cache.rs:130-164 | the stored row, whatever its age, is the last stored response |
| HttpCache.HttpCache.Put | crates/core/src/cache.rs:272-303 | the table after a put; only a success is stored, and an existing row keeps its url |
| HttpCache.HttpCache.Refresh | crates/core/src/cache.rs:175-189 | a stored row is re-dated and its body kept, an absent one is not created, and the observation is logged |
| HttpCache.HttpCache.PurgeExpired | crates/core/src/cache.rs:306-312 | exactly the expired rows go, and their number is returned |
| HttpCache.HttpCache.EvictOverCap | crates/core/src/cache.rs:330-350 | a pass removes the min(over, 5000) oldest rows and returns their number |
| HttpCache.HttpCache.PruneRevalidations | crates/core/src/cache.rs:213-220 | exactly the observations older than the retention, at least a day, go |
| HttpCache.HitIsLastStored | crates/core/src/cache.rs:98-123 | after any sequence of put, refresh, purge and evict, a hit is the response of the last stored put, before the TTL given with the last confirmation is over - an hour if that TTL is over 2^63 - 1 milliseconds - and confirmed within max_age |
| HttpCache.LiveIsServed | crates/core/src/cache.rs:98-123 | a stored response is served, under any max_age its last confirmation meets, as long as no confirmation's TTL is over, if no eviction pass ran |
| HttpCache.ExpiresInTime | crates/core/src/cache.rs:98-123 | a minute's TTL lasts to the microsecond, and so does a max_age |
| HttpCache.UrlIsFirst | crates/core/src/cache.rs:272-303 | a row keeps the url it was first stored under until it is removed |
| HttpCache.PurgeShowsExactly | crates/core/src/cache.rs:306-350 | over any later traffic, no answer for a key ever differs from what it would have been without the purge if and only if every refresh of the key finds it in both tables or in neither and every eviction pass decides alike about it while it is live |
| HttpCache.EventExactly | crates/core/src/cache.rs:98-350 | one put, refresh, purge or pass keeps two alike tables alike for a key if and only if it is none of those two cases |
| HttpCache.PurgeIsInvisible | crates/core/src/cache.rs:306-312 | a purge changes no answer for a key, then or after further traffic, up to a refresh of it or an eviction pass that finds the unpurged table over its cap |
| HttpCache.RefreshShowsPurgeExactly | crates/core/src/cache.rs:175-189 | a refresh answers differently after a purge if and only if the row was there and had expired by the purge |
| HttpCache.RefreshRevives | crates/core/src/cache.rs:175-189 | until it runs out again, a refreshed row that had expired is served, unless a purge came first |
| HttpCache.PassShowsPurgeExactly | crates/core/src/cache.rs:330-350 | an eviction pass shows an earlier purge to a live key if and only if the number of its older rows is at least the pass's size in one table and not in the other |
| HttpCache.EvictionSeesPurge | crates/core/src/cache.rs:330-350 | an eviction pass after a purge can spare a live row that it would have taken |
| HttpCache.PurgeCostsRow | crates/core/src/cache.rs:330-350 | and can take a live row that it would have spared |
| HttpCache.EvictedExactly | crates/core/src/cache.rs:341-348 | evicting n rows spares exactly the rows with at least n older ones |
| HttpCache.EvictedAre | crates/core/src/cache.rs:341-348 | an eviction of n rows removes exactly n, and every survivor is greater in (created_at, key) than every row removed |
| HttpCache.SurvivorsAreNewer | crates/core/src/cache.rs:341-348 | what an eviction leaves was confirmed later than what it took, or at the same time under a greater key |
| HttpCache.PassExactlyTo | crates/core/src/cache.rs:330-350 | a pass changes nothing without a cap or within it, else goes down to the cap or by 5000 rows |
| HttpCache.EvictionConverges | crates/core/src/cache.rs:330-350 | repeated passes reach exactly max_rows after exactly ceil(over / 5000) of them, holding the newest rows; no cap, no eviction |
| HttpCache.EvictionSparesConfirmed | crates/core/src/cache.rs:325-329 | what a pass evicts was confirmed no later than anything it keeps |
| Freshness.LearnsGaps | crates/core/src/cache.rs:414-425 | the fold counts checks and changes, and its estimate is the moving average over the gaps between consecutive changes |
| Freshness.EwmaBetween | crates/core/src/cache.rs:450-455 | the average lies between the shortest and the longest gap, and exists if and only if there is a gap |
| Freshness.GapIs | crates/core/src/cache.rs:420 | a gap is its whole seconds, rounded down, but at least one |
| Freshness.EwmaWeighs | crates/core/src/cache.rs:450-455 | each gap weighs three tenths against everything before it, the first stands alone |
| Freshness.IntervalBounds | crates/core/src/cache.rs:414-425 | a key has a learned interval if and only if it changed twice, and it is at least a second |
| Freshness.PredictionWindow | crates/core/src/cache.rs:427-446 | the prediction lies between one second and the longest gap past the last change, or the prior past the last change or check, and the due time's sign says on which side of now |
| Freshness.FinishTells | crates/core/src/cache.rs:427-446 | what an entry says of its key's history, the predicted change to the whole second of the learned interval, and the due time in milliseconds cut off toward now |
| Freshness.FreshnessFold.Observe | crates/core/src/cache.rs:414-425 | one observation advances the fold as specified |
| Freshness.FoldRows | crates/core/src/cache.rs:243-261 | the pass over rows ordered by key yields one entry per group, unparseable stamps skipped |
| Freshness.GroupsAre | crates/core/src/cache.rs:243-261 | there is exactly one group per key with a parseable row, in increasing order |
| Freshness.Freshness | crates/core/src/cache.rs:227-268 | over the rows the query gives: the pass, sorted by due time and cut to the limit |
| Freshness.MostUrgent | crates/core/src/cache.rs:262-268 | the result is ordered by urgency, each entry is its key's own group folded, and any key left out is due no sooner than everything kept |
| CacheKey.HashInput | crates/core/src/cache.rs:68-91 | the hasher is fed exactly the specified encoding |
| CacheKey.EncodesAs | crates/core/src/cache.rs:68-91 | one input spelled out |
| CacheKey.EncodesResearchAs | crates/core/src/cache.rs:495-518 | and one of the research key |
| CacheKey.OrderDoesNotMatter | crates/core/src/cache.rs:77-78 | the encoding does not depend on the order headers iterate in |
| CacheKey.KeyDetermines | crates/core/src/cache.rs:68-91 | without separators in the fields, two encodings are equal if and only if the requests are, an absent body or proxy counting as empty |
| CacheKey.SharesExactly | crates/core/src/cache.rs:68-91 | some other request shares the input of a request if and only if it has a header, or a NUL in its url or body, or a proxy that starts with a NUL or holds two in a row |
| CacheKey.SeparatorsCollide | crates/core/src/cache.rs:68-91 | two pairs that do: by a separator inside a body, and inside a header name |
| CacheKey.ResearchKeyDetermines | crates/core/src/cache.rs:495-518 | without a NUL in the five texts in front, two research inputs are equal if and only if the answer-shaping fields are, absent counting as empty and the turn limit told from its absence |
| CacheKey.ResearchSharesExactly | crates/core/src/cache.rs:495-518 | some other research request shares the input of one if and only if it has a NUL in one of those texts, or a schema text in which, at the start or after a NUL, and in front of a NUL, stands nothing or a 32-bit number |
| CacheKey.KeyWithDetermines | crates/core/src/cache.rs:525-535 | under a collision-free digest, extended keys are equal if and only if request and fingerprint are |
| CacheKey.KeyWithIs | crates/core/src/cache.rs:525-535 | a fingerprint goes behind the plain key's text and a NUL, digested again |
| Budget.RefusalExactly | crates/core/src/app.rs:423-434 | exactly when a job is refused: it has a ceiling, and it is reached or its spend cannot be priced |
| Budget.ChargedIsMean | crates/core/src/costs.rs:171-185 | each unreadable bill is charged the mean of the readable ones |
| Budget.ChargedOtherwise | crates/core/src/costs.rs:171-256 | nothing is charged for unreadable bills under the other policy or without any, and no charge exists when none could be read |
| Budget.HeadroomIs | crates/core/src/costs.rs:289-303 | the headroom is what the charge leaves of the budget, never negative, and none when nothing can be priced |
| Budget.HeadroomIsBilledAtMost | crates/core/src/costs.rs:289-303 | headroom never promises more than the billed money leaves |
| Budget.MirrorIsLedger | crates/core/src/costs.rs:414-425 | the in-memory total equals the ledger's sum if and only if no event is negative, and never shows less |
| Budget.LedgerCounts | crates/core/src/costs.rs:226-237 | the ledger's sum counts the bills read, the bills missing or uncertain, and every row's dollars |
| Budget.NeverOverBudget | crates/core/src/app.rs:591-660 | over any sequence of sequential calls to engines that honour their ceiling and report their bill, billed spend is what was paid and never exceeds the budget |
| Budget.CeilingExactly | crates/core/src/app.rs:309-311 | the ceiling an engine is asked with: under a budget at most what is left, at most the caller's own, and one of the two; without a budget the caller's own |
| Budget.RunKeepsCeilings | crates/core/src/app.rs:439-680 | over any sequence of calls no honest engine's bill exceeds its caller's own ceiling, in either seam |
| Budget.UnreachedIsFree | crates/core/src/app.rs:439-680 | a call that does not reach its engine pays nothing |
| Budget.RefusalIsFinal | crates/core/src/app.rs:423-434 | once out of money, no further honest call changes the spend |
| Budget.DowngradeIsRefusal | crates/core/src/app.rs:491-505 | fetch gives up its paid tier in exactly the states in which research refuses |
| Budget.HitsAreFree | crates/core/src/app.rs:608-625 | cache hits and replays are recorded and add nothing |
| Budget.ReplayOnlyRecords | crates/core/src/app.rs:440-452 | a replay records what the cassette has and touches nothing else |
| Budget.AnswerIsKept | crates/core/src/app.rs:607-678 | an answer is kept exactly if it may be and is not empty |
| Budget.AnswerLeaves | crates/core/src/app.rs:563-574 | what an answer leaves in the ledger, in each seam: a bill, a missing bill, a free row |
| Budget.FreeFetchRecords | crates/core/src/app.rs:491-505 | a fetch without its paid tier records a free row exactly if a free tier answers |
| Budget.RefusedChangesNothing | crates/core/src/app.rs:423-434 | research that is refused changes nothing |
| Budget.FailureLeaves | crates/core/src/app.rs:640-646 | what a failed call leaves in the ledger and the total, kind by kind |
| Budget.SeamsAgreeExactly | crates/core/src/app.rs:566-574 | from one granted state both seams record the same spend if and only if the engine failed or reported a positive bill |
| Budget.UnreportedFetchIsInvisible | crates/core/src/app.rs:566-574 | on a fresh job: a missing bill blinds research's ceiling visibly and fetch's not at all |
| Budget.ZeroBillParts | crates/core/src/app.rs:566-574 | on a fresh job: a reported bill of zero leaves a job priceable after research and not after fetch, once one more bill is unreadable |
| Budget.SpentTotal.AddOne | crates/core/src/costs.rs:414-425 | one recorded call advances the dollars, if positive, and the counter of its certainty |
| Budget.AppContext.ResearchCall | crates/core/src/app.rs:591-680 | replay, cache, refusal, clamp, call and metering, as one state change |
| Budget.AppContext.FetchCall | crates/core/src/app.rs:439-582 | replay, downgrade or clamp, call and metering, as one state change |
| Jitter.CapNeverActs | crates/core/src/jitter.rs:13-18 | the fraction is in [0, 1), so the final minimum never acts |
| Jitter.FirstFractions | crates/core/src/jitter.rs:13-18 | the first words and fractions of the generator |
| Jitter.ScrambleIsBijective | crates/core/src/jitter.rs:14-16 | the scramble is a bijection on 64-bit seeds, with its inverse |
| Jitter.OutputsAreEven | crates/core/src/jitter.rs:17 | each of the 2^31 outputs has exactly 2^33 seeds |
| Jitter.TicksSpread | crates/core/src/jitter.rs:13-18 | fractions of consecutive seeds, wrapping included, differ by more than 0.34 |

## Left out

- Requests, timers, abort signals, SQLite and SHA-256: pages, tables and chunk lists are values, the clock is a
  parameter, and key properties are proved on what is hashed.
- `filter`, mixed trust levels and exports that are no point-in-time image: the mirror promises nothing there.
- Hard deletes at the origin: no `removed` revision enters the feed.
- MirrorSync.PumperSync.Incremental: a stored value that is neither a token nor an instant makes the run throw before it reads
  anything; only the two forms that parse are modelled. `onProgress` is left out.
- MirrorSync.PumperSync.Run: two runs of one mirror at the same time are not modelled.
- PythonSync.PumperSync.Incremental: the Python snapshot, which is the other one's loop storing a bare stamp instead of a position.
- LineSplitter.StreamNdjson: UTF-8 decoding; a chunk is the text it decodes to, and nothing is left in the decoder at the end.
- EventLog.Subscribe: pruning of the log while it is walked.
- WatermarkToken.NormalFormExactly: an offset text with a day past the end of its month counts as no real instant, as ECMA-262
  has it; an engine may be more lenient.
- HttpCache.HttpCache.GetStale: picking the validators out of the response headers; times finer than a microsecond;
  an expiry past the end of the clock.
- Freshness.Freshness: the join, the ordering and the row limit of the query; its rows, as those of `FoldRows`, are the input.
- CacheKey.KeyWithDetermines: a digest has collisions; the statement is about the input and an ideal digest. A JSON schema is its text.
- Budget.NeverOverBudget: concurrent metered calls, which read the total before the call; rounding and non-finite dollars;
  the tier router; a ledger write that fails.
- Budget.AppContext.ResearchCall: a cached answer does not expire; the external telemetry sink.
- Calendar.ClockOrder: years before -1.
- JsNumber.NumberExactly: numbers past the largest finite one, of more than 308 digits, which a token's digits would become.
- `job.rs`, `backup.rs`, `agent_tools.rs`, `router_pin`, `safe_path_segment`, argument parsing, the plugins and the generated types:
  single-branch or list facts that would only add easy members.
