# Verified cores of the race statistics service

A Dafny model of the parts of the service whose correctness spans several functions, processes or files,
with proofs about every input, every run or every interleaving. PostgreSQL tables are maps and sequences, a
`BEGIN .. COMMIT` block is one step, and code that works by updating state is a class or a loop proved
against a specification function; the theorems are about those functions.

- `Canonical`, `Leaderboard`, `Ingest`, `IngestHistory`, `IngestContents`: player grouping and the ingest transaction.
  What the tables hold after any run is read off the requests alone, ids only grow, and no ingest improves a
  surviving row's rank.
- `Announcer`, `RecordPipeline`: the record announcer's cursor over those ids. Because ranks never improve,
  skipping ids is safe: once the first baseline is on disk no record is missed over any run with failures and
  restarts.
- `Numbers`, `EventLine`, `Collector`, `CollectorTick`, `CollectorRuns`, `EndToEnd`: the tail of the game server's log, from
  a printed line to the stored record.
- `MonthlyCup`: the monthly generator on any number of replicas, with operators and crashes in between.
- `Bytes`, `ZipPack`, `ZipRead`, `ZipTheorems`, `ZipForeign`: the streamed archive (PKWARE APPNOTE.TXT 4.3.7, 4.3.12,
  4.3.14 to 4.3.16, 4.5.3) and the repository's own reader, on these archives and on others.
- `PackServe`, `RangeHeader`, `PackHandler`: the archive's byte ranges (sections 14.1.1 and 14.1.2 of RFC 9110),
  the download handler with its stream slots, and resumed downloads.
- `Bresenham`, `Blur`, `BlurKernel`, `Splat`: the line, the sliding-window blur and the density grid of the heatmaps.
- `Topscores`, `TopscoresFeed`, `TopscoresForms`, `SeedMerge`, `ColouredNames`: the topscores file, its two readers on
  printed and on hand-written text, the seeding run, and what coloured names are read as.
- `Censor`: name masking with its index maps.
- `SingleFlight`: the leader and follower protocol of the response cache.
- `PerfectRun`, `MapgenQuota`, `Streak`: stitched runs, request quotas with their refunds after rejections and failed builds, and
  the gaps-and-islands query.

## Promises the code does not keep on every input

The members named give an input that shows it, or the exact condition under which the promise holds, or both.

- The announcer goes on when its state cannot be saved. A restart before the first save takes a new baseline and
  passes over the records in between (`RecordPipeline.FirstRecordIsLost`, `RecordPipeline.NothingIsEverMissedIff`).
- A page size above 50 makes the announcer pass over records (`RecordPipeline.OversizedPageSkipsARecord`,
  `RecordPipeline.GoodPollSkipsNothingIff`).
- A collision suffix is taken off once only, so it changes the identity of a name that ends with one
  (`Canonical.TwoSuffixesDiffer`, `Canonical.SuffixKeepsIdentityIff`).
- A log line longer than 8 MiB stops the tail (`CollectorRuns.LongLineStopsTail`, `CollectorRuns.TickAdvancesIff`).
- Negative attempt counts, which the HTTP route never passes on but `ingest` accepts, make the tallies differ from
  the daily buckets (`IngestHistory.AttemptsMatchBucketsIff`).
- The reader misses entries with names outside ASCII, and those of archives at or above the zip64 limits
  (`ZipTheorems.ReaderFindsEntryIff`).
- The download handler refuses range lists and a capital in the unit, which RFC 9110 reads
  (`RangeHeader.ListAndCapitalAreRefused`, `RangeHeader.DepartsIff`).
- Seeding is described as merge-only and idempotent (web/seed-topscores.js:5-8), but a database race with more
  than 64 checkpoints, which the endpoint allows up to 4096, stops the seeder's reader at its own output: the
  next run drops every record behind it that is only on disk (`SeedMerge.LongRaceLosesRecord`,
  `SeedMerge.SecondRunSameIff`).
- A quota limit of zero still admits the first request (`MapgenQuota.LimitsHoldIff`), and a job queued again under a
  worker that still runs can be refunded twice (`MapgenQuota.StaleWorkerRefundsTwice`,
  `MapgenQuota.AlwaysCountedIff`).
- The saving over the record can be negative when the record lacks a split (`PerfectRun.SavingIsNeverNegativeIff`).
- With Redis in use a key can have any number of leaders (`SingleFlight.ManyLeadersWithRedis`,
  `SingleFlight.SecondLeaderIff`); without it, one.
- A client that leaves during its Redis lookup can leave an entry in flight until its handler answers
  (`SingleFlight.LateLeaderExists`, `SingleFlight.EntryOutlivesIff`).
- A force of a skipped month can be overwritten by a pass that read the month before it (`MonthlyCup.StalePassExists`,
  `MonthlyCup.ForceIsKeptIff`).
- Masking is not idempotent (`Censor.MaskIsNotIdempotent`, `Censor.MaskTwiceIff`).

## Model

| member | source | states |
|---|---|---|
| `Canonical.SuffixedIdentity` | web/db.js:354-361 | the identity of a name with `(N)` written behind it is the name as it stands, lower-cased and without colours, with no suffix taken off |
| `Canonical.SuffixKeepsIdentityIff` | web/db.js:354-361 | a collision suffix `(N)`, whatever its digits, leaves the identity alone exactly when the stripped name has none of its own |
| `Canonical.TwoSuffixesDiffer` | web/db.js:354-361 | `b (2)(3)` and `b (2)` have different identities |
| `Canonical.IdentityIgnoresCase` | web/db.js:354-379 | letter case makes no difference to an identity or a grouping key |
| `ColouredNames.StripIs` | web/db.js:311-313 | whatever way a name is laid out in colour codes and characters, stripping it leaves the characters |
| `ColouredNames.NameIsLaid` | web/db.js:311-313 | every name has such a layout |
| `ColouredNames.KeyIs` | web/db.js:354-379 | the grouping key reads a name twice, so codes that appear once others are gone go too; it ignores the login, and empty names share one key |
| `Canonical.ResolveKeepsGrouping` | web/db.js:7307-7336 | resolving any (name, login) keeps the grouping invariant, changes no other row and never moves a representative |
| `Canonical.GroupsAreKeys` | web/db.js:315-379 | in every consistent table two players share a canonical id if and only if their grouping keys are equal, and a representative represents itself |
| `Canonical.RebuildGroups` | web/db.js:502-541 | the rebuild restores the invariant from any grouping, keeps the partition and makes the maximum of each key by (latest race id, player id) its representative |
| `Canonical.RepresentativeIsLatest` | web/db.js:502-541 | after the rebuild each row points at the row of its key with the latest race, and of several such, or with no races at all, at the highest id |
| `Canonical.BestIsUnique` | web/db.js:509-519 | the maximum of a key is one player, the same for any two orders of reading the table |
| `Canonical.RebuildIsOrderFree` | web/db.js:502-541 | the rebuilt tables are the same whatever order the rows were read in |
| `Canonical.FindWinners` | web/db.js:509-520 | the scoring loop over the rows computes the winner of each key (the fold whose maximality `WinnersAreBest` proves) |
| `Canonical.WinnersAreBest` | web/db.js:509-520 | for every key read there is a winner, and it is the best row of its key |
| `Canonical.PeopleStore.ResolvePlayer` | web/db.js:7307-7336 | the statements of the get-or-create, in order, leave exactly the specified tables and return the resolved id |
| `Canonical.PeopleStore.RebuildCanonical` | web/db.js:502-541 | delete, re-point and re-insert leave exactly the specified tables |
| `Leaderboard.UpsertKeepsBest` | web/db.js:7190-7246 | the stored best of the record's key becomes the smaller of the two times; no other stored time moves |
| `Leaderboard.UpsertFaster` | web/db.js:7190-7246 | for every surviving row the number of strictly faster rows does not go down |
| `Leaderboard.UpsertEvolves` | web/db.js:7190-7246 | replacing a row only by a strictly faster one promotes no surviving row |
| `Leaderboard.RerankRanks` | web/db.js:7247-7257 | after the re-rank every row of the map has rank 1 + the number of strictly faster rows, and no other map is disturbed |
| `Leaderboard.NoPromotion` | web/db.js:7190-7257 | between any two ranked boards of one history a surviving row's rank number never goes down |
| `Leaderboard.PageIsFirst` | web/db.js:957-1007 | a page of `recordsAfter` is the first `limit` qualifying ids in increasing order, and a short page is all of them |
| `Leaderboard.RecordsAfterIs` | web/db.js:957-1007 | GET /api/records answers the first rows behind the id within the rank, in order, rank and limit counting from 1 to 50 |
| `Ingest.RaceDb.UpsertRace` | web/db.js:7190-7246 | the read, the two deletes and the insert leave the specified board and outcome |
| `Ingest.RaceDb.LogRun` | web/db.js:7153-7188 | the racelog half of a record bumps the tally, the log and the attempts as specified |
| `Ingest.RaceDb.Ingest` | web/db.js:7077-7287 | the whole transaction, loops included, is the specified function of the tables |
| `IngestContents.TablesHoldTheRequests` | web/db.js:7077-7287 | over every run from empty tables, by the requests alone: a stored run is the first of the fastest submitted for its player, map and version, with its splits; finishes count the live ones and attempts are the sum reported |
| `IngestContents.RowsAreFirstFastest` | web/db.js:7190-7246 | each race row is the first of the fastest runs of its player, map and version, with the time and splits it was submitted with |
| `IngestContents.LogIsTheLiveRuns` | web/db.js:7153-7188 | over every run the finish log is the live runs in the order submitted, each with its player, map, version, time and splits |
| `IngestContents.BucketsHoldTheVolume` | web/db.js:7259-7287 | over every run each bucket of a day and a server holds the attempts above zero reported there that day |
| `IngestContents.CountsAreRight` | web/db.js:7190-7246 | the answered counts are one for each record; inserted ones are the rows gained, and with the improved ones the ids handed out |
| `IngestHistory.IngestKeepsValid` | web/db.js:7077-7287 | one request keeps all table invariants; ids are never reused and surviving rows keep their time |
| `IngestHistory.RunKeepsValid` | web/db.js:7077-7287 | over every run of requests the invariants hold, in particular every rank is 1 + the number of strictly faster rows |
| `IngestHistory.RanksNeverImprove` | web/db.js:7190-7257 | over every run a surviving row's rank number never goes down |
| `IngestHistory.NewIdsAreHigher` | web/db.js:7292-7301 | a row that was not there before has an id above every id handed out so far |
| `IngestHistory.RunKeepsRepresentatives` | web/db.js:7307-7336 | over every run no player changes group and no key changes its representative |
| `IngestHistory.BestTimesOverRuns` | web/db.js:7190-7246 | from an empty database the stored time of each (player, map, version) is the minimum ever submitted, and a row exists exactly when something was |
| `IngestHistory.BestTimesIgnoreOrder` | web/db.js:7190-7246 | batching, order and repetition of the submissions do not change the stored times |
| `IngestHistory.FinishesMatchLog` | web/db.js:7150-7188 | over every run a key's finish tally is its number of rows in the finish log |
| `IngestHistory.AttemptsMatchBuckets` | web/db.js:7095-7188 | over every run the tallied attempts are the daily buckets' total minus what negative counts took off |
| `IngestHistory.AttemptsMatchBucketsIff` | web/db.js:7277-7285 | the tallied attempts equal the daily buckets exactly when no reported count was negative |
| `Announcer.AnnouncerProcess.PostBatch` | discord/announcer.js:138-165 | a batch is posted exactly when the first reply that is no rate limit is a success within the retries, and lost exactly when that reply is a failure or every POST allowed met a rate limit |
| `Announcer.AnnouncerProcess.PostEmbeds` | discord/announcer.js:138-171 | the batch loop posts, moves the cursor and saves as specified, stopping at the first failure |
| `Announcer.AnnouncerProcess.PollOnce` | discord/announcer.js:173-227 | one poll, with its cursor and file writes, is the specified step |
| `Announcer.PollIs` | discord/announcer.js:138-227 | one poll by the replies alone: batches are posted in order up to the first that is not acknowledged, the cursor stands behind the acknowledged ones, a whole page moves it on, and the file holds the last cursor whose save worked |
| `Announcer.OneDecision` | discord/announcer.js:138-165 | a batch has at most one deciding reply |
| `Announcer.PostedWasAccepted` | discord/announcer.js:138-171 | each id a poll posts stands in a batch whose deciding reply was a success, or the failure report of a POST that did arrive, and the cursor moves over acknowledged batches only |
| `RecordPipeline.PollSkipsNothing` | discord/announcer.js:173-227 | with a page size within the clamp and a cursor once a baseline was taken, one poll against any outside world leaves every row owed since the first baseline ahead of the cursor or posted |
| `RecordPipeline.RebaselineSkipsNothingIff` | discord/announcer.js:179-192 | a poll that finds no cursor takes the highest id instead and leaves nothing out exactly when every qualifying row above the first baseline was already posted |
| `RecordPipeline.IngestSkipsNothing` | web/db.js:7077-7287 | an ingest keeps that promise, because a row that qualifies now either qualified before or is new |
| `RecordPipeline.NoRecordIsMissed` | discord/announcer.js:138-227 | over every run of ingests, polls with any failures, and restarts that find the saved cursor, each row ranked within the threshold above the first baseline is ahead of the cursor or already posted |
| `RecordPipeline.NothingIsEverMissedIff` | discord/announcer.js:74-98 | from every safe state with a baseline, no continuation whatever misses a record exactly when a cursor has reached the disk |
| `RecordPipeline.PostedStaysBelow` | discord/announcer.js:138-227 | over every run only ids the database handed out are posted |
| `RecordPipeline.FirstRecordIsLost` | discord/announcer.js:74-98 | from a fresh start, a first baseline that could not be saved, one record, a restart and a faultless poll lose that record |
| `RecordPipeline.PostedIdsIncrease` | discord/announcer.js:138-227 | without restarts and lost acknowledgements posted ids strictly increase over every run |
| `RecordPipeline.GoodPollSkipsNothingIff` | discord/announcer.js:173-227 | a faultless poll leaves no due row out exactly when the page size is at most 50 or at most 50 rows were due |
| `RecordPipeline.FiftyOneRecordsIsSound` | discord/announcer.js:216-224 | the board of the next row is indexed and ranked as the database keeps it |
| `RecordPipeline.OversizedPageSkipsARecord` | discord/announcer.js:216-224 | with a page size of 51 and 51 due rows a faultless poll passes over the last one |
| `RecordPipeline.PollDrains` | discord/announcer.js:173-227 | a faultless poll takes a full page, or all there is, off the backlog |
| `RecordPipeline.EverythingGetsPosted` | discord/announcer.js:173-227 | once the outside world works, n polls post every qualifying row of a backlog of n pages |
| `EventLine.EventRoundTrip` | collector/collector.js:104-116 | any finish written as a log line is parsed back whole; the name may hold tabs |
| `EventLine.ParsedIsGenuine` | collector/collector.js:107-116 | whatever is parsed comes from a marked line of at least six fields, with its map, positive time, login, a name and no negative split |
| `Text.SplitConcat` | collector/collector.js:107-116 | splitting a joined text at a separator splits its two sides |
| `Numbers.ParseShown` | collector/collector.js:107-116 | `parseInt` of a printed integer is that integer |
| `Numbers.ParseIntIs` | collector/collector.js:107-116 | a text of white space, a sign and digits reads as that number whatever follows |
| `Numbers.NumberStarts` | collector/collector.js:107-116 | no other text is a number |
| `Collector.GroupLines` | collector/collector.js:147-163 | the line loop fills the per-map groups as specified |
| `Collector.CollectorProcess.PostRecords` | collector/collector.js:84-102 | the chunk loop sends the specified deliveries and stops at the first failure |
| `Collector.CollectorProcess.PumpRacelog` | collector/collector.js:118-179 | one tick, with its state writes in order, is the specified step |
| `CollectorTick.GroupedKeepsOrder` | collector/collector.js:147-163 | grouping leaves one group a map with its records in the order of the log |
| `CollectorTick.TickIs` | collector/collector.js:118-179 | one tick by the file and the answers alone: it delivers the whole lines behind its cursor in chunks of at most the batch size, each map's records in order, up to the first failed POST; only without one does the offset move behind them and, when the save works, reach the disk |
| `CollectorTick.UnsavedTickRepeats` | collector/collector.js:118-179 | a tick whose save failed, a restart and another tick deliver the same lines twice |
| `CollectorRuns.EventsConcat` | collector/collector.js:140-163 | cutting a text at a line start cuts its events there, so no event is split or doubled |
| `CollectorRuns.GroupedHolds` | collector/collector.js:147-163 | grouping by map keeps exactly the parsed events, each as often as it was read |
| `CollectorRuns.TickPostsWholeLines` | collector/collector.js:118-179 | what one tick posts are records of complete parseable lines of the file and nothing else |
| `CollectorRuns.TickHandles` | collector/collector.js:147-170 | a tick without a failed POST settles each complete line of its window exactly once more, equal lines each for itself |
| `CollectorRuns.TickKeepsValid` | collector/collector.js:118-179 | whatever fails during it, a tick keeps the promise that the deliveries since the file began settled each line before a cursor as often as it was written |
| `CollectorRuns.TickAdvancesIff` | collector/collector.js:136-146 | without failures the offset moves just past the last newline of the 8 MiB window, so it moves exactly when the window holds a newline |
| `CollectorRuns.NothingIsLost` | collector/collector.js:84-179 | over every schedule of ticks, failures, crashes, appends and rotations both offsets are 0 or just past a newline, and since the file began every parseable line before them was accepted or dropped with a 4xx, equal lines as often as they were written |
| `CollectorRuns.LongLineStopsTail` | collector/collector.js:136-146 | with a line longer than the 8 MiB window at a cursor, no schedule that keeps the file gets a cursor past its start |
| `CollectorRuns.TicksReachTheEnd` | collector/collector.js:136-146 | with every complete line shorter than the window, enough good ticks reach the last newline |
| `CollectorRuns.FirstWorldIsSound` | collector/collector.js:118-132 | a fresh tail before any first file keeps the promise |
| `EndToEnd.CommitStores` | web/server.js:1865-1893 | every valid record of an accepted delivery is stored, or beaten, afterwards |
| `EndToEnd.LoggedFinishIsStored` | web/db.js:7190-7246 | over every run a finish logged before the tail's offset was dropped with a 4xx, failed validation, or is in the database at least as fast, under its player, map and version |
| `EndToEnd.PrintedFinishIsStored` | collector/collector.js:104-179 | over every run, once the tail has passed a line printed for a finish, that finish was dropped with a 4xx, failed validation, or is in the database at least as fast |
| `EndToEnd.SanitizeIs` | web/server.js:1865-1893 | a record is valid exactly with a name and a time from 50 ms to a day; names are cut to 64, the time stays, the first 4096 splits are brought between zero and a day |
| `EndToEnd.GoodFinishIsStored` | web/server.js:1865-1893 | a printed finish within those bounds is dropped with a 4xx or in the database at least as fast under that very player and the map in lower case |
| `EndToEnd.FirstWorldIsValid` | web/db.js:7077-7287 | a fresh tail and empty tables are a world the theorems speak about |
| `MonthlyCup.DecisionsLast` | web/db.js:6717-6776 | over every run `scheduled` and `cancelled` decisions never change, and a skip changes only by an operator's force |
| `MonthlyCup.StepMadeOne` | web/db.js:6958-7034 | a step makes at most one edition, for a slot that was not scheduled and then is |
| `MonthlyCup.AtMostOneEdition` | web/db.js:6790-7034 | over every interleaving of any number of replicas, operators and crashes at most one edition is made per series and month |
| `MonthlyCup.CalendarLasts` | web/migrations/20260801140000000_tournament_single_window.sql:1-40 | over every run live windows stay disjoint, slugs unique and references resolve |
| `MonthlyCup.EditionsLast` | web/db.js:5716-5730 | over every run an edition that is not deleted keeps its series, and a finalized one stays as it is |
| `MonthlyCup.OwnEditionIsAdopted` | web/db.js:6884-6912 | a pass whose calendar read shows its own edition adopts it as scheduled and never records `blocked` |
| `MonthlyCup.MadeInFreeWindows` | web/migrations/20260801140000000_tournament_single_window.sql:1-40 | over every interleaving an edition is made only at a moment when nothing live overlaps its window, however stale the pass's look at the calendar is, forced or not |
| `MonthlyCup.EmptyWorldIsSound` | web/db.js:6717-6756 | the empty database with idle replicas satisfies the invariants |
| `MonthlyCup.PassMeetsSlug` | web/db.js:6829-6893 | one pass that finds the month's slug taken records its own edition as scheduled, or cancelled if called off, and changes nothing for any other holder |
| `MonthlyCup.PassMeetsOwnWindow` | web/db.js:6895-6912 | with the slug free, one pass records a live edition of its own on the calendar as scheduled |
| `MonthlyCup.PassMeetsBlocker` | web/db.js:6895-6926 | any other live edition in the window makes one pass record `blocked`, and a force request stays on the row |
| `MonthlyCup.PassSkips` | web/db.js:6928-6961 | with a free window one pass records a thin pool as such, and a collision unless the month is forced |
| `MonthlyCup.UndecidedMonthHeals` | web/db.js:6790-7034 | an undecided month with a free slug, a free window and a viable pool gets exactly its edition in one pass |
| `MonthlyCup.PassRests` | web/db.js:6804-6820 | one pass changes nothing in a decided month or once the window has opened |
| `MonthlyCup.BlockerGoneHeals` | web/db.js:6884-6926 | deleting or calling off the one blocker lets the next pass make the edition |
| `MonthlyCup.ForcedMonthHeals` | web/db.js:6758-6776 | a skipped month that is forced in time gets its edition in the next viable pass, and without the force the same pass changes nothing |
| `MonthlyCup.ForceRefused` | web/db.js:6737-6757 | a force of anything but a skip, or after the window opened, changes nothing |
| `MonthlyCup.ForceSurvives` | web/db.js:6822-6828 | a force that meets no pass under way holds over every run: the request stays on record through any block, no overlap is recorded, and the first viable pass makes the edition |
| `MonthlyCup.ForceIsKeptIff` | web/db.js:6717-6735 | no continuation overwrites a force exactly when no pass that read the slot before it is still under way |
| `MonthlyCup.StalePassExists` | web/db.js:6717-6735 | two replicas can reach a skipped month with such a pass under way |
| `ZipPack.DosStampDecodes` | web/mappack.js:97-109 | both stamps fit 16 bits and decode to the time, to two seconds; unusable times clamp to the start of 1980 |
| `ZipPack.LocalHeader` | web/mappack.js:111-131 | the buffer filled field by field is the local header whose fields `HeadersAgree` reads back |
| `ZipPack.CentralHeader` | web/mappack.js:133-169 | the directory record with its sentinel and zip64 extra field, as specified |
| `ZipPack.EndRecords` | web/mappack.js:171-206 | the end record alone, or zip64 record, locator and end record, as the sizes demand |
| `ZipPack.BuildLayout` | web/mappack.js:214-258 | the loop over the sorted entries builds the specified segments, offsets and directory |
| `ZipPack.OffsetsGrow` | web/mappack.js:228-243 | each entry's offset is the length of everything written before it |
| `ZipRead.FindEocd` | web/random-deck.js:126-140 | the backward scan finds the last end record of the tail |
| `ZipRead.WalkDirectory` | web/random-deck.js:151-183 | the forward walk reads the first record whose latin1 name is the wanted one in lower case, as specified |
| `ZipRead.ReadPackEntry` | web/random-deck.js:122-183 | the reader, on any bytes and any name a caller passes, returns what the specification gives, null on anything unreadable |
| `ZipTheorems.LayoutSpellsArchive` | web/mappack.js:214-258 | the layout's segments follow each other without gaps and spell the archive byte for byte |
| `ZipTheorems.RecordDecodes` | web/mappack.js:133-169 | a directory record decodes to its name, versions, flags, method, stamps, checksum, both sizes, attributes and true offset, 64-bit offsets included |
| `ZipTheorems.ArchiveDecodes` | web/mappack.js:171-258 | a strict decoder of one-disk archives recovers count, directory size and offset and every entry with its true local offset, at any size and any number of entries |
| `ZipTheorems.HeadersAgree` | web/mappack.js:111-169 | at its decoded offset every entry has a local header with the same name, flags, method, stamps, checksum and sizes as its directory record, stored, and with the file time right to two seconds |
| `ZipTheorems.ExtractReturnsData` | web/mappack.js:228-243 | extracting at a decoded offset returns exactly the entry's bytes |
| `ZipTheorems.LatinReadsIff` | web/random-deck.js:161-162 | a name stored in UTF-8 and read as latin1 is the caller's name, ignoring case, exactly when it is ASCII |
| `ZipTheorems.ReaderFindsEntryIff` | web/random-deck.js:122-183 | asked for an entry by its own name, the repository's reader returns exactly its bytes if and only if the directory lies below the 32-bit sentinels, the entry is among the first 65535 and its name is ASCII; else it returns nothing |
| `ZipTheorems.ReaderMissesOthers` | web/random-deck.js:151-183 | an ASCII name no entry has, ignoring case, is not found, whatever the other entries are called |
| `ZipForeign.EocdIsLast` | web/random-deck.js:126-140 | the backward scan finds the last end record, whatever follows it |
| `ZipForeign.ReaderAgrees` | web/random-deck.js:122-183 | on archives of any origin the strict decoder reads, with offsets in their own slots, the reader returns the first counted entry of that name, stored or deflated as its method says, and nothing for other methods, broken local headers or a directory placed by zip64 |
| `PackServe.SortSorts` | web/mappack.js:216-222 | the sort by name is ordered and a permutation |
| `PackServe.LayoutIgnoresOrder` | web/mappack.js:214-258 | the same entries in any order give the same layout byte for byte |
| `PackServe.ReadRange` | web/mappack.js:260-289 | the generator's segment walk yields the specified stream |
| `PackServe.RangeIsArchiveSlice` | web/mappack.js:260-289 | for every 0 <= start <= end < size the stream is exactly archive[start..end] |
| `PackServe.StreamFinishesIff` | web/mappack.js:260-289 | a stream finishes exactly when every file it touches is still long enough, and then has the promised length |
| `RangeHeader.AcceptedIff` | web/mappack.js:735-740 | the handler accepts a Range header exactly when it is one lower-case `bytes=` range of two digit strings, not both empty |
| `RangeHeader.RangeRoundTrip` | web/mappack.js:735-753 | a printed range reads back as itself |
| `RangeHeader.AcceptedSet` | web/mappack.js:735-753 | on an accepted header the range set of section 14.1.1 of RFC 9110 is that one range, or invalid when it runs backwards |
| `RangeHeader.BoundsAreSelection` | web/mappack.js:740-757 | the bounds computed from one parsed range are exactly the positions it selects, and none when it selects none |
| `RangeHeader.DepartsIff` | web/mappack.js:735-757 | the handler serves other bytes than section 14.1.2 of RFC 9110 selects exactly when the header is valid and satisfiable and lists several elements or writes the unit with a capital; it then serves nothing |
| `RangeHeader.ListAndCapitalAreRefused` | web/mappack.js:735-740 | `bytes=0-1,4-5` and `Bytes=0-1` select bytes and are refused |
| `PackHandler.MapPack.Begin` | web/mappack.js:725-772 | the handler up to its body gives the specified response and takes a stream slot exactly when there is a body |
| `PackHandler.MapPack.Deliver` | web/mappack.js:773-774 | the body is the specified stream of the layout |
| `PackHandler.MapPack.Finish` | web/mappack.js:783-785 | the end of a body, however it came, gives its slot back |
| `PackHandler.AnswerDelivers` | web/mappack.js:707-774 | for every request a body is the announced part of the archive byte for byte, as long as Content-Length says; a partial one is exactly what the header selects, and 416 is answered only to a header that selects nothing or departs from the standard; 304 and If-Range go by the tag |
| `PackHandler.BusyIff` | web/mappack.js:762-771 | with all slots taken exactly the responses that would have a body become 503, and HEAD gives the headers of GET |
| `PackHandler.SlotsAreRunningBodies` | web/mappack.js:766-785 | over every interleaving of requests and ends of bodies the counter is the number of running bodies, at most the limit, and 503 is answered exactly when that many are running |
| `PackHandler.ResumeReassembles` | web/mappack.js:707-774 | however often a download breaks, the bytes received by resuming it with the archive's tag are together exactly the archive |
| `PackHandler.StaleResumeRestarts` | web/mappack.js:730-734 | a resume with the tag of another archive gets the whole archive from its start |
| `Bresenham.NearestBounds` | web/bsp.js:218-229 | the pixel chosen is the nearest to the true line and inside the box |
| `Bresenham.StepStaysNear` | web/bsp.js:221-228 | one iteration's two tests move the longer axis always and keep the signed distance within half of it |
| `Bresenham.Line` | web/bsp.js:218-229 | the loop terminates for all endpoints and plots exactly the ideal line |
| `Bresenham.LineJoinsEndpoints` | web/bsp.js:218-229 | the line starts at one endpoint, ends at the other and has one pixel per step of the longer axis |
| `Bresenham.PixelsAreClose` | web/bsp.js:218-229 | no pixel leaves the bounding box, and twice the distance abs(dx*j - dy*i) is at most max(dx, dy) for every pixel |
| `Bresenham.LineIsConnected` | web/bsp.js:218-229 | consecutive pixels touch and the longer axis moves every time |
| `Blur.WindowSlides` | web/heatmap.js:126-133 | adding the entering cell and dropping the leaving one is the next clamped window sum |
| `BlurKernel.PointSpreads` | web/heatmap.js:123-134 | one pass gives each cell within the radius of a point an equal share of it, and others nothing |
| `BlurKernel.EdgeSpreads` | web/heatmap.js:123-134 | the first cell counts once more for each position the window hangs over the edge |
| `BlurKernel.SmoothMirrors` | web/heatmap.js:123-134 | left and right are alike |
| `BlurKernel.SmoothAdds` | web/heatmap.js:123-134 | the pass is linear |
| `Blur.BlurRow` | web/heatmap.js:125-134 | the sliding loop writes the naive clamped mean to every cell of the row and touches nothing else |
| `Blur.BlurColumn` | web/heatmap.js:136-145 | the same down a column, with stride |
| `Blur.HorizontalPass` | web/heatmap.js:123-134 | a pass leaves every row smoothed |
| `Blur.VerticalPass` | web/heatmap.js:135-145 | a pass leaves every column smoothed |
| `Blur.BlurGrid` | web/heatmap.js:116-148 | for every width, height, radius and number of passes the grid ends as the naive blur applied that often; below radius 1 it is not touched |
| `Blur.BlurredBounds` | web/heatmap.js:116-148 | however many passes, no cell leaves the range of the input |
| `Splat.Extent` | web/heatmap.js:221-236 | the box of pass 1 covers every finite frame and each of its sides goes through one |
| `Splat.FitIsInside` | web/heatmap.js:183-199 | for every size from 64 up the fit rectangle lies within the canvas |
| `Splat.FitIsCentred` | web/heatmap.js:183-199 | the extent is padded alike on all sides, the longer side fills the canvas, the shorter keeps the aspect to half a pixel from 64 up, and both are centred to half a pixel |
| `Splat.NorthIsUp` | web/heatmap.js:258-261 | the padded box has its corners on the corner pixels, pixels grow with x and shrink with y, in proportion |
| `Splat.RadiusIs` | web/heatmap.js:271-272 | the blur radius is a pixel for every 220 of the canvas, rounded, and at least one |
| `Splat.FrameFits` | web/heatmap.js:183-199 | for every size from 64 up all four pixels around any frame of the extent exist |
| `Splat.SplatCell` | web/heatmap.js:320-323 | the cell gains the value if it exists and no other cell changes |
| `Splat.CornersAreTents` | web/heatmap.js:260-267 | the four corner weights are the bilinear kernel at every pixel of the plane |
| `Splat.SplatFrame` | web/heatmap.js:259-267 | each cell gains the kernel weight, and the grid gains exactly the frame's weight when the four pixels exist |
| `Splat.Accumulate` | web/heatmap.js:252-269 | every cell ends as the sum of all kernels, and from size 64 up the grid's sum is the frames' whole weight |
| `Splat.MassIsGhostsIff` | web/heatmap.js:252-269 | that weight is the number of ghosts with frames, each counting 1 whatever its length, exactly when every frame is finite; else it is less |
| `Splat.Density` | web/heatmap.js:205-272 | both passes and the blur: no grid when no frame is finite, else the three-fold naive blur of the summed kernels |
| `Topscores.Tokenize` | web/seed-topscores.js:38-61 | the tokenizer's loop yields the specified tokens |
| `Topscores.ParseExistingText` | web/seed-topscores.js:64-90 | the record loop reads the specified entries |
| `Topscores.QuoteIsToken` | web/seed-topscores.js:46-51 | a quoted token is read back whole, whatever follows it |
| `Topscores.SeederReadsBack` | web/seed-topscores.js:31-90 | printing and reading back gives the entries before the first one with more than 64 sectors, without those that lack a time or a name |
| `Topscores.SeederRoundTripIff` | web/seed-topscores.js:31-90 | the round trip is exact precisely for entries with a time, a name and at most 64 sectors |
| `TopscoresFeed.ParseTopscoresText` | collector/collector.js:184-204 | the record loop reads the specified records |
| `TopscoresFeed.HeaderIsStripped` | collector/collector.js:185-185 | of a printed file only the header line is removed as a comment |
| `TopscoresFeed.CollectorReadsBack` | collector/collector.js:184-204 | printing and reading with the collector gives every entry with a time and a name, whatever its number of sectors, negative sectors as zero |
| `TopscoresFeed.CollectorRoundTripIff` | collector/collector.js:184-204 | that round trip is exact precisely for entries with a time, a name and no negative sector |
| `TopscoresFeed.ReadersAgree` | collector/collector.js:184-204 | both readers get the same records from entries with at most 64 non-negative sectors |
| `TopscoresFeed.GameTopscoresText` | web/db.js:1224-1249 | the loop prints the sanitised named rows in order |
| `TopscoresFeed.ServedTextReadsBack` | web/db.js:1224-1249 | a collector reading the served text gets every named row of it, in order |
| `TopscoresForms.PiecesAreRead` | web/seed-topscores.js:38-61 | off any text laid out in blanks, comments, quotations and bare words the tokenizer reads exactly the quotations and words; an unclosed quotation ends it |
| `TopscoresForms.PiecesAreWords` | collector/collector.js:185-187 | the collector reads the same tokens off such a text without comments |
| `TopscoresForms.NotesAreStripped` | collector/collector.js:185-185 | the collector empties the comment lines wherever they stand and keeps every other line |
| `TopscoresForms.LoginIsRead` | collector/collector.js:188-203 | a record with a login behind its time is read like a printed one; the collector keeps the login, the seeder drops it |
| `TopscoresForms.UnquotableGoes` | web/seed-topscores.js:26-29 | quotes, breaks and tabs leave no trace in a sanitised name |
| `TopscoresForms.QuotableStays` | web/seed-topscores.js:26-29 | a name without them stays, up to 64 characters |
| `SeedMerge.MergeAll` | web/seed-topscores.js:121-127 | the Map loop computes the merge in insertion order |
| `SeedMerge.MergeKeepsBest` | web/seed-topscores.js:121-127 | the merge keeps one entry per nick, at least as fast as each entry of that nick, and invents none; a known nick keeps its place |
| `ColouredNames.NickIs` | web/seed-topscores.js:20-24 | the nick of a name laid out in colours, doubled carets and characters is its characters and carets in lower case |
| `ColouredNames.NickIsLaid` | web/seed-topscores.js:20-24 | every name without a NUL has such a layout |
| `SeedMerge.TopIsTop` | web/seed-topscores.js:128-128 | sort and cut give the first 50 by time and, for ties, by place |
| `SeedMerge.TopIsUnique` | web/seed-topscores.js:128-128 | there is only one such list |
| `SeedMerge.SeedMap` | web/seed-topscores.js:97-152 | one run over a map writes the specified text |
| `SeedMerge.SecondRunSameIff` | web/seed-topscores.js:119-146 | on an unchanged database a second run writes the same text exactly when every entry from the first one with more than 64 sectors on is the database's own |
| `SeedMerge.SeedingIsAFixpoint` | web/seed-topscores.js:119-146 | with at most 64 sectors per database race a second run writes the same text for every file, ties and the cut included |
| `SeedMerge.LongRaceLosesRecord` | web/seed-topscores.js:79-82 | a database race with 65 sectors makes the second run lose a record that is only on disk |
| `SeedMerge.BodyIsInjective` | web/seed-topscores.js:131-142 | a printed file determines its entries |
| `Censor.NormIndex` | web/censor.js:43-58 | the aggressive normal form and its index map, as specified |
| `Censor.SimpIndex` | web/censor.js:62-73 | the colour-stripped form and its index map, as specified |
| `Censor.StripIsKept` | web/db.js:311-313 | `simplifyName` is the characters at the kept positions |
| `Censor.MarkTerm` | web/censor.js:125-135 | the `indexOf` loop marks exactly the positions inside some occurrence, overlaps included |
| `Censor.MarkWords` | web/censor.js:140-153 | the regular expression's loop marks exactly the positions of whole-word matches |
| `Censor.InWordIff` | web/censor.js:113-116 | a position is in a whole-word match exactly when it is in a maximal letter-digit run equal to a term |
| `Censor.BuildMatcher` | web/censor.js:96-116 | the two lists hold exactly the normalised non-empty terms of each mode |
| `Censor.NormalizeIs` | web/censor.js:78-82 | a normalised term is its letters and digits in lower case, in order |
| `Censor.LeetIs` | web/censor.js:26-31 | exactly the digits 013457 are read as letters, as oieast |
| `Censor.CaseIsIgnored` | web/censor.js:43-73 | letter case changes neither the starred positions nor the tripped terms |
| `Censor.Collect` | web/censor.js:118-156 | the starred set and the tripped terms are exactly the occurrences in the stripped or leet-folded form and the whole words |
| `Censor.Mask` | web/censor.js:166-172 | the masked name has a star exactly at each offending position and is the name elsewhere |
| `Censor.OffendersAreLetters` | web/censor.js:118-156 | only letters and digits outside colour codes are starred |
| `Censor.StarsKeepCodes` | web/censor.js:177-181 | starring keeps the length and every colour code and makes none |
| `Censor.SimplifyCommutes` | web/censor.js:177-181 | simplifying a masked name stars the same letters of the simplified name |
| `Censor.MaskAll` | web/censor.js:185-198 | every letter and digit outside colour codes becomes a star, all else stays |
| `Censor.MaskAllTripsNothing` | web/censor.js:185-198 | a fully masked name trips no term of either mode, whatever the word list |
| `Censor.MaskIsStableIff` | web/censor.js:158-172 | masking leaves a name alone exactly when no term trips on it |
| `Censor.MaskTwiceIff` | web/censor.js:118-172 | masking twice is masking once exactly when no norm term stands in the name's unstarred letters read together, literally or leet-folded, and no longest stretch of unstarred letters is a whole-word term |
| `Censor.MaskIsNotIdempotent` | web/censor.js:166-172 | with the term `ab`, `aabb` is masked to `a**b`, and that to something else |
| `SingleFlight.RunKeepsValid` | web/cache.js:80-178 | over every interleaving each entry in flight is an unsettled leader's, each leader settles at most once, and shared or cached bodies came from a 200 run for the same key |
| `SingleFlight.SharedBodiesAreSound` | web/cache.js:80-178 | the same spelled out for every run of a fresh process: entries, served bodies and settle calls |
| `SingleFlight.RanIsProduced` | web/cache.js:112-135 | every body counted as such was in fact sent with status 200 by a handler running for that key |
| `SingleFlight.StepKeepsOutcome` | web/cache.js:107-135 | what a settled leader's promise holds never changes |
| `SingleFlight.ArrivalJoins` | web/cache.js:155-166 | an arrival that finds an entry follows the running leader of its key |
| `SingleFlight.FollowerFate` | web/cache.js:155-166 | over every run a follower ends where the events say: served or sent off at its first turn after the first event that resolved its leader's promise, sent off by its own timeout |
| `SingleFlight.NextTurnIff` | web/cache.js:155-166 | a waiting follower is served with b on its turn exactly when its leader first answered 200 with the string body b, and runs the handler itself exactly when there was nothing to share or it timed out |
| `SingleFlight.BodyIsShared` | web/cache.js:80-166 | whatever happens in between, the body of a leader's 200 response reaches each follower that does not time out |
| `SingleFlight.HitIsServed` | web/cache.js:168-177 | a lookup that hits serves the stored body and runs no handler |
| `SingleFlight.StoredIff` | web/cache.js:112-124 | over every run exactly the string bodies of 200 responses sent while Redis was ready are stored |
| `SingleFlight.CloseReleasesFollowers` | web/cache.js:131-134 | when the connection of a leader closes for the first time while it leads, its entry is gone and no follower has to wait |
| `SingleFlight.CloseSettlesIff` | web/cache.js:131-134 | the close event settles a leader exactly when it has not fired before |
| `SingleFlight.EntryOutlivesIff` | web/cache.js:131-178 | an entry in flight outlives its connection exactly when the connection closed during the leader's own lookup |
| `SingleFlight.LateLeaderWaits` | web/cache.js:131-178 | such a leader stays unsettled over every run in which its handler does not answer |
| `SingleFlight.AnswerSettles` | web/cache.js:107-130 | any answer of its handler settles a leader and drops the entry of its key |
| `SingleFlight.LateLeaderExists` | web/cache.js:131-178 | a client that leaves during its lookup leaves such an entry behind |
| `SingleFlight.OneLeaderWithoutRedis` | web/cache.js:156-168 | over every run in which Redis is not used a key has at most one running leader |
| `SingleFlight.SecondLeaderIff` | web/cache.js:80-178 | a second leader of a key appears exactly when an event makes a request lead while another leader of its key has not settled |
| `SingleFlight.ManyLeadersWithRedis` | web/cache.js:168-177 | with Redis any number of lookups of one key may all miss and all lead |
| `SingleFlight.Middleware.OnRequest` | web/cache.js:102-168 | the arrival of a request updates the Map and the request as specified |
| `SingleFlight.Middleware.OnSend` | web/cache.js:112-130 | the wrapped `send` settles, stores and counts as specified |
| `SingleFlight.Middleware.OnLookup` | web/cache.js:168-177 | the end of a lookup serves the hit or makes the request a leader |
| `SingleFlight.Middleware.OnClose` | web/cache.js:131-134 | the first close releases those who wait, a later one changes nothing |
| `SingleFlight.Middleware.OnLeaderDone` | web/cache.js:155-165 | a follower takes the settled body, or runs the handler when there is none |
| `SingleFlight.Middleware.OnTimeout` | web/cache.js:155-165 | a follower whose timer fires first runs the handler itself |
| `PerfectRun.BestIsLeast` | web/db.js:2331-2352 | the scan keeps the least delta of each segment over all races, always above zero, none when no race has one |
| `PerfectRun.BestIsFirst` | web/db.js:2331-2352 | a segment is credited to the first race scanned that was that fast |
| `PerfectRun.PerfectIsOrderFree` | web/db.js:2300-2388 | the perfect time does not depend on the order of the races |
| `PerfectRun.PerfectIsAtMost` | web/db.js:2300-2388 | the perfect time exists and is at most the time of every race with strictly increasing positive splits at all checkpoints |
| `PerfectRun.SavingIsNeverNegativeIff` | web/db.js:2381-2387 | `savingVsWr` can never be negative, whatever other races are scanned, exactly when the record race has full splits |
| `PerfectRun.MissingSegmentLoses` | web/db.js:2331-2352 | next to a slow full race, a record without some segment gives a negative saving |
| `PerfectRun.Group` | web/db.js:2316-2324 | the row loop builds the split arrays in first-row order and the highest checkpoint number |
| `PerfectRun.ScanRace` | web/db.js:2331-2352 | one race's pass with its `prev` bookkeeping improves each segment by exactly its own delta |
| `PerfectRun.MaxNumberIs` | web/db.js:2316-2324 | the highest checkpoint number is one that occurs and no other is above it |
| `PerfectRun.SplitsAre` | web/db.js:2316-2324 | a race has exactly the splits its rows give it |
| `PerfectRun.RaceIdsAre` | web/db.js:2316-2324 | scanned are the races with a checkpoint row, each once |
| `PerfectRun.FinishesAre` | web/db.js:2300-2306 | a race's finish is the time of its row, and only a race that was read has one |
| `PerfectRun.Stitch` | web/db.js:2369-2380 | the total, the completeness flag and the running sums of the segment list |
| `PerfectRun.Compute` | web/db.js:2300-2388 | the whole computation: null without races or checkpoints, else time, segments and saving |
| `MapgenQuota.AlwaysCountedIff` | tools/mapgen/worker.py:136-148 | over every run of requests, reviews and workers the counters are right after every event exactly when each worker's refund meets its own job's charge or no row above zero |
| `MapgenQuota.RunKeepsValid` | tools/mapgen/worker.py:116-284 | over every run in which a stale job is queued again only when its worker is gone and no request is more than a day behind another, a day's budget is its number of unrejected jobs and each remaining quota row its identity's number of jobs that day neither rejected nor refunded |
| `MapgenQuota.CountersAreRight` | web/db.js:3913-4046 | the same spelled out from empty tables for every budget and every quota row |
| `MapgenQuota.GiveUpCountsIff` | tools/mapgen/worker.py:136-148 | one failing run leaves the counters right exactly when its job's charge is still in the row it holds, or that row is gone or at zero |
| `MapgenQuota.StepKeepsSingle` | tools/mapgen/worker.py:116-134 | in orderly runs a job has one worker, is refunded at most once, and a purged row does not come back under a worker that still holds it |
| `MapgenQuota.StaleWorkerRefundsTwice` | tools/mapgen/worker.py:116-148 | a job queued again under a living worker can be refunded twice: the row is empty while another request still counts |
| `MapgenQuota.LimitsHoldIff` | web/db.js:3925-3947 | the counters stay within their limits over every run exactly when both limits are at least 1: the first insert of a row is not guarded |
| `MapgenQuota.SubmitCharges` | web/db.js:3913-3964 | an accepted submission adds one to its own two counters only, beside the purge; a refused one changes nothing |
| `MapgenQuota.SubmitAnswers` | web/db.js:3913-3964 | the answer is the first limit met by the counted jobs, a token that is taken, or the number now used |
| `MapgenQuota.SubmitForgets` | web/db.js:3917-3924 | after an accepted request nothing says who asked more than a day before it |
| `MapgenQuota.RefundIsDue` | web/db.js:4033-4037 | the guard `used > 0` never blocks a due refund |
| `MapgenQuota.RejectRefunds` | web/db.js:4016-4046 | a rejection gives back exactly what the job was charged |
| `MapgenQuota.RejectUndoesSubmit` | web/db.js:4016-4046 | rejecting a course restores every counter to what it was before its submission, up to the purge |
| `MapgenQuota.ReviewResolvesOnce` | web/db.js:4006-4046 | over every run at most one decision per course takes effect |
| `MapgenQuota.ReviewComesFirst` | web/db.js:3996-4046 | over every run no worker is on an edited course before its approval, and never on one turned down |
| `MapgenQuota.ApprovedIsClaimed` | web/db.js:4006-4013 | an approved course can be claimed at once |
| `MapgenQuota.SubmittedIsClaimed` | web/db.js:3949-3960 | a described request can be claimed at once with its requester's quota held, an edited one cannot |
| `MapgenQuota.AdminIsClaimed` | web/db.js:3890-3901 | an administrator's request can be claimed at once and holds no quota |
| `MapgenQuota.CourseGoesLive` | tools/mapgen/worker.py:125-271 | from approval over a worker's claim, build and publication to the first sighting the job ends published, and no counter changes |
| `MapgenQuota.DeadWorkersJobIsRetried` | tools/mapgen/worker.py:116-133 | a job whose worker died while planning or building it goes back to the queue and to the next worker with its quota held, and no counter changes |
| `MapgenQuota.MapgenTables.SubmitMap` | web/db.js:3913-3964 | the transaction's statements, rollbacks included, leave the specified tables |
| `MapgenQuota.MapgenTables.SubmitByAdmin` | web/db.js:3890-3901 | the insert queues the job and touches no counter |
| `MapgenQuota.MapgenTables.ApproveMap` | web/db.js:4006-4013 | the guarded update moves a job exactly when it is in review |
| `MapgenQuota.MapgenTables.RejectMap` | web/db.js:4016-4046 | the guarded update and the refunds leave the specified tables |
| `MapgenQuota.MapgenTables.ClaimOne` | tools/mapgen/worker.py:125-133 | a claim moves a queued job into planning and keeps the day and identity a refund will use |
| `MapgenQuota.MapgenTables.Fail` | tools/mapgen/worker.py:136-148 | the unguarded update and the guarded refund leave the specified tables |
| `Streak.IslandIsRun` | web/achievements.js:564-575 | every group of the query is a run of consecutive days |
| `Streak.RunIsInIsland` | web/achievements.js:564-575 | every run of consecutive days lies within one group |
| `Streak.LongestIslandIsLongestRun` | web/achievements.js:564-578 | for any list of days the largest group is the longest run of consecutive days |
| `Streak.ThresholdReachedIff` | web/achievements.js:559-578 | a threshold is reached exactly when the player finished on that many consecutive UTC days |

## Left out

Whole areas: Express routes, the PostgreSQL and Redis clients, sockets, timers, file permissions, rendering,
the command line, live streams and the game engine's patches.

Assumptions that bound the statements above:

- Ingest transactions are serial. A concurrent first-of-its-kind player can replace the representative of its
  key (web/db.js:7325-7329), which a serial run cannot.
- One answer of `recordsAfter` is one snapshot; the code reads the page and the highest id in two statements.
- Rows are removed only by ingest: deletions by administrators, demo imports and the worker are not steps.
- A character stands for a byte of the log and for an ASCII character of a name; Unicode case folding is not
  part of this model.
- A log file only grows until it is replaced under a new inode. Truncation in place to a smaller size is handled
  by the code and by the modelled branch, but regrowth past the saved offset between two ticks is not seen by
  either.
- The announcer runs with its webhook configured; embed texts, margins and the name censoring of `recordsAfter`
  are not part of this model.
- The attempts snapshot of a personal best, movement metrics and version or map surrogate ids are not part of this
  model; maps and versions are named by their unique name columns.
- The Monthly Cup's month arithmetic and dry runs are not part of this model, and `decideMonthlyPool` is an
  arbitrary choice: a month is named by the second its window opens.
- CRC values and the calendar fields of a time are given values; the reader's inflate step is the tag `Deflated`, and
  archive files do not change while the reader is at work.
- File names are sequences of Unicode scalar values. Lower-casing is any function that is the usual one on latin1 text
  and leaves a character beyond latin1 wherever it changes a length (`ZipRead.Lowering`).
- The map pack's handler is modelled on a built layout; its answer before the first one, the index file, the lock and
  the hash behind the tag are not part of this model. A header holds no white space but blanks and tabs.
- Arithmetic of the blur and the splat is exact; rounding to 32-bit floats, quantiles, colours and PNG encoding
  are not part of this model. `buildHeatmap` is used with sizes of 256 to 2000, so the bound of 64 is always met.
- The perfect run's segment owners and their names are not part of this model; checkpoint numbers are not negative.
- A censor term's severity, and the per-player override that selects `mask`, `maskAll` or neither, are not part of
  this model. Terms reach the matcher already normalised, as `Censor.BuildMatcher` produces them.
- A map-generation worker claims any queued job, not the oldest, and any job in work may be queued again at any time;
  planning, building and the files they leave are not part of this model.
- The response cache's timeouts and Redis expiry appear as events that may come at any time; headers are not
  part of this model.

Contracts stated with a bound of their own:

- SeedMerge.SecondRunSameIff: existing names must not contain a quote. The readers only produce such a name from
  a bare token with a quote inside, which neither the mod nor the seeder writes.
- SeedMerge.SeedingIsAFixpoint: the same bound on names, and database times are positive, as the endpoint requires.
- TopscoresFeed.CollectorReadsBack: names are on one line and free of quotes, as `sanitizeName` leaves them.
- Splat.FrameFits: sizes of at least 64; below that the shorter side of the fit rectangle is wider than the canvas.
- ZipTheorems.ReaderFindsEntryIff: no other stored name may read, as latin1 and ignoring case, like the name asked for.
- RecordPipeline.NoRecordIsMissed: every restart finds a saved cursor; NothingIsEverMissedIff says exactly when that
  holds for all continuations.
- MapgenQuota.RunKeepsValid: runs are orderly in the two ways its row names; AlwaysCountedIff has the exact condition.
