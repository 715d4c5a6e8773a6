# Verified model of the aiscast server

aiscast collects AIS receptions from many stations and feeds, folds the copies of each transmission, keeps vessels in
memory, archives every reception as received, writes receptions and derived series to ClickHouse, and streams vessels
to clients. This project models the parts of the Go server (`server/`) that are hardest to get right and proves what
they promise. `dafny verify dfyconfig.toml` checks all of it.

| file | what it models |
|---|---|
| `SeriesTables.dfy`, `SeriesProtocol.dfy`, `SeriesRun.dfy`, `SeriesJob.dfy` | the station series: its tables, the rebuild protocol over every run of inserts, deletes, rebuilds and failures, one such run in full, and the job itself, statement by statement, as steps of that protocol |
| `Elimination.dfy`, `SedHeaps.dfy`, `Simplification.dfy`, `TrackShape.dfy` | track simplification: naive greedy elimination, the indexed heap, ranking by heap and linked lists, and the shape answered |
| `ArchiveHours.dfy`, `ArchiveWriter.dfy` | the raw archive: one hour's file, object, uploads and sweeps as a state machine, and the writer that opens and rotates hours, whose receptions are steps of that machine |
| `RawRecords.dfy`, `ReplayMerge.dfy` | the record format, printed and read back, and the merge that replays archived sources |
| `DedupeWindow.dfy`, `DedupeState.dfy`, `FoldVerdicts.dfy` | the dedupe window, its save and restore, and the verdict every copy of a transmission carries, with emit's sections interleaved in any order and with one reception at a time |
| `ReceptionsWriter.dfy`, `SideTables.dfy`, `SideMaps.dfy` | the receptions queue under ambiguous failures, and the mergeable own-ship and statics tables |
| `ByteNames.dfy`, `Convert.dfy`, `History.dfy` | naming transmissions by millisecond and byte, converting a vessel's rows, loading an archive file's rows |
| `Heaps.dfy`, `Cells.dfy`, `Mirror.dfy`, `CellIndex.dfy` | Go's container/heap, one-degree cells, the record mirror's queries, the index over the vessel cache |
| `ConnCounters.dfy`, `StreamSlots.dfy` | stream slots counted per token and per address, through connects, in-place upgrades and exits |
| `HourRings.dfy`, `MqttFraming.dfy`, `MqttSession.dfy` | the 168-bucket hour ring, and MQTT 3.1.1 framing and QoS 2 sessions (sections 2.2.3 and 4.3.3 of MQTT 3.1.1) |

Times are integers, in the unit each file names, coordinates and distances reals; the zero time is 0 where the source
tests for it. Code the source runs under one lock is one step; what can come between two lock sections is another.
Concurrency is a state machine whose theorems are about every behaviour, a sequence of states each a step from the
one before.

Where the code promises less than it might be taken to, the exact condition is proved and a counterexample given:

- The bounded dedupe window decides as an unbounded one exactly when no event lags the high water by more than 50 s
  and 1 ns (`DedupeState.SafeExactly`).
- A copy of a transmission judged good is flagged implausible exactly when an earlier transmission of the same key
  and time was the last of that key judged bad and no prune has forgotten it (`FoldVerdicts.FlaggedExactly`,
  `FoldVerdicts.OrderedCopies`); `FoldVerdicts.SameTimeMisflags` is a run of the server, one reception at a time, in
  which it happens. That a key is not accepted again before its fold settles, and that no event carries the zero
  time, is not assumed of that run: the order lock every reception is admitted under (server/pipeline.go:219-242)
  and the stamping of events (server/pipeline.go:331-345, 379-387) give both (`FoldVerdicts.OrderedRefines`).
- A batch lands twice exactly when it commits again after the table has taken as many blocks since as it remembers
  tokens (`ReceptionsWriter.Writer.Flush`, `ReceptionsWriter.Writer.ReportedLandsOnce`,
  `ReceptionsWriter.LandsTwiceExactly`).
- A side table's merged value is that of exactly what was not counted dropped, whatever the times, exactly when no
  put-back finds the map full for a key when an insert carrying what it gives up commits, before or after
  (`SideTables.RightExactly`); `SideTables.FullMapHidesACommit` is a run in which one does.
- Caching a vessel under an MMSI already cached leaves the old one in the index exactly when that one was filed and
  the new one has no position or one in another cell (`CellIndex.VesselCache.PutVesselLocked`); the server's callers
  cache only vessels not yet cached.
- An IMO list that holds 0 misses vessels that report no IMO number: the index leaves them out
  (`Mirror.RecordMirror.Each`, which says exactly which). The API takes no such list (server/imo.go:66-73).
- A record reads back exactly when its station holds no tab or newline and ends in no mark it does not carry, no line
  of its trimmed body ends in a carriage return, and no continuation line reads as a header
  (`RawRecords.RoundTripExactly`). Stations may hold spaces otherwise.
- More than 256 transmissions in one millisecond cannot have names of their own (`Convert.NamesDifferExactly`,
  `History.HistoryVessel`).
- Marking hours before a delete instead of after it would lose the hour, and reopening an hour the sweep removed would
  shorten its object (`SeriesProtocol.MarkingFirstLosesTheHour`, `ArchiveHours.ReopeningShortens`): why the source
  orders and excludes them as it does.

## Model

| member | source | states |
|---|---|---|
| SeriesTables.HourRowsExactly | server/stationseries.go:444-446 | An hour's rows are one for each station and source with a usable reception, with how many it has and how many of them were accepted |
| SeriesTables.VesselRowsExactly | server/stationseries.go:450-452 | And one for each station, source and vessel with a usable reception not stale, with how many it has and the time of the latest |
| SeriesTables.AppliedExactly | server/stationseries.go:71-71 | An insert adds its receptions to the hour's, and a delete takes away every one it is of and no other |
| SeriesProtocol.StaleHoursAreMarked | server/stationseries.go:179-196 | In every state of every behaviour, an hour whose newest recorded version says something else than its receptions do has a marker newer than its built record, or a landed change whose marker is still owed |
| SeriesProtocol.ReadsSeeOneWholeVersion | server/stationseries.go:74-81 | A read by newest recorded version sees in each table the rows of one binning, each once, of receptions the hour held in some earlier state; vessels are there exactly when the binning keeps them |
| SeriesProtocol.ReadsArePast | server/stationseries.go:426-462 | What a binning read for either table is what the hour held in some earlier state |
| SeriesProtocol.RecordedStays | server/stationseries.go:457-467 | Once an hour has a recorded version it always has one, and the newest never gets older, whichever statement fails |
| SeriesProtocol.RecordedOutranks | server/stationseries.go:377-393 | A version being recorded is above every version the hour ever recorded and no older than any row a failed binning left |
| SeriesProtocol.VersionsStep | server/stationseries.go:457-465 | One step drops a recorded version only for a newer one and adds one only above all the others |
| SeriesProtocol.StepKeeps | server/stationseries.go:201-223 | Every step of inserts, deletes, markers, queries and binnings, by any number of days' runs at once, keeps the protocol's invariant |
| SeriesProtocol.BehaviourInv | server/stationseries.go:225-322 | The invariant holds in every state of every behaviour |
| SeriesProtocol.FreshLanded | server/stationseries.go:225-232 | A change that lands has a marker, written or still to be, newer than every marker a rebuild has taken in |
| SeriesProtocol.MarkingFirstLosesTheHour | server/stationseries.go:179-182 | Had the marker been written and taken in before the delete, the hour would differ with nothing left to mark it |
| SeriesRun.HourServed | server/stationseries.go:225-322 | A run from an insert, through its marker and the rebuild, to an hour whose newest version is the aggregates of all its receptions, with nothing left to mark it |
| SeriesJob.SeriesVersion | server/stationseries.go:377-393 | A version is above the last taken and the floor, and the clock's time unless that is not above them |
| SeriesJob.StationSeries.Floor | server/stationseries.go:439-443 | The floor is the newest version any of the three tables holds for the hours |
| SeriesJob.StationSeries.BinHours | server/stationseries.go:415-467 | Wherever a binning stops, its statements are steps of the protocol, its version is above all the hours hold, and each hour's tables are exactly what that outcome leaves |
| SeriesJob.StationSeries.TakeRun | server/stationseries.go:438-444 | The day is locked and the version taken, above all the hours hold, as a step of the protocol |
| SeriesJob.StationSeries.FillTables | server/stationseries.go:445-456 | The two inserts, whole or stopped by a failure, as steps of the protocol |
| SeriesJob.StationSeries.RecordAndTrim | server/stationseries.go:457-465 | The record and the three deletes, whole or stopped, as steps of the protocol |
| SeriesJob.StationSeries.RecordBuiltMarks | server/stationseries.go:309-322 | The record of markers taken in, whole or partial, as a step of the protocol |
| SeriesJob.StationSeries.RebuildRun | server/stationseries.go:290-304 | Each hour's tables, built record included, are what a binning of one new version leaves when it stops there, and no other hour changes |
| SeriesJob.StationSeries.RebuildMarkedDay | server/stationseries.go:282-307 | Each marked hour's tables are what the outcome of its run of consecutive hours leaves; reads of it get a new version whole, with its vessels exactly where the run ends within 35 days of now, once one is recorded, and the versions it had until then. A run that fails stops no other, and no other hour changes |
| SeriesJob.RunEnd | server/stationseries.go:288-292 | A run ends exactly where the hours stop being consecutive |
| SeriesJob.BinnedServesTheNew | server/stationseries.go:434-437 | Once a version is recorded reads see it, whole in both tables, wherever the binning stops; a binning that succeeds leaves no other |
| SeriesJob.FailedBinningServesTheOld | server/stationseries.go:434-437 | One that fails before leaves every recorded version and its rows as they were |
| SeriesJob.RebuiltReads | server/stationseries.go:300-306 | Wherever a rebuild stops, an hour serves the new version or the one it had, and its marker is taken in only once it serves the new |
| SeriesJob.LeadsInv | server/stationseries.go:282-307 | What the job's statements lead to keeps the protocol's invariant |
| Elimination.EachDroppedOnce | server/simplify.go:99-101 | Naive elimination drops every inner position once and no other |
| Elimination.RanksOverFloor | server/simplify.go:99-101 | No rank is less than the floor reached before it |
| Elimination.StandingLieOff | server/simplify.go:99-101 | Every position still standing at a tolerance lies more than it off the line between its standing neighbours |
| Elimination.FirstDrop | server/simplify.go:136-141 | The first drop ranks its position at the floor it raises and leaves the other ranks to the drops after |
| Elimination.Unlinked | server/simplify.go:141-142 | Dropping a position changes the neighbours of its two neighbours and of no other |
| Simplification.PopIsNext | server/simplify.go:137-138 | The heap's pop is the position naive elimination drops next, the lower index on a tie |
| Simplification.DropNext | server/simplify.go:137-149 | One turn of the loop drops naive elimination's next position at its floor and keeps lists, distances and heap in step |
| Simplification.RankPositions | server/simplify.go:99-151 | Every rank is the one naive greedy elimination gives, for any distance function |
| SedHeaps.RootIsLeast | server/simplify.go:160-172 | The root comes before every other entry |
| SedHeaps.HoleUp | server/simplify.go:202-211 | One swap upward moves the only entry out of place to its parent |
| SedHeaps.HoleDown | server/simplify.go:214-230 | One swap downward moves it to the child that comes first |
| SedHeaps.SedHeap.Init | server/simplify.go:179-183 | Entries appended in any order become a heap with the same members |
| SedHeaps.SedHeap.Fix | server/simplify.go:195-200 | Whichever way a distance changed, the order is restored and the members kept |
| SedHeaps.SedHeap.Pop | server/simplify.go:185-193 | Takes out a position no other comes before |
| TrackShape.Simplify | server/simplify.go:32-97 | The answer is at most limit positions in order, with breaks exactly at segment changes: every segment end and what lies over the reported tolerance, the base one or the least that fits, or, when the ends alone are too many, limit of them spread evenly; more is set exactly when the base tolerance keeps too many |
| TrackShape.Choose | server/simplify.go:46-87 | Which positions are kept, and the tolerance reported, in either case; ends too many are picked evenly |
| TrackShape.AtLimit | server/simplify.go:55-62 | At most limit ranks are over the one at limit, and it is infinite exactly when more than limit ends are |
| TrackShape.LessDoesNotFit | server/simplify.go:46-60 | Any tolerance below the one raised to would keep more than limit positions |
| TrackShape.KeptLieOff | server/simplify.go:32-34 | Every inner position kept lies more than the tolerance off the line between the two kept beside it, and every segment keeps its ends |
| TrackShape.PickEnds | server/simplify.go:63-73 | The ends picked are limit distinct ones in order, each where as many equal steps from the first end to the last have come to, the first and, for a limit of 2 or more, the last among them |
| TrackShape.EndsOutermost | server/simplify.go:63-70 | The first and last of the ends are the track's own |
| TrackShape.SegmentsDiffer | server/simplify.go:37-43 | Two positions are in different segments exactly when a silence lies between them |
| TrackShape.Collect | server/simplify.go:89-96 | breaks are exactly the indexes that start a segment |
| ArchiveHours.ObjectIsPrefix | server/archive.go:402-408 | In every behaviour of writer, uploads and sweeps the object is a prefix of the file's bytes |
| ArchiveHours.ObjectNeverShrinks | server/archive.go:410-418 | It never gets shorter, nor does it or the file change what it held |
| ArchiveHours.HeldExactly | server/archive.go:359-381 | A path is held exactly while the writer has it open or an upload owns it |
| ArchiveHours.RemovesOnlyStored | server/archive.go:482-493 | The step that removes a file finds no one holding it and the object equal to it |
| ArchiveHours.RemovedIsStored | server/archive.go:410-413 | A file removed stays in the bucket whole, and no one owns its path |
| ArchiveHours.StepKeeps | server/archive.go:419-498 | Every step of any interleaving keeps what holds, locks and sweeps rely on |
| ArchiveHours.LeadsKeeps | server/archive.go:210-275 | What the writer's steps lead to keeps that too, and every byte written before |
| ArchiveHours.ReopeningShortens | server/archive.go:402-408 | Reopening a removed hour and rotating the stub would shorten its object |
| ArchiveHours.HourArchived | server/archive.go:419-498 | A run in which an hour is written, uploaded and, two hours after its last write, swept from the disk, with all that was written in the bucket |
| ArchiveWriter.Archive.Handle | server/archive.go:210-242 | A reception is filed in the hour that holds its receive time, which is opened if it is not, and exactly the hours whose end is five minutes past by it close and are uploaded; a refused stream changes nothing |
| ArchiveWriter.Archive.Rotate | server/archive.go:254-275 | Exactly the hours that ended five minutes or more before the newest receive time close, each starting one upload |
| ArchiveWriter.Archive.IsHeld | server/archive.go:377-381 | A path is held exactly while it is open or uploading |
| ArchiveWriter.Archive.UploadDone | server/archive.go:332-345 | An upload that ends, however it ends, gives back its hold |
| ArchiveWriter.HandledBySteps | server/archive.go:210-275 | What handling a reception does at each path, opening, writing and rotating, is steps of that hour's machine |
| ArchiveWriter.StartsAt | server/archive.go:163-164 | A writer that has opened nothing is where every hour's machine starts |
| RawRecords.RoundTripExactly | server/replay.go:185-243 | A file of printed records reads back to the same receptions, but for the carriage returns and newlines their bodies end in, exactly when each record fits |
| RawRecords.RecordExactly | server/archive.go:227-240 | One record's lines read back to it, but for what its body ends in, exactly when it fits |
| RawRecords.MarksExactly | server/archive.go:196-203 | A station column is taken apart into the station and its marks exactly when the station ends in no mark it does not carry |
| RawRecords.Continued | server/replay.go:208-216 | Lines that open no record go on the body before them; one that does ends it |
| RawRecords.ReadApart | server/replay.go:206-230 | Text up to the start of a record and from it on are read apart |
| RawRecords.StationCutShort | server/replay.go:218-222 | A station with a tab or newline in it is read short or not at all |
| RawRecords.PrintedLines | server/archive.go:239-239 | The scanner yields a record's lines, each without the carriage return it ends in, and then the rest |
| RawRecords.PrintedForm | server/archive.go:231-240 | A record is its receive time, station, marks and body, tabs between and a newline after, the published mark before the buffered one |
| RawRecords.RawReader.Next | server/replay.go:202-242 | Yields the next record not before the floor of what the files still hold, or reports how they end |
| RawRecords.RawReader.ScanRecord | server/replay.go:207-240 | One file's scan: a record found, corrupt input, or the file's end with its last record |
| ReplayMerge.Replay | server/replay.go:49-83 | What is dispatched is the front of the one merge, every record of it taken by its adapter and the callback asked after each. A replay is refused exactly when the callback refused after the last or the merge's next record does not parse; it stops on corruption when a reader whose records were all dispatched ends so; otherwise it dispatched the whole merge, and no reader is corrupt before the range ends |
| ReplayMerge.MergeUnique | server/replay.go:293-303 | There is one such merge, whatever order the readers were collected in |
| ReplayMerge.MergeExists | server/replay.go:46-48 | Whatever readers there are, if each one's records come in order there is such a merge |
| ReplayMerge.PrefixOfMerge | server/replay.go:60-81 | What is dispatched in order with nothing skipped is the front of the merge |
| ReplayMerge.RootComesNext | server/replay.go:60-66 | No record left in any reader comes before the one at the heap's root |
| ReplayMerge.LessTotal | server/replay.go:298-303 | Receive time and then source order any two readers |
| ReplayMerge.PrecedesExactly | server/replay.go:298-303 | Sources compare by their first differing byte, and one that is the front of another comes first |
| ReplayMerge.Gather | server/replay.go:49-58 | Every reader's first record goes on the heap, and one corrupt before its first fails the replay |
| ReplayMerge.OutIsPrefix | server/replay.go:46-48 | At whatever point a replay stops, what it dispatched is the front of the merge |
| DedupeState.VerdictsIdeal | server/pipeline.go:442-492 | Within the lag, the pruned and restarted window accepts exactly the events an unbounded one does |
| DedupeState.SafeExactly | server/pipeline.go:478-491 | It does for every run exactly when no event lags more than 50 s and 1 ns |
| DedupeState.ForgottenAccepted | server/dedupe_state.go:18-30 | Past that lag some run accepts an event again |
| DedupeState.Redeploy | server/dedupe_state.go:21-68 | Loading what was saved gives the old window pruned once |
| DedupeState.SaveDedupe | server/dedupe_state.go:21-30 | The file holds exactly the entries the prune would keep |
| DedupeState.LoadDedupe | server/dedupe_state.go:42-68 | Entries that read are added, those that do not are skipped, and the later high water is kept |
| DedupeWindow.Deduper.Emit | server/pipeline.go:442-492 | What emit decides under the lock, for a repeat and for a new event, and the window it leaves |
| DedupeWindow.Deduper.Prune | server/pipeline.go:479-491 | The prune keeps exactly the entries of the last six windows |
| DedupeWindow.Deduper.SettleFold | server/pipeline.go:549-560 | A verdict takes the waiting copies with it and is remembered when bad |
| FoldVerdicts.HandedOnceWithTheVerdict | server/pipeline.go:444-460 | Whatever is handed on is a copy whose transmission has its verdict by then, and is handed on once |
| FoldVerdicts.FlaggedExactly | server/pipeline.go:444-446 | It is flagged implausible exactly when that verdict was bad or, as the copy came, the last bad transmission of its key that no prune had forgotten was at the same time |
| FoldVerdicts.EveryCopyHanded | server/pipeline.go:549-569 | With no fold under way every copy with a position has been handed on |
| FoldVerdicts.BehaviourInv | server/pipeline.go:429-569 | The window's memory of acceptances and verdicts is exactly what the prunes have left of the run's |
| FoldVerdicts.OrderedRefines | server/pipeline.go:219-242 | With one reception at a time, folds settle before their key is accepted again and no event has the zero time, so the server is one of the interleavings above |
| FoldVerdicts.OrderedCopies | server/pipeline.go:429-569 | Between receptions every copy with a position has been handed on, once, flagged by that exact condition |
| FoldVerdicts.SameTimeMisflags | server/pipeline.go:444-446 | A run of the server in which a key accepted twice at one time, judged bad and then good, still reads bad |
| FoldVerdicts.EventTimeNear | server/pipeline.go:331-340 | No event is stamped over 30 s after its receipt, none over 30 s before but a buffered one by its tag, and no packet after; a tag or a packet's own time within that is kept |
| ReceptionsWriter.Writer.Flush | server/clickhouse.go:708-764 | One batch is sent, under the token it had if it failed before, and is written, kept or, refused for ten minutes, dropped; it lands in the table anew exactly when it commits and the table does not remember it |
| ReceptionsWriter.Writer.Answered | server/clickhouse.go:746-763 | What each answer makes of the batch |
| ReceptionsWriter.Writer.Drain | server/clickhouse.go:688-701 | A drain reported done leaves nothing waiting: everything queued was written or counted dropped |
| ReceptionsWriter.Writer.Take | server/clickhouse.go:721-732 | A new batch is the whole queue under a token of its own, only when none waits |
| ReceptionsWriter.Writer.LandsAtMostOnce | server/clickhouse.go:708-710 | Blocks keep the order of queueing, and a reception is in two of them only where its batch landed again |
| ReceptionsWriter.Writer.ReportedLandsOnce | server/clickhouse.go:733-763 | A batch reported written is in the table whole, and more than once exactly if it landed again |
| ReceptionsWriter.Writer.OthersInsert | server/clickhouse.go:66-71 | Other writers add blocks of their own, as many as they like, and nothing of ours lands by it |
| ReceptionsWriter.Writer.QueuedNotLanded | server/clickhouse.go:721-732 | Nothing still queued is in the table |
| ReceptionsWriter.LandsTwiceExactly | server/clickhouse.go:66-71 | A batch sent again lands again exactly when at least a thousand blocks of others came between |
| SideTables.MergedIsTruth | server/statics.go:190-236 | In every run, each key's table value merged with what is being sent and what waits is the least and greatest of everything noted and not lost |
| SideTables.RightExactly | server/statics.go:218-235 | Whatever the times, it is that of exactly what was not counted dropped if and only if no put-back finds the map full for the key when an insert carrying what it gives up commits, before or after |
| SideTables.FullMapHidesACommit | server/statics.go:221-225 | A run in which a put-back does, and the value is not that of what was not counted |
| SideMaps.Gathered.AddNote | server/statics.go:144-160 | A sighting is merged into its key, or counted dropped when the key is new and the map full |
| SideMaps.Gathered.PutBack | server/statics.go:218-235 | A failed insert's keys go back merged with what came meanwhile; a key is missing only for want of room, and then it is counted once and every sighting of it that was sent is counted dropped |
| SideMaps.AllBack | server/clickhouse.go:797-810 | With room for every key none is missing, and with nothing noted meanwhile they go back as they were |
| SideMaps.Gathered.Commits | server/statics.go:205-207 | A commit, whatever was answered and however late, merges what its insert carried into the table |
| SideTables.CountedByGivingUp | server/statics.go:218-235 | A sighting both in the table and counted dropped is one such a put-back gave up |
| SideTables.SpansMerged | server/statics.go:190-192 | Merging by min and max makes a resend harmless: the merged value spans both sets of sightings |
| ByteNames.ProbeExactly | server/convert.go:400-406 | The wrapping search ends at a byte in use only where all 256 are |
| ByteNames.NamesExactly | server/convert.go:398-409 | A run of names are all new exactly when no millisecond's bytes in use and asks come to over 256 |
| ByteNames.FreeByte | server/history.go:519-524 | The loop finds the first free byte, wrapping past 255 |
| Convert.FindFirsts | server/convert.go:377-383 | One pass finds each transmission's earliest-arriving accepted copy, or its earliest copy where none is accepted |
| Convert.Order | server/convert.go:386-395 | The transmissions in the order they were accepted, the lower id first on a tie |
| Convert.OrderUnique | server/convert.go:386-395 | That order is one, whatever order the map gives |
| Convert.Name | server/convert.go:396-409 | Every transmission is named by the search from the byte of its id, in order |
| Convert.NamesDetermined | server/convert.go:384-409 | The names are the same whatever order the map gives |
| Convert.NamesDifferExactly | server/convert.go:384-409 | Transmissions of a millisecond are named apart exactly when none has more than 256 |
| Convert.SweepStale | server/convert.go:410-419 | The backward pass marks exactly the rows a scan of every pair would |
| Convert.ConvertVessel | server/convert.go:366-419 | All three, for any rows in time order |
| History.Match | server/history.go:502-510 | The moving window finds what a scan of every live transmission would: the nearest in time, the first of equals, or none |
| History.HistoryVessel | server/history.go:471-535 | A point for each row of the file, in order and with its time: a copy of its nearest live transmission or a point of its own, judged by both neighbours and named by the search; the points that are no copies differ in millisecond or byte from each other and from every live transmission exactly where no millisecond's own rows and live bytes come to over 256 |
| History.OfBoth | server/history.go:483-489 | The staged rows are parted into live ones and the file's, every row into one of them |
| History.LiveNamesHeld | server/history.go:490-494 | The names in use are exactly those of the live transmissions |
| Heaps.RootIsLeast | server/mirror.go:274-286 | The root of a heap comes before every other entry |
| Heaps.Push | server/mirror.go:242-243 | An entry added keeps the heap |
| Heaps.FixRoot | server/mirror.go:244-246 | An entry in place of the root keeps the heap |
| Heaps.Pop | server/replay.go:64-64 | The root taken away leaves the rest, a heap |
| Cells.BoxesTouchTheirCells | server/index.go:13-19 | A position in a box lies in a cell the box touches, poles and antimeridian included |
| Cells.CellsExactly | server/index.go:12-24 | Cells are numbered row by row, so two positions share one exactly when they share a row and a column, which are their degrees |
| Cells.Walk | server/index.go:88-111 | The walk visits each cell the boxes touch once, though boxes overlap, and of one box as many as it is counted to span |
| Mirror.RecordMirror.File | server/mirror.go:67-103 | Records filed replace what was held of their vessels, and both indexes hold exactly the vessels filed |
| Mirror.RecordMirror.TakeOut | server/mirror.go:74-84 | A vessel replaced leaves both indexes, and no empty set behind |
| Mirror.RecordMirror.Each | server/mirror.go:168-228 | Whichever plan runs, every entry that matches is visited once and no other, but for vessels with no IMO number under an IMO list |
| Mirror.RecordMirror.EachInBoxes | server/mirror.go:203-223 | Walking the cells boxes touch visits each match once |
| Mirror.RecordMirror.EachInCells | server/mirror.go:195-202 | Walking the occupied cells visits the same |
| Mirror.RecordMirror.Find | server/mirror.go:230-261 | The answer is the best limit of all matches, each meeting what the query asks, most recently heard first and the lower MMSI on a tie |
| Mirror.MatchMeets | server/mirror.go:154-167 | A vessel matches exactly when it meets all the query asks: its lists, since on and before before, and a box, edges included |
| Mirror.TimeParts | server/mirror.go:154-167 | A time parts a query's matches into those heard from since it and those before it |
| Mirror.TopUnique | server/mirror.go:230-258 | That answer is one, whatever order the matches come in |
| Mirror.TopIsPrefix | server/mirror.go:241-247 | The bounded heap's answer is the front of sorting every match |
| Mirror.Offer | server/mirror.go:241-247 | The heap holds the best so far after each match |
| CellIndex.VesselCache.IndexLocked | server/index.go:34-51 | A vessel is filed under the cell of its position alone |
| CellIndex.VesselCache.UnindexLocked | server/index.go:53-64 | A vessel is filed nowhere, and no empty cell is left |
| CellIndex.VesselCache.PutVesselLocked | server/index.go:26-32 | A vessel cached is filed exactly when it has a position; over one cached before, the index is kept exactly where that one was not filed or was filed in the same cell |
| CellIndex.VesselCache.SweepLocked | server/vessels.go:420-428 | Exactly the vessels unseen since the cutoff leave cache and index, and the rest are untouched |
| CellIndex.VesselCache.VesselsIn | server/index.go:66-111 | Either branch calls back once for each vessel inside a box and for no other |
| CellIndex.VesselCache.EachMatch | server/index.go:113-130 | Calls back once for exactly the vessels a scan of the cache would match |
| ConnCounters.ConnCounter.Acquire | server/tiers.go:99-117 | Grants exactly when the key has room, and counts it |
| ConnCounters.ConnCounter.Release | server/tiers.go:107-116 | Counts one less, and forgets a key at zero |
| ConnCounters.AcquireStreamSlots | server/tiers.go:117-134 | Both slots or neither: a refusal names the cap and leaves both counts as they were |
| StreamSlots.BehaviourInv | server/stream.go:440-462 | The invariant of counts, slots, lock and flag holds in every interleaving |
| StreamSlots.StepKeeps | server/stream.go:581-600 | Every step of any stream, whatever others come between its own, keeps it |
| StreamSlots.CountsAreHeld | server/tiers.go:87-117 | Each key's count is the number of slots held of it |
| StreamSlots.EachReleasedOnce | server/stream.go:445-462 | No slot is released twice, and once a stream is gone none it was granted is held |
| StreamSlots.ReleasesOnce | server/tiers.go:107-116 | A step that releases a slot finds it held by its own stream and not released before, and no step grants one again |
| StreamSlots.NeverOverCap | server/tiers.go:99-105 | A key whose streams carry one limit never has more slots held than it |
| StreamSlots.SwapAndExit | server/stream.go:581-600 | A run in which a stream connects, registers under another sub in place and exits: three slots granted, each released once, and no count left |
| StreamSlots.ExitBeforeSwap | server/stream.go:586-596 | A run in which the handler exits between a register frame's acquire and its lock, and the frame gives back what it was granted |
| HourRings.HourRing.Add | server/stats.go:48-62 | An add is counted in its hour, in any order and with any gaps |
| HourRings.HourRing.Sum | server/stats.go:64-76 | The sum is exactly the adds of the window's hours, not after the latest and within 168 hours of it |
| HourRings.HourRing.Restore | server/stats.go:83-93 | A restored ring counts on from what was saved |
| MqttFraming.ReadsBackExactly | server/mqtt.go:74-122 | A framed packet reads back with what follows untouched exactly when its body is at most 1 MiB, and is refused otherwise |
| MqttFraming.ReadsAllBack | server/mqtt.go:74-122 | Framed packets sent one after another are what is read |
| MqttFraming.LengthReads | server/mqtt.go:81-97 | A remaining length of up to four bytes reads back |
| MqttFraming.LongRefused | server/mqtt.go:93-95 | One that needs more is malformed |
| MqttFraming.ReadPacket | server/mqtt.go:74-105 | The reading loop, for every input |
| MqttFraming.EncodePacket | server/mqtt.go:106-122 | The framing loop |
| MqttSession.Session.Serve | server/mqtt.go:278-361 | Every packet up to the first that ends the session is answered, and its payload taken unless it is a QoS 2 id published and not released since |
| MqttSession.TakenOnceBetweenReleases | server/mqtt.go:272-277 | Between PUBRELs of an id one PUBLISH of it at QoS 2 is taken, however often it is resent |
| MqttSession.ResentWasTaken | server/mqtt.go:296-313 | A resend that is not taken repeats one that was |
| MqttSession.PublishEchoes | server/mqtt.go:285-323 | A PUBLISH is answered by PUBACK at QoS 1 and PUBREC at QoS 2 with its id as it came, and what is taken of it is what follows the id |
| MqttSession.OthersEcho | server/mqtt.go:324-361 | PUBREL, SUBSCRIBE and UNSUBSCRIBE are answered by PUBCOMP, SUBACK with a refusal for each filter, and UNSUBACK, with the id as it came, and PINGREQ by PINGRESP; nothing is taken of them |
| MqttSession.MqttFields.TakeBytes | server/mqtt.go:126-158 | A field and the rest, or the error every later read keeps |

## Left out

- SQL text, gzip, JSON, base64, RFC 3339, HTTP, sockets, S3 and the file system: tables, files and objects are maps and sequences, and codecs are parameters that read back what they write.
- The distance `sed`, `nm`, `updateVessel`'s verdict, `historyJumps` and an id's byte are parameters; floating point is real arithmetic and NaN is out, as is the overflow of a coordinate's floor in `cellRowCol`.
- SeriesProtocol.Step: a marker may settle only once its rows are visible, since an insert is bounded well inside the minute a marker waits, and a delete changes only the hours `dirtyHours` read for it; partial deletes are allowed, reads of one table while a delete runs are one step.
- SeriesJob.StationSeries.RebuildMarkedDay: the day's lock may be let go between runs of hours, which allows more interleavings than the source; the older days' worker, the backfill's ledger and the logging are not modelled.
- ArchiveHours.Step: sweeps and writers of other processes are left out, as is a process killed with a put in flight, and no hour is opened before it starts or the grace or longer after.
- ArchiveWriter.Archive.Handle: the line is a record's text; queueing, shutdown and the merged bare format are left out, and a refused stream's record is dropped with no rotation, as in the source.
- RawRecords.RawReader.Next: a file that cannot be opened ends the process in the source and is left out; a compressed stream cut short is an error at its end.
- ReplayMerge.Replay: readers are sequences of records in receive-time order that end well or in corrupt input; adapters are a parameter that may refuse a record, and so is the callback after each.
- DedupeState.Redeploy: the verdicts and folds under way are not saved, as in the source, so a copy after a restart is judged by what the new process knows.
- FoldVerdicts.EveryCopyHanded: ClickHouse stays attached throughout; admission while shutting down, and a receive time at the zero time, are left out.
- ReceptionsWriter.Writer.Send: an insert that commits late does so while its batch still waits to be sent again.
- SideMaps.Gathered.AddNote: the claims bound on a sender's own-ship keys, the clock test and `staticOf` come before what is noted and are left out; own-ship sightings use the same class and read only the last time.
- Convert.ConvertVessel: the anchor, the still flags and the choice of rows in the day are left out; a stored arrival is after the zero time, which the column cannot hold.
- History.HistoryVessel: the anchor's still flag and the counts are left out.
- Mirror.RecordMirror.Find: the bounds on the number of boxes and ids, text search, and the interning of strings are left out; the filter is a parameter.
- CellIndex.VesselCache.EachMatch: vessels joined by IMO number are followed by MMSI before this runs.
- StreamSlots.Step: the gauge of open streams, swapped in the same lock section, and minting a token are left out; MQTT and server-sent streams hold their slots the same way for their whole life.
- HourRings.HourRing.Sum: a window that reaches before hour 0 while the ring still covers it is left out: the source's index would be negative there.
- MqttSession.Session.Serve: CONNECT, the splitting of a payload into lines, the publish limit and failed writes are left out.
- Feed adapters, the stream's filters and rendering, metrics, rate limits, tokens, pacing, TTLs, the cold tier and the web client: field mapping or presentation.
