# Verification of the AcoustID server

A Dafny model of the parts of the AcoustID server whose correctness depends on
interleavings, on many tables changing together, or on counting, with proofs for every
input, run and reachable state. `dafny verify dfyconfig.toml` checks all of it.

**Replication of the fingerprint index** (`Calendar`, `Hashes`, `Pages`, `Changelog`,
`ChangelogSafety`, `Replication`, `ReplicationTheorems`, `ReplicationLimits`,
`Maintenance`, `MessagePack`, `Wire`, `Feed`). Writers insert fingerprints; a trigger takes
one advisory lock, allocates the changelog id under it and holds it until commit. A feed
serves `id > after order by id limit n` above a retention watermark, an hourly job creates
and drops month partitions and records the watermark, and a bootstrap scans the corpus in
many transactions and lets the feed repair what the scan missed. `Changelog` is a step
system: each step is one statement or transaction of one process, and a run is any
interleaving. Three hypotheses are explicit. The clock never goes back and fingerprint
arrays never change (built into the steps). No row is uncommitted in a month that is being
recorded as retired (`Changelog.Assumed`; writers that finish within the retention window
suffice). A consumer is not overtaken by retention between the floor check and the read of
one request, unless it is less than the retention window behind (`Changelog.Assumed`).
`ReplicationLimits` has a run for each of the last two in which a row is lost when the
hypothesis fails, so the comment in `acoustid/tables.py` that a consumer is safe if and only if
its cursor is at or above the watermark holds under them only. Even then it is one-sided: a
partition that was recorded and not dropped (`RecordedButNotDropped`) makes the watermark
conservative. The comment in `acoustid/scripts/fpindex_changelog.py` that nothing the job did
not create can be dropped holds for the years from 1000 on (`Calendar.ParsedNameIsItsOwn`).

**Link tables, tracks and metas** (`Links`, `LinkTables`, `LinkLaws`, `Redirects`,
`TrackStores`, `MetaBackfill`, `Databases`, `MergeGroups`, `Closure`). `LinkTable` is one of
track_mbid, track_puid, track_meta and track_foreignid with its source and change rows; its
class invariant (counts equal source rows, nothing dangles, (track, gid) is unique) holds
after any sequence of its methods. `TrackStore` adds tracks, redirects and fingerprints, and
`Backfill` works on the track_meta table; `Databases` runs all of them on one database.
`LinkLaws` and `Redirects` say what the merges mean: votes conserved, a second run changes
nothing, one-hop resolution equal to the equivalence closure of the merges, each with the
exact condition where the code does not always meet it.

**Import** (`Ingest`, `TrackCliques`): the queue of submissions under concurrent importers
as a step system, and the choice of track and fingerprint for one submission.

**Rate limiter** (`RateLimiter`, `RateLimiterLimits`): interleaved Redis commands with a
clock. How slow clients may be is a parameter, and the limit is kept exactly up to the time
that it takes a bucket to expire after its last reader.

**Index client** (`LineFraming`, `LineReading`, `IndexClients`, `IndexClientPools`). A server
is an endless stream of answers to select, recv and sendall, with the times at which calls are
made and rounds are over. `LineReading` takes the loop of `_getline` step by step against any
server: the timeout is only looked at between bursts of recv, so a wait ends exactly where
bursts do and select is not interrupted for ever. Each method of the client, `close` among them,
is proved for the states in which the waits that it makes itself come to an end.

**Query extraction** (`QueryExtraction`).

SQL and library functions whose code is not shown are parameters: `extract` is
acoustid_extract_query, `score` is acoustid_compare2 (symmetric where cliques need it),
`hash` is the gid of a meta's content, `decodes` is the validity of UTF-8.

## Model

| member | source | states |
|---|---|---|
| Replication.StepKeepsInv | acoustid/tables.py:552-568 | no step of a writer, the retention job, a bootstrap or a consumer breaks the invariant of the whole protocol, and none moves the watermark back |
| Replication.RunKeepsInv | acoustid/tables.py:398-421 | the same for every run |
| ReplicationTheorems.IdOrderIsCommitOrder | acoustid/tables.py:398-421 | in every reachable state committed rows are in id order and in time order, all uncommitted rows belong to one open transaction, and their ids exceed every committed id |
| ReplicationTheorems.ConsumerSkipsNothing | acoustid/future/fpindex/feed.py:112-131 | a consumer has been served exactly the committed rows between its start and its cursor, once each: no row ever appears at or below a cursor unserved |
| Replication.ResumableIffExact | acoustid/future/fpindex/feed.py:112-131 | every answer to a position is the next rows of the full history if and only if no row above the position is missing from the table |
| Replication.TrustedPositionsAreResumable | acoustid/future/fpindex/feed.py:170-182 | a position at or above the watermark, or less than the retention window behind, misses no row |
| ReplicationTheorems.AnswerIsNextRows | acoustid/future/fpindex/feed.py:170-182 | an answer other than 410 is exactly the next rows of everything ever committed, whatever records and drops have failed before |
| ReplicationTheorems.RecentConsumerIsServed | acoustid/future/fpindex/feed.py:173-182 | a consumer less than the retention window behind gets the exact rows even if retention runs between the floor check and the read |
| ReplicationTheorems.FloorIsHonest | acoustid/scripts/fpindex_changelog.py:162-234 | through any run the watermark never decreases and every committed row above it is still stored |
| ReplicationTheorems.FloorIsHighestRetired | acoustid/scripts/fpindex_changelog.py:183-186 | in every reachable state the watermark is exactly the highest id ever committed in a month that has been recorded as retired |
| ReplicationTheorems.RecentConsumerIsNotRefused | acoustid/future/fpindex/feed.py:173-182 | a consumer that needs no row older than the retention window is not below the watermark |
| ReplicationTheorems.RefusedIffRetired | acoustid/future/fpindex/feed.py:173-182 | a consumer is told 410 exactly if a committed row above its position belongs to a recorded month |
| ReplicationTheorems.CaughtUpReplicaMirrors | acoustid/future/fpindex/feed.py:288-346 | a replica that bootstrapped by a scan in many transactions and has tailed the feed to its end holds exactly the query of every committed fingerprint, late commits of low ids included |
| ReplicationTheorems.EmptyAnswerMeansCaughtUp | acoustid/future/fpindex/feed.py:182-187 | an accepted request for at least one row is answered with none if and only if the consumer has reached the end |
| ReplicationTheorems.OnePoll | acoustid/future/fpindex/feed.py:152-192 | a request that is answered with rows is a possible continuation and leaves fewer rows to come |
| ReplicationTheorems.PollingCatchesUp | acoustid/future/fpindex/feed.py:152-192 | polling alone, with any batch size, takes a replica that is not below the watermark to a mirror of the corpus |
| ReplicationTheorems.BootstrapStarts | acoustid/future/fpindex/feed.py:247-252 | a bootstrap starts from nothing at the highest stored id, or at 0 |
| ReplicationTheorems.ScanEnds | acoustid/future/fpindex/feed.py:316-346 | undisturbed, a scan gets to the end of the corpus in chunks of any size |
| ReplicationTheorems.BootstrapMirrors | acoustid/future/fpindex/feed.py:275-351 | from any state whose bootstrap position is accepted, bootstrap, scan and polling take a new replica to a mirror of the corpus |
| ReplicationTheorems.AtomicRequestIsTrusted | acoustid/future/fpindex/feed.py:173-182 | a request whose floor check and read run back to back meets the assumption on reads |
| ReplicationLimits.BriskWritersSuffice | acoustid/scripts/fpindex_changelog.py:200-217 | writers that finish within the retention window meet the assumption on the watermark statement |
| ReplicationLimits.DropIsHonestIff | acoustid/scripts/fpindex_changelog.py:207-225 | dropping a partition keeps the watermark honest if and only if all its rows are at or below the watermark at that moment |
| ReplicationLimits.BootstrapIsAcceptedIff | acoustid/future/fpindex/feed.py:247-252 | a bootstrap position is accepted by the feed if and only if nothing was ever dropped or a row at or above the watermark is still stored |
| ReplicationLimits.ExpiredLogRefusesBootstrap | acoustid/future/fpindex/feed.py:247-252 | a reachable state whose bootstrap position is below the watermark, although nothing is missing |
| ReplicationLimits.RecordedButNotDropped | acoustid/scripts/fpindex_changelog.py:207-225 | a reachable state after a failed drop: a position that misses nothing is answered 410 |
| ReplicationLimits.StaleWriterLosesARow | acoustid/scripts/fpindex_changelog.py:162-197 | a run in which a writer outlives the retention window: its committed row is gone and the feed answers position 0 with nothing, not 410 |
| ReplicationLimits.SplitRequestSkipsARow | acoustid/future/fpindex/feed.py:173-182 | a run in which retention overtakes a consumer between floor check and read: it is caught up, was never told 410, and has missed a row |
| Pages.Page | acoustid/future/fpindex/feed.py:112-124 | the answer to `id > after order by id limit n` is increasing, bounded, from the table, and leaves out only what the limit cuts off |
| Pages.PageIsUnique | acoustid/future/fpindex/feed.py:112-124 | that description leaves one answer |
| Feed.IntParam | acoustid/future/fpindex/feed.py:101-109 | a number that is given counts as the nearest one allowed; a missing or unparsable value as the default |
| Feed.AnswersAreHonest | acoustid/future/fpindex/feed.py:152-182 | the handler's decision: 410 exactly below the watermark, and otherwise the next rows of the full history |
| Feed.RecentIsAnswered | acoustid/future/fpindex/feed.py:152-182 | a consumer that needs no row older than the retention window is answered with its next rows, not with 410 |
| Feed.TermsAreUnsigned | acoustid/future/fpindex/feed.py:126-131 | an entry is the stored row with each term modulo 2^32, and a storable row can be sent |
| Feed.ServeChangelog | acoustid/future/fpindex/feed.py:152-192 | from request to bytes: 404, 410 exactly below the watermark, or a body that decodes, whole and not before, to the next rows of the full history with unsigned terms |
| Feed.IdleMeansDrained | acoustid/future/fpindex/feed.py:184-187 | a consumer told to wait the long time has been given everything that is committed, and one that got fewer rows than it asked for is told so |
| Feed.ScanRows | acoustid/future/fpindex/feed.py:331-340 | one chunk yields the changes of its non-empty queries in order and the id to go on from |
| Feed.StreamCorpus | acoustid/future/fpindex/feed.py:316-346 | the scan ends for every chunk size and streams exactly the non-empty queries in id order, the empty array only at the end |
| Feed.ChangesAreDocuments | acoustid/future/fpindex/feed.py:331-340 | the changes streamed are the unsigned terms of exactly the fingerprints that have any, once each and in the order of their ids |
| Feed.ServeBootstrap | acoustid/future/fpindex/feed.py:275-351 | 404 exactly for another lineage; else the bytes of the response decode to the position and those changes, and every proper prefix is recognised as incomplete |
| Wire.ChangeRoundTrip | acoustid/future/fpindex/wire.py:71-86 | a change is read back as it was sent |
| Wire.ResponseRoundTrip | acoustid/future/fpindex/wire.py:96-123 | an encoded response is read back whole, whatever follows it, and no proper prefix of it decodes |
| Wire.BootstrapRoundTrip | acoustid/future/fpindex/wire.py:169-195 | header, arrays and terminator decode to the position and all changes in order |
| Wire.CutBootstrapIsIncomplete | acoustid/future/fpindex/wire.py:184-195 | a bootstrap that stops anywhere before its last byte, between two arrays included, is incomplete |
| Wire.KnownResponse | tests/future/fpindex/test_feed.py:79-85 | the bytes of a response with one row, literally |
| Wire.KnownDelete | tests/future/fpindex/test_feed.py:94-96 | the bytes of a delete, literally |
| Wire.KnownEmptyBootstrap | tests/future/fpindex/test_feed.py:546-552 | the bytes of the bootstrap of an empty corpus, literally |
| MessagePack.DecodeRoundTrip | acoustid/future/fpindex/wire.py:109-110 | every integer, string, array and map of the format families used is read back whole, whatever follows |
| MessagePack.DecodePrefix | acoustid/future/fpindex/wire.py:109-110 | values are self-delimiting: bytes cut inside a value never decode |
| MessagePack.HeadsAreMessagePack | acoustid/future/fpindex/wire.py:109-110 | the heads of all families are those of MessagePack at the ends of every width |
| Calendar.AddMonthsMovesIndex | acoustid/tables.py:523-525 | adding months moves the month index by exactly the count and fails exactly outside the years 1 to 9999 |
| Calendar.AddMonthsIsAnAction | acoustid/tables.py:523-525 | adding months is additive, invertible and strictly monotone |
| Calendar.PartitionsTileTime | acoustid/tables.py:532-546 | each instant the calendar can name a bound for lies in exactly one partition |
| Calendar.NameParsesBack | acoustid/tables.py:528-529 | a partition name parses back to its month, exactly for four-digit years |
| Calendar.ParsedNameIsItsOwn | acoustid/scripts/fpindex_changelog.py:103-127 | a table name taken for a partition is the name of that partition if and only if its year is 1000 or later |
| Calendar.EarlyNameIsForeign | acoustid/scripts/fpindex_changelog.py:103-127 | a name that the job takes for a partition and never gives to one |
| Calendar.NameWithoutAMonth | acoustid/scripts/fpindex_changelog.py:103-127 | a name that stops the job: it has the form of a partition's and no month |
| Calendar.MonthsByNumber | acoustid/tables.py:523-546 | adding months to a date is adding to its number, and its partition holds the instants of the month with that number |
| Maintenance.ConsecutiveMonths | acoustid/scripts/fpindex_changelog.py:130-142 | the loop ends, with the length of the unbroken run |
| Maintenance.RunwayLasts | acoustid/scripts/fpindex_changelog.py:145-159 | months that retention has not reached keep their partition through any run |
| Maintenance.InsertsAreCovered | acoustid/scripts/fpindex_changelog.py:145-159 | up to twelve months after a successful creation, whatever else runs, the current time lies in exactly one existing partition and no trigger fails for want of one |
| Maintenance.DropKeepsHeadroom | acoustid/scripts/fpindex_changelog.py:200-206 | a drop never shortens the run of months from the current one |
| Maintenance.Job.Execute | acoustid/scripts/fpindex_changelog.py:162-197 | one statement amid other processes: after what they do it either has its effect or, if it is not possible or times out, none, and the protocol's invariant holds as long as the environment has kept to the assumptions |
| Maintenance.Job.CreatePartitions | acoustid/scripts/fpindex_changelog.py:145-159 | exactly the months whose statement succeeded are created; without failures the runway reaches twelve months ahead |
| Maintenance.ExistingPartitions | acoustid/scripts/fpindex_changelog.py:103-127 | the tables whose name parses, with their months; a name that matches and does not parse stops the run |
| Maintenance.NamesAreMonths | acoustid/scripts/fpindex_changelog.py:103-127 | among the tables of any months and others with foreign names, exactly the months from the year 1000 on are found, with those of stray early names; only a name among the others can stop the run |
| Maintenance.SortedMonths | acoustid/scripts/fpindex_changelog.py:204-204 | the months found, in order |
| Maintenance.Job.SeenMonths | acoustid/scripts/fpindex_changelog.py:103-127 | the query for partitions yields the months whose names have six digits and those of stray early names, or stops the run exactly at a name without a month |
| Maintenance.Job.Retire | acoustid/scripts/fpindex_changelog.py:207-225 | exactly the record and then, if it succeeded, the drop, amid other processes; every row of a dropped month is at or below the watermark |
| Maintenance.Job.DropPartitions | acoustid/scripts/fpindex_changelog.py:200-247 | stopped by a name without a month it drops nothing; otherwise, left alone, exactly the visible partitions out of the window whose two statements got their locks go |
| Maintenance.Job.ReportHeadroom | acoustid/scripts/fpindex_changelog.py:250-263 | the headroom is the unbroken run of the months found from the current one; a name without a month stops it |
| Maintenance.Job.Run | acoustid/scripts/fpindex_changelog.py:266-277 | a run amid other processes, from table names, keeps the invariant and the watermark; it stops exactly at a name without a month, the runway created even so; undisturbed it creates and drops exactly what it should and leaves more than twelve months |
| LinkTables.LinkTable.InsertGid | acoustid/data/track.py:368-401 | the row of the track and gid, created if missing, gains one vote and one source row; a refused source row leaves nothing behind |
| LinkTables.LinkTable.DisableMbid | acoustid/data/track.py:102-127 | every row of the MBID, and no other, is disabled and gets exactly one change row |
| LinkTables.LinkTable.RepointSources | acoustid/data/track.py:289-304 | after the first loop sources and changes point at the lowest row of their gid, and the rest is sorted into rows to delete and rows to update |
| LinkTables.LinkTable.UpdateRow | acoustid/data/track.py:308-322 | after each UPDATE one more row is as merged and no two rows share a track and a gid |
| LinkTables.LinkTable.UpdateRows | acoustid/data/track.py:308-322 | row by row the last loop reaches the merged rows |
| LinkTables.LinkTable.MergeTracksGids | acoustid/data/track.py:264-322 | the loops amount to the group-by: one row per gid with the lowest id, the summed count, disabled only if all were; it fails, changing nothing, exactly if a row that stays refers to one that goes |
| LinkTables.UniqueThroughout | acoustid/data/track.py:308-322 | partway through the updates no two rows share a track and a gid |
| Links.SameHomeIffSameGid | acoustid/data/track.py:274-287 | two rows end in the same row if and only if they share their gid |
| Links.MergeKeepsConsistent | acoustid/data/track.py:264-322 | the group-by keeps counts equal to source rows, leaves no source dangling, and keeps (track, gid) unique |
| LinkTables.LinkTable.MergeRow | acoustid/data/track.py:154-229 | the row of one track hands count, sources and changes to the target row, which is created if need be |
| LinkTables.LinkTable.MergeMbids | acoustid/data/track.py:130-229 | all rows are handed over and nothing else changes; it fails, changing nothing, exactly if a row has been merged into another row than the target's; merged into itself, an MBID only comes to refer to itself |
| LinkTables.RowMergeKeepsConsistent | acoustid/data/track.py:178-229 | each round keeps counts equal to source rows and (track, MBID) unique |
| LinkLaws.MbidVotesMove | acoustid/data/track.py:186-211 | on every track the target ends with the votes of both and the source with none |
| LinkLaws.SourceIsRetired | acoustid/data/track.py:183-194 | the source row is zeroed, disabled, without sources, and merged into the one row of the target on its track |
| LinkLaws.EnabledIfEitherWas | acoustid/data/track.py:154-211 | the target is enabled exactly when either was, if and only if the target existed or the source was enabled: a created target is enabled regardless |
| LinkLaws.DisabledSourceEnablesTarget | acoustid/data/track.py:154-211 | a run of insert, disable and merge after which the only MBID of a track is enabled although the one it had was disabled |
| LinkLaws.MergingMbidsTwice | acoustid/data/track.py:180-229 | a second run finds nothing in its way and changes nothing |
| LinkLaws.TrackVotesMove | acoustid/data/track.py:264-322 | each gid has on the target the votes it had on all the tracks, and no row on the others |
| LinkLaws.LowestRowStays | acoustid/data/track.py:274-322 | a row stays exactly if its track is not merged or no lower row of those tracks has its gid, and keeps its id, gid and merged_into |
| LinkLaws.EnabledIfAnyWas | acoustid/data/track.py:278-281 | after a merge of tracks an MBID is enabled if and only if it was on one of them |
| Redirects.MergeKeepsOneHop | acoustid/data/track.py:344-355 | a merge that names the roots of its tracks keeps redirects one hop deep |
| Redirects.MergeIsFaithfulIff | acoustid/data/track.py:344-355 | one-hop resolution still agrees with the merges performed if and only if the merge names the root of every track it names, or moves nothing |
| Redirects.RunIsSound | acoustid/data/track.py:325-365 | through every run of inserts, fingerprints and merges in which merges name the roots, the invariant holds, and every fingerprint sits on a root: the one that the track it was added to resolves to |
| Redirects.PlainRunIsCareful | acoustid/data/track.py:325-365 | runs in which only roots are merged into roots, and a fingerprint goes on a new track or beside another, are such runs |
| Redirects.ForgottenRootIsLost | acoustid/data/track.py:344-355 | a run that merges a track twice without naming its root: two related tracks resolve apart |
| Redirects.ResolvingIsTheClosure | acoustid/data/track.py:18-29 | two tracks resolve to the same one if and only if the equivalence closure of the merges relates them |
| TrackStores.TrackStore.InsertTrack | acoustid/data/track.py:358-365 | a new track without redirect; a taken gid is refused |
| TrackStores.TrackStore.ResolveTrackGid | acoustid/data/track.py:18-29 | the one-hop answer for the track with the gid, none if there is no such track |
| TrackStores.TrackStore.AddFingerprint | acoustid/data/fingerprint.py:287-302 | a fingerprint goes on an existing track or is refused |
| TrackStores.TrackStore.MergeTracks | acoustid/data/track.py:325-355 | the four link tables, the fingerprints of the source tracks and no others, and the redirects move together or not at all, with the exact condition of failure |
| Redirects.MergeKeepsSettled | acoustid/data/track.py:336-355 | a merge that names the roots keeps redirects one hop deep and every fingerprint on a root |
| Redirects.MovedToTheRoot | acoustid/data/track.py:336-344 | a merge keeps every fingerprint and takes it where its old track now resolves to; those on other tracks stay |
| Redirects.InsertKeepsSettled | acoustid/data/track.py:358-365 | so does a new track, which is a root |
| MetaBackfill.Backfill.FoldTrack | acoustid/scripts/backfill_meta_gid.py:84-135 | the link to the meta that goes is folded into the link to the meta that stays, count and sources with it; without two links nothing changes |
| MetaBackfill.Backfill.FoldMeta | acoustid/scripts/backfill_meta_gid.py:67-148 | a meta whose gid is taken is folded away with its links and results; every link row and count stays consistent throughout |
| MetaBackfill.Backfill.FillMeta | acoustid/scripts/backfill_meta_gid.py:150-157 | a meta whose gid is free gets it, and so do its results |
| MetaBackfill.Backfill.BackfillMeta | acoustid/scripts/backfill_meta_gid.py:48-157 | one round leaves every other meta as it was and no link or result referring to a deleted meta |
| MetaBackfill.Backfill.BackfillBatch | acoustid/scripts/backfill_meta_gid.py:38-158 | exactly the metas of the batch are dealt with, and the returned id is the furthest of them |
| MetaBackfill.Backfill.Run | acoustid/scripts/backfill_meta_gid.py:161-179 | the loop ends for every limit, with everything conserved and the metas as `RunMetas` has them; for a limit of at least two every meta then has its gid |
| MetaBackfill.NothingIsLeft | acoustid/scripts/backfill_meta_gid.py:168-174 | a batch that does not get further has seen everything, given room for two |
| MetaBackfill.LimitOfOneStalls | acoustid/scripts/backfill_meta_gid.py:38-46 | with room for one a batch does not get further if and only if its starting meta still exists or nothing is left |
| MetaBackfill.CompletesIff | acoustid/scripts/backfill_meta_gid.py:161-179 | the run leaves every meta with its gid, from every table, hash and starting point, if and only if a batch has room for two |
| MetaBackfill.StallLeavesAMeta | acoustid/scripts/backfill_meta_gid.py:161-179 | two metas and room for one or none: the whole run ends with the second meta without a gid |
| MetaBackfill.StallingRun | acoustid/scripts/backfill_meta_gid.py:161-179 | the script itself does so |
| MetaBackfill.VotesAreConserved | acoustid/scripts/backfill_meta_gid.py:84-140 | the number of submissions per track and gid is conserved |
| MetaBackfill.BackfillIsComplete | acoustid/scripts/backfill_meta_gid.py:38-158 | in the end each meta has the gid of its content, each gid of a deleted meta lives on in another, and every result refers to an existing meta and carries its gid |
| Databases.Database.Execute | acoustid/data/track.py:264-401 | each operation has exactly its effect on all the tables, or none, and keeps the promises of all classes |
| Databases.RunAll | acoustid/data/track.py:264-401 | from the empty database, after any operations, each with its effect, every link row counts its source rows, none dangles, no track has a gid twice, and no link or result refers to a missing meta |
| MergeGroups.CanMergeTracks | acoustid/data/track.py:531-545 | the loop over the ordered rows returns the classes of the forest in which the last accepted partner is the parent |
| MergeGroups.RootIsFinal | acoustid/data/track.py:531-541 | a later row never moves a root already found: this is where the order of the query matters |
| MergeGroups.GroupsAreLinked | acoustid/data/track.py:531-545 | each group has at least two tracks, its root is its minimum, and accepted pairs inside the group lead from every member to it |
| MergeGroups.GroupsAreDisjoint | acoustid/data/track.py:542-545 | no track is in two groups |
| MergeGroups.PairsAreTogetherIff | acoustid/data/track.py:531-545 | every accepted pair ends in one group if and only if any two accepted partners of a track are connected by accepted pairs among the tracks below it |
| MergeGroups.FirstPartnerIsLeftOut | acoustid/data/track.py:533-541 | an accepted pair that does not |
| MergeGroups.AcceptedIffAlike | acoustid/data/track.py:513-536 | a pair of tracks is accepted if and only if all the fingerprints compared are alike |
| MergeGroups.AcceptanceCoversIff | acoustid/data/track.py:511-536 | acceptance covers all fingerprints of two tracks, for all lengths, contents and scores, if and only if no fingerprint of the lower track has a higher id than one of the other |
| MergeGroups.SkippedPairIsNotSeen | acoustid/data/track.py:511-513 | for any pair the query skips, contents and symmetric scores under which the tracks are accepted and that pair has nothing in common |
| RateLimiter.StepKeepsInv | acoustid/ratelimiter.py:22-43 | every interleaved command keeps the counters equal to the requests that stand, and no request counts less than what came before it and may pass |
| RateLimiter.LimitHolds | acoustid/ratelimiter.py:22-54 | with timely clients, in every run no `steps` consecutive buckets hold more accepted requests than rate * interval |
| RateLimiter.NothingExpiresTooSoon | acoustid/ratelimiter.py:28-32 | no bucket that a prompt request has yet to read has expired, and its reading is exact |
| RateLimiter.BucketHoldsTime | acoustid/ratelimiter.py:24-24 | a bucket spans interval / steps seconds and holds the times it is computed from |
| RateLimiter.Limit | acoustid/ratelimiter.py:22-54 | undisturbed, a request is limited if and only if, with itself, more requests stand in the window than allowed, and a limited one leaves no trace in the counters |
| RateLimiterLimits.KeepsLimitIff | acoustid/ratelimiter.py:22-54 | for every limit, every run keeps it if and only if there is one bucket or clients make their reads within interval // steps seconds |
| RateLimiterLimits.SlowReadOvershoots | acoustid/ratelimiter.py:26-43 | for slower clients and any limit, a run that overshoots it |
| LineFraming.SplitJoined | acoustid/indexclient.py:164-167 | lines taken off the front are the first of the CRLF split |
| LineFraming.SplitGrows | acoustid/indexclient.py:141-158 | bytes that arrive later add lines and change none |
| IndexClients.IndexClient.Close | acoustid/indexclient.py:221-243 | if the wait for its rollback ends, it ends with no socket and no transaction, after at most one close within, and has sent a rollback exactly if there was a transaction and the send succeeds, and nothing else |
| IndexClients.IndexClient.EverythingEnds | acoustid/indexclient.py:121-243 | against a server under which every wait ends, the waits that the methods ask for do |
| IndexClients.IndexClient.PutLine | acoustid/indexclient.py:110-119 | the line is sent, or the client was closed before or is closed now, with what a close sends |
| LineReading.DrainEndsIff | acoustid/indexclient.py:143-158 | the loop of recv ends if and only if some recv of the burst finds nothing, the end or an error |
| LineReading.RoundsAreBounded | acoustid/indexclient.py:128-163 | if every burst ends, the first uninterrupted round after timeout / pace rounds is the last, where no round takes less time than the pace (an idle one takes the socket timeout) |
| LineReading.AlwaysEndsIff | acoustid/indexclient.py:121-168 | where time passes, the wait ends from every start and with every timeout if and only if every burst ends, or none begins, and select is not interrupted for ever |
| LineReading.AlwaysSending | acoustid/indexclient.py:143-158 | against a server that always has data ready the wait is still in its loop of recv after any number of steps, whatever the deadline |
| LineReading.BufferHoldsBytes | acoustid/indexclient.py:141-158 | against any server and however far the wait gets, the buffer gains exactly the bytes received, in order |
| IndexClients.IndexClient.AwaitLine | acoustid/indexclient.py:121-163 | the loop takes the steps of the wait and ends where the wait ends |
| IndexClients.IndexClient.GetLine | acoustid/indexclient.py:121-168 | the line returned is the next of the CRLF split of all bytes received, wherever recv has cut them; the client stays open exactly if there is one |
| IndexClients.IndexClient.Request | acoustid/indexclient.py:170-177 | the exact answer, whether the client stays open, and every line sent; an open client owes no line, so the line it reads is the answer to this request |
| IndexClients.ContainsIsSubstring | acoustid/indexclient.py:175-176 | a line has the words that close the client exactly if it is something, those words and something |
| IndexClients.IndexClient.Begin | acoustid/indexclient.py:197-201 | it sends begin exactly if there was no transaction; it succeeds, and only then is there a transaction, exactly if the server says OK |
| IndexClients.IndexClient.Finish | acoustid/indexclient.py:203-213 | it sends its command exactly if there is a transaction; one that fails leaves the transaction open if and only if it leaves the connection open |
| IndexClientPools.IndexClientPool.Release | acoustid/indexclient.py:302-312 | open clients are kept while there is room, others are closed or dropped |
| IndexClientPools.IndexClientPool.CloseWrapper | acoustid/indexclient.py:270-277 | an open transaction is rolled back; a client goes back inside it if and only if the rollback failed on a connection left open |
| IndexClientPools.ReleasedInsideTransaction | acoustid/indexclient.py:270-277 | a server and a client that goes back into the pool inside a transaction |
| IndexClientPools.IndexClientPool.Connect | acoustid/indexclient.py:314-334 | the client handed out is open, owes no answer, and is no longer idle; an idle one has been pinged and nothing else |
| IndexClientPools.IndexClientPool.Dispose | acoustid/indexclient.py:292-300 | every idle client is closed, with a rollback of any transaction |
| Hashes.SignedRoundTrip | acoustid/fingerprint.py:17-22 | signed hashes survive the way to unsigned and back if and only if they fit 32 bits |
| Hashes.UnsignedRoundTrip | acoustid/fingerprint.py:17-22 | unsigned hashes survive the way to signed and back if and only if they fit 32 bits |
| QueryExtraction.ExtractQuery | acoustid/fingerprint.py:47-83 | the result is the first `size` terms from the starting index on, which is `start` itself when enough hashes follow it; it fails exactly if from there on a hash that is not silence has the highest bit and comes before there are `size` terms |
| QueryExtraction.RestStarts | acoustid/fingerprint.py:61-63 | the hashes taken start where asked if enough are sure to follow, at 0 for a negative start or too few hashes, else at the last place where enough are sure to follow |
| QueryExtraction.NoLaterPlace | acoustid/fingerprint.py:52-63 | behind any later place there are, for some hashes with the same counts, not enough |
| QueryExtraction.CleanSizeCounts | acoustid/fingerprint.py:52-53 | the clean size is the number of places without silence |
| QueryExtraction.AcceptedIff | acoustid/fingerprint.py:47-83 | the signed array takes the query if and only if no such hash is among those from the starting index on |
| QueryExtraction.HighHashFails | acoustid/fingerprint.py:47-83 | one hash with the highest bit: the function fails for every positive size and every start |
| QueryExtraction.TermsAreTheHashes | acoustid/fingerprint.py:65-78 | the terms are exactly the masked hashes that are not silence, each once |
| QueryExtraction.FirstComesFirst | acoustid/fingerprint.py:65-78 | in the order of their first occurrence |
| QueryExtraction.EnoughIsLeft | acoustid/fingerprint.py:52-63 | the suffix holds at least min(clean size, size) hashes that are not silence |
| QueryExtraction.EmptyIffSilence | acoustid/fingerprint.py:52-83 | a query of positive size is empty if and only if all hashes are silence |
| QueryExtraction.QueryIsBounded | acoustid/fingerprint.py:65-83 | at most `size` distinct 32-bit terms with the low bits clear |
| Ingest.StepKeepsInv | acoustid/data/submission.py:297-344 | no step of any importer breaks the invariant of the queue |
| Ingest.PendingIffUnhandled | acoustid/data/submission.py:41-51 | in every committed state a submission is pending if and only if it is unhandled, has at most one result, and none while unhandled |
| Ingest.RefusedStaysPending | acoustid/data/submission.py:80-97 | a submission whose advisory lock was refused stays pending, unhandled and without a result |
| Ingest.RefusedIffRelated | acoustid/data/submission.py:80-103 | a submission is refused if and only if another open importer holds its simhash or its MBID; otherwise the importer takes exactly its locks and handles it |
| Ingest.AloneHandlesAll | acoustid/data/submission.py:297-344 | an importer with no other beside it handles every submission it claimed |
| Ingest.LocksEndWithTheirHolder | acoustid/data/submission.py:80-97 | no lock outlives the commit or abort of its importer, and no other goes with it |
| Ingest.LocksHaveHolders | acoustid/data/submission.py:80-97 | in every reachable state each lock is held by an open importer |
| Ingest.SubmissionsStay | acoustid/data/submission.py:41-51 | what was submitted keeps its simhash and MBID, a new submission is pending, and a handled one stays handled |
| Ingest.ClaimedAreHandled | acoustid/data/submission.py:320-342 | the others an importer claimed are handled, no longer pending, and have the result it wrote |
| Ingest.RelatedAreApart | acoustid/data/submission.py:77-97 | two open importers never have in hand the same submission, simhash or MBID |
| TrackCliques.Importer.CanAddFpToTrack | acoustid/data/track.py:548-561 | true if and only if every fingerprint of the track is alike |
| TrackCliques.Importer.Choose | acoustid/data/submission.py:174-200 | the first match whose track takes the fingerprint; the match itself is reused if and only if it scores above the threshold |
| TrackCliques.Importer.InsertFingerprint | acoustid/data/fingerprint.py:287-315 | a new fingerprint with one vote and one source row; tracks stay cliques |
| TrackCliques.Importer.IncSubmissionCount | acoustid/data/fingerprint.py:318-336 | one vote and one source row more |
| TrackCliques.Importer.ImportFingerprint | acoustid/data/submission.py:174-228 | one vote more for one fingerprint, with one source row, on the track chosen for it or a new one; tracks stay cliques |
| TrackCliques.Importer.ImportSubmission | acoustid/data/submission.py:105-294 | a submission is skipped exactly without metadata, enough different items, anything to index or a source, and changes nothing then; any other adds exactly one to the total of counts, one source row and one result, and one vote with its source row for each of its MBID, PUID, meta and foreign id on that track |
| TrackCliques.ReusedIsBest | acoustid/data/submission.py:181-200 | a reused fingerprint lies on the chosen track and is its best match there |
| TrackCliques.TotalIsSources | acoustid/data/fingerprint.py:287-336 | the total of all counts is the number of source rows |

## Left out

- HTTP routing, health checks, login, web views, API parameter parsing, metadata shaping and the lookup search: plumbing around the modelled logic.
- acoustid_extract_query, acoustid_compare2, simhash, zstd and UUIDv5: uninterpreted parameters; the Python `extract_query` is modelled and is not equated with the SQL function.
- `acoustid/future/fpindex/updater/*`, and how a node takes a peer snapshot instead of the bootstrap: their correctness hangs on systems outside the repository.
- Statistics counters: an increment that lands between reading and deleting a zero counter is lost, so there is no conservation to prove.
- Timestamp columns (`created` of links, `updated`, `handled_at`), notes and account ids of change rows.
- Transactions across the fingerprint and ingest databases are one commit; two-phase commit is optional in the source.
- Deadlocks, statement timeouts and serialization inside one database; each modelled transaction of the link tables, tracks and the backfill runs alone.
- Calendar: `strftime` is modelled without padding of years below 1000, and the name pattern matches ASCII digits and no trailing newline.
- Maintenance.Job.Run: reports no metrics, the server's date and the changelog's clock are one clock that stays before the year 9999, and a table under a name with a year below 1000 (`Calendar.EarlyNameIsForeign`), which the job drops, holds no row of the changelog.
- MessagePack: only the int, str, array and map families, which is what the feed sends.
- Feed.IntParam: `int()` of a text is a parameter (parsed or not), and a query parameter is given once.
- Wire: the delete change and the lifecycle feed (`meta_response`) carry nothing the changelog produces.
- LinkTables.LinkTable.MergeMbids: the advisory lock and row locks are not modelled, the merge runs alone; `merged_into` may form cycles over several merges, and nothing is claimed about that.
- LinkTables.LinkTable.MergeTracksGids: the order in which SQL returns groups and updates rows is arbitrary in the model.
- TrackStores.TrackStore.MergeTracks: takes a set of source tracks; a repeated id in the list makes no difference to the statements.
- MetaBackfill.Backfill.Run: other writers of metas between two batches are not modelled, and meta ids are positive, as the sequence gives them.
- MetaBackfill.BackfillIsComplete: results must carry the gid of their meta to begin with, as the importer writes them.
- Databases.Database.Execute: an operation that the tables refuse leaves everything as it was; the import of a submission is in `TrackCliques` with link tables of its own.
- MergeGroups.CanMergeTracks: the order of the returned list, which comes from a set, is not modelled.
- RateLimiter.LimitHolds: reading the clock and INCR are one step, and all clients share one clock.
- IndexClients.IndexClient.Close: if the wait for its rollback does not end (`LineReading.AlwaysEndsIff`, `LineReading.AlwaysSending`), it does not return; each method is stated for the states in which the waits it makes end.
- IndexClients.IndexClient.Request: search, insert and attribute commands differ in the text sent only, and the parsing of search results is left out.
- IndexClientPools.IndexClientPool.Connect: the lock around the deque is not needed here, one thread uses the pool at a time.
- Ingest.PendingIffUnhandled: the tables start empty or in a consistent state reached by the same steps; rows written by other tools are not considered.
- TrackCliques.Importer.ImportSubmission: imports run one after the other, the search answer is any that the query's conditions and order allow, the id of the meta is given, and merging tracks is switched off in the source (`and False`). Ids of submissions and sources are not 0, for which no source row would be written.
- FingerprintSearcher: which candidates the index proposes is arbitrary.
