# Transit Observatory: a verified model of the backend

The backend ingests service-alert feeds and GTFS archives from concurrent workers into PostgreSQL and answers
questions about the history it keeps. This project models the parts of it that carry state or a protocol and
proves what they are for. Conventions: PostgreSQL is a set of tables with their declared constraints, a
transaction either applies as a whole or not at all, times are integer microseconds, and SHA-256 and JSON encoding
are injective.

**Alerts.** `AlertReconciliation.AlertRepository` reconciles full-dataset feeds with the alert tables. All its
transactions hold one advisory lock, so every sequence of calls, in any order and for any mix of sources and runs, is
a run of the system. Its invariant says that the tables equal `Replay` of the feeds applied so far. `AlertHistory`
shows that a replayed chain is the run-length encoding of that history, from which the shape of the chains and the
as-of reading follow, with repeated observation times allowed. `AlertTables` states the consequences for the tables,
and `AlertIngestion` what a reported success of a whole ingestion run says about them; `AlertHash` shows that the
content hash identifies alerts up to the order of their collections. `AlertEpisodes`, `AlertEpisodeTimes` and
`AlertStretches` are about the episode views: there is exactly one row for every episode, and the window functions
recover the stretches of feeds through which an alert was continuously present. That last result needs that an alert
never leaves and comes back within one observation time, and is proved to hold exactly then; strictly increasing
observation times are enough.

**Attempts.** `AttemptProtocol` models one ingestion attempt against a database whose commits may succeed, roll
back, or go unreported and be decided later, while their transaction holds the row lock. Every committed version of
the attempt is logged, and what the services report is compared with that log.

**Archive.** `ArchiveS3` and `ArchiveLocal` are step machines for any number of Puts on one key, with the Go
methods proved to follow them.

**GTFS.** `GtfsParse` and `GtfsDataset` hold the table parsers, each with the exact set of tables it accepts, and
the proof that accepted datasets satisfy every constraint of the schema but the types of its columns; `GtfsStations`
resolves parent stations and compares the parser with the recursive view; `RecordLimit` is the byte-level record
limit; `NetworkInstall` replaces the installed network.

**Reading.** `Buckets` and `Analytics` cover line analytics in both query forms, `ReadModel` the classification
and counting of alerts, `LikeSearch` the station search, `StatusReport` the recent-failure reason.

Where code and expectation part, the model follows the code and states the exact condition: the id tie-break of the
latest applied feed (`AlertReconciliation.LatestIsLastApplied`), through which a duplicate can be skipped that would
have changed the tables (`AlertTables.DuplicateSkipExact`, `AlertTables.SkipVerdictExact`, with the input in
`AlertTables.TieSkipsAChange` and `AlertTables.ReachTie`); episodes under repeated observation times
(`AlertStretches.GroupsExactly`, `AlertStretches.NumbersFitExactly`, with the input in
`AlertStretches.ReturnSharesEpisode`); accepted archives that the tables refuse (`GtfsDataset.AcceptedIsInstallable`,
with the input in `GtfsDataset.ColoursAreNotChecked`); and mixed sequences of downloads with and without a
modification time (`NetworkInstall.MixedKeepsOrderExactly`, with the input in `NetworkInstall.MixedCanGoBack`).

## Model

| member | source | states |
|---|---|---|
| `AlertReconciliation.AlertRepository.CompleteAlertRun` | internal/database/alerts.go:109-226 | every call refuses, skips (stale or duplicate) or applies exactly as decided against the feeds applied so far; the tables change exactly if the commit takes effect, which a returned success implies and a returned failure rules out at that moment, so that only an outcome reported as unknown leaves it open; the completed row records retrieval, feed timestamp, payload and, where it is skipped, the very reason |
| `AlertReconciliation.AlertRepository.ReconcileAlert` | internal/database/alerts.go:442-548 | one alert is refused only without a usable hash or identifier; otherwise its row is the chain after one more sighting (extended, or closed and reopened under the next number) and no other row changes |
| `AlertReconciliation.ReviseRow` | internal/database/alerts.go:492-547 | the stored row of a known alert after one more sighting stores the observed chain, numbers and both ends included |
| `AlertReconciliation.NextRevisionNumber` | internal/database/alerts.go:520-527 | COALESCE(max, 0) + 1 is above every number and follows one that is there |
| `AlertReconciliation.AlertRepository.CloseMissingAlerts` | internal/database/alerts.go:647-688 | exactly the present alerts of the source that the feed does not list are closed, each with its current revision; all other rows stay |
| `AlertReconciliation.AlertRepository.ReconcileAlerts` | internal/database/alerts.go:173-182 | the loop succeeds exactly on feeds with distinct identifiers whose every alert is hashable and storable, and then every listed alert is reconciled and no other row is touched |
| `AlertReconciliation.AlertRepository.LatestAppliedFeed` | internal/database/alerts.go:245-269 | the selected run comes first by observation time, retrieval time and id among the applied runs of the source; none only if nothing was applied |
| `AlertReconciliation.AlertRepository.SkipReason` | internal/database/alerts.go:144-171 | stale exactly if older than the feed applied last; duplicate exactly if timestamped and byte-identical to the selected run |
| `AlertReconciliation.AlertRepository.PrepareFeed` | internal/database/alerts.go:173-225 | the statements of a reconciliation go through exactly for acceptable feeds, and what they would write keeps the tables equal to the replay |
| `AlertReconciliation.AlertRepository.Commit` | internal/database/alerts.go:316-338 | what a commit that is confirmed, applied without a report, rolled back or left undecided leaves in the tables, and what the caller learns of it |
| `AlertReconciliation.AlertRepository.Decide` | internal/database/alerts.go:316-338 | a commit left undecided later applies as a whole or not at all, and the invariant stays |
| `AlertReconciliation.AlertRepository.StartAlertRun` | internal/database/alerts.go:32-43 | a new running attempt without an archive; nothing else changes |
| `AlertReconciliation.AlertRepository.FailAlertRun` | internal/database/alerts.go:61-107 | marks exactly running attempts failed, keeping an existing archive link, and recording what was fetched |
| `AlertReconciliation.LatestHasLastTimes` | internal/database/alerts.go:252-269 | whatever run the ordering by time selects, its two times are those of the feed applied last |
| `AlertReconciliation.LatestIsLastApplied` | internal/database/alerts.go:252-269 | the selected run is the one applied last if and only if no run with the same two times has a larger id |
| `AlertReconciliation.ContentIgnoresOrder` | internal/database/alerts.go:173-182 | a feed amounts to the same content whatever order its alerts come in |
| `AlertHistory.ChainIsRunLengthEncoding` | internal/database/alerts.go:442-548 | the revisions of an alert are exactly the maximal runs of applied feeds that show it with one fingerprint; no feed is left out and touching runs differ |
| `AlertHistory.ChainShape` | internal/database/alerts.go:442-548 | first <= last <= closed <= next first, only the last revision open, and nothing later than the last feed, also when observation times repeat |
| `AlertHistory.AsOf` | internal/database/alerts.go:109-226 | at every instant the chain shows exactly what the last feed observed by then showed, in at most one revision, also when observation times repeat |
| `AlertHistory.ReapplyingChangesNothing` | internal/database/alerts.go:160-171 | applying again what the last feed said, at its observation time, changes no chain |
| `AlertHistory.OnlyHashesMatter` | internal/database/alerts.go:500-513 | two histories that differ only in the order inside collections give the same chains up to stored order |
| `AlertHistory.HashTellsApart` | internal/realtime/hash.go:17-44 | the stored hash of a sighting tells apart exactly the alerts that differ in a scalar or, as a multiset, in a collection; active periods included |
| `AlertTables.TakeSteps` | internal/database/alerts.go:109-226 | after any sequence of steps of any attempts of any sources, the tables read as of any instant show exactly the pairs of the last applied feed observed by then, and every chain invariant holds |
| `AlertTables.TablesAsOf` | internal/database/alerts.go:109-226 | as-of reading of the tables of one source equals the last applied feed, both directions, for every entity and hash |
| `AlertTables.OneRevisionAtATime` | internal/database/alerts.go:442-548 | never two revisions of one alert visible at one instant |
| `AlertTables.EveryChainHolds` | internal/database/alerts.go:442-548 | numbers 1..n without gaps, current_revision n, all others closed, times in order, is_present iff open iff closed_at null, and the alert row equal to both ends of its chain |
| `AlertTables.PresentMeansInLastFeed` | internal/database/alerts.go:647-688 | an alert has a row iff some applied feed listed it, and is present iff the last one did |
| `AlertTables.StaleExactly` | internal/database/alerts.go:144-158 | a feed is stale iff it is older than the one applied last: by timestamps where both have one, a timestamp against the retrieval of a feed without one, and by retrieval where those are level |
| `AlertTables.DuplicateExactly` | internal/database/alerts.go:160-171 | a feed that is not stale is a duplicate iff it has a timestamp and the payload of the selected run; where nothing stands against a feed it is not refused |
| `AlertTables.FirstIsNotSkipped` | internal/database/alerts.go:140-171 | the first feed of a source is never skipped |
| `AlertTables.AppliedExactly` | internal/database/alerts.go:109-142 | only a complete feed of an archived running attempt whose timestamp fits int64 is applied, at its timestamp in microseconds or its retrieval, with exactly its alerts |
| `AlertTables.AcceptableExactly` | internal/database/alerts.go:690-716 | the tables accept exactly alerts with distinct non-empty identifiers, no unknown fields and period bounds that fit int64 |
| `AlertTables.DuplicateSkipExact` | internal/database/alerts.go:160-171 | skipping a payload equal to that of the selected feed leaves every chain as applying it again would, if and only if the selected feed says what the feed applied last says |
| `AlertTables.SkippedRowsKept` | internal/database/alerts.go:160-171 | and then a row would differ in last_seen_run_id at most |
| `AlertTables.SkipVerdictExact` | internal/database/alerts.go:144-171 | the same for every call that ends in the duplicate verdict; the condition always holds when no run with the last two times has a larger id |
| `AlertTables.TieSkipsAChange` | internal/database/alerts.go:245-269 | a fresh run is skipped as a duplicate although applying it would change a chain: the selected feed shows an alert, the one applied last, with the same two times and a smaller run id, does not |
| `AlertTables.ReachTie` | internal/database/alerts.go:109-226 | the code reaches such a state: three attempts on empty tables, reconciled in the order that makes the tie |
| `AlertTables.ReorderedFeedSameContent` | internal/realtime/hash.go:25-74 | reordering alerts, and translations, periods and entities inside them, gives a feed of the same content |
| `AlertIngestion.Run` | internal/ingest/alerts.go:43-101 | with anything other attempts do in between: a reported success means that the run is durably skipped, or that from its observation on the tables show exactly its feed; an unknown outcome is never marked failed; a reported failure takes effect all the same only through an undecided commit |
| `AlertIngestion.Reconcile` | internal/ingest/alerts.go:77-84 | the result of a run follows from the verdict on its feed and the answers of the database |
| `AlertIngestion.LastFeedShows` | internal/database/alerts.go:109-226 | from the last applied feed on, the tables of a source show exactly what it lists |
| `AlertHash.HashAlert` | internal/realtime/hash.go:25-59 | refuses exactly alerts with unknown fields, and otherwise sorts copies of the five collections and hashes the canonical form |
| `AlertHash.HashesAgreeExactly` | internal/realtime/hash.go:25-74 | two hashes are equal if and only if every scalar agrees and every collection agrees as a multiset, which is when the stored fingerprints do |
| `AlertHash.CanonicalHolds` | internal/realtime/hash.go:27-55 | the canonical form keeps every scalar and has every collection, sorted |
| `AlertHash.TranslationsOrdered` | internal/realtime/hash.go:61-68 | language, then text, is a strict total order, so sorting has one result |
| `AlertHash.EncodedOrdered` | internal/realtime/hash.go:70-74 | comparing injective encodings is a strict total order |
| `Ordering.SortInPlace` | internal/realtime/hash.go:61-68 | sorting the slice in place leaves the one sorted arrangement of its items |
| `Ordering.SortsAgree` | internal/realtime/hash.go:45-52 | two sequences sort alike if and only if they are equal as multisets |
| `Ordering.StringLessExactly` | internal/realtime/hash.go:61-68 | the order of texts is decided by the first character that differs, a prefix first |
| `AlertEpisodes.ViewCountsBoundaries` | internal/database/migrations/00005_api_read_model.sql:135-179 | lag and the running sum over the numbered rows count the breaks of the chain |
| `AlertEpisodes.StretchNumbersSeparate` | internal/database/migrations/00005_api_read_model.sql:135-179 | two feeds have the same stretch number iff the alert continues through every feed between them |
| `AlertEpisodes.EpisodesCountStretches` | internal/database/migrations/00005_api_read_model.sql:135-179 | for every feed that shows the alert: episode number plus instant returns so far is the number of the stretch, also when observation times repeat |
| `AlertEpisodes.DeletedFlagIsStored` | internal/database/migrations/00005_api_read_model.sql:170-179 | the deletion flag of a revision is that of the alert it stores |
| `AlertStretches.NumbersFitExactly` | internal/database/migrations/00005_api_read_model.sql:135-179 | the view numbers exactly the stretches if and only if the alert never leaves and returns within one observation time |
| `AlertStretches.StrictTimesNoReturns` | internal/database/migrations/00005_api_read_model.sql:135-179 | strictly increasing observation times rule such returns out |
| `AlertStretches.EpisodesAreStretches` | internal/database/migrations/00005_api_read_model.sql:135-179 | where the view numbers the stretches, whatever the times: two feeds share an episode iff the alert continues from one to the other |
| `AlertStretches.GroupsExactly` | internal/database/migrations/00005_api_read_model.sql:135-179 | that any two feeds share an episode iff the alert continues from one to the other holds of a history if and only if the alert never leaves and returns within one observation time |
| `AlertStretches.ReturnSharesEpisode` | internal/database/migrations/00005_api_read_model.sql:135-179 | a history of three feeds where it fails: shown, gone, and shown again at the observation time of the feed before |
| `AlertStretches.RowsCountStretches` | internal/database/migrations/00005_api_read_model.sql:181-203 | an alert has as many rows in alert_episodes as stretches of feeds, less its instant returns, for every history |
| `AlertStretches.StrictTimesEpisodes` | internal/database/migrations/00005_api_read_model.sql:135-179 | when observation times strictly increase, two feeds that show the alert share an episode iff it stays through all feeds between them without being brought back from deletion |
| `AlertStretches.EpisodeIsStretchLife` | internal/database/migrations/00005_api_read_model.sql:181-203 | every stretch has its row in the view, which tells when the stretch began, and when the alert was deleted or last seen and gone |
| `AlertEpisodeTimes.DeletedSuffix` | internal/database/migrations/00005_api_read_model.sql:135-179 | deleted revisions form a suffix of every episode |
| `AlertEpisodeTimes.EpisodeExists` | internal/database/migrations/00005_api_read_model.sql:181-203 | every episode with a member has a row in alert_episodes |
| `AlertEpisodeTimes.EpisodeIsUnique` | internal/database/migrations/00005_api_read_model.sql:181-203 | and only one |
| `AlertEpisodeTimes.ViewIsExact` | internal/database/migrations/00005_api_read_model.sql:181-203 | the rows of the view are exactly the lives of the episodes that occur, by number |
| `AlertEpisodeTimes.NumbersAreConsecutive` | internal/database/migrations/00005_api_read_model.sql:135-203 | the episodes of an alert are numbered 1, 2, ... without gaps, one row each |
| `AlertEpisodeTimes.EpisodeLives` | internal/database/migrations/00005_api_read_model.sql:181-203 | first <= last <= closed in every row of the view, so no lifetime is negative |
| `AlertEpisodeTimes.EpisodesApart` | internal/database/migrations/00005_api_read_model.sql:181-203 | of two rows of one alert the earlier is closed before the later begins |
| `AttemptProtocol.AttemptDatabase.RunAlerts` | internal/ingest/alerts.go:43-101 | whatever commits, status reads and failing updates do: a nil result means the attempt is durably succeeded or skipped with its archive linked and nothing under way; an unknown outcome is never overwritten; a reported failure leaves the attempt failed, or running if the failing update was not carried out, and completed only through a commit that was undecided when its status was read; and with a responsive database the result and the final row are exactly those of `CalmRun`; success under a skip records its code, and either way the payload, the archived object and whether it was created |
| `AttemptProtocol.AttemptDatabase.RunImport` | internal/ingest/gtfs.go:45-124 | the same for imports, with the two-stage skip check, the code of a skip included |
| `AttemptProtocol.AttemptDatabase.RecordArchive` | internal/database/archive.go:26-93 | Done only if the attempt is committed as linked to the very object; a conflicting archive row is never changed; what the caller learns of an unreported commit is exactly what the status read allows |
| `AttemptProtocol.AttemptDatabase.CommitLink` | internal/database/archive.go:79-115 | resolution of an unreported commit from the attempt's row |
| `AttemptProtocol.AttemptDatabase.Complete` | internal/database/alerts.go:316-338 | success is returned only for a committed terminal row; a commit still undecided is reported as failed or unknown, never as done; the row then has the status of the verdict and, for a skip, its code |
| `AttemptProtocol.AttemptDatabase.Fail` | internal/database/alerts.go:88-106 | waits for the row lock and marks only a running attempt; afterwards nothing is under way |
| `AttemptProtocol.AttemptDatabase.Environment` | internal/database/gtfs.go:446-461 | late decisions of the server and other attempts never change a settled row, never fail one that nothing is failing, and keep archive rows |
| `AttemptProtocol.AttemptDatabase.Commit` | internal/database/gtfs.go:446-461 | the four outcomes of a commit, with the lock held while undecided |
| `AttemptProtocol.FinishedIsFinal` | internal/database/alerts.go:88-106 | a finished attempt is the last version in every life: succeeded or skipped never becomes failed |
| `AttemptProtocol.ChecksHold` | internal/database/migrations/00006_archival_and_ingestion_status.sql:31-42 | the archive-link, terminal-archive and skip-lifecycle constraints hold of every version of every life |
| `AttemptProtocol.ArchivedBeforeInterpreted` | internal/database/archive.go:55-78 | no attempt is succeeded or skipped unless an earlier version was running with the very same archive link |
| `AttemptProtocol.LinkIsKept` | internal/database/archive.go:55-78 | once linked, an attempt keeps its archive |
| `AttemptProtocol.LockIsNeeded` | internal/database/alerts.go:88-106 | for every life that awaits completion: a failing update that got ahead of the commit, as without the row lock it could, would be overwritten and a failed attempt become completed; behind the commit its guard refuses |
| `ArchiveS3.S3Store.Put` | internal/storage/s3.go:40-70 | at most three create requests, repeated only on 409 or ConditionalRequestConflict and while the context lives; 412 or PreconditionFailed, and connection or network errors, lead to verification of what is there; success means the key holds exactly the requested content, and a claimed creation was this Put's |
| `ArchiveS3.S3Store.PutOnce` | internal/storage/s3.go:72-89 | one conditional create request against any answer the bucket may give |
| `ArchiveS3.S3Store.VerifyExisting` | internal/storage/s3.go:91-119 | with both requests answered, exactly the verdict on the object that is there |
| `ArchiveS3.S3Store.VerifyExistingBody` | internal/storage/s3.go:121-161 | compares length and hash of the body read back |
| `ArchiveS3.WriteOnce` | internal/storage/s3.go:40-119 | under every interleaving of Puts, late requests included, an object never changes, reports stand and the invariant holds |
| `ArchiveS3.NextKeepsInvariant` | internal/storage/s3.go:40-119 | every step of every Put keeps: success implies matching content, at most one creator, at most three sends |
| `ArchiveS3.SuccessesAgree` | internal/storage/s3.go:40-119 | Puts of different content never both succeed, and at most one reports to have created the object |
| `ArchiveS3.VerificationIsExact` | internal/storage/s3.go:91-161 | where a Put made the object, verification accepts exactly its content: the same payload never conflicts, another always does |
| `ArchiveS3.VerifiedExactly` | internal/storage/s3.go:91-161 | verification of any object succeeds iff length, metadata and the checksum, or without one the hash of the body, are those of the request |
| `ArchiveS3.StoresWhatWasSent` | internal/storage/s3.go:72-89 | an object is made of the body that was sent, the announced hash as metadata, and its checksum where the store keeps one |
| `ArchiveS3.LateOnlyIfGivenUp` | internal/storage/s3.go:40-89 | a request arrives late only if it was sent and given up, and once |
| `ArchiveLocal.LocalStore.Put` | internal/storage/local.go:30-104 | success means the file under the key holds exactly the requested content, published by this Put if it says so; when all system calls go through it succeeds exactly if the file does |
| `ArchiveLocal.LocalStore.VerifyExisting` | internal/storage/local.go:106-133 | compares size and hash of the file that is there |
| `ArchiveLocal.LocalStore.Fill` | internal/storage/local.go:71-79 | chunk by chunk the temporary file becomes the source |
| `ArchiveLocal.LocalStore.PublishFilled` | internal/storage/local.go:80-103 | checks the filled file and publishes it by link, or finds that another Put was first |
| `ArchiveLocal.WriteOnce` | internal/storage/local.go:30-133 | under every interleaving, with Puts stopping anywhere, a published file never changes and the invariant holds |
| `ArchiveLocal.SuccessesAgree` | internal/storage/local.go:30-133 | Puts of different content never both succeed, and at most one reports to have created the file |
| `GtfsParse.ParseRoutes` | internal/gtfs/parse.go:116-162 | accepts exactly the tables of `RoutesAccepted`, with the routes of its records in order; every field of a route comes from its column |
| `GtfsParse.RouteOfExactly` | internal/gtfs/parse.go:126-153 | which records describe a route, and what the route says |
| `GtfsParse.ParseStops` | internal/gtfs/parse.go:164-277 | accepts exactly the tables of `StopsAccepted`; returns the stops, the station of every stop that boards and has one, and the stations; every field of a stop comes from its column, coordinates included; the station of a stop is its parent, that of a boarding area the parent of its platform |
| `GtfsParse.StopOfExactly` | internal/gtfs/parse.go:175-225 | which records describe a stop, and what the stop says |
| `GtfsParse.ReadStops` | internal/gtfs/parse.go:164-226 | the record loop, with its two maps and its set |
| `GtfsParse.CheckParents` | internal/gtfs/parse.go:227-258 | checking in any order accepts exactly typed, existing parents |
| `GtfsParse.ResolveStations` | internal/gtfs/parse.go:259-276 | resolving in any order gives one map, or fails exactly if some walk comes back |
| `GtfsParse.ParentsResolved` | internal/gtfs/parse.go:259-276 | the station map in terms of the parsed stops: parents for stops, platforms' parents for boarding areas, nothing else |
| `GtfsParse.ParseTrips` | internal/gtfs/parse.go:300-328 | accepts exactly distinct trips of known routes, and maps each to its route |
| `GtfsParse.ParseStopTimes` | internal/gtfs/parse.go:330-381 | accepts exactly stop times of known trips and stops with a station; lists each route-station pair once, strictly sorted |
| `GtfsParse.SortedListing` | internal/gtfs/parse.go:369-380 | whatever order the map is walked in, the listing is strictly sorted and has exactly its elements |
| `GtfsParse.CycleErrorIsUnreachable` | internal/gtfs/parse.go:259-298 | after the validation of parents the cycle error cannot happen |
| `GtfsParse.OpensExactly` | internal/gtfs/parse.go:467-474 | a table opens iff it can be read and has every column that is asked for |
| `GtfsParse.ValueExactly` | internal/gtfs/parse.go:493-502 | a column reads as its text, and as empty where the record has none |
| `GtfsStations.ResolveStationExact` | internal/gtfs/parse.go:279-298 | on arbitrary maps the walk terminates; it fails iff it comes back to a stop before a station or an end, and otherwise gives the station it ends at, if any |
| `GtfsStations.ValidatedResolves` | internal/gtfs/parse.go:227-298 | with validated parents resolution succeeds, with a station of the file or none |
| `GtfsStations.ValidatedFinds` | internal/gtfs/parse.go:279-298 | with validated parents a station finds itself, a boarding area the parent of its platform, any other stop its parent, where there is one |
| `GtfsStations.ViewAgrees` | internal/database/migrations/00005_api_read_model.sql:11-36 | on any stops table the recursive view and resolveStation find the same station, or none, so the view has at most one per stop |
| `GtfsDataset.ParseTables` | internal/gtfs/parse.go:65-114 | accepts exactly the archives of `Accepted`; what it returns can be installed exactly if every value has the type of its column |
| `GtfsDataset.AcceptedIsInstallable` | internal/database/migrations/00003_gtfs_network.sql:38-97 | accepted datasets satisfy every key, typed parent key, location-type and route-station constraint, so they can be installed exactly if their values have the types of their columns |
| `GtfsDataset.ParentsAcceptedExactly` | internal/database/migrations/00003_gtfs_network.sql:62-84 | the parser accepts exactly the parents that the location-type check and the typed foreign key of the tables accept |
| `GtfsDataset.ColoursAreNotChecked` | internal/gtfs/parse.go:140-158 | any accepted archive stays accepted, and can no longer be installed, with a route colour that CHAR(6) refuses |
| `GtfsTables.FitsAtTheEnds` | internal/database/migrations/00003_gtfs_network.sql:38-62 | the ends of INTEGER, of CHAR(6), and of text |
| `GtfsTables.EveryColumnCounts` | internal/database/migrations/00003_gtfs_network.sql:38-62 | one value that is not of its column's type keeps a row out |
| `GtfsTables.LocationTypesExactly` | internal/database/migrations/00003_gtfs_network.sql:69-74 | which location types exist, which may have a parent, and which must |
| `GtfsDataset.RelationsDetermined` | internal/gtfs/parse.go:369-380 | two readings of one archive list the same relations in the same order |
| `GtfsDataset.ViewMatchesParser` | internal/database/migrations/00005_api_read_model.sql:11-36 | on an accepted dataset the view gives stops and boarding areas the stations the parser used |
| `RecordLimit.RecordLimitReader.Read` | internal/gtfs/parse.go:560-593 | fails exactly when a record of the stream so far exceeds the limit, handing over the bytes up to the first that is too many; stays failed |
| `RecordLimit.FitsExactly` | internal/gtfs/parse.go:560-593 | counting the bytes of the current record finds exactly the streams with a record over the limit, where a newline ends a record iff an even number of quotes precedes it |
| `RecordLimit.RecordLimitReader.Take` | internal/gtfs/parse.go:566-591 | the quote state machine follows the parity of the quotes seen |
| `RecordLimit.ReadAll` | internal/gtfs/parse.go:552-593 | however the stream is cut into buffers, reading fails iff some record exceeds the limit |
| `RecordLimit.RecordsEndWhereWritten` | internal/gtfs/parse.go:572-590 | in a well-formed file (section 2 of RFC 4180), its last record with or without a line break, the bytes that end a record are exactly the line breaks its records were written with |
| `RecordLimit.FileExceeds` | internal/gtfs/parse.go:560-593 | a well-formed file is refused iff one of its records, line break included where it has one, is longer than the limit |
| `RecordLimit.ControlBytes` | internal/gtfs/parse.go:572-590 | the bytes that the reader tells apart are the quote and the line breaks of ASCII |
| `NetworkInstall.GtfsRepository.CompleteImport` | internal/database/gtfs.go:70-146 | skips, installs or refuses exactly as decided against the network in place; installing makes the tables hold exactly the dataset and the import the only current one; the tables change exactly if the commit takes effect, which a returned success implies and a returned failure rules out at that moment, so that only an outcome reported as unknown leaves it open |
| `NetworkInstall.GtfsRepository.SkipIfImported` | internal/database/gtfs.go:44-68 | the check before parsing changes only the skipped import's row, and exactly if its commit takes effect, which then has the code of its reason |
| `NetworkInstall.TakeSteps` | internal/database/gtfs.go:32-146 | after any sequence of steps of any imports, commits left undecided included: at most one import is current, the tables hold exactly the rows of the dataset installed last, and fully dated sequences never went back |
| `NetworkInstall.GtfsRepository.Commit` | internal/database/gtfs.go:446-461 | what each outcome of the commit leaves in the tables, and what the caller learns of it |
| `NetworkInstall.GtfsRepository.ReplaceNetwork` | internal/database/gtfs.go:94-111 | the emptied tables accept the dataset exactly if it is installable, and then hold exactly its routes, stops and relations, row by row |
| `NetworkInstall.GtfsRepository.InsertRoutes` | internal/database/gtfs.go:349-369 | the insert loop succeeds exactly with distinct keys and values of the types of their columns |
| `NetworkInstall.GtfsRepository.InsertStops` | internal/database/gtfs.go:371-392 | the insert loop succeeds exactly with distinct keys, values of the types of their columns and admissible location types |
| `NetworkInstall.GtfsRepository.InsertRouteStations` | internal/database/gtfs.go:394-408 | the insert loop succeeds exactly with distinct pairs that refer to routes and stations |
| `NetworkInstall.TablesHoldRows` | internal/database/gtfs.go:349-408 | the three tables of a dataset with distinct keys have exactly its rows, unchanged |
| `NetworkInstall.ImportsAfterRows` | internal/database/gtfs.go:112-139 | a committed skip changes its own row only, to skipped with its code; a committed installation makes its row the only current one, succeeded without a code |
| `NetworkInstall.GtfsRepository.LoadCurrent` | internal/database/gtfs.go:296-310 | the current import is the one installed last |
| `NetworkInstall.GtfsRepository.FailImport` | internal/database/gtfs.go:158-191 | marks exactly running imports failed, keeping an existing archive link; the network stays |
| `NetworkInstall.SkipReasonExact` | internal/database/gtfs.go:312-330 | stale exactly if the download comes before the network in place (by modification and request where both are dated, by request otherwise), duplicate exactly if not and of the same content |
| `NetworkInstall.NeighboursDiffer` | internal/database/gtfs.go:312-330 | consecutive installed imports have different content |
| `NetworkInstall.AllDatedIsMonotone` | internal/database/gtfs.go:312-330 | when every download says when it was modified, the installed sequence never goes back in (modified, requested) |
| `NetworkInstall.MixedKeepsOrderExactly` | internal/database/gtfs.go:312-330 | in mixed sequences an installation keeps that order iff the download has no modification time or is not before the newest installed one that has; the code enforces it when the import just before is dated |
| `NetworkInstall.MixedCanGoBack` | internal/database/gtfs.go:312-330 | three allowed installations, the middle one not dated, that go back |
| `Buckets.AnalyticsBuckets` | internal/database/analytics_read_repository.go:54-70 | for every range, empty or reversed ones included, the Go loop makes the buckets of the SQL generate_series |
| `Buckets.BucketsPartition` | internal/database/analytics_read_repository.go:263-268 | buckets increase, start on UTC midnights (Mondays for weeks), and every instant of the range lies in exactly one, the one its date_trunc names |
| `Buckets.BackToMonday` | internal/database/analytics_read_repository.go:58-58 | Go's truncating remainder of the negated weekday goes back exactly to Monday |
| `Buckets.RemainderTruncates` | internal/database/analytics_read_repository.go:58-58 | Go's remainder has the sign of its left operand |
| `Buckets.EpochWeek` | internal/database/analytics_read_repository.go:54-58 | the buckets of the days around the epoch, which was a Thursday |
| `Analytics.OneRowPerEpisode` | internal/database/analytics_read_repository.go:81-101 | every episode with a live revision on the line is categorized once, and no other is |
| `Analytics.AssociatedExactly` | internal/database/analytics_read_repository.go:81-101 | an associated episode has the time, cause and effect of its first revision that is live on the line |
| `Analytics.JoinIsOneToOne` | internal/database/analytics_read_repository.go:88-90 | joining alert_episodes, as only the series do, neither drops nor repeats an associated episode, in any window |
| `Analytics.QueryLineAnalyticsSeries` | internal/database/analytics_read_repository.go:118-134 | the merge loop loses no row: the series of every line in the list form is that of the detail form, and its counts add up to the line's episodes in the window; each point has the episodes of its bucket, those of them that closed, and the median of the closed ones |
| `Analytics.PlacePoint` | internal/database/analytics_read_repository.go:128-133 | a row replaces exactly the bucket it starts with |
| `Analytics.SeriesConserves` | internal/database/analytics_read_repository.go:240-285 | the counts of the series add up to the episodes first seen in the window |
| `Analytics.BreakdownsConserve` | internal/database/analytics_read_repository.go:150-178 | in either form, for causes and effects, the counts of a breakdown add up to the number of associated episodes |
| `Analytics.DetailSays` | internal/database/analytics_read_repository.go:308-330 | a row of the cause breakdown counts exactly the episodes with that cause, one of the effect breakdown those with that effect, absent ones as UNSPECIFIED; every episode is in one row, and larger rows come first |
| `Analytics.LineConserves` | internal/database/analytics_read_repository.go:216-345 | for every line, window and interval: the series, whose query joins alert_episodes, and the breakdowns in both forms, whose queries do not, add up to the line's episodes first seen live in the window |
| `Analytics.BreakdownsAgree` | internal/database/analytics_read_repository.go:172-176 | list form (grouped by value) and detail form (grouped by label) return the same rows in the same order for every line and window, on revisions that come from decoded alerts |
| `Analytics.BreakdownsAgreeExactly` | internal/database/analytics_read_repository.go:326-330 | on arbitrary values they would do so iff a window does not mix episodes without a value and episodes with the literal label |
| `Analytics.RevisionsAreNamed` | internal/realtime/decode.go:114-121 | the revisions that applied feeds lead to have the causes and effects that decoding made |
| `AlertContent.NeverUnspecified` | internal/realtime/decode.go:114-121 | no decoded cause or effect, an enum name or a number, is UNSPECIFIED |
| `AlertContent.EnumTextExactly` | internal/realtime/decode.go:114-121 | a known enum value reads as its name, any other as its number in decimal |
| `ReadModel.StatusesPartition` | internal/database/read_repository.go:43-67 | present and historical alerts partition all alerts; current and upcoming ones are disjoint parts of the present |
| `ReadModel.ListedExactly` | internal/database/read_repository.go:44-67 | a present alert is current iff it has no active period or one that covers now, and upcoming iff none covers now and one starts later |
| `ReadModel.PresentIsLastFeed` | internal/database/read_repository.go:54-57 | the present alerts of a source are those its last applied feed lists and does not mark deleted |
| `ReadModel.CountsAreListSizes` | internal/database/status.go:477-490 | every status count is the length of the list of that status |
| `ReadModel.HistoricalTotal` | internal/database/read_repository.go:199-213 | the unfiltered historical total is the historical status count less the alerts with only deleted revisions |
| `ReadModel.DistinctIsListLength` | internal/database/network_read_repository.go:34-52 | count(DISTINCT) over the cross product of a line's stations and impacts is the length of its alert list, within every status |
| `LikeSearch.EscapeIsPerCharacter` | internal/database/network_read_repository.go:273-277 | three sequential replacements are one escape per character |
| `LikeSearch.SearchIsLiteral` | internal/database/network_read_repository.go:117-120 | for every query, name and case folding, the pattern matches iff the query taken literally occurs in the name |
| `LikeSearch.OneCharacter` | internal/database/network_read_repository.go:117-120 | an unescaped underscore stands for any one character, an escaped character for itself |
| `StatusReport.AddOperationalReasons` | internal/database/status.go:452-471 | recent_failure is given iff some failed attempt is newer than the accepted check, although only a limited list is looked at |
| `StatusReport.LimitIsExact` | internal/database/status.go:409-438 | the newest failures alone decide it, for any limit of at least one |
| `StatusReport.EmptyListMisses` | internal/database/status.go:409-438 | with a limit of zero a failure can be overlooked |

## Left out

- Surrogate identifiers: rows are keyed by the unique constraints the schema declares, and the revisions of an alert
  are taken to get identifiers in the order of their numbers.
- Columns that nothing decides on: HTTP status, content type, ETag, error texts, failure stage and code, summary
  counts; the child rows of snapshots and revisions, and stored positions.
- Fractions of a microsecond and PostgreSQL's rounding of them; a timestamp beyond the range of its type shows as a
  statement that fails.
- Which statement of a transaction fails, beyond the failures of the feed or dataset itself: one parameter
  (`Answers.statements`), since every failed statement rolls its transaction back before a commit is sent.
- The internals of SHA-256, hexadecimal, base64 and JSON text: injective functions. Invalid UTF-8, which JSON encoding
  replaces, is outside that assumption.
- Protobuf decoding, ZIP archives, Go's `encoding/csv`, number parsing and text folding: parameters of the model. A
  latitude or longitude that parses as not-a-number or infinite is not represented.
- NetworkInstall.GtfsRepository.ReplaceNetwork: does not model that CHAR(6) pads and truncates trailing spaces, that an
  index refuses keys of several kilobytes, or text that is not valid UTF-8.
- NetworkInstall.GtfsRepository.InsertRouteStations: immediate foreign keys are checked against the tables as filled
  so far, which is the whole of routes and stops at that point.
- AttemptProtocol.AttemptDatabase.Complete: models the attempt's row; the reconciliation or installation that
  commits with it is `AlertRepository.CompleteAlertRun` or `GtfsRepository.CompleteImport`, here reduced to its
  verdict. AlertIngestion puts the two together for alerts.
- AttemptProtocol.AttemptDatabase.RunImport: the clean-up of the downloaded file, whose error is only joined to the
  result, and the parse duration are not modelled.
- The archive status `legacy`, which only attempts from before the archive have.
- ArchiveS3.S3Store.Put: request validation, key formatting, back-off delays and retries inside the client library are
  not modelled; the bucket is assumed to honour the conditional create and the announced checksum.
- ArchiveLocal.LocalStore.Put: directory creation, synchronisation, and the allocation of a unique temporary name are
  steps that succeed or fail as a whole.
- Outside deletion or modification of archived objects.
- Analytics.SeriesConserves: medians are an uninterpreted function of the completed episodes of a bucket, the same in
  both forms.
- AlertContent.NeverUnspecified: the names of causes and effects are those of GTFS Realtime; the generated protobuf
  package that holds them is not part of this model.
- Analytics.LineConserves: the views that relate a revision to lines and stations (alert_revision_lines,
  alert_revision_impacted_stations) enter as a given relation.
- ReadModel.CountsAreListSizes: the optional filters by line, station, cause, effect and time range, and the order and
  paging of the lists, are not modelled.
- LikeSearch.SearchIsLiteral: folding is per character, as an uninterpreted function.
- StatusReport.AddOperationalReasons: freshness thresholds and the choice of the accepted check are single comparisons
  and are not modelled.
- HTTP handlers, configuration, commands, scheduling and the web client.
