# BanyanDB streaming and backup core, modelled in Dafny

This project models two parts of BanyanDB.

**The streaming flow as its tests use it.** A source emits records from a slice. The records pass through Filter and Map operators. A tumbling event-time window stage batches them, and a grouped TopN stage ranks them into a slice sink. The TopN stage:

- deduplicates the records by identity key, and the last write wins;
- sorts the survivors by sort key, descending unless told otherwise;
- cuts each group to N entries;
- emits one group → ranked-list map per window.

The tests' expected sink contents are proved as lemmas about the model.

**The backup command and the restore contract.** The backup command:

- validates its S3 flags;
- selects a remote file system by URL scheme;
- names the time directory from the clock;
- syncs each snapshot directory against the remote store: it uploads every file whose remote path is not listed under `timeDir/catalog/`, stops at the first failing upload, and then deletes the orphans, where a failing delete is only logged;
- returns the last snapshot's error (see Findings).

Restoring a catalog mirrors `timeDir/catalog/…` into `root/catalog/data/…` and deletes extra local files there.

The remote store is abstracted as a map from path to content plus a listing order. The local-directory and S3 back ends are the same model, so every backup and restore property holds for both. Foreign results are inputs to the model:

- the clock;
- the URL parser;
- the snapshot service;
- directory walks and file opens;
- remote list, upload and delete failures.

Modules:

- `Wrappers` (Option/Result)
- `Seqs` (order-preserving filter `Keep`)
- `Flow`
- `Tumbling`
- `TopN`
- `StreamingVectors`
- `Paths`
- `RemoteStore`
- `TimeDir`
- `Backup`
- `Restore`

## Model

| member | source | states |
|---|---|---|
| Flow.NumberRange | pkg/flow/streaming/streaming_test.go:34-42 | `numberRange(begin, count)` holds exactly `count` integers, the i-th being `begin + i` (empty for a non-positive count) |
| Flow.SliceSource | pkg/flow/streaming/streaming_test.go:60 | the slice source emits one timestamp-less record per value, in order |
| Flow.Filter | pkg/flow/streaming/streaming_test.go:56-91 | every record Filter passes on is an input record whose payload satisfies the predicate |
| Flow.FilterCounts | pkg/flow/streaming/streaming_test.go:56-91 | Filter keeps every occurrence of a passing record and drops every failing one, so it is exactly the multiset restricted to the predicate |
| Flow.FilterConcat | pkg/flow/streaming/streaming_test.go:56-91 | filtering is streaming-compatible: filtering a concatenation is concatenating the filtered parts |
| Flow.Map | pkg/flow/streaming/streaming_test.go:93-133 | Map emits exactly one record per input, in order, with the mapped payload and the input's timestamp |
| Flow.MapConcat | pkg/flow/streaming/streaming_test.go:93-133 | mapping a concatenation is concatenating the mapped parts |
| Flow.RunSlice | pkg/flow/streaming/streaming_test.go:299-317 | the slice sink's value is what it held before followed by everything received, in order |
| Tumbling.WindowStart | pkg/flow/streaming/streaming_test.go:152 | a timestamp lies in [start, start + size) of its bucket |
| Tumbling.WindowStartUnique | pkg/flow/streaming/streaming_test.go:152 | buckets partition the time line: no other multiple of the size has a bucket holding the timestamp |
| Tumbling.MinStart | pkg/flow/streaming/streaming_test.go:152 | the earliest bucket start is the start of some record's bucket and no record's bucket starts earlier |
| Tumbling.Windows | pkg/flow/streaming/streaming_test.go:152 | each window spans `size`, is non-empty and holds exactly its bucket's records in input order; starts strictly increase; every input record is emitted exactly once (multiset equality) |
| TopN.DedupSpec | pkg/flow/streaming/streaming_test.go:153-154 | after deduplication by identity key, identities are pairwise distinct, each entry is the latest record with its identity, and every input identity is represented by its latest record |
| TopN.Sort | pkg/flow/streaming/streaming_test.go:155-162 | sorting is a permutation of its input |
| TopN.InsertSorted | pkg/flow/streaming/streaming_test.go:155-162 | inserting into a sorted list keeps it sorted in the requested order |
| TopN.SortSorted | pkg/flow/streaming/streaming_test.go:155-162 | the sorted list is ordered by sort key in the requested order |
| TopN.SortInjective | pkg/flow/streaming/streaming_test.go:153-162 | sorting keeps identities pairwise distinct |
| TopN.CutSpec | pkg/flow/streaming/streaming_test.go:153-162 | cutting to N yields at most N sorted entries drawn from the candidates, identities stay distinct, and an entry is left out only when all N listed entries rank no worse |
| TopN.CandidatesSpec | pkg/flow/streaming/streaming_test.go:153-162 | the ranking candidates carry their record's sort key and are exactly the latest record of each identity |
| TopN.RankGroupSpec | pkg/flow/streaming/streaming_test.go:153-162 | a group's list has at most N entries, is sorted, has distinct identities, holds only latest records, and each latest record left out is outranked (or tied) by all N listed entries |
| TopN.RankWindowSpec | pkg/flow/streaming/streaming_test.go:153-162 | one list per group present in the window, each bounded by N, sorted and drawn from that group's records |
| TopN.TopNStage | pkg/flow/streaming/streaming_test.go:152-163 | the TopN stage emits one ranked map per window, in window order |
| StreamingVectors.FilterTest | pkg/flow/streaming/streaming_test.go:56-91 | numberRange(0, 10) through the even filter gives 0, 2, 4, 6, 8 without timestamps |
| StreamingVectors.MapTest | pkg/flow/streaming/streaming_test.go:93-133 | numberRange(0, 10) through the doubling map gives 0, 2, …, 18 without timestamps |
| StreamingVectors.FilterSink | pkg/flow/streaming/streaming_test.go:56-91 | an empty slice sink drained from the even filter over numberRange(0, 10) holds 0, 2, 4, 6, 8 |
| StreamingVectors.MapSink | pkg/flow/streaming/streaming_test.go:93-133 | an empty slice sink drained from the doubling map over numberRange(0, 10) holds 0, 2, …, 18 |
| StreamingVectors.Bottom3 | pkg/flow/streaming/streaming_test.go:135-199 | with ASC, the first snapshot lists consumer 9500, 9600, 9700 and provider 9700, 9800, 10000, with the tests' identities and timestamps; the 9900 of consumer instance-001 is superseded by its later 9500 |
| StreamingVectors.Top3 | pkg/flow/streaming/streaming_test.go:201-265 | with no order given (the default, DESC), the first snapshot lists consumer 9700, 9600, 9500 and provider 10000, 9800, 9700 |
| StreamingVectors.Bottom3Sink | pkg/flow/streaming/streaming_test.go:181-197 | the stage's snapshots drained into the slice sink as stream records: the sink is non-empty and its first record's data holds the Bottom3 lists for both services |
| StreamingVectors.Top3Sink | pkg/flow/streaming/streaming_test.go:246-262 | the stage's snapshots drained into the slice sink as stream records: the sink is non-empty and its first record's data holds the Top3 lists for both services |
| RemoteStore.Upload | banyand/backup/s3_test.go:59-78 | after an upload, downloading the path returns the uploaded content, and no other path's download changes |
| RemoteStore.Delete | banyand/backup/s3_test.go:106-121 | after a delete, downloading the path fails, and no other path's download changes |
| RemoteStore.DownloadIffListed | banyand/backup/backup.go:226-232 | a property of the store abstraction that the upload decision relies on: under a prefix, a path downloads exactly when the listing of that prefix names it, and a listed path downloads the content stored there |
| RemoteStore.ListSpec | banyand/backup/backup.go:226 | a listing holds exactly the stored paths under the prefix, each once |
| Backup.PreRun | banyand/backup/backup.go:66-89 | only an "s3://" destination can fail the pre-run check, and only with a missing-flag error |
| Backup.FirstMissing | banyand/backup/backup.go:66-89 | no flag is reported exactly when every setting is non-empty; otherwise the reported flag is the first empty one in check order |
| Backup.PreRunFirstMissing | banyand/backup/backup.go:66-89 | the pre-run check reports the first missing setting in the order measure-bucket, stream-bucket, property-bucket, aws-region, aws-access-key, aws-secret-key, and nothing for other destinations |
| Backup.NewFS | banyand/backup/backup.go:189-204 | "file" selects a local file system at the URL's path and "s3" selects S3, unless that file system's constructor fails, whose error is then returned; any other scheme is "unsupported scheme: X"; a parse failure is "invalid dest URL: …" |
| Backup.Contains | banyand/backup/backup.go:287-294 | `contains` is true exactly when some element equals the string |
| Backup.DeleteOrphansSpec | banyand/backup/backup.go:272-285 | orphan deletion removes exactly the listed paths that are not expected and whose delete succeeds; every other object, content included, is untouched |
| Backup.UploadMissingFails | banyand/backup/backup.go:230-237 | the upload loop fails exactly when some missing file cannot be opened or uploaded |
| Backup.UploadMissingEffect | banyand/backup/backup.go:230-237 | a successful upload loop adds exactly the missing files' remote paths, with their local contents, and changes nothing else |
| Backup.UploadMissingStops | banyand/backup/backup.go:230-237 | a failing upload loop returns the error of the first blocked file, and the store is what the files before it made of it |
| Backup.BackupSnapshotFails | banyand/backup/backup.go:216-241 | a snapshot sync succeeds exactly when the walk and the listing succeed and every file the store lacks can be opened and uploaded |
| Backup.BackupSnapshotSync | banyand/backup/backup.go:216-241 | after a successful sync, the catalog directory holds exactly the snapshot's files plus the orphans whose delete failed; a stored file keeps its content; a new file gets its local content; nothing outside the prefix changes |
| Backup.BackupSnapshotStops | banyand/backup/backup.go:216-241 | a failed sync deletes and overwrites nothing; a walk or list failure changes nothing; an upload failure ends the sync at the first missing file that cannot be opened or uploaded, returns that file's open or upload error, and leaves only the files before it uploaded |
| Backup.BackupSnapshotIdempotent | banyand/backup/backup.go:216-241 | repeating a successful sync with the same store behaviour changes nothing and succeeds |
| Backup.LastSnapshotDecides | banyand/backup/backup.go:176-186 | the snapshot loop as written visits every snapshot in order, but returns only the last iteration's error |
| Backup.BackupAction | banyand/backup/backup.go:157-187 | an empty destination gives "dest is required"; a URL, scheme, file-system constructor or snapshot-service error is returned before anything is touched; zero snapshots give no error |
| Backup.AccumulatedReportsAll | banyand/backup/backup.go:176-186 | the corrected loop leaves the same store and reports exactly the errors of the snapshot syncs that failed |
| Backup.ActionAccumulatedSpec | banyand/backup/backup.go:157-187 | the corrected action leaves the store the action as written leaves, and reports no error exactly when every found snapshot synced |
| Backup.LostSyncError | banyand/backup/backup.go:176-186 | counterexample: a failed sync followed by a good one is reported as success as written, but as the failure when corrected |
| Backup.SkippedLookupReported | banyand/backup/backup.go:176-186 | counterexample: a skipped, failed directory lookup that comes last is returned as written, but only logged when corrected |
| TimeDir.TimeDirRoundTrip | banyand/backup/backup.go:206-214 | the time directory name parses back to the date, and to the hour exactly when the style is "hourly" |
| TimeDir.GetTimeDir | banyand/backup/backup.go:206-214 | "hourly" gives a 13-character name, any other style a 10-character one |
| TimeDir.ParsePad | banyand/backup/backup.go:206-214 | a zero-padded field reads back as its number |
| Restore.RestoreMirrors | banyand/backup/restore_test.go:41-71 | in `root/catalog/data/` a path exists exactly when the remote holds the same relative path under `timeDir/catalog/`, with the remote content |
| Restore.RestoreKeepsOutside | banyand/backup/restore_test.go:106 | the restore of one catalog is assumed to act only inside that catalog's data directory: local files outside it are untouched (an assumption, see Left out) |
| Restore.BackupThenRestore | banyand/backup/restore_test.go:41-71 | backing a snapshot up into an empty catalog directory and restoring it gives back exactly its files with their contents |
| Restore.RestoreDownloadVector | banyand/backup/restore_test.go:49-70 | "hello" uploaded to 2023-10-10/stream/test.txt is restored to root/stream/data/test.txt, with the stream catalog's directory name taken as "stream" |
| Restore.RestoreDeleteVector | banyand/backup/restore_test.go:94-113 | a stale old.txt in root/stream/data is deleted when the remote directory is empty |

## Left out

- Concurrency is not modelled. Goroutines, channels, the sink's locks and the Eventually polling all become functions on finite sequences.
- Processing-time window closing and the timers are not modelled. Every event-time bucket of the finite input is emitted once, in start order.
- `convert.HashStr` is not modelled. The identity key is an abstract function, so hash collisions are not modelled.
- The order of entries with equal sort keys is not modelled. The sort is an insertion sort, and the contracts say nothing about ties.
- The TopN test without `OrderBy` expects descending lists, so DESC is modelled as the default order.
- Integer widths are not modelled. Sort keys are `int64` in the source and unbounded here, and no test value comes near the bounds.
- The real local and S3 clients are not modelled: their paths, buckets, `remote.NowCatalog`, `aws.SetS3Config`, `Close`, timeouts and retries. The store is one abstract map, so the two back ends behave identically by construction.
- `filepath.Walk`, `os.Open` and the snapshot service become inputs. They are a walk result, a contents map, and a list of snapshots with their directory lookups.
- `time.Now` and `Format` are represented by a clock input rendered with zero padding. Years outside 0..9999 and time zones are not modelled.
- `path.Join` is modelled for clean, non-empty components as joining with a single slash; its cleaning of `..`, doubled slashes and empty components is not modelled.
- The text of foreign errors is not modelled. A foreign error is identified by the operation and subject that failed.
- Cron scheduling, signal handling, cobra flag parsing and logging are not modelled.
- `restoreCatalog`'s own source is not part of this model. Inside the catalog's data directory, the restore is modelled from what its tests check: a remote file is downloaded there, and a stale local file is deleted. Restore-side I/O failures are not modelled.
- Restore.RestoreKeepsOutside: the model assumes that `restoreCatalog` leaves local files outside `<root>/<catalog>/data/` untouched. No test checks this, and the function's source is not part of this model.
- `storage.DataDir` and `snapshot.CatalogName` are not part of this model. Their values are assumptions: the data directory is "data", and the catalog directories are "stream", "measure" and "property". The restore tests at banyand/backup/restore_test.go:49-70 and 94-113 fix the stream catalog's directory as "stream" by mixing `CatalogName` with the literal, but nothing fixes the data directory's name.
- Backup.PreRun: states only which kind of result it gives. The exact order is stated by Backup.PreRunFirstMissing.
- Other files are context only and are not modelled: the UI router, `pkg/cmdsetup/root.go`, `bydbctl/internal/cmd/health_check.go` and the S3 integration test under `banyand/backup/s3test`.

## Findings

| source | as written | input that shows it | evidently intended | confidence | as-written member | corrected member |
|---|---|---|---|---|---|---|
| banyand/backup/backup.go:176-186 | each iteration assigns `snapshot.Dir`'s error to `err`, so `multierr.AppendInto` appends to a cleared `err` and an earlier snapshot's sync error is lost | two snapshots: the first one's directory walk fails, the second syncs; the run returns nil | every snapshot sync error is accumulated and returned | medium, not executed | Backup.LostSyncError | Backup.AccumulatedReportsAll |
| banyand/backup/backup.go:176-181 | a failed directory lookup is logged as a warning and skipped, yet its error stays in `err` and is returned when that snapshot is the last | one snapshot whose directory lookup fails; the run returns that error | a skipped snapshot is only logged | medium, not executed | Backup.SkippedLookupReported | Backup.ActionAccumulatedSpec |
