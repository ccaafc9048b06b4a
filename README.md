# s3Backup in Dafny

A model of the decision logic of s3Backup, a command-line tool that copies a
local file or directory tree into an S3 bucket. It skips files whose remote copy
is already up to date. Each remote object carries its content digest as
`sha256` metadata and the local modification time as a `modified-timestamp`
tag. The next run compares against both.

Four parts of `s3Backup.go` are modelled. Every call to S3 or to the file
system becomes an input, so each part is a deterministic function of those
outcomes.

- `paths.dfy`, module `Paths`: `SanitizePaths`. It checks the `s3://` prefix,
  that the source exists, and that the parsed URL has a host. Then it applies
  the four-way rule on trailing `/` of the destination path and of the source.
  `os.Exit` becomes an `Err` result. `path.Base` is modelled in full.
- `walker.dfy`, module `Walker`: `Upload`, the recursive walk. The file system
  is a finite tree of what `os.Stat` and `os.ReadDir` report. Each level strips
  one leading `/` from its key, and each child gets `key + "/" + name`.
  Entries are classified in the source's order: stat failure, directory,
  irregular file, ignored name, upload. The platform (`runtime.GOOS`) is an
  enum that selects the ignore set. The walk returns, in order, the
  `UploadFile` calls it makes, as `FileTask` values. The lemmas prove, against
  an index-path description of the tree, that the walk is complete and sound.
- `sync.dfy`, module `Sync`: `UploadFile`. A run is the list of external calls
  made, in order, plus how the run ended. `UploadFileSpec` defines the run.
  The method `UploadFile` follows the Go statement by statement and is proved
  equal to it. The lemmas cover these properties:
  - the timestamp short-circuit;
  - equivalence by size and `sha256`;
  - failure ordering;
  - the exact metadata and tag set sent;
  - the tag rewrite: order kept, exactly one timestamp, idempotent;
  - a second run after a completed one uploads nothing, even if its tag write failed.
- `progress.dfy`, module `Progress`: the `ProgressTrackingReader` class and
  its counters. `ReadWithoutClose` drives it the way the upload does, with
  reads only: the position then covers every read but the last.
  `ReadAll` adds a Close: the final position is the sum of the counts of the
  reads that returned no error.

In these places the model follows what the code does:
- The upload's metadata is only `{"sha256": digest}`. The modification time
  travels as a tag, not as metadata.
- The leading `/` of the key is stripped by `Upload` at every level of the
  walk, not once by the path resolver.
- Only an `os.ErrNotExist` from `os.Stat` rejects the source. That check runs
  before the URL is parsed.
- After hashing, the file is opened again for the upload. That open can fail
  on its own (`OpenFailed`), and then no tags are written.
- A `GetObjectTagging` error is discarded. The tag set written back is then
  only the new timestamp tag.

## Model

| member | source | states |
|---|---|---|
| Paths.SanitizePaths | s3Backup.go:128-174 | Resolution succeeds iff all of these hold: the destination has the `s3://` prefix, the source is not missing, the URL parsed with a non-empty host, and a trailing `/` on the source implies one on the destination path. Each failure gets its own error, in check order. The bucket is the URL host. |
| Paths.BaseOfFilePath | s3Backup.go:164 | For a non-empty path without a trailing `/`, `path.Base` is its last element. That element is non-empty and has no `/`, and the path is a directory part (empty or ending in `/`) followed by it. |
| Paths.IntoPrefixAppendsBaseName | s3Backup.go:159-165 | Destination path ends in `/` and source does not: accepted, the key is the path followed by the source's last element, and the source is unchanged. |
| Paths.ContentsIntoPrefixStripsBoth | s3Backup.go:159-162 | Both end in `/`: accepted, and exactly one trailing `/` is removed from the key and from the source. |
| Paths.ExactKeyVerbatim | s3Backup.go:150-157 | Neither ends in `/`: the key is the URL path verbatim and the source is unchanged. |
| Paths.DirectoryOntoKeyRejected | s3Backup.go:166-170 | Source ends in `/` and the destination path does not: rejected with `DirectoryOntoKey`. |
| Walker.IgnoredNames | s3Backup.go:177-186 | The set built from the platform's list is `{"$RECYCLE.BIN","desktop.ini"}` on Windows, `{".DS_Store"}` on Darwin, and empty otherwise. |
| Walker.StripLeadingSlash | s3Backup.go:188-190 | Exactly one leading `/` is removed when present; otherwise the key is unchanged. |
| Walker.Upload | s3Backup.go:176-210 | The recursive walk with its loop over the directory listing yields exactly the tasks of `Walk`. |
| Walker.RegularFileUploaded | s3Backup.go:192-209 | Completeness: every regular file reachable through readable directories, whose own name is not ignored, yields a task. The task has the key built level by level (strip one `/`, add `/` and the name), the joined local path, and the file's size and time. Directory names are never checked. |
| Walker.TaskIsRegularFile | s3Backup.go:192-209 | Soundness: every task is a reachable regular file whose name is not in the ignore set, at the key and local path its position gives. |
| Walker.EntryTasksIncluded | s3Backup.go:195-199 | The tasks of each directory entry, walked with key `key + "/" + name`, are among the directory's tasks. |
| Walker.EntryOfTask | s3Backup.go:195-199 | Each task of a directory comes from one of its entries. |
| Walker.IgnoredNeverUploaded | s3Backup.go:205-206 | No task carries a name from the platform's ignore set. |
| Walker.DirectoryNameNotChecked | s3Backup.go:194-206 | A directory's tasks do not depend on its own name. |
| Walker.WindowsRecycleBinWalked | s3Backup.go:177-209 | On Windows, a directory named `$RECYCLE.BIN` is still walked and its file uploaded under `backup/$RECYCLE.BIN/a.txt`. A `desktop.ini` file beside it yields no task. |
| Walker.ResolvedKeyExamples | s3Backup.go:159-190 | With Upload's strip applied: a file `/a/b` into `s3://bucket/x/` gets key `x/b`; a directory `/a/b/` into `x/` gets `x`, with source `/a/b`; a file into `x` gets `x`; a directory into `x` is rejected. |
| Sync.FirstTimestampMatches | s3Backup.go:237-244 | The loop that stops at the first `modified-timestamp` tag returns true iff that tag's value is the local time. |
| Sync.CopyNonTimestampTags | s3Backup.go:267-274 | The append loop keeps exactly the tags whose key is not `modified-timestamp`, in their order. |
| Sync.WithoutTimestampMembers | s3Backup.go:267-274 | A tag is kept iff it was fetched and its key is not `modified-timestamp`. The result is never longer than the input. |
| Sync.UploadFile | s3Backup.go:212-317 | The method, with its flag and both tag loops, makes exactly the calls of `UploadFileSpec`, in order, and ends the same way. |
| Sync.ProbeAndShortCircuit | s3Backup.go:220-250 | A non-404 head error makes the run `[HeadObject]` and ends it. The short-circuit fires iff all of these hold: the object was found with no DeleteMarker, sizes are equal, `forceHashCheck` is off, the tags were fetched, and the first timestamp tag equals the local time. It then makes no call after `GetObjectTagging`. With `forceHashCheck` it never fires. |
| Sync.HashingAndEquivalence | s3Backup.go:252-262 | The file is hashed iff the run neither failed the probe nor short-circuited. After hashing, the upload is skipped iff the object was found with no DeleteMarker, sizes are equal, and its `sha256` metadata equals the digest. So a size mismatch, a 404 or a DeleteMarker always leads to an upload attempt. |
| Sync.FailureOrdering | s3Backup.go:252-300 | A hash failure ends the run right after hashing, with no upload and no tag write. An open or upload failure ends it before the tag write. An upload failure's last call is the upload. |
| Sync.UploadCarriesDigest | s3Backup.go:264-294 | Every upload in a run carries exactly `{"sha256": digest}`, the digest of a hash that succeeded. |
| Sync.TagWriteIsLast | s3Backup.go:267-316 | The run completes iff its last call is the tag write, and no earlier call is one. That write carries the rewritten tag set and its outcome is reported. When tags were never fetched, or the fetch failed, the set is the single timestamp tag. |
| Sync.WithoutTimestampAppend | s3Backup.go:267-274 | The filter distributes over concatenation, so kept tags stay in their relative order. |
| Sync.WithoutTimestampCounts | s3Backup.go:267-274 | After filtering, no `modified-timestamp` tag remains, and each other key occurs as often as before. |
| Sync.CountKeyAppend | s3Backup.go:267-278 | Counting a key over a concatenation adds the two counts. |
| Sync.RewrittenTagsShape | s3Backup.go:264-278 | The tag set written back has exactly one `modified-timestamp` tag. It is last and holds the local time. Before it come the filtered tags, and every other key's count is unchanged. |
| Sync.FirstValueSkips | s3Backup.go:238-243 | The search for the first timestamp tag passes over a prefix that has none. |
| Sync.RewrittenTimestamp | s3Backup.go:237-244 | The timestamp read back from a rewritten tag set is the one written. |
| Sync.RewriteTwice | s3Backup.go:267-278 | Rewriting an already rewritten set is rewriting once with the newer time. |
| Sync.WithoutTimestampIdempotent | s3Backup.go:267-274 | Filtering twice equals filtering once. |
| Sync.ApplyNoWrites | s3Backup.go:220-300 | Calls other than the upload and the tag write leave the remote object unchanged. |
| Sync.StoredAfterCompletedRun | s3Backup.go:280-316 | After a completed run, the object has the local size and the digest as `sha256`, whether the bytes were uploaded or only the tags rewritten. When the tag write succeeded, the tags are the rewritten set. |
| Sync.RerunOnSameContent | s3Backup.go:232-300 | Against an object with the local size and the digest as `sha256`, whatever its tags, a run uploads nothing. It either stops at the timestamp or only rewrites the tags. |
| Sync.RerunOnSyncedObject | s3Backup.go:232-262 | Against an object with the local size, the digest and a tag set rewritten with the local time, a run without `forceHashCheck` stops at the timestamp, and one with it only rewrites the tags. |
| Sync.SecondRunUploadsNothing | s3Backup.go:212-317 | Idempotence: once a run on an unchanged file has completed, a second run uploads nothing. This holds even if the first run's tag write or the second run's tag fetch failed. When the first tag write succeeded and the tags are fetched, the second run stops at the timestamp, or with `forceHashCheck` only rewrites the tags. |
| Progress.ProgressTrackingReader.constructor | s3Backup.go:82-84 | A new reader starts with position 0, nothing pending, and no reads. |
| Progress.ProgressTrackingReader.ReportProgress | s3Backup.go:53-56 | The pending count moves into the position and is reset to 0. |
| Progress.ProgressTrackingReader.Read | s3Backup.go:67-75 | Reports first, then reads. The count becomes pending only if the read returned no error. The read's result is passed through. |
| Progress.ProgressTrackingReader.Close | s3Backup.go:77-80 | The final report leaves the position equal to the bytes of all successful reads. |
| Progress.ReadWithoutClose | s3Backup.go:67-75 | The upload's reads with no Close: the position is what every read but the last delivered, which is 0 for no reads. When the last read failed, as at end of file, it is every delivered byte. It never exceeds the bytes read. |
| Progress.ReadAll | s3Backup.go:67-80 | After k reads and a Close, starting from a new reader, the position is the sum of the counts of the successful reads. It is at most the bytes read, and equal to them iff no positive-count read failed. |
| Progress.ReportTwice | s3Backup.go:53-55 | Two reports in a row leave the position unchanged, at the first read's count, or 0 if it failed. |
| Progress.DeliveredAtMostAttempted | s3Backup.go:70-73 | The delivered bytes never exceed the bytes read, and equal them iff every read with a positive count succeeded. The position is at most the delivered bytes, and equal to them after a final report. |

## Left out

- `main`, flag parsing and `CreateS3ClientFromArgs`: AWS configuration and credential loading go through library calls.
- The S3 calls (`HeadObject`, `GetObjectTagging`, the uploader's `Upload`, `PutObjectTagging`) and `os.Stat`, `os.ReadDir` and `os.Open`: their outcomes are inputs (`Responses`, the `FsNode` tree, `SourceStat`).
- `GetFileHash` and SHA-256: the digest is an opaque string, or a failure.
- `url.Parse` (its host and path are an input), `path.Join` (a function parameter) and the `time.Format` layout (the modification time is already formatted in the tree).
- The root's `FileInfo.Name()` is a parameter of the walk. For children it is the directory entry's name. Windows backslash paths are not modelled.
- `Upload` calls `UploadFile` as it walks. The model returns those calls, in order, as a list, and `UploadFile` takes each call's outcomes as its own inputs.
- Walker.RegularFileUploaded: states that each uploadable file yields a task and, with Walker.TaskIsRegularFile, that each task is such a file. It does not state that each uploadable index path yields exactly one task in listing order: that would need `Walk` restated as the list of `TaskAt` over the uploadable paths, which this model does not define.
- `FormatSize`, the percent and progress-bar printing in `ReportProgress`, and `lastReadAt`/`time.Now`: floating point, console output and wall-clock time.
- ReportProgress: the model always returns, but the source's bar rendering can crash. If the file grew after `os.Stat`, so that `currentPosition > totalSize`, `strings.Repeat(" ", 100-percentDone)` gets a negative count and panics. For an empty file (`totalSize == 0`) the percent is `0/0`, a NaN, and its conversion to `int` is implementation-defined. The same holds for `Read` and `Close`, which call it.
- The wrapped file's own `Read` and `Close`: each underlying read is an input outcome, and the error returned by `Close` is not modelled. The uploader reading the body through the reader is not tied to `UploadFile`'s `putOk` input.
- Integer widths: `currentPosition` (int64), `lastRead` (int) and the sizes are unbounded integers, so overflow is not modelled.
- Sync.Apply fixes how S3 behaves in the model: a successful `PutObject` replaces the object with one that has no tags, and a successful `PutObjectTagging` replaces the tag set of an existing object.
- All `fmt.Printf` logging.
