# Segmented downloader engine, modelled in Dafny

This project models the transfer engine of a multi-threaded, resumable HTTP
downloader and proves properties of that model. The model covers:

- the chunk bookkeeping of `ChunkManager`: planning the byte ranges, the
  single-stream sentinel chunk, bisecting a chunk, and saving and restoring the
  chunk snapshot;
- the metadata probe: `Content-Length`, `Content-Range` and `Accept-Ranges`,
  as sections 2.3 and 4.2 of RFC 7233 define them, and the decision taken once
  the probe is done;
- the task lifecycle of `DownloadTaskContext`: `start`, `pause` and `cancel` over
  `DownloadStatus`, worker registration, one tick of the monitor, and
  `performSplit` together with its hand-over of workers;
- the chunk worker: the bounded retry loop, the write loop over the body's
  buffers, ranged mode versus stream mode, and the completion rule;
- file-name resolution in `FileUtils`;
- the data units `ChunkInfo` and `DownloadStatus`.

Each Java class whose fields are updated in place is a Dafny `class`:
`ChunkInfo`, `DownloadRecord`, `ChunkManager`, `DownloadTaskContext`, the
running flag and the workers. The chunk map is a `map<string, ChunkInfo>`
field. The destination file is a `seq<byte>` field of `DiskFile`. The record
store (`Repository`) keeps the list of every record it was asked to save. Each
state-changing method is specified against a pure function of the old state:

- `Download`/`Received` specify one attempt;
- `Retry` specifies the retry loop;
- `Tick`/`TickAll`/`SpeedSum` specify the monitor;
- `RestoreView` specifies the restore loop;
- `RunProbe` specifies the probe;
- `Planned`/`SplitMid` specify planning and bisection.

The lemmas are proved about those functions.

Inputs that come from outside the engine are parameters:

- HTTP responses: an optional status code and the first value of each header;
- response bodies: sequences of 1..16384-byte buffers, then a normal end or a
  read failure;
- the moment another thread clears a worker's running flag: `stopAfter`;
- the outcome of `URLDecoder.decode`: `decoded`, `None` when it throws;
- the set of names in the save directory;
- whether the destination file can be created;
- the random UUIDs: distinct ids that are not yet in the map.

The fastjson snapshot text is a list of entries. Each entry is a well-formed
record or one whose fields fail to cast. `None` stands for a null or empty
string.

Module layout, one file each:

- `DownloadStatus` (status.dfy);
- `ChunkModel` (chunk_info.dfy);
- `Records` (records.dfy);
- `Numerals` (numerals.dfy): Java's `Long.parseLong` and decimal rendering;
- `FileUtils` (file_utils.dfy);
- `Probing` (probing.dfy): header parsing and the probe decision, shared by both
  classes that probe;
- `ChunkPlanning` (chunk_planning.dfy): planning, the stream chunk and
  bisection, shared by `ChunkManager` and the context, which both copy this
  code;
- `ChunkManagers` (chunk_manager.dfy);
- `ChunkWorkers` (chunk_worker.dfy): the worker logic shared by
  `ChunkWorker.java` and the context's inner worker, which differ only in where
  they read range support;
- `TaskContext` (task_context.dfy).

Behaviour of the code worth knowing before reading the contracts:

- Range completion is `current >= end` with `end` inclusive, so a chunk whose
  body ends one byte short is marked finished with its last byte never written
  (`ChunkWorkers.ShortBodyCompletes`).
- `pause` persists only the status. It stops the workers and clears the worker
  map without waiting for them. The task context never calls `saveChunks` or
  `restoreChunks`, so on a resume the chunk map is the one kept in memory.
- A worker whose error count reaches five sets the context's status to ERROR
  but does not persist it.
- `cancel` acts from every status, FINISHED included.
- The enum has seven states. PREPARING is never assigned.
- A ranged GET probe that throws makes `prepare` throw, so `start` ends in
  ERROR.
- A stream attempt that is stopped part-way is still marked finished, and the
  bytes read so far become the total size (`ChunkWorkers.StoppedStreamCompletes`).
  A finished stream does not itself move the task to FINISHED; the monitor's
  completion test does.
- A file of fewer bytes than chunks is planned as empty `[0, -1]` chunks plus
  one last chunk holding the whole file (`ChunkPlanning.SmallFileRanges`).
- Restoring reads the position from one field name only.

One iteration of the monitor's `while (status == DOWNLOADING)` loop is
`TaskContext.DownloadTaskContext.MonitorTick` followed by
`TaskContext.DownloadTaskContext.FinishIfDone`.

## Model

| member | source | states |
|---|---|---|
| DownloadStatus.Ordinal | src/main/java/com/example/downloader/model/DownloadStatus.java:9-16 | every state sits at its declaration position in the list of the seven states |
| DownloadStatus.AllStatusesExact | src/main/java/com/example/downloader/model/DownloadStatus.java:10-16 | there are exactly seven states, pairwise distinct, in declaration order |
| DownloadStatus.TerminalStates | src/main/java/com/example/downloader/model/DownloadStatus.java:23-25 | isTerminal holds exactly for FINISHED, CANCELED and ERROR, and fails exactly for IDLE, PREPARING, DOWNLOADING and PAUSED |
| DownloadStatus.FromName | src/main/java/com/example/downloader/model/DownloadStatus.java:9-16 | a string valueOf accepts is the name of the state it returns |
| DownloadStatus.NameRoundTrip | src/main/java/com/example/downloader/model/DownloadStatus.java:10-16 | valueOf inverts name() for every state, so every persisted status string parses back to its state |
| DownloadStatus.NameInjective | src/main/java/com/example/downloader/model/DownloadStatus.java:10-16 | distinct states are persisted under distinct names |
| ChunkModel.ChunkInfo.constructor | src/main/java/com/example/downloader/model/ChunkInfo.java:30-39 | id, start, end and colorIndex as given; current and lastRecordBytes both the given position; not finished; no errors; speed 0 |
| ChunkModel.ChunkInfo.GetCurrentPos | src/main/java/com/example/downloader/model/ChunkInfo.java:41-43 | the value of the position counter |
| ChunkModel.ChunkInfo.SetEnd | src/main/java/com/example/downloader/model/ChunkInfo.java:17 | only end changes |
| ChunkModel.ChunkInfo.SetFinished | src/main/java/com/example/downloader/model/ChunkInfo.java:22 | only finished changes |
| ChunkModel.ChunkInfo.SetErrorCount | src/main/java/com/example/downloader/model/ChunkInfo.java:21 | only errorCount changes |
| ChunkModel.ChunkInfo.SetSpeed | src/main/java/com/example/downloader/model/ChunkInfo.java:20 | only speed changes |
| ChunkModel.ChunkInfo.SetLastRecordBytes | src/main/java/com/example/downloader/model/ChunkInfo.java:28 | only lastRecordBytes changes |
| ChunkModel.ChunkInfo.SetCurrent | src/main/java/com/example/downloader/core/ChunkWorker.java:89 | the atomic set: only current changes, to the given value |
| ChunkModel.ChunkInfo.AddCurrent | src/main/java/com/example/downloader/core/ChunkWorker.java:104 | addAndGet: current grows by exactly n, nothing else changes, and the new value is returned |
| Records.DownloadRecord.constructor | src/main/java/com/example/downloader/entity/DownloadRecord.java:12-28 | a new record has no file name, size, status or snapshot, and supportRange true |
| Records.Repository.Save | src/main/java/com/example/downloader/core/DownloadTaskContext.java:366-368 | a save stores a copy of the record as it is now, after all earlier saves |
| Records.SetLength | src/main/java/com/example/downloader/core/ChunkManager.java:79-81 | setLength gives a file of exactly n bytes that keeps its old bytes below n; beyond the old end it is zero, as on POSIX file systems |
| Numerals.ParseLong | src/main/java/com/example/downloader/core/ChunkManager.java:97 | parseLong succeeds only on an optionally signed run of digits whose value fits in a long |
| Numerals.ParseLongOfIntToString | src/main/java/com/example/downloader/core/ChunkManager.java:97-104 | parseLong reads back the decimal text of every long |
| FileUtils.LastIndexOf | src/main/java/com/example/downloader/util/FileUtils.java:24 | the last index holding c with no c after it, or -1 exactly when c does not occur |
| FileUtils.IndexOf | src/main/java/com/example/downloader/util/FileUtils.java:29-34 | the first index holding c with no c before it, or -1 exactly when c does not occur |
| FileUtils.CutAtFirst | src/main/java/com/example/downloader/util/FileUtils.java:29-38 | a prefix of the text; when the first mark is past index 0 it is exactly the text before that mark (its length is the mark's index and it holds no mark); otherwise the whole text |
| FileUtils.ExtractFileName | src/main/java/com/example/downloader/util/FileUtils.java:20-49 | the result is downloaded_file or contains a dot; it is downloaded_file when decoding throws, when there is no '/' and when the URL ends in '/'; when text follows the last '/' and, with query and fragment cut off, it is non-empty and has a dot, the result is exactly that cut segment, and otherwise it is downloaded_file |
| FileUtils.NameOf | src/main/java/com/example/downloader/util/FileUtils.java:24-48 | on a decoded URL: the cut last segment exactly when text follows the last '/' and that cut segment is non-empty with a dot, downloaded_file otherwise |
| FileUtils.Candidate | src/main/java/com/example/downloader/util/FileUtils.java:27-38 | with q and h the first '?' and '#' of the last segment: the name is the prefix ending at h when 0 < h and h comes before any q > 0, else the prefix ending at q when q > 0, else the whole segment; it contains no '/' |
| FileUtils.SplitName | src/main/java/com/example/downloader/util/FileUtils.java:74-82 | body and extension concatenate to the name; the extension is empty exactly when the last dot is at index 0 or missing, and otherwise starts at the last dot with no dot after it |
| FileUtils.NumberedInjective | src/main/java/com/example/downloader/util/FileUtils.java:87 | different counters give different candidate names |
| FileUtils.UniqueNameDetermined | src/main/java/com/example/downloader/util/FileUtils.java:62-94 | the name the search settles on is unique |
| FileUtils.GetUniqueFileName | src/main/java/com/example/downloader/util/FileUtils.java:62-94 | the result is not in the directory: the extracted name itself when it is free, otherwise body(k)ext for the least k >= 1 that is free |
| FileUtils.FirstFree | src/main/java/com/example/downloader/util/FileUtils.java:85-93 | for a finite directory the counter loop ends, on the first free numbered name |
| FileUtils.ReportExample | src/main/java/com/example/downloader/util/FileUtils.java:62-94 | a free report.pdf is kept; a taken one becomes report(1).pdf |
| FileUtils.SecondSuffixExample | src/main/java/com/example/downloader/util/FileUtils.java:55 | test.zip with test.zip and test(1).zip taken becomes test(2).zip |
| FileUtils.DotlessExample | src/main/java/com/example/downloader/util/FileUtils.java:74-82 | downloaded_file becomes downloaded_file(1) and .bashrc becomes .bashrc(1): the suffix goes at the end |
| FileUtils.PlainSegmentIsName | src/main/java/com/example/downloader/util/FileUtils.java:24-42 | a last segment with a dot and no '?' or '#' is the file name |
| FileUtils.QueryIsDropped | src/main/java/com/example/downloader/util/FileUtils.java:29-42 | a query after the name is cut off |
| FileUtils.FragmentIsDropped | src/main/java/com/example/downloader/util/FileUtils.java:34-42 | a fragment after the name is cut off |
| Probing.ParsedTotal | src/main/java/com/example/downloader/core/ChunkManager.java:95-109 | no size without a Content-Length or when it does not parse; Content-Length itself when there is no Content-Range, or when the Content-Range's last '/' is at index 0 or missing; otherwise the parsed text after that '/', or no size when it does not parse; any size fits in a long |
| Probing.ApplyHeaders | src/main/java/com/example/downloader/core/ChunkManager.java:91-114 | a parsed size replaces the stored one and no parsed size leaves it; a changed size is a long; range support becomes true when bytes are advertised and is otherwise kept, so true stays true and false only comes from false |
| Probing.RunProbe | src/main/java/com/example/downloader/core/ChunkManager.java:49-87 | the GET is sent exactly when the size after the HEAD is null or <= 0; prepare fails exactly when that GET throws, leaving the HEAD's size and flag; without a GET the HEAD's size and flag stand; after a GET its parsed size is taken, and without one a null size becomes -1 and a non-positive one is kept; preallocation happens exactly when the size is positive, with the flag the headers left, and without it range support is false |
| Probing.ContentRangeTotalWins | src/main/java/com/example/downloader/core/ChunkManager.java:98-106 | a Content-Range such as bytes 0-0/12345 gives its total, whatever Content-Length says |
| Probing.UnparsableTotalIgnored | src/main/java/com/example/downloader/core/ChunkManager.java:103-107 | a Content-Range total that is not a number leaves the size unchanged |
| Probing.BytesUnitCases | src/main/java/com/example/downloader/core/ChunkManager.java:111 | Accept-Ranges bytes, BYTES and Bytes are accepted; none, a trailing space and the empty value are not |
| Probing.HeadersNeverClearRange | src/main/java/com/example/downloader/core/ChunkManager.java:111-113 | parsing headers never switches range support off |
| Probing.MissingSizeBecomesMinusOne | src/main/java/com/example/downloader/core/ChunkManager.java:84-86 | when no response gives a size, it becomes -1 and range support is forced false |
| ChunkPlanning.JavaDiv | src/main/java/com/example/downloader/core/ChunkManager.java:130 | Java's truncating division agrees with Euclidean division on non-negative operands |
| ChunkPlanning.PlannedRangesConsecutive | src/main/java/com/example/downloader/core/ChunkManager.java:128-138 | for any positive size and count: chunk 0 starts at 0, each next start is the previous end + 1, the last ends at total - 1, all but the last span total/count bytes, and each range is non-empty when total >= count |
| ChunkPlanning.SmallFileRanges | src/main/java/com/example/downloader/core/ChunkManager.java:130-137 | when total < count, every chunk but the last is [0, -1] and the last is [0, total - 1] |
| ChunkPlanning.PlannedRangesPartition | src/main/java/com/example/downloader/core/ChunkManager.java:128-138 | for any positive count, every byte of [0, total) lies in exactly one planned range, the last one when total < count |
| ChunkPlanning.SplitInto | src/main/java/com/example/downloader/core/ChunkManager.java:128-138 | count new chunks under the given ids, chunk i with range i, current = start and colorIndex i; existing chunks untouched |
| ChunkPlanning.AddStreamChunk | src/main/java/com/example/downloader/core/ChunkManager.java:119-123 | one new chunk, STREAM, start 0, end -1, current 0, colour 0; other chunks untouched |
| ChunkPlanning.SplitHalves | src/main/java/com/example/downloader/core/ChunkManager.java:202-207 | for current < end the halves [current, mid] and [mid+1, end] are non-empty, end to end, and the first is at most one byte longer |
| ChunkPlanning.SplitOn | src/main/java/com/example/downloader/core/ChunkManager.java:201-210 | the parent's end becomes mid and nothing else of it changes; the new chunk is [mid+1, old end] at mid+1 with the next colour; the map gains only that chunk |
| ChunkManagers.Goods | src/main/java/com/example/downloader/core/ChunkManager.java:146-158 | the snapshot holds one well-formed entry per record, in order |
| ChunkManagers.RestoreGoods | src/main/java/com/example/downloader/core/ChunkManager.java:166-182 | restoring well-formed records with distinct ids puts each under its id and leaves every other chunk alone |
| ChunkManagers.SnapshotRoundTrip | src/main/java/com/example/downloader/core/ChunkManager.java:143-182 | restoring what saveChunks wrote gives back every chunk with its id, range, position, colour and finished flag, error count and speed 0, and lastRecordBytes equal to current |
| ChunkManagers.ReloadedIsRestored | src/main/java/com/example/downloader/core/ChunkManager.java:148-180 | one chunk saved and restored differs only in the counters the snapshot does not carry |
| ChunkManagers.EmptySnapshotKeepsChunks | src/main/java/com/example/downloader/core/ChunkManager.java:167-168 | an empty snapshot leaves the chunks as they were |
| ChunkManagers.ChooseFileName | src/main/java/com/example/downloader/core/ChunkManager.java:69-72 | a record without a file name gets the unique name; one with a name keeps it |
| ChunkManagers.ChunkManager.constructor | src/main/java/com/example/downloader/core/ChunkManager.java:34-38 | the manager holds the record and an empty chunk map |
| ChunkManagers.ChunkManager.CreateSingleStreamChunk | src/main/java/com/example/downloader/core/ChunkManager.java:119-123 | the map gains the STREAM chunk [0, -1] at 0 with colour 0 |
| ChunkManagers.ChunkManager.SplitChunks | src/main/java/com/example/downloader/core/ChunkManager.java:128-138 | the map gains count fresh chunks, the i-th planned for the record's size |
| ChunkManagers.ChunkManager.PerformSplit | src/main/java/com/example/downloader/core/ChunkManager.java:201-211 | the parent keeps [.., mid]; a fresh chunk takes [mid+1, old end] with the next colour; every other chunk is unchanged |
| ChunkManagers.ChunkManager.SaveChunks | src/main/java/com/example/downloader/core/ChunkManager.java:143-161 | on a non-empty map the snapshot lists the record of every chunk exactly once; an empty map leaves the record untouched |
| ChunkManagers.ChunkManager.ListChunks | src/main/java/com/example/downloader/core/ChunkManager.java:146-156 | the records of all the chunks, each exactly once, in some order |
| ChunkManagers.ChunkManager.RestoreChunks | src/main/java/com/example/downloader/core/ChunkManager.java:166-188 | the snapshot's entries are put in one by one up to the first malformed one; no snapshot, no change |
| ChunkManagers.ChunkManager.PutRestored | src/main/java/com/example/downloader/core/ChunkManager.java:179-181 | the chunk built from one record is filed under its id, restored finished flag included |
| ChunkManagers.ChunkManager.ParseResponseHeaders | src/main/java/com/example/downloader/core/ChunkManager.java:91-114 | size and range flag as ApplyHeaders gives them; nothing else in the record changes |
| ChunkManagers.ChunkManager.ProbeSize | src/main/java/com/example/downloader/core/ChunkManager.java:49-66 | the HEAD and the conditional GET leave the size and flag RunProbe predicts, and fail exactly when the GET throws |
| ChunkManagers.ChunkManager.Prepare | src/main/java/com/example/downloader/core/ChunkManager.java:47-89 | size and range flag as RunProbe gives them; a unique file name when none was set; a file of the known positive size; failure exactly where prepare throws |
| ChunkManagers.ChunkManager.Preallocate | src/main/java/com/example/downloader/core/ChunkManager.java:74-87 | a positive size gives a file of that size; otherwise a null size becomes -1 and range support false |
| ChunkWorkers.WriteAtSpec | src/main/java/com/example/downloader/core/ChunkWorker.java:95-103 | seek and write put the buffer at pos, grow the file just enough, and leave every other byte (zero in a gap) |
| ChunkWorkers.WriteAllSpec | src/main/java/com/example/downloader/core/ChunkWorker.java:94-105 | the buffers written in turn put their concatenation at pos and leave every byte outside it |
| ChunkWorkers.RangeHeaderRoundTrip | src/main/java/com/example/downloader/core/ChunkWorker.java:72-74 | the Range header bytes=current-end reads back as exactly the chunk's remaining range |
| ChunkWorkers.Retry | src/main/java/com/example/downloader/core/ChunkWorker.java:42-56 | the loop makes no more attempts than there are outcomes |
| ChunkWorkers.RetryExitReason | src/main/java/com/example/downloader/core/ChunkWorker.java:44 | the loop stops early only when the worker was stopped, the chunk finished, or five errors were reached |
| ChunkWorkers.RetryErrorBound | src/main/java/com/example/downloader/core/ChunkWorker.java:44-56 | the error count never decreases, grows by at most one per attempt, and starting at or below five never exceeds five |
| ChunkWorkers.AttemptCountsFailure | src/main/java/com/example/downloader/core/ChunkWorker.java:45-48 | an attempt adds one error exactly when it throws and keeps the chunk's id, range and colour |
| ChunkWorkers.StopEndsRetries | src/main/java/com/example/downloader/core/ChunkWorker.java:37-44 | once the flag is cleared during an attempt no further attempt starts |
| ChunkWorkers.DownloadRangeFrame | src/main/java/com/example/downloader/core/ChunkWorker.java:68-110 | in ranged mode an attempt keeps the size and the chunk's range, never moves current back, writes only from current on, and finishes only at current >= end |
| ChunkWorkers.RetryRangeFrame | src/main/java/com/example/downloader/core/ChunkWorker.java:42-110 | the same across the whole retry loop |
| ChunkWorkers.RangeAttemptCompletes | src/main/java/com/example/downloader/core/ChunkWorker.java:72-110 | a ranged attempt whose body is read sends bytes=current-end, writes the delivered bytes from current, advances current by their count, and marks the chunk finished exactly when current >= end |
| ChunkWorkers.StreamAttemptRestarts | src/main/java/com/example/downloader/core/ChunkWorker.java:83-116 | a stream attempt sends no Range header and writes from offset 0 with current restarted at 0; it fails exactly when a read throws before the flag is cleared, and otherwise finishes the chunk and records the byte count as the total size |
| ChunkWorkers.ShortBodyCompletes | src/main/java/com/example/downloader/core/ChunkWorker.java:108-110 | with the inclusive end, a body one byte short still marks the chunk finished |
| ChunkWorkers.StoppedStreamCompletes | src/main/java/com/example/downloader/core/ChunkWorker.java:94-116 | a stream stopped after k buffers is finished with the bytes of those k buffers as its size |
| ChunkWorkers.RunFlag.constructor | src/main/java/com/example/downloader/core/DownloadTaskContext.java:280 | a new flag is set |
| ChunkWorkers.RunFlag.Clear | src/main/java/com/example/downloader/core/ChunkWorker.java:37-39 | the flag is cleared |
| ChunkWorkers.DownloadOnce | src/main/java/com/example/downloader/core/ChunkWorker.java:64-118 | one download call leaves the state, failure, header and stream outcome Download predicts, and touches only the record's size |
| ChunkWorkers.Receive | src/main/java/com/example/downloader/core/ChunkWorker.java:83-116 | once the body is open, the stream restart, the read loop and the completion test leave what Received predicts |
| ChunkWorkers.Complete | src/main/java/com/example/downloader/core/ChunkWorker.java:108-116 | ranged mode: finished is set when current >= end and the record is unchanged; stream mode: finished, and the size becomes current |
| ChunkWorkers.ReadBody | src/main/java/com/example/downloader/core/ChunkWorker.java:92-105 | the delivered buffers are written from current, current advances by their total length, and the loop ends early exactly when the flag is cleared first |
| ChunkWorkers.AttemptOnce | src/main/java/com/example/downloader/core/ChunkWorker.java:45-55 | one turn of the retry loop: an attempt, and the error count raised by one when it threw |
| ChunkWorkers.RunAttempts | src/main/java/com/example/downloader/core/ChunkWorker.java:42-56 | the retry loop leaves the state and attempt count Retry predicts |
| ChunkWorkers.SupportOf | src/main/java/com/example/downloader/core/ChunkWorker.java:69 | a null flag on the record counts as range support |
| ChunkWorkers.ChunkWorker.constructor | src/main/java/com/example/downloader/core/ChunkWorker.java:28-35 | the worker holds the chunk, record and shared running flag it was given |
| ChunkWorkers.ChunkWorker.StopWork | src/main/java/com/example/downloader/core/ChunkWorker.java:37-39 | the shared flag is cleared |
| ChunkWorkers.ChunkWorker.Compute | src/main/java/com/example/downloader/core/ChunkWorker.java:42-62 | the retry loop, with range support read from the record and null meaning true, leaves what Retry predicts |
| TaskContext.Tick | src/main/java/com/example/downloader/core/DownloadTaskContext.java:243-256 | an unfinished chunk gets speed max(0, current - lastRecordBytes) and lastRecordBytes = current, with every other field unchanged; a finished chunk only gets speed 0 |
| TaskContext.SpeedSumRemove | src/main/java/com/example/downloader/core/DownloadTaskContext.java:243-252 | the global sum does not depend on the order the map is visited in |
| TaskContext.TickedSpeedNonNegative | src/main/java/com/example/downloader/core/DownloadTaskContext.java:249-258 | after a tick the summed speed is at least zero |
| TaskContext.SpeedsAlongSum | src/main/java/com/example/downloader/core/DownloadTaskContext.java:243-252 | the sum built up along any visit order is the sum over all chunks |
| TaskContext.TickChunk | src/main/java/com/example/downloader/core/DownloadTaskContext.java:244-255 | one chunk ticked, with the speed it adds to the sum |
| TaskContext.TickNext | src/main/java/com/example/downloader/core/DownloadTaskContext.java:243-256 | the loop's turn ticks the chunk under k and no other |
| TaskContext.TickChunks | src/main/java/com/example/downloader/core/DownloadTaskContext.java:240-256 | every chunk ticked once; the sum of the new speeds (at least zero); the flag true exactly when every chunk was finished |
| TaskContext.ContextWorker.constructor | src/main/java/com/example/downloader/core/DownloadTaskContext.java:279-284 | a worker with its chunk and a fresh set flag |
| TaskContext.ContextWorker.StopWork | src/main/java/com/example/downloader/core/DownloadTaskContext.java:286-288 | its flag is cleared |
| TaskContext.DownloadTaskContext.constructor | src/main/java/com/example/downloader/core/DownloadTaskContext.java:46-50 | IDLE, range support on, no chunks or workers, pool size min(threads + 1, 32) |
| TaskContext.DownloadTaskContext.ThreadCount | src/main/java/com/example/downloader/core/DownloadTaskContext.java:69-71 | the requested thread count, capped at 31 |
| TaskContext.DownloadTaskContext.Persist | src/main/java/com/example/downloader/core/DownloadTaskContext.java:370-373 | the record's status becomes the state's name and the record is saved |
| TaskContext.DownloadTaskContext.ParseResponseHeaders | src/main/java/com/example/downloader/core/DownloadTaskContext.java:136-157 | the size is set as ApplyHeaders gives it; the context's own range flag is set true when advertised |
| TaskContext.DownloadTaskContext.ProbeSize | src/main/java/com/example/downloader/core/DownloadTaskContext.java:194-211 | HEAD and the conditional GET on the context's range flag, as RunProbe predicts |
| TaskContext.DownloadTaskContext.Preallocate | src/main/java/com/example/downloader/core/DownloadTaskContext.java:219-230 | a positive size gives a file of that size; otherwise the size becomes -1 if null and the context's range flag is switched off |
| TaskContext.DownloadTaskContext.Prepare | src/main/java/com/example/downloader/core/DownloadTaskContext.java:186-232 | size and range flag as RunProbe gives them, the unique name when there was none, and failure exactly where prepare throws |
| TaskContext.DownloadTaskContext.PlanChunks | src/main/java/com/example/downloader/core/DownloadTaskContext.java:91-99 | an empty map becomes parallelism planned chunks when ranges are supported and the size is positive, and the STREAM chunk otherwise; a non-empty map is kept; a null size with range support throws |
| TaskContext.DownloadTaskContext.SubmitTask | src/main/java/com/example/downloader/core/DownloadTaskContext.java:177-181 | a fresh running worker for the chunk is registered under its id |
| TaskContext.DownloadTaskContext.SubmitUnfinished | src/main/java/com/example/downloader/core/DownloadTaskContext.java:102 | one fresh running worker for each unfinished chunk and for no other; other workers unchanged |
| TaskContext.DownloadTaskContext.Start | src/main/java/com/example/downloader/core/DownloadTaskContext.java:77-111 | nothing from DOWNLOADING or FINISHED; otherwise the saves in order (the prepared record from IDLE, then DOWNLOADING unless prepare threw, then ERROR where a step threw); ERROR exactly when prepare or the planning test throws; from IDLE the probed size and flag, the unique file name when none was set and the preallocated file, from other states name, size and file kept; the record changes only in status, size and name; on success the planned or kept chunks and a worker per unfinished chunk |
| TaskContext.DownloadTaskContext.PrepareAndSave | src/main/java/com/example/downloader/core/DownloadTaskContext.java:83-86 | prepare (probed size and flag, the unique file name when none was set, the preallocated file, the rest of the record kept), and a save of the record exactly when it succeeds |
| TaskContext.DownloadTaskContext.Launch | src/main/java/com/example/downloader/core/DownloadTaskContext.java:88-102 | DOWNLOADING persisted, then planning and submission of the unfinished chunks |
| TaskContext.DownloadTaskContext.StopWorkers | src/main/java/com/example/downloader/core/DownloadTaskContext.java:116 | every listed worker's flag is cleared |
| TaskContext.DownloadTaskContext.Pause | src/main/java/com/example/downloader/core/DownloadTaskContext.java:113-120 | from DOWNLOADING only: PAUSED persisted, every worker stopped, the worker map emptied; from any other status nothing changes, the workers' running flags included |
| TaskContext.DownloadTaskContext.Cancel | src/main/java/com/example/downloader/core/DownloadTaskContext.java:122-134 | from any status: CANCELED persisted, every worker stopped, the worker map emptied |
| TaskContext.DownloadTaskContext.MonitorTick | src/main/java/com/example/downloader/core/DownloadTaskContext.java:240-258 | every chunk ticked; the global speed is the sum of the new speeds and at least zero; the flag with a non-empty map holds exactly when all chunks were finished |
| TaskContext.DownloadTaskContext.FinishIfDone | src/main/java/com/example/downloader/core/DownloadTaskContext.java:260-264 | FINISHED is set and persisted exactly when the map is non-empty and every chunk was finished; otherwise nothing changes |
| TaskContext.DownloadTaskContext.PerformSplit | src/main/java/com/example/downloader/core/DownloadTaskContext.java:381-396 | the parent's worker is stopped; the parent keeps [.., mid]; a fresh chunk takes [mid+1, old end] with the next colour; both halves get fresh running workers; other workers unchanged |
| TaskContext.DownloadTaskContext.SubmitBoth | src/main/java/com/example/downloader/core/DownloadTaskContext.java:394-395 | fresh running workers for both halves, other workers unchanged |
| TaskContext.DownloadTaskContext.SplitChunk | src/main/java/com/example/downloader/core/DownloadTaskContext.java:386-393 | the bisection of the parent, the new chunk filed under its id |
| TaskContext.DownloadTaskContext.RunWorker | src/main/java/com/example/downloader/core/DownloadTaskContext.java:291-309 | the inner worker runs the retry loop on the context's range flag; the record is saved when a stream completes; ERROR once the error count reaches five |

## Left out

- HTTP traffic is not modelled: client construction, timeouts, redirects, and the HEAD, GET and ranged requests. Their outcomes are parameters.
- Records.SetLength: Java leaves the contents of an extended file undefined; the model fills them with zeros, as POSIX `ftruncate` does.
- Threads are not modelled: the ForkJoinPool, `new Thread`, the atomics, `synchronized (fileLock)` and `Thread.sleep`. Each operation is one sequential step, so interleavings between workers, the monitor and the controller are not modelled.
- The monitor's outer loop and its one-second timer are left out. One iteration is `MonitorTick` then `FinishIfDone`.
- The monitor's rebalancing branch is left out. `tryRebalance` is empty in both classes, and the exception its guard can raise on a null size is caught and ignored, so the branch changes nothing.
- The fastjson encoding of the snapshot and parse failures of the whole JSON text are left out. The snapshot is a list of entries. A malformed entry stops the restore, as a failed cast does in the loop.
- `URLDecoder.decode` is a foreign call. Its result is the parameter `decoded`.
- File-system effects are left out: `mkdirs`, `file.exists`, and deleting the partial file on cancel. The directory is the set `existing`.
- Numerals.ParseLong: non-ASCII Unicode digits, which Java's `parseLong` also accepts, are rejected.
- Java `long` and `int` overflow is not modelled. Sizes, positions, speeds and the name counter are unbounded integers.
- The sum of speeds, and `i * blockSize` in planning, are not modelled wrapping around.
- ChunkManagers.ChunkManager.SplitChunks: `count >= 1` and a known size are required. `count = 0` divides by zero and a null size cannot be unboxed; the context always plans with a positive pool size.
- TaskContext.DownloadTaskContext.constructor: `threads >= 0` is required, since a pool of parallelism 0 or less throws in the Java constructor.
- The legacy getters (`getTaskId`, `getFileName`, `getDownloadUrl`, `getTotalSize`, `getRecord`, `getChunkMap`) are plain field reads.
- The record fields the core never reads are left out: `createdTime`, the proxy settings, and the transient `downloadedSize` and `speed`. So is `HttpClientFactory`, which builds the proxied client.
- ChunkManagers.ChunkManager: `tryRebalance` is left out because its body is empty. `getChunkMap` is a plain field read.
- ChunkWorkers.Retry: its own contract is only the attempt bound. The loop's properties are stated in `RetryExitReason`, `RetryErrorBound`, `StopEndsRetries` and `RetryRangeFrame`.
- Logging and the one-second back-off after a failed attempt are left out.
