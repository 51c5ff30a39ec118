/**
 * The chunk worker: one attempt reads the chunk's bytes (with a Range
 * header when the server supports ranges and the size is known, as a plain
 * stream otherwise) and writes them at the chunk's position; the retry loop
 * repeats attempts while the worker runs, the chunk is unfinished and fewer
 * than five attempts have failed.
 *
 * The network and the running flag's other writers are an oracle: each
 * attempt says whether the request fails, which buffers the body delivers,
 * whether a read then fails, and after how many buffers the flag is cleared.
 */
module ChunkWorkers {
  import opened Wrappers
  import opened Numerals
  import opened ChunkModel
  import opened Records
  import FileUtils

  /** The retry loop gives up once errorCount reaches this. */
  const MaxErrors: int := 5

  /** What one is.read(buf) into the 16 KB buffer delivers. */
  type Buffer = b: seq<byte> | 1 <= |b| <= 16384 witness [0]

  /** What the request does: execute (or opening the body or the file) throws, or the body delivers buffers and then ends or throws. */
  datatype Outcome = ConnectFails | Body(buffers: seq<Buffer>, readFails: bool)

  /** One call of download. stopAfter: the running flag is cleared during the call, after that many buffers. */
  datatype Attempt = Attempt(outcome: Outcome, stopAfter: Option<nat>)

  function Concat(bufs: seq<Buffer>): seq<byte> {
    if bufs == [] then [] else bufs[0] + Concat(bufs[1..])
  }

  /** raf.seek(pos); raf.write(buf): overwrite from pos, growing the file, with zeros in any gap. */
  function WriteAt(f: seq<byte>, pos: nat, buf: seq<byte>): seq<byte> {
    var base := if pos > |f| then f + Zeros(pos - |f|) else f;
    base[..pos] + buf + (if pos + |buf| < |base| then base[pos + |buf|..] else [])
  }

  /** A write puts buf at pos, grows the file to cover it, and leaves every other byte (or a zero in a gap). */
  lemma WriteAtSpec(f: seq<byte>, pos: nat, buf: seq<byte>)
    ensures var g := WriteAt(f, pos, buf);
      && |g| == (if pos + |buf| > |f| then pos + |buf| else |f|)
      && (forall i :: pos <= i < pos + |buf| ==> g[i] == buf[i - pos])
      && (forall i :: 0 <= i < |g| && (i < pos || pos + |buf| <= i) ==> g[i] == if i < |f| then f[i] else 0)
  {
    var base := if pos > |f| then f + Zeros(pos - |f|) else f;
    assert forall i :: 0 <= i < |base| ==> base[i] == if i < |f| then f[i] else 0;
  }

  /** The buffers written one after the other from pos. */
  function WriteAll(f: seq<byte>, pos: nat, bufs: seq<Buffer>): seq<byte>
    decreases |bufs|
  {
    if bufs == [] then f else WriteAll(WriteAt(f, pos, bufs[0]), pos + |bufs[0]|, bufs[1..])
  }

  /** Writing buffers in turn puts their concatenation at pos and leaves every other byte as it was. */
  lemma {:induction false} WriteAllSpec(f: seq<byte>, pos: nat, bufs: seq<Buffer>)
    ensures var g, n := WriteAll(f, pos, bufs), |Concat(bufs)|;
      && |g| == (if bufs == [] then |f| else if pos + n > |f| then pos + n else |f|)
      && (forall i :: pos <= i < pos + n ==> g[i] == Concat(bufs)[i - pos])
      && (forall i :: 0 <= i < |g| && (i < pos || pos + n <= i) ==> g[i] == if i < |f| then f[i] else 0)
    decreases |bufs|
  {
    if bufs != [] {
      var b, rest := bufs[0], bufs[1..];
      var f1 := WriteAt(f, pos, b);
      WriteAtSpec(f, pos, b);
      WriteAllSpec(f1, pos + |b|, rest);
      assert Concat(bufs) == b + Concat(rest);
    }
  }

  /** The bytes of one more buffer follow those already concatenated. */
  lemma {:induction false} ConcatAppend(bufs: seq<Buffer>, b: Buffer)
    ensures Concat(bufs + [b]) == Concat(bufs) + b
    decreases |bufs|
  {
    if bufs == [] {
      assert [b][1..] == [];
    } else {
      assert (bufs + [b])[1..] == bufs[1..] + [b];
      ConcatAppend(bufs[1..], b);
    }
  }

  /** One more buffer is one more write, after the bytes already written. */
  lemma {:induction false} WriteAllAppend(f: seq<byte>, pos: nat, bufs: seq<Buffer>, b: Buffer)
    ensures WriteAll(f, pos, bufs + [b]) == WriteAt(WriteAll(f, pos, bufs), pos + |Concat(bufs)|, b)
    ensures Concat(bufs + [b]) == Concat(bufs) + b
    decreases |bufs|
  {
    ConcatAppend(bufs, b);
    if bufs == [] {
      assert [b][1..] == [];
    } else {
      var f1 := WriteAt(f, pos, bufs[0]);
      assert (bufs + [b])[1..] == bufs[1..] + [b];
      assert WriteAll(f, pos, bufs + [b]) == WriteAll(f1, pos + |bufs[0]|, bufs[1..] + [b]);
      WriteAllAppend(f1, pos + |bufs[0]|, bufs[1..], b);
      assert |Concat(bufs)| == |bufs[0]| + |Concat(bufs[1..])|;
    }
  }

  /** The Range header of a chunk request (section 3.1 of RFC 7233): `bytes=<current>-<end>`. */
  function RangeHeader(from: int, to: int): string {
    "bytes=" + IntToString(from) + "-" + IntToString(to)
  }

  /** Reads a byte-range header back: the unit, then first and last position split at the first '-'. */
  function ParseRangeHeader(h: string): Option<(int, int)> {
    if |h| < 6 || h[..6] != "bytes=" then None
    else
      var spec := h[6..];
      var dash := FileUtils.IndexOf(spec, '-');
      if dash < 0 then None
      else match (ParseLong(spec[..dash]), ParseLong(spec[dash + 1..]))
        case (Some(a), Some(b)) => Some((a, b))
        case _ => None
  }

  /** The header names the chunk's remaining range exactly. */
  lemma RangeHeaderRoundTrip(from: int, to: int)
    requires 0 <= from && InLong(from) && InLong(to)
    ensures ParseRangeHeader(RangeHeader(from, to)) == Some((from, to))
  {
    var a, b := IntToString(from), IntToString(to);
    var h := RangeHeader(from, to);
    assert h[..6] == "bytes=" && h[6..] == a + "-" + b;
    assert '-' !in a by {
      assert a == NatToString(from);
    }
    FileUtils.FirstMarkAfter(a, '-', b);
    assert (a + "-" + b)[|a| + 1..] == b;
    ParseLongOfIntToString(from);
    ParseLongOfIntToString(to);
  }

  /** The state one worker touches: its chunk, the record's size, the file and its running flag. */
  datatype WorkerState = WorkerState(chunk: ChunkVal, totalSize: Option<int>, file: seq<byte>, running: bool)

  /**
   * `supportRange && totalSize > 0`: ranged download or plain stream; None
   * where the test throws, unboxing a null size.
   */
  function RangeMode(support: bool, total: Option<int>): Option<bool> {
    if !support then Some(false) else if total.None? then None else Some(total.value > 0)
  }

  /** The flag is cleared before the body is exhausted: the read loop stops after that many buffers. */
  predicate Early(bufs: seq<Buffer>, stop: Option<nat>) {
    stop.Some? && stop.value <= |bufs|
  }

  /** The buffers the read loop writes. */
  function Delivered(bufs: seq<Buffer>, stop: Option<nat>): seq<Buffer> {
    if Early(bufs, stop) then bufs[..stop.value] else bufs
  }

  /** One attempt's result: the new state, whether it threw, the Range header it sent, whether it ended a stream. */
  datatype Step = Step(st: WorkerState, failed: bool, header: Option<string>, streamDone: bool)

  /** download(): one attempt on the worker's state. */
  function Download(st: WorkerState, a: Attempt, support: bool, fileName: Option<string>): Step {
    var flag := if a.stopAfter.Some? then false else st.running;
    var mode := RangeMode(support, st.totalSize);
    if mode.None? || fileName.None? then Step(st.(running := flag), true, None, false)
    else
      var range := mode.value;
      var header := if range then Some(RangeHeader(st.chunk.current, st.chunk.end)) else None;
      match a.outcome
      case ConnectFails => Step(st.(running := flag), true, header, false)
      case Body(bufs, readFails) =>
        if range && st.chunk.current < 0 then Step(st.(running := flag), true, header, false)
        else Received(st, range, header, bufs, readFails, a.stopAfter)
  }

  /** The rest of download() once the body is open: the read loop, then the completion test or the end of the stream. */
  function Received(st: WorkerState, range: bool, header: Option<string>, bufs: seq<Buffer>, readFails: bool, stop: Option<nat>): Step
    requires range ==> st.chunk.current >= 0
  {
    var flag := if stop.Some? then false else st.running;
    var pos0: nat := if range then st.chunk.current else 0;
    var early := Early(bufs, stop);
    var written := Delivered(bufs, stop);
    var cur := pos0 + |Concat(written)|;
    var file := WriteAll(st.file, pos0, written);
    var c := st.chunk.(current := cur);
    if readFails && !early then Step(WorkerState(c, st.totalSize, file, flag), true, header, false)
    else if range then Step(WorkerState(c.(finished := c.finished || cur >= c.end), st.totalSize, file, flag), false, header, false)
    else Step(WorkerState(c.(finished := true), Some(cur), file, flag), false, header, true)
  }

  /** The retry loop's result: final state, attempts made, whether one of them ended a stream. */
  datatype Run = Run(st: WorkerState, used: nat, streamDone: bool)

  /** One turn of the retry loop: an attempt, and one more error when it threw. */
  function AfterAttempt(st: WorkerState, a: Attempt, support: bool, fileName: Option<string>): WorkerState {
    var s := Download(st, a, support, fileName);
    if s.failed then s.st.(chunk := s.st.chunk.(errorCount := s.st.chunk.errorCount + 1)) else s.st
  }

  /** The retry loop's guard. */
  predicate Retrying(st: WorkerState) {
    st.running && !st.chunk.finished && st.chunk.errorCount < MaxErrors
  }

  /** compute(): attempts while running, unfinished and errorCount < 5; a thrown attempt counts one error. */
  function Retry(st: WorkerState, attempts: seq<Attempt>, support: bool, fileName: Option<string>): (r: Run)
    ensures r.used <= |attempts|
    decreases |attempts|
  {
    if !Retrying(st) || attempts == [] then Run(st, 0, false)
    else
      var rest := Retry(AfterAttempt(st, attempts[0], support, fileName), attempts[1..], support, fileName);
      Run(rest.st, rest.used + 1, Download(st, attempts[0], support, fileName).streamDone || rest.streamDone)
  }

  /** The loop stops early only for the source's own reasons: stopped, finished, or five errors. */
  lemma {:induction false} RetryExitReason(st: WorkerState, attempts: seq<Attempt>, support: bool, fileName: Option<string>)
    ensures var r := Retry(st, attempts, support, fileName);
      r.used < |attempts| ==> !r.st.running || r.st.chunk.finished || r.st.chunk.errorCount >= MaxErrors
    decreases |attempts|
  {
    if Retrying(st) && attempts != [] {
      RetryExitReason(AfterAttempt(st, attempts[0], support, fileName), attempts[1..], support, fileName);
    }
  }

  /** Each attempt adds at most one error, and a count below the limit never passes it. */
  lemma {:induction false} RetryErrorBound(st: WorkerState, attempts: seq<Attempt>, support: bool, fileName: Option<string>)
    ensures var r := Retry(st, attempts, support, fileName);
      && st.chunk.errorCount <= r.st.chunk.errorCount <= st.chunk.errorCount + r.used
      && (st.chunk.errorCount <= MaxErrors ==> r.st.chunk.errorCount <= MaxErrors)
    decreases |attempts|
  {
    if Retrying(st) && attempts != [] {
      RetryErrorBound(AfterAttempt(st, attempts[0], support, fileName), attempts[1..], support, fileName);
    }
  }

  /** Once the flag is cleared during an attempt, no further attempt is made. */
  lemma StopEndsRetries(st: WorkerState, attempts: seq<Attempt>, support: bool, fileName: Option<string>)
    requires attempts != [] && attempts[0].stopAfter.Some?
    ensures Retry(st, attempts, support, fileName).used <= 1
    ensures Retry(st, attempts, support, fileName).used == 1 ==> !Retry(st, attempts, support, fileName).st.running
  {
    if Retrying(st) {
      assert !AfterAttempt(st, attempts[0], support, fileName).running;
    }
  }

  /** In ranged mode an attempt only writes at or after the chunk's position and never moves it back. */
  lemma DownloadRangeFrame(st: WorkerState, a: Attempt, support: bool, fileName: Option<string>)
    requires RangeMode(support, st.totalSize) == Some(true)
    ensures var r := Download(st, a, support, fileName).st;
      && r.totalSize == st.totalSize
      && r.chunk == st.chunk.(current := r.chunk.current, finished := r.chunk.finished)
      && (st.chunk.current >= 0 ==> r.chunk.current >= st.chunk.current)
      && (r.chunk.finished ==> st.chunk.finished || r.chunk.current >= r.chunk.end)
      && |r.file| >= |st.file|
      && forall i :: 0 <= i < |st.file| && (i < st.chunk.current || r.chunk.current <= i) ==> r.file[i] == st.file[i]
  {
    if fileName.Some? && a.outcome.Body? && st.chunk.current >= 0 {
      WriteAllSpec(st.file, st.chunk.current, Delivered(a.outcome.buffers, a.stopAfter));
    }
  }

  /**
   * Across retries in ranged mode, the worker writes only inside the stretch
   * from the chunk's first position to its last, and keeps its range and size.
   * A chunk it marks finished has reached its end.
   */
  lemma {:induction false} RetryRangeFrame(st: WorkerState, attempts: seq<Attempt>, support: bool, fileName: Option<string>)
    requires RangeMode(support, st.totalSize) == Some(true) && st.chunk.current >= 0
    ensures var r := Retry(st, attempts, support, fileName).st;
      && r.totalSize == st.totalSize
      && r.chunk.id == st.chunk.id && r.chunk.start == st.chunk.start && r.chunk.end == st.chunk.end
      && r.chunk.current >= st.chunk.current
      && (r.chunk.finished ==> st.chunk.finished || r.chunk.current >= r.chunk.end)
      && |r.file| >= |st.file|
      && forall i :: 0 <= i < |st.file| && (i < st.chunk.current || r.chunk.current <= i) ==> r.file[i] == st.file[i]
    decreases |attempts|
  {
    if Retrying(st) && attempts != [] {
      DownloadRangeFrame(st, attempts[0], support, fileName);
      RetryRangeFrame(AfterAttempt(st, attempts[0], support, fileName), attempts[1..], support, fileName);
    }
  }

  /**
   * A ranged attempt whose body is read to the end (or cut short by the flag)
   * sends `bytes=<current>-<end>`, writes the delivered bytes from current,
   * advances current by their count, and marks an unfinished chunk finished
   * exactly when current has reached end.
   */
  lemma RangeAttemptCompletes(st: WorkerState, bufs: seq<Buffer>, readFails: bool, stop: Option<nat>, support: bool, fileName: string)
    requires RangeMode(support, st.totalSize) == Some(true) && st.chunk.current >= 0 && !st.chunk.finished
    requires !readFails || Early(bufs, stop)
    ensures var s := Download(st, Attempt(Body(bufs, readFails), stop), support, Some(fileName));
      var n := |Concat(Delivered(bufs, stop))|;
      && !s.failed && !s.streamDone
      && s.header == Some(RangeHeader(st.chunk.current, st.chunk.end))
      && s.st.chunk.current == st.chunk.current + n
      && s.st.file == WriteAll(st.file, st.chunk.current, Delivered(bufs, stop))
      && (s.st.chunk.finished <==> st.chunk.current + n >= st.chunk.end)
      && s.st.totalSize == st.totalSize
  {
  }

  /**
   * A stream attempt starts over at offset 0 whatever the chunk's position:
   * the delivered bytes are written from 0, current becomes their count, and
   * a body read to the end (or cut short by the flag) finishes the chunk and
   * records that count as the total size.
   */
  lemma StreamAttemptRestarts(st: WorkerState, bufs: seq<Buffer>, readFails: bool, stop: Option<nat>, support: bool, fileName: string)
    requires RangeMode(support, st.totalSize) == Some(false)
    ensures var s := Download(st, Attempt(Body(bufs, readFails), stop), support, Some(fileName));
      var n := |Concat(Delivered(bufs, stop))|;
      && s.header == None
      && s.st.chunk.current == n
      && s.st.file == WriteAll(st.file, 0, Delivered(bufs, stop))
      && (s.failed <==> readFails && !Early(bufs, stop))
      && (!s.failed ==> s.st.chunk.finished && s.st.totalSize == Some(n) && s.streamDone)
      && (s.failed ==> s.st.totalSize == st.totalSize)
  {
  }

  /** An attempt leaves the chunk's identity and range alone, and only a thrown attempt adds an error. */
  lemma AttemptCountsFailure(st: WorkerState, a: Attempt, support: bool, fileName: Option<string>)
    ensures var r := AfterAttempt(st, a, support, fileName);
      && r.chunk.errorCount == st.chunk.errorCount + (if Download(st, a, support, fileName).failed then 1 else 0)
      && r.chunk.id == st.chunk.id && r.chunk.start == st.chunk.start && r.chunk.end == st.chunk.end
      && r.chunk.colorIndex == st.chunk.colorIndex
  {
    var s := Download(st, a, support, fileName);
    var mode := RangeMode(support, st.totalSize);
    if mode.Some? && fileName.Some? && a.outcome.Body? && !(mode.value && st.chunk.current < 0) {
      var c := s.st.chunk;
      assert c == st.chunk.(current := c.current, finished := c.finished);
    }
  }

  /**
   * Completion tests `current >= end` while `end` is inclusive: a chunk
   * [0, 3] whose body stops one byte short is marked finished with byte 3
   * never written.
   */
  lemma ShortBodyCompletes()
    ensures var st := WorkerState(Fresh("c", 0, 3, 0, 0), Some(4), [0, 0, 0, 0], true);
      var r := Retry(st, [Attempt(Body([[7, 7, 7]], false), None)], true, Some("f")).st;
      r.chunk.finished && r.chunk.current == 3 && r.file == [7, 7, 7, 0]
  {
    var bufs: seq<Buffer> := [[7, 7, 7]];
    assert Concat(bufs) == [7, 7, 7] by {
      assert Concat(bufs[1..]) == [];
    }
    assert WriteAt([0, 0, 0, 0], 0, [7, 7, 7]) == [7, 7, 7, 0];
    assert WriteAll([0, 0, 0, 0], 0, bufs) == WriteAll([7, 7, 7, 0], 3, bufs[1..]);
  }

  /**
   * A plain stream that is stopped mid-way is still marked finished, and the
   * size recorded is the bytes read so far.
   */
  lemma StoppedStreamCompletes(st: WorkerState, bufs: seq<Buffer>, k: nat, readFails: bool, fileName: string)
    requires st.running && !st.chunk.finished && st.chunk.errorCount < MaxErrors && k < |bufs|
    ensures var r := Download(st, Attempt(Body(bufs, readFails), Some(k)), false, Some(fileName));
      && !r.failed && r.streamDone && !r.st.running
      && r.st.chunk.finished
      && r.st.chunk.current == |Concat(bufs[..k])|
      && r.st.totalSize == Some(|Concat(bufs[..k])|)
      && r.st.file == WriteAll(st.file, 0, bufs[..k])
  {
  }

  class RunFlag {
    var running: bool

    constructor ()
      ensures running
    {
      running := true;
    }

    /** running.set(false) */
    method Clear()
      modifies this
      ensures !running
    {
      running := false;
    }
  }

  function StateOf(chunk: ChunkInfo, record: DownloadRecord, file: DiskFile, flag: RunFlag): WorkerState
    reads chunk, record, file, flag
  {
    WorkerState(chunk.Val(), record.totalSize, file.bytes, flag.running)
  }

  /** download(), with the read loop over the body's buffers. */
  method DownloadOnce(chunk: ChunkInfo, record: DownloadRecord, file: DiskFile, flag: RunFlag, a: Attempt, support: bool)
    returns (failed: bool, header: Option<string>, streamDone: bool)
    requires flag.running
    modifies chunk, record, file, flag
    ensures Step(StateOf(chunk, record, file, flag), failed, header, streamDone)
         == Download(old(StateOf(chunk, record, file, flag)), a, support, record.fileName)
    ensures record.Val() == old(record.Val()).(totalSize := record.totalSize)
  {
    failed, header, streamDone := true, None, false;
    var startPos := chunk.GetCurrentPos();
    if (support && record.totalSize.None?) || record.fileName.None? {
      if a.stopAfter.Some? {
        flag.Clear();
      }
      return;
    }
    var range := support && record.totalSize.value > 0;
    if range {
      header := Some(RangeHeader(startPos, chunk.end));
    }
    if a.outcome.ConnectFails? || (range && startPos < 0) {
      if a.stopAfter.Some? {
        flag.Clear();
      }
      return;
    }
    failed, streamDone := Receive(chunk, record, file, flag, range, header, a.outcome.buffers, a.outcome.readFails, a.stopAfter);
  }

  /** download() once the body is open: the stream restarts at 0, the read loop runs, then completion is decided. */
  method Receive(chunk: ChunkInfo, record: DownloadRecord, file: DiskFile, flag: RunFlag, range: bool, ghost header: Option<string>,
                 bufs: seq<Buffer>, readFails: bool, stop: Option<nat>)
    returns (failed: bool, streamDone: bool)
    requires flag.running && (range ==> chunk.current >= 0)
    modifies chunk, record, file, flag
    ensures Step(StateOf(chunk, record, file, flag), failed, header, streamDone)
         == Received(old(StateOf(chunk, record, file, flag)), range, header, bufs, readFails, stop)
    ensures record.Val() == old(record.Val()).(totalSize := record.totalSize)
  {
    failed, streamDone := true, false;
    if !range {
      chunk.SetCurrent(0);
    }
    var early := ReadBody(chunk, file, flag, bufs, stop);
    if readFails && !early {
      return;
    }
    failed := false;
    streamDone := Complete(chunk, record, range);
  }

  /** The completion test after a full body: `current >= end` in ranged mode; a stream is done, and its length becomes the total size. */
  method Complete(chunk: ChunkInfo, record: DownloadRecord, range: bool) returns (streamDone: bool)
    modifies chunk, record
    ensures streamDone == !range
    ensures range ==> chunk.Val() == old(chunk.Val()).(finished := old(chunk.finished) || old(chunk.current) >= old(chunk.end))
                      && record.Val() == old(record.Val())
    ensures !range ==> chunk.Val() == old(chunk.Val()).(finished := true)
                       && record.Val() == old(record.Val()).(totalSize := Some(old(chunk.current)))
  {
    streamDone := false;
    if range {
      if chunk.GetCurrentPos() >= chunk.end {
        chunk.SetFinished(true);
      }
    } else {
      chunk.SetFinished(true);
      record.totalSize := Some(chunk.GetCurrentPos());
      streamDone := true;
    }
  }

  /** The read loop of download(): buffers written at the chunk's position until the body ends or the flag is cleared. */
  method ReadBody(chunk: ChunkInfo, file: DiskFile, flag: RunFlag, bufs: seq<Buffer>, stop: Option<nat>) returns (early: bool)
    requires flag.running && chunk.current >= 0
    modifies chunk, file, flag
    ensures early == Early(bufs, stop)
    ensures chunk.Val() == old(chunk.Val()).(current := old(chunk.current) + |Concat(Delivered(bufs, stop))|)
    ensures file.bytes == WriteAll(old(file.bytes), old(chunk.current), Delivered(bufs, stop))
    ensures flag.running == stop.None?
  {
    ghost var pos0: nat := chunk.current;
    early := false;
    var j := 0;
    while true
      invariant 0 <= j <= |bufs|
      invariant !early && flag.running && (stop.Some? ==> stop.value >= j)
      invariant chunk.Val() == old(chunk.Val()).(current := pos0 + |Concat(bufs[..j])|)
      invariant file.bytes == WriteAll(old(file.bytes), pos0, bufs[..j])
      decreases |bufs| - j
    {
      if stop == Some(j) {
        flag.Clear();
      }
      if !flag.running {
        early := true;
        break;
      }
      if j == |bufs| {
        break;
      }
      var pos := chunk.GetCurrentPos();
      WriteAllAppend(old(file.bytes), pos0, bufs[..j], bufs[j]);
      assert bufs[..j + 1] == bufs[..j] + [bufs[j]];
      file.bytes := WriteAt(file.bytes, pos, bufs[j]);
      var now := chunk.AddCurrent(|bufs[j]|);
      j := j + 1;
    }
    if !early && stop.Some? {
      flag.Clear();
    }
    assert bufs[..|bufs|] == bufs;
  }

  /** One turn of compute()'s loop: an attempt, then one more error when it threw. */
  method AttemptOnce(chunk: ChunkInfo, record: DownloadRecord, file: DiskFile, flag: RunFlag, a: Attempt, support: bool)
    returns (streamDone: bool)
    requires flag.running
    modifies chunk, record, file, flag
    ensures StateOf(chunk, record, file, flag) == AfterAttempt(old(StateOf(chunk, record, file, flag)), a, support, record.fileName)
    ensures streamDone == Download(old(StateOf(chunk, record, file, flag)), a, support, record.fileName).streamDone
    ensures record.Val() == old(record.Val()).(totalSize := record.totalSize)
  {
    var failed, header;
    failed, header, streamDone := DownloadOnce(chunk, record, file, flag, a, support);
    if failed {
      chunk.SetErrorCount(chunk.errorCount + 1);
    }
  }

  /** The retry loop of compute(), shared by both workers; support is how each reads the range flag. */
  method RunAttempts(chunk: ChunkInfo, record: DownloadRecord, file: DiskFile, flag: RunFlag, attempts: seq<Attempt>, support: bool)
    returns (used: nat, streamDone: bool)
    modifies chunk, record, file, flag
    ensures Run(StateOf(chunk, record, file, flag), used, streamDone)
         == Retry(old(StateOf(chunk, record, file, flag)), attempts, support, record.fileName)
    ensures record.Val() == old(record.Val()).(totalSize := record.totalSize)
  {
    used, streamDone := 0, false;
    while used < |attempts| && flag.running && !chunk.finished && chunk.errorCount < MaxErrors
      invariant used <= |attempts|
      invariant record.Val() == old(record.Val()).(totalSize := record.totalSize)
      invariant var r := Retry(StateOf(chunk, record, file, flag), attempts[used..], support, record.fileName);
        Retry(old(StateOf(chunk, record, file, flag)), attempts, support, record.fileName)
          == Run(r.st, r.used + used, r.streamDone || streamDone)
      decreases |attempts| - used
    {
      assert attempts[used..][1..] == attempts[used + 1..];
      var done := AttemptOnce(chunk, record, file, flag, attempts[used], support);
      streamDone := streamDone || done;
      used := used + 1;
    }
  }

  /** A null supportRange on the record counts as true. */
  function SupportOf(r: Option<bool>): bool {
    r.None? || r.value
  }

  /** The stand-alone worker, sharing its running flag with whoever created it. */
  class ChunkWorker {
    const chunk: ChunkInfo
    const record: DownloadRecord
    const running: RunFlag
    const file: DiskFile

    constructor (chunk: ChunkInfo, record: DownloadRecord, running: RunFlag, file: DiskFile)
      ensures this.chunk == chunk && this.record == record && this.running == running && this.file == file
    {
      this.chunk := chunk;
      this.record := record;
      this.running := running;
      this.file := file;
    }

    method StopWork()
      modifies running
      ensures !running.running
    {
      running.Clear();
    }

    /** compute(): the retry loop, reading range support from the record. */
    method Compute(attempts: seq<Attempt>) returns (used: nat)
      modifies chunk, record, file, running
      ensures StateOf(chunk, record, file, running)
           == Retry(old(StateOf(chunk, record, file, running)), attempts, SupportOf(record.supportRange), record.fileName).st
      ensures used == Retry(old(StateOf(chunk, record, file, running)), attempts, SupportOf(record.supportRange), record.fileName).used
      ensures record.Val() == old(record.Val()).(totalSize := record.totalSize)
    {
      var streamDone;
      used, streamDone := RunAttempts(chunk, record, file, running, attempts, SupportOf(record.supportRange));
    }
  }
}
