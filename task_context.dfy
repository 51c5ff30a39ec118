/**
 * The task context the controller drives: the status machine (start,
 * pause, cancel), its own copy of the probe and of chunk planning, worker
 * registration, the monitor's once-per-second tick, bisection with worker
 * hand-over, and the inner worker's escalation to ERROR. Each operation is
 * one sequential step; the threads that run them are not modelled.
 */
module TaskContext {
  import opened Wrappers
  import opened ChunkModel
  import opened Records
  import opened ChunkPlanning
  import opened Probing
  import opened DownloadStatus
  import ChunkWorkers
  import ChunkManagers
  import FileUtils

  /** The context's pool size for a requested thread count. */
  function Parallelism(threads: int): int {
    if threads + 1 < 32 then threads + 1 else 32
  }

  /** The ids of the chunks not yet finished. */
  function Unfinished(m: map<string, ChunkInfo>): set<string>
    reads m.Values
  {
    set k | k in m && !m[k].finished
  }

  /** The test `supportRange && totalSize > 0` with a size to compare. */
  predicate RangeReady(support: bool, total: Option<int>) {
    support && total.Some? && total.value > 0
  }

  /** The same test throws: range support with a null size to unbox. */
  predicate UnboxesNull(support: bool, total: Option<int>) {
    support && total.None?
  }

  /** The outcomes start's probe and planning depend on: the probe requests, the save directory, the decoded URL, whether the file can be created, and fresh chunk ids. */
  datatype StartInputs = StartInputs(
    head: HeadOutcome,
    get: GetOutcome,
    existing: set<string>,
    decoded: Option<string>,
    allocOk: bool,
    ids: seq<string>)

  /** prepare throws: the ranged GET fails, or the file of known size cannot be created. */
  predicate PrepareFails(inp: StartInputs, total0: Option<int>, support0: bool) {
    var st := RunProbe(inp.head, inp.get, total0, Some(support0));
    st.getFailed || (st.allocate && !inp.allocOk)
  }

  /** One chunk's part of a monitor tick. */
  function Tick(c: ChunkVal): (r: ChunkVal)
    ensures r.speed >= 0 && r.finished == c.finished && r.current == c.current
    ensures !c.finished ==> r.lastRecordBytes == c.current
    ensures !c.finished && c.current >= c.lastRecordBytes ==> r.speed == c.current - c.lastRecordBytes
    ensures !c.finished && c.current < c.lastRecordBytes ==> r.speed == 0
    ensures !c.finished ==> r == c.(speed := r.speed, lastRecordBytes := c.current)
    ensures c.finished ==> r == c.(speed := 0)
  {
    if c.finished then c.(speed := 0)
    else
      var sp := c.current - c.lastRecordBytes;
      c.(speed := if sp < 0 then 0 else sp, lastRecordBytes := c.current)
  }

  /** The tick applied to every chunk. */
  function TickAll(v: map<string, ChunkVal>): map<string, ChunkVal> {
    map k | k in v :: Tick(v[k])
  }

  /** The sum of the speeds of the chunks under keys, in no particular order. */
  ghost function SpeedSum(v: map<string, ChunkVal>, keys: set<string>): int
    requires keys <= v.Keys
    decreases keys
  {
    if keys == {} then 0
    else
      var k :| k in keys;
      v[k].speed + SpeedSum(v, keys - {k})
  }

  /** The sum does not depend on which chunk is taken first. */
  lemma {:induction false} SpeedSumRemove(v: map<string, ChunkVal>, keys: set<string>, k: string)
    requires keys <= v.Keys && k in keys
    ensures SpeedSum(v, keys) == v[k].speed + SpeedSum(v, keys - {k})
    decreases keys
  {
    var j :| j in keys && SpeedSum(v, keys) == v[j].speed + SpeedSum(v, keys - {j});
    if j != k {
      SpeedSumRemove(v, keys - {j}, k);
      SpeedSumRemove(v, keys - {k}, j);
      assert keys - {j} - {k} == keys - {k} - {j};
    }
  }

  /** After a tick every speed is at least zero, so the global speed is too. */
  lemma {:induction false} TickedSpeedNonNegative(v: map<string, ChunkVal>, keys: set<string>)
    requires keys <= v.Keys
    ensures SpeedSum(TickAll(v), keys) >= 0
    decreases keys
  {
    if keys != {} {
      var k :| k in keys && SpeedSum(TickAll(v), keys) == TickAll(v)[k].speed + SpeedSum(TickAll(v), keys - {k});
      TickedSpeedNonNegative(v, keys - {k});
    }
  }

  /** Every chunk under keys is finished. */
  predicate FinishedAmong(v: map<string, ChunkVal>, keys: set<string>) {
    forall k :: k in keys && k in v ==> v[k].finished
  }

  /** The loop's flag after one more chunk. */
  lemma FinishedAmongAdd(v: map<string, ChunkVal>, keys: set<string>, k: string)
    requires k in v
    ensures FinishedAmong(v, keys + {k}) <==> FinishedAmong(v, keys) && v[k].finished
  {
  }

  /** The task ends FINISHED exactly when it has chunks and all are finished. */
  predicate AllFinished(v: map<string, ChunkVal>) {
    v.Keys != {} && FinishedAmong(v, v.Keys)
  }

  /** The map with the chunks outside todo ticked. */
  function PartlyTicked(v: map<string, ChunkVal>, todo: set<string>): map<string, ChunkVal> {
    map k | k in v :: if k in todo then v[k] else Tick(v[k])
  }

  /** Ticking one more chunk. */
  lemma PartlyTickedStep(v: map<string, ChunkVal>, todo: set<string>, k: string)
    requires k in v && k in todo
    ensures PartlyTicked(v, todo - {k}) == PartlyTicked(v, todo)[k := Tick(v[k])]
  {
  }

  /** order lists each key of keys exactly once. */
  predicate Visits(order: seq<string>, keys: set<string>) {
    Distinct(order) && (forall x :: x in order ==> x in keys) && (forall x :: x in keys ==> x in order)
  }

  lemma VisitsAdd(order: seq<string>, keys: set<string>, k: string)
    requires Visits(order, keys) && k !in keys
    ensures Visits(order + [k], keys + {k})
  {
  }

  /** The speeds summed in the order of the visit. */
  function SpeedsAlong(v: map<string, ChunkVal>, order: seq<string>): int
    requires forall x :: x in order ==> x in v
  {
    if order == [] then 0 else SpeedsAlong(v, order[..|order| - 1]) + v[order[|order| - 1]].speed
  }

  /** Visiting one more chunk adds its speed. */
  lemma SpeedsAlongAppend(v: map<string, ChunkVal>, order: seq<string>, k: string)
    requires (forall x :: x in order ==> x in v) && k in v
    ensures SpeedsAlong(v, order + [k]) == SpeedsAlong(v, order) + v[k].speed
  {
    assert (order + [k])[..|order|] == order;
  }

  /** Any visit order gives the same sum. */
  lemma {:induction false} SpeedsAlongSum(v: map<string, ChunkVal>, order: seq<string>, keys: set<string>)
    requires Visits(order, keys) && keys <= v.Keys
    ensures SpeedsAlong(v, order) == SpeedSum(v, keys)
    decreases |order|
  {
    if order != [] {
      var last := order[|order| - 1];
      var rest := order[..|order| - 1];
      assert order == rest + [last];
      assert Visits(rest, keys - {last});
      SpeedsAlongSum(v, rest, keys - {last});
      SpeedSumRemove(v, keys, last);
    } else {
      assert keys == {};
    }
  }

  /** A key moving from the keys still to visit to those visited. */
  lemma MoveKey(seen: set<string>, todo: set<string>, k: string)
    requires k in todo && seen !! todo
    ensures (seen + {k}) + (todo - {k}) == seen + todo && (seen + {k}) !! (todo - {k})
  {
  }

  /** With nothing left to do every chunk is ticked. */
  lemma PartlyTickedNone(v: map<string, ChunkVal>)
    ensures PartlyTicked(v, {}) == TickAll(v)
  {
  }

  /** One chunk's turn in the monitor loop; sp is the speed it adds to the sum. */
  method TickChunk(chunk: ChunkInfo) returns (sp: int, fin: bool)
    modifies chunk
    ensures chunk.Val() == Tick(old(chunk.Val()))
    ensures fin == chunk.finished && sp == chunk.speed
  {
    fin := chunk.finished;
    if !fin {
      var curr := chunk.GetCurrentPos();
      sp := curr - chunk.lastRecordBytes;
      if sp < 0 {
        sp := 0;
      }
      chunk.SetSpeed(sp);
      chunk.SetLastRecordBytes(curr);
    } else {
      chunk.SetSpeed(0);
      sp := 0;
    }
  }

  /** The loop's turn for the chunk under k, seen through the view of the whole map. */
  method TickNext(m: map<string, ChunkInfo>, ghost v0: map<string, ChunkVal>, todo: set<string>, k: string) returns (sp: int, fin: bool)
    requires WellKeyed(m) && k in todo && todo <= m.Keys && v0.Keys == m.Keys && View(m) == PartlyTicked(v0, todo)
    modifies m[k]
    ensures View(m) == PartlyTicked(v0, todo - {k})
    ensures fin == v0[k].finished && sp == Tick(v0[k]).speed
  {
    assert m[k].Val() == View(m)[k] == v0[k];
    assert forall j :: j in m && j != k ==> m[j] != m[k];
    sp, fin := TickChunk(m[k]);
    assert forall j :: j in m && j != k ==> m[j].Val() == old(m[j].Val());
    PartlyTickedStep(v0, todo, k);
  }

  /** The monitor's loop over the chunks: each ticked once, speeds summed, completion noted. */
  method TickChunks(m: map<string, ChunkInfo>) returns (sum: int, allFinished: bool)
    requires WellKeyed(m)
    modifies m.Values
    ensures View(m) == TickAll(old(View(m)))
    ensures sum == SpeedSum(View(m), m.Keys) && sum >= 0
    ensures allFinished == FinishedAmong(old(View(m)), m.Keys)
  {
    ghost var v0 := View(m);
    sum, allFinished := 0, true;
    var todo := m.Keys;
    ghost var seen: set<string> := {};
    ghost var order: seq<string> := [];
    while todo != {}
      invariant seen + todo == m.Keys && seen !! todo && v0.Keys == m.Keys
      invariant View(m) == PartlyTicked(v0, todo)
      invariant Visits(order, seen)
      invariant sum == SpeedsAlong(TickAll(v0), order)
      invariant allFinished == FinishedAmong(v0, seen)
      decreases todo
    {
      var k :| k in todo;
      FinishedAmongAdd(v0, seen, k);
      MoveKey(seen, todo, k);
      VisitsAdd(order, seen, k);
      var sp, fin := TickNext(m, v0, todo, k);
      SpeedsAlongAppend(TickAll(v0), order, k);
      if !fin {
        allFinished := false;
      }
      sum := sum + sp;
      todo := todo - {k};
      seen := seen + {k};
      order := order + [k];
    }
    PartlyTickedNone(v0);
    SpeedsAlongSum(TickAll(v0), order, m.Keys);
    TickedSpeedNonNegative(v0, m.Keys);
  }

  /** A worker of the context: its chunk and its own running flag. */
  class ContextWorker {
    const chunk: ChunkInfo
    const running: ChunkWorkers.RunFlag

    constructor (chunk: ChunkInfo)
      ensures this.chunk == chunk && fresh(running) && running.running
    {
      this.chunk := chunk;
      running := new ChunkWorkers.RunFlag();
    }

    method StopWork()
      modifies running
      ensures !running.running
    {
      running.Clear();
    }
  }

  class DownloadTaskContext {
    const record: DownloadRecord
    const repo: Repository
    /** The destination file. */
    const file: DiskFile
    var status: Status
    /** The context's own range flag, which its probe sets and its workers read. */
    var supportRange: bool
    var globalSpeed: int
    ghost const requestedThreads: int
    /** The pool's parallelism. */
    const parallelism: int
    var chunkMap: map<string, ChunkInfo>
    var activeWorkers: map<string, ContextWorker>

    ghost predicate Valid()
      reads this`chunkMap, this`activeWorkers
    {
      && WellKeyed(chunkMap)
      && requestedThreads >= 0 && parallelism == Parallelism(requestedThreads)
      && forall k :: k in activeWorkers ==> activeWorkers[k].chunk.id == k
    }

    /** A pool needs a parallelism of at least 1, so the thread count is at least 0. */
    constructor (record: DownloadRecord, repo: Repository, file: DiskFile, threads: int)
      requires threads >= 0
      ensures Valid()
      ensures this.record == record && this.repo == repo && this.file == file
      ensures status == IDLE && supportRange && globalSpeed == 0
      ensures chunkMap == map[] && activeWorkers == map[]
      ensures 1 <= parallelism <= 32 && parallelism == Parallelism(threads)
    {
      this.record := record;
      this.repo := repo;
      this.file := file;
      status := IDLE;
      supportRange := true;
      globalSpeed := 0;
      requestedThreads := threads;
      parallelism := Parallelism(threads);
      chunkMap := map[];
      activeWorkers := map[];
    }

    /** getThreadCount: the requested count, capped at 31 by the pool size. */
    function ThreadCount(): (r: int)
      requires Valid()
      reads this
      ensures 0 <= r <= 31
      ensures requestedThreads <= 31 ==> r == requestedThreads
      ensures requestedThreads > 31 ==> r == 31
    {
      parallelism - 1
    }

    /** updateStatusInDb: the status name on the record, then a save. */
    method Persist(s: Status)
      modifies record, repo
      ensures record.Val() == old(record.Val()).(status := Some(Name(s)))
      ensures repo.history == old(repo.history) + [record.Val()]
    {
      record.status := Some(Name(s));
      repo.Save(record);
    }

    /** parseResponseHeaders, on the context's own range flag. */
    method ParseResponseHeaders(h: Headers)
      modifies this, record
      ensures (record.totalSize, Some(supportRange)) == ApplyHeaders(h, old(record.totalSize), Some(old(supportRange)))
      ensures record.Val() == old(record.Val()).(totalSize := record.totalSize)
      ensures status == old(status) && chunkMap == old(chunkMap) && activeWorkers == old(activeWorkers)
      ensures globalSpeed == old(globalSpeed)
    {
      var t := ParsedTotal(h);
      if t.Some? {
        record.totalSize := t;
      }
      if AdvertisesRanges(h) {
        supportRange := true;
      }
    }

    /** Steps 1 and 2 of the context's prepare: HEAD, then the ranged GET while the size is unknown. */
    method ProbeSize(head: HeadOutcome, get: GetOutcome) returns (failed: bool)
      modifies this, record
      ensures var st := RunProbe(head, get, old(record.totalSize), Some(old(supportRange)));
        && failed == st.getFailed
        && (failed || st.allocate ==> record.totalSize == st.totalSize && st.supportRange == Some(supportRange))
        && (!failed ==> (st.allocate <==> record.totalSize.Some? && record.totalSize.value > 0))
        && (!failed && !st.allocate ==>
              st.totalSize == (if record.totalSize.None? then Some(-1) else record.totalSize) && st.supportRange == Some(false))
      ensures record.Val() == old(record.Val()).(totalSize := record.totalSize)
      ensures status == old(status) && chunkMap == old(chunkMap) && activeWorkers == old(activeWorkers)
      ensures globalSpeed == old(globalSpeed)
    {
      if head.HeadResponse? && head.statusCode == 200 {
        ParseResponseHeaders(head.headers);
      }
      if SizeUnknown(record.totalSize) {
        if get.GetFailed? {
          return true;
        }
        ParseResponseHeaders(get.headers);
      }
      failed := false;
    }

    /** Step 4 of the context's prepare: preallocate a file of known positive size, else -1 for a missing size and range support off. */
    method Preallocate(allocOk: bool) returns (ok: bool)
      modifies this, record, file
      ensures var t := old(record.totalSize);
        if t.Some? && t.value > 0 then
          && ok == allocOk
          && record.Val() == old(record.Val()) && supportRange == old(supportRange)
          && file.bytes == (if allocOk then SetLength(old(file.bytes), t.value) else old(file.bytes))
        else
          && ok && !supportRange
          && record.Val() == old(record.Val()).(totalSize := if t.None? then Some(-1) else t)
          && file.bytes == old(file.bytes)
      ensures status == old(status) && chunkMap == old(chunkMap) && activeWorkers == old(activeWorkers)
      ensures globalSpeed == old(globalSpeed)
    {
      if record.totalSize.Some? && record.totalSize.value > 0 {
        if !allocOk {
          return false;
        }
        file.bytes := SetLength(file.bytes, record.totalSize.value);
      } else {
        if record.totalSize.None? {
          record.totalSize := Some(-1);
        }
        supportRange := false;
      }
      ok := true;
    }

    /** The context's prepare: probe, file name, preallocation; ok is false where it throws. */
    method Prepare(inp: StartInputs) returns (ok: bool)
      modifies this, record, file
      ensures var st := RunProbe(inp.head, inp.get, old(record.totalSize), Some(old(supportRange)));
        && ok == !PrepareFails(inp, old(record.totalSize), old(supportRange))
        && record.totalSize == st.totalSize
        && Some(supportRange) == st.supportRange
        && (ok && st.allocate ==> file.bytes == SetLength(old(file.bytes), st.totalSize.value))
        && (!(ok && st.allocate) ==> file.bytes == old(file.bytes))
        && (!st.getFailed && old(record.fileName).None? ==>
              record.fileName.Some? && FileUtils.IsUniqueName(inp.existing, FileUtils.ExtractFileName(inp.decoded), record.fileName.value))
        && (st.getFailed || old(record.fileName).Some? ==> record.fileName == old(record.fileName))
      ensures record.Val() == old(record.Val()).(totalSize := record.totalSize, fileName := record.fileName)
      ensures status == old(status) && chunkMap == old(chunkMap) && activeWorkers == old(activeWorkers)
      ensures globalSpeed == old(globalSpeed)
    {
      var failed := ProbeSize(inp.head, inp.get);
      if failed {
        return false;
      }
      ChunkManagers.ChooseFileName(record, inp.existing, inp.decoded);
      ok := Preallocate(inp.allocOk);
    }

    /** The planning in start: an empty map is split into `parallelism` chunks or gets the stream chunk; ok is false where the test throws. */
    method PlanChunks(ids: seq<string>) returns (ok: bool)
      requires Valid() && |ids| == parallelism && Distinct(ids)
      modifies this`chunkMap
      ensures Valid()
      ensures ok == !(old(chunkMap) == map[] && UnboxesNull(supportRange, record.totalSize))
      ensures old(chunkMap) != map[] || !ok ==> chunkMap == old(chunkMap)
      ensures ok && old(chunkMap) == map[] && RangeReady(supportRange, record.totalSize) ==>
        && chunkMap.Keys == (set i | 0 <= i < parallelism :: ids[i])
        && forall i :: 0 <= i < parallelism ==>
             fresh(chunkMap[ids[i]]) && chunkMap[ids[i]].Val() == Planned(ids[i], record.totalSize.value, parallelism, i)
      ensures ok && old(chunkMap) == map[] && !RangeReady(supportRange, record.totalSize) ==>
        chunkMap.Keys == {StreamId} && fresh(chunkMap[StreamId]) && chunkMap[StreamId].Val() == Fresh(StreamId, 0, -1, 0, 0)
    {
      ok := true;
      if chunkMap == map[] {
        if supportRange && record.totalSize.None? {
          return false;
        }
        if supportRange && record.totalSize.value > 0 {
          chunkMap := SplitInto(chunkMap, record.totalSize.value, parallelism, ids);
        } else {
          chunkMap := AddStreamChunk(chunkMap);
        }
      }
    }

    /** submitTask: a fresh running worker under the chunk's id. */
    method SubmitTask(chunk: ChunkInfo)
      requires Valid()
      modifies this`activeWorkers
      ensures Valid()
      ensures chunk.id in activeWorkers && activeWorkers == old(activeWorkers)[chunk.id := activeWorkers[chunk.id]]
      ensures fresh(activeWorkers[chunk.id]) && fresh(activeWorkers[chunk.id].running)
      ensures activeWorkers[chunk.id].chunk == chunk && activeWorkers[chunk.id].running.running
    {
      var worker := new ContextWorker(chunk);
      activeWorkers := activeWorkers[chunk.id := worker];
    }

    /** The submission in start: one new worker for each unfinished chunk. */
    method SubmitUnfinished()
      requires Valid()
      modifies this`activeWorkers
      ensures Valid()
      ensures activeWorkers.Keys == old(activeWorkers).Keys + Unfinished(chunkMap)
      ensures forall k :: k in Unfinished(chunkMap) ==>
        fresh(activeWorkers[k]) && activeWorkers[k].chunk == chunkMap[k] && activeWorkers[k].running.running
      ensures forall k :: k in old(activeWorkers) && k !in Unfinished(chunkMap) ==> activeWorkers[k] == old(activeWorkers[k])
    {
      ghost var unfinished := Unfinished(chunkMap);
      var todo := chunkMap.Keys;
      while todo != {}
        invariant Valid() && todo <= chunkMap.Keys
        invariant unfinished == Unfinished(chunkMap)
        invariant activeWorkers.Keys == old(activeWorkers).Keys + (unfinished - todo)
        invariant forall k :: k in unfinished - todo ==>
          fresh(activeWorkers[k]) && activeWorkers[k].chunk == chunkMap[k] && activeWorkers[k].running.running
        invariant forall k :: k in old(activeWorkers) && k !in unfinished - todo ==> activeWorkers[k] == old(activeWorkers[k])
        decreases todo
      {
        var k :| k in todo;
        var chunk := chunkMap[k];
        if !chunk.finished {
          SubmitTask(chunk);
        }
        todo := todo - {k};
      }
    }

    /**
     * start as one step: nothing from DOWNLOADING or FINISHED; from IDLE the
     * probe and a save first; then DOWNLOADING persisted, planning for an
     * empty map and a worker per unfinished chunk. Where a step throws the
     * status becomes ERROR and is persisted.
     */
    method Start(inp: StartInputs)
      requires Valid() && |inp.ids| == parallelism && Distinct(inp.ids)
      modifies this, record, repo, file
      ensures Valid()
      ensures old(status) == DOWNLOADING || old(status) == FINISHED ==>
        unchanged(this) && unchanged(record) && unchanged(repo) && unchanged(file)
      ensures old(status) != DOWNLOADING && old(status) != FINISHED ==>
        && (status == DOWNLOADING || status == ERROR)
        && record.status == Some(Name(status))
        && |repo.history| > |old(repo.history)| && repo.history[|repo.history| - 1] == record.Val()
      ensures old(status) != DOWNLOADING && old(status) != FINISHED ==>
        var fails := old(status) == IDLE && PrepareFails(inp, old(record.totalSize), old(supportRange));
        var prepared := old(record.Val()).(totalSize := record.totalSize, fileName := record.fileName);
        repo.history == old(repo.history)
          + (if old(status) == IDLE && !fails then [prepared] else [])
          + (if fails then [] else [prepared.(status := Some(Name(DOWNLOADING)))])
          + (if status == ERROR then [prepared.(status := Some(Name(ERROR)))] else [])
      ensures record.Val() == old(record.Val()).(status := record.status, totalSize := record.totalSize, fileName := record.fileName)
      ensures globalSpeed == old(globalSpeed)
      ensures old(status) == IDLE ==>
        var st := RunProbe(inp.head, inp.get, old(record.totalSize), Some(old(supportRange)));
        var ok := !PrepareFails(inp, old(record.totalSize), old(supportRange));
        && record.totalSize == st.totalSize && Some(supportRange) == st.supportRange
        && (ok && st.allocate ==> file.bytes == SetLength(old(file.bytes), st.totalSize.value))
        && (!(ok && st.allocate) ==> file.bytes == old(file.bytes))
        && (!st.getFailed && old(record.fileName).None? ==>
              record.fileName.Some? && FileUtils.IsUniqueName(inp.existing, FileUtils.ExtractFileName(inp.decoded), record.fileName.value))
        && (st.getFailed || old(record.fileName).Some? ==> record.fileName == old(record.fileName))
      ensures old(status) != IDLE ==>
        && record.totalSize == old(record.totalSize) && supportRange == old(supportRange)
        && record.fileName == old(record.fileName) && file.bytes == old(file.bytes)
      ensures old(status) == IDLE && PrepareFails(inp, old(record.totalSize), old(supportRange)) ==>
        status == ERROR && chunkMap == old(chunkMap) && activeWorkers == old(activeWorkers)
      ensures status == ERROR && !(old(status) == IDLE && PrepareFails(inp, old(record.totalSize), old(supportRange))) ==>
        old(chunkMap) == map[] && UnboxesNull(supportRange, record.totalSize) && chunkMap == old(chunkMap)
      ensures status == DOWNLOADING && old(status) != DOWNLOADING ==>
        && (old(status) == IDLE ==> !PrepareFails(inp, old(record.totalSize), old(supportRange)))
        && !(old(chunkMap) == map[] && UnboxesNull(supportRange, record.totalSize))
        && (old(chunkMap) != map[] ==> chunkMap == old(chunkMap))
        && (old(chunkMap) == map[] && RangeReady(supportRange, record.totalSize) ==>
              && chunkMap.Keys == (set i | 0 <= i < parallelism :: inp.ids[i])
              && forall i :: 0 <= i < parallelism ==>
                   chunkMap[inp.ids[i]].Val() == Planned(inp.ids[i], record.totalSize.value, parallelism, i))
        && (old(chunkMap) == map[] && !RangeReady(supportRange, record.totalSize) ==>
              chunkMap.Keys == {StreamId} && chunkMap[StreamId].Val() == Fresh(StreamId, 0, -1, 0, 0))
        && activeWorkers.Keys == old(activeWorkers).Keys + Unfinished(chunkMap)
        && (forall k :: k in Unfinished(chunkMap) ==>
              fresh(activeWorkers[k]) && activeWorkers[k].chunk == chunkMap[k] && activeWorkers[k].running.running)
    {
      if status == DOWNLOADING || status == FINISHED {
        return;
      }
      ghost var saved: seq<RecordVal> := [];
      if status == IDLE {
        var prepared := PrepareAndSave(inp);
        if !prepared {
          status := ERROR;
          Persist(ERROR);
          return;
        }
        saved := [record.Val()];
      }
      ghost var h1 := repo.history;
      assert h1 == old(repo.history) + saved;
      var ok := Launch(inp.ids);
      if !ok {
        status := ERROR;
        Persist(ERROR);
      }
    }

    /** The first start of an IDLE task: prepare, and a save of the record when it succeeds. */
    method PrepareAndSave(inp: StartInputs) returns (ok: bool)
      requires Valid()
      modifies this, record, repo, file
      ensures Valid()
      ensures var st := RunProbe(inp.head, inp.get, old(record.totalSize), Some(old(supportRange)));
        && ok == !PrepareFails(inp, old(record.totalSize), old(supportRange))
        && record.totalSize == st.totalSize
        && Some(supportRange) == st.supportRange
        && (ok && st.allocate ==> file.bytes == SetLength(old(file.bytes), st.totalSize.value))
        && (!(ok && st.allocate) ==> file.bytes == old(file.bytes))
        && (!st.getFailed && old(record.fileName).None? ==>
              record.fileName.Some? && FileUtils.IsUniqueName(inp.existing, FileUtils.ExtractFileName(inp.decoded), record.fileName.value))
        && (st.getFailed || old(record.fileName).Some? ==> record.fileName == old(record.fileName))
      ensures record.Val() == old(record.Val()).(totalSize := record.totalSize, fileName := record.fileName)
      ensures record.status == old(record.status)
      ensures repo.history == old(repo.history) + (if ok then [record.Val()] else [])
      ensures status == old(status) && chunkMap == old(chunkMap) && activeWorkers == old(activeWorkers)
      ensures globalSpeed == old(globalSpeed)
    {
      ok := Prepare(inp);
      if ok {
        repo.Save(record);
      }
    }

    /** The part of start after the probe: DOWNLOADING persisted, then planning and submission; ok is false where planning throws. */
    method Launch(ids: seq<string>) returns (ok: bool)
      requires Valid() && |ids| == parallelism && Distinct(ids)
      modifies this`status, this`chunkMap, this`activeWorkers, record, repo
      ensures Valid()
      ensures status == DOWNLOADING && record.Val() == old(record.Val()).(status := Some(Name(DOWNLOADING)))
      ensures repo.history == old(repo.history) + [record.Val()]
      ensures ok == !(old(chunkMap) == map[] && UnboxesNull(supportRange, record.totalSize))
      ensures !ok ==> chunkMap == old(chunkMap) && activeWorkers == old(activeWorkers)
      ensures ok ==>
        && (old(chunkMap) != map[] ==> chunkMap == old(chunkMap))
        && (old(chunkMap) == map[] && RangeReady(supportRange, record.totalSize) ==>
              && chunkMap.Keys == (set i | 0 <= i < parallelism :: ids[i])
              && forall i :: 0 <= i < parallelism ==>
                   chunkMap[ids[i]].Val() == Planned(ids[i], record.totalSize.value, parallelism, i))
        && (old(chunkMap) == map[] && !RangeReady(supportRange, record.totalSize) ==>
              chunkMap.Keys == {StreamId} && chunkMap[StreamId].Val() == Fresh(StreamId, 0, -1, 0, 0))
        && activeWorkers.Keys == old(activeWorkers).Keys + Unfinished(chunkMap)
        && (forall k :: k in Unfinished(chunkMap) ==>
              fresh(activeWorkers[k]) && activeWorkers[k].chunk == chunkMap[k] && activeWorkers[k].running.running)
    {
      status := DOWNLOADING;
      Persist(DOWNLOADING);
      ok := PlanChunks(ids);
      if ok {
        SubmitUnfinished();
      }
    }

    /** Stops the worker of every key in todo. */
    method StopWorkers(todo: set<string>)
      requires todo <= activeWorkers.Keys
      modifies set k | k in todo :: activeWorkers[k].running
      ensures forall k :: k in todo ==> !activeWorkers[k].running.running
    {
      var left := todo;
      while left != {}
        invariant left <= todo
        invariant forall k :: k in todo - left ==> !activeWorkers[k].running.running
        decreases left
      {
        var k :| k in left;
        activeWorkers[k].StopWork();
        left := left - {k};
      }
    }

    /** pause: from DOWNLOADING only, PAUSED persisted, every worker stopped and dropped. */
    method Pause()
      requires Valid()
      modifies this, record, repo, set k | k in activeWorkers :: activeWorkers[k].running
      ensures Valid()
      ensures old(status) != DOWNLOADING ==> unchanged(this) && unchanged(record) && unchanged(repo)
      ensures old(status) != DOWNLOADING ==>
        forall k :: k in activeWorkers ==> activeWorkers[k].running.running == old(activeWorkers[k].running.running)
      ensures old(status) == DOWNLOADING ==>
        && status == PAUSED && activeWorkers == map[]
        && (forall k :: k in old(activeWorkers) ==> !old(activeWorkers[k]).running.running)
        && record.Val() == old(record.Val()).(status := Some(Name(PAUSED)))
        && repo.history == old(repo.history) + [record.Val()]
      ensures chunkMap == old(chunkMap) && supportRange == old(supportRange) && globalSpeed == old(globalSpeed)
    {
      if status == DOWNLOADING {
        status := PAUSED;
        StopWorkers(activeWorkers.Keys);
        activeWorkers := map[];
        Persist(PAUSED);
      }
    }

    /** cancel: from any status, CANCELED persisted, every worker stopped and dropped. */
    method Cancel()
      requires Valid()
      modifies this, record, repo, set k | k in activeWorkers :: activeWorkers[k].running
      ensures Valid()
      ensures status == CANCELED && activeWorkers == map[]
      ensures forall k :: k in old(activeWorkers) ==> !old(activeWorkers[k]).running.running
      ensures record.Val() == old(record.Val()).(status := Some(Name(CANCELED)))
      ensures repo.history == old(repo.history) + [record.Val()]
      ensures chunkMap == old(chunkMap) && supportRange == old(supportRange) && globalSpeed == old(globalSpeed)
    {
      status := CANCELED;
      StopWorkers(activeWorkers.Keys);
      activeWorkers := map[];
      Persist(CANCELED);
    }

    /**
     * The body of one monitor iteration up to the completion test: every
     * chunk ticked, the global speed summed; allFinished is the loop's flag.
     */
    method MonitorTick() returns (allFinished: bool)
      requires Valid()
      modifies this`globalSpeed, chunkMap.Values
      ensures View(chunkMap) == TickAll(old(View(chunkMap)))
      ensures globalSpeed == SpeedSum(View(chunkMap), chunkMap.Keys) && globalSpeed >= 0
      ensures allFinished && chunkMap.Keys != {} <==> AllFinished(old(View(chunkMap)))
    {
      var sumSpeed;
      sumSpeed, allFinished := TickChunks(chunkMap);
      globalSpeed := sumSpeed;
    }

    /** The completion step of a tick: once every chunk is finished the status becomes FINISHED and is persisted. */
    method FinishIfDone(allFinished: bool) returns (done: bool)
      modifies this`status, record, repo
      ensures done == (allFinished && chunkMap.Keys != {})
      ensures done ==> status == FINISHED && record.Val() == old(record.Val()).(status := Some(Name(FINISHED)))
                       && repo.history == old(repo.history) + [record.Val()]
      ensures !done ==> status == old(status) && unchanged(record) && unchanged(repo)
    {
      done := allFinished && chunkMap.Keys != {};
      if done {
        status := FINISHED;
        Persist(FINISHED);
      }
    }

    /**
     * performSplit: the parent's worker (if any) is stopped, the parent keeps
     * the first half, a fresh chunk takes the second, and both get new workers.
     */
    method PerformSplit(parent: ChunkInfo, newId: string)
      requires Valid() && newId !in chunkMap && newId != parent.id
      modifies this, parent, if parent.id in activeWorkers then {activeWorkers[parent.id].running} else {}
      ensures Valid()
      ensures parent.id in old(activeWorkers) ==> !old(activeWorkers[parent.id]).running.running
      ensures parent.Val() == old(parent.Val()).(end := SplitMid(old(parent.current), old(parent.end)))
      ensures newId in chunkMap && fresh(chunkMap[newId]) && chunkMap == old(chunkMap)[newId := chunkMap[newId]]
      ensures chunkMap[newId].Val() == Fresh(newId, SplitMid(old(parent.current), old(parent.end)) + 1, old(parent.end),
                                            SplitMid(old(parent.current), old(parent.end)) + 1, parent.colorIndex + 1)
      ensures activeWorkers.Keys == old(activeWorkers).Keys + {parent.id, newId}
      ensures forall k :: k in old(activeWorkers) && k != parent.id && k != newId ==> activeWorkers[k] == old(activeWorkers[k])
      ensures fresh(activeWorkers[parent.id]) && activeWorkers[parent.id].chunk == parent && activeWorkers[parent.id].running.running
      ensures fresh(activeWorkers[newId]) && activeWorkers[newId].chunk == chunkMap[newId] && activeWorkers[newId].running.running
      ensures status == old(status) && supportRange == old(supportRange) && globalSpeed == old(globalSpeed)
    {
      if parent.id in activeWorkers {
        activeWorkers[parent.id].StopWork();
      }
      var child := SplitChunk(parent, newId);
      SubmitBoth(parent, child);
    }

    /** The two submissions of performSplit, the first half's worker, then the second's. */
    method SubmitBoth(first: ChunkInfo, second: ChunkInfo)
      requires Valid() && first.id != second.id
      modifies this`activeWorkers
      ensures Valid()
      ensures activeWorkers.Keys == old(activeWorkers).Keys + {first.id, second.id}
      ensures forall k :: k in old(activeWorkers) && k != first.id && k != second.id ==> activeWorkers[k] == old(activeWorkers[k])
      ensures fresh(activeWorkers[first.id]) && activeWorkers[first.id].chunk == first && activeWorkers[first.id].running.running
      ensures fresh(activeWorkers[second.id]) && activeWorkers[second.id].chunk == second && activeWorkers[second.id].running.running
    {
      SubmitTask(first);
      SubmitTask(second);
    }

    /** The bisection of performSplit: the parent shrunk, the new chunk filed under its id. */
    method SplitChunk(parent: ChunkInfo, newId: string) returns (child: ChunkInfo)
      requires Valid() && newId !in chunkMap && newId != parent.id
      modifies this`chunkMap, parent
      ensures Valid()
      ensures parent.Val() == old(parent.Val()).(end := SplitMid(old(parent.current), old(parent.end)))
      ensures fresh(child) && child.id == newId && chunkMap == old(chunkMap)[newId := child]
      ensures child.Val() == Fresh(newId, SplitMid(old(parent.current), old(parent.end)) + 1, old(parent.end),
                                   SplitMid(old(parent.current), old(parent.end)) + 1, parent.colorIndex + 1)
    {
      var m;
      m, child := SplitOn(chunkMap, parent, newId);
      chunkMap := m;
    }

    /**
     * The inner worker's compute for the chunk under key: the shared retry
     * loop on the context's range flag, a save of the record when a stream
     * completes, and ERROR (not persisted) once errorCount reaches five.
     */
    method RunWorker(key: string, attempts: seq<ChunkWorkers.Attempt>) returns (used: nat)
      requires Valid() && key in activeWorkers
      modifies this, record, repo, file, activeWorkers[key].chunk, activeWorkers[key].running
      ensures Valid()
      ensures var w := old(activeWorkers[key]);
        var r := ChunkWorkers.Retry(old(ChunkWorkers.StateOf(w.chunk, record, file, w.running)), attempts, old(supportRange), record.fileName);
        && ChunkWorkers.StateOf(w.chunk, record, file, w.running) == r.st
        && used == r.used
        && repo.history == old(repo.history) + (if r.streamDone then [record.Val()] else [])
        && status == (if r.st.chunk.errorCount >= ChunkWorkers.MaxErrors then ERROR else old(status))
      ensures record.Val() == old(record.Val()).(totalSize := record.totalSize)
      ensures supportRange == old(supportRange) && chunkMap == old(chunkMap) && activeWorkers == old(activeWorkers)
      ensures globalSpeed == old(globalSpeed)
    {
      var w := activeWorkers[key];
      var streamDone;
      used, streamDone := ChunkWorkers.RunAttempts(w.chunk, record, file, w.running, attempts, supportRange);
      if streamDone {
        repo.Save(record);
      }
      if w.chunk.errorCount >= ChunkWorkers.MaxErrors {
        status := ERROR;
      }
    }
  }
}
