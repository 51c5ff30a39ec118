/**
 * The chunk manager: the chunk map of one task and the operations that
 * create, bisect, persist and restore its chunks, plus the metadata probe
 * that fills in the task record.
 */
module ChunkManagers {
  import opened Wrappers
  import opened ChunkModel
  import opened Records
  import opened ChunkPlanning
  import opened Probing
  import FileUtils

  /** The ids of a list of snapshot records. */
  function IdsOf(recs: seq<ChunkRecord>): set<string> {
    set r | r in recs :: r.id
  }

  lemma IdsOfAppend(recs: seq<ChunkRecord>, r: ChunkRecord)
    ensures IdsOf(recs + [r]) == IdsOf(recs) + {r.id}
  {
    assert forall x :: x in recs + [r] <==> x in recs || x == r;
  }

  /** recs lists the snapshot record of every chunk of v whose id is in ids exactly once, in some order. */
  predicate EnumeratesAmong(recs: seq<ChunkRecord>, v: map<string, ChunkVal>, ids: set<string>) {
    && (forall i, j :: 0 <= i < j < |recs| ==> recs[i].id != recs[j].id)
    && IdsOf(recs) == ids
    && forall r :: r in recs ==> r.id in v && r == RecordOf(v[r.id])
  }

  /** recs lists the snapshot record of every chunk of v exactly once, in some order. */
  predicate Enumerates(recs: seq<ChunkRecord>, v: map<string, ChunkVal>) {
    EnumeratesAmong(recs, v, v.Keys)
  }

  /** Appending the record of a chunk not yet listed lists one more chunk. */
  lemma EnumeratesAppend(recs: seq<ChunkRecord>, v: map<string, ChunkVal>, ids: set<string>, k: string)
    requires EnumeratesAmong(recs, v, ids) && k in v && v[k].id == k && k !in ids
    ensures EnumeratesAmong(recs + [RecordOf(v[k])], v, ids + {k})
  {
    var r := RecordOf(v[k]);
    IdsOfAppend(recs, r);
    assert forall x :: x in recs + [r] <==> x in recs || x == r;
    forall i | 0 <= i < |recs| ensures recs[i].id != r.id {
      assert recs[i] in recs;
    }
  }

  /** The snapshot text of a list of records, as entries that all parse. */
  function Goods(recs: seq<ChunkRecord>): (es: seq<Entry>)
    ensures |es| == |recs| && forall i :: 0 <= i < |recs| ==> es[i] == Good(recs[i])
  {
    if recs == [] then [] else [Good(recs[0])] + Goods(recs[1..])
  }

  /** The chunk restoreChunks builds from one record: new counters, the saved finished flag. */
  function Restored(r: ChunkRecord): ChunkVal {
    Fresh(r.id, r.start, r.end, r.current, r.colorIndex).(finished := r.finished)
  }

  /**
   * restoreChunks on parsed entries: each is put under its id in order; the
   * first entry whose fields do not cast ends the loop, keeping what was put.
   */
  function RestoreView(v: map<string, ChunkVal>, entries: seq<Entry>): map<string, ChunkVal>
    decreases |entries|
  {
    if |entries| == 0 || entries[0].Malformed? then v
    else RestoreView(v[entries[0].rec.id := Restored(entries[0].rec)], entries[1..])
  }

  /** A chunk as a snapshot brings it back: the counters that are not saved start over. */
  function Reloaded(c: ChunkVal): ChunkVal {
    c.(speed := 0, errorCount := 0, lastRecordBytes := c.current)
  }

  /** Restoring well-formed records with distinct ids puts each under its id and leaves other chunks alone. */
  lemma {:induction false} RestoreGoods(acc: map<string, ChunkVal>, recs: seq<ChunkRecord>)
    requires forall i, j :: 0 <= i < j < |recs| ==> recs[i].id != recs[j].id
    ensures var res := RestoreView(acc, Goods(recs));
      && res.Keys == acc.Keys + IdsOf(recs)
      && (forall r :: r in recs ==> res[r.id] == Restored(r))
      && (forall k :: k in acc && k !in IdsOf(recs) ==> res[k] == acc[k])
    decreases |recs|
  {
    if recs != [] {
      var r0, rest := recs[0], recs[1..];
      assert Goods(recs)[1..] == Goods(rest);
      RestoreGoods(acc[r0.id := Restored(r0)], rest);
      IdsOfFirst(recs);
    }
  }

  /** The ids of a non-empty list: the first one, which no later record repeats, and the rest. */
  lemma IdsOfFirst(recs: seq<ChunkRecord>)
    requires recs != [] && forall i, j :: 0 <= i < j < |recs| ==> recs[i].id != recs[j].id
    ensures IdsOf(recs) == {recs[0].id} + IdsOf(recs[1..]) && recs[0].id !in IdsOf(recs[1..])
  {
    assert recs == [recs[0]] + recs[1..];
    forall r | r in recs[1..] ensures r.id != recs[0].id {
      var j :| 0 <= j < |recs[1..]| && recs[1..][j] == r;
      assert recs[j + 1] == r;
    }
  }

  /**
   * The snapshot round trip: restoring, into an empty map, the records saveChunks
   * wrote gives back every chunk with its id, range, position, colour and
   * finished flag, a zero error count and speed, and lastRecordBytes = current.
   */
  lemma {:induction false} SnapshotRoundTrip(v: map<string, ChunkVal>, recs: seq<ChunkRecord>)
    requires Enumerates(recs, v) && forall k :: k in v ==> v[k].id == k
    ensures RestoreView(map[], Goods(recs)) == map k | k in v :: Reloaded(v[k])
  {
    var res := RestoreView(map[], Goods(recs));
    assert res.Keys == v.Keys by {
      RestoreGoods(map[], recs);
    }
    assert forall k :: k in v ==> res[k] == Reloaded(v[k]) by {
      RestoreGoods(map[], recs);
      forall k | k in v ensures res[k] == Reloaded(v[k]) {
        assert k in IdsOf(recs);
        var r :| r in recs && r.id == k;
        ReloadedIsRestored(v[k]);
      }
    }
  }

  /** Saving one chunk and restoring its record gives the chunk with its unsaved counters reset. */
  lemma ReloadedIsRestored(c: ChunkVal)
    ensures Restored(RecordOf(c)) == Reloaded(c)
  {
  }

  /** An absent snapshot, and an empty one, leave the chunks as they were. */
  lemma EmptySnapshotKeepsChunks(v: map<string, ChunkVal>)
    ensures RestoreView(v, []) == v
  {
  }

  /** Step 3 of prepare: a unique name in the save directory when the record has none. */
  method ChooseFileName(record: DownloadRecord, existing: set<string>, decoded: Option<string>)
    modifies record
    ensures old(record.fileName).None? ==>
      record.fileName.Some? && FileUtils.IsUniqueName(existing, FileUtils.ExtractFileName(decoded), record.fileName.value)
    ensures old(record.fileName).Some? ==> record.fileName == old(record.fileName)
    ensures record.Val() == old(record.Val()).(fileName := record.fileName)
  {
    if record.fileName.None? {
      var name := FileUtils.GetUniqueFileName(existing, decoded);
      record.fileName := Some(name);
    }
  }

  class ChunkManager {
    const record: DownloadRecord
    var chunkMap: map<string, ChunkInfo>

    ghost predicate Valid()
      reads this`chunkMap
    {
      WellKeyed(chunkMap)
    }

    constructor (record: DownloadRecord)
      ensures this.record == record && chunkMap == map[] && Valid()
    {
      this.record := record;
      chunkMap := map[];
    }

    method CreateSingleStreamChunk()
      requires Valid()
      modifies this
      ensures Valid()
      ensures chunkMap.Keys == old(chunkMap.Keys) + {StreamId}
      ensures fresh(chunkMap[StreamId]) && chunkMap[StreamId].Val() == Fresh(StreamId, 0, -1, 0, 0)
      ensures forall k :: k in old(chunkMap) && k != StreamId ==> chunkMap[k] == old(chunkMap[k])
    {
      chunkMap := AddStreamChunk(chunkMap);
    }

    /** splitChunks(count), with the fresh ids the UUIDs give. */
    method SplitChunks(count: int, ids: seq<string>)
      requires Valid() && record.totalSize.Some?
      requires count >= 1 && |ids| == count && Distinct(ids)
      requires forall i :: 0 <= i < count ==> ids[i] !in chunkMap
      modifies this
      ensures Valid()
      ensures chunkMap.Keys == old(chunkMap.Keys) + set i | 0 <= i < count :: ids[i]
      ensures forall k :: k in old(chunkMap) ==> chunkMap[k] == old(chunkMap[k])
      ensures forall i :: 0 <= i < count ==>
        fresh(chunkMap[ids[i]]) && chunkMap[ids[i]].Val() == Planned(ids[i], record.totalSize.value, count, i)
    {
      chunkMap := SplitInto(chunkMap, record.totalSize.value, count, ids);
    }

    /** performSplit(parent), with the fresh id the UUID gives. */
    method PerformSplit(parent: ChunkInfo, newId: string)
      requires Valid() && newId !in chunkMap && newId != parent.id
      modifies this, parent
      ensures Valid()
      ensures parent.Val() == old(parent.Val()).(end := SplitMid(old(parent.current), old(parent.end)))
      ensures newId in chunkMap && fresh(chunkMap[newId]) && chunkMap == old(chunkMap)[newId := chunkMap[newId]]
      ensures chunkMap[newId].Val() == Fresh(newId, SplitMid(old(parent.current), old(parent.end)) + 1, old(parent.end),
                                            SplitMid(old(parent.current), old(parent.end)) + 1, parent.colorIndex + 1)
      ensures forall k :: k in old(chunkMap) && old(chunkMap[k]) != parent ==> chunkMap[k].Val() == old(chunkMap[k].Val())
    {
      var m, child := SplitOn(chunkMap, parent, newId);
      chunkMap := m;
    }

    /**
     * saveChunks: on a non-empty map, one record per chunk, in the map's
     * iteration order (any order), stored as the snapshot; an empty map
     * leaves the record untouched.
     */
    method SaveChunks() returns (ghost recs: seq<ChunkRecord>)
      requires Valid()
      modifies record
      ensures chunkMap == map[] ==> record.Val() == old(record.Val())
      ensures chunkMap != map[] ==>
        Enumerates(recs, View(chunkMap)) && record.Val() == old(record.Val()).(chunksJson := Some(Goods(recs)))
    {
      recs := [];
      if chunkMap != map[] {
        var chunkList := ListChunks();
        record.chunksJson := Some(Goods(chunkList));
        recs := chunkList;
      }
    }

    /** The loop of saveChunks: the record of every chunk, once each, in the map's iteration order. */
    method ListChunks() returns (chunkList: seq<ChunkRecord>)
      requires Valid()
      ensures Enumerates(chunkList, View(chunkMap))
    {
      chunkList := [];
      var todo := chunkMap.Keys;
      ghost var v := View(chunkMap);
      while todo != {}
        invariant todo <= chunkMap.Keys
        invariant EnumeratesAmong(chunkList, v, chunkMap.Keys - todo)
        decreases todo
      {
        var k :| k in todo;
        var chunk := chunkMap[k];
        assert v[k] == chunk.Val();
        EnumeratesAppend(chunkList, v, chunkMap.Keys - todo, k);
        chunkList := chunkList + [ChunkRecord(chunk.id, chunk.start, chunk.end, chunk.GetCurrentPos(), chunk.colorIndex, chunk.finished)];
        assert chunkMap.Keys - todo + {k} == chunkMap.Keys - (todo - {k});
        todo := todo - {k};
      }
    }

    /** restoreChunks: the snapshot's entries put into the map; no snapshot, no change. */
    method RestoreChunks()
      requires Valid()
      modifies this
      ensures Valid()
      ensures View(chunkMap) == if record.chunksJson.None? then old(View(chunkMap))
                                else RestoreView(old(View(chunkMap)), record.chunksJson.value)
    {
      if record.chunksJson.Some? {
        var chunkList := record.chunksJson.value;
        ghost var start := View(chunkMap);
        var i := 0;
        while i < |chunkList|
          invariant 0 <= i <= |chunkList|
          invariant Valid()
          invariant RestoreView(View(chunkMap), chunkList[i..]) == RestoreView(start, chunkList)
        {
          if chunkList[i].Malformed? {
            break;
          }
          var r := chunkList[i].rec;
          assert chunkList[i..][1..] == chunkList[i + 1..];
          PutRestored(r);
          i := i + 1;
        }
      }
    }

    /** One step of restoreChunks: a chunk built from r put under r's id. */
    method PutRestored(r: ChunkRecord)
      requires Valid()
      modifies this`chunkMap
      ensures Valid() && View(chunkMap) == old(View(chunkMap))[r.id := Restored(r)]
    {
      var chunk := new ChunkInfo(r.id, r.start, r.end, r.current, r.colorIndex);
      chunk.SetFinished(r.finished);
      chunkMap := chunkMap[r.id := chunk];
    }

    /** parseResponseHeaders: the size from the headers if they give one, range support if advertised. */
    method ParseResponseHeaders(h: Headers)
      modifies record
      ensures (record.totalSize, record.supportRange) == ApplyHeaders(h, old(record.totalSize), old(record.supportRange))
      ensures record.Val() == old(record.Val()).(totalSize := record.totalSize, supportRange := record.supportRange)
    {
      var t := ParsedTotal(h);
      if t.Some? {
        record.totalSize := t;
      }
      if AdvertisesRanges(h) {
        record.supportRange := Some(true);
      }
    }

    /**
     * Steps 1 and 2 of prepare: HEAD, then the ranged GET while the size is
     * unknown. failed is the GET throwing. On success the size is positive
     * exactly when the probe goes on to preallocate, and otherwise step 4's
     * fallback remains to be applied.
     */
    method ProbeSize(head: HeadOutcome, get: GetOutcome) returns (failed: bool)
      modifies record
      ensures var st := RunProbe(head, get, old(record.totalSize), old(record.supportRange));
        && failed == st.getFailed
        && (failed || st.allocate ==> record.totalSize == st.totalSize && record.supportRange == st.supportRange)
        && (!failed ==> (st.allocate <==> record.totalSize.Some? && record.totalSize.value > 0))
        && (!failed && !st.allocate ==>
              st.totalSize == (if record.totalSize.None? then Some(-1) else record.totalSize) && st.supportRange == Some(false))
      ensures record.fileName == old(record.fileName) && record.status == old(record.status)
      ensures record.chunksJson == old(record.chunksJson)
    {
      if head.HeadResponse? && head.statusCode == 200 {
        ParseResponseHeaders(head.headers);
      }
      if SizeUnknown(record.totalSize) {
        if get.GetFailed? {
          return true;
        }
        ParseResponseHeaders(get.headers);
      }
      failed := false;
    }

    /**
     * prepare: the probe, the file name when none is set yet, then
     * preallocation of a file of known positive size, or -1 for a missing
     * size with range support switched off. ok is false where prepare
     * throws: the GET fails, or the file cannot be preallocated.
     */
    method Prepare(head: HeadOutcome, get: GetOutcome, existing: set<string>, decoded: Option<string>,
                   file: DiskFile, allocOk: bool) returns (ok: bool)
      modifies record, file
      ensures var st := RunProbe(head, get, old(record.totalSize), old(record.supportRange));
        && record.totalSize == st.totalSize
        && record.supportRange == st.supportRange
        && ok == (!st.getFailed && (st.allocate ==> allocOk))
        && (!st.getFailed && old(record.fileName).None? ==>
              record.fileName.Some? && FileUtils.IsUniqueName(existing, FileUtils.ExtractFileName(decoded), record.fileName.value))
        && (st.getFailed || old(record.fileName).Some? ==> record.fileName == old(record.fileName))
        && file.bytes == (if ok && st.allocate then SetLength(old(file.bytes), st.totalSize.value) else old(file.bytes))
      ensures record.status == old(record.status) && record.chunksJson == old(record.chunksJson)
    {
      ghost var st := RunProbe(head, get, record.totalSize, record.supportRange);
      var failed := ProbeSize(head, get);
      if failed {
        return false;
      }
      ChooseFileName(record, existing, decoded);
      ok := Preallocate(file, allocOk);
    }

    /**
     * Step 4 of prepare: a file of the known positive size (ok is false when
     * it cannot be created); otherwise -1 for a missing size and range
     * support off.
     */
    method Preallocate(file: DiskFile, allocOk: bool) returns (ok: bool)
      modifies record, file
      ensures var t := old(record.totalSize);
        if t.Some? && t.value > 0 then
          && ok == allocOk
          && record.Val() == old(record.Val())
          && file.bytes == (if allocOk then SetLength(old(file.bytes), t.value) else old(file.bytes))
        else
          && ok
          && record.Val() == old(record.Val()).(totalSize := if t.None? then Some(-1) else t, supportRange := Some(false))
          && file.bytes == old(file.bytes)
    {
      if record.totalSize.Some? && record.totalSize.value > 0 {
        if !allocOk {
          return false;
        }
        file.bytes := SetLength(file.bytes, record.totalSize.value);
      } else {
        if record.totalSize.None? {
          record.totalSize := Some(-1);
        }
        record.supportRange := Some(false);
      }
      ok := true;
    }
  }
}
