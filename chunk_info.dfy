/**
 * One chunk of a download: a fixed identity and byte range plus the mutable
 * progress counters that its worker and the monitor update.
 */
module ChunkModel {

  /** The observable state of a chunk, for specifications. */
  datatype ChunkVal = ChunkVal(
    id: string,
    start: int,
    end: int,
    current: int,
    speed: int,
    errorCount: int,
    finished: bool,
    colorIndex: int,
    lastRecordBytes: int)

  /** What one persisted snapshot entry carries: errorCount, speed and lastRecordBytes are not saved. */
  datatype ChunkRecord = ChunkRecord(id: string, start: int, end: int, current: int, colorIndex: int, finished: bool)

  /** The state of a chunk the constructor has just built. */
  function Fresh(id: string, start: int, end: int, current: int, colorIndex: int): ChunkVal {
    ChunkVal(id, start, end, current, 0, 0, false, colorIndex, current)
  }

  /** The snapshot entry of a chunk. */
  function RecordOf(v: ChunkVal): ChunkRecord {
    ChunkRecord(v.id, v.start, v.end, v.current, v.colorIndex, v.finished)
  }

  class ChunkInfo {
    const id: string
    const start: int
    var end: int
    /** The atomic absolute write position. */
    var current: int
    var speed: int
    var errorCount: int
    var finished: bool
    const colorIndex: int
    var lastRecordBytes: int

    function Val(): ChunkVal
      reads this
    {
      ChunkVal(id, start, end, current, speed, errorCount, finished, colorIndex, lastRecordBytes)
    }

    constructor (id: string, start: int, end: int, current: int, colorIndex: int)
      ensures Val() == Fresh(id, start, end, current, colorIndex)
    {
      this.id := id;
      this.start := start;
      this.end := end;
      this.current := current;
      this.lastRecordBytes := current;
      this.finished := false;
      this.errorCount := 0;
      this.colorIndex := colorIndex;
      this.speed := 0;
    }

    /** The value of the atomic position counter. */
    function GetCurrentPos(): (r: int)
      reads this
      ensures r == Val().current
    {
      current
    }

    method SetEnd(e: int)
      modifies this
      ensures Val() == old(Val()).(end := e)
    {
      end := e;
    }

    method SetFinished(f: bool)
      modifies this
      ensures Val() == old(Val()).(finished := f)
    {
      finished := f;
    }

    method SetErrorCount(n: int)
      modifies this
      ensures Val() == old(Val()).(errorCount := n)
    {
      errorCount := n;
    }

    method SetSpeed(s: int)
      modifies this
      ensures Val() == old(Val()).(speed := s)
    {
      speed := s;
    }

    method SetLastRecordBytes(b: int)
      modifies this
      ensures Val() == old(Val()).(lastRecordBytes := b)
    {
      lastRecordBytes := b;
    }

    /** current.set(p) */
    method SetCurrent(p: int)
      modifies this
      ensures Val() == old(Val()).(current := p)
    {
      current := p;
    }

    /** current.addAndGet(n) */
    method AddCurrent(n: int) returns (r: int)
      modifies this
      ensures Val() == old(Val()).(current := old(current) + n) && r == current
    {
      current := current + n;
      r := current;
    }
  }
}
