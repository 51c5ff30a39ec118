/**
 * Chunk planning shared by the chunk manager and the task context: the
 * chunk map, splitting `[0, totalSize)` into consecutive inclusive ranges,
 * the single-stream sentinel chunk, and bisecting a chunk's remaining range.
 * Chunk ids drawn from random UUIDs are parameters that are distinct and not
 * yet in use.
 */
module ChunkPlanning {
  import opened ChunkModel

  /** The id of the one chunk of a single-stream download. */
  const StreamId: string := "STREAM"

  /** Every chunk is filed under its own id. */
  predicate WellKeyed(m: map<string, ChunkInfo>) {
    forall k :: k in m ==> m[k].id == k
  }

  /** The state of every chunk of a map. */
  function View(m: map<string, ChunkInfo>): map<string, ChunkVal>
    reads m.Values
  {
    map k | k in m :: m[k].Val()
  }

  predicate Distinct(ids: seq<string>) {
    forall i, j :: 0 <= i < j < |ids| ==> ids[i] != ids[j]
  }

  /** Java's `/` on longs, which truncates toward zero. */
  function JavaDiv(a: int, b: int): (q: int)
    requires b > 0
    ensures a >= 0 ==> q == a / b
  {
    if a >= 0 then a / b else -((-a) / b)
  }

  /** The common length of all but the last planned chunk. */
  function BlockSize(total: int, count: int): int
    requires count >= 1
  {
    JavaDiv(total, count)
  }

  function PlannedStart(total: int, count: int, i: int): int
    requires count >= 1
  {
    i * BlockSize(total, count)
  }

  /** The last chunk absorbs the remainder. */
  function PlannedEnd(total: int, count: int, i: int): int
    requires count >= 1
  {
    if i == count - 1 then total - 1 else (i + 1) * BlockSize(total, count) - 1
  }

  /** The i-th chunk splitChunks creates. */
  function Planned(id: string, total: int, count: int, i: int): ChunkVal
    requires count >= 1
  {
    Fresh(id, PlannedStart(total, count, i), PlannedEnd(total, count, i), PlannedStart(total, count, i), i)
  }

  /**
   * The ranges lie end to end: chunk 0 starts at 0, each next chunk starts one
   * past the previous end, the last ends at total - 1, and all but the last
   * span total / count bytes. Only a file of at least count bytes gets a
   * non-empty range in every chunk.
   */
  lemma {:induction false} PlannedRangesConsecutive(total: int, count: int)
    requires 1 <= count && 1 <= total
    ensures PlannedStart(total, count, 0) == 0
    ensures forall i :: 0 <= i < count - 1 ==> PlannedStart(total, count, i + 1) == PlannedEnd(total, count, i) + 1
    ensures PlannedEnd(total, count, count - 1) == total - 1
    ensures forall i :: 0 <= i < count - 1 ==> PlannedEnd(total, count, i) - PlannedStart(total, count, i) + 1 == total / count
    ensures total >= count ==> forall i :: 0 <= i < count ==> PlannedStart(total, count, i) <= PlannedEnd(total, count, i)
  {
    var b := total / count;
    if total < count {
      assert b == 0;
      return;
    }
    assert b >= 1 by {
      assert total == b * count + total % count;
    }
    assert (count - 1) * b <= total - 1 by {
      assert total == b * count + total % count;
      assert (count - 1) * b == count * b - b;
    }
    forall i | 0 <= i < count ensures PlannedStart(total, count, i) <= PlannedEnd(total, count, i) {
      if i < count - 1 {
        assert (i + 1) * b == i * b + b;
      }
    }
    forall i | 0 <= i < count - 1
      ensures PlannedEnd(total, count, i) - PlannedStart(total, count, i) + 1 == total / count
    {
      assert (i + 1) * b == i * b + b;
    }
  }

  /** The one chunk that holds byte p; in a file smaller than count, the last. */
  function Owner(total: int, count: int, p: int): int
    requires 1 <= count && 1 <= total && 0 <= p
  {
    if total < count then count - 1
    else
      var q := p / (total / count);
      if q < count - 1 then q else count - 1
  }

  /**
   * A file of fewer bytes than chunks: the block size is 0, so every chunk but
   * the last is the empty range [0, -1] and the last is the whole file.
   */
  lemma SmallFileRanges(total: int, count: int)
    requires 1 <= total < count
    ensures forall i :: 0 <= i < count - 1 ==> PlannedStart(total, count, i) == 0 && PlannedEnd(total, count, i) == -1
    ensures PlannedStart(total, count, count - 1) == 0 && PlannedEnd(total, count, count - 1) == total - 1
  {
    assert BlockSize(total, count) == 0;
  }

  lemma DivisionBounds(p: int, b: int, i: int)
    requires b >= 1 && p >= 0 && i >= 0
    ensures i * b <= p < i * b + b <==> p / b == i
  {
    if i * b <= p < i * b + b {
      DivisionUnique(p, b, i, p - i * b);
    }
  }

  lemma {:induction false} MulAtLeast(d: int, b: int)
    requires b >= 0
    ensures d >= 1 ==> d * b >= b
    ensures d >= 0 ==> d * b >= 0
    decreases if d > 0 then d else 0
  {
    if d >= 1 {
      MulAtLeast(d - 1, b);
      assert d * b == (d - 1) * b + b;
    }
  }

  lemma DivisionUnique(p: int, b: int, i: int, r: int)
    requires b >= 1 && p == i * b + r && 0 <= r < b
    ensures p / b == i
  {
    var q, s := p / b, p % b;
    assert p == q * b + s && 0 <= s < b;
    assert (q - i) * b == q * b - i * b;
    assert (i - q) * b == i * b - q * b;
    MulAtLeast(q - i, b);
    MulAtLeast(i - q, b);
  }

  lemma QuotientAtLeast(p: int, b: int, i: int)
    requires b >= 1 && p >= 0 && i >= 0
    ensures i * b <= p <==> p / b >= i
  {
    var q, s := p / b, p % b;
    assert p == q * b + s && 0 <= s < b;
    assert (q - i) * b == q * b - i * b;
    assert (i - q) * b == i * b - q * b;
    MulAtLeast(q - i, b);
    MulAtLeast(i - q, b);
  }

  /** No gaps and no overlaps: each byte of [0, total) lies in exactly one planned range, that of Owner. */
  lemma {:induction false} PlannedRangesPartition(total: int, count: int, p: int, i: int)
    requires 1 <= count && 0 <= p < total && 0 <= i < count
    ensures PlannedStart(total, count, i) <= p <= PlannedEnd(total, count, i) <==> i == Owner(total, count, p)
  {
    var b := total / count;
    if total < count {
      SmallFileRanges(total, count);
      return;
    }
    assert b >= 1 by {
      assert total == b * count + total % count;
    }
    if i < count - 1 {
      assert (i + 1) * b == i * b + b;
      DivisionBounds(p, b, i);
      QuotientAtLeast(p, b, count - 1);
      if p / b >= count - 1 {
        assert i * b <= (count - 2) * b by {
          assert count - 2 >= i;
        }
        assert (count - 2) * b + b == (count - 1) * b;
      }
    } else {
      QuotientAtLeast(p, b, count - 1);
    }
  }

  /** splitChunks: count chunks with fresh ids, added beside the chunks already there. */
  method SplitInto(m: map<string, ChunkInfo>, total: int, count: int, ids: seq<string>) returns (r: map<string, ChunkInfo>)
    requires count >= 1 && |ids| == count && Distinct(ids)
    requires forall i :: 0 <= i < count ==> ids[i] !in m
    ensures r.Keys == m.Keys + set i | 0 <= i < count :: ids[i]
    ensures forall k :: k in m ==> r[k] == m[k]
    ensures forall i :: 0 <= i < count ==> fresh(r[ids[i]]) && r[ids[i]].Val() == Planned(ids[i], total, count, i)
    ensures WellKeyed(m) ==> WellKeyed(r)
  {
    r := m;
    var blockSize := JavaDiv(total, count);
    for i := 0 to count
      invariant r.Keys == m.Keys + set j | 0 <= j < i :: ids[j]
      invariant forall k :: k in m ==> r[k] == m[k]
      invariant forall j :: 0 <= j < i ==> fresh(r[ids[j]]) && r[ids[j]].Val() == Planned(ids[j], total, count, j)
      invariant forall k :: k in r && k !in m ==> r[k].id == k
    {
      var start := i * blockSize;
      var end := if i == count - 1 then total - 1 else (i + 1) * blockSize - 1;
      var chunk := new ChunkInfo(ids[i], start, end, start, i);
      r := r[chunk.id := chunk];
    }
  }

  /** createSingleStreamChunk: the sentinel chunk covering the whole body, end -1 meaning "until end of stream". */
  method AddStreamChunk(m: map<string, ChunkInfo>) returns (r: map<string, ChunkInfo>)
    ensures r.Keys == m.Keys + {StreamId}
    ensures forall k :: k in m && k != StreamId ==> r[k] == m[k]
    ensures fresh(r[StreamId]) && r[StreamId].Val() == Fresh(StreamId, 0, -1, 0, 0)
    ensures WellKeyed(m) ==> WellKeyed(r)
  {
    var chunk := new ChunkInfo(StreamId, 0, -1, 0, 0);
    r := m[chunk.id := chunk];
  }

  /** Where performSplit cuts the remaining range [current, end]. */
  function SplitMid(current: int, end: int): int {
    current + JavaDiv(end - current, 2)
  }

  /** Bisection of a non-empty remaining range: two non-empty halves, end to end, the first at most one byte longer. */
  lemma SplitHalves(current: int, end: int)
    requires current < end
    ensures var mid := SplitMid(current, end);
      current <= mid < end
      && (mid - current + 1) - (end - mid) in {0, 1}
  {
  }

  /** performSplit: the parent keeps [.., mid], a fresh chunk takes [mid+1, oldEnd] with the next colour. */
  method SplitOn(m: map<string, ChunkInfo>, parent: ChunkInfo, newId: string) returns (r: map<string, ChunkInfo>, child: ChunkInfo)
    requires newId !in m && newId != parent.id
    modifies parent
    ensures parent.Val() == old(parent.Val()).(end := SplitMid(old(parent.current), old(parent.end)))
    ensures fresh(child) && child.id == newId
    ensures child.Val() == Fresh(newId, SplitMid(old(parent.current), old(parent.end)) + 1, old(parent.end),
                                 SplitMid(old(parent.current), old(parent.end)) + 1, parent.colorIndex + 1)
    ensures r == m[newId := child]
  {
    var mid := parent.current + JavaDiv(parent.end - parent.current, 2);
    var oldEnd := parent.end;
    parent.SetEnd(mid);
    child := new ChunkInfo(newId, mid + 1, oldEnd, mid + 1, parent.colorIndex + 1);
    r := m[child.id := child];
  }
}
