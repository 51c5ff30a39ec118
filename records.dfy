/**
 * The persistent task record, the repository that stores copies of it, and
 * the destination file as a byte sequence.
 */
module Records {
  import opened Wrappers
  import opened ChunkModel

  type byte = b: int | 0 <= b < 256

  /** One element of the stored chunk snapshot: a well-formed record, or one whose fields do not cast. */
  datatype Entry = Good(rec: ChunkRecord) | Malformed

  /** The record's fields at one moment, as the repository stores them. */
  datatype RecordVal = RecordVal(
    id: string,
    url: string,
    savePath: string,
    fileName: Option<string>,
    totalSize: Option<int>,
    status: Option<string>,
    supportRange: Option<bool>,
    chunksJson: Option<seq<Entry>>)

  class DownloadRecord {
    const id: string
    const url: string
    const savePath: string
    var fileName: Option<string>
    /** null while unresolved, -1 once known to be unknowable. */
    var totalSize: Option<int>
    var status: Option<string>
    /** Nullable; the field initialiser makes it true. */
    var supportRange: Option<bool>
    /** The snapshot; None for a null or empty string. */
    var chunksJson: Option<seq<Entry>>

    function Val(): RecordVal
      reads this
    {
      RecordVal(id, url, savePath, fileName, totalSize, status, supportRange, chunksJson)
    }

    constructor (id: string, url: string, savePath: string)
      ensures Val() == RecordVal(id, url, savePath, None, None, None, Some(true), None)
    {
      this.id := id;
      this.url := url;
      this.savePath := savePath;
      fileName := None;
      totalSize := None;
      status := None;
      supportRange := Some(true);
      chunksJson := None;
    }
  }

  /** The record store: every save appends a copy of the record. */
  class Repository {
    var history: seq<RecordVal>

    constructor ()
      ensures history == []
    {
      history := [];
    }

    method Save(r: DownloadRecord)
      modifies this
      ensures history == old(history) + [r.Val()]
    {
      history := history + [r.Val()];
    }
  }

  /** The destination file. */
  class DiskFile {
    var bytes: seq<byte>

    constructor ()
      ensures bytes == []
    {
      bytes := [];
    }
  }

  /** n zero bytes. */
  function Zeros(n: nat): (z: seq<byte>)
    ensures |z| == n && forall i :: 0 <= i < n ==> z[i] == 0
  {
    if n == 0 then [] else Zeros(n - 1) + [0]
  }

  /** RandomAccessFile.setLength: truncate, or extend; the extension is zero, as POSIX ftruncate gives it. */
  function SetLength(f: seq<byte>, n: nat): (g: seq<byte>)
    ensures |g| == n
    ensures forall i :: 0 <= i < n && i < |f| ==> g[i] == f[i]
    ensures forall i :: |f| <= i < n ==> g[i] == 0
  {
    if n <= |f| then f[..n] else f + Zeros(n - |f|)
  }
}
