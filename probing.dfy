/**
 * What the metadata probe learns from response headers, and the decision
 * taken after probing. Header semantics follow sections 2.3 (Accept-Ranges)
 * and 4.2 (Content-Range) of RFC 7233; the requests themselves are outside
 * the model, their outcomes are parameters.
 */
module Probing {
  import opened Wrappers
  import opened Numerals
  import opened FileUtils

  /** The first value of each header the probe reads; None when the response lacks it. */
  datatype Headers = Headers(contentLength: Option<string>, acceptRanges: Option<string>, contentRange: Option<string>)

  /** The HEAD request: it threw, or it answered with a status code and headers. */
  datatype HeadOutcome = HeadFailed | HeadResponse(statusCode: int, headers: Headers)

  /** The ranged GET request (`Range: bytes=0-0`): it threw, or it answered. */
  datatype GetOutcome = GetFailed | GetResponse(headers: Headers)

  /**
   * The total size parseResponseHeaders stores, or None when it leaves the
   * size alone: no Content-Length, or a number that does not parse (including
   * the total of a Content-Range whose last '/' is past index 0).
   */
  function ParsedTotal(h: Headers): (r: Option<int>)
    ensures h.contentLength.None? ==> r.None?
    ensures r.Some? ==> InLong(r.value)
    ensures h.contentLength.Some? && ParseLong(h.contentLength.value).None? ==> r.None?
    ensures h.contentLength.Some? && h.contentRange.None? ==> r == ParseLong(h.contentLength.value)
    ensures h.contentLength.Some? && ParseLong(h.contentLength.value).Some? && h.contentRange.Some? ==>
      var slash := LastIndexOf(h.contentRange.value, '/');
      && (slash <= 0 ==> r == ParseLong(h.contentLength.value))
      && (slash > 0 ==> r == ParseLong(h.contentRange.value[slash + 1..]))
  {
    match h.contentLength
    case None => None
    case Some(lenText) =>
      match ParseLong(lenText)
      case None => None
      case Some(len) =>
        match h.contentRange
        case None => Some(len)
        case Some(val) =>
          var slash := LastIndexOf(val, '/');
          if slash > 0 then ParseLong(val[slash + 1..]) else Some(len)
  }

  /** The characters Java's equalsIgnoreCase matches with the lower-case ASCII letter t. */
  predicate MatchesIgnoringCase(c: char, t: char)
    requires 'a' <= t <= 'z'
  {
    c == t || c as int == t as int - 32
    // U+017F LATIN SMALL LETTER LONG S upper-cases to 'S'
    || (t == 's' && c == 'ſ')
  }

  /** "bytes".equalsIgnoreCase(v) */
  predicate IsBytesUnit(v: string) {
    var bytes := "bytes";
    |v| == |bytes| && forall i :: 0 <= i < |v| ==> MatchesIgnoringCase(v[i], bytes[i])
  }

  /** The response advertises byte ranges: `Accept-Ranges: bytes` in any letter case. */
  predicate AdvertisesRanges(h: Headers) {
    h.acceptRanges.Some? && IsBytesUnit(h.acceptRanges.value)
  }

  /** The fields prepare settles: total size and range flag, and what it did to get them. */
  datatype ProbeState = ProbeState(
    totalSize: Option<int>,
    supportRange: Option<bool>,
    getSent: bool,
    getFailed: bool,
    allocate: bool)

  /** parseResponseHeaders applied to a size and a range flag. */
  function ApplyHeaders(h: Headers, total: Option<int>, range: Option<bool>): (r: (Option<int>, Option<bool>))
    ensures ParsedTotal(h).Some? ==> r.0 == ParsedTotal(h)
    ensures ParsedTotal(h).None? ==> r.0 == total
    ensures r.0 != total ==> r.0.Some? && InLong(r.0.value)
    ensures AdvertisesRanges(h) ==> r.1 == Some(true)
    ensures !AdvertisesRanges(h) ==> r.1 == range
    ensures range == Some(true) ==> r.1 == Some(true)
    ensures r.1 == Some(false) ==> range == Some(false)
  {
    (if ParsedTotal(h).Some? then ParsedTotal(h) else total,
     if AdvertisesRanges(h) then Some(true) else range)
  }

  /** The size is not yet known to be positive, so the ranged GET probe is needed. */
  predicate SizeUnknown(total: Option<int>) {
    total.None? || total.value <= 0
  }

  /**
   * Steps 1, 2 and 4 of prepare: HEAD (parsed only on status 200), the
   * ranged GET when the size is still unknown (its failure aborts prepare),
   * then preallocation for a positive size or, otherwise, -1 for a missing
   * size and range support switched off.
   */
  function RunProbe(head: HeadOutcome, get: GetOutcome, total0: Option<int>, range0: Option<bool>): (st: ProbeState)
    ensures var afterHead := if head.HeadResponse? && head.statusCode == 200 then ApplyHeaders(head.headers, total0, range0).0 else total0;
      st.getSent <==> SizeUnknown(afterHead)
    ensures var (afterHead, rangeAfterHead) :=
        if head.HeadResponse? && head.statusCode == 200 then ApplyHeaders(head.headers, total0, range0) else (total0, range0);
      && (!st.getSent ==> st.totalSize == afterHead && st.supportRange == rangeAfterHead)
      && (st.getFailed ==> st.totalSize == afterHead && st.supportRange == rangeAfterHead)
      && (st.getSent && get.GetResponse? && ParsedTotal(get.headers).Some? ==> st.totalSize == ParsedTotal(get.headers))
      && (st.getSent && get.GetResponse? && ParsedTotal(get.headers).None? ==>
            st.totalSize == (if afterHead.None? then Some(-1) else afterHead))
      && (st.getSent && st.allocate && get.GetResponse? ==>
            st.supportRange == (if AdvertisesRanges(get.headers) then Some(true) else rangeAfterHead))
    ensures st.getFailed <==> st.getSent && get.GetFailed?
    ensures !st.getFailed ==> st.totalSize.Some?
    ensures !st.getFailed ==> (st.allocate <==> st.totalSize.value > 0)
    ensures !st.getFailed && !st.allocate ==> st.supportRange == Some(false)
    ensures st.getFailed ==> !st.allocate
    ensures range0.Some? ==> st.supportRange.Some?
  {
    var (t1, r1) := if head.HeadResponse? && head.statusCode == 200 then ApplyHeaders(head.headers, total0, range0) else (total0, range0);
    if !SizeUnknown(t1) then
      ProbeState(t1, r1, false, false, true)
    else
      match get
      case GetFailed => ProbeState(t1, r1, true, true, false)
      case GetResponse(h) =>
        var (t2, r2) := ApplyHeaders(h, t1, r1);
        if t2.Some? && t2.value > 0 then ProbeState(t2, r2, true, false, true)
        else ProbeState(if t2.None? then Some(-1) else t2, Some(false), true, false, false)
  }

  /** A Content-Range total wins over Content-Length: `bytes 0-0/12345` gives 12345. */
  lemma {:induction false} ContentRangeTotalWins(lenText: string, unit: string, total: int, ranges: Option<string>)
    requires ParseLong(lenText).Some? && |unit| > 0 && InLong(total)
    ensures ParsedTotal(Headers(Some(lenText), ranges, Some(unit + "/" + IntToString(total)))) == Some(total)
  {
    var digits := IntToString(total);
    var val := unit + "/" + digits;
    assert '/' !in digits by {
      if total < 0 {
        assert digits[1..] == NatToString(-total);
        assert forall i :: 1 <= i < |digits| ==> digits[i] == NatToString(-total)[i - 1];
      }
    }
    LastSlashBefore(unit, digits);
    ParseLongOfIntToString(total);
  }

  /** A Content-Range whose total is not a number (an asterisk after the slash) leaves the size untouched. */
  lemma UnparsableTotalIgnored(lenText: string, unit: string, ranges: Option<string>)
    requires |unit| > 0
    ensures ParsedTotal(Headers(Some(lenText), ranges, Some(unit + "/*"))) == None
  {
    LastSlashBefore(unit, "*");
    assert unit + "/*" == unit + "/" + "*";
    assert !AllDigits("*") by { assert !IsDigit("*"[0]); }
    assert ParseLong("*") == None;
  }

  /** Accept-Ranges examples: bytes in three letter cases is recognised; another unit, a trailing space and an empty value are not. */
  lemma BytesUnitCases()
    ensures IsBytesUnit("bytes") && IsBytesUnit("BYTES") && IsBytesUnit("Bytes")
    ensures !IsBytesUnit("none") && !IsBytesUnit("bytes ") && !IsBytesUnit("")
  {
    assert !MatchesIgnoringCase('n', 'b');
  }

  /** Range support is never withdrawn by a response, only advertised. */
  lemma HeadersNeverClearRange(h: Headers, total: Option<int>)
    ensures ApplyHeaders(h, total, Some(true)).1 == Some(true)
  {
  }

  /** After a successful probe a size of -1 stands for a size no response gave. */
  lemma {:induction false} MissingSizeBecomesMinusOne(head: HeadOutcome, get: GetOutcome, range0: Option<bool>)
    requires head.HeadFailed? && get.GetResponse? && ParsedTotal(get.headers).None?
    ensures RunProbe(head, get, None, range0) == ProbeState(Some(-1), Some(false), true, false, false)
  {
  }
}
