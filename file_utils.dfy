/**
 * Choosing the destination file name: the URL's last path segment (without
 * query and fragment) when it looks like a file name, a fixed fallback
 * otherwise, made unique in the save directory by a "(k)" suffix before the
 * extension. URL decoding is a foreign call: its outcome is the parameter
 * `decoded` (None when it throws). The save directory is the finite set of
 * names that exist in it.
 */
module FileUtils {
  import opened Wrappers
  import opened Numerals

  const Fallback: string := "downloaded_file"

  /** String.lastIndexOf(c): the last index holding c, or -1. */
  function LastIndexOf(s: string, c: char): (r: int)
    ensures -1 <= r < |s|
    ensures r >= 0 ==> s[r] == c && forall i :: r < i < |s| ==> s[i] != c
    ensures r == -1 <==> c !in s
  {
    if |s| == 0 then -1
    else if s[|s| - 1] == c then |s| - 1
    else LastIndexOf(s[..|s| - 1], c)
  }

  /** String.indexOf(c): the first index holding c, or -1. */
  function IndexOf(s: string, c: char): (r: int)
    ensures -1 <= r < |s|
    ensures r >= 0 ==> s[r] == c && forall i :: 0 <= i < r ==> s[i] != c
    ensures r == -1 <==> c !in s
  {
    if |s| == 0 then -1
    else if s[0] == c then 0
    else
      var k := IndexOf(s[1..], c);
      assert forall i :: 1 <= i < |s| ==> s[i] == s[1..][i - 1];
      if k < 0 then -1 else k + 1
  }

  /** Cut s at the first c, but only when that c is not the first character. */
  function CutAtFirst(s: string, c: char): (r: string)
    ensures r <= s
    ensures IndexOf(s, c) > 0 ==> |r| == IndexOf(s, c) && c !in r
    ensures IndexOf(s, c) <= 0 ==> r == s
  {
    var i := IndexOf(s, c);
    if i > 0 then s[..i] else s
  }

  /** The text after the last '/' of u (all of u when it has none). */
  function LastSegment(u: string): string {
    u[LastIndexOf(u, '/') + 1..]
  }

  /** extractFileNameFromUrl: the cut last segment when it is a usable name, the fallback otherwise. */
  function ExtractFileName(decoded: Option<string>): (r: string)
    ensures r == Fallback || '.' in r
    ensures decoded.None? ==> r == Fallback
    ensures decoded.Some? && ('/' !in decoded.value || decoded.value[|decoded.value| - 1] == '/') ==> r == Fallback
    ensures r != Fallback ==> decoded.Some? && |r| > 0 && '/' !in r && r <= LastSegment(decoded.value)
    ensures decoded.Some? && Usable(decoded.value) ==> r == Candidate(decoded.value)
    ensures decoded.Some? && !Usable(decoded.value) ==> r == Fallback
  {
    match decoded
    case None => Fallback
    case Some(u) => NameOf(u)
  }

  /** extractFileName on a decoded URL: its last segment when one follows the last '/' and, cut, has a dot. */
  function NameOf(u: string): (r: string)
    ensures r == Fallback || '.' in r
    ensures '/' !in u || u[|u| - 1] == '/' ==> r == Fallback
    ensures r != Fallback ==> |r| > 0 && '/' !in r && r <= LastSegment(u)
    ensures Usable(u) ==> r == Candidate(u)
    ensures !Usable(u) ==> r == Fallback
  {
    var slash := LastIndexOf(u, '/');
    if 0 <= slash < |u| - 1 then
      var name := Candidate(u);
      if |name| > 0 && '.' in name then name else Fallback
    else Fallback
  }

  /** Some text follows the last '/', and with query and fragment cut off it is non-empty and has a dot. */
  predicate Usable(u: string) {
    0 <= LastIndexOf(u, '/') < |u| - 1 && |Candidate(u)| > 0 && '.' in Candidate(u)
  }

  /**
   * The last segment with query and fragment cut off. With q and h the first
   * '?' and '#' of the segment: it is the prefix ending at h when 0 < h and h
   * comes before any q > 0; otherwise the prefix ending at q when q > 0;
   * otherwise the whole segment. A mark at index 0 never cuts.
   */
  function Candidate(u: string): (name: string)
    ensures var seg, q, h := LastSegment(u), IndexOf(LastSegment(u), '?'), IndexOf(LastSegment(u), '#');
      && name <= seg && '/' !in name
      && (q > 0 ==> |name| <= q)
      && (h > 0 && (q <= 0 || h < q) ==> |name| == h)
      && (|name| < |seg| ==> |name| > 0 && (|name| == q || |name| == h))
  {
    var seg := LastSegment(u);
    var a := CutAtFirst(seg, '?');
    var name := CutAtFirst(a, '#');
    LastSegmentHasNoSlash(u);
    PrefixTransitive(name, a, seg);
    PrefixAvoids(name, seg, '/');
    IndexOfPrefix(seg, |a|, '#');
    assert a == seg[..|a|];
    name
  }

  /** The first c of a prefix of s is the first c of s, when it lies inside the prefix. */
  lemma IndexOfPrefix(s: string, n: nat, c: char)
    requires n <= |s|
    ensures IndexOf(s[..n], c) == if 0 <= IndexOf(s, c) < n then IndexOf(s, c) else -1
  {
    var i := IndexOf(s, c);
    var j := IndexOf(s[..n], c);
    if 0 <= i < n {
      assert s[..n][i] == c;
    }
  }

  lemma LastSegmentHasNoSlash(u: string)
    ensures '/' !in LastSegment(u)
  {
    SegmentCharsNotSlash(u);
  }

  lemma SegmentCharsNotSlash(u: string)
    ensures forall i :: 0 <= i < |LastSegment(u)| ==> LastSegment(u)[i] != '/'
  {
    var slash := LastIndexOf(u, '/');
    assert forall i :: slash < i < |u| ==> u[i] != '/';
  }

  lemma PrefixTransitive(a: string, b: string, c: string)
    requires a <= b && b <= c
    ensures a <= c
  {
    assert a == b[..|a|] && b == c[..|b|];
    assert a == c[..|a|];
  }

  lemma PrefixAvoids(a: string, b: string, x: char)
    requires a <= b && x !in b
    ensures x !in a
  {
    forall i | 0 <= i < |a| ensures a[i] != x {
      assert a[i] == b[i];
    }
  }

  /** Name body and extension: split at the last '.' only when it is not the first character. */
  function SplitName(name: string): (p: (string, string))
    ensures p.0 + p.1 == name
    ensures p.1 == [] || (|p.0| > 0 && p.1[0] == '.' && '.' !in p.1[1..])
    ensures p.1 == [] <==> LastIndexOf(name, '.') <= 0
  {
    var dot := LastIndexOf(name, '.');
    if dot > 0 then
      assert name[dot..][1..] == name[dot + 1..];
      (name[..dot], name[dot..])
    else (name, "")
  }

  /** The k-th alternative to a taken name: body + "(k)" + extension. */
  function Numbered(name: string, k: nat): string {
    var (body, ext) := SplitName(name);
    body + "(" + NatToString(k) + ")" + ext
  }

  /** r is the name the uniqueness search settles on for base. */
  ghost predicate IsUniqueName(existing: set<string>, base: string, r: string) {
    if base !in existing then r == base
    else exists k: nat {:trigger Numbered(base, k)} ::
      1 <= k && r == Numbered(base, k) && r !in existing
      && forall j: nat {:trigger Numbered(base, j)} :: 1 <= j < k ==> Numbered(base, j) in existing
  }

  /** Different counters give different names, which is why the search ends. */
  lemma NumberedInjective(name: string, j: nat, k: nat)
    ensures Numbered(name, j) == Numbered(name, k) ==> j == k
  {
    var (body, ext) := SplitName(name);
    var a, b := NatToString(j), NatToString(k);
    if Numbered(name, j) == Numbered(name, k) {
      var x, y := body + "(" + a + ")" + ext, body + "(" + b + ")" + ext;
      assert |a| == |b|;
      assert a == x[|body| + 1..|body| + 1 + |a|];
      assert b == y[|body| + 1..|body| + 1 + |b|];
      NatToStringInjective(j, k);
    }
  }

  /** The search has one possible outcome. */
  lemma UniqueNameDetermined(existing: set<string>, base: string, r1: string, r2: string)
    requires IsUniqueName(existing, base, r1) && IsUniqueName(existing, base, r2)
    ensures r1 == r2
  {
    if base in existing {
      var k1: nat :| 1 <= k1 && r1 == Numbered(base, k1) && r1 !in existing
        && forall j: nat {:trigger Numbered(base, j)} :: 1 <= j < k1 ==> Numbered(base, j) in existing;
      var k2: nat :| 1 <= k2 && r2 == Numbered(base, k2) && r2 !in existing
        && forall j: nat {:trigger Numbered(base, j)} :: 1 <= j < k2 ==> Numbered(base, j) in existing;
      if k1 < k2 {
        assert false;
      } else if k2 < k1 {
        assert false;
      }
    }
  }

  /** The first n - 1 numbered alternatives. */
  ghost function NumberedSet(name: string, n: nat): set<string> {
    set j: nat | 1 <= j < n :: Numbered(name, j)
  }

  lemma NumberedSetStep(name: string, n: nat)
    requires n >= 1
    ensures NumberedSet(name, n + 1) == NumberedSet(name, n) + {Numbered(name, n)}
    ensures Numbered(name, n) !in NumberedSet(name, n)
  {
    forall x ensures x in NumberedSet(name, n + 1) <==> x in NumberedSet(name, n) + {Numbered(name, n)} {
      if x in NumberedSet(name, n + 1) {
        var j: nat :| 1 <= j < n + 1 && x == Numbered(name, j);
        if j < n {
          assert x in NumberedSet(name, n);
        }
      }
      if x == Numbered(name, n) {
        assert x in NumberedSet(name, n + 1);
      }
      if x in NumberedSet(name, n) {
        var j: nat :| 1 <= j < n && x == Numbered(name, j);
        assert x in NumberedSet(name, n + 1);
      }
    }
    if Numbered(name, n) in NumberedSet(name, n) {
      var j: nat :| 1 <= j < n && Numbered(name, j) == Numbered(name, n);
      NumberedInjective(name, j, n);
    }
  }

  lemma UniqueNameIntro(existing: set<string>, base: string, k: nat)
    requires base in existing && 1 <= k && Numbered(base, k) !in existing
    requires forall j: nat {:trigger Numbered(base, j)} :: 1 <= j < k ==> Numbered(base, j) in existing
    ensures IsUniqueName(existing, base, Numbered(base, k))
  {
  }

  /** getUniqueFileName: the extracted name, or its first numbered alternative that is free. */
  method GetUniqueFileName(existing: set<string>, decoded: Option<string>) returns (r: string)
    ensures r !in existing
    ensures IsUniqueName(existing, ExtractFileName(decoded), r)
  {
    var fileName := ExtractFileName(decoded);
    if fileName !in existing {
      return fileName;
    }
    r := FirstFree(existing, fileName);
  }

  /** The counter loop of getUniqueFileName: name(1), name(2), ... until one is free. */
  method FirstFree(existing: set<string>, fileName: string) returns (r: string)
    requires fileName in existing
    ensures r !in existing && IsUniqueName(existing, fileName, r)
  {
    var counter: nat := 1;
    while true
      invariant counter >= 1
      invariant NumberedSet(fileName, counter) <= existing
      invariant forall j: nat {:trigger Numbered(fileName, j)} :: 1 <= j < counter ==> Numbered(fileName, j) in existing
      decreases existing - NumberedSet(fileName, counter)
    {
      var newName := Numbered(fileName, counter);
      if newName !in existing {
        UniqueNameIntro(existing, fileName, counter);
        return newName;
      }
      NumberedSetStep(fileName, counter);
      counter := counter + 1;
    }
  }

  /** A free name is kept; a taken "report.pdf" becomes "report(1).pdf". */
  lemma ReportExample()
    ensures IsUniqueName({}, "report.pdf", "report.pdf")
    ensures IsUniqueName({"report.pdf"}, "report.pdf", "report(1).pdf")
  {
    assert LastIndexOf("report.pdf", '.') == 6;
    assert "report.pdf"[..6] == "report" && "report.pdf"[6..] == ".pdf";
    assert SplitName("report.pdf") == ("report", ".pdf");
    assert Numbered("report.pdf", 1) == "report(1).pdf";
  }

  /** test.zip -> test(1).zip -> test(2).zip */
  lemma SecondSuffixExample()
    ensures IsUniqueName({"test.zip", "test(1).zip"}, "test.zip", "test(2).zip")
  {
    assert LastIndexOf("test.zip", '.') == 4;
    assert "test.zip"[..4] == "test" && "test.zip"[4..] == ".zip";
    assert SplitName("test.zip") == ("test", ".zip");
    assert Numbered("test.zip", 1) == "test(1).zip";
    assert Numbered("test.zip", 2) == "test(2).zip";
    UniqueNameIntro({"test.zip", "test(1).zip"}, "test.zip", 2);
  }

  /** A name without a dot past its first character gets the suffix at its end. */
  lemma DotlessExample()
    ensures Numbered(Fallback, 1) == "downloaded_file(1)"
    ensures Numbered(".bashrc", 1) == ".bashrc(1)"
  {
    assert LastIndexOf(Fallback, '.') == -1;
    assert LastIndexOf(".bashrc", '.') == 0;
  }

  lemma LastSlashBefore(path: string, seg: string)
    requires '/' !in seg
    ensures LastIndexOf(path + "/" + seg, '/') == |path|
    ensures (path + "/" + seg)[|path| + 1..] == seg
  {
    var u := path + "/" + seg;
    assert u[|path|] == '/';
    assert forall i :: |path| < i < |u| ==> u[i] == seg[i - |path| - 1];
    assert u[|path| + 1..] == seg;
  }

  lemma FirstMarkAfter(name: string, c: char, rest: string)
    requires c !in name
    ensures IndexOf(name + [c] + rest, c) == |name| && (name + [c] + rest)[..|name|] == name
  {
    var seg := name + [c] + rest;
    assert seg[|name|] == c;
    assert forall i :: 0 <= i < |name| ==> seg[i] == name[i];
    assert seg[..|name|] == name;
  }

  /** A plain last segment with a dot is the name. */
  lemma PlainSegmentIsName(path: string, name: string)
    requires '/' !in name && '?' !in name && '#' !in name && '.' in name
    ensures ExtractFileName(Some(path + "/" + name)) == name
  {
    LastSlashBefore(path, name);
  }

  /** A query string after the name is dropped. */
  lemma QueryIsDropped(path: string, name: string, query: string)
    requires '/' !in name && '?' !in name && '#' !in name && |name| > 0 && '.' in name && '/' !in query
    ensures ExtractFileName(Some(path + "/" + name + "?" + query)) == name
  {
    var seg := name + "?" + query;
    assert '/' !in seg by {
      assert forall i :: 0 <= i < |seg| ==> seg[i] == (if i < |name| then name[i] else if i == |name| then '?' else query[i - |name| - 1]);
    }
    var u := path + "/" + seg;
    assert path + "/" + name + "?" + query == u;
    LastSlashBefore(path, seg);
    assert LastSegment(u) == seg;
    FirstMarkAfter(name, '?', query);
    assert CutAtFirst(name, '#') == name;
    assert Candidate(u) == name;
  }

  /** A fragment after the name is dropped. */
  lemma FragmentIsDropped(path: string, name: string, fragment: string)
    requires '/' !in name && '?' !in name && '#' !in name && |name| > 0 && '.' in name
    requires '/' !in fragment && '?' !in fragment
    ensures ExtractFileName(Some(path + "/" + name + "#" + fragment)) == name
  {
    var seg := name + "#" + fragment;
    assert '/' !in seg && '?' !in seg by {
      assert forall i :: 0 <= i < |seg| ==> seg[i] == (if i < |name| then name[i] else if i == |name| then '#' else fragment[i - |name| - 1]);
    }
    var u := path + "/" + seg;
    assert path + "/" + name + "#" + fragment == u;
    LastSlashBefore(path, seg);
    assert LastSegment(u) == seg;
    FirstMarkAfter(name, '#', fragment);
    assert Candidate(u) == name;
  }
}
