/**
 * The image links of controllers/book.js: the handlers store
 * `${req.protocol}://${req.get("host")}/images/${filename}` as a book's
 * `imageUrl` (lines 30 and 61-63) and later recover the file name with
 * `book.imageUrl.split("/images/")[1]` (lines 76 and 99).
 */
module BookUrls {
  import opened Wrappers

  const ImagesSegment := "/images/"

  /** The link stored in `imageUrl` for an uploaded file. */
  function ImageUrl(protocol: string, host: string, filename: string): string {
    protocol + "://" + host + ImagesSegment + filename
  }

  /** Everything the link holds before the "/images/" the builder inserts. */
  function UrlOrigin(protocol: string, host: string): string {
    protocol + "://" + host
  }

  predicate OccursAt(s: string, pat: string, i: nat) {
    i + |pat| <= |s| && s[i..i + |pat|] == pat
  }

  /** `pat` occurs nowhere in `s`. */
  ghost predicate NoOccurrence(s: string, pat: string) {
    forall j: nat :: !OccursAt(s, pat, j)
  }

  /** `s.indexOf(pat, k)`, None standing for -1. */
  function IndexFrom(s: string, pat: string, k: nat): (r: Option<nat>)
    requires |pat| > 0
    ensures r.Some? ==> k <= r.value && r.value + |pat| <= |s|
    decreases |s| - k
  {
    if k + |pat| > |s| then None
    else if s[k..k + |pat|] == pat then Some(k)
    else IndexFrom(s, pat, k + 1)
  }

  /**
   * `indexOf` finds the first occurrence at or after `k`, and answers -1
   * exactly when there is none.
   */
  lemma {:induction false} IndexFromFinds(s: string, pat: string, k: nat)
    requires |pat| > 0
    ensures IndexFrom(s, pat, k).Some? ==> OccursAt(s, pat, IndexFrom(s, pat, k).value)
    ensures IndexFrom(s, pat, k).Some? ==>
      forall j: nat :: k <= j < IndexFrom(s, pat, k).value ==> !OccursAt(s, pat, j)
    ensures IndexFrom(s, pat, k).None? ==> forall j: nat :: k <= j ==> !OccursAt(s, pat, j)
    decreases |s| - k
  {
    if k + |pat| <= |s| && s[k..k + |pat|] != pat {
      IndexFromFinds(s, pat, k + 1);
    }
  }

  /** `s.split(pat)` for a non-empty separator: the pieces between non-overlapping occurrences, left to right. */
  function Split(s: string, pat: string): (r: seq<string>)
    requires |pat| > 0
    ensures |r| >= 1
    decreases |s|
  {
    match IndexFrom(s, pat, 0)
    case None => [s]
    case Some(i) => [s[..i]] + Split(s[i + |pat|..], pat)
  }

  /** `pieces.join(pat)`. */
  function Join(pieces: seq<string>, pat: string): string
    decreases |pieces|
  {
    if |pieces| == 0 then ""
    else if |pieces| == 1 then pieces[0]
    else pieces[0] + pat + Join(pieces[1..], pat)
  }

  /** Splitting loses nothing: joining the pieces with the separator gives the string back. */
  lemma {:induction false} SplitJoin(s: string, pat: string)
    requires |pat| > 0
    ensures Join(Split(s, pat), pat) == s
    decreases |s|
  {
    IndexFromFinds(s, pat, 0);
    match IndexFrom(s, pat, 0)
    case None =>
    case Some(i) =>
      var rest := s[i + |pat|..];
      var pieces := Split(s, pat);
      assert pieces == [s[..i]] + Split(rest, pat);
      assert pieces[1..] == Split(rest, pat);
      SplitJoin(rest, pat);
      assert Join(pieces, pat) == s[..i] + pat + rest;
      assert s == s[..i] + s[i..i + |pat|] + rest;
  }

  /** An occurrence inside a prefix is an occurrence in the whole string. */
  lemma OccursInPrefix(s: string, pat: string, i: nat, j: nat)
    requires i <= |s|
    ensures OccursAt(s[..i], pat, j) ==> OccursAt(s, pat, j)
  {
    if OccursAt(s[..i], pat, j) {
      assert s[..i][j..j + |pat|] == s[j..j + |pat|];
    }
  }

  /** No piece of a split contains the separator. */
  lemma {:induction false} SplitPiecesFree(s: string, pat: string)
    requires |pat| > 0
    ensures forall k :: 0 <= k < |Split(s, pat)| ==> NoOccurrence(Split(s, pat)[k], pat)
    decreases |s|
  {
    var r := Split(s, pat);
    IndexFromFinds(s, pat, 0);
    match IndexFrom(s, pat, 0)
    case None =>
      assert r == [s];
    case Some(i) =>
      var rest := s[i + |pat|..];
      SplitPiecesFree(rest, pat);
      assert r == [s[..i]] + Split(rest, pat);
      forall j: nat ensures !OccursAt(s[..i], pat, j) {
        OccursInPrefix(s, pat, i, j);
      }
      forall k | 0 <= k < |r| ensures NoOccurrence(r[k], pat) {
        if k > 0 {
          assert r[k] == Split(rest, pat)[k - 1];
        }
      }
  }

  /** An index into a suffix, moved to the whole string. */
  function Shift(r: Option<nat>, off: nat): Option<nat> {
    if r.Some? then Some(r.value + off) else None
  }

  /** Searching a string from inside a suffix finds what searching the suffix finds. */
  lemma {:induction false} IndexFromShift(s: string, pat: string, off: nat, m: nat)
    requires |pat| > 0 && off <= |s|
    ensures IndexFrom(s, pat, off + m) == Shift(IndexFrom(s[off..], pat, m), off)
    decreases |s| - (off + m)
  {
    if off + m + |pat| <= |s| {
      assert s[off + m..off + m + |pat|] == s[off..][m..m + |pat|];
      IndexFromShift(s, pat, off, m + 1);
    }
  }

  /**
   * `piece` is the text of `s` from `start` up to the first occurrence of
   * `pat` from there; when it is the `last` piece it runs to the end of `s`
   * and no occurrence follows `start`.
   */
  predicate CutFrom(s: string, pat: string, start: nat, piece: string, last: bool)
    requires |pat| > 0
  {
    && start + |piece| <= |s|
    && piece == s[start..start + |piece|]
    && IndexFrom(s, pat, start) == (if last then None else Some(start + |piece|))
    && (last ==> start + |piece| == |s|)
  }

  /**
   * The pieces `r` are cut from `s` from `start` on: the first is cut at the
   * first occurrence from `start`, and the others from just after it.
   */
  predicate Cuts(s: string, pat: string, start: nat, r: seq<string>)
    requires |pat| > 0
    decreases |r|
  {
    && |r| > 0
    && CutFrom(s, pat, start, r[0], |r| == 1)
    && (|r| > 1 ==> Cuts(s, pat, start + |r[0]| + |pat|, r[1..]))
  }

  /** A cut in the suffix from `off` is the same cut in the whole string. */
  lemma CutFromShift(s: string, pat: string, off: nat, p: nat, piece: string, last: bool)
    requires |pat| > 0 && off <= |s|
    requires CutFrom(s[off..], pat, p, piece, last)
    ensures CutFrom(s, pat, off + p, piece, last)
  {
    assert s[off..][p..p + |piece|] == s[off + p..off + p + |piece|];
    IndexFromShift(s, pat, off, p);
  }

  /** Cuts in the suffix from `off` are the same cuts in the whole string. */
  lemma {:induction false} CutsShift(s: string, pat: string, off: nat, start: nat, r: seq<string>)
    requires |pat| > 0 && off <= |s|
    requires Cuts(s[off..], pat, start, r)
    ensures Cuts(s, pat, off + start, r)
    decreases |r|
  {
    CutFromShift(s, pat, off, start, r[0], |r| == 1);
    if |r| > 1 {
      CutsShift(s, pat, off, start + |r[0]| + |pat|, r[1..]);
    }
  }

  /** The pieces of a split are cut exactly at the successive first occurrences of the separator. */
  lemma {:induction false} SplitCuts(s: string, pat: string)
    requires |pat| > 0
    ensures Cuts(s, pat, 0, Split(s, pat))
    decreases |s|
  {
    var r := Split(s, pat);
    match IndexFrom(s, pat, 0)
    case None =>
      assert r == [s];
    case Some(i) =>
      var off := i + |pat|;
      var tail := Split(s[off..], pat);
      assert r == [s[..i]] + tail;
      assert r[1..] == tail;
      SplitCuts(s[off..], pat);
      CutsShift(s, pat, off, 0, tail);
  }

  /** `book.imageUrl.split("/images/")[1]`, which the template literal writes as "undefined" when missing. */
  function ImageFilename(url: string): string {
    var pieces := Split(url, ImagesSegment);
    if |pieces| > 1 then pieces[1] else "undefined"
  }

  /** One differing character rules an occurrence out. */
  lemma Mismatch(s: string, pat: string, j: nat, k: nat)
    requires j + |pat| <= |s| && k < |pat| && s[j + k] != pat[k]
    ensures !OccursAt(s, pat, j)
  {
    assert s[j..j + |pat|][k] == s[j + k];
  }

  /** The first occurrence is found when there is none before it. */
  lemma FirstOccurrence(s: string, pat: string, p: nat)
    requires |pat| > 0 && OccursAt(s, pat, p)
    requires forall j: nat :: j < p ==> !OccursAt(s, pat, j)
    ensures IndexFrom(s, pat, 0) == Some(p)
  {
    IndexFromFinds(s, pat, 0);
  }

  /** A string with exactly one occurrence of the separator splits into two pieces. */
  lemma SplitOnce(s: string, pat: string, p: nat)
    requires |pat| > 0 && OccursAt(s, pat, p)
    requires forall j: nat :: j < p ==> !OccursAt(s, pat, j)
    requires NoOccurrence(s[p + |pat|..], pat)
    ensures Split(s, pat) == [s[..p], s[p + |pat|..]]
  {
    FirstOccurrence(s, pat, p);
    var rest := s[p + |pat|..];
    IndexFromFinds(rest, pat, 0);
    assert IndexFrom(rest, pat, 0).None?;
    assert Split(rest, pat) == [rest];
  }

  /**
   * The file name is recovered from the link when the "/images/" inserted
   * by the builder is the first one in the link and the file name holds no
   * other.
   */
  lemma ImageFilenameRoundTrip(protocol: string, host: string, filename: string)
    requires forall j: nat :: j < |UrlOrigin(protocol, host)| ==>
      !OccursAt(ImageUrl(protocol, host, filename), ImagesSegment, j)
    requires NoOccurrence(filename, ImagesSegment)
    ensures ImageFilename(ImageUrl(protocol, host, filename)) == filename
  {
    var origin, url := UrlOrigin(protocol, host), ImageUrl(protocol, host, filename);
    var p := |origin|;
    assert url == origin + ImagesSegment + filename;
    assert url[p..p + |ImagesSegment|] == ImagesSegment;
    assert url[p + |ImagesSegment|..] == filename;
    SplitOnce(url, ImagesSegment, p);
  }

  /**
   * For a host and protocol without '/', other than the host name "images",
   * the inserted "/images/" is the first one in the link.
   */
  lemma ImageFilenameForPlainHost(protocol: string, host: string, filename: string)
    requires '/' !in protocol && '/' !in host && host != "images"
    requires NoOccurrence(filename, ImagesSegment)
    ensures ImageFilename(ImageUrl(protocol, host, filename)) == filename
  {
    var origin, url := UrlOrigin(protocol, host), ImageUrl(protocol, host, filename);
    var n := |protocol|;
    assert url == protocol + "://" + host + ImagesSegment + filename;
    forall j: nat | j < |origin|
      ensures !OccursAt(url, ImagesSegment, j)
    {
      if j + |ImagesSegment| <= |url| {
        if j < n {
          assert protocol[j] in protocol;
          Mismatch(url, ImagesSegment, j, 0);
        } else if j == n {
          Mismatch(url, ImagesSegment, j, 0);
        } else if j == n + 1 {
          Mismatch(url, ImagesSegment, j, 1);
        } else if j == n + 2 {
          assert url[n + 3..n + 3 + |host|] == host;
          if |host| > 6 {
            assert host[6] in host;
            Mismatch(url, ImagesSegment, j, 7);
          } else if |host| < 6 {
            Mismatch(url, ImagesSegment, j, 1 + |host|);
          } else {
            var k :| 0 <= k < 6 && host[k] != "images"[k];
            Mismatch(url, ImagesSegment, j, 1 + k);
          }
        } else {
          assert host[j - n - 3] in host;
          Mismatch(url, ImagesSegment, j, 0);
        }
      }
    }
    ImageFilenameRoundTrip(protocol, host, filename);
  }

  /** A file name without '/' cannot hold "/images/". */
  lemma NoSlashNoSegment(filename: string)
    requires '/' !in filename
    ensures NoOccurrence(filename, ImagesSegment)
  {
    forall j: nat ensures !OccursAt(filename, ImagesSegment, j) {
      if j + |ImagesSegment| <= |filename| {
        assert filename[j] in filename;
        Mismatch(filename, ImagesSegment, j, 0);
      }
    }
  }

  /** A host literally named "images" defeats the extraction: it returns "images/" and the name. */
  lemma ImagesHostBreaksExtraction()
    ensures ImageFilename(ImageUrl("h", "images", "a")) == "images/a"
  {
    var url, rest := ImageUrl("h", "images", "a"), "images/a";
    assert url == "h:/" + ImagesSegment + rest;
    assert url[3..11] == ImagesSegment && url[11..] == rest;
    forall j: nat | j < 3 ensures !OccursAt(url, ImagesSegment, j) {
      Mismatch(url, ImagesSegment, j, 1);
    }
    forall j: nat ensures !OccursAt(rest, ImagesSegment, j) {
      if j == 0 {
        Mismatch(rest, ImagesSegment, 0, 0);
      }
    }
    SplitOnce(url, ImagesSegment, 3);
  }
}
