/**
 * The path segmenter of path.go: cleanPath gives a request path or a
 * pattern its leading '/', and shiftPath splits the first segment off it.
 * Go strings are byte strings; '/' is a single byte that never occurs
 * inside a multi-byte UTF-8 sequence, so a sequence of characters
 * splits at the same places.
 */
module Paths {

  /** strings.IndexByte: the index of the first c in s, or -1 if there is none. */
  function IndexByte(s: string, c: char): (i: int)
    ensures -1 <= i < |s|
    ensures i >= 0 ==> s[i] == c && c !in s[..i]
    ensures i == -1 <==> c !in s
  {
    if |s| == 0 then -1
    else if s[0] == c then 0
    else
      var j := IndexByte(s[1..], c);
      if j < 0 then -1
      else
        assert s[..j + 1] == [s[0]] + s[1..][..j];
        j + 1
  }

  /**
   * shiftPath: the segment after the first character of p, up to the next
   * '/', and the rest of p from that '/' on. The first character is dropped
   * unread; callers pass paths that start with '/'.
   */
  function ShiftPath(p: string): (r: (string, string))
    requires p != ""
    ensures [p[0]] + r.0 + r.1 == p
    ensures '/' !in r.0
    ensures r.1 == "" || r.1[0] == '/'
    ensures |r.1| < |p|
  {
    var i := IndexByte(p[1..], '/') + 1;
    if i <= 0 then (p[1..], "")
    else
      assert p[1..i] == p[1..][..i - 1];
      (p[1..i], p[i..])
  }

  /** cleanPath: the canonical form of p, which starts with '/'. */
  function CleanPath(p: string): (r: string)
    ensures |r| > 0 && r[0] == '/'
    ensures |p| <= |r| <= |p| + 1 && r[|r| - |p|..] == p
    ensures r == p <==> p != "" && p[0] == '/'
  {
    if p == "" then "/"
    else if p[0] != '/' then "/" + p
    else p
  }

  /** A path in the form cleanPath produces, or the empty rest left by the last shift. */
  predicate Rooted(p: string)
  {
    p == "" || p[0] == '/'
  }

  /**
   * The segments that repeated shifting takes off p, in order; the walks of
   * registration and lookup visit exactly these.
   */
  function Segments(p: string): (segs: seq<string>)
    decreases |p|
    ensures forall i :: 0 <= i < |segs| ==> '/' !in segs[i]
    ensures p != "" ==> |segs| > 0
  {
    if p == "" then []
    else
      var (head, tail) := ShiftPath(p);
      [head] + Segments(tail)
  }

  /** Each segment preceded by '/', concatenated: the inverse of Segments. */
  function JoinSegments(segs: seq<string>): string
  {
    if segs == [] then "" else "/" + segs[0] + JoinSegments(segs[1..])
  }

  /** cleanPath maps the empty path to the root path. */
  lemma CleanEmptyIsRoot()
    ensures CleanPath("") == "/"
  {
  }

  /** cleanPath is idempotent. */
  lemma CleanPathIdempotent(p: string)
    ensures CleanPath(CleanPath(p)) == CleanPath(p)
  {
  }

  /** Shifting a rooted path loses nothing: "/" + head + tail is the path again. */
  lemma ShiftPathSplits(p: string)
    requires p != "" && p[0] == '/'
    ensures "/" + ShiftPath(p).0 + ShiftPath(p).1 == p
  {
    var r := ShiftPath(p);
    assert [p[0]] == "/";
  }

  /** A '/'-free head followed by a tail that is empty or starts with '/' ends where q's first '/' is. */
  lemma HeadLength(q: string, h: string, t: string)
    requires h + t == q && '/' !in h && (t == "" || t[0] == '/')
    ensures |h| == if '/' in q then IndexByte(q, '/') else |q|
  {
    assert q[..|h|] == h;
    if t != "" {
      assert q[|h|] == t[0];
    }
  }

  /**
   * The split is unique: a rooted path has exactly one decomposition into a
   * '/'-free head and a tail that is empty or starts with '/'.
   */
  lemma {:induction false} SplitUnique(p: string, h1: string, t1: string, h2: string, t2: string)
    requires p != ""
    requires [p[0]] + h1 + t1 == p && [p[0]] + h2 + t2 == p
    requires '/' !in h1 && '/' !in h2
    requires t1 == "" || t1[0] == '/'
    requires t2 == "" || t2[0] == '/'
    ensures h1 == h2 && t1 == t2
  {
    HeadLength(p[1..], h1, t1);
    HeadLength(p[1..], h2, t2);
    assert h1 == p[1..1 + |h1|];
    assert h2 == p[1..1 + |h2|];
  }

  /** Shifting "/" + s + rest with a '/'-free s returns s and rest. */
  lemma ShiftPathOfJoin(s: string, rest: string)
    requires '/' !in s
    requires rest == "" || rest[0] == '/'
    ensures ShiftPath("/" + s + rest) == (s, rest)
  {
    var p := "/" + s + rest;
    var r := ShiftPath(p);
    assert [p[0]] + s + rest == p;
    SplitUnique(p, r.0, r.1, s, rest);
  }

  /** Joining the segments of a rooted path gives the path back. */
  lemma {:induction false} JoinSegmentsOfSegments(p: string)
    requires Rooted(p)
    decreases |p|
    ensures JoinSegments(Segments(p)) == p
  {
    if p != "" {
      var (head, tail) := ShiftPath(p);
      JoinSegmentsOfSegments(tail);
      assert Segments(p) == [head] + Segments(tail);
      assert Segments(p)[1..] == Segments(tail);
      ShiftPathSplits(p);
    }
  }

  /** Splitting the join of '/'-free segments gives the segments back. */
  lemma {:induction false} SegmentsOfJoinSegments(segs: seq<string>)
    requires forall i :: 0 <= i < |segs| ==> '/' !in segs[i]
    ensures Segments(JoinSegments(segs)) == segs
  {
    if segs != [] {
      var rest := JoinSegments(segs[1..]);
      SegmentsOfJoinSegments(segs[1..]);
      assert rest == "" || rest[0] == '/' by {
        if segs[1..] != [] {
          assert rest == "/" + segs[1..][0] + JoinSegments(segs[1..][1..]);
        }
      }
      ShiftPathOfJoin(segs[0], rest);
    }
  }

  /** shiftPath("/") is ("", ""): the root path is one empty segment. */
  lemma ShiftRoot()
    ensures ShiftPath("/") == ("", "")
    ensures Segments("/") == [""]
  {
    ShiftPathOfJoin("", "");
  }

  /** A trailing slash is a final empty segment: "/home/" is "home" then "". */
  lemma TrailingSlashSegment()
    ensures Segments("/home/") == ["home", ""]
  {
    ShiftPathOfJoin("home", "/");
    ShiftRoot();
    assert "/home/" == "/" + "home" + "/";
    assert Segments("/home/") == ["home"] + Segments("/");
  }
}
