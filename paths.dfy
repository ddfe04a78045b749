/** The two string operations the file tree leans on: Python's
    `str.strip('/')`, used to turn a request path back into a node id, and
    `posixpath.join`, used to glue a lineage of names into a path. */
module Paths {

  /** A path segment in the usual sense: non-empty, without a slash. */
  predicate Segment(s: string) {
    |s| > 0 && '/' !in s
  }

  /** `s.lstrip('/')`: drop every leading slash. */
  function StripLeading(s: string): (r: string)
    ensures |r| <= |s| && r == s[|s| - |r|..]
    ensures forall k :: 0 <= k < |s| - |r| ==> s[k] == '/'
    ensures r == [] || r[0] != '/'
  {
    if |s| > 0 && s[0] == '/' then StripLeading(s[1..]) else s
  }

  /** `s.rstrip('/')`: drop every trailing slash. */
  function StripTrailing(s: string): (r: string)
    ensures |r| <= |s| && r == s[..|r|]
    ensures forall k :: |r| <= k < |s| ==> s[k] == '/'
    ensures r == [] || r[|r| - 1] != '/'
  {
    if |s| > 0 && s[|s| - 1] == '/' then StripTrailing(s[..|s| - 1]) else s
  }

  /** `s.strip('/')`. */
  function Strip(s: string): (r: string)
    ensures r == [] || (r[0] != '/' && r[|r| - 1] != '/')
  {
    StripTrailing(StripLeading(s))
  }

  lemma StripLeadingSlash(x: string)
    ensures StripLeading("/" + x) == StripLeading(x)
  {
    assert ("/" + x)[1..] == x;
  }

  lemma StripLeadingNone(y: string)
    requires y == [] || y[0] != '/'
    ensures StripLeading(y) == y
  {
  }

  lemma StripTrailingSlash(x: string)
    ensures StripTrailing(x + "/") == StripTrailing(x)
  {
    assert (x + "/")[..|x|] == x;
  }

  lemma StripTrailingNone(y: string)
    requires y == [] || y[|y| - 1] != '/'
    ensures StripTrailing(y) == y
  {
  }

  /** A name that neither starts nor ends with a slash, behind one leading
      slash and at most one trailing slash, is what `strip('/')` leaves. */
  lemma StripWrapped(name: string, trail: bool)
    requires name == [] || (name[0] != '/' && name[|name| - 1] != '/')
    ensures Strip("/" + name + (if trail then "/" else "")) == name
  {
    var tail := if trail then "/" else "";
    assert "/" + name + tail == "/" + (name + tail);
    StripLeadingSlash(name + tail);
    if name == [] {
      assert name + tail == tail;
      if trail {
        StripLeadingSlash([]);
      }
      StripLeadingNone([]);
      StripTrailingNone([]);
    } else {
      assert (name + tail)[0] == name[0];
      StripLeadingNone(name + tail);
      if trail {
        StripTrailingSlash(name);
      } else {
        assert name + tail == name;
      }
      StripTrailingNone(name);
    }
  }

  /** One step of `posixpath.join`: an absolute component replaces what was
      built so far, otherwise it is appended with one separating slash. */
  function JoinStep(acc: string, b: string): string {
    if |b| > 0 && b[0] == '/' then b
    else if acc == [] || acc[|acc| - 1] == '/' then acc + b
    else acc + "/" + b
  }

  /** The join of `acc` with every component of `rest`, left to right.  An
      absolute last component discards everything before it. */
  function JoinFrom(acc: string, rest: seq<string>): (r: string)
    ensures rest == [] ==> r == acc
    ensures rest != [] && |rest[|rest| - 1]| > 0 && rest[|rest| - 1][0] == '/' ==> r == rest[|rest| - 1]
    decreases |rest|
  {
    if rest == [] then acc else JoinFrom(JoinStep(acc, rest[0]), rest[1..])
  }

  /** `os.path.join(parts[0], parts[1], ...)` on POSIX. */
  function PosixJoin(parts: seq<string>): (r: string)
    requires |parts| >= 1
    ensures |parts| == 1 ==> r == parts[0]
    ensures |parts[|parts| - 1]| > 0 && parts[|parts| - 1][0] == '/' ==> r == parts[|parts| - 1]
  {
    JoinFrom(parts[0], parts[1..])
  }

  /** Segments glued with single slashes, left to right. */
  function Slashed(parts: seq<string>): string {
    if parts == [] then "" else SlashedFrom(parts[0], parts[1..])
  }

  function SlashedFrom(acc: string, rest: seq<string>): string
    decreases |rest|
  {
    if rest == [] then acc else SlashedFrom(acc + "/" + rest[0], rest[1..])
  }

  lemma {:induction false} SlashedFromSnoc(acc: string, rest: seq<string>, x: string)
    ensures SlashedFrom(acc, rest + [x]) == SlashedFrom(acc, rest) + "/" + x
    decreases |rest|
  {
    if rest == [] {
      assert rest + [x] == [x];
    } else {
      assert (rest + [x])[0] == rest[0];
      assert (rest + [x])[1..] == rest[1..] + [x];
      SlashedFromSnoc(acc + "/" + rest[0], rest[1..], x);
    }
  }

  lemma SlashedSnoc(parts: seq<string>, x: string)
    requires |parts| >= 1
    ensures Slashed(parts + [x]) == Slashed(parts) + "/" + x
  {
    assert (parts + [x])[0] == parts[0];
    assert (parts + [x])[1..] == parts[1..] + [x];
    SlashedFromSnoc(parts[0], parts[1..], x);
  }

  /** Behind a non-empty prefix that does not end in a slash, joining
      segments glues them on with single slashes. */
  lemma {:induction false} JoinFromSegments(acc: string, rest: seq<string>)
    requires |acc| > 0 && acc[|acc| - 1] != '/'
    requires forall k :: 0 <= k < |rest| ==> Segment(rest[k])
    ensures JoinFrom(acc, rest) == SlashedFrom(acc, rest)
    decreases |rest|
  {
    if rest != [] {
      var b := rest[0];
      assert Segment(b);
      var acc' := acc + "/" + b;
      assert JoinStep(acc, b) == acc';
      assert acc'[|acc'| - 1] == b[|b| - 1];
      assert forall k :: 0 <= k < |rest[1..]| ==> rest[1..][k] == rest[k + 1];
      JoinFromSegments(acc', rest[1..]);
    }
  }

  /** Joining segments behind an empty first component (the osfstorage root
      is named "") gives the segments separated by single slashes; a
      non-empty first segment is simply the first of them. */
  lemma JoinSegments(parts: seq<string>)
    requires |parts| >= 1
    requires parts[0] == "" || Segment(parts[0])
    requires forall k :: 1 <= k < |parts| ==> Segment(parts[k])
    ensures PosixJoin(parts) == Slashed(if parts[0] == "" then parts[1..] else parts)
  {
    var rest := parts[1..];
    assert forall k :: 0 <= k < |rest| ==> rest[k] == parts[k + 1];
    if parts[0] == "" {
      if rest != [] {
        var h := rest[0];
        assert Segment(h);
        assert JoinStep("", h) == h;
        assert forall k :: 0 <= k < |rest[1..]| ==> rest[1..][k] == rest[k + 1];
        JoinFromSegments(h, rest[1..]);
      }
    } else {
      JoinFromSegments(parts[0], rest);
    }
  }
}
