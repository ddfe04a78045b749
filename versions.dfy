/** The version list of an osfstorage file: `get_version` and
    `create_version` on the list itself. */
module Versions {
  import opened Types

  /** The `version` argument of `get_version`: absent, a value that Python's
      `int()` turns into `n`, or one it rejects with ValueError. */
  datatype Selector = Latest | Numeric(n: int) | NonNumeric

  /** Python list indexing: negative indices count from the end; None where
      Python raises IndexError. */
  function PyIndex<T>(s: seq<T>, i: int): (r: Option<T>)
    ensures r.Some? <==> -|s| <= i < |s|
    ensures r.Some? ==> r.value in s
    ensures 0 <= i < |s| ==> r == Some(s[i])
    ensures -|s| <= i < 0 ==> r == Some(s[|s| + i])
  {
    if 0 <= i < |s| then Some(s[i])
    else if -|s| <= i < 0 then Some(s[|s| + i])
    else None
  }

  /** The answer to a selector that finds nothing. */
  function Miss(required: bool): Result<Option<FileVersion>> {
    if required then Err(VersionNotFound) else Ok(None)
  }

  /** `get_version`. */
  function GetVersion(vs: seq<FileVersion>, sel: Selector, required: bool): (r: Result<Option<FileVersion>>)
    ensures r.Err? ==> r.error == VersionNotFound && required && sel != Latest
    ensures r.Ok? && r.value.Some? ==> r.value.value in vs
  {
    match sel
    case Latest => Ok(if |vs| > 0 then Some(vs[|vs| - 1]) else None)
    case Numeric(n) =>
      (match PyIndex(vs, n - 1)
       case Some(v) => Ok(Some(v))
       case None => Miss(required))
    case NonNumeric => Miss(required)
  }

  /** What `get_version` returns, selector by selector: the last version (or
      nothing) without a selector; `vs[n-1]` for 1 <= n <= |vs|; for
      1 - |vs| <= n <= 0 Python's negative indexing wraps around to
      `vs[|vs| + n - 1]`; anything else misses, which raises
      VersionNotFound only when `required` is set. */
  lemma GetVersionBySelector(vs: seq<FileVersion>, sel: Selector, required: bool)
    ensures sel == Latest ==>
      GetVersion(vs, sel, required) == Ok(if vs == [] then None else Some(vs[|vs| - 1]))
    ensures sel.Numeric? && 1 <= sel.n <= |vs| ==>
      GetVersion(vs, sel, required) == Ok(Some(vs[sel.n - 1]))
    ensures sel.Numeric? && 1 - |vs| <= sel.n <= 0 ==>
      GetVersion(vs, sel, required) == Ok(Some(vs[|vs| + sel.n - 1]))
    ensures (sel == NonNumeric || (sel.Numeric? && (sel.n > |vs| || sel.n < 1 - |vs|))) ==>
      GetVersion(vs, sel, required) == (if required then Err(VersionNotFound) else Ok(None))
  {
  }

  /** Identifiers are the 1-based positions: dense, no gaps, no reordering. */
  predicate DenseIds(vs: seq<FileVersion>) {
    forall k :: 0 <= k < |vs| ==> vs[k].identifier == k + 1
  }

  /** `create_version`: the candidate gets identifier |vs| + 1; when the
      latest version is a duplicate of it the list is kept and the latest is
      returned, otherwise the candidate is appended and returned.  The
      result is the new list and the returned version. */
  function CreateVersion(vs: seq<FileVersion>, creator: UserId, location: Location,
                         isDuplicate: (FileVersion, FileVersion) -> bool): (r: (seq<FileVersion>, FileVersion))
    ensures var candidate := FileVersion(|vs| + 1, creator, location);
      if vs != [] && isDuplicate(vs[|vs| - 1], candidate) then r == (vs, vs[|vs| - 1])
      else r == (vs + [candidate], candidate)
  {
    var candidate := FileVersion(|vs| + 1, creator, location);
    match GetVersion(vs, Latest, false)
    case Ok(Some(latest)) =>
      if isDuplicate(latest, candidate) then (vs, latest) else (vs + [candidate], candidate)
    case _ => (vs + [candidate], candidate)
  }

  /** The list only ever grows by one at the end, identifiers stay dense,
      and the version handed back is always the latest one. */
  lemma CreateVersionKeepsDense(vs: seq<FileVersion>, creator: UserId, location: Location,
                                isDuplicate: (FileVersion, FileVersion) -> bool)
    requires DenseIds(vs)
    ensures var (vs', v) := CreateVersion(vs, creator, location, isDuplicate);
      && DenseIds(vs')
      && vs'[..|vs|] == vs && |vs| <= |vs'| <= |vs| + 1
      && v == vs'[|vs'| - 1] && v.identifier == |vs'|
  {
    var (vs', v) := CreateVersion(vs, creator, location, isDuplicate);
    assert vs'[..|vs|] == vs;
  }

  /** After `create_version`, `get_version()` and `get_version(v.identifier)`
      both give the version it returned, and every older selector in range
      still gives what it gave before. */
  lemma CreateThenGet(vs: seq<FileVersion>, creator: UserId, location: Location,
                      isDuplicate: (FileVersion, FileVersion) -> bool, n: int, required: bool)
    requires DenseIds(vs)
    ensures var (vs', v) := CreateVersion(vs, creator, location, isDuplicate);
      && GetVersion(vs', Latest, required) == Ok(Some(v))
      && GetVersion(vs', Numeric(v.identifier), required) == Ok(Some(v))
      && (1 <= n <= |vs| ==> GetVersion(vs', Numeric(n), required) == GetVersion(vs, Numeric(n), required))
  {
    CreateVersionKeepsDense(vs, creator, location, isDuplicate);
  }

  /** The duplicate rule compares locations: two versions are duplicates
      exactly when their locations agree. */
  ghost predicate DedupByLocation(isDuplicate: (FileVersion, FileVersion) -> bool) {
    forall a: FileVersion, b: FileVersion :: isDuplicate(a, b) <==> a.location == b.location
  }

  /** Creating a version twice at the same location stores one version: the
      second call returns the first call's version and keeps the list. */
  lemma CreateTwiceStoresOnce(vs: seq<FileVersion>, c1: UserId, c2: UserId, location: Location,
                              isDuplicate: (FileVersion, FileVersion) -> bool)
    requires DedupByLocation(isDuplicate)
    ensures var (vs1, v1) := CreateVersion(vs, c1, location, isDuplicate);
      CreateVersion(vs1, c2, location, isDuplicate) == (vs1, v1)
  {
    var (vs1, v1) := CreateVersion(vs, c1, location, isDuplicate);
    assert vs1[|vs1| - 1] == v1;
    assert isDuplicate(v1, FileVersion(|vs1| + 1, c2, location));
  }

  /** The walk-through of a fresh file: a version at location A gets
      identifier 1, a second upload to A hands back that same version, and
      an upload to a different location B becomes version 2. */
  lemma FreshFileScenario(creator: UserId, locA: Location, locB: Location,
                          isDuplicate: (FileVersion, FileVersion) -> bool)
    requires DedupByLocation(isDuplicate) && locA != locB
    ensures var (vs1, v1) := CreateVersion([], creator, locA, isDuplicate);
      var (vs2, v2) := CreateVersion(vs1, creator, locA, isDuplicate);
      var (vs3, v3) := CreateVersion(vs2, creator, locB, isDuplicate);
      && v1.identifier == 1 && vs1 == [v1]
      && v2 == v1 && vs2 == vs1
      && v3.identifier == 2 && v3.location == locB && vs3 == [v1, v3]
  {
    var (vs1, v1) := CreateVersion([], creator, locA, isDuplicate);
    CreateTwiceStoresOnce([], creator, creator, locA, isDuplicate);
    assert !isDuplicate(v1, FileVersion(2, creator, locB));
  }
}
