/**
 * The string routines of the CustomShortcut application's data entry
 * (Applications/Tizen_native/CustomShortcut/src/data.c): splitting a route
 * string at its first separator, and joining a platform root directory with a
 * file name into a caller's PATH_MAX buffer.
 */
module Data {
  import opened LibC

  /** The separator between a route and its data. */
  const Sep: char := ':'

  /** A route string taken apart: the route, and the data after the separator if there is one. */
  datatype Route = Route(route: seq<char>, data: Option<seq<char>>)

  /**
   * The route `s` denotes: everything before its first separator, and the rest
   * after that separator; no data when `s` holds no separator.
   */
  function SplitRoute(s: seq<char>): (r: Route)
    ensures Sep !in r.route
    ensures r.data.None? <==> Sep !in s
    ensures r.data.None? ==> r.route == s
    ensures r.data.Some? ==> s == r.route + [Sep] + r.data.value
  {
    if s == [] then Route([], None)
    else if s[0] == Sep then Route([], Some(s[1..]))
    else
      var t := SplitRoute(s[1..]);
      assert s == [s[0]] + s[1..];
      Route([s[0]] + t.route, t.data)
  }

  /** The string a route was split from. */
  function Rejoin(r: Route): seq<char>
  {
    match r.data
    case None => r.route
    case Some(d) => r.route + [Sep] + d
  }

  /** The split is made at the first separator and nowhere else. */
  lemma {:induction false} SplitRouteAt(s: seq<char>, i: nat)
    requires i < |s| && s[i] == Sep && Sep !in s[..i]
    ensures SplitRoute(s) == Route(s[..i], Some(s[i + 1..]))
  {
    if i > 0 {
      assert s[0] != Sep by { assert s[..i][0] == s[0]; }
      assert s[1..][..i - 1] == s[..i][1..];
      SplitRouteAt(s[1..], i - 1);
      assert s[..i] == [s[0]] + s[1..][..i - 1];
    }
  }

  /** Splitting then rejoining gives back the string. */
  lemma SplitThenRejoin(s: seq<char>)
    ensures Rejoin(SplitRoute(s)) == s
  {
  }

  /**
   * Rejoining then splitting gives back the route whenever its route part holds
   * no separator: its data part may hold further separators.
   */
  lemma {:induction false} RejoinThenSplit(r: Route)
    requires Sep !in r.route
    ensures SplitRoute(Rejoin(r)) == r
  {
    var s := Rejoin(r);
    match r.data
    case None =>
    case Some(d) =>
      assert s[..|r.route|] == r.route;
      assert s[|r.route| + 1..] == d;
      SplitRouteAt(s, |r.route|);
  }

  /**
   * After data_parse_route has split `s` in `copy`: the route reads at the
   * start of the copy, and `data` points at the data part, or is NULL when
   * there is none.
   */
  ghost predicate RouteParsed(s: seq<char>, copy: array<char>, data: Option<Ptr>)
    reads copy
  {
    var split := SplitRoute(s);
    CStr(copy, 0) == split.route &&
    match split.data
    case None => data == None
    case Some(d) =>
      |split.route| + 1 <= copy.Length &&
      data == Some(Ptr(copy, |split.route| + 1)) &&
      CStr(copy, |split.route| + 1) == d
  }

  /**
   * A copy of `s` whose first separator, at `i`, is overwritten with a
   * terminator holds the route at its start and the data at i + 1.
   */
  lemma SeparatorCut(a: array<char>, s: CString, i: nat)
    requires i < |s| && s[i] == Sep && Sep !in s[..i]
    requires a.Length == |s| + 1 && a[..] == (s + [NUL])[i := NUL]
    ensures RouteParsed(s, a, Some(Ptr(a, i + 1)))
  {
    SplitRouteAt(s, i);
    assert a[..i] == s[..i];
    CStrIs(a, 0, s[..i]);
    assert a[i + 1..i + 1 + |s[i + 1..]|] == s[i + 1..];
    CStrIs(a, i + 1, s[i + 1..]);
  }

  /** An unchanged copy of a string without separator holds the whole string as its route. */
  lemma NoSeparator(a: array<char>, s: CString)
    requires Sep !in s
    requires a[..] == s + [NUL]
    ensures RouteParsed(s, a, None)
  {
    assert a[..|s|] == s;
    CStrIs(a, 0, s);
  }

  /**
   * data_parse_route: duplicates the C string at `source`, points `*route` at
   * the copy, scans the copy for the first separator and, when it finds one,
   * overwrites it with a terminator and points `*data` just past it; otherwise
   * sets `*data` to NULL. A NULL `route` or `data` is rejected before either is
   * assigned. `copy` names the duplicate so that the contract can speak of it.
   */
  method ParseRoute(source: array<char>, route: CharPtrVar?, data: CharPtrVar?)
    returns (rc: AppError, ghost copy: array<char>)
    requires IsCString(source, 0)
    modifies route, data
    ensures fresh(copy) && source[..] == old(source[..])
    ensures route == null || data == null ==> rc == ErrorInvalidParameter
    ensures route == null || data == null ==>
      (route != null ==> route.value == old(route.value)) &&
      (data != null ==> data.value == old(data.value))
    ensures route != null && data != null ==> rc == ErrorNone
    ensures route != null && data != null && route != data ==> route.value == Some(Ptr(copy, 0))
    ensures route != null && data != null ==> RouteParsed(old(CStr(source, 0)), copy, data.value)
  {
    var dst := StrDup(source);
    copy := dst;
    if route == null || data == null {
      return ErrorInvalidParameter, copy;
    }
    rc := ErrorNone;
    route.value := Some(Ptr(dst, 0));

    ghost var s := CStr(source, 0);
    var i := 0;
    var found := false;
    while dst[i] != NUL
      invariant i <= |s|
      invariant dst[..] == s + [NUL]
      invariant Sep !in s[..i]
      invariant !found && route.value == Some(Ptr(dst, 0))
      decreases |s| - i
    {
      if dst[i] == Sep {
        assert s[i] == Sep;
        dst[i] := NUL;
        SeparatorCut(dst, s, i);
        data.value := Some(Ptr(dst, i + 1));
        found := true;
        break;
      }
      assert s[..i + 1] == s[..i] + [s[i]];
      i := i + 1;
    }

    if !found {
      data.value := None;
      assert s[..i] == s;
      NoSeparator(dst, s);
    }
  }

  /**
   * The path snprintf(full_path, PATH_MAX, "%s%s", root, file) leaves in
   * `full_path`: `root` then `file`, cut to fit PATH_MAX with its terminator.
   */
  function JoinedPath(root: CString, file: CString): (p: CString)
    ensures |p| <= PATH_MAX - 1
    ensures p <= root + file
    ensures p == root + file <==> |root| + |file| < PATH_MAX
    ensures |root| < PATH_MAX ==> root <= p
  {
    Truncated(root + file, PATH_MAX)
  }

  /**
   * The checks and the write that data_get_resource_path and
   * data_get_data_path share once they hold a root: an unavailable root is
   * rejected first, then a NULL `full_path`; otherwise the joined path is
   * written into `full_path`.
   */
  method JoinRoot(root: Option<CString>, file: CString, fullPath: array?<char>)
    returns (rc: AppError)
    requires fullPath != null ==> fullPath.Length >= PATH_MAX
    modifies fullPath
    ensures root.None? || fullPath == null ==> rc == ErrorInvalidParameter
    ensures root.None? && fullPath != null ==> fullPath[..] == old(fullPath[..])
    ensures root.Some? && fullPath != null ==> rc == ErrorNone
    ensures root.Some? && fullPath != null ==>
      var p := JoinedPath(root.value, file);
      fullPath[..] == p + [NUL] + old(fullPath[|p| + 1..]) &&
      CStr(fullPath, 0) == p
  {
    if root.None? {
      return ErrorInvalidParameter;
    }
    if fullPath == null {
      return ErrorInvalidParameter;
    }
    Snprintf(fullPath, PATH_MAX, root.value + file);
    rc := ErrorNone;
  }

  /**
   * data_get_resource_path: the root is the shared resource directory when
   * `shared` holds and the application's resource directory otherwise; each is
   * what the platform getter returned, None where it returned NULL.
   */
  method GetResourcePath(file: CString, fullPath: array?<char>, shared: bool,
                         sharedResourceRoot: Option<CString>, resourceRoot: Option<CString>)
    returns (rc: AppError)
    requires fullPath != null ==> fullPath.Length >= PATH_MAX
    modifies fullPath
    ensures var root := if shared then sharedResourceRoot else resourceRoot;
      (root.None? || fullPath == null ==> rc == ErrorInvalidParameter) &&
      (root.None? && fullPath != null ==> fullPath[..] == old(fullPath[..])) &&
      (root.Some? && fullPath != null ==>
        var p := JoinedPath(root.value, file);
        rc == ErrorNone &&
        fullPath[..] == p + [NUL] + old(fullPath[|p| + 1..]) &&
        CStr(fullPath, 0) == p)
  {
    var root := if shared then sharedResourceRoot else resourceRoot;
    rc := JoinRoot(root, file, fullPath);
  }

  /** data_get_data_path: the root is the application's data directory, None where its getter returned NULL. */
  method GetDataPath(file: CString, fullPath: array?<char>, dataRoot: Option<CString>)
    returns (rc: AppError)
    requires fullPath != null ==> fullPath.Length >= PATH_MAX
    modifies fullPath
    ensures dataRoot.None? || fullPath == null ==> rc == ErrorInvalidParameter
    ensures dataRoot.None? && fullPath != null ==> fullPath[..] == old(fullPath[..])
    ensures dataRoot.Some? && fullPath != null ==>
      var p := JoinedPath(dataRoot.value, file);
      rc == ErrorNone &&
      fullPath[..] == p + [NUL] + old(fullPath[|p| + 1..]) &&
      CStr(fullPath, 0) == p
  {
    rc := JoinRoot(dataRoot, file, fullPath);
  }
}
