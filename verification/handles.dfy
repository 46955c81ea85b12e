/**
 * Secret handles of the form `mount/path#key` and their parser, the first
 * half of `fetch_secret` in `scripts/secret_backend.py`.
 */
module Handles {
  import opened Wrappers
  import opened Errors

  datatype Handle = Handle(mount: string, path: string, key: string)

  /** The handle text a parsed handle stands for. */
  function Format(h: Handle): string
  {
    h.mount + "/" + h.path + "#" + h.key
  }

  /**
   * A handle the parser can give back: the mount holds no '/' and no '#',
   * and the path holds no '#'. The key and the rest of the path are free.
   */
  predicate Canonical(h: Handle)
  {
    '/' !in h.mount && '#' !in h.mount && '#' !in h.path
  }

  /** Independent description of the handles the parser accepts. */
  ghost predicate WellFormed(s: string)
  {
    exists h: Handle :: Canonical(h) && Format(h) == s
  }

  /** Index of the first `c` in `s`, if any. */
  function FirstIndex(s: string, c: char): (r: Option<nat>)
    ensures r.None? <==> c !in s
    ensures r.Some? ==> r.value < |s| && s[r.value] == c && forall j :: 0 <= j < r.value ==> s[j] != c
  {
    if |s| == 0 then None
    else if s[0] == c then Some(0)
    else match FirstIndex(s[1..], c)
      case None => None
      case Some(i) => Some(i + 1)
  }

  /**
   * `s.split(c, 1)` when it yields two parts: the text before the first `c`
   * and everything after it, later occurrences of `c` included.
   */
  function SplitFirst(s: string, c: char): (r: Option<(string, string)>)
    ensures r.None? <==> c !in s
    ensures r.Some? ==> s == r.value.0 + [c] + r.value.1 && c !in r.value.0
  {
    match FirstIndex(s, c)
    case None => None
    case Some(i) =>
      assert s == s[..i] + [c] + s[i + 1..];
      assert forall j :: 0 <= j < i ==> s[..i][j] != c;
      Some((s[..i], s[i + 1..]))
  }

  /**
   * Splits a handle at its first '#' into mount/path and key, then the
   * mount/path at its first '/' into mount and path. Empty parts are accepted.
   */
  function Parse(s: string): (r: Result<Handle, Error>)
    ensures '#' !in s <==> r == Failure(BadHandle(s))
    ensures r.Success? ==> Canonical(r.value) && Format(r.value) == s
    ensures r.Failure? && '#' in s ==>
              && r.error.BadMountPath?
              && var m := r.error.mountPath;
              && |m| < |s| && s[..|m|] == m && s[|m|] == '#'
              && '#' !in m && '/' !in m
  {
    match SplitFirst(s, '#')
    case None => Failure(BadHandle(s))
    case Some((mountPath, key)) =>
      assert s[..|mountPath|] == mountPath;
      match SplitFirst(mountPath, '/')
      case None => Failure(BadMountPath(mountPath))
      case Some((mount, path)) => Success(Handle(mount, path, key))
  }

  /** The first `c` of `a + [c] + b` is the one after `a` when `a` holds none. */
  lemma {:induction false} FirstIndexAfter(a: string, c: char, b: string)
    requires c !in a
    ensures FirstIndex(a + [c] + b, c) == Some(|a|)
  {
    if a != [] {
      assert (a + [c] + b)[1..] == a[1..] + [c] + b;
      FirstIndexAfter(a[1..], c, b);
    }
  }

  /** Splitting is unique: the parts are determined once the first part holds no `c`. */
  lemma SplitFirstOf(a: string, c: char, b: string)
    requires c !in a
    ensures SplitFirst(a + [c] + b, c) == Some((a, b))
  {
    FirstIndexAfter(a, c, b);
    var s := a + [c] + b;
    assert s[..|a|] == a;
    assert s[|a| + 1..] == b;
  }

  /** Parsing inverts formatting on every handle the parser can produce. */
  lemma ParseFormat(h: Handle)
    requires Canonical(h)
    ensures Parse(Format(h)) == Success(h)
  {
    var mountPath := h.mount + "/" + h.path;
    assert Format(h) == mountPath + ['#'] + h.key;
    SplitFirstOf(mountPath, '#', h.key);
    assert mountPath == h.mount + ['/'] + h.path;
    SplitFirstOf(h.mount, '/', h.path);
  }

  /** The parser accepts exactly the well-formed handles. */
  lemma ParseSucceedsIff(s: string)
    ensures Parse(s).Success? <==> WellFormed(s)
  {
    if WellFormed(s) {
      var h: Handle :| Canonical(h) && Format(h) == s;
      ParseFormat(h);
    }
    if Parse(s).Success? {
      assert Canonical(Parse(s).value) && Format(Parse(s).value) == s;
    }
  }

  /**
   * Parsing fails exactly when there is no '#', or when the text before the
   * first '#' holds no '/'; a '/' after the first '#' does not count.
   */
  lemma ParseFailsIff(s: string)
    ensures Parse(s).Failure? <==>
              ('#' !in s || exists k :: 0 <= k < |s| && s[k] == '#' && '#' !in s[..k] && '/' !in s[..k])
  {
  }

  /** A handle whose only '/' follows the '#' is rejected, whatever its key holds. */
  lemma SlashInKeyOnly(mountPath: string, key: string)
    requires '#' !in mountPath && '/' !in mountPath
    ensures Parse(mountPath + "#" + key) == Failure(BadMountPath(mountPath))
  {
    SplitFirstOf(mountPath, '#', key);
  }
}
