/**
 * The parts of Python's `pathlib.PurePosixPath` and `posixpath` that the
 * converters use: parsing into root and names, `str()`, `parts`,
 * `is_relative_to`/`relative_to`, `posixpath.join`, `os.path.relpath`, and
 * `Path.resolve()` as lexical normalisation against an explicit working
 * directory (a filesystem without symbolic links).
 */
module PosixPaths {
  import opened Strings

  /**
   * A parsed PurePosixPath. `root` is "", "/" or "//" (exactly two leading
   * slashes are kept apart, as POSIX allows); `tail` holds the names, none of
   * which is empty or ".".
   */
  datatype PurePosixPath = PurePosixPath(root: string, tail: seq<string>)

  /** A name that can stand in a parsed tail. */
  predicate PosixName(n: string) {
    n != "" && n != "." && '/' !in n
  }

  predicate PosixNames(ns: seq<string>) {
    forall i :: 0 <= i < |ns| ==> PosixName(ns[i])
  }

  predicate WellFormed(p: PurePosixPath) {
    (p.root == "" || p.root == "/" || p.root == "//") && PosixNames(p.tail)
  }

  /** posixpath.splitroot without the (always empty) drive: (root, rest). */
  function SplitRoot(s: string): (r: (string, string))
    ensures r.0 + r.1 == s
    ensures r.0 == "" <==> (s == [] || s[0] != '/')
  {
    if |s| == 0 || s[0] != '/' then ("", s)
    else if |s| == 1 || s[1] != '/' || (|s| >= 3 && s[2] == '/') then ("/", s[1..])
    else ("//", s[2..])
  }

  /** `PurePosixPath(s)`. */
  function Parse(s: string): (p: PurePosixPath)
    ensures WellFormed(p)
    ensures p.root == "" <==> (s == [] || s[0] != '/')
  {
    var (root, rest) := SplitRoot(s);
    var names := Components(rest, '/');
    assert PosixNames(names) by {
      forall i | 0 <= i < |names| ensures PosixName(names[i]) {
        assert names[i] in Split(rest, '/');
      }
    }
    PurePosixPath(root, names)
  }

  /** `str(path)`. */
  function Format(p: PurePosixPath): string {
    if p.root != "" then p.root + Join(p.tail, "/")
    else if p.tail == [] then "."
    else Join(p.tail, "/")
  }

  /** `path.parts`. */
  function Parts(p: PurePosixPath): (r: seq<string>)
    ensures |r| == (if p.root == "" then 0 else 1) + |p.tail|
  {
    (if p.root == "" then [] else [p.root]) + p.tail
  }

  /** `path.is_relative_to(other)`: `other` equals `path` or is one of its parents. */
  predicate IsRelativeTo(p: PurePosixPath, other: PurePosixPath) {
    p.root == other.root && other.tail <= p.tail
  }

  /** `path.relative_to(other)` once `is_relative_to` holds. */
  function RelativeTo(p: PurePosixPath, other: PurePosixPath): (r: PurePosixPath)
    requires IsRelativeTo(p, other)
    ensures r.root == "" && other.tail + r.tail == p.tail
  {
    PurePosixPath("", p.tail[|other.tail|..])
  }

  /** `posixpath.join(a, *ps)`: an absolute piece restarts the path. */
  function JoinPaths(a: string, ps: seq<string>): string
    decreases |ps|
  {
    if ps == [] then a
    else
      var b := ps[0];
      var next :=
        if |b| > 0 && b[0] == '/' then b
        else if a == [] || a[|a| - 1] == '/' then a + b
        else a + "/" + b;
      JoinPaths(next, ps[1..])
  }

  /** Lexical `..` processing of realpath: a `..` drops the last name, and is lost at the root. */
  function Normalize(acc: seq<string>, names: seq<string>): seq<string>
    decreases |names|
  {
    if names == [] then acc
    else if names[0] == ".." then Normalize(if acc == [] then [] else acc[..|acc| - 1], names[1..])
    else Normalize(acc + [names[0]], names[1..])
  }

  /** `Path(cwd)` for the working directory given by its names. */
  function CwdPath(cwd: seq<string>): PurePosixPath {
    PurePosixPath("/", cwd)
  }

  /** `path.resolve()`: a relative path is taken from `cwd`; the result is absolute. */
  function Resolve(p: PurePosixPath, cwd: seq<string>): (r: PurePosixPath)
    ensures r.root == "/"
  {
    PurePosixPath("/", Normalize(if p.root != "" then [] else cwd, p.tail))
  }

  function CommonPrefixLength(a: seq<string>, b: seq<string>): (n: nat)
    ensures n <= |a| && n <= |b| && a[..n] == b[..n]
    ensures n < |a| && n < |b| ==> a[n] != b[n]
  {
    if a == [] || b == [] || a[0] != b[0] then 0
    else
      var m := CommonPrefixLength(a[1..], b[1..]);
      assert a[..m + 1] == [a[0]] + a[1..][..m];
      assert b[..m + 1] == [b[0]] + b[1..][..m];
      1 + m
  }

  function Repeat(s: string, n: nat): (r: seq<string>)
    ensures |r| == n && forall i :: 0 <= i < n ==> r[i] == s
  {
    if n == 0 then [] else [s] + Repeat(s, n - 1)
  }

  /** `os.path.relpath(path)` for a normalised absolute path, from the working directory. */
  function RelPath(tail: seq<string>, cwd: seq<string>): string {
    var i := CommonPrefixLength(cwd, tail);
    var rel := Repeat("..", |cwd| - i) + tail[i..];
    if rel == [] then "." else JoinPaths(rel[0], rel[1..])
  }

  // ---------------------------------------------------------------------------
  // Lemmas

  /** An absolute path written out from well-formed names parses back to those names. */
  lemma ParseAbsolute(names: seq<string>)
    requires PosixNames(names)
    ensures Parse("/" + Join(names, "/")) == PurePosixPath("/", names)
  {
    var s := "/" + Join(names, "/");
    if names != [] {
      JoinFirst(names, "/");
      assert s[1] == names[0][0];
    }
    assert SplitRoot(s) == ("/", Join(names, "/"));
    ComponentsOfJoin(names, '/');
  }

  /** A relative path written out from well-formed names parses back to those names. */
  lemma ParseRelative(names: seq<string>)
    requires PosixNames(names) && names != []
    ensures Parse(Join(names, "/")) == PurePosixPath("", names)
  {
    JoinFirst(names, "/");
    ComponentsOfJoin(names, '/');
  }

  /** `str` and parsing are inverse on well-formed paths. */
  lemma ParseFormat(p: PurePosixPath)
    requires WellFormed(p)
    ensures Parse(Format(p)) == p
  {
    if p.root == "/" {
      ParseAbsolute(p.tail);
    } else if p.root == "//" {
      var s := "//" + Join(p.tail, "/");
      if p.tail != [] {
        JoinFirst(p.tail, "/");
        assert s[2] == p.tail[0][0];
      }
      assert SplitRoot(s) == ("//", Join(p.tail, "/"));
      ComponentsOfJoin(p.tail, '/');
    } else if p.tail == [] {
      SplitNoSep(".", '/');
    } else {
      ParseRelative(p.tail);
    }
  }

  lemma {:induction false} NormalizeNoParent(acc: seq<string>, names: seq<string>)
    requires ".." !in names
    ensures Normalize(acc, names) == acc + names
    decreases |names|
  {
    if names != [] {
      NormalizeNoParent(acc + [names[0]], names[1..]);
      assert acc + [names[0]] + names[1..] == acc + names;
    }
  }

  /** Joining plain names onto a non-empty base inserts exactly one slash between pieces. */
  lemma {:induction false} JoinPathsNames(a: string, names: seq<string>)
    requires a != [] && PosixNames(names)
    ensures JoinPaths(a, names) ==
      if names == [] then a
      else if a[|a| - 1] == '/' then a + Join(names, "/")
      else a + "/" + Join(names, "/")
    decreases |names|
  {
    if names != [] {
      var next := if a[|a| - 1] == '/' then a + names[0] else a + "/" + names[0];
      assert JoinPaths(a, names) == JoinPaths(next, names[1..]);
      var last := names[0][|names[0]| - 1];
      assert next[|next| - 1] == last;
      assert last != '/' by { assert last in names[0]; }
      JoinPathsNames(next, names[1..]);
    }
  }

  /** `posixpath.join` of an absolute path and plain names: one slash between every two names. */
  lemma PosixJoinString(ptail: seq<string>, names: seq<string>)
    requires PosixNames(ptail) && PosixNames(names)
    ensures JoinPaths("/" + Join(ptail, "/"), names) == "/" + Join(ptail + names, "/")
  {
    var a := "/" + Join(ptail, "/");
    JoinPathsNames(a, names);
    if names == [] {
      assert ptail + names == ptail;
    } else if ptail == [] {
      assert a == "/";
      assert ptail + names == names;
    } else {
      JoinLast(ptail, "/");
      assert a[|a| - 1] == ptail[|ptail| - 1][|ptail[|ptail| - 1]| - 1];
      assert a[|a| - 1] != '/' by { assert a[|a| - 1] in ptail[|ptail| - 1]; }
      JoinAppend(ptail, names, "/");
    }
  }

  /** `str(Path(prefix).joinpath(*names))` for an absolute prefix written from plain names. */
  lemma PosixJoinAbsolute(ptail: seq<string>, names: seq<string>)
    requires PosixNames(ptail) && PosixNames(names)
    ensures Format(Parse(JoinPaths("/" + Join(ptail, "/"), names))) == "/" + Join(ptail + names, "/")
  {
    PosixJoinString(ptail, names);
    assert PosixNames(ptail + names);
    ParseAbsolute(ptail + names);
  }

  lemma {:induction false} NormalizeNames(acc: seq<string>, names: seq<string>)
    requires PosixNames(acc) && PosixNames(names)
    ensures PosixNames(Normalize(acc, names))
    decreases |names|
  {
    if names != [] {
      if names[0] == ".." {
        NormalizeNames(if acc == [] then [] else acc[..|acc| - 1], names[1..]);
      } else {
        NormalizeNames(acc + [names[0]], names[1..]);
      }
    }
  }

  /** Inside the working directory, `os.path.relpath` is the names below it. */
  lemma RelPathInside(tail: seq<string>, cwd: seq<string>)
    requires cwd <= tail && PosixNames(tail)
    ensures RelPath(tail, cwd) == Format(PurePosixPath("", tail[|cwd|..]))
  {
    var i := CommonPrefixLength(cwd, tail);
    assert i == |cwd|;
    var rel := tail[|cwd|..];
    assert Repeat("..", 0) + rel == rel;
    if rel != [] {
      assert rel[0] == tail[|cwd|];
      JoinPathsNames(rel[0], rel[1..]);
      assert [rel[0]] + rel[1..] == rel;
    }
  }
}
