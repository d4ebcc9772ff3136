/**
 * The parts of Python's `pathlib.PureWindowsPath` and `ntpath` that the
 * converters use: `ntpath.splitroot`, parsing (either slash is a separator,
 * a UNC drive always gets a root), `str()`, `as_posix()`, `is_absolute()`
 * and `ntpath.join`.
 */
module WindowsPaths {
  import opened Strings

  /**
   * A parsed PureWindowsPath: the drive ("C:", "\\server\share" or ""), the
   * root ("\" or ""), and the names (none empty or ".").
   */
  datatype PureWindowsPath = PureWindowsPath(drive: string, root: string, tail: seq<string>)

  predicate IsSep(c: char) {
    c == '\\' || c == '/'
  }

  /** `normp[:8].upper() == '\\\\?\\UNC\\'`. */
  predicate HasUncPrefix(n: string) {
    |n| >= 8 && n[0] == '\\' && n[1] == '\\' && n[2] == '?' && n[3] == '\\' &&
    AsciiUpper(n[4]) == 'U' && AsciiUpper(n[5]) == 'N' && AsciiUpper(n[6]) == 'C' && n[7] == '\\'
  }

  /**
   * `ntpath.splitroot(p)`: (drive, root, rest). The decisions are taken on the
   * string with '/' read as '\', the pieces are slices of `p` itself.
   */
  function SplitRoot(p: string): (r: (string, string, string))
    ensures r.0 + r.1 + r.2 == p
  {
    var n := SubstChar(p, '/', '\\');
    if |n| >= 1 && n[0] == '\\' then
      if |n| >= 2 && n[1] == '\\' then
        var start := if HasUncPrefix(n) then 8 else 2;
        var i := FindFrom(n, '\\', start);
        if i < 0 then (p, "", "")
        else
          var j := FindFrom(n, '\\', i + 1);
          if j < 0 then (p, "", "")
          else (p[..j], p[j..j + 1], p[j + 1..])
      else ("", p[..1], p[1..])
    else if |n| >= 2 && n[1] == ':' then
      if |n| >= 3 && n[2] == '\\' then (p[..2], p[2..3], p[3..])
      else (p[..2], "", p[2..])
    else ("", "", p)
  }

  /** pathlib gives a root to a UNC drive that has none (`\\server\share` alone). */
  predicate UncNeedsRoot(drive: string) {
    |drive| > 0 && drive[0] == '\\' && drive[|drive| - 1] != '\\' &&
    var parts := Split(drive, '\\');
    (|parts| == 4 && parts[2] != "" && parts[2] != "?" && parts[2] != "." && parts[2] != "?.") ||
    |parts| == 6
  }

  /** `PureWindowsPath(s)`. */
  function Parse(s: string): PureWindowsPath {
    if s == [] then PureWindowsPath("", "", [])
    else
      var p := SubstChar(s, '/', '\\');
      var (drive, root, rest) := SplitRoot(p);
      PureWindowsPath(drive, if root == "" && UncNeedsRoot(drive) then "\\" else root,
                      Components(rest, '\\'))
  }

  /** `str(path)`; a first name that looks like a drive is protected by ".\". */
  function Format(w: PureWindowsPath): string {
    if w.drive != "" || w.root != "" then w.drive + w.root + Join(w.tail, "\\")
    else if w.tail == [] then "."
    else if SplitRoot(w.tail[0]).0 != "" then Join(["."] + w.tail, "\\")
    else Join(w.tail, "\\")
  }

  /** `path.is_absolute()`: both a drive and a root. */
  predicate IsAbsolute(w: PureWindowsPath) {
    w.drive != "" && w.root != ""
  }

  /** `path.as_posix()`. */
  function AsPosix(w: PureWindowsPath): string {
    SubstChar(Format(w), '\\', '/')
  }

  /** `str(PureWindowsPath(s))`: always spelled with backslashes. */
  function Normal(s: string): (r: string)
    ensures '/' !in r
  {
    ParseNoSlash(s);
    Format(Parse(s))
  }

  /** `ntpath.join(path, *paths)`. */
  function JoinPaths(path: string, paths: seq<string>): string {
    var (d0, r0, p0) := SplitRoot(path);
    var (d, r, p) := JoinLoop(d0, r0, p0, paths);
    if p != "" && r == "" && d != "" && d[|d| - 1] != ':' && d[|d| - 1] != '\\' && d[|d| - 1] != '/' then d + "\\" + p
    else d + r + p
  }

  /** The loop of `ntpath.join` over the pieces after the first. */
  function JoinLoop(d: string, r: string, p: string, paths: seq<string>): (string, string, string)
    decreases |paths|
  {
    if paths == [] then (d, r, p)
    else
      var (pd, pr, pp) := SplitRoot(paths[0]);
      if pr != "" then
        // an absolute piece replaces root and path, and the drive if it has one
        JoinLoop(if pd != "" || d == "" then pd else d, pr, pp, paths[1..])
      else if pd != "" && pd != d && LowerAscii(pd) != LowerAscii(d) then
        // a different drive discards everything before it
        JoinLoop(pd, pr, pp, paths[1..])
      else
        var p' := (if p != "" && !IsSep(p[|p| - 1]) then p + "\\" else p) + pp;
        JoinLoop(if pd != "" then pd else d, r, p', paths[1..])
  }

  // ---------------------------------------------------------------------------
  // Names that every step keeps as they are

  /** A name with no separator that `splitroot` cannot read as a drive. */
  predicate WinName(n: string) {
    n != "" && n != "." && '\\' !in n && '/' !in n &&
    !(|n| >= 2 && n[1] == ':')
  }

  predicate WinNames(ns: seq<string>) {
    forall i :: 0 <= i < |ns| ==> WinName(ns[i])
  }

  /** `\\server\share`. */
  function UncDrive(server: string, share: string): string {
    "\\\\" + server + "\\" + share
  }

  /** A server or share name: non-empty, no separator, and not a device-path marker. */
  predicate UncPart(n: string) {
    n != "" && n != "?" && n != "." && n != "?." && '\\' !in n && '/' !in n
  }

  lemma SplitRootName(n: string)
    requires WinName(n)
    ensures SplitRoot(n) == ("", "", n)
  {
    SubstCharNoOp(n, '/', '\\');
  }

  lemma JoinLoopNames(d: string, r: string, p: string, names: seq<string>)
    requires WinNames(names)
    requires p == "" || !IsSep(p[|p| - 1])
    ensures JoinLoop(d, r, p, names) ==
      (d, r, if p == "" then Join(names, "\\") else Join([p] + names, "\\"))
  {
    if p != "" {
      JoinLoopAppend(d, r, p, names);
    } else if names != [] {
      var p' := JoinLoopStep(d, r, p, names);
      JoinLoopAppend(d, r, p', names[1..]);
      assert [names[0]] + names[1..] == names;
    }
  }

  /** After a first piece, every plain name is appended after a backslash. */
  lemma {:induction false} JoinLoopAppend(d: string, r: string, p: string, names: seq<string>)
    requires WinNames(names)
    requires p != "" && !IsSep(p[|p| - 1])
    ensures JoinLoop(d, r, p, names) == (d, r, Join([p] + names, "\\"))
    decreases |names|
  {
    if names != [] {
      var p' := JoinLoopStep(d, r, p, names);
      JoinLoopAppend(d, r, p', names[1..]);
      JoinConsNames(p, names, "\\");
    }
  }

  /** One turn of the loop of `ntpath.join` on a plain name: it is appended after a backslash. */
  lemma JoinLoopStep(d: string, r: string, p: string, names: seq<string>) returns (p': string)
    requires names != [] && WinName(names[0])
    requires p == "" || !IsSep(p[|p| - 1])
    ensures p' == (if p != "" then p + "\\" + names[0] else names[0])
    ensures p' != "" && !IsSep(p'[|p'| - 1])
    ensures JoinLoop(d, r, p, names) == JoinLoop(d, r, p', names[1..])
  {
    SplitRootName(names[0]);
    JoinLoopRelative(d, r, p, names);
    p' := AppendName(p, names[0]);
  }

  /** `p` followed by a backslash, if it is not empty, and the name `n`. */
  lemma AppendName(p: string, n: string) returns (p': string)
    requires WinName(n)
    ensures p' == (if p != "" then p + "\\" + n else n)
    ensures p' == (if p != "" then p + "\\" else p) + n
    ensures p' != "" && !IsSep(p'[|p'| - 1])
  {
    p' := (if p != "" then p + "\\" else p) + n;
    assert p'[|p'| - 1] == n[|n| - 1];
  }

  lemma JoinLoopRelative(d: string, r: string, p: string, paths: seq<string>)
    requires paths != [] && SplitRoot(paths[0]) == ("", "", paths[0])
    ensures JoinLoop(d, r, p, paths) ==
      JoinLoop(d, r, (if p != "" && !IsSep(p[|p| - 1]) then p + "\\" else p) + paths[0], paths[1..])
  {
  }

  lemma JoinConsNames(p: string, names: seq<string>, sep: string)
    requires names != []
    ensures Join([p + sep + names[0]] + names[1..], sep) == Join([p] + names, sep)
  {
    JoinCons(p, names[0], names[1..], sep);
    assert [p, names[0]] + names[1..] == [p] + names;
  }

  lemma JoinCons(x: string, y: string, rest: seq<string>, sep: string)
    ensures Join([x + sep + y] + rest, sep) == Join([x, y] + rest, sep)
  {
    assert ([x, y] + rest)[1..] == [y] + rest;
    if rest != [] {
      assert ([x + sep + y] + rest)[1..] == rest;
      assert ([y] + rest)[1..] == rest;
    }
  }

  lemma {:induction false} JoinNoSep(names: seq<string>)
    requires WinNames(names)
    ensures '/' !in Join(names, "\\")
  {
    forall k | 0 <= k < |names| ensures '/' !in names[k] {
      assert WinName(names[k]);
    }
    JoinNoChar(names, '\\', '/');
  }

  lemma WinNamesComponents(names: seq<string>)
    requires WinNames(names)
    ensures Components(Join(names, "\\"), '\\') == names
  {
    forall k | 0 <= k < |names| ensures names[k] != "" && names[k] != "." && '\\' !in names[k] {
      assert WinName(names[k]);
    }
    ComponentsOfJoin(names, '\\');
  }

  /** A drive-letter path written out from plain names parses back to its drive and names. */
  lemma ParseDrivePath(drive: string, names: seq<string>)
    requires |drive| == 2 && drive[1] == ':' && !IsSep(drive[0])
    requires WinNames(names)
    ensures Parse(drive + "\\" + Join(names, "\\")) == PureWindowsPath(drive, "\\", names)
  {
    var s := drive + "\\" + Join(names, "\\");
    JoinNoSep(names);
    assert '/' !in drive by { assert drive == [drive[0], ':']; }
    SubstCharNoOp(s, '/', '\\');
    assert SplitRoot(s) == (drive, "\\", Join(names, "\\"));
    WinNamesComponents(names);
  }

  lemma UncDriveSplit(server: string, share: string)
    requires UncPart(server) && UncPart(share)
    ensures Split(UncDrive(server, share), '\\') == ["", "", server, share]
  {
    SplitNoSep(share, '\\');
    SplitAfter(server, share, '\\');
    SplitAfter("", server + "\\" + share, '\\');
    assert "" + [ '\\' ] + (server + "\\" + share) == "\\" + server + "\\" + share;
    SplitAfter("", "\\" + server + "\\" + share, '\\');
    assert "" + [ '\\' ] + ("\\" + server + "\\" + share) == UncDrive(server, share);
  }

  /** `splitroot` of a slash-free string starting with two backslashes (no `\\?\UNC\` prefix). */
  lemma SplitRootDoubleBackslash(p: string)
    requires '/' !in p && |p| >= 2 && p[0] == '\\' && p[1] == '\\' && !HasUncPrefix(p)
    ensures var i := FindFrom(p, '\\', 2);
      var j := if i < 0 then -1 else FindFrom(p, '\\', i + 1);
      SplitRoot(p) == if j < 0 then (p, "", "") else (p[..j], p[j..j + 1], p[j + 1..])
  {
    SubstCharNoOp(p, '/', '\\');
  }

  /** `splitroot` of a UNC drive followed by nothing or by a backslash and more. */
  lemma SplitRootUnc(server: string, share: string, rest: string)
    requires UncPart(server) && UncPart(share)
    requires '/' !in rest
    requires rest == "" || rest[0] == '\\'
    ensures var drive := UncDrive(server, share);
      SplitRoot(drive + rest) == if rest == "" then (drive, "", "") else (drive, "\\", rest[1..])
  {
    var drive := UncDrive(server, share);
    var s := drive + rest;
    NoSlashUnc(server, share, rest);
    assert !HasUncPrefix(s) by {
      if |server| == 1 { assert s[2] == server[0]; }
      else { assert s[3] == server[1]; }
    }
    SplitRootDoubleBackslash(s);
    UncSeparators(server, share, rest);
    if rest != "" {
      assert s[..|drive|] == drive && s[|drive|..|drive| + 1] == "\\" && s[|drive| + 1..] == rest[1..];
    } else {
      assert s == drive;
    }
  }

  /** Where the two backslashes after the leading pair of a UNC path are. */
  lemma UncSeparators(server: string, share: string, rest: string)
    requires UncPart(server) && UncPart(share)
    requires rest == "" || rest[0] == '\\'
    ensures var drive := UncDrive(server, share);
      FindFrom(drive + rest, '\\', 2) == 2 + |server| &&
      FindFrom(drive + rest, '\\', 3 + |server|) == if rest == "" then -1 else |drive|
  {
    UncFirstSeparator(server, share, rest);
    UncSecondSeparator(server, share, rest);
  }

  lemma UncFirstSeparator(server: string, share: string, rest: string)
    requires UncPart(server) && UncPart(share)
    ensures FindFrom(UncDrive(server, share) + rest, '\\', 2) == 2 + |server|
  {
    var a := "\\\\" + server;
    var b := "\\" + share + rest;
    assert UncDrive(server, share) + rest == a + b;
    forall k | 2 <= k < |a| ensures a[k] != '\\' {
      assert a[k] == server[k - 2];
    }
    FindFromConcat(a, b, '\\', 2);
    assert FindFrom(b, '\\', 0) == 0;
  }

  lemma UncSecondSeparator(server: string, share: string, rest: string)
    requires UncPart(server) && UncPart(share)
    requires rest == "" || rest[0] == '\\'
    ensures FindFrom(UncDrive(server, share) + rest, '\\', 3 + |server|) ==
      if rest == "" then -1 else |UncDrive(server, share)|
  {
    var drive := UncDrive(server, share);
    forall k | 3 + |server| <= k < |drive| ensures drive[k] != '\\' {
      assert drive[k] == share[k - 3 - |server|];
    }
    FindFromConcat(drive, rest, '\\', 3 + |server|);
    if rest != "" {
      assert FindFrom(rest, '\\', 0) == 0;
    }
  }

  lemma NoSlashUnc(server: string, share: string, rest: string)
    requires UncPart(server) && UncPart(share) && '/' !in rest
    ensures '/' !in UncDrive(server, share) + rest
  {
  }

  /** A UNC path written out from plain names parses back to its drive and names. */
  lemma ParseUncPath(server: string, share: string, names: seq<string>)
    requires UncPart(server) && UncPart(share) && WinNames(names)
    ensures Parse(UncDrive(server, share) + "\\" + Join(names, "\\")) ==
      PureWindowsPath(UncDrive(server, share), "\\", names)
  {
    var drive := UncDrive(server, share);
    var rest := "\\" + Join(names, "\\");
    JoinNoSep(names);
    SplitRootUnc(server, share, rest);
    assert drive + rest == drive + "\\" + Join(names, "\\");
    SubstCharNoOp(drive + rest, '/', '\\');
    assert rest[1..] == Join(names, "\\");
    WinNamesComponents(names);
  }

  /** A bare `\\server\share` gets a root, so its string form ends with a backslash. */
  lemma ParseUncDrive(server: string, share: string)
    requires UncPart(server) && UncPart(share)
    ensures Parse(UncDrive(server, share)) == PureWindowsPath(UncDrive(server, share), "\\", [])
  {
    var drive := UncDrive(server, share);
    SplitRootUnc(server, share, "");
    assert drive + "" == drive;
    NoSlashUnc(server, share, "");
    SubstCharNoOp(drive, '/', '\\');
    UncDriveSplit(server, share);
    assert drive[|drive| - 1] == share[|share| - 1];
    assert UncNeedsRoot(drive);
    assert Split("", '\\') == [""];
  }

  // ---------------------------------------------------------------------------
  // Spellings and joins

  /** The pieces of a slash-free string are slash-free. */
  lemma PiecesNoSlash(p: string, a: string, b: string, c: string)
    requires a + b + c == p && '/' !in p
    ensures '/' !in a && '/' !in b && '/' !in c
  {
    forall k | 0 <= k < |a| ensures a[k] != '/' { assert a[k] == p[k]; }
    forall k | 0 <= k < |b| ensures b[k] != '/' { assert b[k] == p[|a| + k]; }
    forall k | 0 <= k < |c| ensures c[k] != '/' { assert c[k] == p[|a| + |b| + k]; }
  }

  /** A path parsed from any string holds no '/' in its drive, root or names. */
  lemma ParseNoSlash(s: string)
    ensures var w := Parse(s);
      '/' !in w.drive && '/' !in w.root && forall i :: 0 <= i < |w.tail| ==> '/' !in w.tail[i]
    ensures '/' !in Format(Parse(s))
  {
    var w := Parse(s);
    if s != [] {
      var p := SubstChar(s, '/', '\\');
      var parts := SplitRoot(p);
      PiecesNoSlash(p, parts.0, parts.1, parts.2);
      SplitKeepsOut(parts.2, '\\', '/');
      assert w.tail == Components(parts.2, '\\');
      forall i | 0 <= i < |w.tail| ensures '/' !in w.tail[i] {
        assert w.tail[i] in Split(parts.2, '\\');
      }
    }
    FormatNoSlash(w);
  }

  lemma FormatNoSlash(w: PureWindowsPath)
    requires '/' !in w.drive && '/' !in w.root && forall i :: 0 <= i < |w.tail| ==> '/' !in w.tail[i]
    ensures '/' !in Format(w)
  {
    if w.drive != "" || w.root != "" {
      JoinNoChar(w.tail, '\\', '/');
    } else if w.tail != [] {
      JoinNoChar(w.tail, '\\', '/');
      if SplitRoot(w.tail[0]).0 != "" {
        JoinNoChar(["."] + w.tail, '\\', '/');
      }
    }
  }

  /** Parsing reads '/' as '\': two strings that agree once every '/' is a '\' parse alike. */
  lemma ParseSlashes(s: string, t: string)
    requires SubstChar(s, '/', '\\') == SubstChar(t, '/', '\\')
    ensures Parse(s) == Parse(t)
  {
  }

  /** A path spelt with '/' instead of '\' parses the same. */
  lemma ParseForwardSlashes(s: string)
    ensures Parse(SubstChar(s, '\\', '/')) == Parse(s)
  {
    SubstCharBack(s, '\\', '/');
    ParseSlashes(SubstChar(s, '\\', '/'), s);
  }

  /** `PureWindowsPath("X:\\").joinpath(*names)`: the names after the drive root. */
  lemma JoinDriveRoot(drive: string, names: seq<string>)
    requires |drive| == 2 && drive[1] == ':' && !IsSep(drive[0])
    requires WinNames(names)
    ensures Normal(JoinPaths(drive + "\\", names)) == drive + "\\" + Join(names, "\\")
  {
    var s := drive + "\\";
    assert s == [drive[0], ':', '\\'];
    SubstCharNoOp(s, '/', '\\');
    assert s[..2] == drive && s[2..3] == "\\" && s[3..] == "";
    assert SplitRoot(s) == (drive, "\\", "");
    JoinLoopNames(drive, "\\", "", names);
    assert JoinPaths(s, names) == drive + "\\" + Join(names, "\\");
    ParseDrivePath(drive, names);
  }

  /** `PureWindowsPath("\\\\server\\share\\").joinpath(*names)`: the names after the share root. */
  lemma JoinUncRoot(server: string, share: string, names: seq<string>)
    requires UncPart(server) && UncPart(share) && WinNames(names)
    ensures Normal(JoinPaths(UncDrive(server, share) + "\\", names)) == UncDrive(server, share) + "\\" + Join(names, "\\")
  {
    var drive := UncDrive(server, share);
    SplitRootUnc(server, share, "\\");
    assert "\\"[1..] == "";
    JoinLoopNames(drive, "\\", "", names);
    assert JoinPaths(drive + "\\", names) == drive + "\\" + Join(names, "\\");
    ParseUncPath(server, share, names);
  }

  /** `PureWindowsPath("\\\\server\\share").joinpath(*names)`: one backslash goes between share and names. */
  lemma JoinUncNames(server: string, share: string, names: seq<string>)
    requires UncPart(server) && UncPart(share) && WinNames(names)
    requires share[|share| - 1] != ':'
    ensures Normal(JoinPaths(UncDrive(server, share), names)) == UncDrive(server, share) + "\\" + Join(names, "\\")
  {
    var drive := UncDrive(server, share);
    SplitRootUnc(server, share, "");
    assert drive + "" == drive;
    JoinLoopNames(drive, "", "", names);
    if names == [] {
      assert JoinPaths(drive, names) == drive;
      ParseUncDrive(server, share);
    } else {
      JoinFirst(names, "\\");
      assert drive[|drive| - 1] == share[|share| - 1];
      assert JoinPaths(drive, names) == drive + "\\" + Join(names, "\\");
      ParseUncPath(server, share, names);
    }
  }

  /** The drive-free, root-only reading of "/" followed by names. */
  lemma SplitRootSlashNames(names: seq<string>)
    requires WinNames(names)
    ensures SplitRoot("/" + Join(names, "/")) == ("", "/", Join(names, "/"))
  {
    var q := "/" + Join(names, "/");
    forall i | 0 <= i < |names| ensures '/' !in names[i] {
      assert WinName(names[i]);
    }
    SubstCharConcat("/", Join(names, "/"), '/', '\\');
    SubstCharJoin(names, '/', '\\');
    var n := SubstChar(q, '/', '\\');
    assert n == "\\" + Join(names, "\\");
    if names != [] {
      JoinFirst(names, "\\");
      assert n[1] == names[0][0];
      assert WinName(names[0]);
      assert names[0][0] != '\\' by { assert names[0][0] in names[0]; }
    }
  }

  /** `ntpath.join` of a share and an absolute POSIX path keeps the path's own '/' root. */
  lemma JoinUncSlash(server: string, share: string, names: seq<string>)
    requires UncPart(server) && UncPart(share) && WinNames(names)
    ensures JoinPaths(UncDrive(server, share), ["/" + Join(names, "/")]) == UncDrive(server, share) + "/" + Join(names, "/")
  {
    var drive := UncDrive(server, share);
    var q := "/" + Join(names, "/");
    SplitRootUnc(server, share, "");
    assert drive + "" == drive;
    SplitRootSlashNames(names);
    assert JoinLoop(drive, "", "", [q]) == (drive, "/", Join(names, "/"));
  }

  /** Reading the '/' after a share as a backslash. */
  lemma UncSlashSpelling(server: string, share: string, names: seq<string>)
    requires UncPart(server) && UncPart(share) && WinNames(names)
    ensures SubstChar(UncDrive(server, share) + "/" + Join(names, "/"), '/', '\\') ==
      UncDrive(server, share) + "\\" + Join(names, "\\")
  {
    var drive := UncDrive(server, share);
    NoSlashUnc(server, share, "");
    assert drive + "" == drive;
    forall i | 0 <= i < |names| ensures '/' !in names[i] {
      assert WinName(names[i]);
    }
    SubstCharJoin(names, '/', '\\');
    SubstCharConcat(drive + "/", Join(names, "/"), '/', '\\');
    SubstCharConcat(drive, "/", '/', '\\');
    SubstCharNoOp(drive, '/', '\\');
  }

  /** A share followed by '/' and names parses like the backslash spelling. */
  lemma ParseUncSlashes(server: string, share: string, names: seq<string>)
    requires UncPart(server) && UncPart(share) && WinNames(names)
    ensures Parse(UncDrive(server, share) + "/" + Join(names, "/")) == PureWindowsPath(UncDrive(server, share), "\\", names)
  {
    UncSpellings(server, share, names);
    ParseSlashes(UncDrive(server, share) + "/" + Join(names, "/"), UncDrive(server, share) + "\\" + Join(names, "\\"));
    ParseUncPath(server, share, names);
  }

  /** The '/' and '\' spellings of a share and names agree once '/' is read as '\'. */
  lemma UncSpellings(server: string, share: string, names: seq<string>)
    requires UncPart(server) && UncPart(share) && WinNames(names)
    ensures SubstChar(UncDrive(server, share) + "/" + Join(names, "/"), '/', '\\') ==
      SubstChar(UncDrive(server, share) + "\\" + Join(names, "\\"), '/', '\\')
  {
    UncSlashSpelling(server, share, names);
    UncBackslashes(server, share, names);
  }

  lemma UncBackslashes(server: string, share: string, names: seq<string>)
    requires UncPart(server) && UncPart(share) && WinNames(names)
    ensures var b := UncDrive(server, share) + "\\" + Join(names, "\\"); SubstChar(b, '/', '\\') == b
  {
    var rest := "\\" + Join(names, "\\");
    JoinNoSep(names);
    assert '/' !in rest;
    NoSlashUnc(server, share, rest);
    assert UncDrive(server, share) + rest == UncDrive(server, share) + "\\" + Join(names, "\\");
    SubstCharNoOp(UncDrive(server, share) + rest, '/', '\\');
  }

  /** `PureWindowsPath(share).joinpath(path)` for an absolute POSIX path: the path's names after the share root. */
  lemma JoinUncAbsolute(server: string, share: string, names: seq<string>)
    requires UncPart(server) && UncPart(share) && WinNames(names)
    ensures Normal(JoinPaths(UncDrive(server, share), ["/" + Join(names, "/")])) ==
      UncDrive(server, share) + "\\" + Join(names, "\\")
  {
    JoinUncSlash(server, share, names);
    ParseUncSlashes(server, share, names);
  }

  /** Plain names joined by backslashes parse as a relative path, and print back the same way. */
  lemma ParseRelativeNames(names: seq<string>)
    requires names != [] && WinNames(names)
    ensures Parse(Join(names, "\\")) == PureWindowsPath("", "", names)
    ensures Format(PureWindowsPath("", "", names)) == Join(names, "\\")
  {
    var s := Join(names, "\\");
    JoinNoSep(names);
    SubstCharNoOp(s, '/', '\\');
    assert WinName(names[0]);
    JoinFirst(names, "\\");
    assert s[0] == names[0][0] && names[0][0] in names[0];
    if |s| >= 2 {
      if |names| == 1 {
        assert s == names[0];
      } else if |names[0]| >= 2 {
        assert s == names[0] + "\\" + Join(names[1..], "\\");
        assert s[1] == names[0][1];
      } else {
        assert s == names[0] + "\\" + Join(names[1..], "\\");
        assert s[1] == '\\';
      }
    }
    assert SplitRoot(s) == ("", "", s);
    WinNamesComponents(names);
    SplitRootName(names[0]);
  }
}
