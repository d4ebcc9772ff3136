/**
 * What `wb.py`'s converters promise: URLs other than `file` pass through, a
 * Windows path reads the same with '/' as with '\', relative paths only change
 * their separators, `/mnt/<letter>` and `X:` convert into each other up to the
 * case of the letter, and paths into WSL distributions go there and back.
 * `WSL_DISTRO_NAME` is needed only for the current distribution.
 */
module WbProps {
  import opened Strings
  import opened Errors
  import Misc
  import Urls
  import PosixPaths
  import WindowsPaths
  import WslRules
  import opened PathConvertProps
  import opened Wb

  /** Input that is no URL once stripped goes straight to the path rules. */
  lemma LinuxPathOnly(input: string, cwd: seq<string>, env: Option<string>)
    requires !Misc.IsUrl(Strip(input))
    ensures LinuxToWindows(input, cwd, env) == LinuxPathToWindows(Strip(input), cwd, env)
  {
  }

  lemma WindowsPathOnly(input: string, env: Option<string>)
    requires !Misc.IsUrl(Strip(input))
    ensures WindowsToLinux(input, env) == WindowsPathToLinux(Strip(input), env)
  {
  }

  /** A URL whose scheme is not `file` comes back stripped and otherwise untouched, both ways, whatever the environment. */
  lemma OtherUrlUnchanged(input: string, cwd: seq<string>, env: Option<string>)
    requires Misc.IsUrl(Strip(input))
    requires Urls.UrlParse(Strip(input)).Ok? && Urls.UrlParse(Strip(input)).value.scheme != "file"
    ensures LinuxToWindows(input, cwd, env) == Ok(Strip(input))
    ensures WindowsToLinux(input, env) == Ok(Strip(input))
  {
  }

  /** `windows_to_linux` reads '/' as '\': both spellings of a path give the same result. */
  lemma ForwardSlashes(input: string, env: Option<string>)
    requires !Misc.IsUrl(Strip(input)) && !Misc.IsUrl(Strip(SubstChar(input, '\\', '/')))
    ensures WindowsToLinux(SubstChar(input, '\\', '/'), env) == WindowsToLinux(input, env)
  {
    WindowsPathOnly(input, env);
    WindowsPathOnly(SubstChar(input, '\\', '/'), env);
    ForwardSlashPath(input, env);
  }

  lemma ForwardSlashPath(input: string, env: Option<string>)
    ensures WindowsPathToLinux(Strip(SubstChar(input, '\\', '/')), env) == WindowsPathToLinux(Strip(input), env)
  {
    var s := Strip(input);
    StripSubst(input, '\\', '/');
    WindowsPaths.ParseForwardSlashes(s);
    SameParse(SubstChar(s, '\\', '/'), s, env);
  }

  /** The Windows path rules look at the parsed path only. */
  lemma SameParse(s: string, t: string, env: Option<string>)
    requires WindowsPaths.Parse(s) == WindowsPaths.Parse(t)
    ensures WindowsPathToLinux(s, env) == WindowsPathToLinux(t, env)
  {
  }

  // ---------------------------------------------------------------------------
  // Relative paths

  /** A relative path of plain names stays relative, only its separators change, both ways, whatever the environment. */
  lemma RelativeRoundTrip(names: seq<string>, cwd: seq<string>, env: Option<string>)
    requires names != [] && PlainNames(names)
    ensures LinuxToWindows(Join(names, "/"), cwd, env) == Ok(Join(names, "\\"))
    ensures WindowsToLinux(Join(names, "\\"), env) == Ok(Join(names, "/"))
  {
    RelativeToWindows(names, cwd, env);
    RelativeToLinux(names, env);
  }

  lemma RelativeToWindows(names: seq<string>, cwd: seq<string>, env: Option<string>)
    requires names != [] && PlainNames(names)
    ensures LinuxToWindows(Join(names, "/"), cwd, env) == Ok(Join(names, "\\"))
  {
    PlainNamesAre(names);
    var l := Join(names, "/");
    RelativeText(names, '/');
    LinuxPathOnly(l, cwd, env);
    PosixPaths.ParseRelative(names);
    PosixPaths.NormalizeNoParent(cwd, names);
    var res := PosixPaths.PurePosixPath("/", cwd + names);
    assert PosixPaths.Resolve(PosixPaths.Parse(l), cwd) == res;
    assert PosixPaths.IsRelativeTo(res, PosixPaths.CwdPath(cwd));
    assert (cwd + names)[|cwd|..] == names;
    assert PosixPaths.RelativeTo(res, PosixPaths.CwdPath(cwd)) == PosixPaths.PurePosixPath("", names);
    SubstCharJoin(names, '/', '\\');
  }

  lemma RelativeToLinux(names: seq<string>, env: Option<string>)
    requires names != [] && PlainNames(names)
    ensures WindowsToLinux(Join(names, "\\"), env) == Ok(Join(names, "/"))
  {
    PlainNamesAre(names);
    var w := Join(names, "\\");
    RelativeText(names, '\\');
    WindowsPathOnly(w, env);
    WindowsPaths.ParseRelativeNames(names);
    SubstCharJoin(names, '\\', '/');
  }

  // ---------------------------------------------------------------------------
  // Absolute paths

  /** An absolute Linux path of plain names goes through the drive, instance and distribution rules as it is. */
  lemma AbsoluteToWindows(ptail: seq<string>, cwd: seq<string>, env: Option<string>)
    requires PlainNames(ptail)
    ensures LinuxToWindows("/" + Join(ptail, "/"), cwd, env) ==
      ResolvedToWindows(PosixPaths.PurePosixPath("/", ptail), env)
  {
    var s := "/" + Join(ptail, "/");
    JoinedEdges("/", ptail, "/");
    NoLetterNotUrl(s);
    LinuxPathOnly(s, cwd, env);
    PlainNamesAre(ptail);
    PosixPaths.ParseAbsolute(ptail);
    PosixPaths.NormalizeNoParent([], ptail);
    assert [] + ptail == ptail;
  }

  /**
   * `X:\<names>` becomes `/mnt/x/<names>` with the letter in lower case, and
   * `/mnt/x/<names>` becomes `X:\<names>` with it in upper case: a drive path
   * goes there and back up to the case of its letter.
   */
  lemma DriveRoundTrip(c: char, names: seq<string>, cwd: seq<string>, env: Option<string>)
    requires IsAsciiLetter(c) && PlainNames(names)
    ensures WindowsToLinux([c, ':'] + "\\" + Join(names, "\\"), env) ==
      Ok("/" + Join(["mnt", [AsciiLower(c)]] + names, "/"))
    ensures LinuxToWindows("/" + Join(["mnt", [AsciiLower(c)]] + names, "/"), cwd, env) ==
      Ok([AsciiUpper(c), ':'] + "\\" + Join(names, "\\"))
  {
    DriveToLinux(c, names, env);
    UpperOfLower(c);
    DriveToWindows(AsciiLower(c), names, cwd, env);
  }

  lemma DriveToLinux(c: char, names: seq<string>, env: Option<string>)
    requires IsAsciiLetter(c) && PlainNames(names)
    ensures WindowsToLinux([c, ':'] + "\\" + Join(names, "\\"), env) ==
      Ok("/" + Join(["mnt", [AsciiLower(c)]] + names, "/"))
  {
    var s := [c, ':'] + "\\" + Join(names, "\\");
    DriveText(c, names);
    WindowsPathOnly(s, env);
    DrivePathToLinux(c, names, env);
  }

  /** A drive path is stripped as it is and is no URL. */
  lemma DriveText(c: char, names: seq<string>)
    requires IsAsciiLetter(c) && PlainNames(names)
    ensures var s := [c, ':'] + "\\" + Join(names, "\\"); Strip(s) == s && !Misc.IsUrl(s)
  {
    var s := [c, ':'] + "\\" + Join(names, "\\");
    assert s == [c, ':', '\\'] + Join(names, "\\");
    JoinedEdges([c, ':', '\\'], names, "\\");
    DriveNotUrl(s);
  }

  /** The drive rule on `X:\<names>`. */
  lemma DrivePathToLinux(c: char, names: seq<string>, env: Option<string>)
    requires IsAsciiLetter(c) && PlainNames(names)
    ensures WindowsPathToLinux([c, ':'] + "\\" + Join(names, "\\"), env) ==
      Ok("/" + Join(["mnt", [AsciiLower(c)]] + names, "/"))
  {
    var drive := [c, ':'];
    PlainNamesAre(names);
    WindowsPaths.ParseDrivePath(drive, names);
    assert WslRules.DriveLetter(drive) == Some(c);
    WslRules.MntPrefixJoin(c, names);
  }

  /** `/mnt/<c>/<names>` for a one-letter directory `c` is the upper-cased drive. */
  lemma DriveToWindows(c: char, names: seq<string>, cwd: seq<string>, env: Option<string>)
    requires IsAsciiLetter(c) && PlainNames(names)
    ensures LinuxToWindows("/" + Join(["mnt", [c]] + names, "/"), cwd, env) ==
      Ok([AsciiUpper(c), ':'] + "\\" + Join(names, "\\"))
  {
    var ptail := ["mnt", [c]] + names;
    assert PlainNames(ptail) by {
      assert PlainName("mnt") && PlainName([c]);
    }
    AbsoluteToWindows(ptail, cwd, env);
    PlainNamesAre(names);
    WslRules.MntDriveNames(c, names);
  }

  /** `/mnt/wsl/...` is no drive: `wsl` is three letters long. */
  lemma InstancesNotDrive(name: string, names: seq<string>)
    ensures !WslRules.UnderMntDrive(PosixPaths.PurePosixPath("/", ["mnt", "wsl", "instances", name] + names))
  {
    var res := PosixPaths.PurePosixPath("/", ["mnt", "wsl", "instances", name] + names);
    WslRules.UnderMntIff(res);
    assert res.tail[1] == "wsl";
  }

  /**
   * `/mnt/wsl/instances/<name>/<names>` becomes `\\wsl$\<name>\<names>`
   * without reading the environment, and comes back once the current
   * distribution's name is known and is another one.
   */
  lemma OtherDistroRoundTrip(name: string, names: seq<string>, cwd: seq<string>, env: Option<string>)
    requires WslRules.DistroName(name) && PlainName(name) && PlainNames(names)
    ensures LinuxToWindows("/" + Join(["mnt", "wsl", "instances", name] + names, "/"), cwd, env) ==
      Ok(WslRules.WslPrefix + name + "\\" + Join(names, "\\"))
    ensures WindowsToLinux(WslRules.WslPrefix + name + "\\" + Join(names, "\\"), env) ==
      if env.None? then Err(DistroKeyError)
      else if env.value == name then Ok("/" + Join(names, "/"))
      else Ok("/" + Join(["mnt", "wsl", "instances", name] + names, "/"))
  {
    OtherDistroToWindows(name, names, cwd, env);
    OtherDistroBack(name, names, env);
  }

  /** The first half of `OtherDistroRoundTrip`: Linux to Windows. */
  lemma OtherDistroToWindows(name: string, names: seq<string>, cwd: seq<string>, env: Option<string>)
    requires WslRules.DistroName(name) && PlainName(name) && PlainNames(names)
    ensures LinuxToWindows("/" + Join(["mnt", "wsl", "instances", name] + names, "/"), cwd, env) ==
      Ok(WslRules.WslPrefix + name + "\\" + Join(names, "\\"))
  {
    var ptail := ["mnt", "wsl", "instances", name] + names;
    InstancesPlain(name, names);
    AbsoluteToWindows(ptail, cwd, env);
    InstancesNotDrive(name, names);
    PlainNamesAre(names);
    WslRules.OtherDistroNames(name, names);
  }

  /** The second half of `OtherDistroRoundTrip`: Windows back to Linux. */
  lemma OtherDistroBack(name: string, names: seq<string>, env: Option<string>)
    requires WslRules.DistroName(name) && PlainNames(names)
    ensures WindowsToLinux(WslRules.WslPrefix + name + "\\" + Join(names, "\\"), env) ==
      if env.None? then Err(DistroKeyError)
      else if env.value == name then Ok("/" + Join(names, "/"))
      else Ok("/" + Join(["mnt", "wsl", "instances", name] + names, "/"))
  {
    InstanceToLinux(name, names, env);
    if env.Some? {
      PlainNamesAre(names);
      WslRules.DistroPrefixJoin(name, env.value, names);
      if env.value == name {
        assert [] + names == names;
      }
    }
  }

  /** `\\wsl$\<name>\<names>` goes below the distribution's directory, which needs the environment. */
  lemma InstanceToLinux(name: string, names: seq<string>, env: Option<string>)
    requires WslRules.DistroName(name) && PlainNames(names)
    ensures WindowsToLinux(WslRules.WslPrefix + name + "\\" + Join(names, "\\"), env) ==
      if env.None? then Err(DistroKeyError)
      else Ok(WslRules.PosixJoin(WslRules.DistroPrefix(name, env.value), names))
  {
    var drive := WslRules.WslPrefix + name;
    var s := drive + "\\" + Join(names, "\\");
    JoinedEdges(drive + "\\", names, "\\");
    NoLetterNotUrl(s);
    WindowsPathOnly(s, env);
    PlainNamesAre(names);
    WslRules.WslDrive(name);
    WindowsPaths.ParseUncPath("wsl$", name, names);
    WslRules.WslInstanceOf(name);
  }

  /**
   * Any other absolute path `/<names>` becomes `\\wsl$\<distro>\<names>` and
   * back when `WSL_DISTRO_NAME` is set; when it is unset, converting it is a
   * `KeyError`.
   */
  lemma CurrentDistroRoundTrip(names: seq<string>, cwd: seq<string>, env: Option<string>)
    requires PlainNames(names)
    requires env.Some? ==> WslRules.DistroName(env.value)
    requires !WslRules.UnderInstances(PosixPaths.PurePosixPath("/", names))
    requires !WslRules.UnderMntDrive(PosixPaths.PurePosixPath("/", names))
    ensures env.None? ==> LinuxToWindows("/" + Join(names, "/"), cwd, env) == Err(DistroKeyError)
    ensures env.Some? ==>
      LinuxToWindows("/" + Join(names, "/"), cwd, env) == Ok(WslRules.WslPrefix + env.value + "\\" + Join(names, "\\")) &&
      WindowsToLinux(WslRules.WslPrefix + env.value + "\\" + Join(names, "\\"), env) == Ok("/" + Join(names, "/"))
  {
    PlainNamesAre(names);
    AbsoluteToWindows(names, cwd, env);
    if env.Some? {
      var d := env.value;
      WslRules.CurrentDistroNames(d, names);
      InstanceToLinux(d, names, env);
      assert PosixPaths.PosixName(d);
      WslRules.DistroPrefixJoin(d, d, names);
      assert [] + names == names;
    }
  }

  /** A share of any server but `wsl$` is no WSL path: it comes back as it is. */
  lemma OtherShareUnchanged(server: string, share: string, names: seq<string>, env: Option<string>)
    requires WindowsPaths.UncPart(server) && WindowsPaths.UncPart(share) && server != "wsl$"
    requires PlainNames(names)
    ensures var w := WindowsPaths.UncDrive(server, share) + "\\" + Join(names, "\\");
      WindowsToLinux(w, env) == Ok(w)
  {
    var drive := WindowsPaths.UncDrive(server, share);
    var s := drive + "\\" + Join(names, "\\");
    JoinedEdges(drive + "\\", names, "\\");
    NoLetterNotUrl(s);
    WindowsPathOnly(s, env);
    PlainNamesAre(names);
    WindowsPaths.ParseUncPath(server, share, names);
    WslRules.NotWslShare(server, share);
    UnknownDriveRule(s, env);
  }

  /** An absolute path on a drive that is neither a letter nor `\\wsl$\<name>` is written out unchanged. */
  lemma UnknownDriveRule(s: string, env: Option<string>)
    requires var w := WindowsPaths.Parse(s);
      WindowsPaths.IsAbsolute(w) && WslRules.DriveLetter(w.drive).None? && WslRules.WslInstance(w.drive).None?
    ensures WindowsPathToLinux(s, env) == Ok(WindowsPaths.Format(WindowsPaths.Parse(s)))
  {
  }

  // ---------------------------------------------------------------------------
  // file URLs

  /** `linux_to_windows("file://" + path)`: the path converted, then spelled with '/' after "file:///". */
  lemma FileUrlToWindows(linux: string, cwd: seq<string>, env: Option<string>)
    requires linux != [] && linux[0] == '/' && UrlClean(linux) && NoEdgeSpace(linux)
    ensures var r := LinuxToWindows(linux, cwd, env);
      LinuxToWindows("file://" + linux, cwd, env) ==
        if r.Ok? then Ok("file:///" + SubstChar(r.value, '\\', '/')) else r
  {
    var u := "file://" + linux;
    assert u[0] == 'f' && u[|u| - 1] == linux[|linux| - 1];
    assert Strip(u) == u;
    Urls.ParseFileUrl(linux);
    LinuxUrlRule(u, cwd, env, linux, LinuxToWindows(linux, cwd, env));
  }

  /** A `file` URL is converted through its path. */
  lemma LinuxUrlRule(input: string, cwd: seq<string>, env: Option<string>, path: string, r: Result<string>)
    requires Misc.IsUrl(Strip(input)) && Urls.UrlParse(Strip(input)) == Ok(Urls.ParsedUrl("file", "", path))
    requires r == LinuxToWindows(path, cwd, env)
    ensures LinuxToWindows(input, cwd, env) == if r.Ok? then Ok("file:///" + SubstChar(r.value, '\\', '/')) else r
  {
  }

  /** `windows_to_linux("file:///" + path)`: the path converted, then written as a `file` URL. */
  lemma FileUrlToLinux(v: string, env: Option<string>)
    requires UrlClean(v) && NoEdgeSpace(v)
    ensures var r := WindowsToLinux(v, env);
      WindowsToLinux("file:///" + v, env) ==
        if r.Ok? then Urls.AsUri(PosixPaths.Parse(r.value)) else r
  {
    FileUrlOfPath(v);
    FileUrlRule("file:///" + v, env, v, WindowsToLinux(v, env));
  }

  /** A `file` URL whose path is "/" + `v` is converted through `v`. */
  lemma FileUrlRule(input: string, env: Option<string>, v: string, r: Result<string>)
    requires Misc.IsUrl(Strip(input)) && Urls.UrlParse(Strip(input)) == Ok(Urls.ParsedUrl("file", "", "/" + v))
    requires r == WindowsToLinux(v, env)
    ensures WindowsToLinux(input, env) == if r.Ok? then Urls.AsUri(PosixPaths.Parse(r.value)) else r
  {
    var s := Strip(input);
    var u := Urls.UrlParse(s);
    assert u.Ok? && u.value.scheme == "file" && u.value.path == "/" + v;
    assert u.value.path[1..] == v;
  }
}
