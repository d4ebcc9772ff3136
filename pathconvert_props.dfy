/**
 * What `wbridge/pathconvert.py` promises about its two converters: they
 * never fail once a distribution name is known (except on malformed URLs
 * and relative `file` URLs), they leave non-`file` URLs alone, they read a
 * Windows path the same with '/' as with '\', and every kind of path the
 * tests exercise goes there and back unchanged.
 */
module PathConvertProps {
  import opened Strings
  import opened Errors
  import Misc
  import Urls
  import PosixPaths
  import WindowsPaths
  import Mounts
  import WslRules
  import opened PathConvert

  // ---------------------------------------------------------------------------
  // Names the round trips are stated for

  /** A file or directory name both path flavours keep as it is, with no space at either end. */
  predicate PlainName(n: string) {
    WindowsPaths.WinName(n) && n != ".." && ':' !in n && NoEdgeSpace(n)
  }

  predicate PlainNames(ns: seq<string>) {
    forall i :: 0 <= i < |ns| ==> PlainName(ns[i])
  }

  lemma PlainNamesAre(ns: seq<string>)
    requires PlainNames(ns)
    ensures WindowsPaths.WinNames(ns) && PosixPaths.PosixNames(ns) && ".." !in ns
    ensures forall i :: 0 <= i < |ns| ==> ':' !in ns[i]
  {
    assert WindowsPaths.WinNames(ns) by {
      forall i | 0 <= i < |ns| ensures WindowsPaths.WinName(ns[i]) {
        assert PlainName(ns[i]);
      }
    }
    WslRules.WinNamesArePosix(ns);
    forall i | 0 <= i < |ns| ensures ':' !in ns[i] {
      assert PlainName(ns[i]);
    }
  }

  /** `strip()` leaves plain names joined by a separator alone, after any prefix without edge spaces. */
  lemma JoinedEdges(pre: string, names: seq<string>, sep: string)
    requires PlainNames(names) && (pre != [] || names != [])
    requires pre == [] || (!IsSpace(pre[0]) && !IsSpace(pre[|pre| - 1]))
    ensures NoEdgeSpace(pre + Join(names, sep))
  {
    if names != [] {
      JoinEdges(names, sep);
      ConcatEdges(pre, Join(names, sep));
    } else {
      assert pre + Join(names, sep) == pre;
    }
  }

  /** Plain names joined by any separator neither start nor end with whitespace. */
  lemma JoinEdges(names: seq<string>, sep: string)
    requires PlainNames(names) && names != []
    ensures Join(names, sep) != [] && NoEdgeSpace(Join(names, sep))
  {
    var a, z := names[0], names[|names| - 1];
    assert PlainName(a) && PlainName(z);
    assert a != [] && z != [];
    JoinFirst(names, sep);
    JoinLast(names, sep);
  }

  lemma ConcatEdges(a: string, b: string)
    requires b != [] && NoEdgeSpace(b)
    requires a == [] || (!IsSpace(a[0]) && !IsSpace(a[|a| - 1]))
    ensures NoEdgeSpace(a + b)
  {
    var s := a + b;
    assert s[|s| - 1] == b[|b| - 1];
    if a == [] {
      assert s == b;
    } else {
      assert s[0] == a[0];
    }
  }

  lemma NoLetterNotUrl(s: string)
    requires s != [] && !IsAsciiLetter(s[0])
    ensures !Misc.IsUrl(s)
  {
  }

  /** "X:" followed by anything but "//" is not a URL. */
  lemma DriveNotUrl(s: string)
    requires |s| >= 2 && s[1] == ':' && (|s| < 4 || s[2] != '/' || s[3] != '/')
    ensures !Misc.IsUrl(s)
  {
    if IsAsciiLetter(s[0]) {
      assert Misc.LetterRun(s[1..]) == 0;
    }
  }

  /** Input that is no URL once stripped goes straight to the path rules. */
  lemma LinuxPathOnly(input: string, table: Mounts.MountTable, cwd: seq<string>, distro: Option<string>)
    requires distro.Some? && !Misc.IsUrl(Strip(input))
    ensures LinuxToWindows(input, table, cwd, distro) == Ok(LinuxPathToWindows(Strip(input), table, cwd, distro.value))
  {
  }

  lemma WindowsPathOnly(input: string, table: Mounts.MountTable, distro: Option<string>)
    requires !Misc.IsUrl(Strip(input))
    ensures WindowsToLinux(input, table, distro) ==
      if distro.None? then Err(DistroUnset) else WindowsPathToLinux(Strip(input), table, distro.value)
  {
  }

  /** The Windows path rules look at the parsed path only. */
  lemma SameParse(s: string, t: string, table: Mounts.MountTable, distro: string)
    requires WindowsPaths.Parse(s) == WindowsPaths.Parse(t)
    ensures WindowsPathToLinux(s, table, distro) == WindowsPathToLinux(t, table, distro)
  {
  }

  // ---------------------------------------------------------------------------
  // Errors

  /**
   * With a distribution name and a well-formed mount table, `windows_to_linux`
   * fails only when `urlparse` rejects a URL or a `file` URL names a relative path.
   */
  lemma {:induction false} WindowsToLinuxTotal(input: string, table: Mounts.MountTable, distro: Option<string>)
    requires distro.Some? && Mounts.TableWellFormed(table)
    ensures var r := WindowsToLinux(input, table, distro);
      r.Ok? || r.error == InvalidIPv6Url || r.error == RelativeFileUri
    decreases |input|
  {
    var s := Strip(input);
    if Misc.IsUrl(s) {
      var u := Urls.UrlParse(s);
      if u.Ok? && u.value.scheme == "file" {
        var p := DropFirst(u.value.path);
        WindowsToLinuxTotal(p, table, distro);
      }
    } else {
      Mounts.LookupNonEmpty(table, WindowsPaths.Parse(s).drive);
    }
  }

  /** A URL whose scheme is not `file` comes back stripped and otherwise untouched, both ways. */
  lemma OtherUrlUnchanged(input: string, table: Mounts.MountTable, cwd: seq<string>, distro: Option<string>)
    requires distro.Some? && Misc.IsUrl(Strip(input))
    requires Urls.UrlParse(Strip(input)).Ok? && Urls.UrlParse(Strip(input)).value.scheme != "file"
    ensures LinuxToWindows(input, table, cwd, distro) == Ok(Strip(input))
    ensures WindowsToLinux(input, table, distro) == Ok(Strip(input))
  {
  }

  // ---------------------------------------------------------------------------
  // One spelling or the other

  /** `windows_to_linux` reads '/' as '\': both spellings of a path give the same result. */
  lemma ForwardSlashes(input: string, table: Mounts.MountTable, distro: Option<string>)
    requires !Misc.IsUrl(Strip(input)) && !Misc.IsUrl(Strip(SubstChar(input, '\\', '/')))
    ensures WindowsToLinux(SubstChar(input, '\\', '/'), table, distro) == WindowsToLinux(input, table, distro)
  {
    WindowsPathOnly(input, table, distro);
    WindowsPathOnly(SubstChar(input, '\\', '/'), table, distro);
    if distro.Some? {
      ForwardSlashPath(input, table, distro.value);
    }
  }

  lemma ForwardSlashPath(input: string, table: Mounts.MountTable, distro: string)
    ensures WindowsPathToLinux(Strip(SubstChar(input, '\\', '/')), table, distro) ==
      WindowsPathToLinux(Strip(input), table, distro)
  {
    var s := Strip(input);
    StripSubst(input, '\\', '/');
    WindowsPaths.ParseForwardSlashes(s);
    SameParse(SubstChar(s, '\\', '/'), s, table, distro);
  }

  // ---------------------------------------------------------------------------
  // Relative paths

  /** A relative path of plain names stays relative, only its separators change, both ways. */
  lemma RelativeRoundTrip(names: seq<string>, table: Mounts.MountTable, cwd: seq<string>, distro: Option<string>)
    requires distro.Some? && names != [] && PlainNames(names)
    ensures LinuxToWindows(Join(names, "/"), table, cwd, distro) == Ok(Join(names, "\\"))
    ensures WindowsToLinux(Join(names, "\\"), table, distro) == Ok(Join(names, "/"))
  {
    RelativeToWindows(names, table, cwd, distro);
    RelativeToLinux(names, table, distro);
  }

  /** Plain relative names are neither spaced at the ends nor a URL. */
  lemma RelativeText(names: seq<string>, sep: char)
    requires names != [] && PlainNames(names) && sep != ':'
    ensures Strip(Join(names, [sep])) == Join(names, [sep])
    ensures !Misc.IsUrl(Join(names, [sep]))
  {
    PlainNamesAre(names);
    var j := Join(names, [sep]);
    JoinedEdges([], names, [sep]);
    assert [] + j == j;
    JoinNoChar(names, sep, ':');
    Misc.NoColonNotUrl(j);
  }

  lemma RelativeToWindows(names: seq<string>, table: Mounts.MountTable, cwd: seq<string>, distro: Option<string>)
    requires distro.Some? && names != [] && PlainNames(names)
    ensures LinuxToWindows(Join(names, "/"), table, cwd, distro) == Ok(Join(names, "\\"))
  {
    PlainNamesAre(names);
    var l := Join(names, "/");
    RelativeText(names, '/');
    LinuxPathOnly(l, table, cwd, distro);
    PosixPaths.ParseRelative(names);
    PosixPaths.NormalizeNoParent(cwd, names);
    var res := PosixPaths.PurePosixPath("/", cwd + names);
    assert PosixPaths.Resolve(PosixPaths.Parse(l), cwd) == res;
    assert PosixPaths.IsRelativeTo(res, PosixPaths.CwdPath(cwd));
    assert (cwd + names)[|cwd|..] == names;
    assert PosixPaths.RelativeTo(res, PosixPaths.CwdPath(cwd)) == PosixPaths.PurePosixPath("", names);
    SubstCharJoin(names, '/', '\\');
  }

  lemma RelativeToLinux(names: seq<string>, table: Mounts.MountTable, distro: Option<string>)
    requires distro.Some? && names != [] && PlainNames(names)
    ensures WindowsToLinux(Join(names, "\\"), table, distro) == Ok(Join(names, "/"))
  {
    PlainNamesAre(names);
    var w := Join(names, "\\");
    RelativeText(names, '\\');
    WindowsPathOnly(w, table, distro);
    WindowsPaths.ParseRelativeNames(names);
    SubstCharJoin(names, '\\', '/');
  }

  // ---------------------------------------------------------------------------
  // Absolute paths

  /** An absolute Linux path of plain names goes through the mount, instance and distribution rules as it is. */
  lemma AbsoluteToWindows(ptail: seq<string>, table: Mounts.MountTable, cwd: seq<string>, distro: Option<string>)
    requires distro.Some? && PlainNames(ptail)
    ensures LinuxToWindows("/" + Join(ptail, "/"), table, cwd, distro) ==
      Ok(ResolvedToWindows(PosixPaths.PurePosixPath("/", ptail), table, distro.value))
  {
    var s := "/" + Join(ptail, "/");
    JoinedEdges("/", ptail, "/");
    NoLetterNotUrl(s);
    LinuxPathOnly(s, table, cwd, distro);
    PlainNamesAre(ptail);
    PosixPaths.ParseAbsolute(ptail);
    PosixPaths.NormalizeNoParent([], ptail);
    assert [] + ptail == ptail;
  }

  /** Below the first mount point that holds a path, the names under the mount point follow the drive's root. */
  lemma MountedToWindows(table: Mounts.MountTable, distro: string, root: string, mtail: seq<string>, names: seq<string>)
    requires PlainNames(mtail)
    requires var pairs := Pairs(table);
      var i := FirstMount(pairs, PosixPaths.PurePosixPath("/", mtail + names), 0);
      i < |pairs| && pairs[i] == (root, "/" + Join(mtail, "/"))
    ensures ResolvedToWindows(PosixPaths.PurePosixPath("/", mtail + names), table, distro) ==
      WindowsPaths.Normal(WindowsPaths.JoinPaths(root + "\\", names))
  {
    PlainNamesAre(mtail);
    PosixPaths.ParseAbsolute(mtail);
    assert (mtail + names)[|mtail|..] == names;
  }

  /** `/mnt/.../<names>` under a drive's first-matching mount point becomes `X:\<names>`, and back. */
  lemma DriveMountRoundTrip(table: Mounts.MountTable, cwd: seq<string>, distro: Option<string>,
                            c: char, mtail: seq<string>, names: seq<string>)
    requires distro.Some? && IsAsciiLetter(c) && PlainNames(mtail) && PlainNames(names)
    requires var pairs := Pairs(table);
      var i := FirstMount(pairs, PosixPaths.PurePosixPath("/", mtail + names), 0);
      i < |pairs| && pairs[i] == ([c, ':'], "/" + Join(mtail, "/"))
    requires var ms := Mounts.Lookup(table, [c, ':']);
      ms.Some? && ms.value != [] && ms.value[0] == "/" + Join(mtail, "/")
    ensures LinuxToWindows("/" + Join(mtail + names, "/"), table, cwd, distro) ==
      Ok([c, ':'] + "\\" + Join(names, "\\"))
    ensures WindowsToLinux([c, ':'] + "\\" + Join(names, "\\"), table, distro) ==
      Ok("/" + Join(mtail + names, "/"))
  {
    DriveMountToWindows(table, cwd, distro, c, mtail, names);
    DriveToLinux(table, distro, c, names);
    PosixPaths.PosixJoinAbsolute(mtail, names);
  }

  /** The Linux to Windows half of `DriveMountRoundTrip`. */
  lemma DriveMountToWindows(table: Mounts.MountTable, cwd: seq<string>, distro: Option<string>,
                            c: char, mtail: seq<string>, names: seq<string>)
    requires distro.Some? && IsAsciiLetter(c) && PlainNames(mtail) && PlainNames(names)
    requires var pairs := Pairs(table);
      var i := FirstMount(pairs, PosixPaths.PurePosixPath("/", mtail + names), 0);
      i < |pairs| && pairs[i] == ([c, ':'], "/" + Join(mtail, "/"))
    ensures LinuxToWindows("/" + Join(mtail + names, "/"), table, cwd, distro) ==
      Ok([c, ':'] + "\\" + Join(names, "\\"))
  {
    var drive := [c, ':'];
    PlainNamesAre(names);
    PlainNamesAre(mtail);
    assert PlainNames(mtail + names);
    AbsoluteToWindows(mtail + names, table, cwd, distro);
    MountedToWindows(table, distro.value, drive, mtail, names);
    WindowsPaths.JoinDriveRoot(drive, names);
  }

  /** `X:\<names>` for a drive in the mount table goes below the drive's first mount point. */
  lemma DriveToLinux(table: Mounts.MountTable, distro: Option<string>, c: char, names: seq<string>)
    requires distro.Some? && IsAsciiLetter(c) && PlainNames(names)
    requires Mounts.Lookup(table, [c, ':']).Some? && Mounts.Lookup(table, [c, ':']).value != []
    ensures WindowsToLinux([c, ':'] + "\\" + Join(names, "\\"), table, distro) ==
      Ok(WslRules.PosixJoin(Mounts.Lookup(table, [c, ':']).value[0], names))
  {
    var s := [c, ':'] + "\\" + Join(names, "\\");
    DrivePlainText(c, names);
    WindowsPathOnly(s, table, distro);
    PlainNamesAre(names);
    WindowsPaths.ParseDrivePath([c, ':'], names);
    MountedPathToLinux(s, table, distro.value, [c, ':'], names);
  }

  /** A drive path of plain names is stripped as it is and is no URL. */
  lemma DrivePlainText(c: char, names: seq<string>)
    requires IsAsciiLetter(c) && PlainNames(names)
    ensures var s := [c, ':'] + "\\" + Join(names, "\\"); Strip(s) == s && !Misc.IsUrl(s)
  {
    var s := [c, ':'] + "\\" + Join(names, "\\");
    assert s == [c, ':', '\\'] + Join(names, "\\");
    JoinedEdges([c, ':', '\\'], names, "\\");
    DriveNotUrl(s);
  }

  /** The mount rule: an absolute path on a mounted drive goes below the drive's first mount point. */
  lemma MountedPathToLinux(s: string, table: Mounts.MountTable, distro: string, drive: string, names: seq<string>)
    requires drive != "" && WindowsPaths.Parse(s) == WindowsPaths.PureWindowsPath(drive, "\\", names)
    requires Mounts.Lookup(table, drive).Some? && Mounts.Lookup(table, drive).value != []
    ensures WindowsPathToLinux(s, table, distro) == Ok(WslRules.PosixJoin(Mounts.Lookup(table, drive).value[0], names))
  {
    assert WindowsPaths.IsAbsolute(WindowsPaths.Parse(s));
  }

  /** The same for a mounted share `\\server\share`. */
  lemma ShareMountRoundTrip(table: Mounts.MountTable, cwd: seq<string>, distro: Option<string>,
                            server: string, share: string, mtail: seq<string>, names: seq<string>)
    requires distro.Some? && WindowsPaths.UncPart(server) && WindowsPaths.UncPart(share)
    requires PlainNames(mtail) && PlainNames(names)
    requires var pairs := Pairs(table);
      var i := FirstMount(pairs, PosixPaths.PurePosixPath("/", mtail + names), 0);
      i < |pairs| && pairs[i] == (WindowsPaths.UncDrive(server, share), "/" + Join(mtail, "/"))
    requires var ms := Mounts.Lookup(table, WindowsPaths.UncDrive(server, share));
      ms.Some? && ms.value != [] && ms.value[0] == "/" + Join(mtail, "/")
    ensures LinuxToWindows("/" + Join(mtail + names, "/"), table, cwd, distro) ==
      Ok(WindowsPaths.UncDrive(server, share) + "\\" + Join(names, "\\"))
    ensures WindowsToLinux(WindowsPaths.UncDrive(server, share) + "\\" + Join(names, "\\"), table, distro) ==
      Ok("/" + Join(mtail + names, "/"))
  {
    var drive := WindowsPaths.UncDrive(server, share);
    PlainNamesAre(names);
    PlainNamesAre(mtail);
    assert PlainNames(mtail + names);
    AbsoluteToWindows(mtail + names, table, cwd, distro);
    MountedToWindows(table, distro.value, drive, mtail, names);
    WindowsPaths.JoinUncRoot(server, share, names);
    ShareToLinux(table, distro, server, share, names);
    PosixPaths.PosixJoinAbsolute(mtail, names);
  }

  lemma ShareToLinux(table: Mounts.MountTable, distro: Option<string>, server: string, share: string, names: seq<string>)
    requires distro.Some? && WindowsPaths.UncPart(server) && WindowsPaths.UncPart(share) && PlainNames(names)
    requires var ms := Mounts.Lookup(table, WindowsPaths.UncDrive(server, share)); ms.Some? && ms.value != []
    ensures WindowsToLinux(WindowsPaths.UncDrive(server, share) + "\\" + Join(names, "\\"), table, distro) ==
      Ok(WslRules.PosixJoin(Mounts.Lookup(table, WindowsPaths.UncDrive(server, share)).value[0], names))
  {
    var drive := WindowsPaths.UncDrive(server, share);
    var s := drive + "\\" + Join(names, "\\");
    SharePlainText(server, share, names);
    WindowsPathOnly(s, table, distro);
    PlainNamesAre(names);
    WindowsPaths.ParseUncPath(server, share, names);
    MountedPathToLinux(s, table, distro.value, drive, names);
  }

  /**
   * A share that is neither in the mount table nor `\\wsl$\<name>` has no
   * known Linux path: it comes back as it is.
   */
  lemma OtherShareUnchanged(table: Mounts.MountTable, distro: Option<string>, server: string, share: string, names: seq<string>)
    requires WindowsPaths.UncPart(server) && WindowsPaths.UncPart(share) && server != "wsl$" && PlainNames(names)
    requires Mounts.Lookup(table, WindowsPaths.UncDrive(server, share)) == None
    ensures var w := WindowsPaths.UncDrive(server, share) + "\\" + Join(names, "\\");
      WindowsToLinux(w, table, distro) == if distro.None? then Err(DistroUnset) else Ok(w)
  {
    var drive := WindowsPaths.UncDrive(server, share);
    var s := drive + "\\" + Join(names, "\\");
    SharePlainText(server, share, names);
    WindowsPathOnly(s, table, distro);
    if distro.Some? {
      PlainNamesAre(names);
      WindowsPaths.ParseUncPath(server, share, names);
      WslRules.NotWslShare(server, share);
      UnknownDrivePath(s, table, distro.value);
    }
  }

  /** An absolute path whose drive is neither in the table nor `\\wsl$\<name>` is written out unchanged. */
  lemma UnknownDrivePath(s: string, table: Mounts.MountTable, distro: string)
    requires var w := WindowsPaths.Parse(s);
      WindowsPaths.IsAbsolute(w) && Mounts.Lookup(table, w.drive) == None && WslRules.WslInstance(w.drive).None?
    ensures WindowsPathToLinux(s, table, distro) == Ok(WindowsPaths.Format(WindowsPaths.Parse(s)))
  {
  }

  /** A share path of plain names is stripped as it is and is no URL. */
  lemma SharePlainText(server: string, share: string, names: seq<string>)
    requires WindowsPaths.UncPart(server) && WindowsPaths.UncPart(share) && PlainNames(names)
    ensures var s := WindowsPaths.UncDrive(server, share) + "\\" + Join(names, "\\"); Strip(s) == s && !Misc.IsUrl(s)
  {
    var s := WindowsPaths.UncDrive(server, share) + "\\" + Join(names, "\\");
    JoinedEdges(WindowsPaths.UncDrive(server, share) + "\\", names, "\\");
    NoLetterNotUrl(s);
  }

  /** `/mnt/wsl/instances/<name>/<names>` becomes `\\wsl$\<name>\<names>`, and back, when no mount point holds it. */
  lemma OtherDistroRoundTrip(table: Mounts.MountTable, cwd: seq<string>, distro: Option<string>,
                             name: string, names: seq<string>)
    requires distro.Some? && WslRules.DistroName(name) && PlainName(name) && name != distro.value && PlainNames(names)
    requires var ptail := ["mnt", "wsl", "instances", name] + names;
      FirstMount(Pairs(table), PosixPaths.PurePosixPath("/", ptail), 0) == |Pairs(table)|
    requires Mounts.Lookup(table, WslRules.WslPrefix + name) == None
    ensures LinuxToWindows("/" + Join(["mnt", "wsl", "instances", name] + names, "/"), table, cwd, distro) ==
      Ok(WslRules.WslPrefix + name + "\\" + Join(names, "\\"))
    ensures WindowsToLinux(WslRules.WslPrefix + name + "\\" + Join(names, "\\"), table, distro) ==
      Ok("/" + Join(["mnt", "wsl", "instances", name] + names, "/"))
  {
    OtherDistroToWindows(table, cwd, distro, name, names);
    PlainNamesAre(names);
    InstanceToLinux(table, distro, name, names);
    WslRules.DistroPrefixJoin(name, distro.value, names);
  }

  lemma OtherDistroToWindows(table: Mounts.MountTable, cwd: seq<string>, distro: Option<string>,
                             name: string, names: seq<string>)
    requires distro.Some? && WslRules.DistroName(name) && PlainName(name) && PlainNames(names)
    requires var ptail := ["mnt", "wsl", "instances", name] + names;
      FirstMount(Pairs(table), PosixPaths.PurePosixPath("/", ptail), 0) == |Pairs(table)|
    ensures LinuxToWindows("/" + Join(["mnt", "wsl", "instances", name] + names, "/"), table, cwd, distro) ==
      Ok(WslRules.WslPrefix + name + "\\" + Join(names, "\\"))
  {
    var ptail := ["mnt", "wsl", "instances", name] + names;
    InstancesPlain(name, names);
    AbsoluteToWindows(ptail, table, cwd, distro);
    ResolvedOtherDistro(table, distro.value, name, names);
  }

  lemma ResolvedOtherDistro(table: Mounts.MountTable, distro: string, name: string, names: seq<string>)
    requires WslRules.DistroName(name) && PlainNames(names)
    requires var ptail := ["mnt", "wsl", "instances", name] + names;
      FirstMount(Pairs(table), PosixPaths.PurePosixPath("/", ptail), 0) == |Pairs(table)|
    ensures ResolvedToWindows(PosixPaths.PurePosixPath("/", ["mnt", "wsl", "instances", name] + names), table, distro) ==
      WslRules.WslPrefix + name + "\\" + Join(names, "\\")
  {
    PlainNamesAre(names);
    WslRules.OtherDistroNames(name, names);
  }

  lemma InstancesPlain(name: string, names: seq<string>)
    requires PlainName(name) && PlainNames(names)
    ensures PlainNames(["mnt", "wsl", "instances", name] + names)
  {
    var l := ["mnt", "wsl", "instances", name];
    assert PlainName("mnt") && PlainName("wsl") && PlainName("instances");
    assert PlainNames(l);
  }

  /** `\\wsl$\<name>\<names>` for a drive not in the mount table goes below the distribution's directory. */
  lemma InstanceToLinux(table: Mounts.MountTable, distro: Option<string>, name: string, names: seq<string>)
    requires distro.Some? && WslRules.DistroName(name) && PlainNames(names)
    requires Mounts.Lookup(table, WslRules.WslPrefix + name) == None
    ensures WindowsToLinux(WslRules.WslPrefix + name + "\\" + Join(names, "\\"), table, distro) ==
      Ok(WslRules.PosixJoin(WslRules.DistroPrefix(name, distro.value), names))
  {
    var drive := WslRules.WslPrefix + name;
    var s := drive + "\\" + Join(names, "\\");
    JoinedEdges(drive + "\\", names, "\\");
    NoLetterNotUrl(s);
    WindowsPathOnly(s, table, distro);
    PlainNamesAre(names);
    WslRules.WslDrive(name);
    WindowsPaths.ParseUncPath("wsl$", name, names);
    WslRules.WslInstanceOf(name);
  }

  /** Any other absolute path `/<names>` becomes `\\wsl$\<distro>\<names>`, and back. */
  lemma CurrentDistroRoundTrip(table: Mounts.MountTable, cwd: seq<string>, distro: Option<string>, names: seq<string>)
    requires distro.Some? && WslRules.DistroName(distro.value) && PlainNames(names)
    requires !WslRules.UnderInstances(PosixPaths.PurePosixPath("/", names))
    requires FirstMount(Pairs(table), PosixPaths.PurePosixPath("/", names), 0) == |Pairs(table)|
    requires Mounts.Lookup(table, WslRules.WslPrefix + distro.value) == None
    ensures LinuxToWindows("/" + Join(names, "/"), table, cwd, distro) ==
      Ok(WslRules.WslPrefix + distro.value + "\\" + Join(names, "\\"))
    ensures WindowsToLinux(WslRules.WslPrefix + distro.value + "\\" + Join(names, "\\"), table, distro) ==
      Ok("/" + Join(names, "/"))
  {
    var d := distro.value;
    PlainNamesAre(names);
    AbsoluteToWindows(names, table, cwd, distro);
    WslRules.CurrentDistroNames(d, names);
    InstanceToLinux(table, distro, d, names);
    assert PosixPaths.PosixName(d);
    WslRules.DistroPrefixJoin(d, d, names);
    assert [] + names == names;
  }

  // ---------------------------------------------------------------------------
  // file URLs

  /** No character `urlsplit` treats specially inside a path: '?', '#', tab, CR, LF. */
  predicate CleanChar(c: char) {
    c != '?' && c != '#' && !Urls.UnsafeUrlChar(c)
  }

  predicate UrlClean(s: string) {
    forall i :: 0 <= i < |s| ==> CleanChar(s[i])
  }

  /** Text `quote` leaves as it is. */
  predicate UriText(s: string) {
    forall i :: 0 <= i < |s| ==> Urls.UriSafe(s[i])
  }

  predicate UrlName(n: string) {
    PlainName(n) && UriText(n)
  }

  predicate UrlNames(ns: seq<string>) {
    forall i :: 0 <= i < |ns| ==> UrlName(ns[i])
  }

  lemma UrlNamesArePlain(ns: seq<string>)
    requires UrlNames(ns)
    ensures PlainNames(ns)
  {
    forall i | 0 <= i < |ns| ensures PlainName(ns[i]) {
      assert UrlName(ns[i]);
    }
  }

  lemma UrlCleanConcat(a: string, b: string)
    requires UrlClean(a) && UrlClean(b)
    ensures UrlClean(a + b)
  {
    forall i | 0 <= i < |a + b| ensures CleanChar((a + b)[i]) {
      if i < |a| {
        assert (a + b)[i] == a[i];
      } else {
        assert (a + b)[i] == b[i - |a|];
      }
    }
  }

  lemma UriTextConcat(a: string, b: string)
    requires UriText(a) && UriText(b)
    ensures UriText(a + b)
  {
    forall i | 0 <= i < |a + b| ensures Urls.UriSafe((a + b)[i]) {
      if i < |a| {
        assert (a + b)[i] == a[i];
      } else {
        assert (a + b)[i] == b[i - |a|];
      }
    }
  }

  /** Names of quotable text joined by a quotable separator are quotable text. */
  lemma {:induction false} UriTextJoin(names: seq<string>, sep: char)
    requires UrlNames(names) && Urls.UriSafe(sep)
    ensures UriText(Join(names, [sep]))
  {
    if |names| == 1 {
      assert UrlName(names[0]);
    } else if |names| > 1 {
      assert UrlName(names[0]);
      UriTextJoin(names[1..], sep);
      UriTextConcat(names[0], [sep]);
      UriTextConcat(names[0] + [sep], Join(names[1..], [sep]));
    }
  }

  lemma UriTextClean(s: string)
    requires UriText(s)
    ensures UrlClean(s)
  {
  }

  /** Quotable names spelled with backslashes hold nothing `urlsplit` treats specially. */
  lemma WindowsNamesClean(names: seq<string>)
    requires UrlNames(names)
    ensures UrlClean(Join(names, "\\")) && UrlClean(Join(names, "/"))
  {
    UriTextJoin(names, '/');
    UrlNamesArePlain(names);
    PlainNamesAre(names);
    SubstCharJoin(names, '/', '\\');
    UriTextBackslashes(Join(names, "/"));
  }

  /** Quotable text is clean, and stays clean with '/' written as '\'. */
  lemma UriTextBackslashes(l: string)
    requires UriText(l)
    ensures UrlClean(l) && UrlClean(SubstChar(l, '/', '\\'))
  {
    var w := SubstChar(l, '/', '\\');
    forall i | 0 <= i < |w| ensures CleanChar(w[i]) && CleanChar(l[i]) {
      assert Urls.UriSafe(l[i]);
    }
  }

  /** A `file` URL is converted through its path, with the name the URL case runs with. */
  lemma LinuxUrlRule(input: string, table: Mounts.MountTable, cwd: seq<string>, distro: Option<string>,
                     urlDistro: Option<string>, netloc: string, path: string, r: Result<string>)
    requires distro.Some? && Misc.IsUrl(Strip(input))
    requires Urls.UrlParse(Strip(input)) == Ok(Urls.ParsedUrl("file", netloc, path))
    requires r == LinuxToWindowsWith(path, table, cwd, urlDistro, urlDistro)
    ensures LinuxToWindowsWith(input, table, cwd, distro, urlDistro) ==
      if r.Ok? then Ok("file:///" + SubstChar(r.value, '\\', '/')) else r
  {
  }

  /** `windows_to_linux` converts a `file` URL through its path without the first character. */
  lemma WindowsUrlRule(input: string, table: Mounts.MountTable, distro: Option<string>,
                       urlDistro: Option<string>, netloc: string, path: string, r: Result<string>)
    requires distro.Some? && Misc.IsUrl(Strip(input))
    requires Urls.UrlParse(Strip(input)) == Ok(Urls.ParsedUrl("file", netloc, path))
    requires r == WindowsToLinuxWith(DropFirst(path), table, urlDistro, urlDistro)
    ensures WindowsToLinuxWith(input, table, distro, urlDistro) ==
      if r.Ok? then Urls.AsUri(PosixPaths.Parse(r.value)) else r
  {
  }

  /** `linux_to_windows("file://" + path)`: the path converted, then spelled with '/' after "file:///". */
  lemma FileUrlToWindows(linux: string, table: Mounts.MountTable, cwd: seq<string>, distro: Option<string>)
    requires distro.Some? && linux != [] && linux[0] == '/' && UrlClean(linux) && NoEdgeSpace(linux)
    ensures var r := LinuxToWindows(linux, table, cwd, distro);
      LinuxToWindows("file://" + linux, table, cwd, distro) ==
        if r.Ok? then Ok("file:///" + SubstChar(r.value, '\\', '/')) else r
  {
    var u := "file://" + linux;
    assert u[0] == 'f' && u[|u| - 1] == linux[|linux| - 1];
    assert Strip(u) == u;
    Urls.ParseFileUrl(linux);
    LinuxUrlRule(u, table, cwd, distro, distro, "", linux, LinuxToWindowsWith(linux, table, cwd, distro, distro));
  }

  /** `windows_to_linux("file:///" + path)`: the path converted, then written as a `file` URL. */
  lemma FileUrlToLinux(v: string, table: Mounts.MountTable, distro: Option<string>)
    requires distro.Some? && UrlClean(v) && NoEdgeSpace(v)
    ensures var r := WindowsToLinux(v, table, distro);
      WindowsToLinux("file:///" + v, table, distro) ==
        if r.Ok? then Urls.AsUri(PosixPaths.Parse(r.value)) else r
  {
    FileUrlOfPath(v);
    WindowsUrlRule("file:///" + v, table, distro, distro, "", "/" + v, WindowsToLinuxWith(v, table, distro, distro));
  }

  /** "file:///" + `v` is a `file` URL whose path is "/" + `v`, and `strip()` keeps it. */
  lemma FileUrlOfPath(v: string)
    requires UrlClean(v) && NoEdgeSpace(v)
    ensures var u := "file:///" + v;
      Strip(u) == u && Misc.IsUrl(u) && Urls.UrlParse(u) == Ok(Urls.ParsedUrl("file", "", "/" + v))
    ensures ("/" + v)[1..] == v
  {
    var path := "/" + v;
    SlashClean(v);
    Urls.ParseFileUrl(path);
    FileUrlText(v);
  }

  lemma SlashClean(v: string)
    requires UrlClean(v)
    ensures var path := "/" + v;
      path != [] && path[0] == '/' && path[1..] == v &&
      '?' !in path && '#' !in path && forall i :: 0 <= i < |path| ==> !Urls.UnsafeUrlChar(path[i])
  {
    var path := "/" + v;
    forall i | 0 <= i < |path| ensures CleanChar(path[i]) {
      if i > 0 {
        assert path[i] == v[i - 1];
      }
    }
  }

  lemma FileUrlText(v: string)
    requires NoEdgeSpace(v)
    ensures "file://" + ("/" + v) == "file:///" + v
    ensures Strip("file:///" + v) == "file:///" + v
  {
    var u := "file:///" + v;
    assert "file://" + ("/" + v) == u;
    assert u[0] == 'f';
    assert u[|u| - 1] == if v == [] then '/' else v[|v| - 1];
    assert NoEdgeSpace(u);
  }

  // ---------------------------------------------------------------------------
  // The equivalence the tests check

  /**
   * The checks of `path_conversion_ensure_equivalent` in tests/pathconvert_test.py:
   * each converter gives the other's input, the Windows path reads the same
   * with '/', and, for absolute paths, the `file` URLs convert into each other.
   */
  predicate Equivalent(linux: string, windows: string, table: Mounts.MountTable, cwd: seq<string>,
                       distro: Option<string>, absolute: bool) {
    var fwd := SubstChar(windows, '\\', '/');
    LinuxToWindows(linux, table, cwd, distro) == Ok(windows) &&
    WindowsToLinux(windows, table, distro) == Ok(linux) &&
    WindowsToLinux(fwd, table, distro) == Ok(linux) &&
    (absolute ==>
      WindowsToLinux("file:///" + fwd, table, distro) == Ok("file://" + linux) &&
      LinuxToWindows("file://" + linux, table, cwd, distro) == Ok("file:///" + fwd))
  }

  /** A pair that converts both ways passes all the checks, given text URLs keep as it is. */
  lemma EquivalentOf(linux: string, windows: string, ptail: seq<string>, table: Mounts.MountTable,
                     cwd: seq<string>, distro: Option<string>, absolute: bool)
    requires distro.Some?
    requires LinuxToWindows(linux, table, cwd, distro) == Ok(windows)
    requires WindowsToLinux(windows, table, distro) == Ok(linux)
    requires NoEdgeSpace(windows) && !Misc.IsUrl(windows) && !Misc.IsUrl(SubstChar(windows, '\\', '/'))
    requires absolute ==> (linux == "/" + Join(ptail, "/") && PosixPaths.PosixNames(ptail) &&
      UriText(linux) && UrlClean(windows))
    ensures Equivalent(linux, windows, table, cwd, distro, absolute)
  {
    ForwardSpelling(windows);
    ForwardSlashes(windows, table, distro);
    if absolute {
      FileUrlsEquivalent(linux, windows, ptail, table, cwd, distro);
    }
  }

  /** The Windows path written with '/' is stripped as it is and is no URL. */
  lemma ForwardSpelling(windows: string)
    requires NoEdgeSpace(windows) && !Misc.IsUrl(windows) && !Misc.IsUrl(SubstChar(windows, '\\', '/'))
    ensures var fwd := SubstChar(windows, '\\', '/');
      NoEdgeSpace(fwd) && Strip(fwd) == fwd && !Misc.IsUrl(Strip(windows)) && !Misc.IsUrl(Strip(fwd))
  {
    var fwd := SubstChar(windows, '\\', '/');
    StripSubst(windows, '\\', '/');
    assert Strip(fwd) == fwd;
  }

  lemma FileUrlsEquivalent(linux: string, windows: string, ptail: seq<string>, table: Mounts.MountTable,
                           cwd: seq<string>, distro: Option<string>)
    requires distro.Some?
    requires LinuxToWindows(linux, table, cwd, distro) == Ok(windows)
    requires WindowsToLinux(SubstChar(windows, '\\', '/'), table, distro) == Ok(linux)
    requires linux == "/" + Join(ptail, "/") && PosixPaths.PosixNames(ptail)
    requires UriText(linux) && UrlClean(windows) && NoEdgeSpace(SubstChar(windows, '\\', '/'))
    ensures var fwd := SubstChar(windows, '\\', '/');
      WindowsToLinux("file:///" + fwd, table, distro) == Ok("file://" + linux) &&
      LinuxToWindows("file://" + linux, table, cwd, distro) == Ok("file:///" + fwd)
  {
    var fwd := SubstChar(windows, '\\', '/');
    ForwardClean(windows);
    LinuxFileUrl(linux, windows, table, cwd, distro);
    WindowsFileUrl(linux, fwd, ptail, table, distro);
  }

  /** Writing '\\' as '/' keeps a string free of '?', '#', tab, CR and LF. */
  lemma ForwardClean(windows: string)
    requires UrlClean(windows)
    ensures UrlClean(SubstChar(windows, '\\', '/'))
  {
    var fwd := SubstChar(windows, '\\', '/');
    forall i | 0 <= i < |fwd| ensures CleanChar(fwd[i]) {
      assert CleanChar(windows[i]);
    }
  }

  lemma LinuxFileUrl(linux: string, windows: string, table: Mounts.MountTable, cwd: seq<string>, distro: Option<string>)
    requires distro.Some? && linux != [] && linux[0] == '/'
    requires LinuxToWindows(linux, table, cwd, distro) == Ok(windows)
    requires UriText(linux)
    ensures LinuxToWindows("file://" + linux, table, cwd, distro) == Ok("file:///" + SubstChar(windows, '\\', '/'))
  {
    UriTextEdges(linux);
    FileUrlToWindows(linux, table, cwd, distro);
  }

  /** Quotable text is clean for `urlsplit` and has no edge spaces. */
  lemma UriTextEdges(s: string)
    requires UriText(s)
    ensures UrlClean(s) && NoEdgeSpace(s)
  {
    UriTextClean(s);
    if s != [] {
      assert Urls.UriSafe(s[0]) && Urls.UriSafe(s[|s| - 1]);
    }
  }

  lemma WindowsFileUrl(linux: string, fwd: string, ptail: seq<string>, table: Mounts.MountTable, distro: Option<string>)
    requires distro.Some?
    requires WindowsToLinux(fwd, table, distro) == Ok(linux)
    requires linux == "/" + Join(ptail, "/") && PosixPaths.PosixNames(ptail)
    requires UriText(linux) && UrlClean(fwd) && NoEdgeSpace(fwd)
    ensures WindowsToLinux("file:///" + fwd, table, distro) == Ok("file://" + linux)
  {
    FileUrlToLinux(fwd, table, distro);
    LinuxUri(linux, ptail);
  }

  /** An absolute path of quotable text comes back from `as_uri` after "file://". */
  lemma LinuxUri(linux: string, ptail: seq<string>)
    requires linux == "/" + Join(ptail, "/") && PosixPaths.PosixNames(ptail) && UriText(linux)
    ensures Urls.AsUri(PosixPaths.Parse(linux)) == Ok("file://" + linux)
  {
    var p := PosixPaths.PurePosixPath("/", ptail);
    PosixPaths.ParseAbsolute(ptail);
    assert PosixPaths.Format(p) == linux;
    Urls.AsUriSafe(p);
  }

  /** The Windows spelling: nothing special to `urlsplit`, no edge spaces, and '/' only where the separators were. */
  lemma WindowsText(pre: string, names: seq<string>)
    requires UrlNames(names) && pre != [] && UrlClean(pre) && !IsSpace(pre[0]) && !IsSpace(pre[|pre| - 1])
    ensures NoEdgeSpace(pre + Join(names, "\\")) && UrlClean(pre + Join(names, "\\"))
    ensures SubstChar(pre + Join(names, "\\"), '\\', '/') == SubstChar(pre, '\\', '/') + Join(names, "/")
  {
    UrlNamesArePlain(names);
    PlainNamesAre(names);
    JoinedEdges(pre, names, "\\");
    WindowsNamesClean(names);
    UrlCleanConcat(pre, Join(names, "\\"));
    SubstCharConcat(pre, Join(names, "\\"), '\\', '/');
    SubstCharJoin(names, '\\', '/');
  }

  /** The Linux spelling of an absolute path of quotable names is quotable text. */
  lemma LinuxText(ptail: seq<string>)
    requires UrlNames(ptail)
    ensures UriText("/" + Join(ptail, "/")) && PosixPaths.PosixNames(ptail)
  {
    UriTextJoin(ptail, '/');
    UriTextConcat("/", Join(ptail, "/"));
    UrlNamesArePlain(ptail);
    PlainNamesAre(ptail);
  }

  lemma UrlNamesConcat(a: seq<string>, b: seq<string>)
    requires UrlNames(a) && UrlNames(b)
    ensures UrlNames(a + b)
  {
    forall i | 0 <= i < |a + b| ensures UrlName((a + b)[i]) {
      if i < |a| {
        assert (a + b)[i] == a[i];
      } else {
        assert (a + b)[i] == b[i - |a|];
      }
    }
  }

  /** The Windows spelling of a path, and its '/' spelling, are fit for the URL checks. */
  predicate WindowsFit(w: string) {
    NoEdgeSpace(w) && !Misc.IsUrl(w) && !Misc.IsUrl(SubstChar(w, '\\', '/')) && UrlClean(w)
  }

  lemma DriveText(c: char, names: seq<string>)
    requires IsAsciiLetter(c) && UrlNames(names)
    ensures WindowsFit([c, ':'] + "\\" + Join(names, "\\"))
  {
    var pre := [c, ':', '\\'];
    var w := [c, ':'] + "\\" + Join(names, "\\");
    assert w == pre + Join(names, "\\");
    WindowsText(pre, names);
    assert SubstChar(pre, '\\', '/') == [c, ':', '/'];
    DriveNotUrl(w);
    DriveForwardNotUrl(c, names);
  }

  /** `X:/<names>` is no URL either: the name after "X:/" does not start with '/'. */
  lemma DriveForwardNotUrl(c: char, names: seq<string>)
    requires UrlNames(names)
    ensures !Misc.IsUrl([c, ':', '/'] + Join(names, "/"))
  {
    var fwd := [c, ':', '/'] + Join(names, "/");
    if names != [] {
      assert UrlName(names[0]);
      JoinFirst(names, "/");
      assert fwd[3] == names[0][0];
      assert names[0][0] in names[0];
    }
    DriveNotUrl(fwd);
  }

  lemma InstanceText(name: string, names: seq<string>)
    requires WslRules.DistroName(name) && UrlClean(name) && UrlNames(names)
    ensures WindowsFit(WslRules.WslPrefix + name + "\\" + Join(names, "\\"))
  {
    var pre := WslRules.WslPrefix + name + "\\";
    InstancePrefixClean(name);
    WindowsText(pre, names);
    var w := pre + Join(names, "\\");
    NoLetterNotUrl(w);
    assert SubstChar(w, '\\', '/')[0] == '/';
    NoLetterNotUrl(SubstChar(w, '\\', '/'));
  }

  lemma InstancePrefixClean(name: string)
    requires UrlClean(name)
    ensures var pre := WslRules.WslPrefix + name + "\\";
      pre != [] && pre[0] == '\\' && pre[|pre| - 1] == '\\' && UrlClean(pre)
  {
    UrlCleanConcat(WslRules.WslPrefix, name);
    UrlCleanConcat(WslRules.WslPrefix + name, "\\");
  }

  lemma InstancesUrlNames(name: string, names: seq<string>)
    requires UrlName(name) && UrlNames(names)
    ensures UrlNames(["mnt", "wsl", "instances", name] + names)
  {
    var pre := ["mnt", "wsl", "instances"];
    InstancesPrefixUrlNames(pre);
    var l := [name] + names;
    UrlNamesCons(name, names);
    UrlNamesConcat(pre, l);
    assert pre + l == ["mnt", "wsl", "instances", name] + names;
  }

  lemma InstancesPrefixUrlNames(pre: seq<string>)
    requires pre == ["mnt", "wsl", "instances"]
    ensures UrlNames(pre)
  {
    assert SimpleName("mnt") && SimpleName("wsl") && SimpleName("instances");
    SimpleNameFits("mnt");
    SimpleNameFits("wsl");
    SimpleNameFits("instances");
  }

  lemma UrlNamesCons(name: string, names: seq<string>)
    requires UrlName(name) && UrlNames(names)
    ensures UrlNames([name] + names)
  {
    UrlNamesConcat([name], names);
  }

  /** Every drive path of quotable names passes the checks of `test_drive_path_conversion`. */
  lemma DriveEquivalent(table: Mounts.MountTable, cwd: seq<string>, distro: Option<string>,
                        c: char, mtail: seq<string>, names: seq<string>)
    requires distro.Some? && IsAsciiLetter(c) && UrlNames(mtail) && UrlNames(names)
    requires var pairs := Pairs(table);
      var i := FirstMount(pairs, PosixPaths.PurePosixPath("/", mtail + names), 0);
      i < |pairs| && pairs[i] == ([c, ':'], "/" + Join(mtail, "/"))
    requires var ms := Mounts.Lookup(table, [c, ':']);
      ms.Some? && ms.value != [] && ms.value[0] == "/" + Join(mtail, "/")
    ensures Equivalent("/" + Join(mtail + names, "/"), [c, ':'] + "\\" + Join(names, "\\"), table, cwd, distro, true)
  {
    UrlNamesArePlain(mtail);
    UrlNamesArePlain(names);
    DriveMountRoundTrip(table, cwd, distro, c, mtail, names);
    DriveText(c, names);
    UrlNamesConcat(mtail, names);
    LinuxText(mtail + names);
    EquivalentOf("/" + Join(mtail + names, "/"), [c, ':'] + "\\" + Join(names, "\\"), mtail + names, table, cwd, distro, true);
  }

  /** Every path into another distribution passes the checks of `test_other_distro_path_conversion`. */
  lemma OtherDistroEquivalent(table: Mounts.MountTable, cwd: seq<string>, distro: Option<string>,
                              name: string, names: seq<string>)
    requires distro.Some? && WslRules.DistroName(name) && UrlName(name) && name != distro.value && UrlNames(names)
    requires var ptail := ["mnt", "wsl", "instances", name] + names;
      FirstMount(Pairs(table), PosixPaths.PurePosixPath("/", ptail), 0) == |Pairs(table)|
    requires Mounts.Lookup(table, WslRules.WslPrefix + name) == None
    ensures Equivalent("/" + Join(["mnt", "wsl", "instances", name] + names, "/"),
      WslRules.WslPrefix + name + "\\" + Join(names, "\\"), table, cwd, distro, true)
  {
    UrlNamesArePlain(names);
    OtherDistroRoundTrip(table, cwd, distro, name, names);
    UriTextClean(name);
    InstanceText(name, names);
    var ptail := ["mnt", "wsl", "instances", name] + names;
    InstancesUrlNames(name, names);
    LinuxText(ptail);
    EquivalentOf("/" + Join(ptail, "/"), WslRules.WslPrefix + name + "\\" + Join(names, "\\"), ptail, table, cwd, distro, true);
  }

  /** Every path inside the current distribution passes the checks of `test_current_distro_path_conversion`. */
  lemma CurrentDistroEquivalent(table: Mounts.MountTable, cwd: seq<string>, distro: Option<string>, names: seq<string>)
    requires distro.Some? && WslRules.DistroName(distro.value) && UrlClean(distro.value) && UrlNames(names)
    requires !WslRules.UnderInstances(PosixPaths.PurePosixPath("/", names))
    requires FirstMount(Pairs(table), PosixPaths.PurePosixPath("/", names), 0) == |Pairs(table)|
    requires Mounts.Lookup(table, WslRules.WslPrefix + distro.value) == None
    ensures Equivalent("/" + Join(names, "/"), WslRules.WslPrefix + distro.value + "\\" + Join(names, "\\"),
      table, cwd, distro, true)
  {
    UrlNamesArePlain(names);
    CurrentDistroRoundTrip(table, cwd, distro, names);
    InstanceText(distro.value, names);
    LinuxText(names);
    EquivalentOf("/" + Join(names, "/"), WslRules.WslPrefix + distro.value + "\\" + Join(names, "\\"), names, table, cwd, distro, true);
  }

  /** Every relative path passes the checks of `test_relative_path_conversion`. */
  lemma RelativeEquivalent(table: Mounts.MountTable, cwd: seq<string>, distro: Option<string>, names: seq<string>)
    requires distro.Some? && names != [] && PlainNames(names)
    ensures Equivalent(Join(names, "/"), Join(names, "\\"), table, cwd, distro, false)
  {
    RelativeRoundTrip(names, table, cwd, distro);
    RelativeText(names, '\\');
    RelativeText(names, '/');
    PlainNamesAre(names);
    SubstCharJoin(names, '\\', '/');
    EquivalentOf(Join(names, "/"), Join(names, "\\"), [], table, cwd, distro, false);
  }

  // ---------------------------------------------------------------------------
  // The cases of tests/pathconvert_test.py, on a machine with C: mounted at /mnt/c

  const ExampleTable: Mounts.MountTable := [("C:", ["/mnt/c"])]

  lemma ExamplePairs()
    ensures Pairs(ExampleTable) == [("C:", "/mnt/c")]
  {
    assert ExampleTable[1..] == [];
    assert EntryPairs("C:", ["/mnt/c"]) == [("C:", "/mnt/c")];
  }

  lemma ExampleMountParse()
    ensures PosixPaths.Parse("/mnt/c") == PosixPaths.PurePosixPath("/", ["mnt", "c"])
  {
    assert PosixPaths.PosixNames(["mnt", "c"]);
    Misc.ParseLiteral(["mnt", "c"], "/mnt/c");
  }

  lemma ExampleMountJoin()
    ensures "/" + Join(["mnt", "c"], "/") == "/mnt/c"
  {
    assert Join(["mnt", "c"], "/") == "mnt/c";
  }

  /** The example table has one key, "C:", mounted at "/mnt/c". */
  lemma ExampleLookup(k: string)
    ensures Mounts.Lookup(ExampleTable, k) == if k == "C:" then Some(["/mnt/c"]) else None
  {
    assert ExampleTable[0] == ("C:", ["/mnt/c"]) && ExampleTable[1..] == [];
  }

  /** With one mount point, `FirstMount` finds it exactly when the path lies below it. */
  lemma FirstMountSingle(pairs: seq<(string, string)>, res: PosixPaths.PurePosixPath, root: string, mount: string, mtail: seq<string>)
    requires pairs == [(root, mount)] && PosixPaths.Parse(mount) == PosixPaths.PurePosixPath("/", mtail)
    ensures FirstMount(pairs, res, 0) == if res.root == "/" && mtail <= res.tail then 0 else 1
  {
    assert MountHolds(res, mount) <==> res.root == "/" && mtail <= res.tail;
  }

  /** Letters, digits, '-', '_' and '.', not starting with '.'. */
  predicate SimpleName(n: string) {
    n != [] && n[0] != '.' &&
    forall i :: 0 <= i < |n| ==> IsAsciiLetter(n[i]) || ('0' <= n[i] <= '9') || n[i] == '-' || n[i] == '_' || n[i] == '.'
  }

  lemma SimpleNameFits(n: string)
    requires SimpleName(n)
    ensures UrlName(n) && WslRules.DistroName(n) && UrlClean(n)
  {
    assert n[|n| - 1] != ':';
  }

  lemma DriveExampleMount()
    ensures var pairs := Pairs(ExampleTable);
      var i := FirstMount(pairs, PosixPaths.PurePosixPath("/", ["mnt", "c"] + ["Windows"]), 0);
      i < |pairs| && pairs[i] == (['C', ':'], "/" + Join(["mnt", "c"], "/"))
  {
    ExamplePairs();
    ExampleMountParse();
    ExampleMountJoin();
    var ptail := ["mnt", "c"] + ["Windows"];
    assert ptail == ["mnt", "c", "Windows"];
    assert ["mnt", "c"] <= ptail;
    FirstMountSingle(Pairs(ExampleTable), PosixPaths.PurePosixPath("/", ptail), "C:", "/mnt/c", ["mnt", "c"]);
  }

  lemma DriveExampleNames()
    ensures UrlNames(["mnt", "c"]) && UrlNames(["Windows"])
  {
    assert SimpleName("mnt") && SimpleName("c") && SimpleName("Windows");
    SimpleNameFits("mnt");
    SimpleNameFits("c");
    SimpleNameFits("Windows");
  }

  lemma DriveExampleLookup()
    ensures var ms := Mounts.Lookup(ExampleTable, ['C', ':']);
      ms.Some? && ms.value != [] && ms.value[0] == "/" + Join(["mnt", "c"], "/")
  {
    ExampleLookup(['C', ':']);
    ExampleMountJoin();
  }

  lemma DriveExampleStrings(ptail: seq<string>, names: seq<string>)
    requires names == ["Windows"] && ptail == ["mnt", "c"] + names
    ensures "/" + Join(ptail, "/") == "/mnt/c/Windows"
    ensures ['C', ':'] + "\\" + Join(names, "\\") == "C:\\Windows"
  {
    JoinLeadingSep(ptail, "/");
    assert [""] + ptail == ["", "mnt", "c", "Windows"];
    DriveLinuxString([""] + ptail);
    assert Join(names, "\\") == "Windows";
  }

  lemma DriveLinuxString(xs: seq<string>)
    requires xs == ["", "mnt", "c", "Windows"]
    ensures Join(xs, "/") == "/mnt/c/Windows"
  {
    assert xs[..1] == [""];
    JoinSliceStep(xs, 1, "/", "mnt", "", "/mnt");
    JoinSliceStep(xs, 2, "/", "c", "/mnt", "/mnt/c");
    JoinSliceStep(xs, 3, "/", "Windows", "/mnt/c", "/mnt/c/Windows");
    assert xs[..4] == xs;
  }

  /** `test_drive_path_conversion`. */
  lemma DrivePathExample(cwd: seq<string>, distro: Option<string>)
    requires distro.Some?
    ensures Equivalent("/mnt/c/Windows", "C:\\Windows", ExampleTable, cwd, distro, true)
  {
    DriveExampleNames();
    DriveExampleMount();
    DriveExampleLookup();
    var names := ["Windows"];
    DriveExampleStrings(["mnt", "c"] + names, names);
    DriveEquivalent(ExampleTable, cwd, distro, 'C', ["mnt", "c"], names);
  }

  lemma OtherDistroExampleNames()
    ensures UrlName("distro") && WslRules.DistroName("distro") && UrlNames(["etc", "shadow"])
  {
    assert SimpleName("distro") && SimpleName("etc") && SimpleName("shadow");
    SimpleNameFits("distro");
    SimpleNameFits("etc");
    SimpleNameFits("shadow");
  }

  lemma OtherDistroExampleMount()
    ensures var ptail := ["mnt", "wsl", "instances", "distro"] + ["etc", "shadow"];
      FirstMount(Pairs(ExampleTable), PosixPaths.PurePosixPath("/", ptail), 0) == |Pairs(ExampleTable)|
    ensures Mounts.Lookup(ExampleTable, WslRules.WslPrefix + "distro") == None
  {
    ExamplePairs();
    ExampleMountParse();
    var ptail := ["mnt", "wsl", "instances", "distro"] + ["etc", "shadow"];
    assert ptail[1] == "wsl" && !(["mnt", "c"] <= ptail);
    FirstMountSingle(Pairs(ExampleTable), PosixPaths.PurePosixPath("/", ptail), "C:", "/mnt/c", ["mnt", "c"]);
    var k := WslRules.WslPrefix + "distro";
    assert k[0] == '\\';
    ExampleLookup(k);
  }

  lemma OtherDistroExampleStrings(ptail: seq<string>, names: seq<string>)
    requires names == ["etc", "shadow"] && ptail == ["mnt", "wsl", "instances", "distro"] + names
    ensures "/" + Join(ptail, "/") == "/mnt/wsl/instances/distro/etc/shadow"
    ensures WslRules.WslPrefix + "distro" + "\\" + Join(names, "\\") == "\\\\wsl$\\distro\\etc\\shadow"
  {
    JoinLeadingSep(ptail, "/");
    assert [""] + ptail == ["", "mnt", "wsl", "instances", "distro", "etc", "shadow"];
    OtherDistroLinuxString([""] + ptail);
    OtherDistroWindowsString(names);
  }

  lemma OtherDistroWindowsString(names: seq<string>)
    requires names == ["etc", "shadow"]
    ensures WslRules.WslPrefix + "distro" + "\\" + Join(names, "\\") == "\\\\wsl$\\distro\\etc\\shadow"
  {
    var xs := [WslRules.WslPrefix + "distro"] + names;
    assert xs[..1] == [WslRules.WslPrefix + "distro"];
    assert WslRules.WslPrefix + "distro" == "\\\\wsl$\\distro";
    JoinSliceStep(xs, 1, "\\", "etc", "\\\\wsl$\\distro", "\\\\wsl$\\distro\\etc");
    JoinSliceStep(xs, 2, "\\", "shadow", "\\\\wsl$\\distro\\etc", "\\\\wsl$\\distro\\etc\\shadow");
    assert xs[..3] == xs;
    assert xs[1..] == names;
  }

  lemma OtherDistroLinuxString(xs: seq<string>)
    requires xs == ["", "mnt", "wsl", "instances", "distro", "etc", "shadow"]
    ensures Join(xs, "/") == "/mnt/wsl/instances/distro/etc/shadow"
  {
    assert xs[..1] == [""];
    OtherDistroLinuxSteps();
    JoinSliceStep(xs, 1, "/", "mnt", "", "/mnt");
    JoinSliceStep(xs, 2, "/", "wsl", "/mnt", "/mnt/wsl");
    JoinSliceStep(xs, 3, "/", "instances", "/mnt/wsl", "/mnt/wsl/instances");
    JoinSliceStep(xs, 4, "/", "distro", "/mnt/wsl/instances", "/mnt/wsl/instances/distro");
    JoinSliceStep(xs, 5, "/", "etc", "/mnt/wsl/instances/distro", "/mnt/wsl/instances/distro/etc");
    JoinSliceStep(xs, 6, "/", "shadow", "/mnt/wsl/instances/distro/etc", "/mnt/wsl/instances/distro/etc/shadow");
    assert xs[..7] == xs;
  }

  lemma OtherDistroLinuxSteps()
    ensures "" + "/" + "mnt" == "/mnt"
    ensures "/mnt" + "/" + "wsl" == "/mnt/wsl"
    ensures "/mnt/wsl" + "/" + "instances" == "/mnt/wsl/instances"
    ensures "/mnt/wsl/instances" + "/" + "distro" == "/mnt/wsl/instances/distro"
    ensures "/mnt/wsl/instances/distro" + "/" + "etc" == "/mnt/wsl/instances/distro/etc"
    ensures "/mnt/wsl/instances/distro/etc" + "/" + "shadow" == "/mnt/wsl/instances/distro/etc/shadow"
  {
  }

  /** `test_other_distro_path_conversion`, seen from any distribution but "distro". */
  lemma OtherDistroExample(cwd: seq<string>, distro: Option<string>)
    requires distro.Some? && distro.value != "distro"
    ensures Equivalent("/mnt/wsl/instances/distro/etc/shadow", "\\\\wsl$\\distro\\etc\\shadow",
      ExampleTable, cwd, distro, true)
  {
    OtherDistroExampleNames();
    OtherDistroExampleMount();
    var names := ["etc", "shadow"];
    OtherDistroExampleStrings(["mnt", "wsl", "instances", "distro"] + names, names);
    OtherDistroEquivalent(ExampleTable, cwd, distro, "distro", names);
  }

  lemma CurrentDistroExampleNames()
    ensures WslRules.DistroName("Ubuntu-22.04") && UrlClean("Ubuntu-22.04") && UrlNames(["etc", "hosts"])
  {
    UbuntuName();
    assert SimpleName("etc") && SimpleName("hosts");
    SimpleNameFits("etc");
    SimpleNameFits("hosts");
  }

  lemma UbuntuName()
    ensures WslRules.DistroName("Ubuntu-22.04") && UrlClean("Ubuntu-22.04")
  {
    assert SimpleName("Ubuntu-22.04");
    SimpleNameFits("Ubuntu-22.04");
  }

  lemma CurrentDistroExampleMount()
    ensures !WslRules.UnderInstances(PosixPaths.PurePosixPath("/", ["etc", "hosts"]))
    ensures FirstMount(Pairs(ExampleTable), PosixPaths.PurePosixPath("/", ["etc", "hosts"]), 0) == |Pairs(ExampleTable)|
    ensures Mounts.Lookup(ExampleTable, WslRules.WslPrefix + "Ubuntu-22.04") == None
  {
    ExamplePairs();
    ExampleMountParse();
    var names := ["etc", "hosts"];
    WslRules.UnderInstancesIff(PosixPaths.PurePosixPath("/", names));
    assert names[0] == "etc" && !(["mnt", "c"] <= names);
    FirstMountSingle(Pairs(ExampleTable), PosixPaths.PurePosixPath("/", names), "C:", "/mnt/c", ["mnt", "c"]);
    var k := WslRules.WslPrefix + "Ubuntu-22.04";
    assert k[0] == '\\';
    ExampleLookup(k);
  }

  lemma CurrentDistroExampleStrings(names: seq<string>)
    requires names == ["etc", "hosts"]
    ensures "/" + Join(names, "/") == "/etc/hosts"
    ensures WslRules.WslPrefix + "Ubuntu-22.04" + "\\" + Join(names, "\\") == "\\\\wsl$\\Ubuntu-22.04\\etc\\hosts"
  {
    JoinLeadingSep(names, "/");
    assert [""] + names == ["", "etc", "hosts"];
    CurrentDistroLinuxString([""] + names);
    CurrentDistroWindowsString(names);
  }

  lemma CurrentDistroLinuxString(xs: seq<string>)
    requires xs == ["", "etc", "hosts"]
    ensures Join(xs, "/") == "/etc/hosts"
  {
    assert xs[..1] == [""];
    JoinSliceStep(xs, 1, "/", "etc", "", "/etc");
    JoinSliceStep(xs, 2, "/", "hosts", "/etc", "/etc/hosts");
    assert xs[..3] == xs;
  }

  lemma CurrentDistroWindowsString(names: seq<string>)
    requires names == ["etc", "hosts"]
    ensures WslRules.WslPrefix + "Ubuntu-22.04" + "\\" + Join(names, "\\") == "\\\\wsl$\\Ubuntu-22.04\\etc\\hosts"
  {
    var xs := [WslRules.WslPrefix + "Ubuntu-22.04"] + names;
    assert xs[..1] == [WslRules.WslPrefix + "Ubuntu-22.04"];
    assert WslRules.WslPrefix + "Ubuntu-22.04" == "\\\\wsl$\\Ubuntu-22.04";
    JoinSliceStep(xs, 1, "\\", "etc", "\\\\wsl$\\Ubuntu-22.04", "\\\\wsl$\\Ubuntu-22.04\\etc");
    JoinSliceStep(xs, 2, "\\", "hosts", "\\\\wsl$\\Ubuntu-22.04\\etc", "\\\\wsl$\\Ubuntu-22.04\\etc\\hosts");
    assert xs[..3] == xs;
    assert xs[1..] == names;
  }

  /** `test_current_distro_path_conversion` in the distribution the test names. */
  lemma CurrentDistroExample(cwd: seq<string>)
    ensures Equivalent("/etc/hosts", "\\\\wsl$\\Ubuntu-22.04\\etc\\hosts",
      ExampleTable, cwd, Some("Ubuntu-22.04"), true)
  {
    CurrentDistroExampleNames();
    CurrentDistroExampleMount();
    var names := ["etc", "hosts"];
    CurrentDistroExampleStrings(names);
    CurrentDistroEquivalent(ExampleTable, cwd, Some("Ubuntu-22.04"), names);
  }

  /** `test_relative_path_conversion`. */
  lemma RelativeExamples(table: Mounts.MountTable, cwd: seq<string>, distro: Option<string>)
    requires distro.Some?
    ensures Equivalent("a/b/c/d", "a\\b\\c\\d", table, cwd, distro, false)
    ensures Equivalent("--help", "--help", table, cwd, distro, false)
  {
    RelativeExampleNested(table, cwd, distro, ["a", "b", "c", "d"]);
    RelativeExampleHelp(table, cwd, distro, ["--help"]);
  }

  lemma RelativeExampleNested(table: Mounts.MountTable, cwd: seq<string>, distro: Option<string>, names: seq<string>)
    requires distro.Some? && names == ["a", "b", "c", "d"]
    ensures Equivalent("a/b/c/d", "a\\b\\c\\d", table, cwd, distro, false)
  {
    RelativeExampleNames(names);
    RelativeExampleJoin(names, "/", "a/b", "a/b/c", "a/b/c/d");
    RelativeExampleJoin(names, "\\", "a\\b", "a\\b\\c", "a\\b\\c\\d");
    RelativeEquivalent(table, cwd, distro, names);
  }

  lemma RelativeExampleHelp(table: Mounts.MountTable, cwd: seq<string>, distro: Option<string>, names: seq<string>)
    requires distro.Some? && names == ["--help"]
    ensures Equivalent("--help", "--help", table, cwd, distro, false)
  {
    assert PlainName("--help") && names[0] == "--help" && |names| == 1;
    assert Join(names, "/") == "--help" && Join(names, "\\") == "--help";
    RelativeEquivalent(table, cwd, distro, names);
  }

  lemma RelativeExampleNames(names: seq<string>)
    requires names == ["a", "b", "c", "d"]
    ensures PlainNames(names)
  {
    assert PlainName("a") && PlainName("b") && PlainName("c") && PlainName("d");
  }

  lemma RelativeExampleJoin(names: seq<string>, sep: string, ab: string, abc: string, abcd: string)
    requires names == ["a", "b", "c", "d"]
    requires "a" + sep + "b" == ab && ab + sep + "c" == abc && abc + sep + "d" == abcd
    ensures Join(names, sep) == abcd
  {
    assert names[..1] == ["a"];
    JoinSliceStep(names, 1, sep, "b", "a", ab);
    JoinSliceStep(names, 2, sep, "c", ab, abc);
    JoinSliceStep(names, 3, sep, "d", abc, abcd);
    assert names[..4] == names;
  }

  // ---------------------------------------------------------------------------
  // The URL case as written

  /**
   * As written, the `file` URL case runs with the name taken from the
   * environment at import time: when WSL_DISTRO_NAME was unset, every `file`
   * URL fails, even for a caller that names its distribution.
   */
  lemma AsWrittenLinuxUrlFails(linux: string, table: Mounts.MountTable, cwd: seq<string>, distro: Option<string>)
    requires distro.Some? && linux != [] && linux[0] == '/' && UrlClean(linux) && NoEdgeSpace(linux)
    ensures LinuxToWindowsAsWritten("file://" + linux, table, cwd, distro, None) == Err(DistroUnset)
  {
    var u := "file://" + linux;
    assert u[0] == 'f' && u[|u| - 1] == linux[|linux| - 1];
    assert Strip(u) == u;
    Urls.ParseFileUrl(linux);
    LinuxUrlRule(u, table, cwd, distro, None, "", linux, LinuxToWindowsWith(linux, table, cwd, None, None));
  }

  lemma AsWrittenWindowsUrlFails(v: string, table: Mounts.MountTable, distro: Option<string>)
    requires distro.Some? && UrlClean(v) && NoEdgeSpace(v)
    ensures WindowsToLinuxAsWritten("file:///" + v, table, distro, None) == Err(DistroUnset)
  {
    FileUrlOfPath(v);
    WindowsUrlRule("file:///" + v, table, distro, None, "", "/" + v, WindowsToLinuxWith(v, table, None, None));
  }

  /**
   * The tests' own URLs fail as written when WSL_DISTRO_NAME is unset, though
   * the caller names its distribution; `LinuxToWindows` and `WindowsToLinux`
   * fail only without a name, and convert these URLs (`CurrentDistroExample`,
   * `DrivePathExample`).
   */
  lemma AsWrittenExample(cwd: seq<string>)
    ensures LinuxToWindowsAsWritten("file:///etc/hosts", ExampleTable, cwd, Some("Ubuntu-22.04"), None) == Err(DistroUnset)
    ensures WindowsToLinuxAsWritten("file:///C:/Windows", ExampleTable, Some("Ubuntu-22.04"), None) == Err(DistroUnset)
  {
    AsWrittenLinuxExample(cwd);
    AsWrittenWindowsExample();
  }

  lemma AsWrittenLinuxExample(cwd: seq<string>)
    ensures LinuxToWindowsAsWritten("file:///etc/hosts", ExampleTable, cwd, Some("Ubuntu-22.04"), None) == Err(DistroUnset)
  {
    assert "file://" + "/etc/hosts" == "file:///etc/hosts";
    assert UrlClean("/etc/hosts") && NoEdgeSpace("/etc/hosts");
    AsWrittenLinuxUrlFails("/etc/hosts", ExampleTable, cwd, Some("Ubuntu-22.04"));
  }

  lemma AsWrittenWindowsExample()
    ensures WindowsToLinuxAsWritten("file:///C:/Windows", ExampleTable, Some("Ubuntu-22.04"), None) == Err(DistroUnset)
  {
    assert "file:///" + "C:/Windows" == "file:///C:/Windows";
    assert UrlClean("C:/Windows") && NoEdgeSpace("C:/Windows");
    AsWrittenWindowsUrlFails("C:/Windows", ExampleTable, Some("Ubuntu-22.04"));
  }
}
