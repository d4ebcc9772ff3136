/**
 * The rules every converter shares (`wbridge/pathconvert.py`, `wb.py`,
 * `wpc.py`): recognising `\\wsl$\<name>` and `X:` drives, and writing a
 * resolved Linux path that lies in another distribution, in the current one
 * or on a `/mnt/<letter>` drive as a Windows path; and, back, writing a
 * Windows path's names after a Linux prefix.
 */
module WslRules {
  import opened Strings
  import opened Errors
  import Misc
  import PosixPaths
  import WindowsPaths

  /** The start of every Windows path into a WSL distribution: `\\wsl$\`. */
  const WslPrefix: string := "\\\\wsl$\\"

  /** Where WSL mounts the root of every other running distribution. */
  const InstancesDir: string := "/mnt/wsl/instances"

  /** Where wb.py and wpc.py expect the drive letters to be mounted. */
  const MntDir: string := "/mnt"

  /**
   * `re.search(r"^\\\\wsl\$\\(.+)$", drive)`: the distribution name after
   * `\\wsl$\`. `.` stops at a newline and `$` also matches before one final
   * newline, so a name may be followed by one '\n' that is not part of it.
   */
  function WslInstance(drive: string): (r: Option<string>)
    ensures r.Some? ==> (r.value != [] && '\n' !in r.value &&
      (drive == WslPrefix + r.value || drive == WslPrefix + r.value + "\n"))
  {
    if |drive| > 7 && drive[..7] == WslPrefix then
      var name := drive[7..];
      assert drive == WslPrefix + name;
      if '\n' !in name then Some(name)
      else if |name| >= 2 && name[|name| - 1] == '\n' && '\n' !in name[..|name| - 1] then
        assert name == name[..|name| - 1] + "\n";
        Some(name[..|name| - 1])
      else None
    else None
  }

  /** `re.search("^([a-zA-Z]):$", drive)`: the drive letter (again `$` lets one final newline through). */
  function DriveLetter(drive: string): (r: Option<char>)
    ensures r.Some? ==> |drive| >= 2 && IsAsciiLetter(r.value) && r.value == drive[0]
    ensures r.Some? <==> (|drive| == 2 || (|drive| == 3 && drive[2] == '\n')) && IsAsciiLetter(drive[0]) && drive[1] == ':'
  {
    if (|drive| == 2 || (|drive| == 3 && drive[2] == '\n')) && IsAsciiLetter(drive[0]) && drive[1] == ':' then
      Some(drive[0])
    else None
  }

  // ---------------------------------------------------------------------------
  // Linux to Windows, on a resolved path

  lemma ParseInstancesDir()
    ensures PosixPaths.Parse(InstancesDir) == PosixPaths.PurePosixPath("/", ["mnt", "wsl", "instances"])
  {
    var names := ["mnt", "wsl", "instances"];
    InstancesDirJoin(names);
    InstancesDirNames(names);
    Misc.ParseLiteral(names, InstancesDir);
  }

  lemma InstancesDirJoin(names: seq<string>)
    requires names == ["mnt", "wsl", "instances"]
    ensures "/" + Join(names, "/") == InstancesDir
  {
    JoinLeadingSep(names, "/");
    var xs := [""] + names;
    assert xs == ["", "mnt", "wsl", "instances"] && xs[..1] == [""];
    InstancesSteps();
    JoinSliceStep(xs, 1, "/", "mnt", "", "/mnt");
    JoinSliceStep(xs, 2, "/", "wsl", "/mnt", "/mnt/wsl");
    JoinSliceStep(xs, 3, "/", "instances", "/mnt/wsl", "/mnt/wsl/instances");
    assert xs[..4] == xs;
  }

  lemma InstancesDirNames(names: seq<string>)
    requires names == ["mnt", "wsl", "instances"]
    ensures PosixPaths.PosixNames(names)
  {
    assert PosixPaths.PosixName(names[0]) && PosixPaths.PosixName(names[1]) && PosixPaths.PosixName(names[2]);
  }

  lemma ParseMntDir()
    ensures PosixPaths.Parse(MntDir) == PosixPaths.PurePosixPath("/", ["mnt"])
  {
    Misc.ParseLiteral(["mnt"], MntDir);
  }

  /** `relative_to_subdir(path, "/mnt/wsl/instances")`: a path inside another distribution. */
  predicate UnderInstances(res: PosixPaths.PurePosixPath) {
    Misc.RelativeToSubdir(res, InstancesDir)
  }

  lemma UnderInstancesIff(res: PosixPaths.PurePosixPath)
    ensures UnderInstances(res) <==>
      res.root == "/" && |res.tail| >= 4 && res.tail[..3] == ["mnt", "wsl", "instances"]
  {
    ParseInstancesDir();
    Misc.RelativeToSubdirIff(res, InstancesDir);
  }

  /** `PureWindowsPath("\\\\wsl$\\" + parts[4]).joinpath(*parts[5:])`: the rest of the path inside the named distribution. */
  function OtherDistro(res: PosixPaths.PurePosixPath): (r: string)
    requires UnderInstances(res)
    ensures '/' !in r
  {
    UnderInstancesIff(res);
    WindowsPaths.Normal(WindowsPaths.JoinPaths(WslPrefix + res.tail[3], res.tail[4..]))
  }

  /** `PureWindowsPath("\\\\wsl$\\" + distro).joinpath(path)`: the whole path inside the current distribution. */
  function CurrentDistro(distro: string, res: PosixPaths.PurePosixPath): (r: string)
    ensures '/' !in r
  {
    WindowsPaths.Normal(WindowsPaths.JoinPaths(WslPrefix + distro, [PosixPaths.Format(res)]))
  }

  /** `relative_to_subdir(path, "/mnt") and len(path.parts[2]) == 1`: a path on a drive-letter mount. */
  predicate UnderMntDrive(res: PosixPaths.PurePosixPath) {
    Misc.RelativeToSubdir(res, MntDir) && (UnderMntIff(res); |res.tail[1]| == 1)
  }

  lemma UnderMntIff(res: PosixPaths.PurePosixPath)
    ensures Misc.RelativeToSubdir(res, MntDir) <==> res.root == "/" && |res.tail| >= 2 && res.tail[0] == "mnt"
  {
    ParseMntDir();
    Misc.RelativeToSubdirIff(res, MntDir);
    if res.root == "/" && |res.tail| >= 2 && res.tail[0] == "mnt" {
      assert ["mnt"] < res.tail;
    }
  }

  /** `PureWindowsPath(parts[2].upper() + ":\\").joinpath(*parts[3:])`: the drive letter upper-cased, then the rest. */
  function MntDrive(res: PosixPaths.PurePosixPath): (r: string)
    requires UnderMntDrive(res)
    ensures '/' !in r
  {
    UnderMntIff(res);
    WindowsPaths.Normal(WindowsPaths.JoinPaths([AsciiUpper(res.tail[1][0])] + ":\\", res.tail[2..]))
  }

  /** `str(path.relative_to(Path.cwd())).replace("/", "\\")`. */
  function CwdRelative(res: PosixPaths.PurePosixPath, cwd: seq<string>): (r: string)
    requires PosixPaths.IsRelativeTo(res, PosixPaths.CwdPath(cwd))
    ensures '/' !in r
  {
    SubstChar(PosixPaths.Format(PosixPaths.RelativeTo(res, PosixPaths.CwdPath(cwd))), '/', '\\')
  }

  // ---------------------------------------------------------------------------
  // Windows to Linux

  /** `str(Path(prefix).joinpath(*names))`. */
  function PosixJoin(prefix: string, names: seq<string>): string {
    PosixPaths.Format(PosixPaths.Parse(PosixPaths.JoinPaths(prefix, names)))
  }

  /** The Linux directory of a distribution: "/" for the current one, its instance mount otherwise. */
  function DistroPrefix(name: string, distro: string): string {
    if name == distro then "/" else "/mnt/wsl/instances/" + name
  }

  // ---------------------------------------------------------------------------
  // What the rules give for plain names

  /** A distribution name that survives every step unchanged. */
  predicate DistroName(n: string) {
    WindowsPaths.UncPart(n) && n[|n| - 1] != ':' && '\n' !in n && n != ".." && NoEdgeSpace(n)
  }

  lemma WinNamesArePosix(names: seq<string>)
    requires WindowsPaths.WinNames(names)
    ensures PosixPaths.PosixNames(names)
  {
    forall i | 0 <= i < |names| ensures PosixPaths.PosixName(names[i]) {
      assert WindowsPaths.WinName(names[i]);
    }
  }

  /** A share of any server but `wsl$` matches neither the `\\wsl$\<name>` nor the `X:` expression. */
  lemma NotWslShare(server: string, share: string)
    requires WindowsPaths.UncPart(server) && WindowsPaths.UncPart(share) && server != "wsl$"
    ensures WslInstance(WindowsPaths.UncDrive(server, share)) == None
    ensures DriveLetter(WindowsPaths.UncDrive(server, share)) == None
  {
    var d := WindowsPaths.UncDrive(server, share);
    var p := WslPrefix;
    assert d[2..2 + |server|] == server && d[2 + |server|] == '\\';
    if |d| > 7 {
      if |server| > 4 {
        assert server[4] != '\\';
        assert d[6] != p[6];
      } else if |server| < 4 {
        assert d[2 + |server|] != p[2 + |server|];
      } else {
        var k :| 0 <= k < 4 && server[k] != "wsl$"[k];
        assert d[2 + k] != p[2 + k];
      }
      assert d[..7] != p;
    }
  }

  /** `\\wsl$\<name>` is the share `name` of the server `wsl$`. */
  lemma WslDrive(name: string)
    requires WindowsPaths.UncPart(name)
    ensures WslPrefix + name == WindowsPaths.UncDrive("wsl$", name)
    ensures WindowsPaths.UncPart("wsl$")
  {
    var w := "wsl$";
    assert w[0] == 'w' && w[1] == 's' && w[2] == 'l' && w[3] == '$';
  }

  /** The name in `\\wsl$\<name>` is found, with or without one trailing newline. */
  lemma WslInstanceOf(name: string)
    requires name != [] && '\n' !in name
    ensures WslInstance(WslPrefix + name) == Some(name)
    ensures WslInstance(WslPrefix + name + "\n") == Some(name)
  {
    var d1 := WslPrefix + name;
    assert d1[..7] == WslPrefix && d1[7..] == name;
    var d2 := WslPrefix + name + "\n";
    var n2 := d2[7..];
    assert d2[..7] == WslPrefix && n2 == name + "\n";
    assert n2[..|n2| - 1] == name;
  }

  /** `/mnt/wsl/instances/<name>/<names>` becomes `\\wsl$\<name>\<names>`. */
  lemma OtherDistroNames(name: string, names: seq<string>)
    requires DistroName(name) && WindowsPaths.WinNames(names)
    ensures var res := PosixPaths.PurePosixPath("/", ["mnt", "wsl", "instances", name] + names);
      UnderInstances(res) && OtherDistro(res) == WslPrefix + name + "\\" + Join(names, "\\")
  {
    var res := PosixPaths.PurePosixPath("/", ["mnt", "wsl", "instances", name] + names);
    UnderInstancesIff(res);
    assert res.tail[..3] == ["mnt", "wsl", "instances"];
    assert res.tail[3] == name && res.tail[4..] == names;
    WslDrive(name);
    WindowsPaths.JoinUncNames("wsl$", name, names);
  }

  /** Any other absolute path `/<names>` becomes `\\wsl$\<distro>\<names>`. */
  lemma CurrentDistroNames(distro: string, names: seq<string>)
    requires DistroName(distro) && WindowsPaths.WinNames(names)
    ensures CurrentDistro(distro, PosixPaths.PurePosixPath("/", names)) == WslPrefix + distro + "\\" + Join(names, "\\")
  {
    WslDrive(distro);
    WindowsPaths.JoinUncAbsolute("wsl$", distro, names);
  }

  /** `/mnt/<c>/<names>` becomes `C:\<names>` with the letter upper-cased. */
  lemma MntDriveNames(c: char, names: seq<string>)
    requires IsAsciiLetter(c) && WindowsPaths.WinNames(names)
    ensures var res := PosixPaths.PurePosixPath("/", ["mnt", [c]] + names);
      UnderMntDrive(res) && MntDrive(res) == [AsciiUpper(c), ':'] + "\\" + Join(names, "\\")
  {
    var res := PosixPaths.PurePosixPath("/", ["mnt", [c]] + names);
    UnderMntIff(res);
    assert res.tail[1] == [c] && res.tail[2..] == names;
    var drive := [AsciiUpper(c), ':'];
    assert [AsciiUpper(c)] + ":\\" == drive + "\\";
    WindowsPaths.JoinDriveRoot(drive, names);
  }

  /** A distribution's directory written out from its names. */
  lemma DistroPrefixNames(name: string, distro: string)
    ensures DistroPrefix(name, distro) ==
      "/" + Join(if name == distro then [] else ["mnt", "wsl", "instances", name], "/")
  {
    if name != distro {
      var l := ["mnt", "wsl", "instances", name];
      JoinLeadingSep(l, "/");
      InstancesJoin([""] + l, name);
    }
  }

  lemma InstancesJoin(xs: seq<string>, name: string)
    requires xs == ["", "mnt", "wsl", "instances", name]
    ensures Join(xs, "/") == "/mnt/wsl/instances/" + name
  {
    assert xs[..1] == [""];
    InstancesSteps();
    JoinSliceStep(xs, 1, "/", "mnt", "", "/mnt");
    JoinSliceStep(xs, 2, "/", "wsl", "/mnt", "/mnt/wsl");
    JoinSliceStep(xs, 3, "/", "instances", "/mnt/wsl", "/mnt/wsl/instances");
    JoinSliceStep(xs, 4, "/", name, "/mnt/wsl/instances", "/mnt/wsl/instances/" + name);
    assert xs[..5] == xs;
  }

  lemma InstancesSteps()
    ensures "" + "/" + "mnt" == "/mnt"
    ensures "/mnt" + "/" + "wsl" == "/mnt/wsl"
    ensures "/mnt/wsl" + "/" + "instances" == "/mnt/wsl/instances"
    ensures "/mnt/wsl/instances" + "/" == "/mnt/wsl/instances/"
  {
  }

  /** `\\wsl$\<name>\<names>` becomes the names under the distribution's directory. */
  lemma DistroPrefixJoin(name: string, distro: string, names: seq<string>)
    requires PosixPaths.PosixName(name) && PosixPaths.PosixNames(names)
    ensures PosixJoin(DistroPrefix(name, distro), names) ==
      "/" + Join((if name == distro then [] else ["mnt", "wsl", "instances", name]) + names, "/")
  {
    DistroPrefixNames(name, distro);
    PosixPaths.PosixJoinAbsolute(if name == distro then [] else ["mnt", "wsl", "instances", name], names);
  }

  /** `C:\<names>` becomes `/mnt/c/<names>`. */
  lemma MntPrefixJoin(c: char, names: seq<string>)
    requires IsAsciiLetter(c) && PosixPaths.PosixNames(names)
    ensures PosixJoin("/mnt/" + [AsciiLower(c)], names) == "/" + Join(["mnt", [AsciiLower(c)]] + names, "/")
  {
    var l := ["mnt", [AsciiLower(c)]];
    assert l[1..] == [[AsciiLower(c)]];
    assert "/" + Join(l, "/") == "/mnt/" + [AsciiLower(c)];
    PosixPaths.PosixJoinAbsolute(l, names);
  }
}
