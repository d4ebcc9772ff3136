/**
 * What `wpc.py` promises: `main` prints the converted paths in order and
 * stops at the first exception; its `windows_to_linux` is `wb.py`'s; and its
 * `linux_to_windows` agrees with `wb.py`'s except for a relative path whose
 * first name below the working directory starts with "..", which `wpc.py`
 * reads as leaving the directory.
 */
module WpcProps {
  import opened Strings
  import opened Errors
  import Misc
  import Urls
  import PosixPaths
  import WindowsPaths
  import WslRules
  import PathConvertProps
  import Wb
  import WbProps
  import opened Wpc

  // ---------------------------------------------------------------------------
  // main

  /**
   * The lines printed are the converted paths, in order; the run fails
   * exactly when some path fails, and then it stops at the first such path,
   * with that path's exception.
   */
  lemma {:induction false} ConvertAllSpec(convert: string -> Result<string>, paths: seq<string>)
    ensures var r := ConvertAll(convert, paths);
      forall i :: 0 <= i < |r.printed| ==> convert(paths[i]) == Ok(r.printed[i])
    ensures var r := ConvertAll(convert, paths);
      r.failure.None? <==> forall i :: 0 <= i < |paths| ==> convert(paths[i]).Ok?
    ensures var r := ConvertAll(convert, paths);
      r.failure.Some? ==> |r.printed| < |paths| && convert(paths[|r.printed|]) == Err(r.failure.value)
  {
    if paths != [] {
      ConvertAllSpec(convert, paths[1..]);
      var r := ConvertAll(convert, paths);
      var rest := ConvertAll(convert, paths[1..]);
      var c := convert(paths[0]);
      if c.Ok? {
        assert r.printed == [c.value] + rest.printed;
        forall i | 1 <= i < |paths| ensures paths[1..][i - 1] == paths[i] {}
        if r.failure.None? {
          forall i | 0 <= i < |paths| ensures convert(paths[i]).Ok? {
            if i > 0 {
              assert paths[1..][i - 1] == paths[i];
            }
          }
        } else {
          assert paths[1..][|rest.printed|] == paths[|r.printed|];
        }
      }
    }
  }

  // ---------------------------------------------------------------------------
  // windows_to_linux is wb.py's

  /** `wpc.py` and `wb.py` convert every Windows path and URL alike. */
  lemma {:induction false} WindowsToLinuxSame(input: string, env: Option<string>)
    ensures Wpc.WindowsToLinux(input, env) == Wb.WindowsToLinux(input, env)
    decreases |input|
  {
    var s := Strip(input);
    if Misc.IsUrl(s) {
      var u := Urls.UrlParse(s);
      if u.Ok? && u.value.scheme == "file" {
        var p := u.value.path;
        WindowsToLinuxSame(DropFirst(p), env);
        var r := Wb.WindowsToLinux(DropFirst(p), env);
        WindowsFileRule(input, env, p, r);
        WbWindowsFileRule(input, env, p, r);
      } else {
        WindowsOtherUrlRule(input, env);
        WbWindowsOtherUrlRule(input, env);
      }
    } else {
      WbProps.WindowsPathOnly(input, env);
      WindowsPathOnly(input, env);
      WindowsPathSame(s, env);
    }
  }

  lemma WindowsPathOnly(input: string, env: Option<string>)
    requires !Misc.IsUrl(Strip(input))
    ensures Wpc.WindowsToLinux(input, env) == Wpc.WindowsPathToLinux(Strip(input), env)
  {
  }

  /** The `file` URL step of `wpc.py`'s `windows_to_linux`. */
  lemma WindowsFileRule(input: string, env: Option<string>, path: string, r: Result<string>)
    requires Misc.IsUrl(Strip(input))
    requires var u := Urls.UrlParse(Strip(input)); u.Ok? && u.value.scheme == "file" && u.value.path == path
    requires r == Wpc.WindowsToLinux(DropFirst(path), env)
    ensures Wpc.WindowsToLinux(input, env) == if r.Ok? then Urls.AsUri(PosixPaths.Parse(r.value)) else r
  {
  }

  /** The other URL steps of `wpc.py`'s `windows_to_linux`. */
  lemma WindowsOtherUrlRule(input: string, env: Option<string>)
    requires Misc.IsUrl(Strip(input))
    requires var u := Urls.UrlParse(Strip(input)); !(u.Ok? && u.value.scheme == "file")
    ensures var u := Urls.UrlParse(Strip(input));
      Wpc.WindowsToLinux(input, env) == if u.Err? then Err(u.error) else Ok(Strip(input))
  {
  }

  /** The `file` URL step of `wpc.py`'s `linux_to_windows`: the converted path, spelled with '/' after "file:///". */
  lemma LinuxFileRule(input: string, cwd: seq<string>, env: Option<string>, path: string, r: Result<string>)
    requires Misc.IsUrl(Strip(input))
    requires var u := Urls.UrlParse(Strip(input)); u.Ok? && u.value.scheme == "file" && u.value.path == path
    requires r == Wpc.LinuxToWindows(path, cwd, env)
    ensures Wpc.LinuxToWindows(input, cwd, env) == if r.Ok? then Ok("file:///" + SubstChar(r.value, '\\', '/')) else r
  {
  }

  /** The other URL steps of `wpc.py`'s `linux_to_windows`: a URL of another scheme comes back stripped and unchanged. */
  lemma LinuxOtherUrlRule(input: string, cwd: seq<string>, env: Option<string>)
    requires Misc.IsUrl(Strip(input))
    requires var u := Urls.UrlParse(Strip(input)); !(u.Ok? && u.value.scheme == "file")
    ensures var u := Urls.UrlParse(Strip(input));
      Wpc.LinuxToWindows(input, cwd, env) == if u.Err? then Err(u.error) else Ok(Strip(input))
  {
  }

  /** The `file` URL step of `wb.py`'s `windows_to_linux`. */
  lemma WbWindowsFileRule(input: string, env: Option<string>, path: string, r: Result<string>)
    requires Misc.IsUrl(Strip(input))
    requires var u := Urls.UrlParse(Strip(input)); u.Ok? && u.value.scheme == "file" && u.value.path == path
    requires r == Wb.WindowsToLinux(DropFirst(path), env)
    ensures Wb.WindowsToLinux(input, env) == if r.Ok? then Urls.AsUri(PosixPaths.Parse(r.value)) else r
  {
  }

  /** The other URL steps of `wb.py`'s `windows_to_linux`. */
  lemma WbWindowsOtherUrlRule(input: string, env: Option<string>)
    requires Misc.IsUrl(Strip(input))
    requires var u := Urls.UrlParse(Strip(input)); !(u.Ok? && u.value.scheme == "file")
    ensures var u := Urls.UrlParse(Strip(input));
      Wb.WindowsToLinux(input, env) == if u.Err? then Err(u.error) else Ok(Strip(input))
  {
  }

  lemma WindowsPathSame(s: string, env: Option<string>)
    ensures Wpc.WindowsPathToLinux(s, env) == Wb.WindowsPathToLinux(s, env)
  {
  }

  // ---------------------------------------------------------------------------
  // relpath

  /** `posixpath.join(a, *ps)` starts with `a` when no piece is absolute. */
  lemma {:induction false} JoinPathsPrefix(a: string, ps: seq<string>)
    requires forall j :: 0 <= j < |ps| ==> ps[j] == [] || ps[j][0] != '/'
    ensures a <= PosixPaths.JoinPaths(a, ps)
    decreases |ps|
  {
    if ps != [] {
      var b := ps[0];
      var next := if a == [] || a[|a| - 1] == '/' then a + b else a + "/" + b;
      assert b == [] || b[0] != '/';
      assert PosixPaths.JoinPaths(a, ps) == PosixPaths.JoinPaths(next, ps[1..]);
      assert a <= next;
      JoinPathsPrefix(next, ps[1..]);
    }
  }

  /** Outside the working directory, `os.path.relpath` starts by climbing out: "..". */
  lemma RelPathOutside(tail: seq<string>, cwd: seq<string>)
    requires PosixPaths.PosixNames(tail) && !(cwd <= tail)
    ensures StartsWithDots(PosixPaths.RelPath(tail, cwd))
  {
    var i := PosixPaths.CommonPrefixLength(cwd, tail);
    assert i < |cwd|;
    var rel := PosixPaths.Repeat("..", |cwd| - i) + tail[i..];
    assert rel[0] == "..";
    forall j | 0 <= j < |rel[1..]| ensures rel[1..][j] == [] || rel[1..][j][0] != '/' {
      if j + 1 < |cwd| - i {
        assert rel[1..][j] == "..";
      } else {
        assert rel[1..][j] == tail[i + j + 1 - (|cwd| - i)];
        assert PosixPaths.PosixName(tail[i + j + 1 - (|cwd| - i)]);
      }
    }
    JoinPathsPrefix("..", rel[1..]);
  }

  /** A relative path written out starts with ".." exactly when its first name does. */
  lemma JoinStartsWithDots(names: seq<string>)
    requires names != [] && PosixPaths.PosixNames(names)
    ensures StartsWithDots(PosixPaths.Format(PosixPaths.PurePosixPath("", names))) <==> StartsWithDots(names[0])
  {
    var j := Join(names, "/");
    assert PosixPaths.PosixName(names[0]);
    if |names| > 1 {
      assert j == names[0] + "/" + Join(names[1..], "/");
      if |names[0]| == 1 {
        assert j[1] == '/';
      } else {
        assert j[0] == names[0][0] && j[1] == names[0][1];
      }
    }
  }

  // ---------------------------------------------------------------------------
  // linux_to_windows against wb.py's

  /** The resolved input's first name below the working directory, if it is relative and inside. */
  predicate DotsNameInside(s: string, cwd: seq<string>) {
    var p := PosixPaths.Parse(s);
    var res := PosixPaths.Resolve(p, cwd);
    p.root == "" && cwd <= res.tail && |res.tail| > |cwd| && StartsWithDots(res.tail[|cwd|])
  }

  /**
   * For a path (not a URL), `wpc.py`'s relative rule picks the same inputs as
   * `wb.py`'s `is_relative_to(Path.cwd())`, and so converts them alike, unless
   * the first name below the working directory starts with "..".
   */
  lemma LinuxPathAgrees(s: string, cwd: seq<string>, env: Option<string>)
    requires PosixPaths.PosixNames(cwd) && !DotsNameInside(s, cwd)
    ensures Wpc.LinuxPathToWindows(s, cwd, env) == Wb.LinuxPathToWindows(s, cwd, env)
  {
    var p := PosixPaths.Parse(s);
    var res := PosixPaths.Resolve(p, cwd);
    if p.root == "" {
      PosixPaths.NormalizeNames(cwd, p.tail);
      if cwd <= res.tail {
        InsideAgrees(s, cwd, env);
      } else {
        RelPathOutside(res.tail, cwd);
        OutsideAgrees(s, cwd, env);
      }
    } else {
      AbsoluteAgrees(s, cwd, env);
    }
  }

  lemma AbsoluteAgrees(s: string, cwd: seq<string>, env: Option<string>)
    requires PosixPaths.Parse(s).root != ""
    ensures Wpc.LinuxPathToWindows(s, cwd, env) == Wb.LinuxPathToWindows(s, cwd, env)
  {
  }

  lemma OutsideAgrees(s: string, cwd: seq<string>, env: Option<string>)
    requires var res := PosixPaths.Resolve(PosixPaths.Parse(s), cwd);
      !(cwd <= res.tail) && StartsWithDots(PosixPaths.RelPath(res.tail, cwd))
    ensures Wpc.LinuxPathToWindows(s, cwd, env) == Wb.LinuxPathToWindows(s, cwd, env)
  {
  }

  lemma InsideAgrees(s: string, cwd: seq<string>, env: Option<string>)
    requires var p := PosixPaths.Parse(s);
      var res := PosixPaths.Resolve(p, cwd);
      p.root == "" && cwd <= res.tail && PosixPaths.PosixNames(res.tail) && !DotsNameInside(s, cwd)
    ensures Wpc.LinuxPathToWindows(s, cwd, env) == Wb.LinuxPathToWindows(s, cwd, env)
  {
    var p := PosixPaths.Parse(s);
    var res := PosixPaths.Resolve(p, cwd);
    InsideRelPath(res.tail, cwd);
    assert PosixPaths.RelativeTo(res, PosixPaths.CwdPath(cwd)) == PosixPaths.PurePosixPath("", res.tail[|cwd|..]);
  }

  /** Below the working directory, `relpath` is the names below it, and starts with ".." only when the first of them does. */
  lemma InsideRelPath(tail: seq<string>, cwd: seq<string>)
    requires cwd <= tail && PosixPaths.PosixNames(tail)
    requires !(|tail| > |cwd| && StartsWithDots(tail[|cwd|]))
    ensures var rel := PosixPaths.RelPath(tail, cwd);
      rel == PosixPaths.Format(PosixPaths.PurePosixPath("", tail[|cwd|..])) && !StartsWithDots(rel)
  {
    PosixPaths.RelPathInside(tail, cwd);
    var names := tail[|cwd|..];
    if names != [] {
      assert PosixPaths.PosixNames(names) by {
        forall k | 0 <= k < |names| ensures PosixPaths.PosixName(names[k]) {
          assert names[k] == tail[|cwd| + k];
        }
      }
      JoinStartsWithDots(names);
      assert names[0] == tail[|cwd|];
    }
  }

  /** Relative paths of plain names convert as in `wb.py` when the first name does not start with "..". */
  lemma RelativeRoundTrip(names: seq<string>, cwd: seq<string>, env: Option<string>)
    requires names != [] && PathConvertProps.PlainNames(names) && !StartsWithDots(names[0])
    requires PosixPaths.PosixNames(cwd)
    ensures Wpc.LinuxToWindows(Join(names, "/"), cwd, env) == Ok(Join(names, "\\"))
    ensures Wpc.WindowsToLinux(Join(names, "\\"), env) == Ok(Join(names, "/"))
  {
    WbProps.RelativeRoundTrip(names, cwd, env);
    WindowsToLinuxSame(Join(names, "\\"), env);
    PathConvertProps.PlainNamesAre(names);
    var l := Join(names, "/");
    PathConvertProps.RelativeText(names, '/');
    PosixPaths.ParseRelative(names);
    PosixPaths.NormalizeNoParent(cwd, names);
    assert (cwd + names)[|cwd|] == names[0];
    LinuxPathAgrees(l, cwd, env);
  }

  /**
   * A file "..a" in the working directory `/home`: `wb.py` keeps it relative,
   * `wpc.py` takes it for a path out of the directory and writes it in full.
   */
  lemma DotsNameExample(env: Option<string>)
    requires env.Some? && WslRules.DistroName(env.value)
    ensures Wb.LinuxToWindows("..a", ["home"], env) == Ok("..a")
    ensures Wpc.LinuxToWindows("..a", ["home"], env) == Ok(WslRules.WslPrefix + env.value + "\\home\\..a")
  {
    var n := "..a";
    assert PathConvertProps.PlainName(n) by {
      assert n[0] == '.' && n[1] == '.' && n[2] == 'a';
    }
    assert PathConvertProps.PlainNames([n]);
    assert Join([n], "/") == n && Join([n], "\\") == n;
    WbProps.RelativeToWindows([n], ["home"], env);
    DotsNameWpc(env);
  }

  lemma DotsNameWpc(env: Option<string>)
    requires env.Some? && WslRules.DistroName(env.value)
    ensures Wpc.LinuxToWindows("..a", ["home"], env) == Ok(WslRules.WslPrefix + env.value + "\\home\\..a")
  {
    DotsNameResolved(env);
    HomeDotsCurrent(env.value);
  }

  /** `/home/..a` lies in the current distribution. */
  lemma HomeDotsCurrent(distro: string)
    requires WslRules.DistroName(distro)
    ensures Wb.ResolvedToWindows(PosixPaths.PurePosixPath("/", ["home", "..a"]), Some(distro)) ==
      Ok(WslRules.WslPrefix + distro + "\\home\\..a")
  {
    HomeDotsOutside();
    HomeDotsNames();
    ResolvedCurrent(distro, ["home", "..a"]);
    HomeDotsText(WslRules.WslPrefix + distro);
  }

  lemma HomeDotsText(p: string)
    ensures p + "\\" + "home\\..a" == p + "\\home\\..a"
  {
    assert "\\" + "home\\..a" == "\\home\\..a";
  }

  lemma HomeDotsOutside()
    ensures var res := PosixPaths.PurePosixPath("/", ["home", "..a"]);
      !WslRules.UnderMntDrive(res) && !WslRules.UnderInstances(res)
  {
    var res := PosixPaths.PurePosixPath("/", ["home", "..a"]);
    WslRules.UnderMntIff(res);
    WslRules.UnderInstancesIff(res);
    assert res.tail[0] != "mnt";
  }

  lemma HomeDotsNames()
    ensures WindowsPaths.WinNames(["home", "..a"])
    ensures Join(["home", "..a"], "\\") == "home\\..a"
  {
    var n := "..a";
    assert n[0] == '.' && n[1] == '.' && n[2] == 'a';
    assert WindowsPaths.WinName(n);
    assert WindowsPaths.WinName("home");
    assert Join([n], "\\") == n;
  }

  /** A path outside the mounts and the instances is written below the current distribution's share. */
  lemma ResolvedCurrent(distro: string, names: seq<string>)
    requires WslRules.DistroName(distro) && WindowsPaths.WinNames(names)
    requires var res := PosixPaths.PurePosixPath("/", names);
      !WslRules.UnderMntDrive(res) && !WslRules.UnderInstances(res)
    ensures Wb.ResolvedToWindows(PosixPaths.PurePosixPath("/", names), Some(distro)) ==
      Ok(WslRules.WslPrefix + distro + "\\" + Join(names, "\\"))
  {
    WslRules.CurrentDistroNames(distro, names);
  }

  /** "..a" in `/home` resolves to `/home/..a`, and `wpc.py` sends it through the absolute rules. */
  lemma DotsNameResolved(env: Option<string>)
    ensures Wpc.LinuxToWindows("..a", ["home"], env) ==
      Wb.ResolvedToWindows(PosixPaths.PurePosixPath("/", ["home", "..a"]), env)
  {
    var n := "..a";
    DotsNameText();
    LinuxPathOnly(n, ["home"], env);
    DotsNameRelPath();
    DotsNamePath(env);
  }

  lemma DotsNameText()
    ensures Strip("..a") == "..a" && !Misc.IsUrl("..a")
  {
    var n := "..a";
    assert n[0] == '.' && n[|n| - 1] == 'a';
    assert NoEdgeSpace(n);
    PathConvertProps.NoLetterNotUrl(n);
  }

  lemma DotsNamePath(env: Option<string>)
    ensures Wpc.LinuxPathToWindows("..a", ["home"], env) ==
      Wb.ResolvedToWindows(PosixPaths.PurePosixPath("/", ["home", "..a"]), env)
  {
    DotsNameRelPath();
    var n := "..a";
    assert StartsWithDots(n);
  }

  lemma LinuxPathOnly(input: string, cwd: seq<string>, env: Option<string>)
    requires !Misc.IsUrl(Strip(input))
    ensures Wpc.LinuxToWindows(input, cwd, env) == Wpc.LinuxPathToWindows(Strip(input), cwd, env)
  {
  }

  /** `os.path.relpath("/home/..a")` from `/home` is "..a". */
  lemma DotsNameRelPath()
    ensures PosixPaths.Parse("..a") == PosixPaths.PurePosixPath("", ["..a"])
    ensures PosixPaths.Resolve(PosixPaths.Parse("..a"), ["home"]) == PosixPaths.PurePosixPath("/", ["home", "..a"])
    ensures PosixPaths.RelPath(["home", "..a"], ["home"]) == "..a"
  {
    var n := "..a";
    assert n[0] == '.' && n[1] == '.' && n[2] == 'a';
    assert Join([n], "/") == n;
    PosixPaths.ParseRelative([n]);
    PosixPaths.NormalizeNoParent(["home"], [n]);
    assert ["home"] + [n] == ["home", n];
    var tail := ["home", n];
    assert PosixPaths.CommonPrefixLength(["home"], tail) == 1;
    assert PosixPaths.Repeat("..", 0) + tail[1..] == [n];
  }
}
