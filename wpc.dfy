/**
 * `wpc.py`, the command-line converter: `wpc <windows|linux> paths...`
 * prints every path converted in the direction its first argument names.
 *
 * Its `linux_to_windows` keeps a relative input relative when
 * `os.path.relpath` of the resolved path does not start with "..", and
 * otherwise applies the rules of `wb.py` for absolute paths. The working
 * directory and `WSL_DISTRO_NAME` are parameters; what `main` prints on
 * standard output is returned as its lines.
 */
module Wpc {
  import opened Strings
  import opened Errors
  import Misc
  import Urls
  import PosixPaths
  import WindowsPaths
  import WslRules
  import Wb

  /** `s.startswith("..")`. */
  predicate StartsWithDots(s: string) {
    |s| >= 2 && s[0] == '.' && s[1] == '.'
  }

  // ---------------------------------------------------------------------------
  // linux_to_windows

  /**
   * `linux_to_windows` after the `strip()` and the URL case: a relative input
   * whose path relative to the working directory does not climb out of it
   * comes back with '\' separators; anything else goes through the drive,
   * instance and distribution rules.
   */
  function LinuxPathToWindows(s: string, cwd: seq<string>, env: Option<string>): (r: Result<string>)
    ensures r.Err? ==> r == Err(DistroKeyError) && env.None?
    ensures r.Ok? ==> '/' !in r.value
  {
    var p := PosixPaths.Parse(s);
    var res := PosixPaths.Resolve(p, cwd);
    var rel := PosixPaths.RelPath(res.tail, cwd);
    if p.root == "" && !StartsWithDots(rel) then
      var w := SubstChar(rel, '/', '\\');
      assert forall i :: 0 <= i < |w| ==> w[i] != '/';
      Ok(w)
    else Wb.ResolvedToWindows(res, env)
  }

  /** `linux_to_windows(path)`, with the same URL handling as `wb.py`. */
  function LinuxToWindows(input: string, cwd: seq<string>, env: Option<string>): (r: Result<string>)
    ensures r.Err? ==> r.error == DistroKeyError || r.error == InvalidIPv6Url
    ensures r == Err(DistroKeyError) ==> env.None?
    ensures r.Ok? && !Misc.IsUrl(Strip(input)) ==> '/' !in r.value
    decreases |input|
  {
    var s := Strip(input);
    if Misc.IsUrl(s) then
      var u := Urls.UrlParse(s);
      if u.Err? then Err(u.error)
      else if u.value.scheme != "file" then Ok(s)
      else
        var w := LinuxToWindows(u.value.path, cwd, env);
        if w.Err? then w else Ok("file:///" + SubstChar(w.value, '\\', '/'))
    else LinuxPathToWindows(s, cwd, env)
  }

  // ---------------------------------------------------------------------------
  // windows_to_linux

  /**
   * `windows_to_linux` after the `strip()` and the URL case, in the order
   * `wpc.py` tests: relative, drive letter, `\\wsl$\<name>`, anything else.
   */
  function WindowsPathToLinux(s: string, env: Option<string>): (r: Result<string>)
    ensures r.Err? ==> r == Err(DistroKeyError) && env.None?
  {
    var w := WindowsPaths.Parse(s);
    if !WindowsPaths.IsAbsolute(w) then Ok(WindowsPaths.AsPosix(w))
    else if WslRules.DriveLetter(w.drive).Some? then
      Ok(WslRules.PosixJoin("/mnt/" + [AsciiLower(WslRules.DriveLetter(w.drive).value)], w.tail))
    else if WslRules.WslInstance(w.drive).Some? then
      var name := WslRules.WslInstance(w.drive).value;
      if env.None? then Err(DistroKeyError)
      else if name == env.value then Ok(WslRules.PosixJoin("/", w.tail))
      else Ok(WslRules.PosixJoin("/mnt/wsl/instances/" + name, w.tail))
    else Ok(WindowsPaths.Format(w))
  }

  /** `windows_to_linux(path)`. */
  function WindowsToLinux(input: string, env: Option<string>): (r: Result<string>)
    ensures r.Err? ==> r.error in {DistroKeyError, InvalidIPv6Url, RelativeFileUri}
    ensures r == Err(DistroKeyError) ==> env.None?
    decreases |input|
  {
    var s := Strip(input);
    if Misc.IsUrl(s) then
      var u := Urls.UrlParse(s);
      if u.Err? then Err(u.error)
      else if u.value.scheme != "file" then Ok(s)
      else
        var t := DropFirst(u.value.path);
        assert |t| < |input|;
        var x := WindowsToLinux(t, env);
        if x.Err? then x else Urls.AsUri(PosixPaths.Parse(x.value))
    else WindowsPathToLinux(s, env)
  }

  // ---------------------------------------------------------------------------
  // main

  /** The modes `main` knows: "windows" reads Windows paths, "linux" Linux paths. */
  predicate IsMode(mode: string) {
    mode == "windows" || mode == "linux"
  }

  /** `path_converter`: the converter `main` picks for a mode. */
  function Converter(mode: string, cwd: seq<string>, env: Option<string>): string -> Result<string>
    requires IsMode(mode)
  {
    if mode == "windows" then p => WindowsToLinux(p, env) else p => LinuxToWindows(p, cwd, env)
  }

  /** What a run printed, and the exception that ended it early, if any. */
  datatype Outcome = Outcome(printed: seq<string>, failure: Option<Error>)

  /**
   * `for p in map(path_converter, paths): print(p)`: each path is converted
   * and printed before the next one is converted, so an exception leaves the
   * lines printed before it.
   */
  function ConvertAll(convert: string -> Result<string>, paths: seq<string>): (r: Outcome)
    ensures |r.printed| <= |paths|
    ensures r.failure.None? ==> |r.printed| == |paths|
  {
    if paths == [] then Outcome([], None)
    else
      match convert(paths[0])
      case Err(e) => Outcome([], Some(e))
      case Ok(v) =>
        var rest := ConvertAll(convert, paths[1..]);
        Outcome([v] + rest.printed, rest.failure)
  }

  /**
   * `main(args)`: the exit code, or the exception it raises, and the lines it
   * prints. Fewer than three arguments or an unknown mode is exit code 1 (the
   * usage text goes to standard error, and needs `args[0]`).
   */
  method Execute(args: seq<string>, cwd: seq<string>, env: Option<string>) returns (code: Result<int>, printed: seq<string>)
    ensures |args| == 0 ==> code == Err(NoProgramName) && printed == []
    ensures 1 <= |args| <= 2 ==> code == Ok(1) && printed == []
    ensures |args| > 2 && !IsMode(args[1]) ==> code == Ok(1) && printed == []
    ensures |args| > 2 && IsMode(args[1]) ==>
      var run := ConvertAll(Converter(args[1], cwd, env), args[2..]);
      printed == run.printed && code == if run.failure.None? then Ok(0) else Err(run.failure.value)
  {
    printed := [];
    if |args| == 0 {
      code := Err(NoProgramName);
      return;
    }
    if |args| <= 2 {
      code := Ok(1);
      return;
    }
    var mode := args[1];
    if !IsMode(mode) {
      code := Ok(1);
      return;
    }
    code, printed := PrintAll(Converter(mode, cwd, env), args[2..]);
  }

  /** The loop at the end of `main`: print every converted path, then exit with 0. */
  method PrintAll(convert: string -> Result<string>, paths: seq<string>) returns (code: Result<int>, printed: seq<string>)
    ensures var run := ConvertAll(convert, paths);
      printed == run.printed && code == if run.failure.None? then Ok(0) else Err(run.failure.value)
  {
    printed := [];
    var i := 0;
    while i < |paths|
      invariant 0 <= i <= |paths|
      invariant var rest := ConvertAll(convert, paths[i..]);
        ConvertAll(convert, paths) == Outcome(printed + rest.printed, rest.failure)
    {
      assert paths[i..][0] == paths[i] && paths[i..][1..] == paths[i + 1..];
      var r := convert(paths[i]);
      if r.Err? {
        code := Err(r.error);
        return;
      }
      assert printed + ([r.value] + ConvertAll(convert, paths[i + 1..]).printed) ==
        (printed + [r.value]) + ConvertAll(convert, paths[i + 1..]).printed;
      printed := printed + [r.value];
      i := i + 1;
    }
    assert paths[i..] == [];
    code := Ok(0);
  }
}
