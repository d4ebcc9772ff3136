/**
 * The converters of `wb.py`, the earlier, table-free variant: a Linux path
 * `/mnt/<letter>/...` is a Windows drive, and a Windows drive `X:` is mounted
 * at `/mnt/x`. The working directory is a parameter (its names), and so is
 * `WSL_DISTRO_NAME`, which `wb.py` reads only when a path lies in the current
 * distribution; reading it while it is unset is a `KeyError`.
 *
 * `is_url`, `relative_to_subdir`, `partition_command` and `powershell_quote`
 * of `wb.py` compute what their `wbridge/misc.py` namesakes compute and are
 * the `Misc` definitions. The command preparation of `handle_run` is at the
 * end.
 */
module Wb {
  import opened Strings
  import opened Errors
  import Misc
  import Urls
  import PosixPaths
  import WindowsPaths
  import WslRules

  // ---------------------------------------------------------------------------
  // linux_to_windows

  /**
   * The rules for a resolved path that is not kept relative, in order: a
   * drive-letter mount, another distribution's directory, and the current
   * distribution. Only the last needs the environment.
   */
  function ResolvedToWindows(res: PosixPaths.PurePosixPath, env: Option<string>): (r: Result<string>)
    ensures r.Err? <==> env.None? && !WslRules.UnderMntDrive(res) && !WslRules.UnderInstances(res)
    ensures r.Err? ==> r.error == DistroKeyError
    ensures r.Ok? ==> '/' !in r.value
  {
    if WslRules.UnderMntDrive(res) then Ok(WslRules.MntDrive(res))
    else if WslRules.UnderInstances(res) then Ok(WslRules.OtherDistro(res))
    else if env.None? then Err(DistroKeyError)
    else Ok(WslRules.CurrentDistro(env.value, res))
  }

  /** `linux_to_windows` after the `strip()` and the URL case. */
  function LinuxPathToWindows(s: string, cwd: seq<string>, env: Option<string>): (r: Result<string>)
    ensures r.Err? ==> r == Err(DistroKeyError) && env.None?
    ensures r.Ok? ==> '/' !in r.value
  {
    var p := PosixPaths.Parse(s);
    var res := PosixPaths.Resolve(p, cwd);
    if p.root == "" && PosixPaths.IsRelativeTo(res, PosixPaths.CwdPath(cwd)) then
      Ok(WslRules.CwdRelative(res, cwd))
    else ResolvedToWindows(res, env)
  }

  /**
   * `linux_to_windows(path)`: a URL whose scheme is not `file` is returned as
   * it is; a `file` URL's path is converted and written after "file:///" with
   * '/' separators. It fails only when `urlparse` rejects the URL or when the
   * current distribution's name is needed and unset.
   */
  function LinuxToWindows(input: string, cwd: seq<string>, env: Option<string>): (r: Result<string>)
    ensures r.Err? ==> r.error == DistroKeyError || r.error == InvalidIPv6Url
    ensures r == Err(DistroKeyError) ==> env.None?
    ensures r.Ok? && !Misc.IsUrl(Strip(input)) ==> '/' !in r.value
    decreases |input|
  {
    var s := Strip(input);
    if Misc.IsUrl(s) then
      var u := Urls.UrlParse(s);
      if u.Err? then Err(u.error)
      else if u.value.scheme != "file" then Ok(s)
      else
        var w := LinuxToWindows(u.value.path, cwd, env);
        if w.Err? then w else Ok("file:///" + SubstChar(w.value, '\\', '/'))
    else LinuxPathToWindows(s, cwd, env)
  }

  // ---------------------------------------------------------------------------
  // windows_to_linux

  /**
   * `windows_to_linux` after the `strip()` and the URL case. A relative path
   * comes back in POSIX form; `X:` goes below `/mnt/x`; `\\wsl$\<name>` below
   * the distribution's directory, which needs the environment; any other
   * absolute path is returned as it is.
   */
  function WindowsPathToLinux(s: string, env: Option<string>): (r: Result<string>)
    ensures r.Err? <==> (WindowsPaths.IsAbsolute(WindowsPaths.Parse(s)) && env.None? &&
      WslRules.DriveLetter(WindowsPaths.Parse(s).drive).None? &&
      WslRules.WslInstance(WindowsPaths.Parse(s).drive).Some?)
    ensures r.Err? ==> r.error == DistroKeyError
    ensures r.Ok? && !WindowsPaths.IsAbsolute(WindowsPaths.Parse(s)) ==> '\\' !in r.value
  {
    var w := WindowsPaths.Parse(s);
    if !WindowsPaths.IsAbsolute(w) then Ok(WindowsPaths.AsPosix(w))
    else
      match WslRules.DriveLetter(w.drive)
      case Some(c) => Ok(WslRules.PosixJoin("/mnt/" + [AsciiLower(c)], w.tail))
      case None =>
        match WslRules.WslInstance(w.drive)
        case Some(name) =>
          if env.None? then Err(DistroKeyError)
          else Ok(WslRules.PosixJoin(WslRules.DistroPrefix(name, env.value), w.tail))
        case None => Ok(WindowsPaths.Format(w))
  }

  /**
   * `windows_to_linux(path)`: a `file` URL's path loses its leading '/', is
   * converted, and comes back as a `file://` URI, which fails for a relative
   * result.
   */
  function WindowsToLinux(input: string, env: Option<string>): (r: Result<string>)
    ensures r.Err? ==> r.error in {DistroKeyError, InvalidIPv6Url, RelativeFileUri}
    ensures r == Err(DistroKeyError) ==> env.None?
    decreases |input|
  {
    var s := Strip(input);
    if Misc.IsUrl(s) then
      var u := Urls.UrlParse(s);
      if u.Err? then Err(u.error)
      else if u.value.scheme != "file" then Ok(s)
      else
        var t := DropFirst(u.value.path);
        assert |t| < |input|;
        var x := WindowsToLinux(t, env);
        if x.Err? then x else Urls.AsUri(PosixPaths.Parse(x.value))
    else WindowsPathToLinux(s, env)
  }

  // ---------------------------------------------------------------------------
  // handle_run: preparing the command line

  /** What `handle_run` does with its command words before any process starts. */
  datatype RunStep =
    /** "ERROR: Command cannot be empty." and exit status 1. */
    | RefuseEmpty
    /** Run (or save) `command` with the arguments `args`. */
    | RunCommand(command: seq<string>, args: seq<string>)

  /** The leading "--" that `argparse.REMAINDER` keeps is removed. */
  function DropLeadingDashes(words: seq<string>): (r: seq<string>)
    ensures words != [] && words[0] == "--" ==> r == words[1..]
    ensures words == [] || words[0] != "--" ==> r == words
  {
    if words != [] && words[0] == "--" then words[1..] else words
  }

  /**
   * `handle_run` as written: the emptiness test comes before the leading "--"
   * is removed, so the command line `["--"]` reaches `partition_command([])`.
   */
  function PrepareRunAsWritten(words: seq<string>): (r: Result<RunStep>)
    ensures r.Err? <==> words == ["--"]
    ensures r.Err? ==> r.error == EmptyCommand
    ensures r == Ok(RefuseEmpty) <==> words == []
  {
    if |words| == 0 then Ok(RefuseEmpty)
    else
      var p :- Misc.PartitionCommand(DropLeadingDashes(words));
      Ok(RunCommand(p.0, p.1))
  }

  /**
   * `handle_run` with the emptiness test after the removal: it never raises,
   * it refuses exactly the command lines with no word but a leading "--", and
   * otherwise runs what `partition_command` makes of the remaining words.
   */
  function PrepareRun(words: seq<string>): (r: Result<RunStep>)
    ensures r.Ok?
    ensures r.value == RefuseEmpty <==> words == [] || words == ["--"]
    ensures r.value.RunCommand? ==> Misc.PartitionCommand(DropLeadingDashes(words)) == Ok((r.value.command, r.value.args))
  {
    var command := DropLeadingDashes(words);
    if |command| == 0 then Ok(RefuseEmpty)
    else
      var p := Misc.PartitionCommand(command);
      Ok(RunCommand(p.value.0, p.value.1))
  }

  /** `wb run --` raises the `IndexError` as written, and is refused once the test follows the removal. */
  lemma PrepareRunDashes()
    ensures PrepareRunAsWritten(["--"]) == Err(EmptyCommand)
    ensures PrepareRun(["--"]) == Ok(RefuseEmpty)
  {
  }

  /** The two differ only on `["--"]`. */
  lemma PrepareRunAgrees(words: seq<string>)
    requires words != ["--"]
    ensures PrepareRunAsWritten(words) == PrepareRun(words)
  {
    if words != [] && words[0] == "--" {
      assert words == [words[0]] + words[1..];
    }
  }
}
