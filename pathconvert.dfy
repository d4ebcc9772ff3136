/**
 * The converter of `wbridge/pathconvert.py`. Its hidden inputs are
 * parameters: the mount table `find_wsl_mounts()` returns, the working
 * directory (as its names), and the distribution name. `linux_to_windows`
 * tries, in order: a URL, a relative path inside the working directory, a
 * path under a mount point of a Windows drive or share, a path inside another
 * distribution, and finally a path inside the current distribution.
 * `windows_to_linux` tries a URL, a relative path, a drive or share in the
 * mount table, `\\wsl$\<name>`, and otherwise returns the path unchanged.
 *
 * For `file` URLs both functions call themselves without passing the
 * distribution name on, so the inner call sees the default taken from the
 * environment when the module was imported. `urlDistro` is the name that inner
 * call sees: `LinuxToWindows` and `WindowsToLinux` pass the caller's name on,
 * the `AsWritten` variants the environment's.
 */
module PathConvert {
  import opened Strings
  import opened Errors
  import Misc
  import Urls
  import PosixPaths
  import WindowsPaths
  import Mounts
  import WslRules

  // ---------------------------------------------------------------------------
  // The mount table, searched in order

  /** `(root, mount)` for every mount point of one table entry. */
  function EntryPairs(root: string, mounts: seq<string>): (r: seq<(string, string)>)
    ensures |r| == |mounts| && forall i :: 0 <= i < |r| ==> r[i] == (root, mounts[i])
  {
    seq(|mounts|, i requires 0 <= i < |mounts| => (root, mounts[i]))
  }

  /** The pairs the two nested loops over `find_wsl_mounts().items()` visit, in their order. */
  function Pairs(t: Mounts.MountTable): seq<(string, string)> {
    if t == [] then [] else EntryPairs(t[0].0, t[0].1) + Pairs(t[1..])
  }

  /** `path.is_relative_to(mount)`. */
  predicate MountHolds(res: PosixPaths.PurePosixPath, mount: string) {
    PosixPaths.IsRelativeTo(res, PosixPaths.Parse(mount))
  }

  /** The index of the first pair from `start` on whose mount point holds `res`, or `|pairs|` when none does. */
  function FirstMount(pairs: seq<(string, string)>, res: PosixPaths.PurePosixPath, start: nat): (i: nat)
    requires start <= |pairs|
    ensures start <= i <= |pairs|
    ensures i < |pairs| ==> MountHolds(res, pairs[i].1)
    decreases |pairs| - start
  {
    if start == |pairs| || MountHolds(res, pairs[start].1) then start else FirstMount(pairs, res, start + 1)
  }

  /** No mount point between `start` and the one `FirstMount` picks holds the path. */
  lemma {:induction false} FirstMountIsFirst(pairs: seq<(string, string)>, res: PosixPaths.PurePosixPath, start: nat)
    requires start <= |pairs|
    ensures forall j :: start <= j < FirstMount(pairs, res, start) ==> !MountHolds(res, pairs[j].1)
    decreases |pairs| - start
  {
    if start < |pairs| && !MountHolds(res, pairs[start].1) {
      FirstMountIsFirst(pairs, res, start + 1);
    }
  }

  // ---------------------------------------------------------------------------
  // linux_to_windows

  /**
   * `linux_to_windows` after the distribution check, the `strip()` and the
   * URL case: a relative path that resolves inside the working directory
   * stays relative; any other path goes through the absolute rules.
   */
  function LinuxPathToWindows(s: string, table: Mounts.MountTable, cwd: seq<string>, distro: string): (r: string)
    ensures '/' !in r
  {
    var p := PosixPaths.Parse(s);
    var res := PosixPaths.Resolve(p, cwd);
    if p.root == "" && PosixPaths.IsRelativeTo(res, PosixPaths.CwdPath(cwd)) then
      WslRules.CwdRelative(res, cwd)
    else ResolvedToWindows(res, table, distro)
  }

  /**
   * The rules for a resolved path, in order: the first mount point that holds
   * it, then another distribution's directory, then the current distribution.
   */
  function ResolvedToWindows(res: PosixPaths.PurePosixPath, table: Mounts.MountTable, distro: string): (r: string)
    ensures '/' !in r
  {
    var pairs := Pairs(table);
    var i := FirstMount(pairs, res, 0);
    if i < |pairs| then
      var rel := PosixPaths.RelativeTo(res, PosixPaths.Parse(pairs[i].1));
      WindowsPaths.Normal(WindowsPaths.JoinPaths(pairs[i].0 + "\\", rel.tail))
    else if WslRules.UnderInstances(res) then WslRules.OtherDistro(res)
    else WslRules.CurrentDistro(distro, res)
  }

  /**
   * `linux_to_windows(input, distro)` where the recursive call for a `file`
   * URL runs with `urlDistro`. A missing name is an error; `urlparse` may
   * reject the URL; everything else converts, and a converted path never
   * holds a '/'.
   */
  function LinuxToWindowsWith(input: string, table: Mounts.MountTable, cwd: seq<string>,
                              distro: Option<string>, urlDistro: Option<string>): (r: Result<string>)
    ensures distro.None? ==> r == Err(DistroUnset)
    ensures r.Err? ==> r.error == DistroUnset || r.error == InvalidIPv6Url
    ensures r == Err(DistroUnset) ==> distro.None? || urlDistro.None?
    ensures r.Ok? && !Misc.IsUrl(Strip(input)) ==> '/' !in r.value
    decreases |input|
  {
    if distro.None? then Err(DistroUnset)
    else
      var s := Strip(input);
      if Misc.IsUrl(s) then
        var u := Urls.UrlParse(s);
        if u.Err? then Err(u.error)
        else if u.value.scheme != "file" then Ok(s)
        else
          var w := LinuxToWindowsWith(u.value.path, table, cwd, urlDistro, urlDistro);
          if w.Err? then w else Ok("file:///" + SubstChar(w.value, '\\', '/'))
      else Ok(LinuxPathToWindows(s, table, cwd, distro.value))
  }

  /** `linux_to_windows` with the distribution name passed on to the URL case. */
  function LinuxToWindows(input: string, table: Mounts.MountTable, cwd: seq<string>, distro: Option<string>): (r: Result<string>)
    ensures r == Err(DistroUnset) <==> distro.None?
    ensures distro.Some? ==> r.Ok? || r.error == InvalidIPv6Url
  {
    LinuxToWindowsWith(input, table, cwd, distro, distro)
  }

  /** `linux_to_windows` as written: the URL case converts with the import-time environment's name. */
  function LinuxToWindowsAsWritten(input: string, table: Mounts.MountTable, cwd: seq<string>,
                                   distro: Option<string>, envDistro: Option<string>): (r: Result<string>)
    ensures distro.None? ==> r == Err(DistroUnset)
    ensures r == Err(DistroUnset) ==> distro.None? || envDistro.None?
  {
    LinuxToWindowsWith(input, table, cwd, distro, envDistro)
  }

  // ---------------------------------------------------------------------------
  // windows_to_linux

  /**
   * `windows_to_linux` after the distribution check, the `strip()` and the
   * URL case. A relative path comes back in POSIX form; an absolute one is
   * placed under the first mount point of its drive, or under the directory
   * of its distribution, or returned as it is.
   */
  function WindowsPathToLinux(s: string, table: Mounts.MountTable, distro: string): (r: Result<string>)
    ensures r.Err? <==> (WindowsPaths.IsAbsolute(WindowsPaths.Parse(s)) &&
      Mounts.Lookup(table, WindowsPaths.Parse(s).drive) == Some([]))
    ensures r.Err? ==> r.error == EmptyMountList
    ensures r.Ok? && !WindowsPaths.IsAbsolute(WindowsPaths.Parse(s)) ==> '\\' !in r.value
  {
    var w := WindowsPaths.Parse(s);
    if !WindowsPaths.IsAbsolute(w) then Ok(WindowsPaths.AsPosix(w))
    else
      var mounts := Mounts.Lookup(table, w.drive);
      if mounts.Some? then
        if mounts.value == [] then Err(EmptyMountList)
        else Ok(WslRules.PosixJoin(mounts.value[0], w.tail))
      else
        match WslRules.WslInstance(w.drive)
        case Some(name) => Ok(WslRules.PosixJoin(WslRules.DistroPrefix(name, distro), w.tail))
        case None => Ok(WindowsPaths.Format(w))
  }

  /** `windows_to_linux(input, distro)` where the recursive call for a `file` URL runs with `urlDistro`. */
  function WindowsToLinuxWith(input: string, table: Mounts.MountTable,
                              distro: Option<string>, urlDistro: Option<string>): (r: Result<string>)
    ensures distro.None? ==> r == Err(DistroUnset)
    ensures r.Err? ==> r.error in {DistroUnset, InvalidIPv6Url, RelativeFileUri, EmptyMountList}
    ensures r == Err(DistroUnset) ==> distro.None? || urlDistro.None?
    decreases |input|
  {
    if distro.None? then Err(DistroUnset)
    else
      var s := Strip(input);
      if Misc.IsUrl(s) then
        var u := Urls.UrlParse(s);
        if u.Err? then Err(u.error)
        else if u.value.scheme != "file" then Ok(s)
        else
          var t := DropFirst(u.value.path);
          assert |t| < |input|;
          var x := WindowsToLinuxWith(t, table, urlDistro, urlDistro);
          if x.Err? then x else Urls.AsUri(PosixPaths.Parse(x.value))
      else WindowsPathToLinux(s, table, distro.value)
  }

  /** `windows_to_linux` with the distribution name passed on to the URL case. */
  function WindowsToLinux(input: string, table: Mounts.MountTable, distro: Option<string>): (r: Result<string>)
    ensures r == Err(DistroUnset) <==> distro.None?
  {
    WindowsToLinuxWith(input, table, distro, distro)
  }

  /** `windows_to_linux` as written: the URL case converts with the import-time environment's name. */
  function WindowsToLinuxAsWritten(input: string, table: Mounts.MountTable,
                                   distro: Option<string>, envDistro: Option<string>): (r: Result<string>)
    ensures distro.None? ==> r == Err(DistroUnset)
    ensures r == Err(DistroUnset) ==> distro.None? || envDistro.None?
  {
    WindowsToLinuxWith(input, table, distro, envDistro)
  }
}
