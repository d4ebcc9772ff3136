/**
 * The WSL mount table of `wb/mounts.py`: reading the first three fields of
 * each /proc/mounts line, and grouping the mount points of the Windows
 * drives and shares (9p file systems whose device holds a backslash) by the
 * drive they belong to, in the order the lines come.
 */
module Mounts {
  import opened Strings
  import opened Errors
  import Misc

  /** `MountedDevice(device, mount, fstype)`. */
  datatype MountedDevice = MountedDevice(device: string, mount: string, fstype: string)

  // ---------------------------------------------------------------------------
  // parse_mounts, one line at a time

  /** `line.strip().split(" ")[:3]`. */
  function Fields(line: string): (r: seq<string>)
    ensures |r| == if |Split(Strip(line), ' ')| < 3 then |Split(Strip(line), ' ')| else 3
    ensures r == Split(Strip(line), ' ')[..|r|]
  {
    var all := Split(Strip(line), ' ');
    if |all| <= 3 then all else all[..3]
  }

  /**
   * `MountedDevice._make(map(decode_octal_escapes, fields))`: the three
   * fields, octal escapes decoded, or a TypeError when there are fewer.
   */
  function ParseMountLine(line: string): (r: Result<MountedDevice>)
    ensures r.Err? <==> |Split(Strip(line), ' ')| < 3
    ensures r.Err? ==> r.error == TooFewFields(|Split(Strip(line), ' ')|)
    ensures r.Ok? ==> var f := Split(Strip(line), ' ');
      r.value == MountedDevice(Misc.DecodeOctalEscapes(f[0]), Misc.DecodeOctalEscapes(f[1]),
                               Misc.DecodeOctalEscapes(f[2]))
  {
    var f := Fields(line);
    if |f| < 3 then Err(TooFewFields(|f|))
    else Ok(MountedDevice(Misc.DecodeOctalEscapes(f[0]), Misc.DecodeOctalEscapes(f[1]),
                          Misc.DecodeOctalEscapes(f[2])))
  }

  /**
   * A list comprehension `[parse(line) for line in lines]` whose element
   * expression may raise: every line parsed, or the error of the first line
   * that fails.
   */
  function ParseEach<T>(parse: string -> Result<T>, lines: seq<string>): (r: Result<seq<T>>)
    ensures r.Ok? ==> |r.value| == |lines|
  {
    if lines == [] then Ok([])
    else
      var first := parse(lines[0]);
      if first.Err? then Err(first.error)
      else
        var rest := ParseEach(parse, lines[1..]);
        if rest.Err? then Err(rest.error) else Ok([first.value] + rest.value)
  }

  /** `parse_mounts()` over the given lines of /proc/mounts. */
  function ParseMounts(lines: seq<string>): (r: Result<seq<MountedDevice>>)
    ensures r.Ok? ==> |r.value| == |lines|
  {
    ParseEach(ParseMountLine, lines)
  }

  /** The comprehension succeeds exactly when every line parses. */
  lemma {:induction false} ParseEachOk<T>(parse: string -> Result<T>, lines: seq<string>)
    ensures ParseEach(parse, lines).Ok? <==> forall i :: 0 <= i < |lines| ==> parse(lines[i]).Ok?
  {
    if lines != [] {
      ParseEachOk(parse, lines[1..]);
      forall i | 1 <= i < |lines| ensures lines[1..][i - 1] == lines[i] {}
    }
  }

  /** A successful comprehension holds each line's value, in order. */
  lemma {:induction false} ParseEachValues<T>(parse: string -> Result<T>, lines: seq<string>)
    requires ParseEach(parse, lines).Ok?
    ensures forall i :: 0 <= i < |lines| ==> parse(lines[i]) == Ok(ParseEach(parse, lines).value[i])
  {
    if lines != [] {
      ParseEachValues(parse, lines[1..]);
      forall i | 1 <= i < |lines| ensures lines[1..][i - 1] == lines[i] {}
    }
  }

  /** A failing comprehension raises the error of a line `k` all of whose predecessors parse. */
  lemma {:induction false} ParseEachError<T>(parse: string -> Result<T>, lines: seq<string>) returns (k: nat)
    requires ParseEach(parse, lines).Err?
    ensures k < |lines| && parse(lines[k]) == Err(ParseEach(parse, lines).error)
    ensures forall i :: 0 <= i < k ==> parse(lines[i]).Ok?
  {
    k := 0;
    if parse(lines[0]).Ok? {
      var j := ParseEachError(parse, lines[1..]);
      forall i | 1 <= i <= j ensures lines[1..][i - 1] == lines[i] {}
      k := j + 1;
    }
  }

  /**
   * `parse_mounts` succeeds exactly when every line has three fields, and
   * then gives each line's record in order; otherwise it raises the error of
   * the first line with fewer.
   */
  lemma ParseMountsSpec(lines: seq<string>) returns (k: nat)
    ensures ParseMounts(lines).Ok? <==> forall i :: 0 <= i < |lines| ==> ParseMountLine(lines[i]).Ok?
    ensures ParseMounts(lines).Ok? ==>
      forall i :: 0 <= i < |lines| ==> ParseMountLine(lines[i]) == Ok(ParseMounts(lines).value[i])
    ensures ParseMounts(lines).Err? ==>
      k < |lines| && ParseMountLine(lines[k]) == Err(ParseMounts(lines).error) &&
      (forall i :: 0 <= i < k ==> ParseMountLine(lines[i]).Ok?)
  {
    ParseEachOk(ParseMountLine, lines);
    k := 0;
    if ParseMounts(lines).Ok? {
      ParseEachValues(ParseMountLine, lines);
    } else {
      k := ParseEachError(ParseMountLine, lines);
    }
  }

  /** A field whose only whitespace is the kind Linux escapes (space, tab, newline). */
  predicate PlainField(f: string) {
    f != [] && forall i :: 0 <= i < |f| ==> IsSpace(f[i]) ==> Misc.Mangled(f[i])
  }

  /** How Linux writes a record: escaped fields separated by spaces, then the remaining fields. */
  function FormatMountLine(d: MountedDevice, options: string): string {
    Misc.MountEscape(d.device) + " " + Misc.MountEscape(d.mount) + " " + Misc.MountEscape(d.fstype) + options
  }

  lemma {:induction false} MountEscapeNoSpace(s: string)
    requires forall i :: 0 <= i < |s| ==> IsSpace(s[i]) ==> Misc.Mangled(s[i])
    ensures var e := Misc.MountEscape(s); forall i :: 0 <= i < |e| ==> !IsSpace(e[i])
    ensures s != [] ==> Misc.MountEscape(s) != []
  {
    if s != [] {
      MountEscapeNoSpace(s[1..]);
      var e := Misc.MountEscape(s);
      var head := if Misc.Mangled(s[0]) then "\\" + Misc.OctalDigits(s[0] as int) else [s[0]];
      assert e == head + Misc.MountEscape(s[1..]);
      forall i | 0 <= i < |e| ensures !IsSpace(e[i]) {
        if i >= |head| {
          assert e[i] == Misc.MountEscape(s[1..])[i - |head|];
        }
      }
    }
  }

  /** The first three space-separated pieces of a written line are the three escaped fields. */
  lemma SplitMountLine(e1: string, e2: string, e3: string, options: string)
    requires ' ' !in e1 && ' ' !in e2 && ' ' !in e3
    requires options == [] || options[0] == ' '
    ensures var f := Split(e1 + " " + e2 + " " + e3 + options, ' ');
      |f| >= 3 && f[0] == e1 && f[1] == e2 && f[2] == e3
  {
    var tail3 := e3 + options;
    var tail2 := e2 + [' '] + tail3;
    assert e1 + " " + e2 + " " + e3 + options == e1 + [' '] + tail2;
    SplitAfter(e1, tail2, ' ');
    SplitAfter(e2, tail3, ' ');
    if options == [] {
      assert tail3 == e3;
      SplitNoSep(e3, ' ');
    } else {
      assert tail3 == e3 + [' '] + options[1..];
      SplitAfter(e3, options[1..], ' ');
    }
  }

  /** Parsing a line written from a record gives the record back. */
  lemma ParseFormatMountLine(d: MountedDevice, options: string)
    requires PlainField(d.device) && PlainField(d.mount) && PlainField(d.fstype)
    requires options == [] || (options[0] == ' ' && !IsSpace(options[|options| - 1]))
    ensures ParseMountLine(FormatMountLine(d, options)) == Ok(d)
  {
    var e1, e2, e3 := Misc.MountEscape(d.device), Misc.MountEscape(d.mount), Misc.MountEscape(d.fstype);
    MountEscapeNoSpace(d.device);
    MountEscapeNoSpace(d.mount);
    MountEscapeNoSpace(d.fstype);
    var line := FormatMountLine(d, options);
    assert line == e1 + " " + e2 + " " + e3 + options;
    assert IsSpace(' ');
    SplitMountLine(e1, e2, e3, options);
    assert !IsSpace(line[0]) by { assert line[0] == e1[0]; }
    assert !IsSpace(line[|line| - 1]) by {
      if options == [] { assert line[|line| - 1] == e3[|e3| - 1]; }
      else { assert line[|line| - 1] == options[|options| - 1]; }
    }
    assert Strip(line) == line;
    Misc.DecodeMountEscape(d.device);
    Misc.DecodeMountEscape(d.mount);
    Misc.DecodeMountEscape(d.fstype);
  }

  // ---------------------------------------------------------------------------
  // find_wsl_mounts

  /**
   * Windows drive or share, then its WSL mount points in the order the
   * records came; the keys are distinct (an ordered dict).
   */
  type MountTable = seq<(string, seq<string>)>

  /** A record find_wsl_mounts keeps: a 9p file system whose device holds a backslash. */
  predicate Kept(r: MountedDevice) {
    r.fstype == "9p" && '\\' in r.device
  }

  /** `s.rstrip(c)`: `s` without its trailing run of `c`. */
  function RStrip(s: string, c: char): (r: string)
    ensures |r| <= |s| && r == s[..|r|]
    ensures r == [] || r[|r| - 1] != c
    ensures forall i :: |r| <= i < |s| ==> s[i] == c
  {
    if s != [] && s[|s| - 1] == c then RStrip(s[..|s| - 1], c) else s
  }

  /** The key a kept record is filed under: its device as `PureWindowsPath.drive` spells it ("C:\" becomes "C:"). */
  function Key(r: MountedDevice): string {
    RStrip(r.device, '\\')
  }

  /** `table.get(k)`. */
  function Lookup(t: MountTable, k: string): Option<seq<string>> {
    if t == [] then None else if t[0].0 == k then Some(t[0].1) else Lookup(t[1..], k)
  }

  /** Distinct keys, and no key with an empty list of mount points. */
  predicate TableWellFormed(t: MountTable) {
    t == [] || (t[0].1 != [] && Lookup(t[1..], t[0].0) == None && TableWellFormed(t[1..]))
  }

  /** In a well-formed table every key found has at least one mount point. */
  lemma {:induction false} LookupNonEmpty(t: MountTable, k: string)
    requires TableWellFormed(t)
    ensures Lookup(t, k).Some? ==> Lookup(t, k).value != []
  {
    if t != [] && t[0].0 != k {
      LookupNonEmpty(t[1..], k);
    }
  }

  /** `table.setdefault(k, []).append(m)`: `m` is added at the end of `k`'s list, a new key goes last. */
  function SetDefaultAppend(t: MountTable, k: string, m: string): (r: MountTable)
    ensures Lookup(r, k) == Some((if Lookup(t, k).Some? then Lookup(t, k).value else []) + [m])
    ensures forall k' :: k' != k ==> Lookup(r, k') == Lookup(t, k')
    ensures TableWellFormed(t) ==> TableWellFormed(r)
  {
    if t == [] then
      assert Lookup([(k, [m])], k) == Some([m]);
      assert [] + [m] == [m];
      [(k, [m])]
    else if t[0].0 == k then [(k, t[0].1 + [m])] + t[1..]
    else
      var r := [t[0]] + SetDefaultAppend(t[1..], k, m);
      assert r[1..] == SetDefaultAppend(t[1..], k, m);
      r
  }

  /** The table after one record: appended to when kept, unchanged when skipped. */
  function Step(t: MountTable, r: MountedDevice): MountTable {
    if Kept(r) then SetDefaultAppend(t, Key(r), r.mount) else t
  }

  /** The table after all records, one after the other. */
  function BuildTable(rs: seq<MountedDevice>): MountTable {
    if rs == [] then [] else Step(BuildTable(rs[..|rs| - 1]), rs[|rs| - 1])
  }

  /** The mount points of the kept records filed under `k`, in record order. */
  function MountsFor(rs: seq<MountedDevice>, k: string): seq<string> {
    if rs == [] then []
    else
      var last := rs[|rs| - 1];
      MountsFor(rs[..|rs| - 1], k) + (if Kept(last) && Key(last) == k then [last.mount] else [])
  }

  /** What `table.get(k)` should give: the mount points filed under `k`, or nothing when there are none. */
  function Expected(rs: seq<MountedDevice>, k: string): Option<seq<string>> {
    var ms := MountsFor(rs, k);
    if ms == [] then None else Some(ms)
  }

  /** Every key holds exactly the mount points of its kept records, earliest first; other keys are absent. */
  lemma {:induction false} BuildTableLookup(rs: seq<MountedDevice>, k: string)
    ensures Lookup(BuildTable(rs), k) == Expected(rs, k)
    decreases |rs|
  {
    if rs != [] {
      var init, last := rs[..|rs| - 1], rs[|rs| - 1];
      BuildTableLookup(init, k);
      var t := BuildTable(init);
      if Kept(last) && Key(last) == k {
        assert MountsFor(rs, k) == MountsFor(init, k) + [last.mount];
        assert Lookup(SetDefaultAppend(t, k, last.mount), k) == Some(MountsFor(init, k) + [last.mount]);
      } else {
        assert MountsFor(rs, k) == MountsFor(init, k);
        assert Lookup(Step(t, last), k) == Lookup(t, k);
      }
    }
  }

  /** `BuildTableLookup` for every key at once. */
  lemma BuildTableLookupAll(rs: seq<MountedDevice>)
    ensures forall k :: Lookup(BuildTable(rs), k) == Expected(rs, k)
  {
    forall k ensures Lookup(BuildTable(rs), k) == Expected(rs, k) {
      BuildTableLookup(rs, k);
    }
  }

  lemma {:induction false} BuildTableWellFormed(rs: seq<MountedDevice>)
    ensures TableWellFormed(BuildTable(rs))
    decreases |rs|
  {
    if rs != [] {
      BuildTableWellFormed(rs[..|rs| - 1]);
    }
  }

  /** One more record: the table of a prefix one longer is one step further. */
  lemma BuildTablePrefix(rs: seq<MountedDevice>, i: nat)
    requires i < |rs|
    ensures BuildTable(rs[..i + 1]) == Step(BuildTable(rs[..i]), rs[i])
  {
    assert rs[..i + 1][..i] == rs[..i];
  }

  /** A skipped record leaves the table as it was. */
  lemma SkippedRecord(rs: seq<MountedDevice>, r: MountedDevice)
    requires !Kept(r)
    ensures BuildTable(rs + [r]) == BuildTable(rs)
  {
    assert (rs + [r])[..|rs|] == rs;
  }

  /**
   * `find_wsl_mounts()` over the given /proc/mounts lines: the first
   * unparsable line is an error; otherwise each kept record appends its
   * mount point to the list of its drive.
   */
  method FindWslMounts(lines: seq<string>) returns (r: Result<MountTable>)
    ensures ParseMounts(lines).Err? ==> r == Err(ParseMounts(lines).error)
    ensures ParseMounts(lines).Ok? ==> r.Ok? && r.value == BuildTable(ParseMounts(lines).value)
    ensures r.Ok? ==> TableWellFormed(r.value)
    ensures r.Ok? ==> forall k :: Lookup(r.value, k) == Expected(ParseMounts(lines).value, k)
  {
    var parsed := ParseMounts(lines);
    if parsed.Err? {
      return Err(parsed.error);
    }
    var records := parsed.value;
    var table: MountTable := [];
    var i := 0;
    while i < |records|
      invariant 0 <= i <= |records|
      invariant table == BuildTable(records[..i])
    {
      var rec := records[i];
      if rec.fstype == "9p" && '\\' in rec.device {
        table := SetDefaultAppend(table, RStrip(rec.device, '\\'), rec.mount);
      }
      BuildTablePrefix(records, i);
      i := i + 1;
    }
    assert records[..i] == records;
    BuildTableWellFormed(records);
    BuildTableLookupAll(records);
    return Ok(table);
  }

  // ---------------------------------------------------------------------------
  // The table as line 33 of wb/mounts.py builds it

  /**
   * A key of the dictionary line 33 builds: `device.rstrip` without a call is
   * a bound method, which equals only the bound method of the same device
   * object, so each record gets a key of its own.
   */
  datatype DictKey = Str(s: string) | BoundRstrip(record: nat)

  function LookupKey(t: seq<(DictKey, seq<string>)>, k: DictKey): Option<seq<string>> {
    if t == [] then None else if t[0].0 == k then Some(t[0].1) else LookupKey(t[1..], k)
  }

  /** The dictionary as written: one entry per kept record, keyed by that record's bound method. */
  function BuildTableAsWritten(rs: seq<MountedDevice>): (t: seq<(DictKey, seq<string>)>)
    ensures forall i :: 0 <= i < |t| ==> t[i].0.BoundRstrip? && t[i].0.record < |rs| && |t[i].1| == 1
  {
    if rs == [] then []
    else
      var n := |rs| - 1;
      BuildTableAsWritten(rs[..n]) + (if Kept(rs[n]) then [(BoundRstrip(n), [rs[n].mount])] else [])
  }

  /** No drive string is ever found in the table as written. */
  lemma AsWrittenMissesEveryDrive(rs: seq<MountedDevice>, drive: string)
    ensures LookupKey(BuildTableAsWritten(rs), Str(drive)) == None
  {
    var t := BuildTableAsWritten(rs);
    AsWrittenLookupNone(t, Str(drive));
  }

  lemma {:induction false} AsWrittenLookupNone(t: seq<(DictKey, seq<string>)>, k: DictKey)
    requires k.Str? && forall i :: 0 <= i < |t| ==> t[i].0.BoundRstrip?
    ensures LookupKey(t, k) == None
  {
    if t != [] {
      AsWrittenLookupNone(t[1..], k);
    }
  }

  /** The drive C: mounted at /mnt/c: found under "C:" with the intended key, missed as written. */
  lemma MountKeyExample()
    ensures var rs := [MountedDevice("C:\\", "/mnt/c", "9p")];
      Lookup(BuildTable(rs), "C:") == Some(["/mnt/c"]) &&
      LookupKey(BuildTableAsWritten(rs), Str("C:")) == None
  {
    var rs := [MountedDevice("C:\\", "/mnt/c", "9p")];
    assert rs[..0] == [];
    assert Kept(rs[0]) by { assert "C:\\"[2] == '\\'; }
    assert RStrip("C:", '\\') == "C:";
    assert Key(rs[0]) == "C:";
    AsWrittenMissesEveryDrive(rs, "C:");
  }
}
