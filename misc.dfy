/**
 * The string and list helpers of `wbridge/misc.py`: URL detection, the
 * "strictly below a directory" test, decoding of the octal escapes used in
 * the mount table, PowerShell quoting and the `command -- args` split. The
 * same helpers appear in `wb.py`, and `is_url` and `relative_to_subdir` in
 * `wpc.py`.
 */
module Misc {
  import opened Strings
  import opened Errors
  import PosixPaths

  // ---------------------------------------------------------------------------
  // is_url

  /** Length of the longest prefix of `s` made of ASCII letters: the run is all letters, and what follows it, if anything, is not a letter. */
  function LetterRun(s: string): (n: nat)
    ensures n <= |s|
    ensures forall j :: 0 <= j < n ==> IsAsciiLetter(s[j])
    ensures n < |s| ==> !IsAsciiLetter(s[n])
  {
    if s != [] && IsAsciiLetter(s[0]) then 1 + LetterRun(s[1..]) else 0
  }

  /** `is_url(s)`: the regular expression `^[a-zA-Z]+://` matches at the start of `s`. */
  predicate IsUrl(s: string) {
    var n := LetterRun(s);
    n >= 1 && n + 3 <= |s| && s[n..n + 3] == "://"
  }

  /** One way for `^[a-zA-Z]+://` to match: `k` letters, then "://". */
  predicate UrlPrefixAt(s: string, k: nat) {
    1 <= k && k + 3 <= |s| && (forall j :: 0 <= j < k ==> IsAsciiLetter(s[j])) && s[k..k + 3] == "://"
  }

  /** `IsUrl` is exactly the regular expression: some run of one or more letters followed by "://". */
  lemma IsUrlIff(s: string)
    ensures IsUrl(s) <==> exists k :: UrlPrefixAt(s, k)
  {
    if IsUrl(s) {
      assert UrlPrefixAt(s, LetterRun(s));
    }
    if k: nat :| UrlPrefixAt(s, k) {
      assert s[k] == s[k..k + 3][0];
      assert LetterRun(s) == k;
    }
  }

  /** A string without a colon is never a URL. */
  lemma NoColonNotUrl(s: string)
    requires ':' !in s
    ensures !IsUrl(s)
  {
    var n := LetterRun(s);
    if n + 3 <= |s| {
      assert s[n] == s[n..n + 3][0];
    }
  }

  /** The examples of tests/misc_test.py. */
  lemma NotUrlExample()
    ensures !IsUrl("not an url")
  {
    NoColonNotUrl("not an url");
  }

  /** The examples of tests/misc_test.py. */
  lemma HttpsIsUrl()
    ensures IsUrl("https://exmaple.com")
  {
    var s := "https://exmaple.com";
    assert IsAsciiLetter(s[0]) && IsAsciiLetter(s[1]) && IsAsciiLetter(s[2]);
    assert IsAsciiLetter(s[3]) && IsAsciiLetter(s[4]);
    assert s[5..8] == "://";
    assert UrlPrefixAt(s, 5);
    IsUrlIff(s);
  }

  /** Letters, then "://": a URL, whatever follows. */
  lemma SchemeIsUrl(scheme: string, rest: string)
    requires scheme != [] && forall j :: 0 <= j < |scheme| ==> IsAsciiLetter(scheme[j])
    ensures IsUrl(scheme + "://" + rest)
  {
    var s := scheme + "://" + rest;
    assert s[|scheme|..|scheme| + 3] == "://";
    assert UrlPrefixAt(s, |scheme|);
    IsUrlIff(s);
  }

  // ---------------------------------------------------------------------------
  // relative_to_subdir

  /** `relative_to_subdir(path, directory)`: `path` is relative to `directory` and has more parts. */
  predicate RelativeToSubdir(path: PosixPaths.PurePosixPath, directory: string) {
    var d := PosixPaths.Parse(directory);
    PosixPaths.IsRelativeTo(path, d) && |PosixPaths.Parts(path)| > |PosixPaths.Parts(d)|
  }

  /** Below a strict subdirectory: same root, and the directory's names are a proper prefix. */
  lemma RelativeToSubdirIff(path: PosixPaths.PurePosixPath, directory: string)
    ensures var d := PosixPaths.Parse(directory);
      RelativeToSubdir(path, directory) <==> path.root == d.root && d.tail < path.tail
  {
  }

  /** The first example of tests/misc_test.py: `/some/path` is below `/some`. */
  lemma RelativeToSubdirExample()
    ensures RelativeToSubdir(PosixPaths.Parse("/some/path"), "/some")
  {
    assert "/some/path" == "/" + Join(["some", "path"], "/");
    BelowParent("some", "path");
  }

  /** An absolute path of two names is below the absolute path of its first name. */
  lemma BelowParent(a: string, b: string)
    requires PosixPaths.PosixNames([a, b])
    ensures RelativeToSubdir(PosixPaths.Parse("/" + Join([a, b], "/")), "/" + a)
  {
    ParseLiteral([a, b], "/" + Join([a, b], "/"));
    ParseSingle(a);
    RelativeToSubdirIff(PosixPaths.PurePosixPath("/", [a, b]), "/" + a);
    assert [a] < [a, b];
  }

  /** The second example of tests/misc_test.py: `/dir` is not below itself. */
  lemma NotRelativeToSubdirExample()
    ensures !RelativeToSubdir(PosixPaths.Parse("/dir"), "/dir")
  {
    ParseSingle("dir");
    RelativeToSubdirIff(PosixPaths.Parse("/dir"), "/dir");
  }

  lemma ParseLiteral(names: seq<string>, s: string)
    requires PosixPaths.PosixNames(names) && s == "/" + Join(names, "/")
    ensures PosixPaths.Parse(s) == PosixPaths.PurePosixPath("/", names)
  {
    PosixPaths.ParseAbsolute(names);
  }

  /** "/" followed by one name parses to the absolute path of that name. */
  lemma ParseSingle(name: string)
    requires PosixPaths.PosixNames([name])
    ensures PosixPaths.Parse("/" + name) == PosixPaths.PurePosixPath("/", [name])
  {
    ParseLiteral([name], "/" + name);
  }

  // ---------------------------------------------------------------------------
  // decode_octal_escapes

  predicate IsOctalDigit(c: char) {
    '0' <= c <= '7'
  }

  /** `s` starts with a backslash and exactly three octal digits follow. */
  predicate EscapeAt(s: string) {
    |s| >= 4 && s[0] == '\\' && IsOctalDigit(s[1]) && IsOctalDigit(s[2]) && IsOctalDigit(s[3])
  }

  /** `int(abc, 8)` for three octal digits. */
  function OctalValue(a: char, b: char, c: char): (v: nat)
    requires IsOctalDigit(a) && IsOctalDigit(b) && IsOctalDigit(c)
    ensures v < 512
  {
    (a as int - '0' as int) * 64 + (b as int - '0' as int) * 8 + (c as int - '0' as int)
  }

  /**
   * `decode_octal_escapes(s)`: one left-to-right pass that replaces every
   * backslash followed by three octal digits with the character of that code;
   * replaced characters are not looked at again.
   */
  function DecodeOctalEscapes(s: string): (r: string)
    ensures |r| <= |s|
    ensures s != [] && !EscapeAt(s) ==> r != [] && r[0] == s[0]
  {
    if s == [] then []
    else if EscapeAt(s) then [OctalValue(s[1], s[2], s[3]) as char] + DecodeOctalEscapes(s[4..])
    else [s[0]] + DecodeOctalEscapes(s[1..])
  }

  /** The characters Linux writes as octal escapes in /proc/mounts: space, tab, newline, backslash. */
  predicate Mangled(c: char) {
    c == ' ' || c == '\t' || c == '\n' || c == '\\'
  }

  /** Three octal digits for a code below 512. */
  function OctalDigits(n: nat): (r: string)
    requires n < 512
    ensures |r| == 3 && IsOctalDigit(r[0]) && IsOctalDigit(r[1]) && IsOctalDigit(r[2])
    ensures OctalValue(r[0], r[1], r[2]) == n
  {
    [(n / 64 + '0' as int) as char, (n / 8 % 8 + '0' as int) as char, (n % 8 + '0' as int) as char]
  }

  /** How Linux writes a field of /proc/mounts: mangled characters as `\NNN`, the rest as is. */
  function MountEscape(s: string): (r: string)
    ensures forall i :: 0 <= i < |r| ==> !(Mangled(r[i]) && r[i] != '\\')
  {
    if s == [] then []
    else (if Mangled(s[0]) then "\\" + OctalDigits(s[0] as int) else [s[0]]) + MountEscape(s[1..])
  }

  /** Decoding undoes the kernel's escaping. */
  lemma {:induction false} DecodeMountEscape(s: string)
    ensures DecodeOctalEscapes(MountEscape(s)) == s
  {
    if s != [] {
      var rest := MountEscape(s[1..]);
      DecodeMountEscape(s[1..]);
      if Mangled(s[0]) {
        var e := "\\" + OctalDigits(s[0] as int) + rest;
        assert MountEscape(s) == e;
        assert EscapeAt(e);
        assert e[4..] == rest;
      } else {
        var e := [s[0]] + rest;
        assert MountEscape(s) == e;
        assert e[1..] == rest;
      }
      assert [s[0]] + s[1..] == s;
    }
  }

  /** A string without a backslash is left unchanged. */
  lemma {:induction false} DecodeNoBackslash(s: string)
    requires '\\' !in s
    ensures DecodeOctalEscapes(s) == s
  {
    if s != [] {
      DecodeNoBackslash(s[1..]);
      assert [s[0]] + s[1..] == s;
    }
  }

  lemma DecodeEscapeFirst(e: string, rest: string)
    requires |e| == 4 && EscapeAt(e)
    ensures DecodeOctalEscapes(e + rest) == [OctalValue(e[1], e[2], e[3]) as char] + DecodeOctalEscapes(rest)
  {
    assert (e + rest)[4..] == rest;
  }

  /** The examples of tests/misc_test.py. */
  lemma DecodeExamples()
    ensures DecodeOctalEscapes("\\164\\145\\163\\164") == "test"
    ensures DecodeOctalEscapes("unchanged") == "unchanged"
  {
    DecodeTest();
    DecodeNoBackslash("unchanged");
  }

  lemma DecodeTest()
    ensures DecodeOctalEscapes("\\164\\145\\163\\164") == "test"
  {
    var t, e, s := "\\164", "\\145", "\\163";
    DecodeEscapeChar(t, 't');
    DecodeEscapeChar(e, 'e');
    DecodeEscapeChar(s, 's');
    DecodeEscapeFirst(t, "");
    DecodeEscapeFirst(s, t);
    DecodeEscapeFirst(e, s + t);
    DecodeEscapeFirst(t, e + s + t);
    assert t + (e + s + t) == "\\164\\145\\163\\164";
    assert "t" + "e" + "s" + "t" == "test";
  }

  /** The escape `e` stands for `c`. */
  lemma DecodeEscapeChar(e: string, c: char)
    requires |e| == 4 && e[0] == '\\' && IsOctalDigit(e[1]) && IsOctalDigit(e[2]) && IsOctalDigit(e[3])
    requires OctalValue(e[1], e[2], e[3]) == c as int
    ensures EscapeAt(e) && OctalValue(e[1], e[2], e[3]) as char == c
  {
  }

  /** A decoded backslash is not decoded again, and a backslash without three octal digits stays. */
  lemma DecodeSinglePass()
    ensures DecodeOctalEscapes("\\134101") == "\\101"
    ensures DecodeOctalEscapes("\\18") == "\\18"
  {
    DecodeEscapeFirst("\\134", "101");
    DecodeNoBackslash("101");
    DecodeNoBackslash("18");
    assert !EscapeAt("\\18");
    assert "\\18"[1..] == "18";
  }

  // ---------------------------------------------------------------------------
  // powershell_quote

  /** `powershell_quote(s)`: single quotes around `s`, with every single quote doubled. */
  function PowerShellQuote(s: string): (r: string)
    ensures |r| >= 2 && r[0] == '\'' && r[|r| - 1] == '\''
  {
    "'" + Replace(s, '\'', "''") + "'"
  }

  /**
   * A character PowerShell takes for a single quote inside a single-quoted
   * literal: the apostrophe and the four typographic single quotes
   * U+2018 to U+201B.
   */
  predicate IsQuoteChar(c: char) {
    c == '\'' || c == '\U{2018}' || c == '\U{2019}' || c == '\U{201A}' || c == '\U{201B}'
  }

  /** `s` holds no typographic single quote; it may hold apostrophes. */
  predicate NoTypographicQuote(s: string) {
    forall i :: 0 <= i < |s| ==> !IsQuoteChar(s[i]) || s[i] == '\''
  }

  /**
   * Reads back the interior of a single-quoted PowerShell literal: two quote
   * characters in a row stand for the second of them; a lone quote character
   * ends the literal early, and then the text is not one literal.
   */
  function Undouble(t: string): Option<string> {
    if t == [] then Some([])
    else if !IsQuoteChar(t[0]) then
      match Undouble(t[1..]) {
        case Some(u) => Some([t[0]] + u)
        case None => None
      }
    else if |t| >= 2 && IsQuoteChar(t[1]) then
      match Undouble(t[2..]) {
        case Some(u) => Some([t[1]] + u)
        case None => None
      }
    else None
  }

  /** How PowerShell reads text that should be one single-quoted literal. */
  function PowerShellUnquote(q: string): Option<string> {
    if |q| >= 2 && IsQuoteChar(q[0]) && IsQuoteChar(q[|q| - 1]) then Undouble(q[1..|q| - 1]) else None
  }

  /** Doubling the apostrophes is undone by the reader when no typographic quote is present. */
  lemma {:induction false} UndoubleReplace(s: string)
    requires NoTypographicQuote(s)
    ensures Undouble(Replace(s, '\'', "''")) == Some(s)
  {
    if s != [] {
      assert NoTypographicQuote(s[1..]) by {
        forall i | 0 <= i < |s[1..]| ensures !IsQuoteChar(s[1..][i]) || s[1..][i] == '\'' {
          assert s[1..][i] == s[i + 1];
        }
      }
      UndoubleReplace(s[1..]);
      var rest := Replace(s[1..], '\'', "''");
      if s[0] == '\'' {
        assert Replace(s, '\'', "''") == "''" + rest;
        assert ("''" + rest)[2..] == rest;
      } else {
        assert !IsQuoteChar(s[0]);
        assert Replace(s, '\'', "''") == [s[0]] + rest;
        assert ([s[0]] + rest)[1..] == rest;
      }
      assert [s[0]] + s[1..] == s;
    }
  }

  /** PowerShell reads the quoted argument back as exactly `s`, provided `s` holds no typographic quote. */
  lemma PowerShellQuoteRoundTrip(s: string)
    requires NoTypographicQuote(s)
    ensures PowerShellUnquote(PowerShellQuote(s)) == Some(s)
  {
    var q := PowerShellQuote(s);
    assert q[1..|q| - 1] == Replace(s, '\'', "''");
    UndoubleReplace(s);
  }

  /**
   * `powershell_quote` leaves a right single quotation mark (U+2019)
   * undoubled, so PowerShell ends the literal there and the text after it
   * is not part of the argument.
   */
  lemma PowerShellQuoteTypographic()
    ensures PowerShellQuote("a\U{2019}b") == "'a\U{2019}b'"
    ensures PowerShellUnquote(PowerShellQuote("a\U{2019}b")) != Some("a\U{2019}b")
  {
    var s := "a\U{2019}b";
    assert Replace("b", '\'', "''") == "b";
    assert Replace("\U{2019}b", '\'', "''") == "\U{2019}b";
    assert Replace(s, '\'', "''") == s;
    var t := "a\U{2019}b";
    assert t[1..] == "\U{2019}b";
    assert Undouble(t[1..]) == None;
  }

  /** Every quote character doubled: the escaping a PowerShell single-quoted literal needs. */
  function DoubleQuoteChars(s: string): (r: string)
    ensures |r| >= |s|
  {
    if s == [] then [] else (if IsQuoteChar(s[0]) then [s[0], s[0]] else [s[0]]) + DoubleQuoteChars(s[1..])
  }

  /** `powershell_quote` with every single-quote character doubled, not just the apostrophe. */
  function PowerShellQuoteAll(s: string): (r: string)
    ensures |r| >= |s| + 2 && r[0] == '\'' && r[|r| - 1] == '\''
  {
    "'" + DoubleQuoteChars(s) + "'"
  }

  lemma {:induction false} UndoubleAll(s: string)
    ensures Undouble(DoubleQuoteChars(s)) == Some(s)
  {
    if s != [] {
      UndoubleAll(s[1..]);
      var rest := DoubleQuoteChars(s[1..]);
      if IsQuoteChar(s[0]) {
        assert DoubleQuoteChars(s) == [s[0], s[0]] + rest;
        assert ([s[0], s[0]] + rest)[2..] == rest;
      } else {
        assert DoubleQuoteChars(s) == [s[0]] + rest;
        assert ([s[0]] + rest)[1..] == rest;
      }
      assert [s[0]] + s[1..] == s;
    }
  }

  /** PowerShell reads the fully escaped literal back as exactly `s`, for every string. */
  lemma PowerShellQuoteAllRoundTrip(s: string)
    ensures PowerShellUnquote(PowerShellQuoteAll(s)) == Some(s)
  {
    var q := PowerShellQuoteAll(s);
    assert q[1..|q| - 1] == DoubleQuoteChars(s);
    UndoubleAll(s);
  }

  /** On text without typographic quotes the corrected quoting is `powershell_quote`. */
  lemma {:induction false} QuoteAllAgrees(s: string)
    requires NoTypographicQuote(s)
    ensures PowerShellQuoteAll(s) == PowerShellQuote(s)
  {
    DoubleReplace(s);
  }

  lemma {:induction false} DoubleReplace(s: string)
    requires NoTypographicQuote(s)
    ensures DoubleQuoteChars(s) == Replace(s, '\'', "''")
  {
    if s != [] {
      assert NoTypographicQuote(s[1..]) by {
        forall i | 0 <= i < |s[1..]| ensures !IsQuoteChar(s[1..][i]) || s[1..][i] == '\'' {
          assert s[1..][i] == s[i + 1];
        }
      }
      DoubleReplace(s[1..]);
    }
  }

  lemma {:induction false} ReplaceLength(s: string)
    ensures |Replace(s, '\'', "''")| == |s| + Count(s, '\'')
  {
    if s != [] {
      ReplaceLength(s[1..]);
    }
  }

  /** The quoted form is two quotes longer than `s`, plus one for each quote in `s`. */
  lemma PowerShellQuoteLength(s: string)
    ensures |PowerShellQuote(s)| == |s| + 2 + Count(s, '\'')
  {
    ReplaceLength(s);
  }

  /** The example of tests/misc_test.py. */
  lemma PowerShellQuoteExample()
    ensures PowerShellQuote("test'") == "'test'''"
  {
    assert Replace("'", '\'', "''") == "''";
    assert Replace("t'", '\'', "''") == "t''";
    assert Replace("st'", '\'', "''") == "st''";
    assert Replace("est'", '\'', "''") == "est''";
    assert Replace("test'", '\'', "''") == "test''";
  }

  // ---------------------------------------------------------------------------
  // partition_command

  /** Index of the first occurrence of `x` in `xs`. */
  function IndexOf(xs: seq<string>, x: string): (k: nat)
    requires x in xs
    ensures k < |xs| && xs[k] == x && x !in xs[..k]
  {
    if xs[0] == x then 0
    else
      var k := IndexOf(xs[1..], x);
      assert xs[..k + 1] == [xs[0]] + xs[1..][..k];
      k + 1
  }

  /**
   * `partition_command(args)`: the first element is always the command; when a
   * "--" follows, the words before the first one are part of the command and
   * the words after it are the arguments. An empty list is the `IndexError`
   * of `args[0]`.
   */
  function PartitionCommand(args: seq<string>): (r: Result<(seq<string>, seq<string>)>)
    ensures r.Err? <==> args == []
    ensures r.Err? ==> r.error == EmptyCommand
    ensures r.Ok? ==> |r.value.0| >= 1 && r.value.0[0] == args[0]
    ensures r.Ok? && "--" !in args[1..] ==> r.value == ([args[0]], args[1..])
    ensures r.Ok? && "--" in args[1..] ==> r.value.0 + ["--"] + r.value.1 == args && "--" !in r.value.0[1..]
  {
    if args == [] then Err(EmptyCommand)
    else
      var rest := args[1..];
      if "--" in rest then
        var k := IndexOf(rest, "--");
        assert ([args[0]] + rest[..k])[1..] == rest[..k];
        assert [args[0]] + rest[..k] + ["--"] + rest[k + 1..] == [args[0]] + rest;
        Ok(([args[0]] + rest[..k], rest[k + 1..]))
      else Ok(([args[0]], rest))
  }

  /** The command line a saved wrapper script runs: `command + ["--"] + args`. */
  function JoinCommand(command: seq<string>, args: seq<string>): seq<string> {
    command + ["--"] + args
  }

  /** Splitting a joined command line gives the parts back when the command holds no later "--". */
  lemma PartitionJoinCommand(command: seq<string>, args: seq<string>)
    requires |command| >= 1 && "--" !in command[1..]
    ensures PartitionCommand(JoinCommand(command, args)) == Ok((command, args))
  {
    var full := JoinCommand(command, args);
    assert full[1..] == command[1..] + ["--"] + args;
    assert full[1..][|command| - 1] == "--";
    var r := PartitionCommand(full);
    var k := IndexOf(full[1..], "--");
    assert full[1..][..|command| - 1] == command[1..];
    assert k == |command| - 1;
    assert [command[0]] + command[1..] == command;
  }

  /** The examples of tests/misc_test.py. */
  lemma PartitionCommandExamples()
    ensures PartitionCommand(["command", "arg1", "arg2", "arg3"]) == Ok((["command"], ["arg1", "arg2", "arg3"]))
    ensures PartitionCommand(["command", "unprocessed", "--", "arg1", "arg2"]) == Ok((["command", "unprocessed"], ["arg1", "arg2"]))
  {
    var a := ["command", "arg1", "arg2", "arg3"];
    assert a[1..] == ["arg1", "arg2", "arg3"];
    assert "--" !in a[1..];
    var b := ["command", "unprocessed", "--", "arg1", "arg2"];
    assert b == JoinCommand(["command", "unprocessed"], ["arg1", "arg2"]);
    PartitionJoinCommand(["command", "unprocessed"], ["arg1", "arg2"]);
  }
}
