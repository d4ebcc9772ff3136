# wbridge path converter, modelled in Dafny

wbridge lets a WSL user hand paths and URLs back and forth between Linux and
Windows programs. Its core is a pair of converters:

- `linux_to_windows` turns `/mnt/c/Windows` into `C:\Windows`,
  `/mnt/wsl/instances/distro/etc` into `\\wsl$\distro\etc`, any other absolute
  path into `\\wsl$\<current distribution>\...`, a relative path inside the
  working directory into the same names joined by `\`, and a `file://` URL into
  a `file:///` URL of the converted path;
- `windows_to_linux` goes the other way: a relative Windows path becomes its
  POSIX spelling, a drive or share goes below its mount point, `\\wsl$\<name>`
  goes to `/` or `/mnt/wsl/instances/<name>`, and any other UNC path is left as
  it is.

Three versions of the converters exist:

- `wbridge/pathconvert.py` reads the drive mount points from a mount table that
  `find_wsl_mounts` builds from `/proc/mounts`;
- `wb.py` and `wpc.py` are the older ones, with the fixed rule
  `/mnt/<letter>` ⇔ `<LETTER>:`;
- `wpc.py` also decides "relative" with `os.path.relpath`, and its `main`
  prints every converted argument.

All three are modelled here, together with the helpers of `wbridge/misc.py`
(`is_url`, `relative_to_subdir`, `decode_octal_escapes`, `powershell_quote`,
`partition_command`) and the mount-table builder of `wb/mounts.py`.

The behaviour of the Python library modules the converters call (`pathlib`,
`ntpath`, `posixpath` and `urllib.parse`) is modelled as CPython 3.12
implements it. That includes the root `pathlib` adds to a bare UNC share,
`is_relative_to`, `joinpath` and `urlsplit`.

The hidden inputs are parameters:

- the mount table;
- the working directory, as its list of names;
- the distribution name, or `WSL_DISTRO_NAME`, as an `Option<string>`;
- the lines of `/proc/mounts`.

Each Python exception a converter can raise on some input is a constructor of
`Errors.Error`. A function that may raise returns a `Result`.

The parts of the Python standard library the converters lean on are modelled
at string level:

- `pathlib` parsing, `str()`, `parts`, `is_relative_to`, `relative_to` and
  `joinpath`, for both path flavours;
- `ntpath.splitroot` and `ntpath.join`;
- `posixpath.join` and `os.path.relpath`;
- `urlparse`, and `as_uri` with UTF-8 percent-encoding;
- `str.strip`, `split`, `join` and `replace`.

Modules, one file each:

| module | file | models |
|---|---|---|
| `Errors` | errors.dfy | `Option`, `Result`, the exceptions |
| `Strings` | strings.dfy | the `str` operations |
| `PosixPaths` | posix_paths.dfy | `PurePosixPath`, `posixpath.join`, `resolve`, `relpath` |
| `WindowsPaths` | windows_paths.dfy | `PureWindowsPath`, `ntpath.splitroot`, `ntpath.join` |
| `Urls` | urls.dfy | `urlparse`, `as_uri`, `quote`, `unquote_to_bytes` |
| `Misc` | misc.dfy | the helpers of `wbridge/misc.py` |
| `Mounts` | mounts.dfy | `wb/mounts.py` |
| `WslRules` | wsl_rules.dfy | the rules all converters share |
| `PathConvert`, `PathConvertProps` | pathconvert.dfy, pathconvert_props.dfy | `wbridge/pathconvert.py` and its properties |
| `Wb`, `WbProps` | wb.dfy, wb_props.dfy | the converters of `wb.py` and their properties |
| `Wpc`, `WpcProps` | wpc.dfy, wpc_props.dfy | `wpc.py` and its properties |

## Model

| member | source | states |
|---|---|---|
| Strings.Strip | wbridge/pathconvert.py:18 | `strip()` gives a slice of its input with only whitespace before and after it in the input, and no whitespace at either of its own ends; so it is the input less its edge whitespace, and a string without edge whitespace is unchanged |
| Strings.StripLeft | wbridge/pathconvert.py:18 | the leading-whitespace half of `strip()`: a suffix of the input; characterised by `Strings.StripLeftSpaces` |
| Strings.StripRight | wbridge/pathconvert.py:18 | the trailing-whitespace half of `strip()`: a prefix of the input; characterised by `Strings.StripRightSpaces` |
| Strings.StripLeftSpaces | wbridge/pathconvert.py:18 | everything `lstrip` removes is whitespace in Python's `isspace` sense |
| Strings.StripRightSpaces | wbridge/pathconvert.py:18 | everything `rstrip` removes is whitespace |
| Strings.StripSubst | tests/pathconvert_test.py:9-13 | replacing one non-space character by another commutes with `strip()` |
| Strings.DropFirst | wbridge/pathconvert.py:74 | `urlpath[1:]` is the string without its first character, and empty for an empty string |
| Strings.AsciiUpper | wb.py:47 | `upper()` maps a lower-case ASCII letter to its upper case and keeps other characters |
| Strings.AsciiLower | wb.py:80 | `lower()` maps an upper-case ASCII letter to its lower case and keeps other characters |
| Strings.UpperOfLower | wb.py:80 | upper-casing the lower-cased drive letter gives the letter's upper case |
| Strings.LowerAscii | wb.py:80 | lower-casing a string keeps its length and lower-cases each character |
| Strings.Split | wb/mounts.py:15 | `split(" ")` gives at least one piece, and no piece holds the separator |
| Strings.Join | wb.py:133 | definition of `sep.join(parts)`; characterised by `Strings.SplitJoin` and `Strings.JoinSplit` |
| Strings.SplitJoin | wb/mounts.py:15 | splitting a join recovers the parts when no part holds the separator |
| Strings.JoinSplit | wb/mounts.py:15 | joining a split restores the string |
| Strings.SubstChar | wbridge/pathconvert.py:34 | `replace(a, b)` keeps the length and changes exactly the occurrences of `a` |
| Strings.SubstCharJoin | wbridge/pathconvert.py:34 | replacing the separator of a join re-joins the same parts with the new separator |
| Strings.SubstCharBack | tests/pathconvert_test.py:9 | turning `\` into `/` and back equals turning `/` into `\` |
| Strings.FindFrom | wbridge/pathconvert.py:76 | `find` returns the first index at or after `start` that holds the character, or -1 when there is none |
| Strings.Components | wbridge/pathconvert.py:76 | definition of pathlib's split into names; characterised by `Strings.ComponentsOfJoin` and `Strings.DropEmptyAndDot` |
| Strings.ComponentsOfJoin | wbridge/pathconvert.py:28 | pathlib's split into names recovers the names of a join |
| Strings.DropEmptyAndDot | wbridge/pathconvert.py:28 | parsing drops empty and "." pieces and keeps only pieces of its input |
| PosixPaths.SplitRoot | wbridge/pathconvert.py:28 | root and rest concatenate to the input, and the root is empty exactly when the input does not start with '/' |
| PosixPaths.Parse | wbridge/pathconvert.py:28 | `Path(s)` is well formed, and relative exactly when `s` does not start with '/' |
| PosixPaths.Parts | wbridge/misc.py:13-14 | `parts` holds the root, if there is one, and then every name |
| PosixPaths.IsRelativeTo | wbridge/pathconvert.py:33 | definition of `is_relative_to`; characterised by `PosixPaths.RelativeTo` and `Misc.RelativeToSubdirIff` |
| PosixPaths.RelativeTo | wbridge/pathconvert.py:34 | `relative_to` gives the relative path of the names after the base's names |
| PosixPaths.Resolve | wbridge/pathconvert.py:31 | `resolve()` always yields an absolute path |
| PosixPaths.CommonPrefixLength | wpc.py:35 | the longest common prefix of the two name lists, and where they first differ |
| PosixPaths.ParseAbsolute | wbridge/pathconvert.py:28 | "/" followed by well-formed names joined by '/' parses back to those names |
| PosixPaths.ParseRelative | wbridge/pathconvert.py:28 | well-formed names joined by '/' parse back to a relative path of those names |
| PosixPaths.Format | wbridge/pathconvert.py:90 | definition of `str()` of a POSIX path; characterised by `PosixPaths.ParseFormat` |
| PosixPaths.ParseFormat | wbridge/pathconvert.py:90 | `Path(str(p)) == p` for every well-formed path |
| PosixPaths.Normalize | wbridge/pathconvert.py:31 | definition of the lexical `resolve()`; characterised by `PosixPaths.NormalizeNoParent` and `PosixPaths.NormalizeNames` |
| PosixPaths.NormalizeNoParent | wbridge/pathconvert.py:31 | without "..", resolving only appends the names |
| PosixPaths.NormalizeNames | wbridge/pathconvert.py:31 | resolving keeps every name well formed |
| PosixPaths.JoinPaths | wbridge/pathconvert.py:90 | definition of `posixpath.join`; characterised by `PosixPaths.JoinPathsNames` and `PosixPaths.PosixJoinString` |
| PosixPaths.JoinPathsNames | wbridge/pathconvert.py:90 | `posixpath.join` of names onto a base inserts one '/' between pieces, none after a trailing '/' |
| PosixPaths.PosixJoinString | wbridge/pathconvert.py:90 | joining names onto an absolute path written from names gives the path of all the names |
| PosixPaths.PosixJoinAbsolute | wbridge/pathconvert.py:90 | `str(Path(prefix).joinpath(*names))` is "/" followed by all the names joined by '/' |
| PosixPaths.RelPath | wpc.py:35 | definition of `os.path.relpath`; characterised by `PosixPaths.RelPathInside` and `WpcProps.RelPathOutside` |
| PosixPaths.RelPathInside | wpc.py:35 | inside the working directory, `relpath` is the names below it |
| WindowsPaths.SplitRoot | wbridge/pathconvert.py:76 | drive, root and rest concatenate to the input |
| WindowsPaths.Normal | wbridge/pathconvert.py:40-44 | `str(PureWindowsPath(s))` never holds '/' |
| WindowsPaths.Parse | wbridge/pathconvert.py:76 | definition of `PureWindowsPath(s)`; characterised by `WindowsPaths.ParseNoSlash`, `ParseDrivePath` and `ParseUncPath` |
| WindowsPaths.Format | wbridge/pathconvert.py:95 | definition of `str()` of a Windows path; characterised by `WindowsPaths.Normal` and `WindowsPaths.ParseRelativeNames` |
| WindowsPaths.AsPosix | wbridge/pathconvert.py:78 | definition of `as_posix()`; characterised by `PathConvertProps.RelativeToLinux` |
| WindowsPaths.ParseNoSlash | wbridge/pathconvert.py:76 | no '/' in the drive, root or names of a parsed path, nor in its string form |
| WindowsPaths.ParseSlashes | wbridge/pathconvert.py:76 | two strings that agree once each '/' is read as '\' parse alike |
| WindowsPaths.ParseForwardSlashes | tests/pathconvert_test.py:13 | a path spelt with '/' instead of '\' parses the same |
| WindowsPaths.ParseDrivePath | wbridge/pathconvert.py:76 | `X:\` followed by plain names parses to the drive `X:`, a root, and those names |
| WindowsPaths.ParseUncPath | wbridge/pathconvert.py:76 | `\\server\share\` followed by plain names parses to that share, a root, and those names |
| WindowsPaths.UncNeedsRoot | wbridge/pathconvert.py:76 | definition of the root pathlib adds to a bare share; characterised by `WindowsPaths.ParseUncDrive` |
| WindowsPaths.ParseUncDrive | wbridge/pathconvert.py:76 | a bare `\\server\share` gets a root |
| WindowsPaths.ParseUncSlashes | tests/pathconvert_test.py:13 | a share followed by '/' and names parses like the backslash spelling |
| WindowsPaths.ParseRelativeNames | wbridge/pathconvert.py:76-78 | plain names joined by '\' parse to a relative path, whose string form is the same text |
| WindowsPaths.SplitRootUnc | wbridge/pathconvert.py:76 | `splitroot` of a UNC drive followed by nothing, or by '\' and more |
| WindowsPaths.SplitRootDoubleBackslash | wbridge/pathconvert.py:76 | `splitroot` of a string starting with two backslashes cuts at the second backslash after them |
| WindowsPaths.JoinDriveRoot | wbridge/pathconvert.py:40-44 | `PureWindowsPath("X:\\").joinpath(*names)` is `X:\` followed by the names joined by '\' |
| WindowsPaths.JoinUncRoot | wbridge/pathconvert.py:40-44 | the same after a share root |
| WindowsPaths.JoinUncNames | wbridge/pathconvert.py:51 | `PureWindowsPath("\\\\wsl$\\" + name).joinpath(*names)` puts one '\' between share and names |
| WindowsPaths.JoinUncAbsolute | wbridge/pathconvert.py:55 | joining an absolute POSIX path onto a share gives that path's names after the share root |
| WindowsPaths.JoinPaths | wbridge/pathconvert.py:40-44 | definition of `ntpath.join`; characterised by `WindowsPaths.JoinLoopNames`, `JoinDriveRoot` and `JoinUncAbsolute` |
| WindowsPaths.JoinLoop | wbridge/pathconvert.py:40-44 | definition of the loop of `ntpath.join`; characterised by `WindowsPaths.JoinLoopNames` |
| WindowsPaths.JoinLoopNames | wbridge/pathconvert.py:40-44 | the loop of `ntpath.join` appends each plain name after one '\' |
| WindowsPaths.WinNamesComponents | wbridge/pathconvert.py:76 | plain names joined by '\' split back into those names |
| Urls.RemoveUnsafe | wbridge/pathconvert.py:22 | `urlsplit` deletes tab, CR and LF, and leaves a string without them unchanged |
| Urls.FirstIn | wbridge/pathconvert.py:22 | the first index at or after `start` holding a character of the set, or the length |
| Urls.UrlParse | wbridge/pathconvert.py:22 | the scheme is the lower-cased leading letters; the path is shorter than the URL, starts with '/' if not empty, and holds no '?' or '#'; every error is the IPv6 `ValueError` |
| Urls.AfterScheme | wbridge/pathconvert.py:22 | the text after "scheme:", less tab, CR and LF, starts with "//" |
| Urls.UrlParseSplits | wbridge/pathconvert.py:22 | that text always splits as "//", a network location free of '/', '?' and '#', a path that is empty or starts with '/' and holds no '?' or '#', and a tail that is empty or starts with '?' or '#' |
| Urls.UrlParseSpec | wbridge/pathconvert.py:22 | for any such split, `urlparse` gives exactly that network location and path, and fails, with the IPv6 `ValueError`, exactly when the network location holds one of '[' and ']' without the other |
| Urls.FirstInIs | wbridge/pathconvert.py:22 | the first index in a set is any index with none before it and one at it |
| Urls.UrlRest | wbridge/pathconvert.py:22 | removing tab, CR and LF after "scheme:" keeps the "//" |
| Urls.UrlPath | wbridge/pathconvert.py:22 | the path starts at the '/' that ends the network location and stops before any query or fragment |
| Urls.Utf8 | wbridge/pathconvert.py:74 | a character encodes as one to four bytes, and as itself exactly when it is ASCII |
| Urls.Escape | wbridge/pathconvert.py:74 | a byte becomes '%' and two safe hexadecimal digits |
| Urls.PercentBytes | wbridge/pathconvert.py:74 | three characters per byte, all of them '%' or safe |
| Urls.Quote | wbridge/pathconvert.py:74 | the quoted form holds only safe characters and '%' |
| Urls.AsUri | wbridge/pathconvert.py:74 | `as_uri()` fails exactly for a relative path, with the `ValueError` of a relative path |
| Urls.HexRoundTrip | wbridge/pathconvert.py:74 | a hexadecimal digit reads back as its value |
| Urls.UnquoteByte | wbridge/pathconvert.py:74 | one escaped byte reads back as that byte |
| Urls.UnquotePercentBytes | wbridge/pathconvert.py:74 | the escapes of a byte sequence read back as that sequence |
| Urls.UnquoteQuote | wbridge/pathconvert.py:74 | percent-decoding the quoted path gives back its UTF-8 bytes |
| Urls.QuoteSafe | wbridge/pathconvert.py:74 | a path of safe characters is quoted as itself |
| Urls.ParseFileUrl | wbridge/pathconvert.py:22 | "file://" and an absolute path free of '?', '#', tab, CR and LF is a URL with scheme `file`, an empty network location, and that path |
| Urls.FileScheme | wbridge/misc.py:6 | "file:" followed by "//" is a URL whose scheme is the four letters |
| Urls.AsUriSafe | wbridge/pathconvert.py:74 | an absolute path of safe characters becomes "file://" and its string form |
| Misc.LetterRun | wbridge/misc.py:6 | the `[a-zA-Z]+` run at the start: no longer than the string, all letters, and not followed by a letter |
| Misc.IsUrl | wbridge/misc.py:5-6 | definition of `is_url`; characterised by `Misc.IsUrlIff` |
| Misc.IsUrlIff | wbridge/misc.py:5-6 | `is_url(s)` holds exactly when one or more ASCII letters and then "://" start `s` |
| Misc.NoColonNotUrl | wbridge/misc.py:6 | a string without ':' is no URL |
| Misc.SchemeIsUrl | wbridge/misc.py:6 | letters followed by "://" make a URL whatever follows |
| Misc.HttpsIsUrl | tests/misc_test.py:14 | "https://exmaple.com" is a URL |
| Misc.NotUrlExample | tests/misc_test.py:15 | "not an url" is not a URL |
| Misc.RelativeToSubdir | wbridge/misc.py:9-14 | definition of `relative_to_subdir`; characterised by `Misc.RelativeToSubdirIff` |
| Misc.RelativeToSubdirIff | wbridge/misc.py:9-14 | `relative_to_subdir(p, d)` holds exactly when `p` has `d`'s root and `d`'s names are a proper prefix of `p`'s |
| Misc.RelativeToSubdirExample | tests/misc_test.py:19 | `/some/path` is below `/some` |
| Misc.NotRelativeToSubdirExample | tests/misc_test.py:20 | `/dir` is not below `/dir` |
| Misc.BelowParent | wbridge/misc.py:9-14 | the absolute path of two names is below the absolute path of its first name |
| Misc.ParseSingle | tests/misc_test.py:19-20 | "/" and one name parse to the absolute path of that name |
| Misc.OctalValue | wbridge/misc.py:21 | three octal digits have a value below 512 |
| Misc.DecodeOctalEscapes | wbridge/misc.py:17-21 | decoding never lengthens a string, and keeps the first character when no escape starts there |
| Misc.DecodeNoBackslash | wbridge/misc.py:21 | a string without a backslash is unchanged |
| Misc.EscapeAt | wbridge/misc.py:21 | definition of a match of `\\([0-7]{3})`; characterised by `Misc.DecodeEscapeFirst` |
| Misc.DecodeEscapeFirst | wbridge/misc.py:21 | a leading `\NNN` becomes the character of code NNN, and decoding goes on after it |
| Misc.DecodeSinglePass | wbridge/misc.py:21 | a decoded backslash is not decoded again, and a backslash without three octal digits stays |
| Misc.DecodeMountEscape | wb/mounts.py:15 | decoding undoes the kernel's `\NNN` escaping of space, tab, newline and backslash |
| Misc.OctalDigits | wb/mounts.py:15 | a code below 512 has three octal digits whose value it is |
| Misc.MountEscape | wb/mounts.py:15 | the kernel's escaping leaves no space, tab or newline in a field |
| Misc.DecodeExamples | tests/misc_test.py:30-31 | `\164\145\163\164` decodes to "test"; "unchanged" is unchanged |
| Misc.DecodeTest | tests/misc_test.py:30 | `\164\145\163\164` decodes to "test" |
| Misc.PowerShellQuote | wbridge/misc.py:24-25 | the quoted form starts and ends with a single quote |
| Misc.UndoubleReplace | wbridge/misc.py:25 | for a string without typographic single quotes, PowerShell's reading of the doubled interior gives the string |
| Misc.PowerShellQuoteRoundTrip | wbridge/misc.py:24-25 | PowerShell, which takes U+0027 and U+2018 to U+201B for single quotes, reads the quoted argument back as exactly the string when the string holds no typographic single quote |
| Misc.PowerShellQuoteTypographic | wbridge/misc.py:25 | a right single quotation mark is left undoubled, so `"a’b"` is not read back as one literal |
| Misc.PowerShellQuoteAll | wbridge/misc.py:24-25 | the corrected quoting starts and ends with a single quote |
| Misc.DoubleQuoteChars | wbridge/misc.py:25 | doubling every quote character never shortens a string |
| Misc.UndoubleAll | wbridge/misc.py:25 | PowerShell's reading of the doubled interior gives the string, whatever quotes it holds |
| Misc.PowerShellQuoteAllRoundTrip | wbridge/misc.py:24-25 | PowerShell reads the corrected quoting back as exactly the string, for every string |
| Misc.QuoteAllAgrees | wbridge/misc.py:24-25 | on strings without typographic single quotes the corrected quoting is `powershell_quote` |
| Misc.DoubleReplace | wbridge/misc.py:25 | without typographic single quotes, doubling every quote character is `replace("'", "''")` |
| Strings.Replace | wbridge/misc.py:25 | definition of `s.replace("'", "''")`; characterised by `Misc.ReplaceLength` and `Misc.DoubleReplace` |
| Misc.ReplaceLength | wbridge/misc.py:25 | doubling the quotes adds one character per quote |
| Misc.PowerShellQuoteLength | wbridge/misc.py:25 | the quoted form is `|s| + 2 + count("'", s)` long |
| Misc.PowerShellQuoteExample | tests/misc_test.py:35 | `powershell_quote("test'") == "'test'''"` |
| Misc.IndexOf | wbridge/misc.py:34 | `args.index("--")` is the first occurrence |
| Misc.PartitionCommand | wbridge/misc.py:28-37 | an empty list, and only that, is the `IndexError` of `args[0]`; otherwise the first word is always the command's first; without "--" the rest are the arguments; with one, command + ["--"] + arguments is the input and the command holds no later "--" |
| Misc.JoinCommand | wb.py:129 | definition of `command + ["--"] + args`; characterised by `Misc.PartitionJoinCommand` |
| Misc.PartitionJoinCommand | wbridge/misc.py:28-37 | splitting `command + ["--"] + args` gives both back when the command holds no "--" after its first word |
| Misc.PartitionCommandExamples | tests/misc_test.py:39-47 | the two splits of the tests |
| Mounts.Fields | wb/mounts.py:15 | `line.strip().split(" ")[:3]`: at most three pieces, a prefix of the split |
| Mounts.ParseMountLine | wb/mounts.py:15 | a line with three fields gives them octal-decoded; one with fewer is the `TypeError` of that count |
| Mounts.ParseEach | wb/mounts.py:14-17 | a successful comprehension has one value per line |
| Mounts.ParseMounts | wb/mounts.py:9-17 | a successful `parse_mounts` has one record per line |
| Mounts.ParseEachOk | wb/mounts.py:14-17 | the comprehension succeeds exactly when every line does |
| Mounts.ParseEachValues | wb/mounts.py:14-17 | a successful comprehension holds each line's value, in order |
| Mounts.ParseEachError | wb/mounts.py:14-17 | a failing comprehension raises the error of a line all of whose predecessors parse |
| Mounts.ParseMountsSpec | wb/mounts.py:9-17 | `parse_mounts` succeeds exactly when every line has three fields, then gives each line's record in order, and otherwise raises the first bad line's error |
| Mounts.SplitMountLine | wb/mounts.py:15 | the first three space-separated pieces of a written line are its three fields |
| Mounts.ParseFormatMountLine | wb/mounts.py:15 | parsing a line the kernel writes from a record gives the record back |
| Mounts.Kept | wb/mounts.py:29-30 | definition of the filter of `find_wsl_mounts`; characterised by `Mounts.SkippedRecord` |
| Mounts.Key | wb/mounts.py:32-33 | definition of the intended key `device.rstrip("\\")`; characterised by `Mounts.RStrip` and `Mounts.MountKeyExample` |
| Mounts.Lookup | wbridge/pathconvert.py:81 | definition of `dict.get`; characterised by `Mounts.LookupNonEmpty` and `Mounts.BuildTableLookup` |
| Mounts.Step | wb/mounts.py:29-33 | definition of one pass of the loop body; characterised by `Mounts.SetDefaultAppend` and `Mounts.SkippedRecord` |
| Mounts.BuildTable | wb/mounts.py:25-35 | definition of the table the loop builds; characterised by `Mounts.BuildTableLookup` and `Mounts.BuildTableWellFormed` |
| Mounts.RStrip | wb/mounts.py:32 | `rstrip("\\")` removes exactly the trailing backslashes |
| Mounts.LookupNonEmpty | wb/mounts.py:33 | in a table `find_wsl_mounts` builds, every key found has a mount point |
| Mounts.SetDefaultAppend | wb/mounts.py:33 | `setdefault(k, []).append(m)` puts `m` at the end of `k`'s list, and leaves every other key and well-formedness as they were |
| Mounts.BuildTableLookup | wb/mounts.py:25-33 | each key holds exactly the mount points of its kept records, earliest first, and other keys are absent |
| Mounts.BuildTableLookupAll | wb/mounts.py:25-33 | the same for every key at once |
| Mounts.BuildTableWellFormed | wb/mounts.py:25-33 | keys are distinct and no list is empty |
| Mounts.BuildTablePrefix | wb/mounts.py:26-33 | one more record is one more step of the loop |
| Mounts.SkippedRecord | wb/mounts.py:29-30 | a record that is not 9p, or whose device has no backslash, leaves the table as it was |
| Mounts.FindWslMounts | wb/mounts.py:20-35 | the loop fails with the first bad line's error, and otherwise gives the grouped table, well formed, with each key's kept mount points in order |
| Mounts.BuildTableAsWritten | wb/mounts.py:33 | as written, each kept record gets a key of its own, with one mount point |
| Mounts.LookupKey | wbridge/pathconvert.py:81 | definition of `dict.get` on the as-written table; characterised by `Mounts.AsWrittenLookupNone` |
| Mounts.AsWrittenLookupNone | wb/mounts.py:33 | a table keyed by bound methods has no string key |
| Mounts.AsWrittenMissesEveryDrive | wb/mounts.py:33 | as written, no drive string is ever found in the table |
| Mounts.MountKeyExample | wb/mounts.py:32-33 | with `C:\` mounted at /mnt/c, "C:" finds `["/mnt/c"]` with the intended key and nothing as written |
| WslRules.WslInstance | wbridge/pathconvert.py:83 | the match of `^\\\\wsl\$\\(.+)$` is the name after `\\wsl$\`, maybe followed by one newline that is not part of it |
| WslRules.WslInstanceOf | wbridge/pathconvert.py:83 | the name in `\\wsl$\<name>` is found, with or without one trailing newline |
| WslRules.DriveLetter | wb.py:79 | the match of `^([a-zA-Z]):$` is a letter, a colon, and at most a final newline |
| WslRules.UnderInstances | wbridge/pathconvert.py:48 | definition of `relative_to_subdir(path, "/mnt/wsl/instances")`; characterised by `WslRules.UnderInstancesIff` |
| WslRules.UnderInstancesIff | wbridge/pathconvert.py:48 | a path is inside another distribution exactly when it starts `/mnt/wsl/instances/<name>` |
| WslRules.OtherDistro | wbridge/pathconvert.py:49-52 | the Windows path of another distribution's file holds no '/' |
| WslRules.CurrentDistro | wbridge/pathconvert.py:55 | the Windows path of a file in the current distribution holds no '/' |
| WslRules.UnderMntDrive | wb.py:46 | definition of `relative_to_subdir(path, "/mnt") and len(path.parts[2]) == 1`; characterised by `WslRules.UnderMntIff` and `WslRules.MntDriveNames` |
| WslRules.UnderMntIff | wb.py:46 | `relative_to_subdir(path, "/mnt")` holds exactly for `/mnt/<name>...` |
| WslRules.MntDrive | wb.py:46-50 | the drive path of `/mnt/<c>/...` holds no '/' |
| WslRules.CwdRelative | wbridge/pathconvert.py:34 | the relative result is written with '\' only |
| WslRules.OtherDistroNames | wbridge/pathconvert.py:48-52 | `/mnt/wsl/instances/<name>/<names>` becomes `\\wsl$\<name>\<names>` |
| WslRules.CurrentDistroNames | wbridge/pathconvert.py:55 | `/<names>` becomes `\\wsl$\<distro>\<names>` |
| WslRules.MntDriveNames | wb.py:46-50 | `/mnt/<c>/<names>` becomes `<C>:\<names>` with the letter upper-cased |
| WslRules.PosixJoin | wbridge/pathconvert.py:90 | definition of `str(Path(prefix).joinpath(*names))`; characterised by `WslRules.DistroPrefixJoin` and `WslRules.MntPrefixJoin` |
| WslRules.DistroPrefix | wbridge/pathconvert.py:84-87 | definition of the prefix chosen for a `\\wsl$\<name>` drive; characterised by `WslRules.DistroPrefixNames` |
| WslRules.DistroPrefixNames | wbridge/pathconvert.py:84-87 | the prefix is "/" for the current distribution and `/mnt/wsl/instances/<name>` for another, written as "/" followed by its names |
| WslRules.DistroPrefixJoin | wbridge/pathconvert.py:84-90 | `\\wsl$\<name>\<names>` becomes the names below `/` for the current distribution and below `/mnt/wsl/instances/<name>` for another |
| WslRules.MntPrefixJoin | wb.py:79-89 | `<c>:\<names>` becomes `/mnt/<lower-case c>/<names>` |
| WslRules.ParseInstancesDir | wbridge/misc.py:13 | `/mnt/wsl/instances` has the parts "/", "mnt", "wsl", "instances" |
| WslRules.ParseMntDir | wb.py:21 | `/mnt` has the parts "/", "mnt" |
| PathConvert.Pairs | wbridge/pathconvert.py:37-38 | definition of the nested loop's visiting order; characterised by `PathConvert.EntryPairs` and `PathConvertProps.FirstMountSingle` |
| PathConvert.MountHolds | wbridge/pathconvert.py:39 | definition of `path.is_relative_to(mount)`; characterised by `PathConvert.FirstMount` |
| PathConvert.EntryPairs | wbridge/pathconvert.py:37-38 | the inner loop visits each mount point of an entry, in order, with the entry's root |
| PathConvert.FirstMount | wbridge/pathconvert.py:37-44 | the search ends at a mount point that holds the path, or after the last |
| PathConvert.FirstMountIsFirst | wbridge/pathconvert.py:37-44 | no mount point before the one found holds the path |
| PathConvert.LinuxPathToWindows | wbridge/pathconvert.py:28-55 | a converted path never holds '/' |
| PathConvert.ResolvedToWindows | wbridge/pathconvert.py:36-55 | the mount, instance and current-distribution rules never write '/' |
| PathConvert.LinuxToWindowsWith | wbridge/pathconvert.py:9-55 | without a distribution name it is the `ValueError`; it fails otherwise only for that error in the URL case or a malformed URL; a converted path holds no '/' |
| PathConvert.LinuxToWindows | wbridge/pathconvert.py:9-55 | fails with the missing-name error exactly when no name is given; with one it fails only on a malformed URL |
| PathConvert.LinuxToWindowsAsWritten | wbridge/pathconvert.py:11-26 | the missing-name error comes from a missing name or a missing import-time environment name |
| PathConvert.WindowsPathToLinux | wbridge/pathconvert.py:76-95 | fails only on a table entry with no mount points; a relative result holds no '\'; the fall-through of lines 92-95 is stated by `PathConvertProps.OtherShareUnchanged` |
| PathConvert.WindowsToLinuxWith | wbridge/pathconvert.py:58-95 | without a name it is the `ValueError`; the other errors are a malformed URL, a relative `file` URL, or an empty mount list |
| PathConvert.WindowsToLinux | wbridge/pathconvert.py:58-95 | fails with the missing-name error exactly when no name is given |
| PathConvert.WindowsToLinuxAsWritten | wbridge/pathconvert.py:60-74 | the missing-name error comes from a missing name or a missing import-time environment name |
| PathConvertProps.LinuxPathOnly | wbridge/pathconvert.py:18-28 | input that is no URL once stripped goes straight to the path rules |
| PathConvertProps.WindowsPathOnly | wbridge/pathconvert.py:62-76 | the same for `windows_to_linux`, after the missing-name check |
| PathConvertProps.SameParse | wbridge/pathconvert.py:76-95 | the Windows path rules depend on the parsed path only |
| PathConvertProps.WindowsToLinuxTotal | wbridge/pathconvert.py:62-95 | with a name and a table `find_wsl_mounts` can build, only a malformed URL or a relative `file` URL fails |
| PathConvertProps.OtherUrlUnchanged | wbridge/pathconvert.py:21-24 | a URL whose scheme is not `file` comes back stripped and otherwise untouched, both ways |
| PathConvertProps.ForwardSlashes | tests/pathconvert_test.py:9-13 | `windows_to_linux` gives the same for a path spelt with '/' and with '\' |
| PathConvertProps.ForwardSlashPath | wbridge/pathconvert.py:76 | the path rules give the same for both spellings |
| PathConvertProps.RelativeRoundTrip | wbridge/pathconvert.py:33-34 | a relative path of plain names only changes its separators, both ways |
| PathConvertProps.RelativeToWindows | wbridge/pathconvert.py:28-34 | `a/b` becomes `a\b` |
| PathConvertProps.RelativeToLinux | wbridge/pathconvert.py:76-78 | `a\b` becomes `a/b` |
| PathConvertProps.RelativeText | wbridge/pathconvert.py:18-21 | plain relative names have no edge space and are no URL |
| PathConvertProps.AbsoluteToWindows | wbridge/pathconvert.py:28-33 | an absolute path of plain names goes through the mount, instance and distribution rules unchanged |
| PathConvertProps.MountedToWindows | wbridge/pathconvert.py:37-44 | below the first mount point that holds a path, the names under it follow the drive's root |
| PathConvertProps.DriveMountRoundTrip | wbridge/pathconvert.py:37-44 | a path below a drive's first mount point becomes `X:\<names>`, and back |
| PathConvertProps.DriveToLinux | wbridge/pathconvert.py:81-90 | `X:\<names>` for a drive in the table goes below the drive's first mount point |
| PathConvertProps.MountedPathToLinux | wbridge/pathconvert.py:81-90 | the mount rule on a parsed drive path |
| PathConvertProps.ShareMountRoundTrip | wbridge/pathconvert.py:37-44 | the same for a mounted share `\\server\share` |
| PathConvertProps.ShareToLinux | wbridge/pathconvert.py:81-90 | a share in the table goes below its first mount point |
| PathConvertProps.OtherShareUnchanged | wbridge/pathconvert.py:92-95 | a share of a server other than `wsl$` that is not in the mount table comes back unchanged; without a distribution name it is the `ValueError` |
| PathConvertProps.UnknownDrivePath | wbridge/pathconvert.py:80-95 | an absolute path whose drive is neither in the table nor `\\wsl$\<name>` is written out as `str(path)` |
| PathConvertProps.OtherDistroRoundTrip | wbridge/pathconvert.py:48-52 | `/mnt/wsl/instances/<name>/<names>` becomes `\\wsl$\<name>\<names>`, and back, when no mount point holds it |
| PathConvertProps.OtherDistroToWindows | wbridge/pathconvert.py:48-52 | the Linux to Windows half |
| PathConvertProps.ResolvedOtherDistro | wbridge/pathconvert.py:46-52 | the instance rule on a resolved path no mount point holds |
| PathConvertProps.InstanceToLinux | wbridge/pathconvert.py:83-90 | `\\wsl$\<name>\<names>`, not in the table, goes below the distribution's directory |
| PathConvertProps.CurrentDistroRoundTrip | wbridge/pathconvert.py:54-55 | any other absolute path `/<names>` becomes `\\wsl$\<distro>\<names>`, and back |
| PathConvertProps.LinuxUrlRule | wbridge/pathconvert.py:21-26 | a `file` URL is converted through its path, written with '/' after "file:///" |
| PathConvertProps.WindowsUrlRule | wbridge/pathconvert.py:69-74 | a `file` URL is converted through its path without the first character, then `as_uri()` |
| PathConvertProps.FileUrlToWindows | wbridge/pathconvert.py:26 | `linux_to_windows("file://" + path)` is "file:///" and the converted path with '/' |
| PathConvertProps.FileUrlToLinux | wbridge/pathconvert.py:74 | `windows_to_linux("file:///" + v)` is `as_uri()` of the converted `v` |
| PathConvertProps.FileUrlOfPath | wbridge/pathconvert.py:69-70 | "file:///" + v is a stripped `file` URL with the path "/" + v |
| PathConvertProps.EquivalentOf | tests/pathconvert_test.py:5-20 | a pair that converts both ways passes every check of `path_conversion_ensure_equivalent` |
| PathConvertProps.FileUrlsEquivalent | tests/pathconvert_test.py:15-20 | the `file` URLs of such a pair convert into each other |
| PathConvertProps.LinuxFileUrl | tests/pathconvert_test.py:20 | the Linux `file` URL converts to the Windows one |
| PathConvertProps.WindowsFileUrl | tests/pathconvert_test.py:19 | the Windows `file` URL converts to the Linux one |
| PathConvertProps.LinuxUri | wbridge/pathconvert.py:74 | `as_uri()` of an absolute path of safe characters is "file://" and the path |
| PathConvertProps.DriveEquivalent | tests/pathconvert_test.py:23-24 | every drive path of quotable names passes the checks |
| PathConvertProps.OtherDistroEquivalent | tests/pathconvert_test.py:27-30 | every path into another distribution passes the checks |
| PathConvertProps.CurrentDistroEquivalent | tests/pathconvert_test.py:33-37 | every path inside the current distribution passes the checks |
| PathConvertProps.RelativeEquivalent | tests/pathconvert_test.py:40-42 | every relative path of plain names passes the checks |
| PathConvertProps.FirstMountSingle | wbridge/pathconvert.py:37-44 | with one mount point, the search finds it exactly when the path lies below it |
| PathConvertProps.DrivePathExample | tests/pathconvert_test.py:24 | `/mnt/c/Windows` and `C:\Windows` are equivalent with C: mounted at /mnt/c |
| PathConvertProps.OtherDistroExample | tests/pathconvert_test.py:28-30 | `/mnt/wsl/instances/distro/etc/shadow` and `\\wsl$\distro\etc\shadow` are equivalent |
| PathConvertProps.CurrentDistroExample | tests/pathconvert_test.py:33-37 | `/etc/hosts` and `\\wsl$\Ubuntu-22.04\etc\hosts` are equivalent in Ubuntu-22.04 |
| PathConvertProps.RelativeExamples | tests/pathconvert_test.py:41-42 | `a/b/c/d` ⇔ `a\b\c\d` and `--help` ⇔ `--help` |
| PathConvertProps.AsWrittenLinuxUrlFails | wbridge/pathconvert.py:26 | as written, every `file` URL fails when the environment had no name at import, though the caller gives one |
| PathConvertProps.AsWrittenWindowsUrlFails | wbridge/pathconvert.py:74 | the same for `windows_to_linux` |
| PathConvertProps.AsWrittenExample | wbridge/pathconvert.py:26 | the tests' own URLs `file:///etc/hosts` and `file:///C:/Windows` fail as written |
| Wb.ResolvedToWindows | wb.py:44-61 | fails exactly for a path neither on a drive nor in another distribution while `WSL_DISTRO_NAME` is unset; never writes '/' |
| Wb.LinuxPathToWindows | wb.py:36-61 | the only failure is the `KeyError` without `WSL_DISTRO_NAME`; the result holds no '/' |
| Wb.LinuxToWindows | wb.py:25-61 | fails only with that `KeyError` or on a malformed URL; a converted path holds no '/' |
| Wb.WindowsPathToLinux | wb.py:74-94 | fails exactly for an absolute `\\wsl$\<name>` path without `WSL_DISTRO_NAME`; a relative result holds no '\' |
| Wb.WindowsToLinux | wb.py:64-94 | fails only with that `KeyError`, a malformed URL or a relative `file` URL |
| Wb.DropLeadingDashes | wb.py:162-166 | a leading "--" is removed, and nothing else changes |
| Wb.PrepareRunAsWritten | wb.py:157-172 | as written, `handle_run` raises the `IndexError` exactly for the command words `["--"]`, and refuses exactly the empty list |
| Wb.PrepareRun | wb.py:157-172 | with the emptiness test after the removal it never raises, refuses exactly `[]` and `["--"]`, and otherwise runs what `partition_command` makes of the remaining words |
| Wb.PrepareRunDashes | wb.py:157-172 | `wb run --` raises the `IndexError` as written and is refused once corrected |
| Wb.PrepareRunAgrees | wb.py:157-172 | the two agree on every other command line |
| WbProps.LinuxPathOnly | wb.py:25-36 | input that is no URL once stripped goes straight to the path rules |
| WbProps.WindowsPathOnly | wb.py:64-74 | the same for `windows_to_linux` |
| WbProps.OtherUrlUnchanged | wb.py:29-32 | a non-`file` URL comes back stripped, both ways, whatever the environment |
| WbProps.ForwardSlashes | wb.py:74 | `windows_to_linux` gives the same for both spellings |
| WbProps.ForwardSlashPath | wb.py:74 | the path rules give the same for both spellings |
| WbProps.SameParse | wb.py:74-94 | the path rules depend on the parsed path only |
| WbProps.RelativeRoundTrip | wb.py:41-42 | a relative path of plain names only changes its separators, both ways |
| WbProps.RelativeToWindows | wb.py:36-42 | `a/b` becomes `a\b` |
| WbProps.RelativeToLinux | wb.py:74-76 | `a\b` becomes `a/b` |
| WbProps.AbsoluteToWindows | wb.py:36-41 | an absolute path of plain names goes to the drive, instance and distribution rules unchanged |
| WbProps.DriveRoundTrip | wb.py:79-89 | `X:\<names>` becomes `/mnt/x/<names>` and that becomes `X:\<names>`: a round trip up to the letter's case |
| WbProps.DriveToLinux | wb.py:79-89 | `X:\<names>` becomes `/mnt/<lower-case x>/<names>` |
| WbProps.DrivePathToLinux | wb.py:79-89 | the drive rule on the path |
| WbProps.DriveToWindows | wb.py:46-50 | `/mnt/<c>/<names>` becomes `<C>:\<names>` with the letter upper-cased |
| WbProps.InstancesNotDrive | wb.py:46 | `/mnt/wsl/...` is no drive, since "wsl" is three letters long |
| WbProps.OtherDistroRoundTrip | wb.py:54-57 | `/mnt/wsl/instances/<name>/<names>` becomes `\\wsl$\<name>\<names>` without the environment, and comes back once the environment names another distribution |
| WbProps.OtherDistroToWindows | wb.py:54-57 | the Linux to Windows half |
| WbProps.OtherDistroBack | wb.py:81-89 | the Windows to Linux half: a `KeyError` without the environment, `/` for the current distribution, the instance directory otherwise |
| WbProps.InstanceToLinux | wb.py:81-89 | `\\wsl$\<name>\<names>` goes below the distribution's directory, which needs the environment |
| WbProps.CurrentDistroRoundTrip | wb.py:59-61 | any other absolute path becomes `\\wsl$\<distro>\<names>` and back; without the environment it is a `KeyError` |
| WbProps.OtherShareUnchanged | wb.py:91-94 | a share of any server but `wsl$` comes back unchanged |
| WbProps.UnknownDriveRule | wb.py:91-94 | an absolute path on a drive that is neither a letter nor `\\wsl$\<name>` is written out unchanged |
| WslRules.NotWslShare | wb.py:79-82 | a share of another server matches neither regular expression |
| WbProps.FileUrlToWindows | wb.py:34 | `linux_to_windows("file://" + path)` is "file:///" and the converted path with '/' |
| WbProps.LinuxUrlRule | wb.py:29-34 | a `file` URL is converted through its path |
| WbProps.FileUrlToLinux | wb.py:72 | `windows_to_linux("file:///" + v)` is `as_uri()` of the converted `v` |
| WbProps.FileUrlRule | wb.py:67-72 | a `file` URL whose path is "/" + v is converted through `v` |
| Wpc.LinuxPathToWindows | wpc.py:31-54 | the only failure is the `KeyError` without `WSL_DISTRO_NAME`; the result holds no '/' |
| Wpc.LinuxToWindows | wpc.py:20-54 | fails only with that `KeyError` or on a malformed URL; its URL steps are stated by `WpcProps.LinuxFileRule` and `WpcProps.LinuxOtherUrlRule` |
| Wpc.WindowsPathToLinux | wpc.py:66-83 | fails only with that `KeyError` |
| Wpc.WindowsToLinux | wpc.py:56-83 | fails only with that `KeyError`, a malformed URL or a relative `file` URL |
| Wpc.ConvertAll | wpc.py:102-103 | never prints more lines than paths, and prints one per path when nothing fails |
| Wpc.PrintAll | wpc.py:102-105 | the loop prints what `ConvertAll` says and exits with 0, or with the first path's exception |
| Wpc.IsMode | wpc.py:94-100 | definition of the modes `main` accepts; characterised by `Wpc.Execute` |
| Wpc.Converter | wpc.py:93-97 | definition of the converter `main` picks; characterised by `Wpc.Execute` |
| Wpc.Execute | wpc.py:88-105 | no arguments is an `IndexError`; fewer than three or an unknown mode exits with 1 and prints nothing; otherwise it runs the chosen converter over the paths |
| WpcProps.ConvertAllSpec | wpc.py:102-103 | the lines printed are the converted paths in order; the run fails exactly when some path fails, and then stops at the first such path with its exception |
| WpcProps.WindowsToLinuxSame | wpc.py:56-83 | `wpc.py` and `wb.py` convert every Windows path and URL alike |
| WpcProps.WindowsPathSame | wpc.py:66-83 | their path rules agree |
| WpcProps.WindowsPathOnly | wpc.py:56-66 | input that is no URL once stripped goes straight to the path rules |
| WpcProps.LinuxFileRule | wpc.py:24-29 | a `file` URL becomes "file:///" followed by its converted path with every '\' turned into '/', or the error of that conversion |
| WpcProps.LinuxOtherUrlRule | wpc.py:24-27 | a URL of another scheme comes back stripped and unchanged; a malformed one is the IPv6 `ValueError` |
| WpcProps.WindowsFileRule | wpc.py:59-64 | the `file` URL step of `wpc.py` |
| WpcProps.WindowsOtherUrlRule | wpc.py:59-62 | the other URL steps of `wpc.py` |
| WpcProps.WbWindowsFileRule | wb.py:67-72 | the `file` URL step of `wb.py` |
| WpcProps.WbWindowsOtherUrlRule | wb.py:67-70 | the other URL steps of `wb.py` |
| WpcProps.LinuxPathOnly | wpc.py:20-31 | input that is no URL once stripped goes straight to the path rules |
| WpcProps.RelPathOutside | wpc.py:35-37 | outside the working directory, `relpath` starts with ".." |
| Wpc.StartsWithDots | wpc.py:37 | definition of `startswith("..")`; characterised by `WpcProps.JoinStartsWithDots` and `WpcProps.RelPathOutside` |
| WpcProps.JoinStartsWithDots | wpc.py:37 | a relative path starts with ".." exactly when its first name does |
| WpcProps.InsideRelPath | wpc.py:35-38 | inside the working directory, `relpath` is the names below it, and does not start with ".." unless the first of them does |
| WpcProps.LinuxPathAgrees | wpc.py:31-38 | for a path, `wpc.py`'s relative rule converts as `wb.py`'s does, unless the first name below the working directory starts with ".." |
| WpcProps.AbsoluteAgrees | wpc.py:31-37 | they agree on absolute paths |
| WpcProps.OutsideAgrees | wpc.py:35-37 | they agree on relative paths outside the working directory |
| WpcProps.InsideAgrees | wpc.py:35-38 | they agree on relative paths inside it whose first name does not start with ".." |
| WpcProps.RelativeRoundTrip | wpc.py:37-38 | a relative path of plain names only changes its separators, both ways |
| WpcProps.DotsNameRelPath | wpc.py:35 | `relpath` of `/home/..a` from `/home` is "..a" |
| WpcProps.DotsNameExample | wpc.py:37 | a file "..a" in `/home` stays relative in `wb.py`, and is written out in full below the current distribution in `wpc.py` |

## Left out

- Case mapping: `str.upper` and `str.lower` are modelled for ASCII letters only. Every other character is kept as it is.
- `Path.resolve()`: modelled as lexical processing of "." and "..". Symbolic links and `stat` errors are not modelled.
- `Path.cwd()` and the filesystem: the working directory is a parameter, as its names.
- Environment reads:
  - `WSL_DISTRO_NAME` is a parameter.
  - In `wb.py` and `wpc.py` it is read only when a rule needs it, and the model reads it at the same points.
  - The import-time default of `wbridge/pathconvert.py` is the `envDistro` parameter of the `AsWritten` functions.
- `/proc/mounts` and `@cache`:
  - The lines of `/proc/mounts` are a parameter of `Mounts.FindWslMounts`.
  - The mount table is a parameter of the `wbridge/pathconvert.py` converters.
  - The memoisation of `@cache` is not modelled.
- wbridge/mounts.py is not part of this model. The table it returns is taken to be the table of the intended key `device.rstrip("\\")` (`Mounts.BuildTable`), and is a parameter.
- wb/misc.py is not part of this model. `wb/mounts.py` imports `decode_octal_escapes` from it; the model uses the definition of `wbridge/misc.py` (`Misc.DecodeOctalEscapes`) in its place.
- `urlparse`:
  - Only the scheme, network location and path are modelled.
  - The checks of a bracketed host, beyond a missing '[' or ']', are not modelled.
  - The NFKC check of the network location is not modelled.
  - The port is not modelled.
- Urls.UrlParse: the `;params` split that `urlparse` makes for schemes such as `http` is not modelled, so for those schemes the path may differ from Python's. The converters read the path only of `file` URLs, which have no such split.
- Encoding: `as_uri` encodes with UTF-8. Lone surrogates, and the `surrogateescape` handling of `os.fsencode`, are not modelled, since a Dafny `char` is a Unicode scalar value.
- `wpc.py`:
  - The usage text that `help` writes to standard error is not modelled.
  - `exit` is not modelled; `Wpc.Execute` returns the exit code, and the printed lines are returned as a sequence.
- Commands and user interface:
  - The command executors, `save_command`, `create_command_wrapper`, screenshots, argparse and the TUI handlers (including `handle_convert`) are process and file I/O. They are not modelled.
  - Of `handle_run`, only the preparation of the command words is modelled (`Wb.PrepareRunAsWritten`); which executor runs them, and saving them, are not.
  - `skip_leading_dashes` and `unexpand_user` are tested but not defined in any of the modelled files.
- PathConvertProps.DriveMountRoundTrip: the round trips of the converters are stated for plain names: non-empty, not "." or "..", no '/', '\' or ':', no whitespace at either end. The same holds for the other round-trip lemmas of `PathConvertProps`, `WbProps` and `WpcProps`.
- PathConvertProps.DriveEquivalent: the `file` URL checks are stated for names made of characters `quote` keeps as they are. The same holds for `OtherDistroEquivalent` and `CurrentDistroEquivalent`.
- PathConvertProps.WindowsToLinuxTotal: stated for a mount table with distinct keys and no empty list. `Mounts.BuildTableWellFormed` shows that every table `find_wsl_mounts` builds has both.
- WpcProps.LinuxPathAgrees: stated only when the first name below the working directory does not start with "..". `WpcProps.DotsNameExample` shows how the two scripts differ otherwise.
- PathConvertProps.DrivePathExample: the tests run against the machine's real mount table. The examples assume a table with `C:` mounted at `/mnt/c` and nothing else.

## Findings

| source | as written | input that shows it | evidently intended | confidence | as-written member | corrected member |
|---|---|---|---|---|---|---|
| wb/mounts.py:33 | `ret.setdefault(device.rstrip, [])` uses the bound method `device.rstrip`, which is never called, as the key. Every record gets a key of its own that no string equals. | A `/proc/mounts` line `C:\134 /mnt/c 9p rw 0 0`: `find_wsl_mounts().get("C:")` is `None`, though the drive `C:` is mounted at `/mnt/c`. | The key `device.rstrip("\\")`, here `"C:"`, which is how `PureWindowsPath.drive` spells the drive, as the comment on line 32 says. | high; not executed | Mounts.MountKeyExample | Mounts.BuildTableLookup |
| wbridge/pathconvert.py:26 | The `file` URL case calls `linux_to_windows(urlpath)` without `current_distro`, so the path is converted with the default taken from the environment when the module was imported. | With `WSL_DISTRO_NAME` unset at import: `linux_to_windows("file:///etc/hosts", "Ubuntu-22.04")` raises `ValueError`. | Pass `current_distro` on to the recursive call. | high; not executed | PathConvertProps.AsWrittenLinuxUrlFails | PathConvert.LinuxToWindows |
| wbridge/pathconvert.py:74 | The `file` URL case calls `windows_to_linux(urlpath[1:])` without `current_distro`, with the same effect. | With `WSL_DISTRO_NAME` unset at import: `windows_to_linux("file:///C:/Windows", "Ubuntu-22.04")` raises `ValueError`. | Pass `current_distro` on to the recursive call. | high; not executed | PathConvertProps.AsWrittenWindowsUrlFails | PathConvert.WindowsToLinux |
| wbridge/misc.py:25 | `powershell_quote` doubles only the apostrophe U+0027. PowerShell also takes U+2018, U+2019, U+201A and U+201B for single quotes in a single-quoted literal, so one of them in the argument ends the literal. The same code is at wb.py:110. | `powershell_quote("a’b")` is `'a’b'`. PowerShell reads the literal `'a’` and then `b'` as more of the command line. | Double every single-quote character. | medium; not executed | Misc.PowerShellQuoteTypographic | Misc.PowerShellQuoteAllRoundTrip |
| wb.py:157-172 | `handle_run` tests `len(command) == 0` before it removes a leading "--" at lines 162-166, so a command line of "--" alone reaches `partition_command([])`. | `wb run --`: `argparse.REMAINDER` keeps the "--", the command words are `["--"]`, and `args[0]` raises `IndexError`. | Test for an empty command after the removal, and print "Command cannot be empty." | medium; not executed | Wb.PrepareRunDashes | Wb.PrepareRun |
