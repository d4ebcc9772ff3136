/**
 * The parts of `urllib.parse` and `PurePosixPath.as_uri` the converters use:
 * splitting a URL into scheme, network location and path, and writing an
 * absolute POSIX path as a `file://` URL with UTF-8 percent-encoding.
 */
module Urls {
  import opened Strings
  import opened Errors
  import Misc
  import PosixPaths

  /** The fields of `urlparse(url)` the converters read. */
  datatype ParsedUrl = ParsedUrl(scheme: string, netloc: string, path: string)

  /** Characters `urlsplit` deletes wherever they occur: tab, carriage return, line feed. */
  predicate UnsafeUrlChar(c: char) {
    c == '\t' || c == '\r' || c == '\n'
  }

  function RemoveUnsafe(s: string): (r: string)
    ensures |r| <= |s|
    ensures forall i :: 0 <= i < |r| ==> !UnsafeUrlChar(r[i])
    ensures (forall i :: 0 <= i < |s| ==> !UnsafeUrlChar(s[i])) ==> r == s
  {
    if s == [] then []
    else (if UnsafeUrlChar(s[0]) then [] else [s[0]]) + RemoveUnsafe(s[1..])
  }

  /** The first index at or after `start` holding a character of `cs`, or `|s|`. */
  function FirstIn(s: string, cs: set<char>, start: nat): (r: nat)
    requires start <= |s|
    ensures start <= r <= |s|
    ensures r < |s| ==> s[r] in cs
    ensures forall k :: start <= k < r ==> s[k] !in cs
    decreases |s| - start
  {
    if start == |s| || s[start] in cs then start else FirstIn(s, cs, start + 1)
  }

  /**
   * `urlparse(s)` for a string `is_url` accepts: the scheme is the leading
   * letters in lower case; the network location runs from the "//" to the
   * next '/', '?' or '#'; the path runs from there to the first '?' or '#'.
   * A '[' without ']' (or the reverse) in the network location is an error.
   */
  function UrlParse(s: string): (r: Result<ParsedUrl>)
    requires Misc.IsUrl(s)
    ensures r.Err? ==> r.error == InvalidIPv6Url
    ensures r.Ok? ==> r.value.scheme == LowerAscii(s[..Misc.LetterRun(s)])
    ensures r.Ok? ==> |r.value.path| < |s| && (r.value.path == [] || r.value.path[0] == '/')
    ensures r.Ok? ==> '?' !in r.value.path && '#' !in r.value.path
  {
    var n := Misc.LetterRun(s);
    var rest := RemoveUnsafe(s[n + 1..]);
    UrlRest(s, n);
    var d := FirstIn(rest, {'/', '?', '#'}, 2);
    var netloc := rest[2..d];
    if ('[' in netloc) != (']' in netloc) then Err(InvalidIPv6Url)
    else
      var after := rest[d..];
      var path := after[..FirstIn(after, {'?', '#'}, 0)];
      UrlPath(rest, d);
      Ok(ParsedUrl(LowerAscii(s[..n]), netloc, path))
  }

  /** After the scheme and ':', a URL holds "//" and the rest, and removing the unsafe characters keeps the "//". */
  lemma UrlRest(s: string, n: nat)
    requires n + 3 <= |s| && s[n..n + 3] == "://"
    ensures RemoveUnsafe(s[n + 1..]) == "//" + RemoveUnsafe(s[n + 3..])
  {
    var x := s[n + 1..];
    assert s[n..n + 3][1] == s[n + 1] && s[n..n + 3][2] == s[n + 2];
    assert x[0] == s[n + 1] && x[1] == s[n + 2] && x[2..] == s[n + 3..];
    RemoveUnsafeSlashes(x);
  }

  /** The path starts at the '/' ending the network location and stops before any query or fragment. */
  lemma UrlPath(rest: string, d: nat)
    requires 2 <= d <= |rest| && (d < |rest| ==> rest[d] in {'/', '?', '#'})
    ensures var after := rest[d..]; var path := after[..FirstIn(after, {'?', '#'}, 0)];
      |path| <= |rest| - 2 && (path == [] || path[0] == '/') && '?' !in path && '#' !in path
  {
    var after := rest[d..];
    var k := FirstIn(after, {'?', '#'}, 0);
    var path := after[..k];
    forall i | 0 <= i < |path| ensures path[i] != '?' && path[i] != '#' {
      assert path[i] == after[i];
    }
    if path != [] {
      assert path[0] == after[0] == rest[d];
    }
  }

  /** The text `urlsplit` reads after the scheme's ':', with tab, CR and LF deleted. */
  function AfterScheme(s: string): (r: string)
    requires Misc.IsUrl(s)
    ensures |r| >= 2 && r[..2] == "//"
  {
    var n := Misc.LetterRun(s);
    UrlRest(s, n);
    RemoveUnsafe(s[n + 1..])
  }

  /**
   * `rest` is "//", a network location, a path and a tail: the network
   * location holds no '/', '?' or '#'; the path is empty or starts with '/'
   * and holds no '?' or '#'; the tail, the query and fragment, is empty or
   * starts with '?' or '#'.
   */
  predicate UrlParts(rest: string, netloc: string, path: string, tail: string) {
    rest == "//" + netloc + path + tail &&
    (forall i :: 0 <= i < |netloc| ==> netloc[i] != '/' && netloc[i] != '?' && netloc[i] != '#') &&
    (path == [] || path[0] == '/') &&
    (forall i :: 0 <= i < |path| ==> path[i] != '?' && path[i] != '#') &&
    (tail == [] || tail[0] == '?' || tail[0] == '#')
  }

  /** Every URL splits into those parts. */
  lemma UrlParseSplits(s: string)
    requires Misc.IsUrl(s)
    ensures exists netloc, path, tail :: UrlParts(AfterScheme(s), netloc, path, tail)
  {
    var rest := AfterScheme(s);
    var d := FirstIn(rest, {'/', '?', '#'}, 2);
    var after := rest[d..];
    var k := FirstIn(after, {'?', '#'}, 0);
    PartsAt(rest, d, k);
  }

  /** Cutting after the network location and before the query gives the parts. */
  lemma PartsAt(rest: string, d: nat, k: nat)
    requires 2 <= d <= |rest| && rest[..2] == "//"
    requires forall j :: 2 <= j < d ==> rest[j] !in {'/', '?', '#'}
    requires d < |rest| ==> rest[d] in {'/', '?', '#'}
    requires k <= |rest| - d && (forall j :: 0 <= j < k ==> rest[d..][j] !in {'?', '#'})
    requires k < |rest| - d ==> rest[d..][k] in {'?', '#'}
    ensures UrlParts(rest, rest[2..d], rest[d..][..k], rest[d..][k..])
  {
    var after := rest[d..];
    var netloc, path, tail := rest[2..d], after[..k], after[k..];
    assert rest == "//" + netloc + path + tail by {
      assert rest == rest[..2] + rest[2..d] + rest[d..];
      assert after == path + tail;
    }
    assert forall j :: 0 <= j < |netloc| ==> netloc[j] != '/' && netloc[j] != '?' && netloc[j] != '#' by {
      forall j | 0 <= j < |netloc| ensures netloc[j] != '/' && netloc[j] != '?' && netloc[j] != '#' {
        assert netloc[j] == rest[j + 2];
      }
    }
    assert forall j :: 0 <= j < |path| ==> path[j] != '?' && path[j] != '#' by {
      forall j | 0 <= j < |path| ensures path[j] != '?' && path[j] != '#' {
        assert path[j] == after[j];
      }
    }
    assert path == [] || path[0] == '/' by {
      if path != [] {
        assert path[0] == after[0] == rest[d];
      }
    }
    assert tail == [] || tail[0] == '?' || tail[0] == '#' by {
      if tail != [] {
        assert tail[0] == after[k];
      }
    }
  }

  /** The first index at or after `start` in `cs` is any `k` with none before it and one at it. */
  lemma FirstInIs(s: string, cs: set<char>, start: nat, k: nat)
    requires start <= k <= |s|
    requires forall j :: start <= j < k ==> s[j] !in cs
    requires k < |s| ==> s[k] in cs
    ensures FirstIn(s, cs, start) == k
  {
  }

  /**
   * Whichever way a URL splits into those parts, `urlparse` yields that
   * network location and path with the lower-cased scheme, and fails, with
   * the IPv6 error, exactly when the network location holds one of '[' and
   * ']' without the other.
   */
  lemma UrlParseSpec(s: string, netloc: string, path: string, tail: string)
    requires Misc.IsUrl(s) && UrlParts(AfterScheme(s), netloc, path, tail)
    ensures UrlParse(s) == if ('[' in netloc) != (']' in netloc) then Err(InvalidIPv6Url)
      else Ok(ParsedUrl(LowerAscii(s[..Misc.LetterRun(s)]), netloc, path))
  {
    var rest := AfterScheme(s);
    var e := 2 + |netloc|;
    NetlocEnd(rest, netloc, path, tail);
    assert rest[2..e] == netloc;
    var after := rest[e..];
    assert after == path + tail;
    PathEnd(after, path, tail);
  }

  lemma NetlocEnd(rest: string, netloc: string, path: string, tail: string)
    requires UrlParts(rest, netloc, path, tail)
    ensures FirstIn(rest, {'/', '?', '#'}, 2) == 2 + |netloc|
  {
    var e := 2 + |netloc|;
    assert forall j :: 2 <= j < e ==> rest[j] == netloc[j - 2];
    if e < |rest| {
      assert rest[e] == (path + tail)[0];
    }
    FirstInIs(rest, {'/', '?', '#'}, 2, e);
  }

  lemma PathEnd(after: string, path: string, tail: string)
    requires after == path + tail
    requires forall i :: 0 <= i < |path| ==> path[i] != '?' && path[i] != '#'
    requires tail == [] || tail[0] == '?' || tail[0] == '#'
    ensures FirstIn(after, {'?', '#'}, 0) == |path| && after[..|path|] == path
  {
    assert forall j :: 0 <= j < |path| ==> after[j] == path[j];
    if |path| < |after| {
      assert after[|path|] == tail[0];
    }
    FirstInIs(after, {'?', '#'}, 0, |path|);
  }

  lemma RemoveUnsafeSlashes(x: string)
    requires |x| >= 2 && x[0] == '/' && x[1] == '/'
    ensures RemoveUnsafe(x) == "//" + RemoveUnsafe(x[2..])
  {
    var r := RemoveUnsafe(x[2..]);
    assert x[1..][1..] == x[2..];
    assert RemoveUnsafe(x[1..]) == "/" + r;
    assert RemoveUnsafe(x) == "/" + ("/" + r);
    ConcatAssoc("/", "/", r);
  }

  /** A character a URL path may hold as is: `quote`'s always-safe set, and '/'. */
  predicate UriSafe(c: char) {
    IsAsciiLetter(c) || ('0' <= c <= '9') || c == '_' || c == '.' || c == '-' || c == '~' || c == '/'
  }

  predicate IsByte(b: int) {
    0 <= b < 256
  }

  /** The UTF-8 encoding of one code point. */
  function Utf8(c: char): (r: seq<int>)
    ensures 1 <= |r| <= 4 && forall i :: 0 <= i < |r| ==> IsByte(r[i])
    ensures (c as int) < 0x80 <==> r == [c as int]
  {
    var n := c as int;
    if n < 0x80 then [n]
    else if n < 0x800 then [0xC0 + n / 64, 0x80 + n % 64]
    else if n < 0x10000 then [0xE0 + n / 4096, 0x80 + n / 64 % 64, 0x80 + n % 64]
    else [0xF0 + n / 262144, 0x80 + n / 4096 % 64, 0x80 + n / 64 % 64, 0x80 + n % 64]
  }

  /** `os.fsencode(s)`: UTF-8 bytes of every character. */
  function Utf8Encode(s: string): seq<int> {
    if s == [] then [] else Utf8(s[0]) + Utf8Encode(s[1..])
  }

  /** An upper-case hexadecimal digit. */
  function HexDigit(d: nat): (c: char)
    requires d < 16
    ensures UriSafe(c)
  {
    if d < 10 then (d + '0' as int) as char else (d - 10 + 'A' as int) as char
  }

  /** `%XX` for one byte, with upper-case hexadecimal digits. */
  function Escape(b: int): (r: string)
    requires IsByte(b)
    ensures |r| == 3 && r[0] == '%' && UriSafe(r[1]) && UriSafe(r[2])
  {
    ['%', HexDigit(b / 16), HexDigit(b % 16)]
  }

  /** `%XX` for each byte. */
  function PercentBytes(bs: seq<int>): (r: string)
    requires forall i :: 0 <= i < |bs| ==> IsByte(bs[i])
    ensures |r| == 3 * |bs|
    ensures forall i :: 0 <= i < |r| ==> UriSafe(r[i]) || r[i] == '%'
  {
    if bs == [] then []
    else
      assert IsByte(bs[0]);
      Escape(bs[0]) + PercentBytes(bs[1..])
  }

  /** `quote_from_bytes(os.fsencode(s), safe='/')`, character by character. */
  function Quote(s: string): (r: string)
    ensures forall i :: 0 <= i < |r| ==> UriSafe(r[i]) || r[i] == '%'
  {
    if s == [] then []
    else (if UriSafe(s[0]) then [s[0]] else PercentBytes(Utf8(s[0]))) + Quote(s[1..])
  }

  /** `PurePosixPath.as_uri()`: absolute paths only, as "file://" and the quoted string form. */
  function AsUri(p: PosixPaths.PurePosixPath): (r: Result<string>)
    ensures r.Err? <==> p.root == ""
    ensures r.Err? ==> r.error == RelativeFileUri
  {
    if p.root == "" then Err(RelativeFileUri) else Ok("file://" + Quote(PosixPaths.Format(p)))
  }

  // ---------------------------------------------------------------------------
  // Reading URLs back

  function HexValue(c: char): int {
    if '0' <= c <= '9' then c as int - '0' as int
    else if 'A' <= c <= 'F' then c as int - 'A' as int + 10
    else if 'a' <= c <= 'f' then c as int - 'a' as int + 10
    else -1
  }

  /** `unquote_to_bytes(s)`: "%XX" with two hex digits is one byte, any other character its UTF-8 bytes. */
  function UnquoteToBytes(s: string): seq<int> {
    if s == [] then []
    else if |s| >= 3 && s[0] == '%' && HexValue(s[1]) >= 0 && HexValue(s[2]) >= 0 then
      [HexValue(s[1]) * 16 + HexValue(s[2])] + UnquoteToBytes(s[3..])
    else Utf8(s[0]) + UnquoteToBytes(s[1..])
  }

  /** A hexadecimal digit reads back as its value. */
  lemma HexRoundTrip(d: nat)
    requires d < 16
    ensures HexValue(HexDigit(d)) == d
  {
  }

  /** One escaped byte reads back as that byte. */
  lemma UnquoteByte(b: int, t: string)
    requires IsByte(b)
    ensures UnquoteToBytes(Escape(b) + t) == [b] + UnquoteToBytes(t)
  {
    var e := Escape(b) + t;
    HexRoundTrip(b / 16);
    HexRoundTrip(b % 16);
    assert e[1] == HexDigit(b / 16) && e[2] == HexDigit(b % 16) && e[3..] == t;
  }

  lemma {:induction false} UnquotePercentBytes(bs: seq<int>, rest: string)
    requires forall i :: 0 <= i < |bs| ==> IsByte(bs[i])
    ensures UnquoteToBytes(PercentBytes(bs) + rest) == bs + UnquoteToBytes(rest)
  {
    if bs != [] {
      var b := bs[0];
      var t := PercentBytes(bs[1..]) + rest;
      PercentBytesFirst(bs, rest);
      UnquoteByte(b, t);
      BytesTail(bs);
      UnquotePercentBytes(bs[1..], rest);
      ConsAssoc(b, bs[1..], UnquoteToBytes(rest));
      assert [b] + bs[1..] == bs;
    } else {
      assert PercentBytes(bs) + rest == rest;
    }
  }

  lemma BytesTail(bs: seq<int>)
    requires bs != [] && forall i :: 0 <= i < |bs| ==> IsByte(bs[i])
    ensures forall i :: 0 <= i < |bs[1..]| ==> IsByte(bs[1..][i])
  {
    forall i | 0 <= i < |bs[1..]| ensures IsByte(bs[1..][i]) {
      assert bs[1..][i] == bs[i + 1];
    }
  }

  lemma PercentBytesFirst(bs: seq<int>, rest: string)
    requires bs != [] && forall i :: 0 <= i < |bs| ==> IsByte(bs[i])
    ensures IsByte(bs[0])
    ensures PercentBytes(bs) + rest == Escape(bs[0]) + (PercentBytes(bs[1..]) + rest)
  {
    var e := Escape(bs[0]);
    var p := PercentBytes(bs[1..]);
    assert PercentBytes(bs) == e + p;
    ConcatAssoc(e, p, rest);
  }

  lemma ConcatAssoc(a: string, b: string, c: string)
    ensures (a + b) + c == a + (b + c)
  {
  }

  lemma ConsAssoc(b: int, xs: seq<int>, ys: seq<int>)
    ensures [b] + (xs + ys) == ([b] + xs) + ys
  {
  }

  /** Percent-decoding a quoted string gives back its UTF-8 bytes. */
  lemma {:induction false} UnquoteQuote(s: string)
    ensures UnquoteToBytes(Quote(s)) == Utf8Encode(s)
  {
    if s != [] {
      UnquoteQuote(s[1..]);
      var rest := Quote(s[1..]);
      if UriSafe(s[0]) {
        assert Quote(s) == [s[0]] + rest;
        assert ([s[0]] + rest)[1..] == rest;
      } else {
        assert Quote(s) == PercentBytes(Utf8(s[0])) + rest;
        UnquotePercentBytes(Utf8(s[0]), rest);
      }
    }
  }

  /** A string of safe characters is quoted as itself. */
  lemma {:induction false} QuoteSafe(s: string)
    requires forall i :: 0 <= i < |s| ==> UriSafe(s[i])
    ensures Quote(s) == s
  {
    if s != [] {
      QuoteSafe(s[1..]);
      assert [s[0]] + s[1..] == s;
    }
  }

  /** The path of "file://" followed by an absolute path free of '?', '#' and tab, CR, LF is that path. */
  lemma ParseFileUrl(path: string)
    requires path != [] && path[0] == '/'
    requires '?' !in path && '#' !in path && forall i :: 0 <= i < |path| ==> !UnsafeUrlChar(path[i])
    ensures Misc.IsUrl("file://" + path)
    ensures UrlParse("file://" + path) == Ok(ParsedUrl("file", "", path))
  {
    var s := "file://" + path;
    FileScheme("//" + path);
    assert s == "file:" + ("//" + path);
    var x := s[5..];
    assert x == "//" + path;
    forall i | 0 <= i < |x| ensures !UnsafeUrlChar(x[i]) {
      if i >= 2 { assert x[i] == path[i - 2]; }
    }
    assert RemoveUnsafe(x) == x;
    assert FirstIn(x, {'/', '?', '#'}, 2) == 2;
    assert x[2..2] == "";
    assert x[2..] == path;
    assert FirstIn(path, {'?', '#'}, 0) == |path|;
    assert path[..|path|] == path;
    assert s[..4] == "file";
    assert LowerAscii("file") == "file";
  }

  /** "file:" then anything: the scheme is the four letters. */
  lemma FileScheme(rest: string)
    requires |rest| >= 2 && rest[0] == '/' && rest[1] == '/'
    ensures Misc.LetterRun("file:" + rest) == 4
    ensures Misc.IsUrl("file:" + rest)
  {
    var s := "file:" + rest;
    assert s[0] == 'f' && s[1] == 'i' && s[2] == 'l' && s[3] == 'e' && s[4] == ':';
    assert Misc.UrlPrefixAt(s, 4) by {
      assert s[4..7] == "://";
    }
    Misc.IsUrlIff(s);
    var n := Misc.LetterRun(s);
    assert n == 4;
  }

  /** An absolute path of safe characters becomes "file://" followed by its string form. */
  lemma AsUriSafe(p: PosixPaths.PurePosixPath)
    requires p.root != ""
    requires forall i :: 0 <= i < |PosixPaths.Format(p)| ==> UriSafe(PosixPaths.Format(p)[i])
    ensures AsUri(p) == Ok("file://" + PosixPaths.Format(p))
  {
    QuoteSafe(PosixPaths.Format(p));
  }
}
