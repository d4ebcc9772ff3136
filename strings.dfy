/**
 * The handful of Python `str` operations the converters are built from:
 * `strip`, `split` with an explicit separator, `join`, `replace`, `find`,
 * and ASCII case mapping.
 */
module Strings {

  /** Python's `str.isspace` for a single character. */
  predicate IsSpace(c: char) {
    var n := c as int;
    (0x09 <= n <= 0x0D) || (0x1C <= n <= 0x20) || n == 0x85 || n == 0xA0 || n == 0x1680 ||
    (0x2000 <= n <= 0x200A) || n == 0x2028 || n == 0x2029 || n == 0x202F || n == 0x205F || n == 0x3000
  }

  /** Neither the first nor the last character is whitespace. */
  predicate NoEdgeSpace(s: string) {
    s == [] || (!IsSpace(s[0]) && !IsSpace(s[|s| - 1]))
  }

  function StripLeft(s: string): (r: string)
    ensures |r| <= |s| && r == s[|s| - |r|..]
    ensures r == [] || !IsSpace(r[0])
  {
    if s != [] && IsSpace(s[0]) then StripLeft(s[1..]) else s
  }

  function StripRight(s: string): (r: string)
    ensures |r| <= |s| && r == s[..|r|]
    ensures r == [] || !IsSpace(r[|r| - 1])
  {
    if s != [] && IsSpace(s[|s| - 1]) then StripRight(s[..|s| - 1]) else s
  }

  /**
   * Python's `str.strip()`: the part of `s` left once the whitespace at both
   * ends is removed. The result is a slice of `s` with only whitespace
   * before and after it, and it neither starts nor ends with whitespace.
   */
  function Strip(s: string): (r: string)
    ensures |r| <= |s|
    ensures NoEdgeSpace(r)
    ensures NoEdgeSpace(s) ==> r == s
    ensures exists i :: TrimmedAt(s, r, i)
  {
    var left := StripLeft(s);
    var r := StripRight(left);
    LeftSpaces(s);
    RightSpaces(left);
    TrimmedFrom(s, left, r, |s| - |left|);
    r
  }

  /** A prefix `r` of the suffix `left` of `s` that starts at `i`, with whitespace before `left` and after `r`. */
  lemma TrimmedFrom(s: string, left: string, r: string, i: int)
    requires 0 <= i <= |s| && left == s[i..] && |r| <= |left| && r == left[..|r|]
    requires AllSpace(s[..i]) && AllSpace(left[|r|..])
    ensures TrimmedAt(s, r, i)
  {
    assert r == s[i..i + |r|];
    assert left[|r|..] == s[i + |r|..];
  }

  /** Every character of `t` is whitespace. */
  predicate AllSpace(t: string) {
    t == [] || (IsSpace(t[0]) && AllSpace(t[1..]))
  }

  /** `r` is the slice of `s` starting at `i`, and everything around it in `s` is whitespace. */
  predicate TrimmedAt(s: string, r: string, i: int) {
    0 <= i <= |s| - |r| && r == s[i..i + |r|] && AllSpace(s[..i]) && AllSpace(s[i + |r|..])
  }

  /** `lstrip()` removes only whitespace. */
  lemma {:induction false} LeftSpaces(s: string)
    ensures AllSpace(s[..|s| - |StripLeft(s)|])
    decreases |s|
  {
    if s != [] && IsSpace(s[0]) {
      LeftSpaces(s[1..]);
      var i := |s| - |StripLeft(s)|;
      assert s[..i] == [s[0]] + s[1..][..i - 1];
    } else {
      assert s[..|s| - |StripLeft(s)|] == [];
    }
  }

  /** `rstrip()` removes only whitespace. */
  lemma {:induction false} RightSpaces(s: string)
    ensures AllSpace(s[|StripRight(s)|..])
    decreases |s|
  {
    if s != [] && IsSpace(s[|s| - 1]) {
      var init := s[..|s| - 1];
      RightSpaces(init);
      var n := |StripRight(s)|;
      AllSpaceAppend(init[n..], s[|s| - 1]);
      assert s[n..] == init[n..] + [s[|s| - 1]];
    } else {
      assert s[|StripRight(s)|..] == [];
    }
  }

  lemma {:induction false} AllSpaceAppend(t: string, c: char)
    requires AllSpace(t) && IsSpace(c)
    ensures AllSpace(t + [c])
    decreases |t|
  {
    if t != [] {
      AllSpaceAppend(t[1..], c);
      assert (t + [c])[1..] == t[1..] + [c];
    }
  }

  /** Python's `s[1:]`: `s` without its first character, if it has one. */
  function DropFirst(s: string): (r: string)
    ensures |r| == if s == [] then 0 else |s| - 1
    ensures s != [] ==> r == s[1..]
  {
    if s == [] then [] else s[1..]
  }

  predicate IsAsciiLetter(c: char) {
    ('a' <= c <= 'z') || ('A' <= c <= 'Z')
  }

  /** `str.upper()` restricted to ASCII: other characters are kept. */
  function AsciiUpper(c: char): (r: char)
    ensures 'a' <= c <= 'z' ==> 'A' <= r <= 'Z' && r as int == c as int - 32
    ensures !('a' <= c <= 'z') ==> r == c
  {
    if 'a' <= c <= 'z' then (c as int - 32) as char else c
  }

  /** `str.lower()` restricted to ASCII: other characters are kept. */
  function AsciiLower(c: char): (r: char)
    ensures 'A' <= c <= 'Z' ==> 'a' <= r <= 'z' && r as int == c as int + 32
    ensures !('A' <= c <= 'Z') ==> r == c
  {
    if 'A' <= c <= 'Z' then (c as int + 32) as char else c
  }

  /** Upper-casing a lower-cased letter gives the letter's upper case. */
  lemma UpperOfLower(c: char)
    requires IsAsciiLetter(c)
    ensures IsAsciiLetter(AsciiLower(c)) && AsciiUpper(AsciiLower(c)) == AsciiUpper(c)
  {
  }

  function LowerAscii(s: string): (r: string)
    ensures |r| == |s|
    ensures forall i :: 0 <= i < |s| ==> r[i] == AsciiLower(s[i])
  {
    if s == [] then [] else [AsciiLower(s[0])] + LowerAscii(s[1..])
  }

  /** Python's `s.split(sep)` for a one-character separator. */
  function Split(s: string, sep: char): (r: seq<string>)
    ensures |r| >= 1
    ensures forall i :: 0 <= i < |r| ==> sep !in r[i]
  {
    if s == [] then [""]
    else
      var rest := Split(s[1..], sep);
      if s[0] == sep then [""] + rest else [[s[0]] + rest[0]] + rest[1..]
  }

  /** Python's `sep.join(parts)`. */
  function Join(parts: seq<string>, sep: string): string {
    if |parts| == 0 then ""
    else if |parts| == 1 then parts[0]
    else parts[0] + sep + Join(parts[1..], sep)
  }

  /** Python's `s.replace(a, b)` where both are single characters. */
  function SubstChar(s: string, a: char, b: char): (r: string)
    ensures |r| == |s|
    ensures forall i :: 0 <= i < |s| ==> r[i] == if s[i] == a then b else s[i]
  {
    if s == [] then [] else [if s[0] == a then b else s[0]] + SubstChar(s[1..], a, b)
  }

  /** Python's `s.replace(a, with)` for a single character `a`. */
  function Replace(s: string, a: char, with: string): string {
    if s == [] then [] else (if s[0] == a then with else [s[0]]) + Replace(s[1..], a, with)
  }

  /** Number of occurrences of `c` in `s`. */
  function Count(s: string, c: char): nat {
    if s == [] then 0 else (if s[0] == c then 1 else 0) + Count(s[1..], c)
  }

  /** Python's `s.find(c, start)`: the first index at or after `start` holding `c`, or -1. */
  function FindFrom(s: string, c: char, start: nat): (r: int)
    ensures r == -1 || (start <= r < |s| && s[r] == c)
    ensures forall k :: start <= k < |s| && (r == -1 || k < r) ==> s[k] != c
    decreases |s| - start
  {
    if start >= |s| then -1 else if s[start] == c then start else FindFrom(s, c, start + 1)
  }

  /** The pieces of `s` between separators, without empty pieces and "." (pathlib's parsing). */
  function Components(s: string, sep: char): seq<string> {
    DropEmptyAndDot(Split(s, sep))
  }

  function DropEmptyAndDot(xs: seq<string>): (r: seq<string>)
    ensures forall i :: 0 <= i < |r| ==> r[i] != "" && r[i] != "." && r[i] in xs
  {
    if xs == [] then []
    else if xs[0] == "" || xs[0] == "." then DropEmptyAndDot(xs[1..])
    else [xs[0]] + DropEmptyAndDot(xs[1..])
  }

  // ---------------------------------------------------------------------------
  // Lemmas

  lemma {:induction false} SplitNoSep(s: string, sep: char)
    requires sep !in s
    ensures Split(s, sep) == [s]
  {
    if s != [] {
      SplitNoSep(s[1..], sep);
      assert [s[0]] + s[1..] == s;
    }
  }

  lemma {:induction false} SplitAfter(a: string, b: string, sep: char)
    requires sep !in a
    ensures Split(a + [sep] + b, sep) == [a] + Split(b, sep)
  {
    if a == [] {
      assert (a + [sep] + b)[1..] == b;
    } else {
      assert (a + [sep] + b)[1..] == a[1..] + [sep] + b;
      SplitAfter(a[1..], b, sep);
      assert [a[0]] + a[1..] == a;
    }
  }

  /** Splitting a join recovers the parts when no part contains the separator. */
  lemma {:induction false} SplitJoin(parts: seq<string>, sep: char)
    requires |parts| >= 1
    requires forall i :: 0 <= i < |parts| ==> sep !in parts[i]
    ensures Split(Join(parts, [sep]), sep) == parts
  {
    if |parts| == 1 {
      SplitNoSep(parts[0], sep);
    } else {
      SplitJoin(parts[1..], sep);
      SplitAfter(parts[0], Join(parts[1..], [sep]), sep);
      assert [parts[0]] + parts[1..] == parts;
    }
  }

  /** Joining a split restores the string. */
  lemma {:induction false} JoinSplit(s: string, sep: char)
    ensures Join(Split(s, sep), [sep]) == s
  {
    if s != [] {
      JoinSplit(s[1..], sep);
      var rest := Split(s[1..], sep);
      if s[0] == sep {
        assert Split(s, sep) == [""] + rest;
        assert ([""] + rest)[1..] == rest;
      } else {
        var r := Split(s, sep);
        assert r == [[s[0]] + rest[0]] + rest[1..];
        if |rest| == 1 {
          assert r == [[s[0]] + rest[0]];
        } else {
          assert r[1..] == rest[1..];
          assert Join(rest, [sep]) == rest[0] + [sep] + Join(rest[1..], [sep]);
        }
      }
    }
  }

  lemma {:induction false} SubstCharConcat(a: string, b: string, x: char, y: char)
    ensures SubstChar(a + b, x, y) == SubstChar(a, x, y) + SubstChar(b, x, y)
  {
    var l, r := SubstChar(a + b, x, y), SubstChar(a, x, y) + SubstChar(b, x, y);
    assert |l| == |r|;
    forall i | 0 <= i < |l| ensures l[i] == r[i] {
      if i < |a| { assert (a + b)[i] == a[i]; } else { assert (a + b)[i] == b[i - |a|]; }
    }
  }

  lemma SubstCharNoOp(s: string, x: char, y: char)
    requires x !in s
    ensures SubstChar(s, x, y) == s
  {
    var r := SubstChar(s, x, y);
    forall i | 0 <= i < |s| ensures r[i] == s[i] {
      assert s[i] != x;
    }
  }

  /** Replacing the separator of a join re-joins with the new separator. */
  lemma {:induction false} SubstCharJoin(parts: seq<string>, x: char, y: char)
    requires forall i :: 0 <= i < |parts| ==> x !in parts[i]
    ensures SubstChar(Join(parts, [x]), x, y) == Join(parts, [y])
  {
    if |parts| == 1 {
      SubstCharNoOp(parts[0], x, y);
    } else if |parts| > 1 {
      var p0, rest := parts[0], Join(parts[1..], [x]);
      assert forall i :: 0 <= i < |parts[1..]| ==> x !in parts[1..][i] by {
        forall i | 0 <= i < |parts[1..]| ensures x !in parts[1..][i] {
          assert parts[1..][i] == parts[i + 1];
        }
      }
      SubstCharJoin(parts[1..], x, y);
      SubstCharNoOp(p0, x, y);
      SubstCharConcat(p0 + [x], rest, x, y);
      SubstCharConcat(p0, [x], x, y);
      assert SubstChar([x], x, y) == [y];
    }
  }

  lemma {:induction false} JoinAppend(xs: seq<string>, ys: seq<string>, sep: string)
    requires |xs| >= 1 && |ys| >= 1
    ensures Join(xs + ys, sep) == Join(xs, sep) + sep + Join(ys, sep)
  {
    if |xs| == 1 {
      assert (xs + ys)[1..] == ys;
    } else {
      assert (xs + ys)[1..] == xs[1..] + ys;
      JoinAppend(xs[1..], ys, sep);
    }
  }

  lemma {:induction false} DropEmptyAndDotKeeps(xs: seq<string>)
    requires forall i :: 0 <= i < |xs| ==> xs[i] != "" && xs[i] != "."
    ensures DropEmptyAndDot(xs) == xs
  {
    if xs != [] {
      DropEmptyAndDotKeeps(xs[1..]);
      assert [xs[0]] + xs[1..] == xs;
    }
  }

  /** pathlib's component split recovers the names of a join. */
  lemma ComponentsOfJoin(parts: seq<string>, sep: char)
    requires forall i :: 0 <= i < |parts| ==> parts[i] != "" && parts[i] != "." && sep !in parts[i]
    ensures Components(Join(parts, [sep]), sep) == parts
  {
    if parts == [] {
      assert Split("", sep) == [""];
    } else {
      SplitJoin(parts, sep);
      DropEmptyAndDotKeeps(parts);
    }
  }

  lemma {:induction false} JoinNoChar(parts: seq<string>, sep: char, c: char)
    requires c != sep
    requires forall i :: 0 <= i < |parts| ==> c !in parts[i]
    ensures c !in Join(parts, [sep])
  {
    if |parts| > 1 {
      JoinNoChar(parts[1..], sep, c);
    }
  }

  lemma {:induction false} JoinLast(parts: seq<string>, sep: string)
    requires |parts| >= 1 && parts[|parts| - 1] != []
    ensures var j := Join(parts, sep); |j| > 0 && j[|j| - 1] == parts[|parts| - 1][|parts[|parts| - 1]| - 1]
  {
    if |parts| > 1 {
      JoinLast(parts[1..], sep);
    }
  }

  /**
   * `Join` of a prefix one part longer: the shorter join, a separator and
   * the part. Stated with the joins as parameters, it lets a join of
   * literal parts be computed from the left.
   */
  lemma JoinSliceStep(xs: seq<string>, k: nat, sep: string, y: string, j: string, r: string)
    requires 1 <= k < |xs| && xs[k] == y && Join(xs[..k], sep) == j && j + sep + y == r
    ensures Join(xs[..k + 1], sep) == r
  {
    assert xs[..k + 1] == xs[..k] + [xs[k]];
    JoinAppend(xs[..k], [xs[k]], sep);
  }

  /** A leading separator is an empty first part. */
  lemma JoinLeadingSep(xs: seq<string>, sep: string)
    requires |xs| >= 1
    ensures sep + Join(xs, sep) == Join([""] + xs, sep)
  {
    assert ([""] + xs)[1..] == xs;
  }

  /** One step of `Join` on two or more parts. */
  lemma JoinStep(parts: seq<string>, sep: string)
    requires |parts| >= 2
    ensures Join(parts, sep) == parts[0] + sep + Join(parts[1..], sep)
  {
  }

  lemma {:induction false} JoinFirst(parts: seq<string>, sep: string)
    requires |parts| >= 1 && parts[0] != []
    ensures var j := Join(parts, sep); |j| > 0 && j[0] == parts[0][0]
  {
  }

  /** Searching past a stretch free of `c` continues in what follows it. */
  lemma FindFromConcat(a: string, b: string, c: char, start: nat)
    requires start <= |a|
    requires forall k :: start <= k < |a| ==> a[k] != c
    ensures FindFrom(a + b, c, start) == if FindFrom(b, c, 0) < 0 then -1 else |a| + FindFrom(b, c, 0)
  {
    var r, q := FindFrom(a + b, c, start), FindFrom(b, c, 0);
    if q >= 0 {
      assert (a + b)[|a| + q] == c;
    }
    if r >= 0 {
      assert r >= |a|;
      assert b[r - |a|] == c;
    }
  }

  /** A character absent from a string is absent from every piece of its split. */
  lemma {:induction false} SplitKeepsOut(s: string, sep: char, c: char)
    requires c !in s
    ensures forall i :: 0 <= i < |Split(s, sep)| ==> c !in Split(s, sep)[i]
  {
    if s != [] {
      SplitKeepsOut(s[1..], sep, c);
    }
  }

  /** Turning `x` into `y` and then `y` into `x` is the same as turning `y` into `x`. */
  lemma SubstCharBack(s: string, x: char, y: char)
    ensures SubstChar(SubstChar(s, x, y), y, x) == SubstChar(s, y, x)
  {
    var l, r := SubstChar(SubstChar(s, x, y), y, x), SubstChar(s, y, x);
    forall i | 0 <= i < |s| ensures l[i] == r[i] {
    }
  }

  lemma SubstCharSlices(s: string, x: char, y: char)
    requires s != []
    ensures SubstChar(s, x, y)[1..] == SubstChar(s[1..], x, y)
    ensures SubstChar(s, x, y)[..|s| - 1] == SubstChar(s[..|s| - 1], x, y)
  {
  }

  lemma {:induction false} StripLeftSubst(s: string, x: char, y: char)
    requires !IsSpace(x) && !IsSpace(y)
    ensures StripLeft(SubstChar(s, x, y)) == SubstChar(StripLeft(s), x, y)
    decreases |s|
  {
    if s != [] {
      SubstCharSlices(s, x, y);
      if IsSpace(s[0]) {
        StripLeftSubst(s[1..], x, y);
      }
    }
  }

  lemma {:induction false} StripRightSubst(s: string, x: char, y: char)
    requires !IsSpace(x) && !IsSpace(y)
    ensures StripRight(SubstChar(s, x, y)) == SubstChar(StripRight(s), x, y)
    decreases |s|
  {
    if s != [] {
      SubstCharSlices(s, x, y);
      if IsSpace(s[|s| - 1]) {
        StripRightSubst(s[..|s| - 1], x, y);
      }
    }
  }

  /** `lstrip()` removes only whitespace. */
  lemma {:induction false} StripLeftSpaces(s: string)
    ensures forall i :: 0 <= i < |s| - |StripLeft(s)| ==> IsSpace(s[i])
    decreases |s|
  {
    if s != [] && IsSpace(s[0]) {
      StripLeftSpaces(s[1..]);
      forall i | 1 <= i < |s| - |StripLeft(s)| ensures IsSpace(s[i]) {
        assert s[1..][i - 1] == s[i];
      }
    }
  }

  /** `rstrip()` removes only whitespace. */
  lemma {:induction false} StripRightSpaces(s: string)
    ensures forall i :: |StripRight(s)| <= i < |s| ==> IsSpace(s[i])
    decreases |s|
  {
    if s != [] && IsSpace(s[|s| - 1]) {
      StripRightSpaces(s[..|s| - 1]);
      forall i | |StripRight(s)| <= i < |s| - 1 ensures IsSpace(s[i]) {
        assert s[..|s| - 1][i] == s[i];
      }
    }
  }

  /** Replacing one non-space character by another commutes with `strip()`. */
  lemma StripSubst(s: string, x: char, y: char)
    requires !IsSpace(x) && !IsSpace(y)
    ensures Strip(SubstChar(s, x, y)) == SubstChar(Strip(s), x, y)
  {
    StripLeftSubst(s, x, y);
    StripRightSubst(StripLeft(s), x, y);
  }
}
