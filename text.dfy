/** The Python `str` operations the pipeline relies on, over `seq<char>`.
    Case mapping covers the ASCII letters only; whitespace is the full set
    that Python's `str.isspace()` (and so `str.strip()`) recognises. */
module Text {
  import opened Wrappers

  /** `c.isspace()` in Python 3. */
  predicate IsSpace(c: char) {
    || ('\t' <= c <= '\r')
    || ('\U{1C}' <= c <= '\U{1F}')
    || c == ' ' || c == '\U{85}' || c == '\U{A0}' || c == '\U{1680}'
    || ('\U{2000}' <= c <= '\U{200A}')
    || c == '\U{2028}' || c == '\U{2029}' || c == '\U{202F}' || c == '\U{205F}' || c == '\U{3000}'
  }

  /** The index of the first non-space character at or after `i` (or `|s|`). */
  function SkipSpaces(s: string, i: nat): (k: nat)
    requires i <= |s|
    ensures i <= k <= |s|
    ensures forall m :: i <= m < k ==> IsSpace(s[m])
    ensures k < |s| ==> !IsSpace(s[k])
    decreases |s| - i
  {
    if i < |s| && IsSpace(s[i]) then SkipSpaces(s, i + 1) else i
  }

  /** The end of `s[lo..hi]` once its trailing whitespace is dropped. */
  function TrimEnd(s: string, lo: nat, hi: nat): (k: nat)
    requires lo <= hi <= |s|
    ensures lo <= k <= hi
    ensures forall m :: k <= m < hi ==> IsSpace(s[m])
    ensures k > lo ==> !IsSpace(s[k - 1])
    decreases hi
  {
    if hi > lo && IsSpace(s[hi - 1]) then TrimEnd(s, lo, hi - 1) else hi
  }

  /** Where `s.strip()` starts in `s`. */
  function StripStart(s: string): (a: nat)
    ensures a <= |s| && forall m :: 0 <= m < a ==> IsSpace(s[m])
  {
    SkipSpaces(s, 0)
  }

  /** Where `s.strip()` ends in `s`. */
  function StripEnd(s: string): (b: nat)
    ensures StripStart(s) <= b <= |s| && forall m :: b <= m < |s| ==> IsSpace(s[m])
  {
    TrimEnd(s, StripStart(s), |s|)
  }

  /** `s.strip()`: the slice of `s` between its leading and trailing whitespace. */
  function Strip(s: string): (r: string)
    ensures |r| <= |s|
    ensures r == [] || (!IsSpace(r[0]) && !IsSpace(r[|r| - 1]))
  {
    s[StripStart(s)..StripEnd(s)]
  }

  /** A string with no whitespace at either end is its own strip. */
  lemma StripUnchanged(s: string)
    requires s == [] || (!IsSpace(s[0]) && !IsSpace(s[|s| - 1]))
    ensures Strip(s) == s
  {
  }

  /** Stripping twice is stripping once. */
  lemma StripIdempotent(s: string)
    ensures Strip(Strip(s)) == Strip(s)
  {
    StripUnchanged(Strip(s));
  }

  /** A prefix that starts and ends with non-space characters survives strip. */
  lemma StripKeepsPrefix(s: string, n: nat)
    requires 0 < n <= |s| && !IsSpace(s[0]) && !IsSpace(s[n - 1])
    ensures StripStart(s) == 0 && n <= StripEnd(s)
    ensures Strip(s) == s[..StripEnd(s)]
  {
  }

  /** `c.upper()` for an ASCII letter; every other character is left as is. */
  function UpperChar(c: char): char {
    if 'a' <= c <= 'z' then (c as int - 32) as char else c
  }

  /** `c.lower()` for an ASCII letter; every other character is left as is. */
  function LowerChar(c: char): char {
    if 'A' <= c <= 'Z' then (c as int + 32) as char else c
  }

  function Upper(s: string): (r: string)
    ensures |r| == |s| && forall i :: 0 <= i < |s| ==> r[i] == UpperChar(s[i])
  {
    seq(|s|, i requires 0 <= i < |s| => UpperChar(s[i]))
  }

  function Lower(s: string): (r: string)
    ensures |r| == |s| && forall i :: 0 <= i < |s| ==> r[i] == LowerChar(s[i])
  {
    seq(|s|, i requires 0 <= i < |s| => LowerChar(s[i]))
  }

  /** Upper-casing commutes with slicing (it works character by character). */
  lemma UpperSlice(s: string, i: int, j: int)
    requires 0 <= i <= j <= |s|
    ensures Upper(s[i..j]) == Upper(s)[i..j]
  {
  }

  /** Concatenation is associative. */
  lemma ConcatAssoc(a: string, b: string, c: string)
    ensures a + b + c == a + (b + c)
  {
  }

  /** Upper-casing commutes with concatenation. */
  lemma UpperConcat(s: string, t: string)
    ensures Upper(s + t) == Upper(s) + Upper(t)
  {
  }

  /** Lower-casing commutes with slicing (it works character by character). */
  lemma LowerSlice(s: string, i: int, j: int)
    requires 0 <= i <= j <= |s|
    ensures Lower(s[i..j]) == Lower(s)[i..j]
  {
  }

  /** A lower-case letter in `Lower(s)` comes from that letter in either case in `s`. */
  lemma LowerHasLetter(s: string, c: char)
    requires 'a' <= c <= 'z'
    ensures c in Lower(s) ==> c in s || (c as int - 32) as char in s
  {
    if c in Lower(s) {
      var i :| 0 <= i < |s| && Lower(s)[i] == c;
      assert LowerChar(s[i]) == c;
    }
  }

  /** An upper-case letter in `Upper(s)` comes from that letter in either case in `s`. */
  lemma UpperHasLetter(s: string, c: char)
    requires 'A' <= c <= 'Z'
    ensures c in Upper(s) ==> c in s || (c as int + 32) as char in s
  {
    if c in Upper(s) {
      var i :| 0 <= i < |s| && Upper(s)[i] == c;
      assert UpperChar(s[i]) == c;
    }
  }

  predicate StartsWith(s: string, prefix: string) {
    |prefix| <= |s| && s[..|prefix|] == prefix
  }

  /** `s.upper().startswith(p)`, character by character. */
  predicate UpperStartsWith(s: string, p: string) {
    |p| <= |s| && forall k :: 0 <= k < |p| ==> UpperChar(s[k]) == p[k]
  }

  /** The character-wise test agrees with upper-casing the whole text. */
  lemma UpperStartsWithIff(s: string, p: string)
    ensures UpperStartsWith(s, p) <==> StartsWith(Upper(s), p)
  {
    if UpperStartsWith(s, p) {
      assert Upper(s)[..|p|] == p;
    }
    if StartsWith(Upper(s), p) {
      forall k | 0 <= k < |p| ensures UpperChar(s[k]) == p[k] {
        assert Upper(s)[..|p|][k] == p[k];
      }
    }
  }

  predicate EndsWith(s: string, suffix: string) {
    |suffix| <= |s| && s[|s| - |suffix|..] == suffix
  }

  /** `t` occurs in `s` at index `i`. */
  predicate Occurs(s: string, t: string, i: int) {
    0 <= i && i + |t| <= |s| && s[i..i + |t|] == t
  }

  /** The first index at or after `i` at which `t` occurs. */
  function FindFrom(s: string, t: string, i: nat): (r: Option<nat>)
    ensures r.Some? ==> i <= r.value && Occurs(s, t, r.value) && forall j :: i <= j < r.value ==> !Occurs(s, t, j)
    ensures r.None? ==> forall j :: i <= j ==> !Occurs(s, t, j)
    decreases |s| - i
  {
    if i + |t| > |s| then None
    else if s[i..i + |t|] == t then Some(i)
    else FindFrom(s, t, i + 1)
  }

  /** `s.find(t)`: the first index at which `t` occurs, or None for Python's -1. */
  function Find(s: string, t: string): (r: Option<nat>)
    ensures r.Some? ==> Occurs(s, t, r.value) && forall j :: 0 <= j < r.value ==> !Occurs(s, t, j)
    ensures r.None? ==> forall j :: !Occurs(s, t, j)
  {
    FindFrom(s, t, 0)
  }

  /** `t in s`. */
  predicate Contains(s: string, t: string) {
    Find(s, t).Some?
  }

  /** A string that starts with `p` starts with every prefix of `p`. */
  lemma StartsWithPrefix(s: string, p: string, k: nat)
    requires k <= |p|
    ensures StartsWith(s, p) ==> StartsWith(s, p[..k])
  {
  }

  /** An occurrence after the first character of `[c] + rest` is an occurrence in `rest`. */
  lemma OccursAfterHead(c: char, rest: string, t: string)
    ensures forall j :: 1 <= j && Occurs([c] + rest, t, j) ==> Occurs(rest, t, j - 1)
  {
    var r := [c] + rest;
    forall j | 1 <= j && Occurs(r, t, j) ensures Occurs(rest, t, j - 1) {
      assert r[j..j + |t|] == rest[j - 1..j - 1 + |t|];
    }
  }

  /** The first occurrence of a single character `c`, once the characters
      before index `k` are known to differ from it. */
  lemma FindChar(s: string, c: char, k: nat)
    requires k <= |s| && forall m :: 0 <= m < k ==> s[m] != c
    ensures k < |s| && s[k] == c ==> Find(s, [c]) == Some(k)
    ensures k == |s| ==> Find(s, [c]) == None
  {
    forall m | 0 <= m < k ensures !Occurs(s, [c], m) {
      assert s[m..m + 1] == [s[m]];
    }
    if k < |s| && s[k] == c {
      assert Occurs(s, [c], k) by { assert s[k..k + 1] == [c]; }
      var x := Find(s, [c]).value;
      assert s[x..x + 1] == [c];
    }
  }

  /** A string that starts with `t` contains `t`. */
  lemma StartsWithContains(s: string, t: string)
    ensures StartsWith(s, t) ==> Contains(s, t)
  {
    if StartsWith(s, t) { OccursContains(s, t, 0); }
  }

  /** A string in which `t` occurs somewhere contains `t`. */
  lemma OccursContains(s: string, t: string, i: int)
    requires Occurs(s, t, i)
    ensures Contains(s, t)
  {
  }

  /** A slice of a slice is a slice of the original. */
  lemma SliceOfSlice(s: string, i: int, j: int, k: int, l: int)
    requires 0 <= i <= j <= |s| && 0 <= k <= l <= j - i
    ensures s[i..j][k..l] == s[i + k..i + l]
  {
    var x := s[i..j][k..l];
    var y := s[i + k..i + l];
    assert |x| == |y|;
    forall m | 0 <= m < |x| ensures x[m] == y[m] {
      assert x[m] == s[i..j][k + m] == s[i + k + m];
    }
  }

  /** A prefix of a suffix is a slice of the original. */
  lemma PrefixOfSuffix(s: string, i: nat, n: nat)
    requires i + n <= |s|
    ensures s[i..][..n] == s[i..i + n]
  {
  }

  /** A text that contains `t` contains each of its characters. */
  lemma ContainsHasChar(s: string, t: string, k: nat)
    requires k < |t|
    ensures Contains(s, t) ==> t[k] in s
  {
    if Contains(s, t) {
      var i := Find(s, t).value;
      assert s[i + k] == t[k];
    }
  }

  /** An occurrence lying inside a slice is an occurrence in the slice. */
  lemma ContainsInSlice(s: string, t: string, i: nat, a: nat, b: nat)
    requires Occurs(s, t, i) && a <= i && i + |t| <= b <= |s|
    ensures Contains(s[a..b], t)
  {
    SliceOfSlice(s, a, b, i - a, i - a + |t|);
    OccursContains(s[a..b], t, i - a);
  }

  /** An occurrence inside a slice is an occurrence in the whole string. */
  lemma ContainsFromSlice(s: string, t: string, i: int, j: int)
    requires 0 <= i <= j <= |s|
    ensures Contains(s[i..j], t) ==> Contains(s, t)
  {
    if Contains(s[i..j], t) {
      var k := Find(s[i..j], t).value;
      SliceOfSlice(s, i, j, k, k + |t|);
      OccursContains(s, t, i + k);
    }
  }

  /** Whatever occurs in the stripped text occurs in the text. */
  lemma ContainsFromStrip(s: string, t: string)
    ensures Contains(Strip(s), t) ==> Contains(s, t)
  {
    ContainsFromSlice(s, t, StripStart(s), StripEnd(s));
  }

  /** `s.replace(pat, rep)`: every non-overlapping occurrence of `pat`, scanned from the left, is replaced. */
  function Replace(s: string, pat: string, rep: string): string
    requires |pat| > 0
    decreases |s|
  {
    if |s| < |pat| then s
    else if s[..|pat|] == pat then rep + Replace(s[|pat|..], pat, rep)
    else [s[0]] + Replace(s[1..], pat, rep)
  }

  /** `s.split(sep)` for a non-empty separator. */
  function Split(s: string, sep: string): (parts: seq<string>)
    requires |sep| > 0
    ensures |parts| >= 1
    ensures Contains(s, sep) ==> |parts| >= 2
    decreases |s|
  {
    match Find(s, sep)
    case None => [s]
    case Some(i) =>
      [s[..i]] + Split(s[i + |sep|..], sep)
  }

  /** `sep.join(parts)`. */
  function Join(parts: seq<string>, sep: string): string {
    if |parts| == 0 then ""
    else if |parts| == 1 then parts[0]
    else parts[0] + sep + Join(parts[1..], sep)
  }

  /** Two texts of which one ends with the other end with the same short suffix. */
  lemma EndsWithSame(a: string, b: string, c: string)
    requires EndsWith(a, b) && |c| <= |b|
    ensures EndsWith(a, c) <==> EndsWith(b, c)
  {
    assert a[|a| - |c|..] == b[|b| - |c|..];
  }

  /** A join starts with its first part. */
  lemma JoinStartsWith(parts: seq<string>, sep: string)
    requires |parts| > 0
    ensures StartsWith(Join(parts, sep), parts[0])
  {
  }

  /** A join ends with its last part. */
  lemma {:induction false} JoinEndsWith(parts: seq<string>, sep: string)
    requires |parts| > 0
    ensures EndsWith(Join(parts, sep), parts[|parts| - 1])
  {
    if |parts| > 1 {
      JoinEndsWith(parts[1..], sep);
      assert parts[1..][|parts| - 2] == parts[|parts| - 1];
    }
  }

  /** Joining one more part appends the separator and that part. */
  lemma {:induction false} JoinAppend(parts: seq<string>, x: string, sep: string)
    ensures Join(parts + [x], sep) == if parts == [] then x else Join(parts, sep) + sep + x
  {
    if |parts| > 1 {
      assert (parts + [x])[1..] == parts[1..] + [x];
      JoinAppend(parts[1..], x, sep);
    } else if |parts| == 1 {
      assert (parts + [x])[1..] == [x];
    }
  }

  /** Splitting and joining back with the same separator gives the original text. */
  lemma {:induction false} JoinSplit(s: string, sep: string)
    requires |sep| > 0
    ensures Join(Split(s, sep), sep) == s
    decreases |s|
  {
    match Find(s, sep)
    case None =>
      assert Split(s, sep) == [s];
    case Some(i) =>
      var rest := s[i + |sep|..];
      var tail := Split(rest, sep);
      JoinSplit(rest, sep);
      var parts := [s[..i]] + tail;
      assert Split(s, sep) == parts;
      assert parts[1..] == tail;
      assert Join(parts, sep) == s[..i] + sep + Join(tail, sep);
      assert s[i..i + |sep|] == sep;
      assert s == s[..i] + s[i..i + |sep|] + rest;
  }

  /** Splitting a join at its one-character separator gives the parts back,
      when no part holds that character. */
  lemma {:induction false} SplitJoin(parts: seq<string>, c: char)
    requires |parts| > 0
    requires forall k :: 0 <= k < |parts| ==> c !in parts[k]
    ensures Split(Join(parts, [c]), [c]) == parts
  {
    var s := Join(parts, [c]);
    if |parts| == 1 {
      FindChar(s, c, |s|);
    } else {
      var rest := Join(parts[1..], [c]);
      assert s == parts[0] + [c] + rest;
      FindChar(s, c, |parts[0]|);
      assert s[..|parts[0]|] == parts[0];
      assert s[|parts[0]| + 1..] == rest;
      SplitJoin(parts[1..], c);
    }
  }

  /** A character in neither the parts nor the separator is not in their join. */
  lemma {:induction false} JoinExcludes(parts: seq<string>, sep: string, c: char)
    requires c !in sep && forall k :: 0 <= k < |parts| ==> c !in parts[k]
    ensures c !in Join(parts, sep)
  {
    if |parts| > 1 {
      JoinExcludes(parts[1..], sep, c);
    }
  }

  /** `c * n`. */
  function Repeat(c: char, n: nat): (r: string)
    ensures |r| == n && forall i :: 0 <= i < n ==> r[i] == c
  {
    seq(n, _ => c)
  }

  /** `s.ljust(width)`: pads on the right with spaces, never truncates. */
  function LJust(s: string, width: nat): (r: string)
    ensures |r| == if |s| < width then width else |s|
    ensures r[..|s|] == s
    ensures forall i :: |s| <= i < |r| ==> r[i] == ' '
  {
    if |s| < width then s + Repeat(' ', width - |s|) else s
  }

  /** Padding adds only spaces. */
  lemma LJustExcludes(s: string, width: nat, c: char)
    requires c !in s && c != ' '
    ensures c !in LJust(s, width)
  {
  }

  function DigitChar(d: nat): char
    requires d < 10
  {
    ['0', '1', '2', '3', '4', '5', '6', '7', '8', '9'][d]
  }

  /** `str(n)` for a non-negative integer: its decimal digits, without leading zeros. */
  function NatToString(n: nat): (r: string)
    ensures |r| >= 1
    ensures forall i :: 0 <= i < |r| ==> '0' <= r[i] <= '9'
    ensures n > 0 ==> r[0] != '0'
  {
    if n < 10 then [DigitChar(n)] else NatToString(n / 10) + [DigitChar(n % 10)]
  }
}
