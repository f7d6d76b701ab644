/**
 * The handful of Python `str` operations the converter relies on, written
 * out over `seq<char>`: whitespace and digit classes, `strip`, `startswith`,
 * `find`, `split`, `join` and `replace`.
 */
module Text {
  import opened Wrappers

  /** Python's `str.isspace()` / `\s` set for `str` patterns. */
  predicate IsSpace(c: char) {
    c == ' ' || ('\t' <= c <= '\r') || ('\U{1c}' <= c <= '\U{1f}') ||
    c == '\U{85}' || c == '\U{a0}' || c == '\U{1680}' ||
    ('\U{2000}' <= c <= '\U{200a}') || c == '\U{2028}' || c == '\U{2029}' ||
    c == '\U{202f}' || c == '\U{205f}' || c == '\U{3000}'
  }

  /** `\d` and `str.isdigit()`, restricted to ASCII digits. */
  predicate IsDigit(c: char) {
    '0' <= c <= '9'
  }

  predicate IsBlank(s: string) {
    forall k :: 0 <= k < |s| ==> IsSpace(s[k])
  }

  /** One past the last non-whitespace character of `s[..j]`, or 0. */
  function TrimEnd(s: string, j: nat): (e: nat)
    requires j <= |s|
    ensures e <= j && (e > 0 ==> !IsSpace(s[e - 1]))
    ensures forall k :: e <= k < j ==> IsSpace(s[k])
  {
    if j == 0 || !IsSpace(s[j - 1]) then j else TrimEnd(s, j - 1)
  }

  /** Python's `str.strip()` with no argument: whitespace goes from the front, then from the back. */
  function Strip(s: string): (r: string)
    decreases |s|
    ensures r == [] || (!IsSpace(r[0]) && !IsSpace(r[|r| - 1]))
    ensures r == [] <==> IsBlank(s)
    ensures |r| <= |s|
  {
    if s != [] && IsSpace(s[0]) then
      assert forall k :: 1 <= k < |s| ==> s[1..][k - 1] == s[k];
      Strip(s[1..])
    else if s != [] && IsSpace(s[|s| - 1]) then
      assert forall k :: 0 <= k < |s| - 1 ==> s[..|s| - 1][k] == s[k];
      Strip(s[..|s| - 1])
    else s
  }

  lemma {:induction false} SkipSpacesTail(s: string, i: nat)
    requires i < |s|
    decreases |s| - i
    ensures SkipSpaces(s[1..], i) == SkipSpaces(s, i + 1) - 1
  {
    if i + 1 < |s| {
      assert s[1..][i] == s[i + 1];
      if IsSpace(s[i + 1]) {
        SkipSpacesTail(s, i + 1);
      }
    }
  }

  lemma {:induction false} TrimEndTail(s: string, j: nat)
    requires 1 <= j <= |s|
    ensures TrimEnd(s[1..], j - 1) == if TrimEnd(s, j) == 0 then 0 else TrimEnd(s, j) - 1
  {
    if j > 1 {
      assert s[1..][j - 2] == s[j - 1];
      if IsSpace(s[j - 1]) {
        TrimEndTail(s, j - 1);
      }
    }
  }

  lemma {:induction false} TrimEndPrefix(s: string, n: nat, j: nat)
    requires j <= n <= |s|
    ensures TrimEnd(s[..n], j) == TrimEnd(s, j)
  {
    if j > 0 {
      assert s[..n][j - 1] == s[j - 1];
      if IsSpace(s[j - 1]) {
        TrimEndPrefix(s, n, j - 1);
      }
    }
  }

  /** The stripped string runs from the first non-blank character to just after the last one. */
  lemma {:induction false} StripSlice(s: string, a: nat, b: nat)
    requires a == SkipSpaces(s, 0) && b == TrimEnd(s, |s|)
    decreases |s|, 1
    ensures Strip(s) == if a < b then s[a..b] else []
  {
    if s != [] && IsSpace(s[0]) {
      StripSliceFront(s, a, b);
    } else if s != [] && IsSpace(s[|s| - 1]) {
      StripSliceBack(s, b);
    }
  }

  /** Leading whitespace: one character fewer on each side of the slice. */
  lemma {:induction false} StripSliceFront(s: string, a: nat, b: nat)
    requires s != [] && IsSpace(s[0])
    requires a == SkipSpaces(s, 0) && b == TrimEnd(s, |s|)
    decreases |s|, 0
    ensures Strip(s) == if a < b then s[a..b] else []
  {
    SkipSpacesTail(s, 0);
    TrimEndTail(s, |s|);
    StripSlice(s[1..], a - 1, if b == 0 then 0 else b - 1);
    StripFront(s, a, b);
  }

  /** Trailing whitespace after a non-blank first character: the slice is unchanged. */
  lemma {:induction false} StripSliceBack(s: string, b: nat)
    requires s != [] && !IsSpace(s[0]) && IsSpace(s[|s| - 1])
    requires b == TrimEnd(s, |s|)
    decreases |s|, 0
    ensures Strip(s) == if 0 < b then s[0..b] else []
  {
    TrimEndPrefix(s, |s| - 1, |s| - 1);
    StripSlice(s[..|s| - 1], 0, b);
    StripBack(s, b);
  }

  lemma StripFront(s: string, a: nat, b: nat)
    requires s != [] && IsSpace(s[0]) && 1 <= a <= |s| && b <= |s|
    requires Strip(s[1..]) == if a - 1 < (if b == 0 then 0 else b - 1) then s[1..][a - 1..b - 1] else []
    ensures Strip(s) == if a < b then s[a..b] else []
  {
    if a < b {
      assert s[1..][a - 1..b - 1] == s[a..b];
    }
  }

  lemma StripBack(s: string, b: nat)
    requires |s| >= 2 && !IsSpace(s[0]) && IsSpace(s[|s| - 1]) && 0 < b < |s|
    requires Strip(s[..|s| - 1]) == s[..|s| - 1][0..b]
    ensures Strip(s) == s[0..b]
  {
    assert s[..|s| - 1][0..b] == s[0..b];
  }

  lemma StripNoSpaceEnds(s: string)
    requires s == [] || (!IsSpace(s[0]) && !IsSpace(s[|s| - 1]))
    ensures Strip(s) == s
  {
  }

  predicate StartsWith(s: string, p: string) {
    |p| <= |s| && forall k :: 0 <= k < |p| ==> s[k] == p[k]
  }

  /** `s[i:]` starts with `p`. */
  predicate IsPrefixAt(p: string, s: string, i: nat) {
    i + |p| <= |s| && s[i..i + |p|] == p
  }

  /** `s.find(p, start)`, as an index. */
  function FindFrom(s: string, p: string, start: nat): (r: Option<nat>)
    decreases |s| - start
    ensures r.Some? ==> start <= r.value && IsPrefixAt(p, s, r.value)
    ensures r.Some? ==> forall k :: start <= k < r.value ==> !IsPrefixAt(p, s, k)
    ensures r.None? ==> forall k: nat :: start <= k ==> !IsPrefixAt(p, s, k)
  {
    if start + |p| > |s| then None
    else if IsPrefixAt(p, s, start) then Some(start)
    else FindFrom(s, p, start + 1)
  }

  predicate Contains(s: string, p: string) {
    FindFrom(s, p, 0).Some?
  }

  /** `s.find(p, start)` is the first index from `start` on where `p` occurs. */
  lemma {:induction false} FirstMatchFrom(s: string, p: string, start: nat, k: nat)
    requires start <= k && IsPrefixAt(p, s, k)
    requires forall j :: start <= j < k ==> !IsPrefixAt(p, s, j)
    ensures FindFrom(s, p, start) == Some(k)
    decreases k - start
  {
    if start < k {
      FirstMatchFrom(s, p, start + 1, k);
    }
  }

  lemma FirstMatchAt(s: string, p: string, k: nat)
    requires IsPrefixAt(p, s, k) && forall j :: 0 <= j < k ==> !IsPrefixAt(p, s, j)
    ensures FindFrom(s, p, 0) == Some(k)
  {
    FirstMatchFrom(s, p, 0, k);
  }

  /** The text before the first occurrence of `p` does not contain `p`. */
  lemma NotInPrefixBeforeFirst(s: string, p: string, k: nat)
    requires p != [] && FindFrom(s, p, 0) == Some(k)
    ensures !Contains(s[..k], p)
  {
    if Contains(s[..k], p) {
      var t := s[..k];
      var j := FindFrom(t, p, 0).value;
      assert j + |p| <= |t| && t[j..j + |p|] == p;
      forall m | 0 <= m < |p|
        ensures s[j + m] == p[m]
      {
        assert t[j..j + |p|][m] == t[j + m];
      }
      assert s[j..j + |p|] == p;
      assert IsPrefixAt(p, s, j);
      assert false;
    }
  }

  /** `s.split(sep)` for a non-empty separator (Python refuses an empty one). */
  function Split(s: string, sep: string): (parts: seq<string>)
    requires sep != []
    decreases |s|
    ensures |parts| >= 1
    ensures forall k :: 0 <= k < |parts| ==> !Contains(parts[k], sep)
  {
    match FindFrom(s, sep, 0)
    case None => [s]
    case Some(k) =>
      NotInPrefixBeforeFirst(s, sep, k);
      [s[..k]] + Split(s[k + |sep|..], sep)
  }

  /** `s.split(sep, 1)` when `sep` occurs in `s`. */
  function SplitOnce(s: string, sep: string): (r: (string, string))
    requires sep != [] && Contains(s, sep)
    ensures r.0 + sep + r.1 == s
    ensures !Contains(r.0, sep)
  {
    var k := FindFrom(s, sep, 0).value;
    NotInPrefixBeforeFirst(s, sep, k);
    assert s[..k] + sep + s[k + |sep|..] == s by {
      assert s[k..k + |sep|] == sep;
      assert s == s[..k] + s[k..k + |sep|] + s[k + |sep|..];
    }
    (s[..k], s[k + |sep|..])
  }

  /** `sep.join(parts)`. */
  function Join(sep: string, parts: seq<string>): string {
    if parts == [] then []
    else if |parts| == 1 then parts[0]
    else parts[0] + sep + Join(sep, parts[1..])
  }

  /** Splitting and joining again on the same separator gives back the text. */
  lemma {:induction false} JoinSplit(s: string, sep: string)
    requires sep != []
    ensures Join(sep, Split(s, sep)) == s
    decreases |s|
  {
    var f := FindFrom(s, sep, 0);
    if f.Some? {
      var k := f.value;
      var rest := s[k + |sep|..];
      JoinSplit(rest, sep);
      var tail := Split(rest, sep);
      assert Split(s, sep) == [s[..k]] + tail;
      assert s[k..k + |sep|] == sep;
      assert s == s[..k] + s[k..k + |sep|] + rest;
      if |tail| == 1 {
        assert Join(sep, [s[..k]] + tail) == s[..k] + sep + tail[0];
      } else {
        assert ([s[..k]] + tail)[1..] == tail;
      }
    }
  }

  /** `s.replace(pat, rep)` for a non-empty `pat`: left to right, non-overlapping. */
  function Replace(s: string, pat: string, rep: string): string
    requires pat != []
    decreases |s|
  {
    match FindFrom(s, pat, 0)
    case None => s
    case Some(k) => s[..k] + rep + Replace(s[k + |pat|..], pat, rep)
  }

  /** Text in which `pat` does not occur is left unchanged. */
  lemma ReplaceAbsent(s: string, pat: string, rep: string)
    requires pat != [] && !Contains(s, pat)
    ensures Replace(s, pat, rep) == s
  {
  }

  /** `s[n:]` with Python's clamping. */
  function Drop(s: string, n: nat): (r: string)
    ensures |r| == if n <= |s| then |s| - n else 0
    ensures forall k :: 0 <= k < |r| ==> r[k] == s[n + k]
  {
    if n <= |s| then s[n..] else []
  }

  /** ASCII part of `str.lower()` for one character. */
  function LowerAscii(c: char): char {
    if 'A' <= c <= 'Z' then (c as int + 32) as char else c
  }

  /** `s` starts with the lower-case ASCII word `w`, ignoring ASCII case (re.IGNORECASE). */
  predicate StartsWithCI(s: string, w: string)
    decreases |w|
  {
    |w| <= |s| && (w == [] || (LowerAscii(s[0]) == w[0] && StartsWithCI(s[1..], w[1..])))
  }

  /** `StartsWithCI` compares the first `|w|` characters one by one. */
  lemma {:induction false} StartsWithCIChars(s: string, w: string)
    ensures StartsWithCI(s, w) <==> |w| <= |s| && forall k :: 0 <= k < |w| ==> LowerAscii(s[k]) == w[k]
    decreases |w|
  {
    if w != [] && |w| <= |s| {
      StartsWithCIChars(s[1..], w[1..]);
      assert forall k :: 1 <= k < |w| ==> s[1..][k - 1] == s[k] && w[1..][k - 1] == w[k];
    }
  }

  /** Index of the first '\n' at or after `i`, or `|s|` (where `.*` stops). */
  function LineEnd(s: string, i: nat): (e: nat)
    requires i <= |s|
    decreases |s| - i
    ensures i <= e <= |s| && (e < |s| ==> s[e] == '\n')
    ensures forall k :: i <= k < e ==> s[k] != '\n'
  {
    if i == |s| || s[i] == '\n' then i else LineEnd(s, i + 1)
  }

  /** First index at or after `i` that is not whitespace (where `\s*` stops). */
  function SkipSpaces(s: string, i: nat): (e: nat)
    requires i <= |s|
    decreases |s| - i
    ensures i <= e <= |s| && (e < |s| ==> !IsSpace(s[e]))
    ensures forall k :: i <= k < e ==> IsSpace(s[k])
  {
    if i == |s| || !IsSpace(s[i]) then i else SkipSpaces(s, i + 1)
  }

  /** First index at or after `i` that is not a digit (where `\d+` stops). */
  function SkipDigits(s: string, i: nat): (e: nat)
    requires i <= |s|
    decreases |s| - i
    ensures i <= e <= |s| && (e < |s| ==> !IsDigit(s[e]))
    ensures forall k :: i <= k < e ==> IsDigit(s[k])
  {
    if i == |s| || !IsDigit(s[i]) then i else SkipDigits(s, i + 1)
  }
  /** No line break in `s[a..b]` (Python's `.` matches anything but '\n'). */
  predicate NoNewline(s: string, a: nat, b: nat) {
    forall k :: a <= k < b && k < |s| ==> s[k] != '\n'
  }

  /**
   * Python's lazy `(.*?)` followed by the literal `close`, with the group
   * starting at `start` and its end tried from `e` upwards: the first `e` at
   * which `close` occurs, provided no '\n' lies in the group. Called with
   * `e == start` for `.*?` and `e == start + 1` for `.+?`.
   */
  function LazyClose(s: string, start: nat, e: nat, close: string): (r: Option<nat>)
    requires start <= e <= |s|
    requires e == start || NoNewline(s, start, e - 1)
    decreases |s| - e
    ensures r.Some? ==> e <= r.value <= |s| && IsPrefixAt(close, s, r.value)
    ensures r.Some? ==> NoNewline(s, start, r.value)
    ensures r.Some? ==> forall k :: e <= k < r.value ==> !IsPrefixAt(close, s, k)
  {
    if e > start && s[e - 1] == '\n' then None
    else if IsPrefixAt(close, s, e) then Some(e)
    else if e == |s| then None
    else LazyClose(s, start, e + 1, close)
  }

  /** Regrouping a concatenation of four sequences. */
  lemma Regroup<T>(a: seq<T>, b: seq<T>, c: seq<T>, d: seq<T>)
    ensures a + b + c + d == a + (b + c + d)
  {
  }

  lemma ConcatAssoc<T>(a: seq<T>, b: seq<T>, c: seq<T>)
    ensures (a + b) + c == a + (b + c)
  {
  }

  /** Putting one element back in front of the rest of a slice. */
  lemma ConsSlice<T>(s: seq<T>, p: nat, q: nat, t: seq<T>)
    requires p < q <= |s|
    ensures [s[p]] + (s[p + 1..q] + t) == s[p..q] + t
  {
    assert [s[p]] + s[p + 1..q] == s[p..q];
  }

  lemma ConcatNil<T>(a: seq<T>)
    ensures a + [] == a
  {
  }

  /** Joining lines without a line break on `\n` and splitting again gives the lines back. */
  lemma {:induction false} SplitJoinLines(parts: seq<string>)
    requires parts != [] && forall k :: 0 <= k < |parts| ==> '\n' !in parts[k]
    ensures Split(Join("\n", parts), "\n") == parts
  {
    var s := Join("\n", parts);
    var p := parts[0];
    forall j: nat | j < |p|
      ensures !IsPrefixAt("\n", s, j)
    {
      assert s[j] == p[j];
    }
    if |parts| == 1 {
      assert FindFrom(s, "\n", 0).None? by {
        forall j: nat ensures !IsPrefixAt("\n", s, j) {
        }
      }
    } else {
      var rest := parts[1..];
      assert s == p + "\n" + Join("\n", rest);
      assert s[|p|] == '\n';
      assert IsPrefixAt("\n", s, |p|) by { assert s[|p|..|p| + 1] == ['\n']; }
      FirstMatchAt(s, "\n", |p|);
      assert s[..|p|] == p;
      assert s[|p| + 1..] == Join("\n", rest);
      SplitJoinLines(rest);
      assert parts == [p] + rest;
    }
  }
}
