/**
 * The Markdown linter run before conversion (class `MarkdownLinter`). After
 * the external formatter has canonicalised the text, one pass over its lines
 * moves a table caption found below a table to just above it, and a second
 * pass reports every output line whose unescaped `$` signs do not pair up.
 *
 * The formatter and the line splitting after it are not interpreted: `Lint`
 * receives them as one function from the original text to its lines.
 *
 * The caption pass is specified over three line classes bundled as `Rules`
 * (table line, blank line, caption line); `Markdown` holds the linter's own
 * classes, and the properties are proved for any classes that are
 * `Consistent`, which `Markdown` is.
 */
module Linter {
  import opened Wrappers
  import opened Text
  import opened Patterns

  /** An issue: the 1-based line it concerns and what was found. */
  datatype Issue = Issue(line: nat, description: string)

  const CaptionMoved := "Table caption moved from below to above the table."
  const UnmatchedMath := "Unmatched inline math delimiter ($) found."

  /** A table line: its stripped text starts with `|`. */
  predicate IsTableRow(line: string) {
    var s := Strip(line);
    |s| > 0 && s[0] == '|'
  }

  predicate IsBlankLine(line: string) {
    Strip(line) == []
  }

  /** `TABLE_CAPTION_PATTERN` matches the stripped line. */
  predicate IsCaptionLine(line: string) {
    IsTableCaption(Strip(line))
  }

  /** The three line classes the caption pass looks at. */
  datatype Rules = Rules(row: string -> bool, blank: string -> bool, caption: string -> bool)

  const Markdown := Rules(IsTableRow, IsBlankLine, IsCaptionLine)

  /** A table line is never blank, and a caption is neither a table line nor blank. */
  ghost predicate Consistent(r: Rules) {
    (forall s :: r.row(s) ==> !r.blank(s)) &&
    (forall s :: r.caption(s) ==> !r.row(s) && !r.blank(s))
  }

  /** A table caption starts with a letter, so it is neither a table line nor a blank line. */
  lemma CaptionNotRow(line: string)
    requires IsCaptionLine(line)
    ensures !IsTableRow(line) && !IsBlankLine(line)
  {
    var s := Strip(line);
    StartsWithCIChars(s, "tab");
    assert LowerAscii(s[0]) == 't';
  }

  lemma MarkdownConsistent()
    ensures Consistent(Markdown)
  {
    forall s | IsCaptionLine(s)
      ensures !IsTableRow(s) && !IsBlankLine(s)
    {
      CaptionNotRow(s);
    }
  }

  // ---------------------------------------------------------------------
  // Moving table captions

  /** End of the run of table lines starting at `i`. */
  function TableEnd(r: Rules, lines: seq<string>, i: nat): (t: nat)
    requires i <= |lines|
    decreases |lines| - i
    ensures i <= t <= |lines|
    ensures t == |lines| || !r.row(lines[t])
  {
    if i < |lines| && r.row(lines[i]) then TableEnd(r, lines, i + 1) else i
  }

  /** The lines of a table run are table lines, and a run ends at the first other line. */
  lemma {:induction false} TableEndIs(r: Rules, lines: seq<string>, i: nat, t: nat)
    requires i <= t <= |lines|
    decreases |lines| - i
    ensures TableEnd(r, lines, i) == t <==>
      (forall k :: i <= k < t ==> r.row(lines[k])) && (t == |lines| || !r.row(lines[t]))
  {
    if i < t {
      TableEndIs(r, lines, i + 1, t);
    }
  }

  /** First line at or after `j` that is not blank, or `|lines|`. */
  function NonBlankFrom(r: Rules, lines: seq<string>, j: nat): (e: nat)
    requires j <= |lines|
    decreases |lines| - j
    ensures j <= e <= |lines|
    ensures e == |lines| || !r.blank(lines[e])
  {
    if j < |lines| && r.blank(lines[j]) then NonBlankFrom(r, lines, j + 1) else j
  }

  /** The lines skipped are blank, and the skip ends at the first other line. */
  lemma {:induction false} NonBlankFromIs(r: Rules, lines: seq<string>, j: nat, e: nat)
    requires j <= e <= |lines|
    decreases |lines| - j
    ensures NonBlankFrom(r, lines, j) == e <==>
      (forall k :: j <= k < e ==> r.blank(lines[k])) && (e == |lines| || !r.blank(lines[e]))
  {
    if j < e {
      NonBlankFromIs(r, lines, j + 1, e);
    }
  }

  /** Index of the caption that is the first non-blank line from `t` on, if there is one. */
  function CaptionAfter(r: Rules, lines: seq<string>, t: nat): (c: Option<nat>)
    requires t <= |lines|
    ensures c.Some? ==> t <= c.value < |lines| && r.caption(lines[c.value])
  {
    var j := NonBlankFrom(r, lines, t);
    if j < |lines| && r.caption(lines[j]) then Some(j) else None
  }

  /** What one pass of the outer loop emits, the issues it resolves, and where it resumes. */
  datatype Chunk = Chunk(emitted: seq<string>, moved: seq<Issue>, next: nat)

  function ChunkAt(r: Rules, lines: seq<string>, i: nat): (c: Chunk)
    requires i < |lines|
    ensures i < c.next <= |lines|
  {
    if r.row(lines[i]) then
      var t := TableEnd(r, lines, i);
      match CaptionAfter(r, lines, t)
      case Some(j) => Chunk([lines[j]] + lines[i..t], [Issue(j + 1, CaptionMoved)], j + 1)
      case None => Chunk(lines[i..t], [], t)
    else Chunk([lines[i]], [], i + 1)
  }

  /** The fixed lines and the resolved issues of a scan. */
  datatype Fix = Fix(lines: seq<string>, moved: seq<Issue>)

  /** What the caption pass makes of the lines from `i` on. */
  function Fixed(r: Rules, lines: seq<string>, i: nat): Fix
    requires i <= |lines|
    decreases |lines| - i
  {
    if i == |lines| then Fix([], [])
    else
      var c := ChunkAt(r, lines, i);
      var rest := Fixed(r, lines, c.next);
      Fix(c.emitted + rest.lines, c.moved + rest.moved)
  }

  lemma FixedStep(r: Rules, lines: seq<string>, i: nat, c: Chunk)
    requires i < |lines| && c == ChunkAt(r, lines, i)
    ensures Fixed(r, lines, i).lines == c.emitted + Fixed(r, lines, c.next).lines
    ensures Fixed(r, lines, i).moved == c.moved + Fixed(r, lines, c.next).moved
  {
  }

  /** Collects the consecutive table lines from `i` on. */
  method TableRun(r: Rules, lines: seq<string>, i: nat) returns (tableLines: seq<string>, k: nat)
    requires i <= |lines|
    ensures k == TableEnd(r, lines, i) && tableLines == lines[i..k]
  {
    tableLines := [];
    k := i;
    while k < |lines| && r.row(lines[k])
      invariant i <= k <= |lines|
      invariant TableEnd(r, lines, k) == TableEnd(r, lines, i)
      invariant tableLines == lines[i..k]
      decreases |lines| - k
    {
      assert lines[i..k + 1] == lines[i..k] + [lines[k]];
      tableLines := tableLines + [lines[k]];
      k := k + 1;
    }
  }

  /** Skips the blank lines from `k` on. */
  method SkipBlank(r: Rules, lines: seq<string>, k: nat) returns (j: nat)
    requires k <= |lines|
    ensures j == NonBlankFrom(r, lines, k)
  {
    j := k;
    while j < |lines| && r.blank(lines[j])
      invariant k <= j <= |lines|
      invariant NonBlankFrom(r, lines, j) == NonBlankFrom(r, lines, k)
      decreases |lines| - j
    {
      j := j + 1;
    }
  }

  /** One pass of the outer loop of `lint`, starting at line `i`. */
  method NextChunk(r: Rules, lines: seq<string>, i: nat) returns (c: Chunk)
    requires i < |lines|
    ensures c == ChunkAt(r, lines, i)
  {
    var line := lines[i];
    if r.row(line) {
      var tableLines, k := TableRun(r, lines, i);
      var j := SkipBlank(r, lines, k);
      if j < |lines| && r.caption(lines[j]) {
        var captionLine := lines[j];
        return Chunk([captionLine] + tableLines, [Issue(j + 1, CaptionMoved)], j + 1);
      } else {
        return Chunk(tableLines, [], k);
      }
    }
    return Chunk([line], [], i + 1);
  }

  /**
   * The outer loop of `lint`: copies the lines, moving each caption found
   * below a table to just above it, and lists the captions it moved.
   */
  method MoveCaptions(r: Rules, lines: seq<string>) returns (fixedLines: seq<string>, moved: seq<Issue>)
    ensures Fix(fixedLines, moved) == Fixed(r, lines, 0)
  {
    fixedLines := [];
    moved := [];
    ghost var goal := Fixed(r, lines, 0);
    var i := 0;
    while i < |lines|
      invariant i <= |lines|
      invariant fixedLines + Fixed(r, lines, i).lines == goal.lines
      invariant moved + Fixed(r, lines, i).moved == goal.moved
      decreases |lines| - i
    {
      var c := NextChunk(r, lines, i);
      FixedStep(r, lines, i, c);
      ghost var rest := Fixed(r, lines, c.next);
      ConcatAssoc(fixedLines, c.emitted, rest.lines);
      ConcatAssoc(moved, c.moved, rest.moved);
      fixedLines := fixedLines + c.emitted;
      moved := moved + c.moved;
      i := c.next;
    }
    assert Fixed(r, lines, i) == Fix([], []);
    ConcatNil(fixedLines);
    ConcatNil(moved);
  }

  // ---------------------------------------------------------------------
  // Unmatched inline math

  /** `$` at `k` that is not preceded by a backslash (`(?<!\\)\$`). */
  predicate DollarAt(s: string, k: nat)
    requires k < |s|
  {
    s[k] == '$' && (k == 0 || s[k - 1] != '\\')
  }

  /** Number of unescaped `$` among the first `n` characters. */
  function Dollars(s: string, n: nat): (d: nat)
    requires n <= |s|
    ensures d <= n
  {
    if n == 0 then 0 else Dollars(s, n - 1) + (if DollarAt(s, n - 1) then 1 else 0)
  }

  predicate Unbalanced(line: string) {
    Dollars(line, |line|) % 2 != 0
  }

  /** The issues reported for the first `n` output lines, in order. */
  function Unmatched(out: seq<string>, n: nat): seq<Issue>
    requires n <= |out|
  {
    if n == 0 then []
    else Unmatched(out, n - 1) + (if Unbalanced(out[n - 1]) then [Issue(n, UnmatchedMath)] else [])
  }

  // ---------------------------------------------------------------------
  // The linter

  class MarkdownLinter {
    const originalText: string
    var openIssues: seq<Issue>
    var resolvedIssues: seq<Issue>
    var fixedText: Option<string>

    constructor (markdownText: string)
      ensures originalText == markdownText
      ensures openIssues == [] && resolvedIssues == [] && fixedText == None
    {
      originalText := markdownText;
      openIssues := [];
      resolvedIssues := [];
      fixedText := None;
    }

    /**
     * Lints the formatted lines `format(originalText)`: moves captions found
     * below tables, records the text, then reports unbalanced `$`. Issues are
     * appended to those of earlier calls.
     */
    method Lint(format: string -> seq<string>) returns (open: seq<Issue>, resolved: seq<Issue>, text: string)
      modifies this
      ensures var fix := Fixed(Markdown, format(originalText), 0);
        && resolvedIssues == old(resolvedIssues) + fix.moved
        && openIssues == old(openIssues) + Unmatched(fix.lines, |fix.lines|)
        && fixedText == Some(Join("\n", fix.lines))
        && open == openIssues && resolved == resolvedIssues && text == Join("\n", fix.lines)
    {
      var lines := format(originalText);
      var fixedLines, moved := MoveCaptions(Markdown, lines);
      resolvedIssues := resolvedIssues + moved;
      fixedText := Some(Join("\n", fixedLines));
      ConcatNil(openIssues);

      for idx := 0 to |fixedLines|
        invariant openIssues == old(openIssues) + Unmatched(fixedLines, idx)
        invariant resolvedIssues == old(resolvedIssues) + moved
        invariant fixedText == Some(Join("\n", fixedLines))
      {
        var line := fixedLines[idx];
        var dollars := Dollars(line, |line|);
        if dollars % 2 != 0 {
          openIssues := openIssues + [Issue(idx + 1, UnmatchedMath)];
        }
      }
      return openIssues, resolvedIssues, Join("\n", fixedLines);
    }
  }

  // ---------------------------------------------------------------------
  // What the caption pass keeps

  /** `out` holds every line of `src` that is not blank as often as `src` does, and no line more often. */
  ghost predicate KeepsNonBlank(blank: string -> bool, out: seq<string>, src: seq<string>) {
    forall s :: multiset(out)[s] <= multiset(src)[s] && (!blank(s) ==> multiset(out)[s] == multiset(src)[s])
  }

  lemma KeepsAppend(blank: string -> bool, out: seq<string>, src: seq<string>,
                    out1: seq<string>, src1: seq<string>, out2: seq<string>, src2: seq<string>)
    requires out == out1 + out2 && src == src1 + src2
    requires KeepsNonBlank(blank, out1, src1) && KeepsNonBlank(blank, out2, src2)
    ensures KeepsNonBlank(blank, out, src)
  {
  }

  /** A caption moved above its table keeps every line but the blank ones in between. */
  lemma KeepsMovedCaption(blank: string -> bool, lines: seq<string>, i: nat, t: nat, j: nat)
    requires i <= t <= j < |lines|
    requires forall k :: t <= k < j ==> blank(lines[k])
    ensures KeepsNonBlank(blank, [lines[j]] + lines[i..t], lines[i..j + 1])
  {
    var blanks := lines[t..j];
    assert lines[i..j + 1] == lines[i..t] + blanks + [lines[j]];
    assert multiset([lines[j]] + lines[i..t]) == multiset(lines[i..t] + [lines[j]]);
    assert forall s :: s in blanks ==> blank(s);
  }

  lemma KeepsAll(blank: string -> bool, out: seq<string>, src: seq<string>)
    requires out == src
    ensures KeepsNonBlank(blank, out, src)
  {
  }

  /** One pass emits every non-blank line of the stretch it consumes exactly once, and never adds a line. */
  lemma ChunkKeepsLines(r: Rules, lines: seq<string>, i: nat, c: Chunk)
    requires i < |lines| && c == ChunkAt(r, lines, i)
    ensures KeepsNonBlank(r.blank, c.emitted, lines[i..c.next])
  {
    if r.row(lines[i]) {
      var t := TableEnd(r, lines, i);
      match CaptionAfter(r, lines, t)
      case Some(j) =>
        NonBlankFromIs(r, lines, t, j);
        KeepsMovedCaption(r.blank, lines, i, t, j);
        assert c.emitted == [lines[j]] + lines[i..t] && c.next == j + 1;
      case None =>
        KeepsAll(r.blank, c.emitted, lines[i..c.next]);
    } else {
      assert lines[i..i + 1] == [lines[i]];
      KeepsAll(r.blank, c.emitted, lines[i..c.next]);
    }
  }

  /**
   * The caption pass drops nothing but blank lines: every non-blank line
   * occurs in the output exactly as often as in the input, and no line
   * occurs more often.
   */
  lemma {:induction false} FixedKeepsLines(r: Rules, lines: seq<string>, i: nat)
    requires i <= |lines|
    decreases |lines| - i
    ensures KeepsNonBlank(r.blank, Fixed(r, lines, i).lines, lines[i..])
  {
    if i < |lines| {
      var c := ChunkAt(r, lines, i);
      ChunkKeepsLines(r, lines, i, c);
      FixedKeepsLines(r, lines, c.next);
      FixedStep(r, lines, i, c);
      SliceSplit(lines, i, c.next);
      KeepsAppend(r.blank, Fixed(r, lines, i).lines, lines[i..],
        c.emitted, lines[i..c.next], Fixed(r, lines, c.next).lines, lines[c.next..]);
    }
  }

  lemma SliceSplit<T>(s: seq<T>, i: nat, n: nat)
    requires i <= n <= |s|
    ensures s[i..] == s[i..n] + s[n..]
  {
  }

  lemma CancelPrefix<T>(a: seq<T>, b: seq<T>, c: seq<T>)
    requires a + b == a + c
    ensures b == c
  {
    assert b == (a + b)[|a|..];
    assert c == (a + c)[|a|..];
  }

  /** The output differs from the input exactly when some caption was moved. */
  lemma {:induction false} FixedUnchangedIff(r: Rules, lines: seq<string>, i: nat)
    requires Consistent(r) && i <= |lines|
    decreases |lines| - i
    ensures Fixed(r, lines, i).lines == lines[i..] <==> Fixed(r, lines, i).moved == []
  {
    if i < |lines| {
      var c := ChunkAt(r, lines, i);
      FixedStep(r, lines, i, c);
      FixedUnchangedIff(r, lines, c.next);
      var rest := Fixed(r, lines, c.next);
      if r.row(lines[i]) && CaptionAfter(r, lines, TableEnd(r, lines, i)).Some? {
        var j := CaptionAfter(r, lines, TableEnd(r, lines, i)).value;
        assert Fixed(r, lines, i).lines[0] == lines[j] != lines[i] == lines[i..][0];
      } else {
        assert c.emitted == lines[i..c.next] && c.moved == [];
        assert lines[i..] == c.emitted + lines[c.next..];
        if Fixed(r, lines, i).lines == lines[i..] {
          CancelPrefix(c.emitted, rest.lines, lines[c.next..]);
        }
      }
    }
  }

  // ---------------------------------------------------------------------
  // Which captions move

  /** Line `j` is a caption and the first non-blank line after a table line. */
  predicate CaptionBelowTable(r: Rules, lines: seq<string>, j: nat) {
    j < |lines| && r.caption(lines[j]) &&
    exists k :: 0 <= k < j && r.row(lines[k]) && forall m :: k < m < j ==> r.blank(lines[m])
  }

  lemma BelowTable(r: Rules, lines: seq<string>, k: nat, j: nat)
    requires k < j < |lines| && r.caption(lines[j]) && r.row(lines[k])
    requires forall m :: k < m < j ==> r.blank(lines[m])
    ensures CaptionBelowTable(r, lines, j)
  {
  }

  /** The issue a pass resolves, if any, is the caption it consumed last. */
  lemma ChunkMoved(r: Rules, lines: seq<string>, i: nat)
    requires i < |lines|
    ensures var c := ChunkAt(r, lines, i);
      |c.moved| <= 1 &&
      (c.moved != [] ==>
        && c.moved[0] == Issue(c.next, CaptionMoved) && CaptionBelowTable(r, lines, c.next - 1)
        && |c.emitted| >= 2 && c.emitted[0] == lines[c.next - 1] && r.row(c.emitted[1]))
  {
    if r.row(lines[i]) && CaptionAfter(r, lines, TableEnd(r, lines, i)).Some? {
      var t := TableEnd(r, lines, i);
      var j := CaptionAfter(r, lines, t).value;
      TableEndIs(r, lines, i, t);
      NonBlankFromIs(r, lines, t, j);
      BelowTable(r, lines, t - 1, j);
    }
  }

  /**
   * `m` lists resolved issues for captions below a table at lines after
   * `i`, in increasing line order.
   */
  ghost predicate CaptionIssues(r: Rules, lines: seq<string>, i: nat, m: seq<Issue>) {
    && (forall a :: 0 <= a < |m| ==>
          m[a].description == CaptionMoved && i < m[a].line <= |lines| && CaptionBelowTable(r, lines, m[a].line - 1))
    && (forall a, b :: 0 <= a < b < |m| ==> m[a].line < m[b].line)
  }

  lemma CaptionIssuesCons(r: Rules, lines: seq<string>, i: nat, x: seq<Issue>, n: nat, rest: seq<Issue>)
    requires i < n <= |lines| && |x| <= 1
    requires x != [] ==> x[0] == Issue(n, CaptionMoved) && CaptionBelowTable(r, lines, n - 1)
    requires CaptionIssues(r, lines, n, rest)
    ensures CaptionIssues(r, lines, i, x + rest)
  {
    var m := x + rest;
    forall a | |x| <= a < |m|
      ensures m[a] == rest[a - |x|]
    {
    }
  }

  /**
   * Every resolved issue names, by its 1-based number, a caption line found
   * below a table, and the issues come in increasing line order, so no
   * caption is reported twice.
   */
  lemma {:induction false} MovedAreCaptions(r: Rules, lines: seq<string>, i: nat)
    requires i <= |lines|
    decreases |lines| - i
    ensures CaptionIssues(r, lines, i, Fixed(r, lines, i).moved)
  {
    if i < |lines| {
      var c := ChunkAt(r, lines, i);
      FixedStep(r, lines, i, c);
      ChunkMoved(r, lines, i);
      MovedAreCaptions(r, lines, c.next);
      CaptionIssuesCons(r, lines, i, c.moved, c.next, Fixed(r, lines, c.next).moved);
    }
  }

  /** A pass never runs across the first line of a table that starts after it. */
  lemma ChunkStopsAtTable(r: Rules, lines: seq<string>, i: nat, k0: nat)
    requires Consistent(r)
    requires i < k0 < |lines| && r.row(lines[k0]) && !r.row(lines[k0 - 1])
    ensures ChunkAt(r, lines, i).next <= k0
  {
    if r.row(lines[i]) {
      var t := TableEnd(r, lines, i);
      TableEndIs(r, lines, i, t);
      assert t <= k0 - 1;
      match CaptionAfter(r, lines, t)
      case Some(j) =>
        NonBlankFromIs(r, lines, t, j);
        assert j != k0 && !r.blank(lines[k0]);
      case None =>
    }
  }

  /** The first line of the table run that line `k` belongs to. */
  function RunStart(r: Rules, lines: seq<string>, k: nat): (k0: nat)
    requires k < |lines| && r.row(lines[k])
    ensures k0 <= k && (k0 == 0 || !r.row(lines[k0 - 1]))
    ensures forall m :: k0 <= m <= k ==> r.row(lines[m])
  {
    if k > 0 && r.row(lines[k - 1]) then RunStart(r, lines, k - 1) else k
  }

  /** A caption below the table that starts at `k0` is moved by every scan that reaches `k0`. */
  lemma {:induction false} CaptionIsMoved(r: Rules, lines: seq<string>, i: nat, k0: nat, j: nat)
    requires Consistent(r)
    requires i <= k0 < |lines| && r.row(lines[k0]) && (k0 == 0 || !r.row(lines[k0 - 1]))
    requires CaptionAfter(r, lines, TableEnd(r, lines, k0)) == Some(j)
    decreases |lines| - i
    ensures Issue(j + 1, CaptionMoved) in Fixed(r, lines, i).moved
  {
    var c := ChunkAt(r, lines, i);
    FixedStep(r, lines, i, c);
    if i == k0 {
      assert c.moved == [Issue(j + 1, CaptionMoved)];
    } else {
      ChunkStopsAtTable(r, lines, i, k0);
      CaptionIsMoved(r, lines, c.next, k0, j);
    }
  }

  /** A caption found below a table is the one the scan from that table's first line finds. */
  lemma CaptionOfRun(r: Rules, lines: seq<string>, j: nat) returns (k0: nat)
    requires Consistent(r) && CaptionBelowTable(r, lines, j)
    ensures k0 < |lines| && r.row(lines[k0]) && (k0 == 0 || !r.row(lines[k0 - 1]))
    ensures CaptionAfter(r, lines, TableEnd(r, lines, k0)) == Some(j)
  {
    var k :| 0 <= k < j && r.row(lines[k]) && forall q :: k < q < j ==> r.blank(lines[q]);
    k0 := RunStart(r, lines, k);
    assert !r.row(lines[k + 1]) by {
      if k + 1 < j {
        assert r.blank(lines[k + 1]);
      }
    }
    TableEndIs(r, lines, k0, k + 1);
    NonBlankFromIs(r, lines, k + 1, j);
  }

  /**
   * The resolved issues are exactly the captions found below a table: one
   * per caption, in line order.
   */
  lemma ResolvedIssuesExactly(r: Rules, lines: seq<string>)
    requires Consistent(r)
    ensures var m := Fixed(r, lines, 0).moved;
      && (forall n: nat :: Issue(n, CaptionMoved) in m <==> 1 <= n <= |lines| && CaptionBelowTable(r, lines, n - 1))
      && CaptionIssues(r, lines, 0, m)
  {
    var m := Fixed(r, lines, 0).moved;
    MovedAreCaptions(r, lines, 0);
    forall n: nat | 1 <= n <= |lines| && CaptionBelowTable(r, lines, n - 1)
      ensures Issue(n, CaptionMoved) in m
    {
      var k0 := CaptionOfRun(r, lines, n - 1);
      CaptionIsMoved(r, lines, 0, k0, n - 1);
    }
  }

  /** Each issue in `moved` names a line of `lines` that `out` holds directly above a table line. */
  ghost predicate CaptionsAbove(r: Rules, lines: seq<string>, out: seq<string>, moved: seq<Issue>) {
    forall a :: 0 <= a < |moved| ==>
      0 < moved[a].line <= |lines| &&
      exists p :: 0 <= p < |out| - 1 && out[p] == lines[moved[a].line - 1] && r.row(out[p + 1])
  }

  lemma CaptionsAboveCons(r: Rules, lines: seq<string>, e: seq<string>, x: seq<Issue>, out: seq<string>, moved: seq<Issue>)
    requires x == [] || (|x| == 1 && 0 < x[0].line <= |lines| && |e| >= 2 && e[0] == lines[x[0].line - 1] && r.row(e[1]))
    requires CaptionsAbove(r, lines, out, moved)
    ensures CaptionsAbove(r, lines, e + out, x + moved)
  {
    var o := e + out;
    var m := x + moved;
    forall a | 0 <= a < |m|
      ensures 0 < m[a].line <= |lines|
      ensures exists p :: 0 <= p < |o| - 1 && o[p] == lines[m[a].line - 1] && r.row(o[p + 1])
    {
      if a < |x| {
        assert o[0] == lines[m[a].line - 1] && r.row(o[1]);
      } else {
        var b := a - |x|;
        assert m[a] == moved[b];
        var p :| 0 <= p < |out| - 1 && out[p] == lines[moved[b].line - 1] && r.row(out[p + 1]);
        assert o[|e| + p] == out[p] && o[|e| + p + 1] == out[p + 1];
      }
    }
  }

  /** Each moved caption is placed directly above a table line in the output. */
  lemma {:induction false} CaptionAboveTable(r: Rules, lines: seq<string>, i: nat)
    requires i <= |lines|
    decreases |lines| - i
    ensures CaptionsAbove(r, lines, Fixed(r, lines, i).lines, Fixed(r, lines, i).moved)
  {
    if i < |lines| {
      var c := ChunkAt(r, lines, i);
      FixedStep(r, lines, i, c);
      ChunkMoved(r, lines, i);
      CaptionAboveTable(r, lines, c.next);
      CaptionsAboveCons(r, lines, c.emitted, c.moved, Fixed(r, lines, c.next).lines, Fixed(r, lines, c.next).moved);
    }
  }

  /** A resolved caption issue has a table line above it. */
  lemma IssueHasRow(r: Rules, lines: seq<string>, m: seq<Issue>, a: nat)
    requires CaptionIssues(r, lines, 0, m) && a < |m|
    ensures exists k :: 0 <= k < |lines| && r.row(lines[k])
  {
    assert CaptionBelowTable(r, lines, m[a].line - 1);
  }

  /** Without a table the lines come out as they went in and nothing is resolved. */
  lemma NoTableNoChange(r: Rules, lines: seq<string>)
    requires Consistent(r)
    requires forall k :: 0 <= k < |lines| ==> !r.row(lines[k])
    ensures Fixed(r, lines, 0) == Fix(lines, [])
  {
    MovedAreCaptions(r, lines, 0);
    if Fixed(r, lines, 0).moved != [] {
      IssueHasRow(r, lines, Fixed(r, lines, 0).moved, 0);
      assert false;
    }
    FixedUnchangedIff(r, lines, 0);
  }

  // ---------------------------------------------------------------------
  // The fixed text

  /** The fixed text splits on `\n` back into the output lines when no line holds a line break. */
  lemma FixedTextSplits(r: Rules, lines: seq<string>)
    requires forall k :: 0 <= k < |lines| ==> '\n' !in lines[k]
    requires Fixed(r, lines, 0).lines != []
    ensures Split(Join("\n", Fixed(r, lines, 0).lines), "\n") == Fixed(r, lines, 0).lines
  {
    var out := Fixed(r, lines, 0).lines;
    FixedKeepsLines(r, lines, 0);
    assert lines[0..] == lines;
    forall k | 0 <= k < |out|
      ensures '\n' !in out[k]
    {
      assert multiset(out)[out[k]] > 0;
      assert out[k] in lines;
    }
    SplitJoinLines(out);
  }

  // ---------------------------------------------------------------------
  // Unmatched inline math

  /** The positions of the unescaped `$` among the first `n` characters. */
  function DollarPositions(s: string, n: nat): set<nat>
    requires n <= |s|
  {
    set k: nat | k < n && DollarAt(s, k)
  }

  /** `Dollars` counts the unescaped `$` signs, which is what `findall` returns. */
  lemma {:induction false} DollarsCount(s: string, n: nat)
    requires n <= |s|
    ensures Dollars(s, n) == |DollarPositions(s, n)|
  {
    if n > 0 {
      DollarsCount(s, n - 1);
      if DollarAt(s, n - 1) {
        assert DollarPositions(s, n) == DollarPositions(s, n - 1) + {n - 1};
      } else {
        assert DollarPositions(s, n) == DollarPositions(s, n - 1);
      }
    }
  }

  /**
   * An open issue is reported for exactly the output lines with an odd
   * number of unescaped `$`, by 1-based line number and in line order.
   */
  lemma {:induction false} UnmatchedExactly(out: seq<string>, n: nat)
    requires n <= |out|
    ensures var u := Unmatched(out, n);
      && (forall x :: x in u <==> x.description == UnmatchedMath && 1 <= x.line <= n && Unbalanced(out[x.line - 1]))
      && (forall a, b :: 0 <= a < b < |u| ==> u[a].line < u[b].line)
  {
    if n > 0 {
      UnmatchedExactly(out, n - 1);
    }
  }
}
