/**
 * Inline formatting of the older converter. At each position the dictionary
 * of patterns is tried in order; a match becomes one run holding the
 * pattern's first group as it stands (no formatting inside it is read), and
 * where nothing matches the text up to the nearest position where some
 * pattern matches is one plain run. Inline math is split off first, and its
 * runs are "math" nodes.
 */
module LegacyInline {
  import opened Wrappers
  import opened Text
  import opened Nodes
  import opened InlineSyntax
  import CurrentInline

  lemma LegacyPatternsWellFormed()
    ensures forall j :: 0 <= j < |LegacyPatterns| ==> WellFormedPattern(LegacyPatterns[j])
  {
  }

  /** `pattern.search(s, q)`: the first position at or after `q` where one table entry matches. */
  function Search(s: string, q: nat, p: Pattern): (r: Option<nat>)
    requires q <= |s| && WellFormedPattern(p)
    decreases |s| - q
    ensures r.Some? ==> q <= r.value < |s| && PatternAt(s, r.value, p).Some?
    ensures r.Some? ==> forall j :: q <= j < r.value ==> PatternAt(s, j, p).None?
    ensures r.None? ==> forall j :: q <= j <= |s| ==> PatternAt(s, j, p).None?
  {
    if q == |s| then None
    else if PatternAt(s, q, p).Some? then Some(q)
    else Search(s, q + 1, p)
  }

  /** `m.start() == pos` for the match `search` finds from `pos` exactly when the entry matches at `pos`. */
  lemma SearchStartsAt(s: string, pos: nat, p: Pattern)
    requires pos <= |s| && WellFormedPattern(p)
    ensures Search(s, pos, p) == Some(pos) <==> PatternAt(s, pos, p).Some?
  {
  }

  /** The match taken at `pos`: the first entry of the table that matches there. */
  function HitAt(s: string, pos: nat): (r: Option<Hit>)
    ensures r.Some? ==> pos < r.value.end <= |s| && (r.value.DecorationHit? || r.value.LinkHit?)
    ensures r.Some? ==> pos < |s| && Opener(s[pos])
    ensures r.None? ==> forall j :: 0 <= j < |LegacyPatterns| ==> PatternAt(s, pos, LegacyPatterns[j]).None?
  {
    LegacyPatternsWellFormed();
    FirstInTable(s, pos, LegacyPatterns, 0)
  }

  /** Every entry of `table` can be tried. */
  predicate WellFormedTable(table: seq<Pattern>) {
    forall j :: 0 <= j < |table| ==> WellFormedPattern(table[j])
  }

  /** The nearest position at or after `q` where some entry of `table` matches, or the end of the text. */
  function NextIn(s: string, q: nat, table: seq<Pattern>): (n: nat)
    requires q <= |s| && WellFormedTable(table)
    decreases |s| - q
    ensures q <= n <= |s| && (n < |s| ==> FirstInTable(s, n, table, 0).Some?)
    ensures forall j :: q <= j < n ==> FirstInTable(s, j, table, 0).None?
  {
    if q == |s| || FirstInTable(s, q, table, 0).Some? then q else NextIn(s, q + 1, table)
  }

  /** The nearest position at or after `q` where some entry matches, or the end of the text. */
  function NextStart(s: string, q: nat): (n: nat)
    requires q <= |s|
    ensures q <= n <= |s| && (n < |s| ==> HitAt(s, n).Some?)
    ensures forall j :: q <= j < n ==> HitAt(s, j).None?
  {
    LegacyPatternsWellFormed();
    NextIn(s, q, LegacyPatterns)
  }

  /** The run a match becomes: the first group with the entry's flags; a link keeps only its text. */
  function Token(h: Hit): (t: Inline)
    requires h.DecorationHit? || h.LinkHit?
    ensures t.Styled? && t.url.None?
  {
    if h.DecorationHit? then Styled(h.flags, h.inner, None) else Styled(NoFlags, h.text, None)
  }

  /** The runs the `pos` loop appends from `pos` on. */
  function Scan(s: string, pos: nat): (r: seq<Inline>)
    requires pos <= |s|
    decreases |s| - pos
  {
    if pos == |s| then []
    else match HitAt(s, pos)
      case Some(h) => [Token(h)] + Scan(s, h.end)
      case None =>
        var n := NextStart(s, pos);
        [Plain(s[pos..n])] + Scan(s, n)
  }

  /** `tokens if len(tokens) > 1 else (tokens[0] if tokens else "")`. */
  function Collapse(ts: seq<Inline>): (r: Formatted)
    ensures r.Several? ==> |ts| > 1 && r.runs == ts
    ensures r.Single? && ts != [] ==> ts == [r.run]
    ensures ts == [] ==> r == Single(Plain(""))
  {
    if |ts| > 1 then Several(ts) else if ts == [] then Single(Plain("")) else Single(ts[0])
  }

  /** `_process_inline_formatting(s)` of the older converter. */
  function Format(s: string): Formatted {
    if s == [] then Single(Plain("")) else Collapse(CurrentInline.RemoveEmpty(Scan(s, 0)))
  }

  /** The flattened segments from `last` on: formatted text between inline-math matches, and the math nodes. */
  function Segments(s: string, last: nat): seq<Inline>
    requires last <= |s|
    decreases |s| - last
  {
    match MathSearch(s, last)
    case Some((q, sp)) =>
      (if q > last then CurrentInline.Flat(Format(s[last..q])) else []) + [Math(Strip(sp.inner))] + Segments(s, sp.end)
    case None => if last < |s| then CurrentInline.Flat(Format(s[last..])) else []
  }

  /** `_process_inline_math_and_formatting(s)` of the older converter. */
  function InlineText(s: string): Formatted {
    Collapse(Segments(s, 0))
  }

  // ---------------------------------------------------------------------
  // The search for the next boundary: the minimum over all entries

  /** `min` of `n` and the starts in `starts` that are present. */
  function MinStart(n: nat, starts: seq<Option<nat>>): (m: nat)
    decreases |starts|
    ensures m <= n
  {
    if starts == [] then n else Smaller(MinStart(n, starts[..|starts| - 1]), starts[|starts| - 1])
  }

  /** `n`, or the start `m` when there is one and it is smaller. */
  function Smaller(n: nat, m: Option<nat>): (r: nat)
    ensures r <= n && (m.Some? ==> r <= m.value)
    ensures r == n || (m.Some? && r == m.value)
  {
    if m.Some? && m.value < n then m.value else n
  }

  /** The start each entry's `search` from `q` finds, in dictionary order. */
  function Starts(s: string, q: nat, table: seq<Pattern>): (r: seq<Option<nat>>)
    requires q <= |s| && WellFormedTable(table)
    ensures |r| == |table| && forall j :: 0 <= j < |table| ==> r[j] == Search(s, q, table[j])
  {
    seq(|table|, j requires 0 <= j < |table| => Search(s, q, table[j]))
  }

  /** A bound below `n` and every present start is a bound below the minimum. */
  lemma {:induction false} MinStartAtLeast(n: nat, starts: seq<Option<nat>>, b: nat)
    requires b <= n && forall j :: 0 <= j < |starts| && starts[j].Some? ==> b <= starts[j].value
    ensures b <= MinStart(n, starts)
    decreases |starts|
  {
    if starts != [] {
      MinStartAtLeast(n, starts[..|starts| - 1], b);
    }
  }

  /** The minimum is at most every present start. */
  lemma {:induction false} MinStartAtMost(n: nat, starts: seq<Option<nat>>, j: nat)
    requires j < |starts| && starts[j].Some?
    ensures MinStart(n, starts) <= starts[j].value
    decreases |starts|
  {
    if j < |starts| - 1 {
      MinStartAtMost(n, starts[..|starts| - 1], j);
    }
  }

  /** No entry matches between `q` and the nearest boundary. */
  lemma NoneBeforeBoundary(s: string, q: nat, table: seq<Pattern>, j: nat, i: nat)
    requires q <= |s| && WellFormedTable(table) && q <= i < NextIn(s, q, table) && j < |table|
    ensures PatternAt(s, i, table[j]).None?
  {
    assert FirstInTable(s, i, table, 0).None?;
  }

  /** An entry's search from `q` never stops before the nearest boundary. */
  lemma SearchAtLeast(s: string, q: nat, table: seq<Pattern>, j: nat)
    requires q <= |s| && WellFormedTable(table) && j < |table|
    ensures Search(s, q, table[j]).Some? ==> Search(s, q, table[j]).value >= NextIn(s, q, table)
  {
    var m := Search(s, q, table[j]);
    if m.Some? && m.value < NextIn(s, q, table) {
      NoneBeforeBoundary(s, q, table, j, m.value);
    }
  }

  /** The search finds the first position where the entry matches. */
  lemma SearchFindsFirst(s: string, q: nat, n: nat, p: Pattern)
    requires q <= n < |s| && WellFormedPattern(p) && PatternAt(s, n, p).Some?
    requires forall i :: q <= i < n ==> PatternAt(s, i, p).None?
    ensures Search(s, q, p) == Some(n)
  {
  }

  /** The minimum over all entries is the nearest position where some entry matches. */
  lemma EarliestIsNext(s: string, q: nat, table: seq<Pattern>)
    requires q <= |s| && WellFormedTable(table)
    ensures MinStart(|s|, Starts(s, q, table)) == NextIn(s, q, table)
  {
    var n := NextIn(s, q, table);
    var starts := Starts(s, q, table);
    forall j | 0 <= j < |starts| && starts[j].Some?
      ensures n <= starts[j].value
    {
      SearchAtLeast(s, q, table, j);
    }
    MinStartAtLeast(|s|, starts, n);
    if n < |s| {
      var h := FirstInTable(s, n, table, 0);
      var j :| 0 <= j < |table| && PatternAt(s, n, table[j]) == h;
      forall i | q <= i < n
        ensures PatternAt(s, i, table[j]).None?
      {
        NoneBeforeBoundary(s, q, table, j, i);
      }
      SearchFindsFirst(s, q, n, table[j]);
      MinStartAtMost(|s|, starts, j);
    }
  }

  // ---------------------------------------------------------------------
  // Steps of the specification

  lemma ScanPlainStep(s: string, pos: nat)
    requires pos < |s| && HitAt(s, pos).None?
    ensures Scan(s, pos) == [Plain(s[pos..NextStart(s, pos)])] + Scan(s, NextStart(s, pos))
  {
  }

  lemma ScanMatchStep(s: string, pos: nat, h: Hit)
    requires pos < |s| && HitAt(s, pos) == Some(h)
    ensures Scan(s, pos) == [Token(h)] + Scan(s, h.end)
  {
  }

  lemma SegmentsStep(s: string, last: nat, q: nat, sp: Span)
    requires last <= |s| && MathSearch(s, last) == Some((q, sp))
    ensures Segments(s, last) == (if q > last then CurrentInline.Flat(Format(s[last..q])) else [])
                                 + [Math(Strip(sp.inner))] + Segments(s, sp.end)
  {
  }

  lemma SegmentsRest(s: string, last: nat)
    requires last <= |s| && MathSearch(s, last).None?
    ensures Segments(s, last) == if last < |s| then CurrentInline.Flat(Format(s[last..])) else []
  {
  }

  // ---------------------------------------------------------------------
  // The loops of the source

  /** The loop over the dictionary at `pos`: the first entry whose search from `pos` starts at `pos`. */
  method MatchAt(text: string, pos: nat) returns (h: Option<Hit>)
    requires pos <= |text|
    ensures h == HitAt(text, pos)
  {
    LegacyPatternsWellFormed();
    h := None;
    var k := 0;
    while k < |LegacyPatterns| && h.None?
      invariant k <= |LegacyPatterns|
      invariant FirstInTable(text, pos, LegacyPatterns, 0) == if h.Some? then h else FirstInTable(text, pos, LegacyPatterns, k)
    {
      h := MatchHere(text, pos, LegacyPatterns[k]);
      k := k + 1;
    }
  }

  /** `m = pattern.search(text, pos)`, kept only when `m.start() == pos`. */
  method MatchHere(text: string, pos: nat, p: Pattern) returns (h: Option<Hit>)
    requires pos <= |text| && WellFormedPattern(p)
    ensures h == PatternAt(text, pos, p)
  {
    var m := Search(text, pos, p);
    SearchStartsAt(text, pos, p);
    h := if m == Some(pos) then PatternAt(text, pos, p) else None;
  }

  /** `min(next_positions) if next_positions else len(text)`, searching every entry from `pos`. */
  method EarliestSearch(text: string, pos: nat) returns (n: nat)
    requires pos <= |text|
    ensures WellFormedTable(LegacyPatterns) && n == MinStart(|text|, Starts(text, pos, LegacyPatterns))
  {
    LegacyPatternsWellFormed();
    ghost var starts := Starts(text, pos, LegacyPatterns);
    n := |text|;
    for k := 0 to |LegacyPatterns|
      invariant n == MinStart(|text|, starts[..k])
    {
      assert starts[..k + 1][..k] == starts[..k];
      var m := Search(text, pos, LegacyPatterns[k]);
      if m.Some? && m.value < n {
        n := m.value;
      }
    }
    assert starts[..|LegacyPatterns|] == starts;
  }

  /** Where the plain run starting at `pos` ends: the nearest position where some entry matches. */
  method NextPosition(text: string, pos: nat) returns (n: nat)
    requires pos <= |text|
    ensures n == NextStart(text, pos)
  {
    n := EarliestSearch(text, pos);
    EarliestIsNext(text, pos, LegacyPatterns);
  }

  /** One turn of the `pos` loop: a matched entry's token, or the plain run up to the next match. */
  method ScanStep(text: string, pos: nat) returns (run: Inline, next: nat)
    requires pos < |text|
    ensures pos < next <= |text| && Scan(text, pos) == [run] + Scan(text, next)
  {
    var h := MatchAt(text, pos);
    if h.Some? {
      run, next := Token(h.value), h.value.end;
      ScanMatchStep(text, pos, h.value);
    } else {
      next := NextPosition(text, pos);
      run := Plain(text[pos..next]);
      ScanPlainStep(text, pos);
    }
  }

  /** `_process_inline_formatting` of the older converter: the `pos` loop, then the filter. */
  method ProcessInlineFormatting(text: string) returns (r: Formatted)
    ensures r == Format(text)
  {
    if text == [] {
      return Single(Plain(""));
    }
    var tokens: seq<Inline> := [];
    var pos := 0;
    while pos < |text|
      invariant pos <= |text|
      invariant tokens + Scan(text, pos) == Scan(text, 0)
      decreases |text| - pos
    {
      var run, next := ScanStep(text, pos);
      ConcatAssoc(tokens, [run], Scan(text, next));
      tokens := tokens + [run];
      pos := next;
    }
    assert tokens + [] == tokens;
    r := Collapse(CurrentInline.RemoveEmpty(tokens));
  }

  /** `_process_inline_math_and_formatting` of the older converter: the `finditer` loop, flattening as it goes. */
  method ProcessInlineMathAndFormatting(text: string) returns (r: Formatted)
    ensures r == InlineText(text)
  {
    var flat: seq<Inline> := [];
    var last := 0;
    var m := MathSearch(text, 0);
    while m.Some?
      invariant last <= |text| && m == MathSearch(text, last)
      invariant flat + Segments(text, last) == Segments(text, 0)
      decreases |text| - last
    {
      var (q, sp) := m.value;
      SegmentsStep(text, last, q, sp);
      var seg: seq<Inline> := [];
      if q > last {
        var f := ProcessInlineFormatting(text[last..q]);
        seg := CurrentInline.Flat(f);
      }
      var math := [Math(Strip(sp.inner))];
      Regroup(flat, seg, math, Segments(text, sp.end));
      flat := flat + seg + math;
      last := sp.end;
      m := MathSearch(text, last);
    }
    SegmentsRest(text, last);
    if last < |text| {
      var f := ProcessInlineFormatting(text[last..]);
      flat := flat + CurrentInline.Flat(f);
    }
    r := Collapse(flat);
  }

  // ---------------------------------------------------------------------
  // Properties

  /** A run of the older engine: a non-empty string, or a dictionary with text and flags and no URL. */
  predicate LegacyRun(t: Inline) {
    (t.Plain? && t.text != []) || (t.Styled? && t.url.None?)
  }

  /** Every run the scan emits is a non-empty string or a dictionary without a URL. */
  lemma {:induction false} ScanRuns(s: string, pos: nat)
    requires pos <= |s|
    ensures forall k :: 0 <= k < |Scan(s, pos)| ==> LegacyRun(Scan(s, pos)[k])
    decreases |s| - pos
  {
    if pos < |s| {
      match HitAt(s, pos)
      case Some(h) =>
        ScanMatchStep(s, pos, h);
        ScanRuns(s, h.end);
      case None =>
        ScanPlainStep(s, pos);
        ScanRuns(s, NextStart(s, pos));
    }
  }

  /** The `t != ""` filter never removes a run: without it the result is the same. */
  lemma FilterKeepsAll(s: string)
    ensures Format(s) == if s == [] then Single(Plain("")) else Collapse(Scan(s, 0))
  {
    ScanRuns(s, 0);
  }

  /** Non-empty text never formats to the empty string. */
  lemma FormatNonEmpty(s: string)
    requires s != []
    ensures Format(s) != Single(Plain("")) && CurrentInline.Flat(Format(s)) != []
    ensures forall k :: 0 <= k < |CurrentInline.Flat(Format(s))| ==> LegacyRun(CurrentInline.Flat(Format(s))[k])
  {
    FilterKeepsAll(s);
    ScanRuns(s, 0);
    var h := HitAt(s, 0);
    if h.Some? {
      ScanMatchStep(s, 0, h.value);
    } else {
      ScanPlainStep(s, 0);
    }
  }

  /** A flattened segment: a run of the formatter, or a math node whose text is stripped. */
  predicate SegmentRun(t: Inline) {
    LegacyRun(t) || (t.Math? && t.text == Strip(t.text))
  }

  predicate SegmentRuns(ts: seq<Inline>) {
    forall k :: 0 <= k < |ts| ==> SegmentRun(ts[k])
  }

  lemma SegmentRunsJoin(a: seq<Inline>, b: seq<Inline>, c: seq<Inline>)
    requires SegmentRuns(a) && SegmentRuns(b) && SegmentRuns(c)
    ensures SegmentRuns(a + b + c)
  {
  }

  /** The runs of formatted text before or after a math match are segment runs. */
  lemma FlatSegmentRuns(s: string)
    ensures SegmentRuns(CurrentInline.Flat(Format(s)))
  {
    if s != [] {
      FormatNonEmpty(s);
    }
  }

  /** Every flattened segment is a non-empty string, a formatted run or a math node with stripped text. */
  lemma {:induction false} SegmentsRuns(s: string, last: nat)
    requires last <= |s|
    ensures SegmentRuns(Segments(s, last))
    decreases |s| - last
  {
    match MathSearch(s, last)
    case Some((q, sp)) =>
      SegmentsStep(s, last, q, sp);
      var before := if q > last then CurrentInline.Flat(Format(s[last..q])) else [];
      if q > last {
        FlatSegmentRuns(s[last..q]);
      }
      StripNoSpaceEnds(Strip(sp.inner));
      assert SegmentRun(Math(Strip(sp.inner)));
      SegmentsRuns(s, sp.end);
      SegmentRunsJoin(before, [Math(Strip(sp.inner))], Segments(s, sp.end));
    case None =>
      SegmentsRest(s, last);
      if last < |s| {
        FlatSegmentRuns(s[last..]);
      }
  }

  /** The math entry point returns the empty string exactly for the empty text. */
  lemma InlineTextEmpty(s: string)
    ensures InlineText(s) == Single(Plain("")) <==> s == []
  {
    SegmentsRuns(s, 0);
    match MathSearch(s, 0)
    case Some((q, sp)) =>
      SegmentsStep(s, 0, q, sp);
    case None =>
      SegmentsRest(s, 0);
      if s != [] {
        FormatNonEmpty(s[0..]);
      }
  }

  /** Without inline math, the math entry point returns what the formatter returns. */
  lemma NoMathIsFormat(s: string)
    requires MathSearch(s, 0).None?
    ensures InlineText(s) == Format(s)
  {
    SegmentsRest(s, 0);
    if s != [] {
      assert s[0..] == s;
      FormatNonEmpty(s);
      FilterKeepsAll(s);
    }
  }

  /** Nothing matches at a character no entry starts on. */
  lemma NoHitAtInert(s: string, q: nat)
    requires q < |s| && !Opener(s[q])
    ensures HitAt(s, q).None?
  {
  }

  /** Text with no markup character is one plain run, in both converters. */
  lemma PlainTextIsOneRun(s: string)
    requires s != [] && forall k :: 0 <= k < |s| ==> CurrentInline.Inert(s[k])
    ensures Format(s) == Single(Plain(s))
    ensures InlineText(s) == Single(Plain(s))
    ensures InlineText(s) == CurrentInline.InlineText(s)
  {
    forall q | 0 <= q < |s| ensures HitAt(s, q).None? {
      NoHitAtInert(s, q);
    }
    assert NextStart(s, 0) == |s|;
    ScanPlainStep(s, 0);
    assert s[0..|s|] == s;
    assert forall q :: 0 <= q <= |s| ==> MathAt(s, q).None?;
    NoMathIsFormat(s);
    CurrentInline.PlainTextIsOneRun(s);
  }
}
