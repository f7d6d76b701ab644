/**
 * The inline engine of the current converter
 * (`_process_inline_formatting` and `_process_inline_math_and_formatting`):
 * a left-to-right scan that at each position tries inline math, then a
 * `[ref:...]` marker, then the decoration table in order, recursing into the
 * text a decoration encloses; characters that start no match are gathered
 * into a plain run up to the next position where something matches.
 */
module CurrentInline {
  import opened Wrappers
  import opened Text
  import opened Nodes
  import opened InlineSyntax

  lemma CurrentPatternsWellFormed()
    ensures forall j :: 0 <= j < |CurrentPatterns| ==> WellFormedPattern(CurrentPatterns[j])
  {
  }

  /** The match taken at `pos`: inline math first, then a reference, then the decoration table. */
  function HitAt(s: string, pos: nat): (r: Option<Hit>)
    ensures r.Some? ==> pos < r.value.end <= |s|
    ensures r.Some? && r.value.DecorationHit? ==> 1 <= |r.value.inner| < |s|
    ensures r.Some? ==> s[pos] == '$' || Opener(s[pos])
  {
    CurrentPatternsWellFormed();
    match MathAt(s, pos)
    case Some(m) => Some(MathHit(m.inner, m.end))
    case None =>
      match RefAt(s, pos)
      case Some(rm) => Some(RefHit(rm.ref, rm.labelText, rm.end))
      case None => FirstInTable(s, pos, CurrentPatterns, 0)
  }

  /** The nearest position at or after `q` where any pattern matches, or the end of the text. */
  function NextBoundary(s: string, q: nat): (n: nat)
    requires q <= |s|
    decreases |s| - q
    ensures q <= n <= |s| && (n < |s| ==> HitAt(s, n).Some?)
    ensures forall j :: q <= j < n ==> HitAt(s, j).None?
  {
    if q == |s| || HitAt(s, q).Some? then q else NextBoundary(s, q + 1)
  }

  /** The flags a run carries, for the runs that can carry them. */
  predicate Carries(t: Inline, f: Flags) {
    match t
    case Styled(g, _, _) => Covers(g, f)
    case Equation(g, _) => Covers(g, f)
    case Reference(g, _) => Covers(g, f)
    case CrossReference(g, _, _) => Covers(g, f)
    case _ => false
  }

  /** One run of a decorated span: a string becomes `{**flag, "text": t}`, a dictionary gains the flags. */
  function Decorated(f: Flags, t: Inline): Inline {
    match t
    case Plain(x) => Styled(f, x, None)
    case Styled(g, x, u) => Styled(Union(f, g), x, u)
    case Equation(g, e) => Equation(Union(f, g), e)
    case Reference(g, x) => Reference(Union(f, g), x)
    case CrossReference(g, x, l) => CrossReference(Union(f, g), x, l)
    case Math(_) => t        // not produced by this engine
    case Footnote(_) => t    // not produced by this engine
  }

  /** Every run of a decorated span carries the decoration's flags and keeps its own. */
  function Decorate(f: Flags, runs: seq<Inline>): (r: seq<Inline>)
    ensures |r| == |runs|
    ensures forall k :: 0 <= k < |r| ==> !r[k].Plain? && (EngineRun(runs[k]) ==> EngineRun(r[k]))
    ensures forall k :: 0 <= k < |r| && EngineRun(runs[k]) ==> Carries(r[k], f)
    ensures forall k :: 0 <= k < |r| && EngineRun(runs[k]) && !runs[k].Plain? ==> Carries(r[k], FlagsOf(runs[k]))
  {
    seq(|runs|, k requires 0 <= k < |runs| => Decorated(f, runs[k]))
  }

  function FlagsOf(t: Inline): Flags {
    match t
    case Styled(g, _, _) => g
    case Equation(g, _) => g
    case Reference(g, _) => g
    case CrossReference(g, _, _) => g
    case _ => NoFlags
  }

  /** The runs of a result: a bare run is a list of one. */
  function Items(f: Formatted): seq<Inline> {
    match f
    case Single(t) => [t]
    case Several(ts) => ts
  }

  /** `[t for t in tokens if t != ""]`. */
  function RemoveEmpty(ts: seq<Inline>): (r: seq<Inline>)
    ensures forall k :: 0 <= k < |r| ==> r[k] != Plain("")
    ensures |r| <= |ts|
    ensures (forall k :: 0 <= k < |ts| ==> ts[k] != Plain("")) ==> r == ts
  {
    if ts == [] then []
    else if ts[0] == Plain("") then RemoveEmpty(ts[1..])
    else [ts[0]] + RemoveEmpty(ts[1..])
  }

  /** A one-element result is returned bare. */
  function Bare(ts: seq<Inline>): (r: Formatted)
    ensures r.Several? ==> |r.runs| != 1 && r.runs == ts
    ensures r.Single? ==> ts == [r.run]
  {
    if |ts| == 1 then Single(ts[0]) else Several(ts)
  }

  /** A run produced by this engine is never a math or footnote node. */
  predicate EngineRun(t: Inline) {
    !t.Math? && !t.Footnote?
  }

  /** The single run a math, reference or hyperlink match becomes. */
  function HitRun(h: Hit): Inline
    requires !h.DecorationHit?
  {
    match h
    case MathHit(inner, _) => Equation(NoFlags, Strip(inner))
    case RefHit(id, l, _) => if l.Some? then CrossReference(NoFlags, id, l.value) else Reference(NoFlags, id)
    case LinkHit(t, u, _) => Styled(NoFlags, t, Some(u))
  }

  /** The runs the scan emits from `pos` on. */
  function Scan(s: string, pos: nat): (r: seq<Inline>)
    requires pos <= |s|
    decreases |s|, 0, |s| - pos
  {
    if pos == |s| then []
    else
      var h := HitAt(s, pos);
      if h.None? then
        var n := NextBoundary(s, pos);
        [Plain(s[pos..n])] + Scan(s, n)
      else if h.value.DecorationHit? then
        Decorate(h.value.flags, Items(Format(h.value.inner))) + Scan(s, h.value.end)
      else [HitRun(h.value)] + Scan(s, h.value.end)
  }

  /** `_process_inline_formatting(s)`. */
  function Format(s: string): (r: Formatted)
    decreases |s|, 1, 0
    ensures r.Single? ==> r.run != Plain("")
    ensures r.Several? ==> |r.runs| != 1 && forall k :: 0 <= k < |r.runs| ==> r.runs[k] != Plain("")
  {
    Bare(RemoveEmpty(Scan(s, 0)))
  }

  /** How one segment enters the flattened list: a list is spliced in, a bare run appended unless it is the empty string. */
  function Flat(f: Formatted): seq<Inline> {
    match f
    case Single(t) => if t == Plain("") then [] else [t]
    case Several(ts) => ts
  }

  /** The flattened segments from `last` on: formatted text between inline-math matches, and the equations. */
  function Segments(s: string, last: nat): seq<Inline>
    requires last <= |s|
    decreases |s| - last
  {
    match MathSearch(s, last)
    case Some((q, sp)) =>
      (if q > last then Flat(Format(s[last..q])) else []) + [Equation(NoFlags, Strip(sp.inner))] + Segments(s, sp.end)
    case None => if last < |s| then Flat(Format(s[last..])) else []
  }

  /** `_process_inline_math_and_formatting(s)`: the empty string, one bare run, or a list of at least two. */
  function InlineText(s: string): (r: Formatted) {
    var flat := Segments(s, 0);
    if flat == [] then Single(Plain("")) else Bare(flat)
  }

  /** `_maybe_listify`: a one-element list becomes its element; anything else is returned as it is. */
  function MaybeListify(f: Formatted): (r: Formatted)
    ensures f.Several? && |f.runs| == 1 ==> r == Single(f.runs[0])
    ensures !(f.Several? && |f.runs| == 1) ==> r == f
  {
    if f.Several? && |f.runs| == 1 then Single(f.runs[0]) else f
  }

  lemma FormatIsScan(s: string)
    ensures Format(s) == Bare(RemoveEmpty(Scan(s, 0)))
  {
  }

  /** One step of the scan at a position where nothing matches. */
  lemma ScanPlainStep(s: string, pos: nat)
    requires pos < |s| && HitAt(s, pos).None?
    ensures Scan(s, pos) == [Plain(s[pos..NextBoundary(s, pos)])] + Scan(s, NextBoundary(s, pos))
  {
  }

  /** One step of the scan at a decoration. */
  lemma ScanDecorationStep(s: string, pos: nat, h: Hit)
    requires pos < |s| && HitAt(s, pos) == Some(h) && h.DecorationHit?
    ensures Scan(s, pos) == Decorate(h.flags, Items(Format(h.inner))) + Scan(s, h.end)
  {
  }

  /** One step of the scan at a math, reference or hyperlink match. */
  lemma ScanRunStep(s: string, pos: nat, h: Hit)
    requires pos < |s| && HitAt(s, pos) == Some(h) && !h.DecorationHit?
    ensures Scan(s, pos) == [HitRun(h)] + Scan(s, h.end)
  {
  }

  /** One step of the segment split at an inline-math match. */
  lemma SegmentsStep(s: string, last: nat, q: nat, sp: Span)
    requires last <= |s| && MathSearch(s, last) == Some((q, sp))
    ensures Segments(s, last) == (if q > last then Flat(Format(s[last..q])) else [])
                                 + [Equation(NoFlags, Strip(sp.inner))] + Segments(s, sp.end)
  {
  }

  /** The segment split once no inline math is left. */
  lemma SegmentsRest(s: string, last: nat)
    requires last <= |s| && MathSearch(s, last).None?
    ensures Segments(s, last) == if last < |s| then Flat(Format(s[last..])) else []
  {
  }

  // ---------------------------------------------------------------------
  // The loops of the source

  /** One turn of the `pos` loop up to the decision: math, then a reference, then the table in order. */
  method MatchAt(text: string, pos: nat) returns (h: Option<Hit>)
    ensures h == HitAt(text, pos)
  {
    var math := MathAt(text, pos);
    if math.Some? {
      return Some(MathHit(math.value.inner, math.value.end));
    }
    var ref := RefAt(text, pos);
    if ref.Some? {
      return Some(RefHit(ref.value.ref, ref.value.labelText, ref.value.end));
    }
    CurrentPatternsWellFormed();
    h := None;
    var k := 0;
    while k < |CurrentPatterns| && h.None?
      invariant k <= |CurrentPatterns|
      invariant FirstInTable(text, pos, CurrentPatterns, 0) == if h.Some? then h else FirstInTable(text, pos, CurrentPatterns, k)
    {
      h := PatternAt(text, pos, CurrentPatterns[k]);
      k := k + 1;
    }
  }

  /** One turn of the `pos` loop: the runs it appends and where it moves `pos`. */
  method Step(text: string, pos: nat) returns (runs: seq<Inline>, next: nat)
    requires pos < |text|
    ensures pos < next <= |text|
    ensures runs + Scan(text, next) == Scan(text, pos)
    decreases |text|, 0
  {
    var h := MatchAt(text, pos);
    if h.None? {
      next := NextBoundary(text, pos);
      runs := [Plain(text[pos..next])];
      ScanPlainStep(text, pos);
    } else if h.value.DecorationHit? {
      var inner := ProcessInlineFormatting(h.value.inner);
      runs := Decorate(h.value.flags, Items(inner));
      next := h.value.end;
      ScanDecorationStep(text, pos, h.value);
    } else {
      runs := [HitRun(h.value)];
      next := h.value.end;
      ScanRunStep(text, pos, h.value);
    }
  }

  /** `_process_inline_formatting`: the `pos` loop, recursing into decorated text. */
  method ProcessInlineFormatting(text: string) returns (r: Formatted)
    ensures r == Format(text)
    decreases |text|, 1
  {
    var tokens: seq<Inline> := [];
    var pos := 0;
    while pos < |text|
      invariant pos <= |text|
      invariant tokens + Scan(text, pos) == Scan(text, 0)
      decreases |text| - pos
    {
      var runs, next := Step(text, pos);
      Regroup(tokens, runs, [], Scan(text, next));
      tokens := tokens + runs;
      pos := next;
    }
    assert tokens + [] == tokens;
    FormatIsScan(text);
    r := Bare(RemoveEmpty(tokens));
  }

  /** `_process_inline_math_and_formatting`: the `finditer` loop over inline math, flattening as it goes. */
  method ProcessInlineMath(text: string) returns (r: Formatted)
    ensures r == InlineText(text)
  {
    var flat: seq<Inline> := [];
    var last := 0;
    var m := MathSearch(text, 0);
    while m.Some?
      invariant last <= |text| && m == MathSearch(text, last)
      invariant flat + Segments(text, last) == Segments(text, 0)
      decreases |text| - last
    {
      var (q, sp) := m.value;
      SegmentsStep(text, last, q, sp);
      var seg: seq<Inline> := [];
      if q > last {
        var f := ProcessInlineFormatting(text[last..q]);
        seg := Flat(f);
      }
      var eq := [Equation(NoFlags, Strip(sp.inner))];
      Regroup(flat, seg, eq, Segments(text, sp.end));
      flat := flat + seg + eq;
      last := sp.end;
      m := MathSearch(text, last);
    }
    SegmentsRest(text, last);
    if last < |text| {
      var f := ProcessInlineFormatting(text[last..]);
      flat := flat + Flat(f);
    }
    r := if flat == [] then Single(Plain("")) else Bare(flat);
  }

  // ---------------------------------------------------------------------
  // Properties

  /** Every run the scan emits is a non-empty string or a dictionary, never a math or footnote node. */
  lemma {:induction false} ScanRuns(s: string, pos: nat)
    requires pos <= |s|
    ensures forall k :: 0 <= k < |Scan(s, pos)| ==> Scan(s, pos)[k] != Plain("") && EngineRun(Scan(s, pos)[k])
    decreases |s|, 0, |s| - pos
  {
    if pos < |s| {
      var h := HitAt(s, pos);
      if h.None? {
        ScanPlainStep(s, pos);
        ScanRuns(s, NextBoundary(s, pos));
      } else if h.value.DecorationHit? {
        FormatRuns(h.value.inner);
        ScanDecorationStep(s, pos, h.value);
        ScanRuns(s, h.value.end);
      } else {
        ScanRunStep(s, pos, h.value);
        ScanRuns(s, h.value.end);
      }
    }
  }

  lemma {:induction false} FormatRuns(s: string)
    ensures forall k :: 0 <= k < |Items(Format(s))| ==> EngineRun(Items(Format(s))[k])
    decreases |s|, 1, 0
  {
    ScanRuns(s, 0);
    FormatIsScan(s);
  }

  /** The source's `t != ""` filter never removes anything: the scan emits no empty run. */
  lemma EmptyFilterKeepsAll(s: string)
    ensures Format(s) == Bare(Scan(s, 0))
  {
    ScanRuns(s, 0);
    FormatIsScan(s);
  }

  /** From any position short of the end the scan emits at least one run. */
  lemma {:induction false} ScanNonEmpty(s: string, pos: nat)
    requires pos < |s|
    ensures Scan(s, pos) != []
    decreases |s|, 0
  {
    var h := HitAt(s, pos);
    if h.None? {
      ScanPlainStep(s, pos);
    } else if h.value.DecorationHit? {
      FormatNonEmpty(h.value.inner);
      ScanDecorationStep(s, pos, h.value);
    } else {
      ScanRunStep(s, pos, h.value);
    }
  }

  /** Non-empty text never formats to the empty list. */
  lemma {:induction false} FormatNonEmpty(s: string)
    requires s != []
    ensures Items(Format(s)) != []
    decreases |s|, 1
  {
    ScanNonEmpty(s, 0);
    EmptyFilterKeepsAll(s);
  }

  /** The runs of a decorated span open the scan at that point, and each carries the decoration's flags. */
  lemma DecorationAddsFlags(s: string, pos: nat, f: Flags, inner: string, e: nat)
    requires pos < |s| && HitAt(s, pos) == Some(DecorationHit(f, inner, e))
    ensures |Items(Format(inner))| <= |Scan(s, pos)|
    ensures forall k :: 0 <= k < |Items(Format(inner))| ==>
              Carries(Scan(s, pos)[k], f) && (!Items(Format(inner))[k].Plain? ==> Carries(Scan(s, pos)[k], FlagsOf(Items(Format(inner))[k])))
  {
    FormatRuns(inner);
    ScanDecorationStep(s, pos, DecorationHit(f, inner, e));
    var d := Decorate(f, Items(Format(inner)));
    assert Scan(s, pos)[..|d|] == d;
  }

  /** A character no pattern starts on. */
  predicate Inert(c: char) {
    c != '$' && !Opener(c)
  }

  /** Nothing matches at an inert character. */
  lemma NoHitAtInert(s: string, q: nat)
    requires q < |s| && Inert(s[q])
    ensures HitAt(s, q).None?
  {
  }

  lemma BoundaryAtEnd(s: string)
    requires forall q :: 0 <= q < |s| ==> HitAt(s, q).None?
    ensures NextBoundary(s, 0) == |s| && Scan(s, |s|) == []
  {
  }

  lemma PlainScan(s: string)
    requires s != [] && forall k :: 0 <= k < |s| ==> Inert(s[k])
    ensures Scan(s, 0) == [Plain(s)]
  {
    forall q | 0 <= q < |s| ensures HitAt(s, q).None? {
      NoHitAtInert(s, q);
    }
    BoundaryAtEnd(s);
    ScanPlainStep(s, 0);
    assert s[0..|s|] == s;
  }

  /** Text with no markup character is one plain run, whichever entry point formats it. */
  lemma PlainTextIsOneRun(s: string)
    requires s != [] && forall k :: 0 <= k < |s| ==> Inert(s[k])
    ensures Format(s) == Single(Plain(s))
    ensures InlineText(s) == Single(Plain(s))
  {
    PlainScan(s);
    FormatIsScan(s);
    assert forall q :: 0 <= q <= |s| ==> MathAt(s, q).None?;
    assert MathSearch(s, 0).None?;
    SegmentsRest(s, 0);
    assert s[0..] == s;
  }

  /** Without inline math, the math entry point returns what the formatter returns (the empty string for empty text). */
  lemma NoMathIsFormat(s: string)
    requires MathSearch(s, 0).None?
    ensures InlineText(s) == if s == [] then Single(Plain("")) else Format(s)
  {
    SegmentsRest(s, 0);
    if s != [] {
      assert s[0..] == s;
      FormatNonEmpty(s);
    }
  }

  /** `_maybe_listify` changes nothing the math entry point returns: it never returns a list of one. */
  lemma ListifyIsIdentity(s: string)
    ensures MaybeListify(InlineText(s)) == InlineText(s)
  {
  }

  /** A reference id: at least one character, none of them ']' or whitespace. */
  predicate RefId(id: string) {
    id != [] && forall k :: 0 <= k < |id| ==> id[k] != ']' && !IsSpace(id[k])
  }

  /** A label: at least one character, none of them ']'. */
  predicate LabelText(l: string) {
    l != [] && forall k :: 0 <= k < |l| ==> l[k] != ']'
  }

  /** The greedy id run stops exactly where the id does. */
  lemma RefIdEndAfter(s: string, id: string, a: nat)
    requires RefId(id) && a + |id| < |s| && s[a..a + |id|] == id && (s[a + |id|] == ']' || IsSpace(s[a + |id|]))
    ensures RefIdEnd(s, a) == a + |id|
  {
    assert forall k :: a <= k < a + |id| ==> s[k] == id[k - a];
  }

  /** `[ref:ID]` on its own formats to one reference run. */
  lemma ReferenceMarker(id: string)
    requires RefId(id)
    ensures Format("[ref:" + id + "]") == Single(Reference(NoFlags, id))
  {
    var s := "[ref:" + id + "]";
    assert s[5..5 + |id|] == id;
    RefIdEndAfter(s, id, 5);
    assert s[..5] == "[ref:";
    assert RefAt(s, 0) == Some(RefMatch(id, None, |s|));
    assert HitAt(s, 0) == Some(RefHit(id, None, |s|));
    ScanRunStep(s, 0, RefHit(id, None, |s|));
    FormatIsScan(s);
  }

  /** `[ref:ID label=TEXT]` on its own formats to one cross-reference run carrying the label. */
  lemma CrossReferenceMarker(id: string, l: string)
    requires RefId(id) && LabelText(l)
    ensures Format("[ref:" + id + " label=" + l + "]") == Single(CrossReference(NoFlags, id, l))
  {
    var s := "[ref:" + id + " label=" + l + "]";
    LabelledRefAt(id, l);
    ScanRunStep(s, 0, RefHit(id, Some(l), |s|));
    FormatIsScan(s);
  }

  lemma LabelledRefAt(id: string, l: string)
    requires RefId(id) && LabelText(l)
    ensures RefAt("[ref:" + id + " label=" + l + "]", 0) == Some(RefMatch(id, Some(l), 13 + |id| + |l|))
  {
    var s := "[ref:" + id + " label=" + l + "]";
    var b := 5 + |id|;
    assert s[5..b] == id;
    RefIdEndAfter(s, id, 5);
    assert s[b] == ' ' && s[b + 1] == 'l';
    assert SkipSpaces(s, b) == b + 1;
    assert s[b + 1..b + 7] == "label=";
    assert s[b + 7..|s| - 1] == l && s[|s| - 1] == ']';
    assert forall k :: b + 7 <= k < |s| - 1 ==> s[k] == l[k - b - 7];
    assert BracketFrom(s, b + 7) == |s| - 1;
    assert s[..5] == "[ref:";
  }
}
