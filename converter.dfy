/**
 * `MarkdownToPapermill.convert`: the text is normalised, its footnotes are
 * taken out, and the split lines are read by one loop that hands each kind
 * of block to its builder. The loop keeps a buffer of plain text lines (the
 * paragraph being collected) and a count of consecutive blank lines; every
 * third blank line in a row becomes a page break.
 *
 * `Run` is the specification of that loop: the blocks produced from line `i`
 * on, given the buffer and the blank-line count at that point, or the error
 * of the first image whose file is missing.
 */
module CurrentConverter {
  import opened Wrappers
  import opened Text
  import opened Host
  import opened Patterns
  import opened Nodes
  import opened Normalize
  import opened Footnotes
  import opened CurrentBlocks

  /** What the main loop reads and never changes. */
  datatype Context = Context(host: Host, lines: seq<string>, footnotes: map<string, string>, numbered: bool)

  /**
   * A line the caption pre-pass marks to be skipped: a table or figure label
   * at the start of the stripped line. The patterns only look forward from
   * the first non-blank character, so the test is made there
   * (`CaptionLikeIsStripped` shows it is the test on the stripped line).
   */
  predicate CaptionLike(line: string) {
    var a := SkipSpaces(line, 0);
    IsTableCaption(line[a..]) || IsFigureCaption(line[a..])
  }

  /** No digit can be reached when only whitespace is left. */
  lemma {:induction false} NoDigitInSpaces(t: string, j: nat)
    requires j <= |t| && forall k :: j <= k < |t| ==> IsSpace(t[k])
    ensures !DigitAfterSpaces(t, j)
    decreases |t| - j
  {
    if j < |t| {
      NoDigitInSpaces(t, j + 1);
    }
  }

  /** Trailing whitespace does not change whether `\s*\d` matches. */
  lemma {:induction false} DigitIgnoresTrailing(t: string, n: nat, j: nat)
    requires j <= n <= |t| && forall k :: n <= k < |t| ==> IsSpace(t[k])
    ensures DigitAfterSpaces(t, j) <==> DigitAfterSpaces(t[..n], j)
    decreases n - j
  {
    if j == n {
      NoDigitInSpaces(t, j);
    } else {
      assert t[..n][j] == t[j];
      DigitIgnoresTrailing(t, n, j + 1);
    }
  }

  lemma SpaceIsNoLetter(c: char, d: char)
    requires IsSpace(c) && 'a' <= d <= 'z'
    ensures LowerAscii(c) != d
  {
  }

  /** Trailing whitespace does not change whether a caption label matches. */
  lemma LabelIgnoresTrailing(t: string, n: nat, w: string)
    requires n <= |t| && forall k :: n <= k < |t| ==> IsSpace(t[k])
    requires forall k :: 0 <= k < |w| ==> 'a' <= w[k] <= 'z'
    ensures LabelledNumber(t, w) <==> LabelledNumber(t[..n], w)
  {
    var u := t[..n];
    StartsWithCIChars(t, w);
    StartsWithCIChars(u, w);
    if StartsWithCI(t, w) && |w| > n {
      SpaceIsNoLetter(t[n], w[n]);
      assert false;
    }
    if StartsWithCI(t, w) || StartsWithCI(u, w) {
      assert |w| <= n;
      assert forall k :: 0 <= k < |w| ==> u[k] == t[k];
      var i := |w|;
      var j := if i < |t| && t[i] == '.' then i + 1 else i;
      assert j == if i < |u| && u[i] == '.' then i + 1 else i;
      DigitIgnoresTrailing(t, n, j);
    }
  }

  lemma CaptionIgnoresTrailing(t: string, n: nat)
    requires n <= |t| && forall k :: n <= k < |t| ==> IsSpace(t[k])
    ensures IsTableCaption(t) || IsFigureCaption(t) <==> IsTableCaption(t[..n]) || IsFigureCaption(t[..n])
  {
    LabelIgnoresTrailing(t, n, "table");
    LabelIgnoresTrailing(t, n, "tab");
    LabelIgnoresTrailing(t, n, "figure");
    LabelIgnoresTrailing(t, n, "fig");
  }

  /** The stripped line runs from the first non-blank character to just after the last one. */
  lemma StripFromFirst(line: string, a: nat, b: nat)
    requires a == SkipSpaces(line, 0) && b == TrimEnd(line, |line|)
    ensures a < |line| ==> a < b && Strip(line) == line[a..b]
    ensures a == |line| ==> Strip(line) == []
  {
    StripSlice(line, a, b);
    if a < |line| {
      assert !IsSpace(line[a]);
    }
  }

  /** Whitespace after `b` is still whitespace once the string starts at `a`. */
  lemma SpacesAfter(line: string, a: nat, b: nat)
    requires a <= b <= |line| && forall k :: b <= k < |line| ==> IsSpace(line[k])
    ensures forall k :: b - a <= k < |line[a..]| ==> IsSpace(line[a..][k])
  {
    forall k | b - a <= k < |line[a..]|
      ensures IsSpace(line[a..][k])
    {
      assert line[a..][k] == line[a + k];
    }
  }

  /** The caption test made at the first non-blank character is the test on the stripped line. */
  lemma CaptionLikeIsStripped(line: string)
    ensures CaptionLike(line) <==> IsTableCaption(Strip(line)) || IsFigureCaption(Strip(line))
  {
    var a := SkipSpaces(line, 0);
    var b := TrimEnd(line, |line|);
    StripFromFirst(line, a, b);
    if a < |line| {
      CaptionOfSlice(line, a, b);
    } else {
      assert line[a..] == [];
    }
  }

  /** Cutting the trailing whitespace off `line[a..]` keeps the caption test. */
  lemma CaptionOfSlice(line: string, a: nat, b: nat)
    requires a <= b <= |line| && forall k :: b <= k < |line| ==> IsSpace(line[k])
    ensures IsTableCaption(line[a..]) || IsFigureCaption(line[a..]) <==> IsTableCaption(line[a..b]) || IsFigureCaption(line[a..b])
  {
    var t := line[a..];
    assert t[..b - a] == line[a..b];
    SpacesAfter(line, a, b);
    CaptionIgnoresTrailing(t, b - a);
  }

  /** A line that closes a fenced block: `$$` alone for maths, a "```" prefix for code. */
  predicate Closes(line: string, math: bool) {
    if math then IsMathFence(Strip(line)) else IsCodeFence(Strip(line))
  }

  /** The first line at or after `i` that closes the fenced block, or the number of lines. */
  function FenceEnd(lines: seq<string>, i: nat, math: bool): (j: nat)
    requires i <= |lines|
    decreases |lines| - i
    ensures i <= j <= |lines|
    ensures j < |lines| ==> Closes(lines[j], math)
    ensures forall k :: i <= k < j ==> !Closes(lines[k], math)
  {
    if i == |lines| || Closes(lines[i], math) then i else FenceEnd(lines, i + 1, math)
  }

  /** The block of a display equation: the stripped body, or nothing when it is blank. */
  function EquationOf(body: seq<string>): (r: seq<Block>)
    ensures |r| <= 1 && forall k :: 0 <= k < |r| ==> r[k].EquationBlock? && r[k].equation != []
  {
    var eq := Strip(Join("\n", body));
    if eq == [] then [] else [EquationBlock(eq)]
  }

  /**
   * What the loop hands to a block builder at each point it appends to the
   * result. The loop itself only decides which lines make which block;
   * `Build` is the builder call.
   */
  datatype Piece =
    | ParagraphLines(texts: seq<string>)   // the buffer, sent joined by a space
    | HeadingLine(line: string)            // a stripped heading line
    | ListLines(start: nat)                // a list whose first item is line `start`
    | ImageLine(line: string)              // a stripped image line
    | TableLines(start: nat)               // a table looked for from line `start`
    | MathBody(body: seq<string>)          // the lines between `$$` fences
    | CodeBody(body: seq<string>)          // the lines between code fences
    | PageBreak

  /** `if buffer:` the buffered lines become a paragraph. */
  function Flush(buffer: seq<string>): (r: seq<Piece>)
    ensures |r| <= 1 && (r == [] <==> buffer == []) && (r != [] ==> r[0] == ParagraphLines(buffer))
  {
    if buffer == [] then [] else [ParagraphLines(buffer)]
  }

  /** What one pass of the loop does: append pieces and continue from a new state, or raise. */
  datatype Outcome =
    | Continue(out: seq<Piece>, next: nat, buffer: seq<string>, ec: nat)
    | Raise(error: string)

  /** The fenced block opened at line `i`, and the index after its closing line. */
  function FenceAt(lines: seq<string>, i: nat, math: bool): (r: (Piece, nat))
    requires i < |lines|
    ensures i < r.1 <= |lines| + 1
  {
    var j := FenceEnd(lines, i + 1, math);
    var body := lines[i + 1..j];
    (if math then MathBody(body) else CodeBody(body), j + 1)
  }

  /** A pass on a line that opens a fenced block: the buffer is flushed and the loop resumes after the closing line. */
  function FenceStepAt(c: Context, i: nat, buffer: seq<string>, math: bool): (r: Outcome)
    requires i < |c.lines|
    ensures r.Continue? && i < r.next <= |c.lines| + 1 && r.buffer == [] && r.ec == 0
  {
    var (piece, next) := FenceAt(c.lines, i, math);
    Continue(Flush(buffer) + [piece], next, [], 0)
  }

  /** A pass on a non-blank line that is neither a fence nor a caption; `line` is the stripped line. */
  function BlockStepAt(c: Context, i: nat, buffer: seq<string>, line: string): (r: Outcome)
    requires i < |c.lines| && line == Strip(c.lines[i]) && line != []
    ensures r.Continue? ==> i < r.next <= |c.lines| && r.ec == 0
  {
    if HeadingAt(line).Some? then
      Continue(Flush(buffer) + [HeadingLine(line)], i + 1, [], 0)
    else if ListMarkerAt(line).Some? then
      FirstLineIsItem(line);
      Continue(Flush(buffer) + [ListLines(i)], ListEnd(c.lines, i, NumberedStyle(line)), [], 0)
    else if StartsWith(line, "![") then
      match ImageTarget(c.host, line)
      case Failure(e) => Raise(e)
      case Success(_) => Continue(Flush(buffer) + [ImageLine(line)], i + 1, [], 0)
    else if StartsWith(line, "|") then
      Continue(Flush(buffer) + [TableLines(i)], TableNext(c.lines, i), [], 0)
    else Continue([], i + 1, buffer + [line], 0)
  }

  /**
   * One pass of the loop at line `i`, in the order the loop tries things:
   * fences, skipped captions, blank lines (every third in a row is a page
   * break), then the block kinds.
   */
  function StepAt(c: Context, i: nat, buffer: seq<string>, ec: nat): (r: Outcome)
    requires i < |c.lines|
    ensures r.Continue? ==> i < r.next <= |c.lines| + 1
  {
    var line := Strip(c.lines[i]);
    if IsMathFence(line) then FenceStepAt(c, i, buffer, true)
    else if IsCodeFence(line) then FenceStepAt(c, i, buffer, false)
    else if CaptionLike(c.lines[i]) then Continue([], i + 1, buffer, ec)
    else if line == [] then
      if ec + 1 >= 3 then Continue(Flush(buffer) + [PageBreak], i + 1, [], 0)
      else Continue(Flush(buffer), i + 1, [], ec + 1)
    else BlockStepAt(c, i, buffer, line)
  }

  /** The pieces `prefix` put in front of a result; an error passes through. */
  function Then<T>(prefix: seq<T>, r: Result<seq<T>, string>): (t: Result<seq<T>, string>)
    ensures t.Failure? <==> r.Failure?
    ensures t.Failure? ==> t.error == r.error
    ensures t.Success? ==> t.value == prefix + r.value
  {
    match r
    case Success(ps) => Success(prefix + ps)
    case Failure(e) => Failure(e)
  }

  /**
   * The main loop from line `i` with the given buffer and blank-line count,
   * and the final flush. A fence skips its closing line, so `i` may pass the
   * last line by one. Lemmas about the loop are stated on Run and take one
   * pass at a time through RunStep.
   */
  function Run(c: Context, i: nat, buffer: seq<string>, ec: nat): Result<seq<Piece>, string>
    requires i <= |c.lines| + 1
  {
    Loop(c, i, buffer, ec)
  }

  /** The loop itself: past the last line, the flush; otherwise one pass and the rest. */
  function Loop(c: Context, i: nat, buffer: seq<string>, ec: nat): Result<seq<Piece>, string>
    requires i <= |c.lines| + 1
    decreases |c.lines| + 1 - i, 1
  {
    if i >= |c.lines| then Success(Flush(buffer)) else LoopFrom(c, i, buffer, ec)
  }

  /** One pass at line `i`, then the rest of the loop. */
  function LoopFrom(c: Context, i: nat, buffer: seq<string>, ec: nat): Result<seq<Piece>, string>
    requires i < |c.lines|
    decreases |c.lines| + 1 - i, 0
  {
    match StepAt(c, i, buffer, ec)
    case Raise(e) => Failure(e)
    case Continue(out, next, buffer', ec') => Then(out, Loop(c, next, buffer', ec'))
  }

  // ---------------------------------------------------------------------
  // The builders

  /**
   * A piece as the loop hands it over: a paragraph of lines starting with a
   * non-empty one, a heading line, a list start on an item line, a table
   * start inside the text, an image whose file exists.
   */
  predicate Fits(c: Context, p: Piece) {
    match p
    case ParagraphLines(texts) => Filled(texts) && texts != []
    case HeadingLine(line) => HeadingAt(line).Some?
    case ListLines(s) => s < |c.lines| && ListMarkerAt(Strip(c.lines[s])).Some?
    case TableLines(s) => s < |c.lines|
    case ImageLine(line) => ImageTarget(c.host, line).Success?
    case _ => true
  }

  /** A paragraph buffer whose first line is not empty. */
  predicate Filled(buffer: seq<string>) {
    buffer == [] || buffer[0] != []
  }

  predicate AllFit(c: Context, ps: seq<Piece>) {
    forall k :: 0 <= k < |ps| ==> Fits(c, ps[k])
  }

  /**
   * The blocks a builder call appends to the result. A list or table start
   * past the text, or an image that raises, yields nothing here; RunFits
   * shows the loop never hands such a piece over.
   */
  function Build(c: Context, p: Piece): seq<Block> {
    match p
    case ParagraphLines(texts) => [ParagraphBlock(c.footnotes, Join(" ", texts))]
    case HeadingLine(line) => [HeadingBlock(line, c.numbered)]
    case ListLines(s) => if s < |c.lines| then [ListAt(c.lines, s).0] else []
    case ImageLine(line) => (match ImageBlock(c.host, line) case Success(b) => [b] case Failure(_) => [])
    case TableLines(s) => TableBlocks(c.lines, s)
    case MathBody(body) => EquationOf(body)
    case CodeBody(body) => [Code(Join("\n", body))]
    case PageBreak => [Break]
  }

  /** What `_process_table` appends: the table, or nothing when no table row follows the caption search. */
  function TableBlocks(lines: seq<string>, s: nat): seq<Block> {
    if s < |lines| then
      match TableAt(lines, s).0
      case Some(t) => [t]
      case None => []
    else []
  }

  /** The lists `f` gives for `xs`, one after the other. */
  function ConcatMap<T, U>(f: T -> seq<U>, xs: seq<T>): seq<U>
    decreases |xs|
  {
    if xs == [] then [] else ConcatMap(f, xs[..|xs| - 1]) + f(xs[|xs| - 1])
  }

  lemma {:induction false} ConcatMapAppend<T, U>(f: T -> seq<U>, a: seq<T>, b: seq<T>)
    ensures ConcatMap(f, a + b) == ConcatMap(f, a) + ConcatMap(f, b)
    decreases |b|
  {
    if b != [] {
      var b' := b[..|b| - 1];
      assert (a + b)[..|a + b| - 1] == a + b';
      ConcatMapAppend(f, a, b');
    } else {
      assert a + b == a;
    }
  }

  /** The blocks of a list of pieces, in order. */
  function BuildAll(c: Context, ps: seq<Piece>): seq<Block> {
    ConcatMap(p => Build(c, p), ps)
  }

  lemma BuildAllAppend(c: Context, a: seq<Piece>, b: seq<Piece>)
    ensures BuildAll(c, a + b) == BuildAll(c, a) + BuildAll(c, b)
  {
    ConcatMapAppend(p => Build(c, p), a, b);
  }

  /** Every piece the loop hands over is one its builder accepts. */
  lemma {:induction false} RunFits(c: Context, i: nat, buffer: seq<string>, ec: nat)
    requires i <= |c.lines| + 1 && Filled(buffer)
    ensures Run(c, i, buffer, ec).Success? ==> AllFit(c, Run(c, i, buffer, ec).value)
    decreases |c.lines| + 1 - i
  {
    if i < |c.lines| {
      var o := StepAt(c, i, buffer, ec);
      if o.Continue? {
        RunStep(c, i, buffer, ec);
        StepFits(c, i, buffer, ec);
        RunFits(c, o.next, o.buffer, o.ec);
        AllFitAppend(c, o.out, Run(c, o.next, o.buffer, o.ec));
      } else {
        RunRaises(c, i, buffer, ec);
      }
    } else {
      RunAtEnd(c, i, buffer, ec);
      FlushFits(c, buffer);
    }
  }

  lemma AllFitAppend(c: Context, out: seq<Piece>, r: Result<seq<Piece>, string>)
    requires AllFit(c, out) && (r.Success? ==> AllFit(c, r.value))
    ensures Then(out, r).Success? ==> AllFit(c, Then(out, r).value)
  {
  }

  /** One pass hands over fitting pieces and keeps the buffer filled. */
  lemma StepFits(c: Context, i: nat, buffer: seq<string>, ec: nat)
    requires i < |c.lines| && StepAt(c, i, buffer, ec).Continue? && Filled(buffer)
    ensures AllFit(c, StepAt(c, i, buffer, ec).out) && Filled(StepAt(c, i, buffer, ec).buffer)
  {
    var line := Strip(c.lines[i]);
    if IsMathFence(line) {
      FlushThenFits(c, buffer, FenceAt(c.lines, i, true).0);
    } else if IsCodeFence(line) {
      FlushThenFits(c, buffer, FenceAt(c.lines, i, false).0);
    } else if !CaptionLike(c.lines[i]) {
      if line == [] {
        FlushThenFits(c, buffer, PageBreak);
      } else {
        BlockFits(c, i, buffer, line);
      }
    }
  }

  lemma BlockFits(c: Context, i: nat, buffer: seq<string>, line: string)
    requires i < |c.lines| && line == Strip(c.lines[i]) && line != [] && Filled(buffer)
    requires BlockStepAt(c, i, buffer, line).Continue?
    ensures AllFit(c, BlockStepAt(c, i, buffer, line).out) && Filled(BlockStepAt(c, i, buffer, line).buffer)
  {
    if HeadingAt(line).Some? {
      FlushThenFits(c, buffer, HeadingLine(line));
    } else if ListMarkerAt(line).Some? {
      FlushThenFits(c, buffer, ListLines(i));
    } else if StartsWith(line, "![") {
      FlushThenFits(c, buffer, ImageLine(line));
    } else if StartsWith(line, "|") {
      FlushThenFits(c, buffer, TableLines(i));
    } else {
      assert (buffer + [line])[0] == if buffer == [] then line else buffer[0];
    }
  }

  lemma FlushFits(c: Context, buffer: seq<string>)
    requires Filled(buffer)
    ensures AllFit(c, Flush(buffer))
  {
  }

  lemma FlushThenFits(c: Context, buffer: seq<string>, p: Piece)
    requires Fits(c, p) && Filled(buffer)
    ensures AllFit(c, Flush(buffer)) && AllFit(c, Flush(buffer) + [p])
  {
  }

  /** The loop's result with each piece built, or the loop's error. */
  function Converted(c: Context): Result<seq<Block>, string> {
    match Run(c, 0, [], 0)
    case Failure(e) => Failure(e)
    case Success(ps) => Success(BuildAll(c, ps))
  }

  /** What `convert` returns for `text`: the loop run over the lines of the normalised text, footnotes taken out. */
  function Document(host: Host, text: string, numbered: bool): Result<seq<Block>, string> {
    var (body, footnotes) := ProcessFootnotes(Normalized(host, text));
    Converted(Context(host, Split(body, "\n"), footnotes, numbered))
  }

  // ---------------------------------------------------------------------
  // The loop, step by step

  /** `skip` holds exactly the indices of the caption-like lines. */
  ghost predicate CaptionIndices(lines: seq<string>, skip: set<nat>) {
    forall k: nat {:trigger k in skip} :: k in skip <==> k < |lines| && CaptionLike(lines[k])
  }

  /** The caption pre-pass of `convert`: the set of indices of caption-like lines. */
  method CaptionLines(lines: seq<string>) returns (skip: set<nat>)
    ensures CaptionIndices(lines, skip)
  {
    skip := {};
    for idx := 0 to |lines|
      invariant forall k: nat {:trigger k in skip} :: k in skip <==> k < idx && CaptionLike(lines[k])
    {
      if CaptionLike(lines[idx]) {
        skip := skip + {idx};
      }
    }
  }

  /** The inner loop of a fenced block: the index of its closing line, or the number of lines. */
  method FindFenceEnd(lines: seq<string>, i: nat, math: bool) returns (j: nat)
    requires i <= |lines|
    ensures j == FenceEnd(lines, i, math)
  {
    j := i;
    while j < |lines| && !Closes(lines[j], math)
      invariant i <= j <= |lines| && FenceEnd(lines, j, math) == FenceEnd(lines, i, math)
    {
      j := j + 1;
    }
  }

  /** `if buffer: result.append(self._process_paragraph(" ".join(buffer)))`. */
  method FlushBuffer(c: Context, buffer: seq<string>) returns (blocks: seq<Block>)
    ensures blocks == BuildAll(c, Flush(buffer))
  {
    blocks := [];
    if buffer != [] {
      var p := ProcessParagraph(c.footnotes, Join(" ", buffer));
      blocks := [p];
      assert BuildAll(c, Flush(buffer)) == BuildAll(c, []) + Build(c, ParagraphLines(buffer));
    }
  }

  /** The fenced block opened at line `i`. */
  method ReadFence(lines: seq<string>, i: nat, math: bool) returns (p: Piece, next: nat)
    requires i < |lines|
    ensures (p, next) == FenceAt(lines, i, math)
  {
    var j := FindFenceEnd(lines, i + 1, math);
    var body := lines[i + 1..j];
    p := if math then MathBody(body) else CodeBody(body);
    next := j + 1;
  }

  /** The block a fenced body becomes: a display equation unless blank, or code. */
  method FenceBlock(c: Context, p: Piece) returns (blocks: seq<Block>)
    requires p.MathBody? || p.CodeBody?
    ensures blocks == Build(c, p)
  {
    if p.MathBody? {
      var eq := Strip(Join("\n", p.body));
      blocks := if eq != [] then [EquationBlock(eq)] else [];
    } else {
      blocks := [Code(Join("\n", p.body))];
    }
  }

  /** Flushing the buffer, then one more piece. */
  lemma BuildAfterFlush(c: Context, buffer: seq<string>, p: Piece)
    ensures BuildAll(c, Flush(buffer) + [p]) == BuildAll(c, Flush(buffer)) + Build(c, p)
  {
    assert (Flush(buffer) + [p])[..|Flush(buffer) + [p]| - 1] == Flush(buffer);
  }

  /** A pass on a fenced block starting at line `i`. */
  method FenceStep(c: Context, i: nat, buffer: seq<string>, math: bool) returns (r: Outcome, blocks: seq<Block>)
    requires i < |c.lines|
    ensures r == FenceStepAt(c, i, buffer, math) && blocks == BuildAll(c, r.out)
  {
    var out := FlushBuffer(c, buffer);
    var p, next := ReadFence(c.lines, i, math);
    var fenced := FenceBlock(c, p);
    BuildAfterFlush(c, buffer, p);
    r := Continue(Flush(buffer) + [p], next, [], 0);
    blocks := out + fenced;
  }

  lemma BuildHeading(c: Context, line: string)
    ensures Build(c, HeadingLine(line)) == [HeadingBlock(line, c.numbered)]
  {
  }

  lemma BuildList(c: Context, s: nat)
    requires s < |c.lines|
    ensures Build(c, ListLines(s)) == [ListAt(c.lines, s).0]
  {
  }

  lemma BuildImage(c: Context, line: string)
    requires ImageBlock(c.host, line).Success?
    ensures Build(c, ImageLine(line)) == [ImageBlock(c.host, line).value]
  {
  }

  lemma BuildTable(c: Context, p: Piece)
    requires p.TableLines?
    ensures Build(c, p) == TableBlocks(c.lines, p.start)
  {
    match p
    case TableLines(s) =>
  }

  /** A pass on a line that starts a block. */
  method StartBlock(c: Context, i: nat, buffer: seq<string>, line: string) returns (r: Outcome, blocks: seq<Block>)
    requires i < |c.lines| && line == Strip(c.lines[i]) && line != []
    requires HeadingAt(line).Some? || ListMarkerAt(line).Some? || StartsWith(line, "![") || StartsWith(line, "|")
    ensures r == BlockStepAt(c, i, buffer, line)
    ensures r.Continue? ==> blocks == BuildAll(c, r.out)
  {
    var out := FlushBuffer(c, buffer);
    var p: Piece;
    var built: seq<Block>;
    var next: nat;
    if HeadingAt(line).Some? {
      p, built, next := HeadingLine(line), [HeadingBlock(line, c.numbered)], i + 1;
      BuildHeading(c, line);
    } else if ListMarkerAt(line).Some? {
      var list;
      list, next := ProcessList(c.lines, i);
      p, built := ListLines(i), [list];
      BuildList(c, i);
    } else if StartsWith(line, "![") {
      var image := ProcessImage(c.host, line);
      if image.Failure? {
        return Raise(image.error), [];
      }
      p, built, next := ImageLine(line), [image.value], i + 1;
      BuildImage(c, line);
    } else {
      var table;
      table, next := ProcessTable(c.lines, i);
      TableNextIsTableAt(c.lines, i);
      p, built := TableLines(i), if table.Some? then [table.value] else [];
      assert built == TableBlocks(c.lines, i);
      BuildTable(c, p);
    }
    BuildAfterFlush(c, buffer, p);
    r := Continue(Flush(buffer) + [p], next, [], 0);
    blocks := out + built;
  }

  /** A pass on a line that starts a block or joins the buffer. */
  method BlockStep(c: Context, i: nat, buffer: seq<string>, line: string) returns (r: Outcome, blocks: seq<Block>)
    requires i < |c.lines| && line == Strip(c.lines[i]) && line != []
    ensures r == BlockStepAt(c, i, buffer, line)
    ensures r.Continue? ==> blocks == BuildAll(c, r.out)
  {
    if !HeadingAt(line).Some? && !ListMarkerAt(line).Some? && !StartsWith(line, "![") && !StartsWith(line, "|") {
      return Continue([], i + 1, buffer + [line], 0), [];
    }
    r, blocks := StartBlock(c, i, buffer, line);
  }

  /** A blank line: flush, count, and a page break on the third in a row. */
  method BlankStepMethod(c: Context, i: nat, buffer: seq<string>, ec: nat) returns (r: Outcome, blocks: seq<Block>)
    ensures r == (if ec + 1 >= 3 then Continue(Flush(buffer) + [PageBreak], i + 1, [], 0) else Continue(Flush(buffer), i + 1, [], ec + 1))
    ensures blocks == BuildAll(c, r.out)
  {
    var out := FlushBuffer(c, buffer);
    if ec + 1 >= 3 {
      BuildAfterFlush(c, buffer, PageBreak);
      r, blocks := Continue(Flush(buffer) + [PageBreak], i + 1, [], 0), out + [Break];
    } else {
      r, blocks := Continue(Flush(buffer), i + 1, [], ec + 1), out;
    }
  }

  /** One pass of the loop at line `i`. */
  method Step(c: Context, skip: set<nat>, i: nat, buffer: seq<string>, ec: nat) returns (r: Outcome, blocks: seq<Block>)
    requires i < |c.lines| && CaptionIndices(c.lines, skip)
    ensures r == StepAt(c, i, buffer, ec)
    ensures r.Continue? ==> blocks == BuildAll(c, r.out)
  {
    var line := Strip(c.lines[i]);
    if IsMathFence(line) {
      r, blocks := FenceStep(c, i, buffer, true);
    } else if StartsWith(line, "```") {
      r, blocks := FenceStep(c, i, buffer, false);
    } else if i in skip {
      r, blocks := Continue([], i + 1, buffer, ec), [];
    } else if line == [] {
      r, blocks := BlankStepMethod(c, i, buffer, ec);
    } else {
      r, blocks := BlockStep(c, i, buffer, line);
    }
  }

  lemma ThenNil<T>(r: Result<seq<T>, string>)
    ensures Then([], r) == r
  {
    if r.Success? {
      assert [] + r.value == r.value;
    }
  }

  lemma ThenThen<T>(a: seq<T>, b: seq<T>, r: Result<seq<T>, string>)
    ensures Then(a, Then(b, r)) == Then(a + b, r)
  {
    if r.Success? {
      assert a + (b + r.value) == a + b + r.value;
    }
  }

  /** Past the last line the loop only flushes the buffer. */
  lemma RunAtEnd(c: Context, i: nat, buffer: seq<string>, ec: nat)
    requires |c.lines| <= i <= |c.lines| + 1
    ensures Run(c, i, buffer, ec) == Success(Flush(buffer))
  {
    assert Loop(c, i, buffer, ec) == Success(Flush(buffer));
  }

  /** A pass that raises ends the loop with its error. */
  lemma RunRaises(c: Context, i: nat, buffer: seq<string>, ec: nat)
    requires i < |c.lines| && StepAt(c, i, buffer, ec).Raise?
    ensures Run(c, i, buffer, ec) == Failure(StepAt(c, i, buffer, ec).error)
  {
    assert Loop(c, i, buffer, ec) == LoopFrom(c, i, buffer, ec);
  }

  /** The loop after one pass that continues. */
  lemma RunStep(c: Context, i: nat, buffer: seq<string>, ec: nat)
    requires i < |c.lines| && StepAt(c, i, buffer, ec).Continue?
    ensures var o := StepAt(c, i, buffer, ec); Run(c, i, buffer, ec) == Then(o.out, Run(c, o.next, o.buffer, o.ec))
  {
    assert Loop(c, i, buffer, ec) == LoopFrom(c, i, buffer, ec);
  }

  /** The main loop of `convert` over the split lines. */
  method ConvertLines(c: Context) returns (r: Result<seq<Block>, string>)
    ensures r == Converted(c)
  {
    var skip := CaptionLines(c.lines);
    var result: seq<Block> := [];
    ghost var pieces: seq<Piece> := [];
    var buffer: seq<string> := [];
    var ec := 0;
    var i := 0;
    ThenNil(Run(c, 0, [], 0));
    while i < |c.lines|
      invariant i <= |c.lines| + 1
      invariant Then(pieces, Run(c, i, buffer, ec)) == Run(c, 0, [], 0)
      invariant result == BuildAll(c, pieces)
      decreases |c.lines| + 1 - i
    {
      var step, blocks := Step(c, skip, i, buffer, ec);
      if step.Raise? {
        RunRaises(c, i, buffer, ec);
        return Failure(step.error);
      }
      RunStep(c, i, buffer, ec);
      ThenThen(pieces, step.out, Run(c, step.next, step.buffer, step.ec));
      BuildAllAppend(c, pieces, step.out);
      pieces, result := pieces + step.out, result + blocks;
      i, buffer, ec := step.next, step.buffer, step.ec;
    }
    var last := FlushBuffer(c, buffer);
    RunAtEnd(c, i, buffer, ec);
    BuildAllAppend(c, pieces, Flush(buffer));
    r := Success(result + last);
  }

  // ---------------------------------------------------------------------
  // Properties of the loop

  /**
   * A block the current converter can produce: never the empty dictionary,
   * a heading of level 1 to 5 carrying the converter's numbering, a list
   * with at least one item, a paragraph with some content, a non-empty
   * display equation, or an image, table, code block or page break.
   */
  predicate Produced(numbered: bool, b: Block) {
    match b
    case Heading(_, level, n, _) => 1 <= level <= 5 && n == numbered
    case ListBlock(_, items) => items != []
    case Paragraph(content) => content != []
    case EquationBlock(eq) => eq != []
    case Image(_, _) => true
    case Table(_, _, _) => true
    case Code(_) => true
    case Break => true
    case _ => false
  }

  lemma JoinNotEmpty(sep: string, parts: seq<string>)
    requires parts != [] && parts[0] != []
    ensures Join(sep, parts) != []
  {
    if |parts| > 1 {
      assert Join(sep, parts)[0] == parts[0][0];
    }
  }

  lemma ParagraphProduced(c: Context, texts: seq<string>)
    requires Filled(texts) && texts != []
    ensures Produced(c.numbered, ParagraphBlock(c.footnotes, Join(" ", texts)))
  {
    JoinNotEmpty(" ", texts);
  }

  lemma ListProduced(c: Context, s: nat)
    requires s < |c.lines| && ListMarkerAt(Strip(c.lines[s])).Some?
    ensures Produced(c.numbered, ListAt(c.lines, s).0)
  {
  }

  lemma ImageProduced(c: Context, line: string)
    requires ImageTarget(c.host, line).Success?
    ensures ImageBlock(c.host, line).Success? && Produced(c.numbered, ImageBlock(c.host, line).value)
  {
  }

  predicate AllProduced(numbered: bool, blocks: seq<Block>) {
    forall k :: 0 <= k < |blocks| ==> Produced(numbered, blocks[k])
  }

  lemma TableProduced(numbered: bool, lines: seq<string>, s: nat)
    ensures AllProduced(numbered, TableBlocks(lines, s))
  {
    if s < |lines| && TableAt(lines, s).0.Some? {
      assert Produced(numbered, TableAt(lines, s).0.value);
    }
  }

  /** Each builder, given a piece as the loop hands it over, produces well-shaped blocks. */
  lemma BuildProduced(c: Context, p: Piece)
    requires Fits(c, p)
    ensures AllProduced(c.numbered, Build(c, p))
  {
    match p
    case ParagraphLines(texts) =>
      ParagraphProduced(c, texts);
    case HeadingLine(line) =>
      BuildHeading(c, line);
    case ListLines(s) =>
      BuildList(c, s);
      ListProduced(c, s);
    case ImageLine(line) =>
      ImageProduced(c, line);
      BuildImage(c, line);
    case TableLines(s) =>
      BuildTable(c, p);
      TableProduced(c.numbered, c.lines, s);
    case MathBody(body) =>
    case CodeBody(body) =>
    case PageBreak =>
  }

  lemma {:induction false} BuildAllProduced(c: Context, ps: seq<Piece>)
    requires AllFit(c, ps)
    ensures AllProduced(c.numbered, BuildAll(c, ps))
    decreases |ps|
  {
    if ps != [] {
      var init := ps[..|ps| - 1];
      assert AllFit(c, init) by {
        forall k | 0 <= k < |init|
          ensures Fits(c, init[k])
        {
          assert init[k] == ps[k];
        }
      }
      BuildAllProduced(c, init);
      BuildProduced(c, ps[|ps| - 1]);
    }
  }

  /**
   * Every block of a successful conversion is one the converter can
   * produce: in particular the empty dictionary never reaches the result.
   */
  lemma ConvertedProduced(c: Context)
    ensures Converted(c).Success? ==> forall k :: 0 <= k < |Converted(c).value| ==> Produced(c.numbered, Converted(c).value[k])
  {
    if Run(c, 0, [], 0).Success? {
      RunFits(c, 0, [], 0);
      BuildAllProduced(c, Run(c, 0, [], 0).value);
    }
  }

  /** A pass raises only on an image line whose file is missing, with that image's error. */
  lemma StepRaises(c: Context, i: nat, buffer: seq<string>, ec: nat)
    requires i < |c.lines| && StepAt(c, i, buffer, ec).Raise?
    ensures var line := Strip(c.lines[i]);
      StartsWith(line, "![") && ImageTarget(c.host, line).Failure? &&
      StepAt(c, i, buffer, ec).error == ImageTarget(c.host, line).error
  {
  }

  /**
   * A conversion that fails has met, at or after line `i`, an image line
   * whose file is missing, and reports that image's error.
   */
  lemma {:induction false} RunFailure(c: Context, i: nat, buffer: seq<string>, ec: nat)
    requires i <= |c.lines| + 1
    ensures Run(c, i, buffer, ec).Failure? ==>
      exists k :: i <= k < |c.lines| && StartsWith(Strip(c.lines[k]), "![") &&
        ImageTarget(c.host, Strip(c.lines[k])).Failure? &&
        Run(c, i, buffer, ec).error == ImageTarget(c.host, Strip(c.lines[k])).error
    decreases |c.lines| + 1 - i
  {
    if i < |c.lines| {
      var o := StepAt(c, i, buffer, ec);
      if o.Continue? {
        RunStep(c, i, buffer, ec);
        RunFailure(c, o.next, o.buffer, o.ec);
      } else {
        RunRaises(c, i, buffer, ec);
        StepRaises(c, i, buffer, ec);
      }
    } else {
      RunAtEnd(c, i, buffer, ec);
    }
  }

  /** A blank line is not a caption. */
  lemma BlankIsNoCaption(line: string)
    requires Strip(line) == []
    ensures !CaptionLike(line)
  {
    CaptionLikeIsStripped(line);
  }

  /** `n` page breaks in a row. */
  function PageBreaks(n: nat): (r: seq<Piece>)
    ensures |r| == n && forall k :: 0 <= k < n ==> r[k] == PageBreak
  {
    if n == 0 then [] else PageBreaks(n - 1) + [PageBreak]
  }

  lemma FlushThenBreaks(buffer: seq<string>, a: nat, b: nat)
    ensures Flush(buffer) + PageBreaks(a) + PageBreaks(b) == Flush(buffer) + PageBreaks(a + b)
  {
    assert PageBreaks(a) + PageBreaks(b) == PageBreaks(a + b);
  }

  /** One blank line: the buffer is flushed and the count goes up, to a page break on the third. */
  lemma BlankStep(c: Context, i: nat, buffer: seq<string>, ec: nat)
    requires i < |c.lines| && Strip(c.lines[i]) == [] && ec < 3
    ensures StepAt(c, i, buffer, ec) == Continue(Flush(buffer) + PageBreaks((ec + 1) / 3), i + 1, [], (ec + 1) % 3)
  {
    BlankIsNoCaption(c.lines[i]);
    if ec + 1 < 3 {
      assert Flush(buffer) + PageBreaks(0) == Flush(buffer);
    }
  }

  /** The page breaks `n` blank lines in a row add when `ec` blank lines came before them. */
  function BreaksAfter(ec: nat, n: nat): nat {
    (ec + n) / 3
  }

  /** The blank-line count after those `n` lines. */
  function CountAfter(ec: nat, n: nat): (r: nat)
    ensures r < 3
  {
    (ec + n) % 3
  }

  /** The count arithmetic of blank line `i` followed by the ones up to `e`. */
  lemma ArithmeticOfBlanks(ec: nat, i: nat, e: nat)
    requires ec < 3 && i < e
    ensures BreaksAfter(ec, e - i) == (ec + 1) / 3 + BreaksAfter((ec + 1) % 3, e - (i + 1))
    ensures CountAfter(ec, e - i) == CountAfter((ec + 1) % 3, e - (i + 1))
  {
  }

  /** One blank line, as the loop sees it. */
  lemma BlankLineRun(c: Context, i: nat, buffer: seq<string>, ec: nat)
    requires i < |c.lines| && Strip(c.lines[i]) == [] && ec < 3
    ensures Run(c, i, buffer, ec) == Then(Flush(buffer) + PageBreaks((ec + 1) / 3), Run(c, i + 1, [], (ec + 1) % 3))
  {
    BlankStep(c, i, buffer, ec);
    RunStep(c, i, buffer, ec);
  }

  /** The page breaks of two runs of blank lines add up; the second flushes an empty buffer. */
  lemma ComposeBlanks(buffer: seq<string>, a: nat, m: nat, total: nat, x: Result<seq<Piece>, string>,
                      y: Result<seq<Piece>, string>, rest: Result<seq<Piece>, string>)
    requires total == a + m
    requires x == Then(Flush(buffer) + PageBreaks(a), y) && y == Then(Flush([]) + PageBreaks(m), rest)
    ensures x == Then(Flush(buffer) + PageBreaks(total), rest)
  {
    assert Flush([]) + PageBreaks(m) == PageBreaks(m);
    ThenThen(Flush(buffer) + PageBreaks(a), PageBreaks(m), rest);
    FlushThenBreaks(buffer, a, m);
  }

  /**
   * Blank lines `i` up to `e` flush the buffer once and add a page break
   * each time the count of blank lines in a row reaches three; the count
   * left over is carried on.
   */
  lemma {:induction false} BlankLines(c: Context, i: nat, e: nat, buffer: seq<string>, ec: nat)
    requires i < e <= |c.lines| && ec < 3
    requires forall k :: i <= k < e ==> Strip(c.lines[k]) == []
    ensures Run(c, i, buffer, ec) == Then(Flush(buffer) + PageBreaks(BreaksAfter(ec, e - i)), Run(c, e, [], CountAfter(ec, e - i)))
    decreases e - i
  {
    BlankLineRun(c, i, buffer, ec);
    if i + 1 < e {
      BlankLines(c, i + 1, e, [], (ec + 1) % 3);
      ArithmeticOfBlanks(ec, i, e);
      ComposeBlanks(buffer, (ec + 1) / 3, BreaksAfter((ec + 1) % 3, e - (i + 1)), BreaksAfter(ec, e - i),
                    Run(c, i, buffer, ec), Run(c, i + 1, [], (ec + 1) % 3), Run(c, e, [], CountAfter(ec, e - i)));
    } else {
      assert BreaksAfter(ec, e - i) == (ec + 1) / 3 && CountAfter(ec, e - i) == (ec + 1) % 3;
    }
  }

  /**
   * A line the loop adds to the paragraph buffer: not blank, and not a
   * fence, a caption, a heading, a list item, an image or a table row.
   */
  predicate TextLine(line: string) {
    var s := Strip(line);
    s != [] && !IsMathFence(s) && !IsCodeFence(s) && !CaptionLike(line) &&
    HeadingAt(s).None? && ListMarkerAt(s).None? && !StartsWith(s, "![") && !StartsWith(s, "|")
  }

  /** Each line stripped. */
  function StrippedLines(lines: seq<string>): (r: seq<string>)
    ensures |r| == |lines|
  {
    if lines == [] then [] else [Strip(lines[0])] + StrippedLines(lines[1..])
  }

  lemma StrippedCons(lines: seq<string>, buffer: seq<string>, i: nat, e: nat)
    requires i < e <= |lines|
    ensures buffer + [Strip(lines[i])] + StrippedLines(lines[i + 1..e]) == buffer + StrippedLines(lines[i..e])
    ensures i + 1 == e ==> buffer + [Strip(lines[i])] == buffer + StrippedLines(lines[i..e])
  {
    assert lines[i..e][1..] == lines[i + 1..e];
    assert StrippedLines(lines[i..e]) == [Strip(lines[i])] + StrippedLines(lines[i + 1..e]);
  }

  /** Text lines `i` up to `e` go, stripped, into the buffer, and the blank-line count is reset. */
  lemma {:induction false} TextLinesBuffer(c: Context, i: nat, e: nat, buffer: seq<string>, ec: nat)
    requires i < e <= |c.lines|
    requires forall k :: i <= k < e ==> TextLine(c.lines[k])
    ensures Run(c, i, buffer, ec) == Run(c, e, buffer + StrippedLines(c.lines[i..e]), 0)
    decreases e - i
  {
    var b1 := buffer + [Strip(c.lines[i])];
    assert StepAt(c, i, buffer, ec) == Continue([], i + 1, b1, 0);
    RunStep(c, i, buffer, ec);
    ThenNil(Run(c, i + 1, b1, 0));
    StrippedCons(c.lines, buffer, i, e);
    if i + 1 < e {
      TextLinesBuffer(c, i + 1, e, b1, 0);
    }
  }

  /** Text lines up to a blank line make one paragraph of the stripped lines. */
  lemma TextLinesParagraph(c: Context, i: nat, e: nat, ec: nat)
    requires i < e < |c.lines|
    requires forall k :: i <= k < e ==> TextLine(c.lines[k])
    requires Strip(c.lines[e]) == []
    ensures Run(c, i, [], ec) == Then([ParagraphLines(StrippedLines(c.lines[i..e]))], Run(c, e + 1, [], 1))
  {
    var texts := StrippedLines(c.lines[i..e]);
    TextLinesBuffer(c, i, e, [], ec);
    BlankLineRun(c, e, [] + texts, 0);
    ParagraphThenBlank(texts, Run(c, i, [], ec), Run(c, e, [] + texts, 0), Run(c, e + 1, [], 1));
  }

  /** The buffer of text lines is flushed as one paragraph by the blank line after it. */
  lemma ParagraphThenBlank(texts: seq<string>, x: Result<seq<Piece>, string>, y: Result<seq<Piece>, string>,
                           rest: Result<seq<Piece>, string>)
    requires x == y && texts != []
    requires y == Then(Flush([] + texts) + PageBreaks((0 + 1) / 3), rest)
    ensures x == Then([ParagraphLines(texts)], rest)
  {
    assert [] + texts == texts;
    assert Flush(texts) + PageBreaks(0) == [ParagraphLines(texts)];
  }

  /** Text lines up to the end of the document make one closing paragraph. */
  lemma TextLinesAtEnd(c: Context, i: nat, ec: nat)
    requires i < |c.lines|
    requires forall k :: i <= k < |c.lines| ==> TextLine(c.lines[k])
    ensures Run(c, i, [], ec) == Success([ParagraphLines(StrippedLines(c.lines[i..]))])
  {
    TextLinesBuffer(c, i, |c.lines|, [], ec);
    var texts := StrippedLines(c.lines[i..]);
    assert [] + StrippedLines(c.lines[i..|c.lines|]) == texts by {
      assert c.lines[i..|c.lines|] == c.lines[i..];
    }
    RunAtEnd(c, |c.lines|, texts, 0);
  }

  /** The converter object: its footnote dictionary is replaced by every conversion. */
  class Converter {
    var footnotes: map<string, string>
    var numbered: bool

    constructor(numbered: bool)
      ensures this.footnotes == map[] && this.numbered == numbered
    {
      this.footnotes := map[];
      this.numbered := numbered;
    }

    /** `convert`: the blocks of `text`, keeping the footnotes it defines. */
    method Convert(host: Host, text: string) returns (r: Result<seq<Block>, string>)
      modifies this
      ensures numbered == old(numbered)
      ensures footnotes == ProcessFootnotes(Normalized(host, text)).1
      ensures r == Document(host, text, numbered)
    {
      var normal := RepairText(host.nfc(text));
      var body;
      body, footnotes := ProcessFootnotes(normal).0, ProcessFootnotes(normal).1;
      var lines := Split(body, "\n");
      r := ConvertLines(Context(host, lines, footnotes, numbered));
    }
  }
}
