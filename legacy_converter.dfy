/**
 * The older `MarkdownToPapermill.convert` (`src/papermill_converter.py`):
 * the same normalisation, footnote extraction and caption pre-pass as the
 * current converter, and a main loop that knows display math, references
 * sections, headings, lists, images, tables and paragraphs. It has no code
 * fences and no page breaks, and only a paragraph can raise.
 *
 * `Run` is the specification of the loop: the pieces handed to the builders
 * from line `i` on, given the paragraph buffer at that point. `Converted`
 * builds them in order and stops at the first paragraph that raises.
 */
module LegacyConverter {
  import opened Wrappers
  import opened Text
  import opened Host
  import opened Patterns
  import opened Nodes
  import opened Normalize
  import opened Footnotes
  import opened LegacyReferences
  import opened LegacyBlocks
  import CurrentConverter

  /** What the main loop reads and never changes. */
  datatype Context = Context(host: Host, lines: seq<string>, footnotes: map<string, string>, numbered: bool)

  /**
   * What the loop appends to the result: the buffer, which `_process_paragraph`
   * receives joined by a space and which may raise, or what a builder that
   * cannot raise returned (a heading, a list, an image, the table or nothing,
   * a math block or nothing, a reference entry).
   */
  datatype Piece =
    | ParagraphLines(texts: seq<string>)
    | Appended(blocks: seq<Block>)

  /** `if buffer:` the buffered lines become a paragraph. */
  function Flush(buffer: seq<string>): (r: seq<Piece>)
    ensures |r| <= 1 && (r == [] <==> buffer == []) && (r != [] ==> r[0] == ParagraphLines(buffer))
  {
    if buffer == [] then [] else [ParagraphLines(buffer)]
  }

  /**
   * What one pass of the loop does: whether it first flushes the buffer, the
   * blocks it then appends (no builder but the paragraph's can raise), the
   * next line and the new buffer.
   */
  datatype Outcome = Outcome(flushes: bool, blocks: seq<Block>, next: nat, buffer: seq<string>)

  /** The pieces a pass appends: the flushed buffer when it flushes, then its blocks. */
  function Emitted(buffer: seq<string>, o: Outcome): seq<Piece> {
    (if o.flushes then Flush(buffer) else []) + [Appended(o.blocks)]
  }

  // ---------------------------------------------------------------------
  // References sections

  /** The line a references heading is read from: a bare title gets `## ` in front. */
  function ReferenceHeadingLine(line: string): string {
    if StartsWith(line, "#") then line else "## " + line
  }

  /** The first line at or after `i` that is not blank, or the number of lines. */
  function BlankEnd(lines: seq<string>, i: nat): (e: nat)
    requires i <= |lines|
    decreases |lines| - i
    ensures i <= e <= |lines|
    ensures forall k :: i <= k < e ==> Strip(lines[k]) == []
    ensures e < |lines| ==> Strip(lines[e]) != []
  {
    if i == |lines| || Strip(lines[i]) != [] then i else BlankEnd(lines, i + 1)
  }

  /** A line that ends a references list: blank, or starting with '#' once stripped. */
  predicate EndsReferences(line: string) {
    var s := Strip(line);
    s == [] || StartsWith(s, "#")
  }

  /** The first line at or after `i` that ends the references list, or the number of lines. */
  function EntriesEnd(lines: seq<string>, i: nat): (e: nat)
    requires i <= |lines|
    decreases |lines| - i
    ensures i <= e <= |lines|
    ensures e < |lines| ==> EndsReferences(lines[e])
  {
    if i == |lines| || EndsReferences(lines[i]) then i else EntriesEnd(lines, i + 1)
  }

  /** No line before the end of the references list ends it: the end is the first such line. */
  lemma {:induction false} EntriesEndFirst(lines: seq<string>, i: nat)
    requires i <= |lines|
    ensures forall k :: i <= k < EntriesEnd(lines, i) ==> !EndsReferences(lines[k])
    decreases |lines| - i
  {
    if i < |lines| && !EndsReferences(lines[i]) {
      EntriesEndFirst(lines, i + 1);
    }
  }

  /** `_is_reference_line` on the stripped line, and then the paragraph appended for it: the line as its only text. */
  function ReferenceEntry(line: string): (r: Option<Block>)
    ensures r.Some? <==> IsReferenceLine(Strip(line))
    ensures r.Some? ==> r.value == Paragraph([Plain(Strip(line))])
  {
    var s := Strip(line);
    if IsReferenceLine(s) then Some(Paragraph([Plain(s)])) else None
  }

  /** The entry `pick` finds in a line, as a list of at most one block. */
  function Picked(pick: string -> Option<Block>, line: string): seq<Block> {
    match pick(line)
    case Some(b) => [b]
    case None => []
  }

  /**
   * The entries of lines `i` up to `e`: what `pick` finds in each line, in
   * order. The loop picks `ReferenceEntry`.
   */
  function Entries(pick: string -> Option<Block>, lines: seq<string>, i: nat, e: nat): (r: seq<Block>)
    requires i <= e <= |lines|
    decreases e - i
    ensures |r| <= e - i
  {
    if e == i then [] else Entries(pick, lines, i, e - 1) + Picked(pick, lines[e - 1])
  }

  /** Every entry is one `pick` found in a line of `i` up to `e`. */
  lemma {:induction false} EntriesFromPickedLines(pick: string -> Option<Block>, lines: seq<string>, i: nat, e: nat, b: Block)
    requires i <= e <= |lines| && b in Entries(pick, lines, i, e)
    ensures exists k :: i <= k < e && pick(lines[k]) == Some(b)
    decreases e - i
  {
    if b in Entries(pick, lines, i, e - 1) {
      EntriesFromPickedLines(pick, lines, i, e - 1, b);
    } else {
      assert pick(lines[e - 1]) == Some(b);
    }
  }

  /** One more line: what `pick` finds in it follows the entries so far. */
  lemma EntriesStep(pick: string -> Option<Block>, lines: seq<string>, i: nat, e: nat, entries: seq<Block>)
    requires i <= e < |lines| && entries == Entries(pick, lines, i, e)
    ensures pick(lines[e]).Some? ==> Entries(pick, lines, i, e + 1) == entries + [pick(lines[e]).value]
    ensures pick(lines[e]).None? ==> Entries(pick, lines, i, e + 1) == entries
  {
    if pick(lines[e]).None? {
      ConcatNil(entries);
    }
  }

  /** The entries of a range are those of its first part followed by those of the rest. */
  lemma {:induction false} EntriesSplit(pick: string -> Option<Block>, lines: seq<string>, i: nat, m: nat, e: nat)
    requires i <= m <= e <= |lines|
    ensures Entries(pick, lines, i, e) == Entries(pick, lines, i, m) + Entries(pick, lines, m, e)
    decreases e - m
  {
    if e == m {
      assert Entries(pick, lines, m, e) == [];
      ConcatNil(Entries(pick, lines, i, m));
    } else {
      EntriesSplit(pick, lines, i, m, e - 1);
      ConcatAssoc(Entries(pick, lines, i, m), Entries(pick, lines, m, e - 1), Picked(pick, lines[e - 1]));
    }
  }

  /** Every entry `pick` finds in a line of `i` up to `e` is kept, after those of the lines before it. */
  lemma PickedLinesHaveEntries(pick: string -> Option<Block>, lines: seq<string>, i: nat, e: nat, k: nat)
    requires i <= k < e <= |lines| && pick(lines[k]).Some?
    ensures Entries(pick, lines, i, e) == Entries(pick, lines, i, k) + [pick(lines[k]).value] + Entries(pick, lines, k + 1, e)
    ensures pick(lines[k]).value in Entries(pick, lines, i, e)
  {
    var entry := pick(lines[k]).value;
    EntriesSplit(pick, lines, i, k, e);
    EntriesSplit(pick, lines, k, k + 1, e);
    assert Entries(pick, lines, k, k) == [];
    assert Entries(pick, lines, k, k + 1) == [] + [entry];
    ConcatAssoc(Entries(pick, lines, i, k), [entry], Entries(pick, lines, k + 1, e));
    IndexAfter(Entries(pick, lines, i, k), entry, Entries(pick, lines, k + 1, e));
  }

  lemma IndexAfter<T>(a: seq<T>, x: T, b: seq<T>)
    ensures x in a + [x] + b
  {
    assert (a + [x] + b)[|a|] == x;
  }

  /**
   * A pass on a references heading at line `i`: the buffer is flushed, the
   * heading is added, the blank lines after it are skipped, and each line up
   * to the next blank or '#' line is kept when it reads as a reference.
   */
  function ReferencesAt(c: Context, i: nat, line: string): (r: Outcome)
    requires i < |c.lines|
    ensures r.flushes && i < r.next <= |c.lines| && r.buffer == []
  {
    var b := BlankEnd(c.lines, i + 1);
    var e := EntriesEnd(c.lines, b);
    Outcome(true, [LegacyHeading(ReferenceHeadingLine(line), c.numbered)] + Entries(ReferenceEntry, c.lines, b, e), e, [])
  }

  // ---------------------------------------------------------------------
  // One pass of the loop

  /** The display-math block of a body: the stripped joined lines, or nothing when they are blank. */
  function MathOf(body: seq<string>): (r: seq<Block>)
    ensures |r| <= 1 && forall k :: 0 <= k < |r| ==> r[k].MathBlock? && r[k].text != []
  {
    var t := Strip(Join("\n", body));
    if t == [] then [] else [MathBlock(t)]
  }

  /**
   * A pass on a `$$` line: the buffer is flushed and the body up to the
   * closing `$$` is built; the closing line is skipped, so the next index may
   * pass the last line by one when no `$$` closes the block.
   */
  function MathStepAt(lines: seq<string>, i: nat): (r: Outcome)
    requires i < |lines|
    ensures r.flushes && i < r.next <= |lines| + 1 && r.buffer == []
  {
    var j := CurrentConverter.FenceEnd(lines, i + 1, true);
    Outcome(true, MathOf(lines[i + 1..j]), j + 1, [])
  }

  /** What `_process_table` appends: the table, or nothing when no table row follows the caption search. */
  function TableBlocks(t: Option<Block>): seq<Block> {
    if t.Some? then [t.value] else []
  }

  /** A stripped line the loop hands to a block builder: a heading, a list item, an image or a table row. */
  predicate StartsBlock(line: string) {
    HeadingAt(line).Some? || ListMarkerAt(line).Some? || StartsWith(line, "![") || StartsWith(line, "|")
  }

  /**
   * What the builder called on a line that starts a block appends. Every
   * block it appends is one the converter means to produce.
   */
  function StartedBlocks(c: Context, i: nat, line: string): (r: seq<Block>)
    requires i < |c.lines| && line == Strip(c.lines[i]) && StartsBlock(line)
    ensures AllProduced(c.numbered, r)
  {
    if HeadingAt(line).Some? then
      var h := LegacyHeading(line, c.numbered);
      assert Produced(c.numbered, h);
      [h]
    else if ListMarkerAt(line).Some? then
      ListConsumesFirstLine(c.lines, i);
      var list := LegacyListAt(c.lines, i).0;
      assert Produced(c.numbered, list);
      [list]
    else if StartsWith(line, "![") then
      var image := LegacyImageBlock(c.host, line);
      assert Produced(c.numbered, image);
      [image]
    else
      var t := LegacyTableAt(c.lines, i).0;
      assert t.Some? ==> Produced(c.numbered, t.value);
      TableBlocks(t)
  }

  /** The index the loop continues from after a block builder: always past the line. */
  function StartedNext(c: Context, i: nat, line: string): (next: nat)
    requires i < |c.lines| && line == Strip(c.lines[i]) && StartsBlock(line)
    ensures i < next <= |c.lines|
  {
    if HeadingAt(line).Some? then i + 1
    else if ListMarkerAt(line).Some? then
      ListConsumesFirstLine(c.lines, i);
      LegacyListAt(c.lines, i).1
    else if StartsWith(line, "![") then i + 1
    else
      TableConsumesFirstLine(c.lines, i);
      LegacyTableAt(c.lines, i).1
  }

  /** A pass on a non-blank line that is not a fence, a caption or a references heading. */
  function BlockStepAt(c: Context, i: nat, buffer: seq<string>, line: string): (r: Outcome)
    requires i < |c.lines| && line == Strip(c.lines[i]) && line != []
    ensures i < r.next <= |c.lines|
    ensures r.flushes <==> StartsBlock(line)
    ensures !r.flushes ==> r.blocks == [] && r.buffer == buffer + [line]
  {
    if StartsBlock(line) then Outcome(true, StartedBlocks(c, i, line), StartedNext(c, i, line), [])
    else Outcome(false, [], i + 1, buffer + [line])
  }

  /**
   * One pass of the loop at line `i`, in the order the loop tries things:
   * a `$$` fence, a skipped caption, a references heading, a blank line,
   * then the block kinds. A pass either flushes and empties the buffer, or
   * keeps it, or adds the line to it.
   */
  function StepAt(c: Context, i: nat, buffer: seq<string>): (r: Outcome)
    requires i < |c.lines|
    ensures i < r.next <= |c.lines| + 1
    ensures r.flushes ==> r.buffer == []
    ensures !r.flushes ==> r.blocks == [] && (r.buffer == buffer || (Strip(c.lines[i]) != [] && r.buffer == buffer + [Strip(c.lines[i])]))
  {
    var line := Strip(c.lines[i]);
    if IsMathFence(line) then MathStepAt(c.lines, i)
    else if CurrentConverter.CaptionLike(c.lines[i]) then Outcome(false, [], i + 1, buffer)
    else if IsReferenceSectionHeading(line) then ReferencesAt(c, i, line)
    else if line == [] then Outcome(true, [], i + 1, [])
    else BlockStepAt(c, i, buffer, line)
  }

  /**
   * The main loop from line `i` with the given buffer, and the final flush.
   * A `$$` block skips its closing line, so `i` may pass the last line by
   * one. Lemmas about the loop are stated on Run and take one pass at a
   * time through RunStep.
   */
  function Run(c: Context, i: nat, buffer: seq<string>): seq<Piece>
    requires i <= |c.lines| + 1
  {
    Loop(c, i, buffer)
  }

  function Loop(c: Context, i: nat, buffer: seq<string>): seq<Piece>
    requires i <= |c.lines| + 1
    decreases |c.lines| + 1 - i, 1
  {
    if i >= |c.lines| then Flush(buffer) else LoopFrom(c, i, buffer)
  }

  function LoopFrom(c: Context, i: nat, buffer: seq<string>): seq<Piece>
    requires i < |c.lines|
    decreases |c.lines| + 1 - i, 0
  {
    var o := StepAt(c, i, buffer);
    Emitted(buffer, o) + Loop(c, o.next, o.buffer)
  }

  /** Past the last line the loop only flushes the buffer. */
  lemma RunAtEnd(c: Context, i: nat, buffer: seq<string>)
    requires |c.lines| <= i <= |c.lines| + 1
    ensures Run(c, i, buffer) == Flush(buffer)
  {
    assert Loop(c, i, buffer) == Flush(buffer);
  }

  /** The loop after one pass. */
  lemma RunStep(c: Context, i: nat, buffer: seq<string>)
    requires i < |c.lines|
    ensures var o := StepAt(c, i, buffer); Run(c, i, buffer) == Emitted(buffer, o) + Run(c, o.next, o.buffer)
  {
    assert Loop(c, i, buffer) == LoopFrom(c, i, buffer);
  }

  // ---------------------------------------------------------------------
  // The builders

  /** `_process_paragraph` on the buffer joined by a space: its paragraph, or the error it raises. */
  function ParagraphOf(footnotes: map<string, string>, texts: seq<string>): (r: Result<seq<Block>, string>)
    ensures r.Success? ==> |r.value| == 1 && r.value[0].Paragraph?
  {
    match LegacyParagraph(footnotes, Join(" ", texts))
    case Success(b) => Success([b])
    case Failure(e) => Failure(e)
  }

  /** The blocks a piece contributes to the result, or the error its paragraph raises. */
  function Build(c: Context, p: Piece): Result<seq<Block>, string> {
    match p
    case ParagraphLines(texts) => ParagraphOf(c.footnotes, texts)
    case Appended(blocks) => Success(blocks)
  }

  /** The blocks of a list of pieces, in order, or the error of the first that raises. */
  function BuildAll(c: Context, ps: seq<Piece>): Result<seq<Block>, string> {
    Gather(p => Build(c, p), ps)
  }

  /** The loop's pieces, built. */
  function Converted(c: Context): Result<seq<Block>, string> {
    BuildAll(c, Run(c, 0, []))
  }

  /** What `convert` returns for `text`: the loop run over the lines of the normalised text, footnotes taken out. */
  function Document(host: Host, text: string, numbered: bool): Result<seq<Block>, string> {
    var (body, footnotes) := ProcessFootnotes(Normalized(host, text));
    Converted(Context(host, Split(body, "\n"), footnotes, numbered))
  }

  // ---------------------------------------------------------------------
  // Building in order

  lemma BuildAllAppend(c: Context, a: seq<Piece>, b: seq<Piece>)
    ensures BuildAll(c, a + b) == Both(BuildAll(c, a), BuildAll(c, b))
  {
    GatherAppend(p => Build(c, p), a, b);
  }

  lemma BuildAllOne(c: Context, p: Piece)
    ensures BuildAll(c, [p]) == Build(c, p)
  {
    GatherOne(p => Build(c, p), p);
  }

  /** The pieces of a pass, built: the flushed paragraph's error, or its paragraph followed by the pass's blocks. */
  lemma EmittedBuild(c: Context, buffer: seq<string>, o: Outcome)
    ensures BuildAll(c, Emitted(buffer, o)) ==
              Both(if o.flushes then BuildAll(c, Flush(buffer)) else Success([]), Success(o.blocks))
  {
    var flushed := if o.flushes then Flush(buffer) else [];
    BuildAllAppend(c, flushed, [Appended(o.blocks)]);
    BuildAllOne(c, Appended(o.blocks));
    if !o.flushes {
      assert BuildAll(c, []) == Success([]);
    }
  }

  // ---------------------------------------------------------------------
  // The loop, step by step

  /** `if buffer: result.append(self._process_paragraph(" ".join(buffer)))`. */
  method FlushBuffer(c: Context, buffer: seq<string>) returns (blocks: Result<seq<Block>, string>)
    ensures blocks == BuildAll(c, Flush(buffer))
  {
    if buffer == [] {
      return Success([]);
    }
    var p := ProcessParagraph(c.footnotes, Join(" ", buffer));
    BuildAllOne(c, ParagraphLines(buffer));
    if p.Failure? {
      return Failure(p.error);
    }
    blocks := Success([p.value]);
  }

  /** The inner loop that skips the blank lines after a references heading. */
  method SkipBlankLines(lines: seq<string>, i: nat) returns (j: nat)
    requires i <= |lines|
    ensures j == BlankEnd(lines, i)
  {
    j := i;
    while j < |lines| && Strip(lines[j]) == []
      invariant i <= j <= |lines| && BlankEnd(lines, j) == BlankEnd(lines, i)
    {
      j := j + 1;
    }
  }

  lemma EntriesEndStep(lines: seq<string>, e: nat)
    requires e < |lines| && !EndsReferences(lines[e])
    ensures EntriesEnd(lines, e) == EntriesEnd(lines, e + 1)
  {
  }

  /** One more line of the references section: the end stays, and its entry, if any, is appended. */
  lemma EntriesAdvance(pick: string -> Option<Block>, lines: seq<string>, b: nat, e: nat, entries: seq<Block>)
    requires b <= e < |lines| && !EndsReferences(lines[e])
    requires EntriesEnd(lines, e) == EntriesEnd(lines, b) && entries == Entries(pick, lines, b, e)
    ensures EntriesEnd(lines, e + 1) == EntriesEnd(lines, b)
    ensures pick(lines[e]).Some? ==> Entries(pick, lines, b, e + 1) == entries + [pick(lines[e]).value]
    ensures pick(lines[e]).None? ==> Entries(pick, lines, b, e + 1) == entries
  {
    EntriesEndStep(lines, e);
    EntriesStep(pick, lines, b, e, entries);
  }

  lemma EntriesEndHere(lines: seq<string>, e: nat)
    requires e <= |lines| && (e == |lines| || EndsReferences(lines[e]))
    ensures EntriesEnd(lines, e) == e
  {
  }

  /**
   * The entry loop of a references section: each line up to a blank or '#'
   * line, and the entry `pick` finds in it; the converter picks `ReferenceEntry`.
   */
  method ReadReferences(pick: string -> Option<Block>, lines: seq<string>, b: nat) returns (entries: seq<Block>, e: nat)
    requires b <= |lines|
    ensures e == EntriesEnd(lines, b) && entries == Entries(pick, lines, b, e)
  {
    entries := [];
    e := b;
    while e < |lines| && !EndsReferences(lines[e])
      invariant b <= e <= |lines| && EntriesEnd(lines, e) == EntriesEnd(lines, b)
      invariant entries == Entries(pick, lines, b, e)
    {
      var entry := pick(lines[e]);
      EntriesAdvance(pick, lines, b, e, entries);
      if entry.Some? {
        entries := entries + [entry.value];
      }
      e := e + 1;
    }
    EntriesEndHere(lines, e);
  }

  /** A pass on a references heading. */
  method ReferencesStep(c: Context, i: nat, line: string) returns (r: Outcome)
    requires i < |c.lines|
    ensures r == ReferencesAt(c, i, line)
  {
    var b := SkipBlankLines(c.lines, i + 1);
    var entries, e := ReadReferences(ReferenceEntry, c.lines, b);
    r := Outcome(true, [LegacyHeading(ReferenceHeadingLine(line), c.numbered)] + entries, e, []);
  }

  /** A pass on a `$$` line: the body is read up to the closing `$$`, and its text appended when not blank. */
  method MathStep(lines: seq<string>, i: nat) returns (r: Outcome)
    requires i < |lines|
    ensures r == MathStepAt(lines, i)
  {
    var j := CurrentConverter.FindFenceEnd(lines, i + 1, true);
    var text := Strip(Join("\n", lines[i + 1..j]));
    var built := if text != [] then [MathBlock(text)] else [];
    r := Outcome(true, built, j + 1, []);
  }

  /** A pass on a line that starts a heading, a list, an image or a table. */
  method StartBlock(c: Context, i: nat, line: string) returns (blocks: seq<Block>, next: nat)
    requires i < |c.lines| && line == Strip(c.lines[i]) && StartsBlock(line)
    ensures blocks == StartedBlocks(c, i, line) && next == StartedNext(c, i, line)
  {
    if HeadingAt(line).Some? {
      blocks, next := [LegacyHeading(line, c.numbered)], i + 1;
    } else if ListMarkerAt(line).Some? {
      var list;
      list, next := ProcessList(c.lines, i);
      blocks := [list];
    } else if StartsWith(line, "![") {
      var image := ProcessImage(c.host, line);
      blocks, next := [image], i + 1;
    } else {
      var table;
      table, next := ProcessTable(c.lines, i);
      blocks := TableBlocks(table);
    }
  }

  /** One pass of the loop at line `i`; `skip` is the caption pre-pass. */
  method Step(c: Context, skip: set<nat>, i: nat, buffer: seq<string>) returns (r: Outcome)
    requires i < |c.lines| && CurrentConverter.CaptionIndices(c.lines, skip)
    ensures r == StepAt(c, i, buffer)
  {
    var line := Strip(c.lines[i]);
    if IsMathFence(line) {
      r := MathStep(c.lines, i);
    } else if i in skip {
      r := Outcome(false, [], i + 1, buffer);
    } else if IsReferenceSectionHeading(line) {
      r := ReferencesStep(c, i, line);
    } else if line == [] {
      r := Outcome(true, [], i + 1, []);
    } else if HeadingAt(line).Some? || ListMarkerAt(line).Some? || StartsWith(line, "![") || StartsWith(line, "|") {
      var blocks, next := StartBlock(c, i, line);
      r := Outcome(true, blocks, next, []);
    } else {
      r := Outcome(false, [], i + 1, buffer + [line]);
    }
  }

  /**
   * Gathering a prefix that succeeded, then a pass whose pieces gather to
   * its flush followed by its blocks: a failed flush is the whole list's
   * error; otherwise the prefix grows by the pass's pieces.
   */
  lemma GatherPass<P, T>(f: P -> Result<seq<T>, string>, pieces: seq<P>, emitted: seq<P>, rest: seq<P>,
                         result: seq<T>, flushed: Result<seq<T>, string>, blocks: seq<T>)
    requires Gather(f, pieces) == Success(result) && Gather(f, emitted) == Both(flushed, Success(blocks))
    ensures flushed.Failure? ==> Gather(f, pieces + (emitted + rest)) == flushed
    ensures flushed.Success? ==> Gather(f, pieces + emitted) == Success(result + flushed.value + blocks)
  {
    GatherAppend(f, pieces, emitted + rest);
    GatherAppend(f, emitted, rest);
    GatherAppend(f, pieces, emitted);
    if flushed.Success? {
      assert result + (flushed.value + blocks) == result + flushed.value + blocks;
    }
  }

  /**
   * After a pass `o` from a state the loop reached, with `flushed` what its
   * flush built: an error ends the conversion with it; otherwise the pass's
   * pieces are added and their blocks follow the result so far.
   */
  lemma PassKeepsInvariant(c: Context, pieces: seq<Piece>, result: seq<Block>, i: nat, buffer: seq<string>,
                           o: Outcome, flushed: Result<seq<Block>, string>)
    requires i <= |c.lines| + 1 && o.next <= |c.lines| + 1
    requires pieces + Run(c, i, buffer) == Run(c, 0, []) && BuildAll(c, pieces) == Success(result)
    requires Run(c, i, buffer) == Emitted(buffer, o) + Run(c, o.next, o.buffer)
    requires flushed == if o.flushes then BuildAll(c, Flush(buffer)) else Success([])
    ensures flushed.Failure? ==> Converted(c) == flushed
    ensures flushed.Success? ==>
              (pieces + Emitted(buffer, o)) + Run(c, o.next, o.buffer) == Run(c, 0, []) &&
              BuildAll(c, pieces + Emitted(buffer, o)) == Success(result + flushed.value + o.blocks)
  {
    EmittedBuild(c, buffer, o);
    ConcatAssoc(pieces, Emitted(buffer, o), Run(c, o.next, o.buffer));
    GatherPass(p => Build(c, p), pieces, Emitted(buffer, o), Run(c, o.next, o.buffer), result, flushed, o.blocks);
  }

  /** The final flush after the loop: the conversion is the blocks so far followed by the flushed paragraph. */
  lemma FinalFlush(c: Context, pieces: seq<Piece>, result: seq<Block>, i: nat, buffer: seq<string>)
    requires |c.lines| <= i <= |c.lines| + 1
    requires pieces + Run(c, i, buffer) == Run(c, 0, []) && BuildAll(c, pieces) == Success(result)
    ensures Converted(c) == Both(Success(result), BuildAll(c, Flush(buffer)))
  {
    RunAtEnd(c, i, buffer);
    BuildAllAppend(c, pieces, Flush(buffer));
  }

  /** The main loop of `convert` over the split lines. */
  method ConvertLines(c: Context) returns (r: Result<seq<Block>, string>)
    ensures r == Converted(c)
  {
    var skip := CurrentConverter.CaptionLines(c.lines);
    var result: seq<Block> := [];
    ghost var pieces: seq<Piece> := [];
    var buffer: seq<string> := [];
    var i := 0;
    while i < |c.lines|
      invariant i <= |c.lines| + 1
      invariant pieces + Run(c, i, buffer) == Run(c, 0, [])
      invariant BuildAll(c, pieces) == Success(result)
      decreases |c.lines| + 1 - i
    {
      var o := Step(c, skip, i, buffer);
      var flushed: Result<seq<Block>, string> := Success([]);
      if o.flushes {
        flushed := FlushBuffer(c, buffer);
      }
      RunStep(c, i, buffer);
      PassKeepsInvariant(c, pieces, result, i, buffer, o, flushed);
      if flushed.Failure? {
        return flushed;
      }
      pieces, result := pieces + Emitted(buffer, o), result + flushed.value + o.blocks;
      i, buffer := o.next, o.buffer;
    }
    var last := FlushBuffer(c, buffer);
    FinalFlush(c, pieces, result, i, buffer);
    if last.Failure? {
      return last;
    }
    r := Success(result + last.value);
  }

  // ---------------------------------------------------------------------
  // What a conversion produces

  /**
   * A block the older converter appends: a heading of level 1 to 5 with the
   * converter's numbering and no label, a list with at least one item, a
   * paragraph with some content, a non-empty math block, an image or a
   * table. The empty dictionary `{}` never reaches its result.
   */
  predicate Produced(numbered: bool, b: Block) {
    match b
    case Heading(_, level, n, ref) => 1 <= level <= 5 && n == numbered && ref.None?
    case ListBlock(_, items) => items != []
    case Paragraph(content) => content != []
    case MathBlock(text) => text != []
    case LegacyImage(_, _, _, _, _) => true
    case RawTable(_, _, _) => true
    case _ => false
  }

  predicate AllProduced(numbered: bool, blocks: seq<Block>) {
    forall k :: 0 <= k < |blocks| ==> Produced(numbered, blocks[k])
  }

  /** A piece as the loop appends it: a buffer whose first line is not blank, or produced blocks. */
  predicate Fits(numbered: bool, p: Piece) {
    match p
    case ParagraphLines(texts) => texts != [] && texts[0] != []
    case Appended(blocks) => AllProduced(numbered, blocks)
  }

  predicate AllFit(numbered: bool, ps: seq<Piece>) {
    forall k :: 0 <= k < |ps| ==> Fits(numbered, ps[k])
  }

  lemma AllFitAppend(numbered: bool, a: seq<Piece>, b: seq<Piece>)
    requires AllFit(numbered, a) && AllFit(numbered, b)
    ensures AllFit(numbered, a + b)
  {
    forall k | 0 <= k < |a + b| ensures Fits(numbered, (a + b)[k]) {
      if k >= |a| {
        assert (a + b)[k] == b[k - |a|];
      }
    }
  }

  lemma FlushFits(numbered: bool, buffer: seq<string>)
    requires CurrentConverter.Filled(buffer)
    ensures AllFit(numbered, Flush(buffer))
  {
  }

  /** A pass's blocks are of a sort `Produced` names; `Fits` then holds for its pieces when the buffer is filled. */
  lemma EmittedFits(numbered: bool, buffer: seq<string>, o: Outcome)
    requires CurrentConverter.Filled(buffer) && AllProduced(numbered, o.blocks)
    ensures AllFit(numbered, Emitted(buffer, o))
  {
    var flushed := if o.flushes then Flush(buffer) else [];
    assert AllFit(numbered, flushed);
    assert Fits(numbered, Appended(o.blocks));
    AllFitAppend(numbered, flushed, [Appended(o.blocks)]);
  }

  /** The line a references heading is read from starts with '#', so `_process_heading` never returns `{}` for it. */
  lemma ReferenceHeadingProduced(line: string, numbered: bool)
    ensures Produced(numbered, LegacyHeading(ReferenceHeadingLine(line), numbered))
  {
    if !StartsWith(line, "#") {
      assert ReferenceHeadingLine(line)[0] == '#';
    }
  }

  /** A references pass appends a heading of level 1 to 5 and paragraphs holding one reference line each. */
  lemma ReferencesProduced(c: Context, i: nat, line: string)
    requires i < |c.lines|
    ensures AllProduced(c.numbered, ReferencesAt(c, i, line).blocks)
  {
    var b := BlankEnd(c.lines, i + 1);
    var e := EntriesEnd(c.lines, b);
    var entries := Entries(ReferenceEntry, c.lines, b, e);
    ReferenceHeadingProduced(line, c.numbered);
    var blocks := [LegacyHeading(ReferenceHeadingLine(line), c.numbered)] + entries;
    forall k | 0 <= k < |blocks| ensures Produced(c.numbered, blocks[k]) {
      if k > 0 {
        assert blocks[k] == entries[k - 1];
        EntriesFromPickedLines(ReferenceEntry, c.lines, b, e, entries[k - 1]);
      }
    }
  }

  /** Every block a pass appends is one the converter means to produce. */
  lemma StepProduced(c: Context, i: nat, buffer: seq<string>)
    requires i < |c.lines|
    ensures AllProduced(c.numbered, StepAt(c, i, buffer).blocks)
  {
    var line := Strip(c.lines[i]);
    if !IsMathFence(line) && !CurrentConverter.CaptionLike(c.lines[i]) && IsReferenceSectionHeading(line) {
      ReferencesProduced(c, i, line);
    }
  }

  /** One pass appends fitting pieces and keeps the buffer's first line non-blank. */
  lemma StepFits(c: Context, i: nat, buffer: seq<string>)
    requires i < |c.lines| && CurrentConverter.Filled(buffer)
    ensures AllFit(c.numbered, Emitted(buffer, StepAt(c, i, buffer)))
    ensures CurrentConverter.Filled(StepAt(c, i, buffer).buffer)
  {
    StepProduced(c, i, buffer);
    EmittedFits(c.numbered, buffer, StepAt(c, i, buffer));
  }

  /** A pass `o` from a filled buffer, followed by a run that fits, fits. */
  lemma PassFits(c: Context, i: nat, buffer: seq<string>, o: Outcome)
    requires i <= |c.lines| + 1 && o.next <= |c.lines| + 1
    requires Run(c, i, buffer) == Emitted(buffer, o) + Run(c, o.next, o.buffer)
    requires AllFit(c.numbered, Emitted(buffer, o)) && AllFit(c.numbered, Run(c, o.next, o.buffer))
    ensures AllFit(c.numbered, Run(c, i, buffer))
  {
    AllFitAppend(c.numbered, Emitted(buffer, o), Run(c, o.next, o.buffer));
  }

  /** Every piece the loop appends fits. */
  lemma {:induction false} RunFits(c: Context, i: nat, buffer: seq<string>)
    requires i <= |c.lines| + 1 && CurrentConverter.Filled(buffer)
    ensures AllFit(c.numbered, Run(c, i, buffer))
    decreases |c.lines| + 1 - i
  {
    if i < |c.lines| {
      var o := StepAt(c, i, buffer);
      RunStep(c, i, buffer);
      StepFits(c, i, buffer);
      RunFits(c, o.next, o.buffer);
      PassFits(c, i, buffer, o);
    } else {
      RunAtEnd(c, i, buffer);
      FlushFits(c.numbered, buffer);
    }
  }

  /** A fitting piece builds produced blocks. */
  lemma BuildProduced(c: Context, p: Piece)
    requires Fits(c.numbered, p)
    ensures Build(c, p).Success? ==> AllProduced(c.numbered, Build(c, p).value)
  {
    if p.ParagraphLines? {
      CurrentConverter.JoinNotEmpty(" ", p.texts);
    }
  }

  lemma BuildAllProduced(c: Context, ps: seq<Piece>)
    requires AllFit(c.numbered, ps)
    ensures BuildAll(c, ps).Success? ==> AllProduced(c.numbered, BuildAll(c, ps).value)
  {
    var ok := b => Produced(c.numbered, b);
    forall k | 0 <= k < |ps| ensures AllBuilt(ok, Build(c, ps[k])) {
      BuildProduced(c, ps[k]);
    }
    GatherAllBuilt(p => Build(c, p), ok, ps);
  }

  /**
   * Every block of a successful conversion is one the converter appends on
   * purpose: in particular `{}` never reaches the result.
   */
  lemma ConvertedProduced(c: Context)
    ensures Converted(c).Success? ==> AllProduced(c.numbered, Converted(c).value)
  {
    RunFits(c, 0, []);
    BuildAllProduced(c, Run(c, 0, []));
  }

  /** Only a paragraph fails to build, exactly when one of its parts raises, with the unpacking error. */
  lemma BuildFails(c: Context, p: Piece)
    requires Fits(c.numbered, p)
    ensures Build(c, p).Failure? <==> p.ParagraphLines? && SomePartRaises(Split(Join(" ", p.texts), "__FOOTNOTE__"))
    ensures Build(c, p).Failure? ==> Build(c, p).error == UnpackError
  {
    if p.ParagraphLines? {
      CurrentConverter.JoinNotEmpty(" ", p.texts);
      ParagraphRaises(c.footnotes, Join(" ", p.texts));
    }
  }

  /** A paragraph the loop appends whose text has a part that raises. */
  predicate RaisingParagraph(p: Piece) {
    p.ParagraphLines? && SomePartRaises(Split(Join(" ", p.texts), "__FOOTNOTE__"))
  }

  /**
   * The conversion fails exactly when one of the paragraphs the loop appends
   * holds a cross reference or a hyperlink without `__URL__`, and then always
   * with the unpacking error.
   */
  lemma ConvertedFails(c: Context)
    ensures Converted(c).Failure? <==> exists k :: 0 <= k < |Run(c, 0, [])| && RaisingParagraph(Run(c, 0, [])[k])
    ensures Converted(c).Failure? ==> Converted(c).error == UnpackError
  {
    RunFits(c, 0, []);
    BuildAllFails(c, Run(c, 0, []));
  }

  /** Fitting pieces fail to build exactly when one is a raising paragraph, with the unpacking error. */
  lemma BuildAllFails(c: Context, ps: seq<Piece>)
    requires AllFit(c.numbered, ps)
    ensures BuildAll(c, ps).Failure? <==> exists k :: 0 <= k < |ps| && RaisingParagraph(ps[k])
    ensures BuildAll(c, ps).Failure? ==> BuildAll(c, ps).error == UnpackError
  {
    forall k | 0 <= k < |ps|
      ensures Build(c, ps[k]).Failure? <==> RaisingParagraph(ps[k])
      ensures Build(c, ps[k]).Failure? ==> Build(c, ps[k]).error == UnpackError
    {
      BuildFails(c, ps[k]);
    }
    GatherFails(p => Build(c, p), ps);
  }

  /** The older converter object: its footnote dictionary is replaced by every conversion. */
  class Converter {
    var footnotes: map<string, string>
    var numbered: bool

    constructor(numbered: bool)
      ensures this.footnotes == map[] && this.numbered == numbered
    {
      this.footnotes := map[];
      this.numbered := numbered;
    }

    /** `convert`: the blocks of `text`, or the error a paragraph raises; the footnotes it defines are kept. */
    method Convert(host: Host, text: string) returns (r: Result<seq<Block>, string>)
      modifies this
      ensures numbered == old(numbered)
      ensures footnotes == ProcessFootnotes(Normalized(host, text)).1
      ensures r == Document(host, text, numbered)
    {
      var normal := RepairText(host.nfc(text));
      var body;
      body, footnotes := ProcessFootnotes(normal).0, ProcessFootnotes(normal).1;
      var lines := Split(body, "\n");
      r := ConvertLines(Context(host, lines, footnotes, numbered));
    }
  }
}
