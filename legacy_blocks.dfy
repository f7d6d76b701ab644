/**
 * The block builders of the older converter (`src/papermill_converter.py`).
 * They read the same line syntax as the current builders, but headings carry
 * no reference, list items and table cells are formatted by the older inline
 * engine (cells not at all), an image whose file is missing keeps its URL,
 * and paragraph placeholders are read by their prefix.
 */
module LegacyBlocks {
  import opened Wrappers
  import opened Text
  import opened Host
  import opened Patterns
  import opened Nodes
  import CurrentInline
  import CurrentBlocks
  import opened LegacyInline
  import opened LegacyReferences

  // ---------------------------------------------------------------------
  // Headings

  /**
   * `_process_heading`: the number of '#' capped at five and the stripped
   * text after them; a line that does not start with '#' gives `{}`.
   */
  function LegacyHeading(line: string, numbered: bool): (b: Block)
    ensures b.Heading? <==> line != [] && line[0] == '#'
    ensures !b.Heading? ==> b == Empty
    ensures b.Heading? ==> b.level == (if HeadingAt(line).value.hashes < 5 then HeadingAt(line).value.hashes else 5)
    ensures b.Heading? ==> 1 <= b.level <= 5 && b.numbered == numbered && b.ref.None?
    ensures b.Heading? ==> b.text == [] || (!IsSpace(b.text[0]) && !IsSpace(b.text[|b.text| - 1]))
  {
    match HeadingAt(line)
    case None => Empty
    case Some(h) => Heading(Strip(h.text), if h.hashes < 5 then h.hashes else 5, numbered, None)
  }

  /** `n` hash characters. */
  function HashMarks(n: nat): (r: string)
    ensures |r| == n && forall k :: 0 <= k < n ==> r[k] == '#'
  {
    seq(n, _ => '#')
  }

  /**
   * A heading written as `n` hashes, a space and a stripped one-line text
   * that does not start with '#' reads back as that text at level `n`,
   * capped at five.
   */
  lemma HeadingRoundTrip(n: nat, t: string, numbered: bool)
    requires 1 <= n <= 6
    requires t == [] || (!IsSpace(t[0]) && !IsSpace(t[|t| - 1]) && t[0] != '#')
    requires forall k :: 0 <= k < |t| ==> t[k] != '\n'
    ensures LegacyHeading(HashMarks(n) + " " + t, numbered) == Heading(t, if n < 5 then n else 5, numbered, None)
  {
    var line := HashMarks(n) + " " + t;
    assert line[n] == ' ';
    assert HashRun(line, 0) == n;
    assert line[n + 1..] == t;
    assert SkipSpaces(line, n + 1) == n + 1 by {
      if n + 1 < |line| {
        assert line[n + 1] == t[0];
      }
    }
    assert SkipSpaces(line, n) == n + 1;
    assert LineEnd(line, n + 1) == |line| by {
      forall k | n + 1 <= k < |line| ensures line[k] != '\n' {
        assert line[k] == t[k - n - 1];
      }
    }
    assert line[n + 1..LineEnd(line, n + 1)] == t;
    assert HeadingAt(line) == Some(HeadingMatch(n, t));
    StripNoSpaceEnds(t);
  }

  /**
   * The heading of a reference section named by a bare title: the line is
   * read as `## <title>`, a level-two heading holding the title.
   */
  lemma BareTitleHeading(line: string, numbered: bool)
    requires SectionTitle(line) && !IsSpace(line[|line| - 1])
    requires forall k :: 0 <= k < |line| ==> line[k] != '\n'
    ensures LegacyHeading("## " + line, numbered) == Heading(line, 2, numbered, None)
  {
    TitleStartsWithLetter(line);
    assert "## " + line == HashMarks(2) + " " + line;
    HeadingRoundTrip(2, line, numbered);
  }

  // ---------------------------------------------------------------------
  // Lists

  /** One list item: the older formatter's runs, a bare run wrapped in a list of one. */
  function LegacyItem(text: string): (item: seq<Inline>)
    ensures item != []
    ensures text == [] ==> item == [Plain("")]
  {
    CurrentInline.Items(Format(text))
  }

  function LegacyItems(texts: seq<string>): (items: seq<seq<Inline>>)
    ensures |items| == |texts| && forall k :: 0 <= k < |texts| ==> items[k] == LegacyItem(texts[k])
  {
    seq(|texts|, k requires 0 <= k < |texts| => LegacyItem(texts[k]))
  }

  /**
   * `_process_list` from line `start`: the style chosen by the first line,
   * one item per line up to the first line that is not an item of that
   * style, and the index of that line.
   */
  function LegacyListAt(lines: seq<string>, start: nat): (r: (Block, nat))
    requires start < |lines|
    ensures r.0.ListBlock? && r.0.numberedStyle == CurrentBlocks.NumberedStyle(Strip(lines[start]))
    ensures start <= r.1 <= |lines| && |r.0.items| == r.1 - start
    ensures forall k :: start <= k < r.1 ==>
              var t := CurrentBlocks.ItemText(Strip(lines[k]), r.0.numberedStyle);
              t.Some? && r.0.items[k - start] == LegacyItem(t.value)
    ensures r.1 < |lines| ==> CurrentBlocks.ItemText(Strip(lines[r.1]), r.0.numberedStyle).None?
  {
    var numbered := CurrentBlocks.NumberedStyle(Strip(lines[start]));
    var next := CurrentBlocks.ListEnd(lines, start, numbered);
    var texts := CurrentBlocks.ItemTexts(lines, start, next, numbered);
    ItemTextsAt(lines, start, next, numbered);
    (ListBlock(numbered, LegacyItems(texts)), next)
  }

  /** The `k`-th item text is the text of line `start + k`. */
  lemma ItemTextsAt(lines: seq<string>, start: nat, e: nat, numbered: bool)
    requires start <= e <= |lines|
    requires forall k :: start <= k < e ==> CurrentBlocks.ItemText(Strip(lines[k]), numbered).Some?
    ensures forall k :: start <= k < e ==>
              CurrentBlocks.ItemTexts(lines, start, e, numbered)[k - start] == CurrentBlocks.ItemText(Strip(lines[k]), numbered).value
  {
    forall k | start <= k < e
      ensures CurrentBlocks.ItemTexts(lines, start, e, numbered)[k - start] == CurrentBlocks.ItemText(Strip(lines[k]), numbered).value
    {
      ItemTextAt(lines, start, e, numbered, k);
    }
  }

  lemma {:induction false} ItemTextAt(lines: seq<string>, start: nat, e: nat, numbered: bool, k: nat)
    requires start <= k < e <= |lines|
    requires forall j :: start <= j < e ==> CurrentBlocks.ItemText(Strip(lines[j]), numbered).Some?
    ensures CurrentBlocks.ItemTexts(lines, start, e, numbered)[k - start] == CurrentBlocks.ItemText(Strip(lines[k]), numbered).value
    decreases e
  {
    var front := CurrentBlocks.ItemTexts(lines, start, e - 1, numbered);
    var last := CurrentBlocks.ItemText(Strip(lines[e - 1]), numbered).value;
    assert CurrentBlocks.ItemTexts(lines, start, e, numbered) == front + [last];
    if k < e - 1 {
      ItemTextAt(lines, start, e - 1, numbered, k);
      assert (front + [last])[k - start] == front[k - start];
    }
  }

  /** Both converters cut the same lines into a list, of the same style; only the items' formatting differs. */
  lemma ListLinesAgree(lines: seq<string>, start: nat)
    requires start < |lines|
    ensures LegacyListAt(lines, start).1 == CurrentBlocks.ListAt(lines, start).1
    ensures LegacyListAt(lines, start).0.numberedStyle == CurrentBlocks.ListAt(lines, start).0.numberedStyle
  {
  }

  /** A line that opens a list is always consumed by it. */
  lemma ListConsumesFirstLine(lines: seq<string>, start: nat)
    requires start < |lines| && ListMarkerAt(Strip(lines[start])).Some?
    ensures LegacyListAt(lines, start).1 > start
  {
    CurrentBlocks.FirstLineIsItem(Strip(lines[start]));
  }

  lemma LegacyItemsSnoc(texts: seq<string>, t: string)
    ensures LegacyItems(texts + [t]) == LegacyItems(texts) + [LegacyItem(t)]
  {
    var a := LegacyItems(texts + [t]);
    var b := LegacyItems(texts) + [LegacyItem(t)];
    forall k | 0 <= k < |a| ensures a[k] == b[k] {
    }
  }

  /** The item loop of `_process_list`. */
  method ProcessList(lines: seq<string>, start: nat) returns (b: Block, next: nat)
    requires start < |lines|
    ensures (b, next) == LegacyListAt(lines, start)
  {
    var numbered := CurrentBlocks.NumberedStyle(Strip(lines[start]));
    ghost var texts: seq<string> := [];
    var items: seq<seq<Inline>> := [];
    var i := start;
    while i < |lines|
      invariant start <= i <= |lines| && CurrentBlocks.ListEnd(lines, i, numbered) == CurrentBlocks.ListEnd(lines, start, numbered)
      invariant texts == CurrentBlocks.ItemTexts(lines, start, i, numbered)
      invariant items == LegacyItems(texts)
    {
      var t := CurrentBlocks.ItemText(Strip(lines[i]), numbered);
      if t.None? {
        break;
      }
      var tokens := ProcessInlineFormatting(t.value);
      LegacyItemsSnoc(texts, t.value);
      texts := texts + [t.value];
      items := items + [CurrentInline.Items(tokens)];
      i := i + 1;
    }
    b := ListBlock(numbered, items);
    next := i;
  }

  // ---------------------------------------------------------------------
  // Tables

  /** The table whose header is line `h`, with the caption found before it, if any. */
  function LegacyTableFrom(lines: seq<string>, h: nat, caption: Option<string>): (r: (Block, nat))
    requires h < |lines|
    ensures r.0.RawTable? && h < r.1 <= |lines|
  {
    var b := CurrentBlocks.BodyStart(lines, h);
    var e := CurrentBlocks.TableEnd(lines, b);
    var (caption', next) := CurrentBlocks.TrailingCaption(lines, caption, e);
    (RawTable(Cells(Strip(lines[h])), CurrentBlocks.Rows(lines, b, e), if caption'.Some? then caption'.value else ""), next)
  }

  /**
   * What the raw table holds: the header line's cells; one body row per
   * line from the body start up to the first line not starting with '|',
   * each that line's cells; and the caption found, or "" when none (or an
   * empty one) was found.
   */
  lemma LegacyTableContents(lines: seq<string>, h: nat, caption: Option<string>)
    requires h < |lines|
    ensures var t := LegacyTableFrom(lines, h, caption).0;
            t.RawTable? && t.rawHeader == Cells(Strip(lines[h]))
    ensures var b := CurrentBlocks.BodyStart(lines, h); var e := CurrentBlocks.TableEnd(lines, b);
            var t := LegacyTableFrom(lines, h, caption).0;
            t.RawTable? && |t.rawBody| == e - b &&
            forall k :: 0 <= k < e - b ==> t.rawBody[k] == Cells(Strip(lines[b + k])) && CurrentBlocks.TableLine(lines[b + k])
    ensures var c := CurrentBlocks.TrailingCaption(lines, caption, CurrentBlocks.TableEnd(lines, CurrentBlocks.BodyStart(lines, h)));
            var r := LegacyTableFrom(lines, h, caption);
            r.0.RawTable? && (r.0.caption == "" <==> c.0.None? || c.0.value == "") && r.1 == c.1
  {
    var b := CurrentBlocks.BodyStart(lines, h);
    var e := CurrentBlocks.TableEnd(lines, b);
    var t := LegacyTableFrom(lines, h, caption).0;
    assert t.rawBody == CurrentBlocks.Rows(lines, b, e);
  }

  /**
   * `_process_table` from line `start`: as in the current converter, but the
   * header and body cells are kept as the stripped strings between the bars.
   */
  function LegacyTableAt(lines: seq<string>, start: nat): (r: (Option<Block>, nat))
    requires start < |lines|
    ensures r.0.Some? ==> r.0.value.RawTable?
    ensures start <= r.1 <= |lines|
    ensures r.0.None? <==> FindCaption(lines, start).1 == |lines| || !CurrentBlocks.TableLine(lines[FindCaption(lines, start).1])
    ensures r.0.None? ==> r.1 == FindCaption(lines, start).1
    ensures r.0.Some? ==>
              var (caption, h) := FindCaption(lines, start);
              h < |lines| && (r.0.value, r.1) == LegacyTableFrom(lines, h, caption)
  {
    var (caption, h) := FindCaption(lines, start);
    if h >= |lines| || !CurrentBlocks.TableLine(lines[h]) then (None, h)
    else
      var (t, next) := LegacyTableFrom(lines, h, caption);
      (Some(t), next)
  }

  /**
   * Both converters find the same table over the same lines and continue
   * from the same index; the current one formats each cell the older one
   * keeps as a string.
   */
  lemma TableAgrees(lines: seq<string>, start: nat)
    requires start < |lines|
    ensures LegacyTableAt(lines, start).1 == CurrentBlocks.TableNext(lines, start)
    ensures LegacyTableAt(lines, start).0.None? <==> CurrentBlocks.TableAt(lines, start).0.None?
    ensures LegacyTableAt(lines, start).0.Some? ==>
              var raw := LegacyTableAt(lines, start).0.value;
              CurrentBlocks.TableAt(lines, start).0.value ==
                Table(CurrentBlocks.CellRow(raw.rawHeader), CurrentBlocks.CellRows(raw.rawBody), raw.caption)
  {
    CurrentBlocks.TableNextIsTableAt(lines, start);
  }

  /** A line starting with '|' is always consumed by the table it opens. */
  lemma TableConsumesFirstLine(lines: seq<string>, start: nat)
    requires start < |lines| && CurrentBlocks.TableLine(lines[start])
    ensures LegacyTableAt(lines, start).1 > start
  {
    TableAgrees(lines, start);
  }

  /**
   * `re.match(f'^{pattern}\.?\s*\d+', line, re.IGNORECASE)` for the four
   * prefixes `Table`, `Tab`, `TABLE`, `TAB`; with case folded they are two
   * words, each tried twice.
   */
  method MatchesCaptionPrefix(line: string) returns (found: bool)
    ensures found == IsTableCaption(line)
  {
    var prefixes := ["table", "tab", "table", "tab"];
    found := false;
    var k := 0;
    while k < |prefixes| && !found
      invariant 0 <= k <= |prefixes|
      invariant found <==> exists j :: 0 <= j < k && LabelledNumber(line, prefixes[j])
    {
      found := LabelledNumber(line, prefixes[k]);
      k := k + 1;
    }
    assert prefixes[0] == "table" && prefixes[1] == "tab";
  }

  /** Which lines hold a table caption. */
  function CaptionMarks(lines: seq<string>): (marks: seq<bool>)
    ensures |marks| == |lines|
  {
    seq(|lines|, j requires 0 <= j < |lines| => CaptionLine(lines, j))
  }

  lemma MarkAt(lines: seq<string>, j: nat)
    requires j < |lines|
    ensures CaptionMarks(lines)[j] == CaptionLine(lines, j)
  {
  }

  /** The first marked index in `lo..hi`. */
  function FirstMarked(marks: seq<bool>, lo: nat, hi: nat): (r: Option<nat>)
    requires lo <= hi <= |marks|
    decreases hi - lo
    ensures r.Some? ==> lo <= r.value < hi
  {
    if lo == hi then None else if marks[lo] then Some(lo) else FirstMarked(marks, lo + 1, hi)
  }

  lemma FirstMarkedStep(marks: seq<bool>, i: nat, hi: nat)
    requires i < hi <= |marks|
    ensures FirstMarked(marks, i, hi) == if marks[i] then Some(i) else FirstMarked(marks, i + 1, hi)
  {
  }

  /** The window above `start` is the (at most) two lines before it, top first. */
  lemma AboveIsFirst(lines: seq<string>, start: nat)
    requires start <= |lines|
    ensures CaptionAbove(lines, start) == FirstMarked(CaptionMarks(lines), AboveWindow(start).0, AboveWindow(start).1)
  {
    if start >= 2 {
      MarkAt(lines, start - 2);
      MarkAt(lines, start - 1);
      FirstOfTwo(CaptionMarks(lines), start - 2);
    } else if start == 1 {
      MarkAt(lines, 0);
      FirstOfOne(CaptionMarks(lines), 0);
    }
  }

  /** The window below `start` is the (at most) two lines after it that exist, nearest first. */
  lemma BelowIsFirst(lines: seq<string>, start: nat)
    requires start <= |lines|
    ensures CaptionBelow(lines, start) == FirstMarked(CaptionMarks(lines), BelowWindow(lines, start).0, BelowWindow(lines, start).1)
  {
    if start + 3 <= |lines| {
      MarkAt(lines, start + 1);
      MarkAt(lines, start + 2);
      FirstOfTwo(CaptionMarks(lines), start + 1);
    } else if start + 2 == |lines| {
      MarkAt(lines, start + 1);
      FirstOfOne(CaptionMarks(lines), start + 1);
    }
  }

  lemma FirstOfTwo(marks: seq<bool>, a: nat)
    requires a + 2 <= |marks|
    ensures FirstMarked(marks, a, a + 2) == if marks[a] then Some(a) else if marks[a + 1] then Some(a + 1) else None
  {
  }

  lemma FirstOfOne(marks: seq<bool>, a: nat)
    requires a + 1 <= |marks|
    ensures FirstMarked(marks, a, a + 1) == if marks[a] then Some(a) else None
  {
  }

  /** One step of the scan: whether line `i`, stripped, starts a table caption. */
  method IsCaptionLine(lines: seq<string>, i: nat) returns (found: bool)
    requires i < |lines|
    ensures found == CaptionMarks(lines)[i]
  {
    found := MatchesCaptionPrefix(Strip(lines[i]));
    MarkAt(lines, i);
  }

  /** One index loop of `_find_caption`: the first line in `lo..hi` that holds a table caption. */
  method ScanCaptionLines(lines: seq<string>, lo: nat, hi: nat) returns (idx: Option<nat>)
    requires lo <= hi <= |lines|
    ensures idx == FirstMarked(CaptionMarks(lines), lo, hi)
  {
    ghost var marks := CaptionMarks(lines);
    assert |marks| == |lines|;
    var i := lo;
    while i < hi
      invariant lo <= i <= hi
      invariant FirstMarked(marks, i, hi) == FirstMarked(marks, lo, hi)
    {
      var found := IsCaptionLine(lines, i);
      ScanStep(marks, lo, i, hi, found);
      if found {
        return Some(i);
      }
      i := i + 1;
    }
    FirstMarkedEmpty(marks, hi);
    return None;
  }

  /** One step of the scan over `marks`: a marked line is the first one, and an unmarked one is passed over. */
  lemma ScanStep(marks: seq<bool>, lo: nat, i: nat, hi: nat, found: bool)
    requires lo <= i < hi <= |marks| && found == marks[i]
    requires FirstMarked(marks, i, hi) == FirstMarked(marks, lo, hi)
    ensures found ==> FirstMarked(marks, lo, hi) == Some(i)
    ensures !found ==> FirstMarked(marks, i + 1, hi) == FirstMarked(marks, lo, hi)
  {
    FirstMarkedStep(marks, i, hi);
  }

  lemma FirstMarkedEmpty(marks: seq<bool>, hi: nat)
    requires hi <= |marks|
    ensures FirstMarked(marks, hi, hi).None?
  {
  }

  /** The two windows `_find_caption` scans: up to two lines above `start`, and up to two below it. */
  function AboveWindow(start: nat): (r: (nat, nat)) {
    (if start >= 2 then start - 2 else 0, start)
  }

  function BelowWindow(lines: seq<string>, start: nat): (r: (nat, nat))
    ensures r.0 <= r.1 <= |lines|
  {
    var hi := if |lines| < start + 3 then |lines| else start + 3;
    (if start + 1 < hi then start + 1 else hi, hi)
  }

  /** `_find_caption`'s result from the first caption line of each window. */
  lemma FindCaptionFromScans(lines: seq<string>, start: nat, above: Option<nat>, below: Option<nat>,
                              caption: Option<string>, next: nat)
    requires start <= |lines|
    requires above == FirstMarked(CaptionMarks(lines), AboveWindow(start).0, AboveWindow(start).1)
    requires below == FirstMarked(CaptionMarks(lines), BelowWindow(lines, start).0, BelowWindow(lines, start).1)
    requires above.Some? ==> caption == Some(CleanCaption(Strip(lines[above.value]))) && next == start
    requires above.None? && below.Some? ==> caption == Some(CleanCaption(Strip(lines[below.value]))) && next == below.value + 1
    requires above.None? && below.None? ==> caption == None && next == start
    ensures (caption, next) == FindCaption(lines, start)
  {
    AboveIsFirst(lines, start);
    BelowIsFirst(lines, start);
    FindCaptionWindows(lines, start, above, below, caption, next);
  }

  /** `_find_caption`'s result from the caption line of each window. */
  lemma FindCaptionWindows(lines: seq<string>, start: nat, above: Option<nat>, below: Option<nat>,
                           caption: Option<string>, next: nat)
    requires start <= |lines|
    requires above == CaptionAbove(lines, start) && below == CaptionBelow(lines, start)
    requires above.Some? ==> caption == Some(CleanCaption(Strip(lines[above.value]))) && next == start
    requires above.None? && below.Some? ==> caption == Some(CleanCaption(Strip(lines[below.value]))) && next == below.value + 1
    requires above.None? && below.None? ==> caption == None && next == start
    ensures (caption, next) == FindCaption(lines, start)
  {
  }

  /** `_find_caption`: the lines above `start`, top first, then the lines below it, nearest first. */
  method FindCaptionLines(lines: seq<string>, start: nat) returns (caption: Option<string>, next: nat)
    requires start <= |lines|
    ensures (caption, next) == FindCaption(lines, start)
  {
    var (lo, hi) := AboveWindow(start);
    var above := ScanCaptionLines(lines, lo, hi);
    ghost var below := FirstMarked(CaptionMarks(lines), BelowWindow(lines, start).0, BelowWindow(lines, start).1);
    if above.Some? {
      caption, next := Some(CleanCaption(Strip(lines[above.value]))), start;
    } else {
      var (lo', hi') := BelowWindow(lines, start);
      var found := ScanCaptionLines(lines, lo', hi');
      if found.Some? {
        caption, next := Some(CleanCaption(Strip(lines[found.value]))), found.value + 1;
      } else {
        caption, next := None, start;
      }
    }
    FindCaptionFromScans(lines, start, above, below, caption, next);
  }

  /** `_process_table` once its header line `h` is known: the separator, the body loop and the trailing caption. */
  method ProcessTableFrom(lines: seq<string>, h: nat, caption: Option<string>) returns (t: Block, next: nat)
    requires h < |lines|
    ensures (t, next) == LegacyTableFrom(lines, h, caption)
  {
    var header := Cells(Strip(lines[h]));
    var i := h + 1;
    if i < |lines| && IsSeparatorRow(Strip(lines[i])) {
      i := i + 1;
    }
    assert i == CurrentBlocks.BodyStart(lines, h);
    var rows, e := CurrentBlocks.ReadRows(lines, i);
    var caption' := caption;
    next := e;
    if caption.None? || caption.value == [] {
      caption', next := FindCaptionLines(lines, e);
    }
    assert (caption', next) == CurrentBlocks.TrailingCaption(lines, caption, e);
    t := RawTable(header, rows, if caption'.Some? then caption'.value else "");
  }

  method ProcessTable(lines: seq<string>, start: nat) returns (t: Option<Block>, next: nat)
    requires start < |lines|
    ensures (t, next) == LegacyTableAt(lines, start)
  {
    var caption, h := FindCaptionLines(lines, start);
    if h >= |lines| || !StartsWith(Strip(lines[h]), "|") {
      return None, h;
    }
    var table;
    table, next := ProcessTableFrom(lines, h, caption);
    t := Some(table);
  }

  // ---------------------------------------------------------------------
  // Images

  /** The extensions the older `_handle_image_url` tells apart. */
  const LegacyMimeTypes: map<string, string> := map[
    ".png" := "image/png", ".jpg" := "image/jpeg", ".jpeg" := "image/jpeg", ".gif" := "image/gif"]

  /** The MIME type for a lower-cased file extension: PNG, JPEG and GIF are known, anything else is sent as PNG. */
  function LegacyMime(ext: string): (m: string)
    ensures m == if ext in LegacyMimeTypes then LegacyMimeTypes[ext] else "image/png"
    ensures StartsWith(m, "image/")
    ensures ext != ".bmp" && ext != ".webp" ==> m == CurrentBlocks.MimeType(ext)
    ensures ext == ".bmp" || ext == ".webp" ==> m == "image/png" != CurrentBlocks.MimeType(ext)
  {
    if ext == ".png" then "image/png"
    else if ext == ".jpg" || ext == ".jpeg" then "image/jpeg"
    else if ext == ".gif" then "image/gif"
    else "image/png"
  }

  /** The data URL of a local file. */
  function DataUrl(host: Host, local: string, mime: string): string
    requires local in host.files
  {
    "data:" + mime + ";base64," + host.base64(host.files[local])
  }

  /**
   * `_handle_image_url`: remote and inline URLs pass through; a local file
   * is inlined as a base64 data URL; a missing file keeps the URL as it was.
   */
  function LegacyImageUrl(host: Host, url: string): (r: string)
    ensures IsRemoteOrInline(url) ==> r == url
    ensures !IsRemoteOrInline(url) && host.unquote(url) !in host.files ==> r == url
    ensures !IsRemoteOrInline(url) && host.unquote(url) in host.files ==>
              r == DataUrl(host, host.unquote(url), LegacyMime(Extension(LowerAsciiString(host.unquote(url)))))
  {
    if IsRemoteOrInline(url) then url
    else
      var local := host.unquote(url);
      if local in host.files then DataUrl(host, local, LegacyMime(Extension(LowerAsciiString(local))))
      else url
  }

  /**
   * Where the current converter raises for a missing file the older one
   * keeps the URL; where it succeeds both give the same URL unless the file
   * is a BMP or WebP image.
   */
  lemma ImageUrlAgrees(host: Host, url: string)
    ensures CurrentBlocks.ImageUrl(host, url).Failure? ==> LegacyImageUrl(host, url) == url
    ensures CurrentBlocks.ImageUrl(host, url).Success? &&
            (IsRemoteOrInline(url) || Extension(LowerAsciiString(host.unquote(url))) !in {".bmp", ".webp"}) ==>
              LegacyImageUrl(host, url) == CurrentBlocks.ImageUrl(host, url).value
  {
  }

  /** The caption of the older image object is a list of one string. */
  function Listed(c: Option<string>): (r: Option<seq<string>>)
    ensures r.Some? <==> c.Some?
    ensures r.Some? ==> r.value == [c.value]
  {
    if c.Some? then Some([c.value]) else None
  }

  /**
   * `_process_image`: without both an alt part and a target the object is a
   * bare image; otherwise the URL is resolved (it never fails), a non-empty
   * alt text is the caption and a non-empty title's attributes are applied
   * after it.
   */
  function LegacyImageBlock(host: Host, line: string): (b: Block)
    ensures b.LegacyImage?
    ensures ParseImageLine(line).None? ==> b == LegacyImage(None, None, None, None, false)
    ensures ParseImageLine(line).Some? ==>
              var attrs := ImageAttributes(ParseImageLine(line).value);
              b.url == Some(LegacyImageUrl(host, ParseImageLine(line).value.url)) &&
              b.captionList == Listed(attrs.caption) && b.imageRef == attrs.ref &&
              b.width == attrs.width && b.fullWidth == attrs.fullWidth
  {
    match ParseImageLine(line)
    case None => LegacyImage(None, None, None, None, false)
    case Some(img) =>
      var attrs := ImageAttributes(img);
      LegacyImage(Some(LegacyImageUrl(host, img.url)), Listed(attrs.caption), attrs.ref, attrs.width, attrs.fullWidth)
  }

  /** Where the current converter builds an image, the older one carries the same caption and attributes. */
  lemma ImageAgrees(host: Host, line: string)
    requires CurrentBlocks.ImageBlock(host, line).Success?
    ensures var cur := CurrentBlocks.ImageBlock(host, line).value;
            var prev := LegacyImageBlock(host, line);
            prev.captionList == Listed(cur.attrs.caption) && prev.imageRef == cur.attrs.ref &&
            prev.width == cur.attrs.width && prev.fullWidth == cur.attrs.fullWidth &&
            (cur.url.None? <==> prev.url.None?)
  {
  }

  /** `_process_image`, with the attribute loop run over the title. */
  method ProcessImage(host: Host, line: string) returns (b: Block)
    ensures b == LegacyImageBlock(host, line)
  {
    var img := ParseImageLine(line);
    if img.None? {
      return LegacyImage(None, None, None, None, false);
    }
    var url := LegacyImageUrl(host, img.value.url);
    var attrs := ImageAttrs(if img.value.alt != [] then Some(img.value.alt) else None, None, None, false);
    if img.value.title.Some? && img.value.title.value != [] {
      attrs := ApplyTitleAttributes(attrs, img.value.title.value);
    }
    b := LegacyImage(Some(url), Listed(attrs.caption), attrs.ref, attrs.width, attrs.fullWidth);
  }

  // ---------------------------------------------------------------------
  // Paragraphs

  /**
   * The error both failing unpacks raise: `_, ref_id = footnote_id.split('__')`,
   * where the id is the text before the first `__` and so never splits in two,
   * and `link_text, url = remaining.split('__URL__', 1)` without a `__URL__`.
   */
  const UnpackError := "not enough values to unpack (expected 2, got 1)"

  /**
   * One part of the text split on `__FOOTNOTE__`. A part holding `__` is a
   * placeholder read by its prefix: a cross reference (which always fails to
   * unpack), a hyperlink, inline math, or else a footnote whose id is the
   * text before the first `__` (the rest of the part is dropped). Any other
   * part is inline text.
   */
  function LegacyPartRuns(footnotes: map<string, string>, part: string): (r: Result<seq<Inline>, string>)
    ensures r.Failure? ==> r.error == UnpackError && (StartsWith(part, "CROSS_REF__") || StartsWith(part, "HYPERLINK__"))
    ensures !Contains(part, "__") ==> r == Success(CurrentInline.Flat(InlineText(Strip(part))))
  {
    if Contains(part, "__") then
      var (fid, rem) := SplitOnce(part, "__");
      if StartsWith(part, "CROSS_REF__") then Failure(UnpackError)
      else if StartsWith(part, "HYPERLINK__") then
        if Contains(rem, "__URL__") then
          var (text, url) := SplitOnce(rem, "__URL__");
          Success([Styled(NoFlags, text, Some(url))])
        else Failure(UnpackError)
      else if StartsWith(part, "INLINE_MATH__") then Success([Math(Drop(fid, 13))])
      else Success([Footnote(if fid in footnotes then footnotes[fid] else "")])
    else Success(CurrentInline.Flat(InlineText(Strip(part))))
  }

  /** Two results one after the other: the first error, or both lists joined. */
  function Both<T>(x: Result<seq<T>, string>, y: Result<seq<T>, string>): (r: Result<seq<T>, string>)
    ensures x.Failure? ==> r == x
    ensures x.Success? && y.Failure? ==> r == y
    ensures x.Success? && y.Success? ==> r == Success(x.value + y.value)
  {
    match x
    case Failure(e) => Failure(e)
    case Success(a) => (match y case Failure(e) => Failure(e) case Success(b) => Success(a + b))
  }

  /** `f` applied to each item in order: the first error, or all the lists one after the other. */
  function Gather<P, T>(f: P -> Result<seq<T>, string>, ps: seq<P>): Result<seq<T>, string>
    decreases |ps|
  {
    if ps == [] then Success([]) else Both(Gather(f, ps[..|ps| - 1]), f(ps[|ps| - 1]))
  }

  /** The runs of the parts in order, or the error of the first part that raises. */
  function PartsRuns(footnotes: map<string, string>, parts: seq<string>): Result<seq<Inline>, string> {
    Gather(part => LegacyPartRuns(footnotes, part), parts)
  }

  /**
   * `_process_paragraph`: the empty text is an empty paragraph; otherwise the
   * parts' runs, or `[""]` when there are none, or the error a part raises.
   */
  function LegacyParagraph(footnotes: map<string, string>, text: string): (r: Result<Block, string>)
    ensures r.Success? ==> r.value.Paragraph? && (text != [] ==> r.value.content != [])
    ensures text == [] ==> r == Success(Paragraph([]))
  {
    if text == [] then Success(Paragraph([]))
    else match PartsRuns(footnotes, Split(text, "__FOOTNOTE__"))
      case Failure(e) => Failure(e)
      case Success(content) => Success(Paragraph(CurrentBlocks.NonEmpty(content)))
  }

  // ---------------------------------------------------------------------
  // The paragraph loop

  /** The body of the loop of `_process_paragraph` for one part. */
  method ProcessPart(footnotes: map<string, string>, part: string) returns (r: Result<seq<Inline>, string>)
    ensures r == LegacyPartRuns(footnotes, part)
  {
    if !Contains(part, "__") {
      var formatted := ProcessInlineMathAndFormatting(Strip(part));
      return Success(CurrentInline.Flat(formatted));
    }
    var (fid, rem) := SplitOnce(part, "__");
    if StartsWith(part, "CROSS_REF__") {
      return Failure(UnpackError);
    } else if StartsWith(part, "HYPERLINK__") {
      if !Contains(rem, "__URL__") {
        return Failure(UnpackError);
      }
      var (text, url) := SplitOnce(rem, "__URL__");
      r := Success([Styled(NoFlags, text, Some(url))]);
    } else if StartsWith(part, "INLINE_MATH__") {
      r := Success([Math(Drop(fid, 13))]);
    } else {
      r := Success([Footnote(if fid in footnotes then footnotes[fid] else "")]);
    }
  }

  /** The parts up to `k + 1`: those up to `k`, then part `k`. */
  lemma PartsRunsSnoc(footnotes: map<string, string>, parts: seq<string>, k: nat)
    requires k < |parts|
    ensures PartsRuns(footnotes, parts[..k + 1]) == Both(PartsRuns(footnotes, parts[..k]), LegacyPartRuns(footnotes, parts[k]))
  {
    assert parts[..k + 1][..k] == parts[..k];
    assert parts[..k + 1][k] == parts[k];
  }

  /** The loop of `_process_paragraph` over the parts, stopping at the first part that raises. */
  method ProcessParts(footnotes: map<string, string>, parts: seq<string>) returns (r: Result<seq<Inline>, string>)
    ensures r == PartsRuns(footnotes, parts)
  {
    var content: seq<Inline> := [];
    var k := 0;
    while k < |parts|
      invariant k <= |parts|
      invariant PartsRuns(footnotes, parts[..k]) == Success(content)
    {
      var runs := ProcessPart(footnotes, parts[k]);
      PartsRunsSnoc(footnotes, parts, k);
      if runs.Failure? {
        GatherStaysFailed(part => LegacyPartRuns(footnotes, part), parts, k + 1);
        return Failure(runs.error);
      }
      content := content + runs.value;
      k := k + 1;
    }
    assert parts[..k] == parts;
    r := Success(content);
  }

  /** `_process_paragraph`. */
  method ProcessParagraph(footnotes: map<string, string>, text: string) returns (r: Result<Block, string>)
    ensures r == LegacyParagraph(footnotes, text)
  {
    if text == [] {
      return Success(Paragraph([]));
    }
    var parts := Split(text, "__FOOTNOTE__");
    var content := ProcessParts(footnotes, parts);
    if content.Failure? {
      return Failure(content.error);
    }
    r := Success(Paragraph(CurrentBlocks.NonEmpty(content.value)));
  }

  // ---------------------------------------------------------------------
  // Paragraph properties

  lemma BothAssoc<T>(x: Result<seq<T>, string>, y: Result<seq<T>, string>, z: Result<seq<T>, string>)
    ensures Both(Both(x, y), z) == Both(x, Both(y, z))
  {
    if x.Success? && y.Success? && z.Success? {
      assert x.value + y.value + z.value == x.value + (y.value + z.value);
    }
  }

  lemma BothNil<T>(x: Result<seq<T>, string>)
    ensures Both(x, Success([])) == x
  {
    if x.Success? {
      assert x.value + [] == x.value;
    }
  }

  /** Gathering a concatenation: the first part's error, or both parts gathered one after the other. */
  lemma {:induction false} GatherAppend<P, T>(f: P -> Result<seq<T>, string>, a: seq<P>, b: seq<P>)
    ensures Gather(f, a + b) == Both(Gather(f, a), Gather(f, b))
    decreases |b|
  {
    if b == [] {
      assert a + b == a;
      BothNil(Gather(f, a));
    } else {
      var b' := b[..|b| - 1];
      assert (a + b)[..|a + b| - 1] == a + b';
      assert (a + b)[|a + b| - 1] == b[|b| - 1];
      GatherAppend(f, a, b');
      BothAssoc(Gather(f, a), Gather(f, b'), f(b[|b| - 1]));
    }
  }

  lemma GatherOne<P, T>(f: P -> Result<seq<T>, string>, p: P)
    ensures Gather(f, [p]) == f(p)
  {
    assert [p][..0] == [];
    assert Gather(f, [p][..0]) == Success([]);
    var r := f(p);
    if r.Success? {
      assert [] + r.value == r.value;
    }
  }

  /** Once a prefix has failed, the whole list fails with that error. */
  lemma {:induction false} GatherStaysFailed<P, T>(f: P -> Result<seq<T>, string>, ps: seq<P>, k: nat)
    requires k <= |ps| && Gather(f, ps[..k]).Failure?
    ensures Gather(f, ps) == Gather(f, ps[..k])
    decreases |ps| - k
  {
    if k < |ps| {
      assert ps[..k + 1][..k] == ps[..k];
      GatherStaysFailed(f, ps, k + 1);
    } else {
      assert ps[..k] == ps;
    }
  }

  /** Item `k` is the first whose result fails: every item before it succeeds. */
  predicate FirstFailure<P, T>(f: P -> Result<seq<T>, string>, ps: seq<P>, k: nat) {
    k < |ps| && f(ps[k]).Failure? && forall j :: 0 <= j < k ==> f(ps[j]).Success?
  }

  /**
   * Gathering fails exactly when some item fails, and then with the error of
   * the first item that fails.
   */
  lemma {:induction false} GatherFails<P, T>(f: P -> Result<seq<T>, string>, ps: seq<P>)
    ensures Gather(f, ps).Failure? <==> exists k :: 0 <= k < |ps| && f(ps[k]).Failure?
    ensures Gather(f, ps).Failure? ==> exists k: nat :: FirstFailure(f, ps, k) && Gather(f, ps).error == f(ps[k]).error
    decreases |ps|
  {
    if ps != [] {
      var init := ps[..|ps| - 1];
      var n := |ps| - 1;
      GatherFails(f, init);
      if Gather(f, init).Failure? {
        var k: nat :| FirstFailure(f, init, k) && Gather(f, init).error == f(init[k]).error;
        assert init[k] == ps[k];
        assert forall j :: 0 <= j < k ==> init[j] == ps[j];
        assert FirstFailure(f, ps, k);
      } else {
        assert forall j :: 0 <= j < n ==> f(ps[j]).Success? by {
          forall j | 0 <= j < n ensures f(ps[j]).Success? {
            assert init[j] == ps[j];
          }
        }
        if f(ps[n]).Failure? {
          assert FirstFailure(f, ps, n);
        }
      }
    }
  }

  /** A part that raises: a cross reference, or a hyperlink without its `__URL__`. */
  predicate Raises(part: string) {
    StartsWith(part, "CROSS_REF__") ||
    (StartsWith(part, "HYPERLINK__") && Contains(part, "__") && !Contains(SplitOnce(part, "__").1, "__URL__"))
  }

  /** `p` at the start of `s` is found at index 0. */
  lemma PrefixFound(s: string, p: string)
    requires p != [] && StartsWith(s, p)
    ensures IsPrefixAt(p, s, 0) && Contains(s, p)
  {
    assert s[0..|p|] == p;
    FirstMatchAt(s, p, 0);
  }

  /** A word without `__` followed by `__` is split at that `__`. */
  lemma SplitAfterWord(w: string, rest: string)
    requires !Contains(w, "__") && w != [] && w[|w| - 1] != '_'
    ensures Contains(w + "__" + rest, "__")
    ensures SplitOnce(w + "__" + rest, "__") == (w, rest)
  {
    var s := w + "__" + rest;
    forall k | 0 <= k < |w| ensures !IsPrefixAt("__", s, k) {
      if k + 1 < |w| {
        assert s[k..k + 2] == w[k..k + 2];
        assert !IsPrefixAt("__", w, k);
      } else {
        assert s[k..k + 2][0] == w[k];
      }
    }
    assert s[|w|..|w| + 2] == "__";
    FirstMatchAt(s, "__", |w|);
    assert s[..|w|] == w;
    assert s[|w| + 2..] == rest;
  }

  /** An occurrence at `k` means `find` succeeds. */
  lemma FindFromFindsSome(s: string, p: string, k: nat)
    requires IsPrefixAt(p, s, k)
    ensures Contains(s, p)
  {
  }

  /** A part starting with `W__` is split after `W`. */
  lemma PrefixSplit(part: string, w: string)
    requires !Contains(w, "__") && w != [] && w[|w| - 1] != '_' && StartsWith(part, w + "__")
    ensures Contains(part, "__") && SplitOnce(part, "__") == (w, part[|w| + 2..])
  {
    assert part == w + "__" + part[|w| + 2..] by {
      assert part[..|w| + 2] == w + "__";
    }
    SplitAfterWord(w, part[|w| + 2..]);
  }

  lemma NoDoubleUnderscore(w: string)
    requires forall k :: 0 <= k < |w| - 1 ==> !(w[k] == '_' && w[k + 1] == '_')
    ensures !Contains(w, "__")
  {
    forall k: nat | k + 2 <= |w| ensures !IsPrefixAt("__", w, k) {
      assert w[k..k + 2][0] == w[k] && w[k..k + 2][1] == w[k + 1];
    }
  }

  /** Every cross-reference placeholder raises: the id before its first `__` is `CROSS_REF`, which has no second `__`. */
  lemma CrossReferenceRaises(footnotes: map<string, string>, part: string)
    requires StartsWith(part, "CROSS_REF__")
    ensures LegacyPartRuns(footnotes, part) == Failure(UnpackError)
  {
    NoDoubleUnderscore("CROSS_REF");
    PrefixSplit(part, "CROSS_REF");
  }

  /** An inline-math placeholder always yields an empty math node: `INLINE_MATH`, sliced past its end, is empty. */
  lemma InlineMathIsEmpty(footnotes: map<string, string>, part: string)
    requires StartsWith(part, "INLINE_MATH__")
    ensures LegacyPartRuns(footnotes, part) == Success([Math("")])
  {
    NoDoubleUnderscore("INLINE_MATH");
    PrefixSplit(part, "INLINE_MATH");
    assert !StartsWith(part, "CROSS_REF__") by {
      assert part[0] == 'I';
    }
    assert !StartsWith(part, "HYPERLINK__") by {
      assert part[0] == 'I';
    }
  }

  /** A hyperlink placeholder is read from what follows `HYPERLINK__`: split once on `__URL__`, or the unpacking error. */
  lemma HyperlinkRest(footnotes: map<string, string>, rem: string)
    ensures LegacyPartRuns(footnotes, "HYPERLINK__" + rem) ==
              if Contains(rem, "__URL__") then Success([Styled(NoFlags, SplitOnce(rem, "__URL__").0, Some(SplitOnce(rem, "__URL__").1))])
              else Failure(UnpackError)
  {
    var part := "HYPERLINK__" + rem;
    NoDoubleUnderscore("HYPERLINK");
    assert part[..11] == "HYPERLINK" + "__";
    PrefixSplit(part, "HYPERLINK");
    assert part[11..] == rem;
    assert !StartsWith(part, "CROSS_REF__") by {
      assert part[0] == 'H';
    }
  }

  /** A hyperlink placeholder `HYPERLINK__<text>__URL__<url>`, its text free of `_`, is a run with that text and URL. */
  lemma HyperlinkPart(footnotes: map<string, string>, text: string, url: string)
    requires forall i :: 0 <= i < |text| ==> text[i] != '_'
    ensures LegacyPartRuns(footnotes, "HYPERLINK__" + text + "__URL__" + url) == Success([Styled(NoFlags, text, Some(url))])
  {
    var rem := text + "__URL__" + url;
    assert "HYPERLINK__" + text + "__URL__" + url == "HYPERLINK__" + rem;
    HyperlinkRest(footnotes, rem);
    SplitAfterText(text, url);
  }

  /** `t__URL__u` splits back into `t` and `u` when `t` has no underscore. */
  lemma SplitAfterText(t: string, u: string)
    requires forall i :: 0 <= i < |t| ==> t[i] != '_'
    ensures Contains(t + "__URL__" + u, "__URL__") && SplitOnce(t + "__URL__" + u, "__URL__") == (t, u)
  {
    var s := t + "__URL__" + u;
    assert s[|t|..|t| + 7] == "__URL__";
    forall j | 0 <= j < |t| ensures !IsPrefixAt("__URL__", s, j) {
      assert s[j] == t[j];
    }
    FirstMatchAt(s, "__URL__", |t|);
    assert s[..|t|] == t;
    assert s[|t| + 7..] == u;
  }

  /**
   * A footnote placeholder `<id>__<rest>` with an id that is not one of the
   * other three prefixes yields only the footnote; the text after it in the
   * same part is lost.
   */
  lemma FootnoteDropsRest(footnotes: map<string, string>, id: string, rest: string)
    requires !Contains(id, "__") && id != [] && id[|id| - 1] != '_'
    requires !StartsWith(id + "__" + rest, "CROSS_REF__") && !StartsWith(id + "__" + rest, "HYPERLINK__")
    requires !StartsWith(id + "__" + rest, "INLINE_MATH__")
    ensures LegacyPartRuns(footnotes, id + "__" + rest) == Success([Footnote(if id in footnotes then footnotes[id] else "")])
  {
    SplitAfterWord(id, rest);
  }

  /** A part raises exactly when it is a cross reference or a hyperlink without `__URL__`. */
  lemma PartRaises(footnotes: map<string, string>, part: string)
    ensures LegacyPartRuns(footnotes, part).Failure? <==> Raises(part)
  {
    if StartsWith(part, "CROSS_REF__") {
      CrossReferenceRaises(footnotes, part);
    } else if StartsWith(part, "HYPERLINK__") {
      NoDoubleUnderscore("HYPERLINK");
      PrefixSplit(part, "HYPERLINK");
    }
  }

  /** Every item `f` builds satisfies `ok`. */
  predicate AllBuilt<T>(ok: T -> bool, r: Result<seq<T>, string>) {
    r.Success? ==> forall j :: 0 <= j < |r.value| ==> ok(r.value[j])
  }

  /** When every item's lists satisfy `ok`, so does a successful gathering. */
  lemma {:induction false} GatherAllBuilt<P, T>(f: P -> Result<seq<T>, string>, ok: T -> bool, ps: seq<P>)
    requires forall k :: 0 <= k < |ps| ==> AllBuilt(ok, f(ps[k]))
    ensures AllBuilt(ok, Gather(f, ps))
    decreases |ps|
  {
    if ps != [] {
      var init := ps[..|ps| - 1];
      assert forall k :: 0 <= k < |init| ==> init[k] == ps[k];
      GatherAllBuilt(f, ok, init);
      assert AllBuilt(ok, f(ps[|ps| - 1]));
      var r := Gather(f, ps);
      if r.Success? {
        var a := Gather(f, init).value;
        var b := f(ps[|ps| - 1]).value;
        assert r.value == a + b;
        forall j | 0 <= j < |r.value| ensures ok(r.value[j]) {
          if j < |a| {
            assert r.value[j] == a[j];
          } else {
            assert r.value[j] == b[j - |a|];
          }
        }
      }
    }
  }

  /** When every failing item carries the error `e`, so does a failed gathering. */
  lemma GatherError<P, T>(f: P -> Result<seq<T>, string>, ps: seq<P>, e: string)
    requires forall k :: 0 <= k < |ps| && f(ps[k]).Failure? ==> f(ps[k]).error == e
    ensures Gather(f, ps).Failure? ==> Gather(f, ps).error == e
  {
    GatherFails(f, ps);
  }

  predicate SomePartRaises(parts: seq<string>) {
    exists k :: 0 <= k < |parts| && Raises(parts[k])
  }

  /** The parts fail exactly when one of them raises, always with the unpacking error. */
  lemma PartsRaise(footnotes: map<string, string>, parts: seq<string>)
    ensures PartsRuns(footnotes, parts).Failure? <==> SomePartRaises(parts)
    ensures PartsRuns(footnotes, parts).Failure? ==> PartsRuns(footnotes, parts).error == UnpackError
  {
    var f := part => LegacyPartRuns(footnotes, part);
    forall k | 0 <= k < |parts| ensures f(parts[k]).Failure? <==> Raises(parts[k]) {
      PartRaises(footnotes, parts[k]);
    }
    GatherFails(f, parts);
    GatherError(f, parts, UnpackError);
  }

  /**
   * A paragraph raises exactly when one of its parts is a cross reference or
   * a hyperlink without `__URL__`, always with the unpacking error.
   */
  lemma ParagraphRaises(footnotes: map<string, string>, text: string)
    requires text != []
    ensures LegacyParagraph(footnotes, text).Failure? <==> SomePartRaises(Split(text, "__FOOTNOTE__"))
    ensures LegacyParagraph(footnotes, text).Failure? ==> LegacyParagraph(footnotes, text).error == UnpackError
  {
    var g := PartsRuns(footnotes, Split(text, "__FOOTNOTE__"));
    PartsRaise(footnotes, Split(text, "__FOOTNOTE__"));
    assert LegacyParagraph(footnotes, text) == if g.Failure? then Failure(g.error) else Success(Paragraph(CurrentBlocks.NonEmpty(g.value)));
  }

  /** A paragraph without `__` never raises and has no placeholder node: it is its one part's inline text. */
  lemma NoUnderscoresIsInlineText(footnotes: map<string, string>, text: string)
    requires text != [] && !Contains(text, "__")
    ensures LegacyParagraph(footnotes, text) == Success(Paragraph(CurrentBlocks.NonEmpty(CurrentInline.Flat(InlineText(Strip(text))))))
  {
    if Contains(text, "__FOOTNOTE__") {
      CurrentBlocks.PlaceholderHasUnderscores(text);
    }
    assert Split(text, "__FOOTNOTE__") == [text];
    GatherOne(part => LegacyPartRuns(footnotes, part), text);
  }
}
