/**
 * The block builders of the current converter: headings, lists, images,
 * tables and paragraphs. Each builder reads the split lines of the document
 * from a given index and returns its block together with the index the main
 * loop continues from.
 */
module CurrentBlocks {
  import opened Wrappers
  import opened Text
  import opened Host
  import opened Patterns
  import opened Nodes
  import opened InlineSyntax
  import opened CurrentInline

  // ---------------------------------------------------------------------
  // Headings

  /** `REF_PATTERN.search(s, q)`: the first position at or after `q` where a reference marker matches. */
  function RefSearch(s: string, q: nat): (r: Option<nat>)
    requires q <= |s|
    decreases |s| - q
    ensures r.Some? ==> q <= r.value < |s| && RefAt(s, r.value).Some?
    ensures r.Some? ==> forall j :: q <= j < r.value ==> RefAt(s, j).None?
    ensures r.None? ==> forall j :: q <= j < |s| ==> RefAt(s, j).None?
  {
    if q == |s| then None
    else if RefAt(s, q).Some? then Some(q)
    else RefSearch(s, q + 1)
  }

  /** `REF_PATTERN.sub("", s[p..])`: every marker found left to right is cut out. */
  function RemoveRefs(s: string, p: nat): (r: string)
    requires p <= |s|
    decreases |s| - p
    ensures |r| <= |s| - p
  {
    if p == |s| then []
    else match RefAt(s, p)
      case Some(m) => RemoveRefs(s, m.end)
      case None => [s[p]] + RemoveRefs(s, p + 1)
  }

  /** Where no marker starts, the character is copied. */
  lemma RemoveRefsStep(s: string, p: nat)
    requires p < |s| && RefAt(s, p).None?
    ensures RemoveRefs(s, p) == [s[p]] + RemoveRefs(s, p + 1)
  {
  }

  /** The text between `p` and `q`, where no marker starts, is copied as it is. */
  lemma {:induction false} RemoveRefsCopies(s: string, p: nat, q: nat)
    requires p <= q <= |s|
    requires forall j :: p <= j < q ==> RefAt(s, j).None?
    ensures RemoveRefs(s, p) == s[p..q] + RemoveRefs(s, q)
    decreases q - p
  {
    if p < q {
      RemoveRefsStep(s, p);
      RemoveRefsCopies(s, p + 1, q);
      ConsSlice(s, p, q, RemoveRefs(s, q));
    }
  }

  /** Text in which no marker starts comes back unchanged. */
  lemma RemoveRefsUnchanged(s: string, p: nat)
    requires p <= |s|
    requires forall j :: p <= j < |s| ==> RefAt(s, j).None?
    ensures RemoveRefs(s, p) == s[p..]
  {
    RemoveRefsCopies(s, p, |s|);
  }

  /**
   * `re.sub` cuts the leftmost marker: the text before it is kept, the marker
   * is dropped, and the substitution goes on after its end.
   */
  lemma RemoveRefsLeftmost(s: string, p: nat)
    requires p <= |s|
    ensures RefSearch(s, p).None? ==> RemoveRefs(s, p) == s[p..]
    ensures RefSearch(s, p).Some? ==>
              var q := RefSearch(s, p).value;
              RemoveRefs(s, p) == s[p..q] + RemoveRefs(s, RefAt(s, q).value.end)
  {
    if RefSearch(s, p).Some? {
      var q := RefSearch(s, p).value;
      RemoveRefsCopies(s, p, q);
    } else {
      RemoveRefsUnchanged(s, p);
    }
  }

  /** The pieces around a cut marker can form a new one, which stays in the text, as it does with `re.sub`. */
  lemma ReformedMarker()
    ensures RemoveRefs("[re[ref:x]f:y]", 0) == "[ref:y]"
    ensures RefAt("[ref:y]", 0).Some?
  {
    ReformedRemoval("[re[ref:x]f:y]");
    ReformedFound("[ref:y]");
  }

  lemma ReformedRemoval(s: string)
    requires s == "[re[ref:x]f:y]"
    ensures RemoveRefs(s, 0) == "[ref:y]"
  {
    ReformedPieces(s);
    RemoveRefsCopies(s, 0, 3);
    RemoveRefsUnchanged(s, 10);
    ReformedJoin(s);
  }

  lemma ReformedJoin(s: string)
    requires s == "[re[ref:x]f:y]"
    ensures s[..3] + s[10..] == "[ref:y]"
  {
    assert s[..3] == "[re" && s[10..] == "f:y]";
  }

  lemma ReformedFound(t: string)
    requires t == "[ref:y]"
    ensures RefAt(t, 0).Some?
  {
    assert t[0..5] == "[ref:";
    assert RefIdEnd(t, 6) == 6;
    assert RefIdEnd(t, 5) == 6;
  }

  /** Where markers start, and do not, in the text of `ReformedMarker`. */
  lemma ReformedPieces(s: string)
    requires s == "[re[ref:x]f:y]"
    ensures RefAt(s, 0).None? && RefAt(s, 1).None? && RefAt(s, 2).None?
    ensures RefAt(s, 3) == Some(RefMatch("x", None, 10))
    ensures forall j :: 10 <= j < |s| ==> RefAt(s, j).None?
  {
    assert s[0..5] != "[ref:" by { assert s[0..5][3] == '['; }
    assert s[1..6] != "[ref:" by { assert s[1..6][0] == 'r'; }
    assert s[2..7] != "[ref:" by { assert s[2..7][0] == 'e'; }
    assert s[3..8] == "[ref:";
    assert RefIdEnd(s, 9) == 9;
    assert RefIdEnd(s, 8) == 9;
    assert s[8..9] == "x";
  }

  /**
   * `_process_heading`: the level is the number of '#' capped at five; a
   * reference marker anywhere in the text becomes the heading's `ref` and
   * every marker is removed from the text.
   */
  function HeadingBlock(line: string, numbered: bool): (b: Block)
    ensures b.Heading? <==> line != [] && line[0] == '#'
    ensures !b.Heading? ==> b == Empty
    ensures b.Heading? ==> 1 <= b.level <= 5 && b.numbered == numbered
    ensures b.Heading? ==> b.level == if HeadingAt(line).value.hashes < 5 then HeadingAt(line).value.hashes else 5
    ensures b.Heading? && b.ref.None? ==>
              b.text == HeadingAt(line).value.text &&
              forall j :: 0 <= j < |b.text| ==> RefAt(b.text, j).None?
    ensures b.Heading? && b.ref.Some? ==>
              var q := RefSearch(HeadingAt(line).value.text, 0);
              q.Some? && b.ref.value == RefAt(HeadingAt(line).value.text, q.value).value.ref &&
              b.text == Strip(RemoveRefs(HeadingAt(line).value.text, 0))
  {
    match HeadingAt(line)
    case None => Empty
    case Some(h) =>
      var level := if h.hashes < 5 then h.hashes else 5;
      match RefSearch(h.text, 0)
      case None => Heading(h.text, level, numbered, None)
      case Some(q) =>
        var id := RefAt(h.text, q).value.ref;
        StripNoSpaceEnds(id);
        Heading(Strip(RemoveRefs(h.text, 0)), level, numbered, Some(Strip(id)))
  }

  // ---------------------------------------------------------------------
  // Lists

  /**
   * The text of a list item, when the stripped line continues a list of the
   * given style: after the first '.' for a numbered list, after the first two
   * characters for a bulleted one.
   */
  function ItemText(line: string, numbered: bool): (r: Option<string>)
    ensures r.Some? ==> line != [] && ListMarkerAt(line) == Some(if numbered then Numbered else Bulleted)
    ensures line != [] && ListMarkerAt(line) == Some(if numbered then Numbered else Bulleted) ==> r.Some?
  {
    if line == [] then None
    else match ListMarkerAt(line)
      case Some(Numbered) => if numbered then Some(Strip(line[FindFrom(line, ".", 0).value + 1..])) else None
      case Some(Bulleted) => if !numbered then Some(Strip(line[2..])) else None
      case None => None
  }

  /** One list item: a list of runs is kept, a bare run is wrapped in a list of one. */
  function ListItem(text: string): (item: seq<Inline>)
    ensures item != []
  {
    Items(InlineText(text))
  }

  function ListItems(texts: seq<string>): (items: seq<seq<Inline>>)
    ensures |items| == |texts| && forall k :: 0 <= k < |texts| ==> items[k] == ListItem(texts[k])
  {
    seq(|texts|, k requires 0 <= k < |texts| => ListItem(texts[k]))
  }

  /** The first line at or after `i` that is not an item of the list's style. */
  function ListEnd(lines: seq<string>, i: nat, numbered: bool): (e: nat)
    requires i <= |lines|
    decreases |lines| - i
    ensures i <= e <= |lines|
    ensures forall k :: i <= k < e ==> ItemText(Strip(lines[k]), numbered).Some?
    ensures e < |lines| ==> ItemText(Strip(lines[e]), numbered).None?
  {
    if i == |lines| || ItemText(Strip(lines[i]), numbered).None? then i else ListEnd(lines, i + 1, numbered)
  }

  /** The texts of the items on lines `i` up to `e`. */
  function ItemTexts(lines: seq<string>, i: nat, e: nat, numbered: bool): (texts: seq<string>)
    requires i <= e <= |lines|
    requires forall k :: i <= k < e ==> ItemText(Strip(lines[k]), numbered).Some?
    decreases e
    ensures |texts| == e - i
  {
    if e == i then [] else ItemTexts(lines, i, e - 1, numbered) + [ItemText(Strip(lines[e - 1]), numbered).value]
  }

  /** The style is numbered exactly when the first line starts with a digit. */
  function NumberedStyle(first: string): bool {
    first != [] && IsDigit(first[0])
  }

  /** The first line of a list is always an item of the style it chooses. */
  lemma FirstLineIsItem(line: string)
    ensures ListMarkerAt(line).Some? ==> ItemText(line, NumberedStyle(line)).Some?
  {
  }

  /**
   * `_process_list` from line `start`: the list block, whose style is
   * chosen by the first line, and the index of the first line that is not
   * an item of that style.
   */
  function ListAt(lines: seq<string>, start: nat): (r: (Block, nat))
    requires start < |lines|
    ensures r.0.ListBlock? && r.0.numberedStyle == NumberedStyle(Strip(lines[start]))
    ensures r.1 == ListEnd(lines, start, r.0.numberedStyle) && |r.0.items| == r.1 - start
    ensures ListMarkerAt(Strip(lines[start])).Some? ==> r.1 > start
  {
    var numbered := NumberedStyle(Strip(lines[start]));
    FirstLineIsItem(Strip(lines[start]));
    var next := ListEnd(lines, start, numbered);
    (ListBlock(numbered, ListItems(ItemTexts(lines, start, next, numbered))), next)
  }

  lemma ListItemsSnoc(texts: seq<string>, t: string)
    ensures ListItems(texts + [t]) == ListItems(texts) + [ListItem(t)]
  {
    var a := ListItems(texts + [t]);
    var b := ListItems(texts) + [ListItem(t)];
    forall k | 0 <= k < |a| ensures a[k] == b[k] {
    }
  }

  /** The item loop of `_process_list`. */
  method ProcessList(lines: seq<string>, start: nat) returns (b: Block, next: nat)
    requires start < |lines|
    ensures (b, next) == ListAt(lines, start)
  {
    var numbered := NumberedStyle(Strip(lines[start]));
    ghost var texts: seq<string> := [];
    var items: seq<seq<Inline>> := [];
    var i := start;
    while i < |lines|
      invariant start <= i <= |lines| && ListEnd(lines, i, numbered) == ListEnd(lines, start, numbered)
      invariant texts == ItemTexts(lines, start, i, numbered)
      invariant items == ListItems(texts)
    {
      var t := ItemText(Strip(lines[i]), numbered);
      if t.None? {
        break;
      }
      var tokens := ProcessInlineMath(t.value);
      ListItemsSnoc(texts, t.value);
      texts := texts + [t.value];
      items := items + [Items(tokens)];
      i := i + 1;
    }
    b := ListBlock(numbered, items);
    next := i;
  }

  // ---------------------------------------------------------------------
  // Images

  /** The extension table of `_handle_image_url`. */
  const MimeTypes: map<string, string> := map[
    ".png" := "image/png", ".jpg" := "image/jpeg", ".jpeg" := "image/jpeg",
    ".gif" := "image/gif", ".bmp" := "image/bmp", ".webp" := "image/webp"]

  /** The MIME type for a lower-cased file extension; anything unknown is sent as PNG. */
  function MimeType(ext: string): (m: string)
    ensures m == if ext in MimeTypes then MimeTypes[ext] else "image/png"
    ensures StartsWith(m, "image/")
  {
    if ext == ".png" then "image/png"
    else if ext == ".jpg" || ext == ".jpeg" then "image/jpeg"
    else if ext == ".gif" then "image/gif"
    else if ext == ".bmp" then "image/bmp"
    else if ext == ".webp" then "image/webp"
    else "image/png"
  }

  /**
   * `_handle_image_url`: remote and inline URLs pass through; a local file
   * is read and inlined as a base64 data URL; a missing file is an error.
   */
  function ImageUrl(host: Host, url: string): (r: Result<string, string>)
    ensures IsRemoteOrInline(url) ==> r == Success(url)
    ensures !IsRemoteOrInline(url) ==> (r.Failure? <==> host.unquote(url) !in host.files)
    ensures r.Success? && !IsRemoteOrInline(url) ==> StartsWith(r.value, "data:image/")
  {
    if IsRemoteOrInline(url) then Success(url)
    else
      var local := host.unquote(url);
      if local in host.files then
        var mime := MimeType(Extension(LowerAsciiString(local)));
        var u := "data:" + mime + ";base64," + host.base64(host.files[local]);
        assert u[..11] == "data:" + mime[..6] by {
          assert u == "data:" + mime + (";base64," + host.base64(host.files[local]));
        }
        Success(u)
      else Failure("Image file '" + local + "' not found")
  }

  /**
   * The part of `_process_image` that can raise: the URL of the image, none
   * without both an alt part and a target, or the error for a missing file.
   */
  function ImageTarget(host: Host, line: string): (r: Result<Option<string>, string>)
    ensures ParseImageLine(line).None? ==> r == Success(None)
    ensures ParseImageLine(line).Some? ==> (r.Success? && r.value.Some?) || r.Failure?
    ensures r.Failure? <==> ParseImageLine(line).Some? && ImageUrl(host, ParseImageLine(line).value.url).Failure?
    ensures r.Success? && ParseImageLine(line).Some? ==> r.value == Some(ImageUrl(host, ParseImageLine(line).value.url).value)
  {
    match ParseImageLine(line)
    case None => Success(None)
    case Some(img) =>
      match ImageUrl(host, img.url)
      case Failure(e) => Failure(e)
      case Success(u) => Success(Some(u))
  }

  /**
   * `_process_image` on a stripped line: without both an alt part and a
   * target the block is a bare image; otherwise the URL is resolved, a
   * non-empty alt text is the caption and a non-empty title's attributes are
   * applied after it.
   */
  function ImageBlock(host: Host, line: string): (r: Result<Block, string>)
    ensures r.Success? ==> r.value.Image?
    ensures ParseImageLine(line).None? ==> r == Success(Image(None, ImageAttrs(None, None, None, false)))
    ensures r.Failure? <==> ImageTarget(host, line).Failure?
    ensures r.Failure? ==> r.error == ImageTarget(host, line).error
    ensures r.Success? && ParseImageLine(line).Some? ==>
              r.value.url == Some(ImageUrl(host, ParseImageLine(line).value.url).value) &&
              r.value.attrs == ImageAttributes(ParseImageLine(line).value)
  {
    match ImageTarget(host, line)
    case Failure(e) => Failure(e)
    case Success(None) => Success(Image(None, ImageAttrs(None, None, None, false)))
    case Success(Some(u)) => Success(Image(Some(u), ImageAttributes(ParseImageLine(line).value)))
  }

  /** `_process_image`, with the attribute loop run over the title. */
  method ProcessImage(host: Host, line: string) returns (r: Result<Block, string>)
    ensures r == ImageBlock(host, line)
  {
    var img := ParseImageLine(line);
    if img.None? {
      return Success(Image(None, ImageAttrs(None, None, None, false)));
    }
    var url := ImageUrl(host, img.value.url);
    if url.Failure? {
      return Failure(url.error);
    }
    var attrs := ImageAttrs(if img.value.alt != [] then Some(img.value.alt) else None, None, None, false);
    if img.value.title.Some? && img.value.title.value != [] {
      attrs := ApplyTitleAttributes(attrs, img.value.title.value);
    }
    r := Success(Image(Some(url.value), attrs));
  }

  // ---------------------------------------------------------------------
  // Tables

  /** `line.strip().startswith("|")`. */
  predicate TableLine(line: string) {
    var t := Strip(line); t != [] && t[0] == '|'
  }

  /** The first line at or after `i` that does not start with '|'. */
  function TableEnd(lines: seq<string>, i: nat): (e: nat)
    requires i <= |lines|
    decreases |lines| - i
    ensures i <= e <= |lines|
    ensures forall k :: i <= k < e ==> TableLine(lines[k])
    ensures e < |lines| ==> !TableLine(lines[e])
  {
    if i == |lines| || !TableLine(lines[i]) then i else TableEnd(lines, i + 1)
  }

  /** The cells of lines `i` up to `e`. */
  function Rows(lines: seq<string>, i: nat, e: nat): (rows: seq<seq<string>>)
    requires i <= e <= |lines|
    ensures |rows| == e - i
    ensures forall k :: 0 <= k < |rows| ==> rows[k] == Cells(Strip(lines[i + k]))
  {
    seq(e - i, k requires 0 <= k < e - i => Cells(Strip(lines[i + k])))
  }

  lemma RowsSnoc(lines: seq<string>, i: nat, e: nat)
    requires i <= e < |lines|
    ensures Rows(lines, i, e + 1) == Rows(lines, i, e) + [Cells(Strip(lines[e]))]
  {
    var a := Rows(lines, i, e + 1);
    var b := Rows(lines, i, e) + [Cells(Strip(lines[e]))];
    assert |a| == |b|;
    forall k | 0 <= k < |a| ensures a[k] == b[k] {
      assert a[k] == Cells(Strip(lines[i + k]));
      if k < e - i {
        assert b[k] == Rows(lines, i, e)[k];
      }
    }
  }

  /** One cell: its inline formatting, a list of one unwrapped. */
  function Cell(text: string): Formatted {
    MaybeListify(InlineText(text))
  }

  function CellRow(cells: seq<string>): (r: seq<Formatted>)
    ensures |r| == |cells| && forall k :: 0 <= k < |r| ==> r[k] == Cell(cells[k])
  {
    seq(|cells|, k requires 0 <= k < |cells| => Cell(cells[k]))
  }

  function CellRows(rows: seq<seq<string>>): (r: seq<seq<Formatted>>)
    ensures |r| == |rows| && forall k :: 0 <= k < |r| ==> r[k] == CellRow(rows[k])
  {
    seq(|rows|, k requires 0 <= k < |rows| => CellRow(rows[k]))
  }

  /** The first body line: after the header and, when the next line is a separator row, after that too. */
  function BodyStart(lines: seq<string>, h: nat): (b: nat)
    requires h < |lines|
    ensures h < b <= |lines|
  {
    if h + 1 < |lines| && IsSeparatorRow(Strip(lines[h + 1])) then h + 2 else h + 1
  }

  /** The caption and continuation index once the body ends at `e`: a missing or empty caption is looked for again. */
  function TrailingCaption(lines: seq<string>, caption: Option<string>, e: nat): (r: (Option<string>, nat))
    requires e <= |lines|
    ensures e <= r.1 <= |lines|
  {
    if caption.None? || caption.value == [] then FindCaption(lines, e) else (caption, e)
  }

  /** The table whose header is line `h`. */
  function TableFrom(lines: seq<string>, h: nat, caption: Option<string>): (r: (Block, nat))
    requires h < |lines|
    ensures r.0.Table? && h < r.1 <= |lines|
  {
    var b := BodyStart(lines, h);
    var e := TableEnd(lines, b);
    var (caption', next) := TrailingCaption(lines, caption, e);
    (Table(CellRow(Cells(Strip(lines[h]))), CellRows(Rows(lines, b, e)), if caption'.Some? then caption'.value else ""), next)
  }

  /**
   * What the table holds: the header line's cells, formatted; one body row
   * per line from the body start up to the first line not starting with
   * '|', each that line's cells, formatted; and the caption found, or ""
   * when none (or an empty one) was found.
   */
  lemma TableContents(lines: seq<string>, h: nat, caption: Option<string>)
    requires h < |lines|
    ensures var t := TableFrom(lines, h, caption).0;
            t.Table? && t.header == CellRow(Cells(Strip(lines[h])))
    ensures var b := BodyStart(lines, h); var e := TableEnd(lines, b); var t := TableFrom(lines, h, caption).0;
            t.Table? && |t.body| == e - b &&
            forall k :: 0 <= k < e - b ==> t.body[k] == CellRow(Cells(Strip(lines[b + k]))) && TableLine(lines[b + k])
    ensures var c := TrailingCaption(lines, caption, TableEnd(lines, BodyStart(lines, h))); var r := TableFrom(lines, h, caption);
            r.0.Table? && (r.0.caption == "" <==> c.0.None? || c.0.value == "") && r.1 == c.1
  {
    var b := BodyStart(lines, h);
    var e := TableEnd(lines, b);
    var rows := Rows(lines, b, e);
    var t := TableFrom(lines, h, caption).0;
    assert t.body == CellRows(rows);
    forall k | 0 <= k < e - b
      ensures t.body[k] == CellRow(Cells(Strip(lines[b + k]))) && TableLine(lines[b + k])
    {
      assert rows[k] == Cells(Strip(lines[b + k]));
    }
  }

  /**
   * `_process_table` from line `start`: a caption looked for around `start`
   * may move the header further down; without a header line there is no
   * block. After the header, an optional separator row and the body rows, a
   * caption still missing (or empty) is looked for around the line after the
   * body.
   */
  function TableAt(lines: seq<string>, start: nat): (r: (Option<Block>, nat))
    requires start < |lines|
    ensures start <= r.1 <= |lines|
    ensures r.0.Some? ==> r.0.value.Table?
    ensures TableLine(lines[start]) ==> r.1 > start
    ensures r.0.None? <==> FindCaption(lines, start).1 == |lines| || !TableLine(lines[FindCaption(lines, start).1])
    ensures r.0.None? ==> r.1 == FindCaption(lines, start).1
    ensures r.0.Some? ==>
              var (caption, h) := FindCaption(lines, start);
              h < |lines| && (r.0.value, r.1) == TableFrom(lines, h, caption)
  {
    var (caption, h) := FindCaption(lines, start);
    if h >= |lines| || !TableLine(lines[h]) then (None, h)
    else
      var (t, next) := TableFrom(lines, h, caption);
      (Some(t), next)
  }

  /** The index `_process_table` continues from, without building the table. */
  function TableNext(lines: seq<string>, start: nat): (n: nat)
    requires start < |lines|
    ensures start <= n <= |lines|
    ensures TableLine(lines[start]) ==> n > start
  {
    var (caption, h) := FindCaption(lines, start);
    if h >= |lines| || !TableLine(lines[h]) then h
    else TrailingCaption(lines, caption, TableEnd(lines, BodyStart(lines, h))).1
  }

  lemma TableNextIsTableAt(lines: seq<string>, start: nat)
    requires start < |lines|
    ensures TableNext(lines, start) == TableAt(lines, start).1
  {
  }

  /** The body loop of `_process_table`. */
  method ReadRows(lines: seq<string>, b: nat) returns (rows: seq<seq<string>>, e: nat)
    requires b <= |lines|
    ensures e == TableEnd(lines, b) && rows == Rows(lines, b, e)
  {
    rows := [];
    e := b;
    while e < |lines|
      invariant b <= e <= |lines| && TableEnd(lines, e) == TableEnd(lines, b)
      invariant rows == Rows(lines, b, e)
    {
      var line := Strip(lines[e]);
      if !StartsWith(line, "|") {
        break;
      }
      RowsSnoc(lines, b, e);
      rows := rows + [Cells(line)];
      e := e + 1;
    }
  }

  lemma CellRowSnoc(cells: seq<string>, j: nat)
    requires j < |cells|
    ensures CellRow(cells[..j + 1]) == CellRow(cells[..j]) + [Cell(cells[j])]
  {
    var a := CellRow(cells[..j + 1]);
    var b := CellRow(cells[..j]) + [Cell(cells[j])];
    assert |a| == |b|;
    forall k | 0 <= k < |a| ensures a[k] == b[k] {
      assert a[k] == Cell(cells[..j + 1][k]) && cells[..j + 1][k] == cells[k];
      if k < j {
        assert b[k] == CellRow(cells[..j])[k] == Cell(cells[..j][k]);
      }
    }
  }

  lemma CellRowsSnoc(rows: seq<seq<string>>, k: nat)
    requires k < |rows|
    ensures CellRows(rows[..k + 1]) == CellRows(rows[..k]) + [CellRow(rows[k])]
  {
    var a := CellRows(rows[..k + 1]);
    var b := CellRows(rows[..k]) + [CellRow(rows[k])];
    forall i | 0 <= i < |a| ensures a[i] == b[i] {
    }
  }

  /** The conversion loop over the cells of one row. */
  method ProcessRow(cells: seq<string>) returns (row: seq<Formatted>)
    ensures row == CellRow(cells)
  {
    row := [];
    var j := 0;
    while j < |cells|
      invariant j <= |cells| && row == CellRow(cells[..j])
    {
      var cell := ProcessInlineMath(cells[j]);
      CellRowSnoc(cells, j);
      row := row + [MaybeListify(cell)];
      j := j + 1;
    }
    assert cells[..j] == cells;
  }

  /** The conversion loop over the body rows. */
  method ProcessRows(rows: seq<seq<string>>) returns (r: seq<seq<Formatted>>)
    ensures r == CellRows(rows)
  {
    r := [];
    var k := 0;
    while k < |rows|
      invariant k <= |rows| && r == CellRows(rows[..k])
    {
      var row := ProcessRow(rows[k]);
      CellRowsSnoc(rows, k);
      r := r + [row];
      k := k + 1;
    }
    assert rows[..k] == rows;
  }

  /** `_process_table` once its header line `h` is known. */
  method ProcessTableFrom(lines: seq<string>, h: nat, caption: Option<string>) returns (t: Block, next: nat)
    requires h < |lines|
    ensures (t, next) == TableFrom(lines, h, caption)
  {
    var header := Cells(Strip(lines[h]));
    var i := h + 1;
    if i < |lines| && IsSeparatorRow(Strip(lines[i])) {
      i := i + 1;
    }
    var rows, e := ReadRows(lines, i);
    var caption', n := TrailingCaption(lines, caption, e).0, TrailingCaption(lines, caption, e).1;
    var headerCells := ProcessRow(header);
    var body := ProcessRows(rows);
    t := Table(headerCells, body, if caption'.Some? then caption'.value else "");
    next := n;
  }

  method ProcessTable(lines: seq<string>, start: nat) returns (t: Option<Block>, next: nat)
    requires start < |lines|
    ensures (t, next) == TableAt(lines, start)
  {
    var caption, h := FindCaption(lines, start).0, FindCaption(lines, start).1;
    if h >= |lines| || !StartsWith(Strip(lines[h]), "|") {
      return None, h;
    }
    var table;
    table, next := ProcessTableFrom(lines, h, caption);
    t := Some(table);
  }

  // ---------------------------------------------------------------------
  // Paragraphs

  /** The runs a piece of paragraph text contributes: a list is spliced in, an empty string is dropped. */
  function TextRuns(text: string): seq<Inline> {
    Flat(InlineText(Strip(text)))
  }

  /** A part that follows a footnote placeholder: the footnote, then whatever text follows its closing `__`. */
  function FootnoteRuns(footnotes: map<string, string>, part: string): (r: seq<Inline>)
    requires Contains(part, "__")
    ensures r != [] && r[0].Footnote?
  {
    var (fid, rem) := SplitOnce(part, "__");
    [Footnote(if fid in footnotes then footnotes[fid] else "")] + (if rem != [] then TextRuns(rem) else [])
  }

  /** One part of the text split on `__FOOTNOTE__`, as the loop of `_process_paragraph` treats it. */
  function PartRuns(footnotes: map<string, string>, part: string): seq<Inline> {
    if Contains(part, "__") then FootnoteRuns(footnotes, part) else TextRuns(part)
  }

  /** The runs of `parts`, in order. */
  function PartsRuns(footnotes: map<string, string>, parts: seq<string>): seq<Inline>
    decreases |parts|
  {
    if parts == [] then [] else PartsRuns(footnotes, parts[..|parts| - 1]) + PartRuns(footnotes, parts[|parts| - 1])
  }

  /** An empty content list is sent as a list holding the empty string. */
  function NonEmpty(content: seq<Inline>): (r: seq<Inline>)
    ensures r != [] && (content != [] ==> r == content)
  {
    if content == [] then [Plain("")] else content
  }

  /**
   * `_process_paragraph`: the text is split on `__FOOTNOTE__` and every part,
   * the first one included, is read as a footnote part when it holds `__`.
   */
  function ParagraphBlock(footnotes: map<string, string>, text: string): (b: Block)
    ensures b.Paragraph? && (text != [] ==> b.content != [])
  {
    if text == [] then Paragraph([])
    else Paragraph(NonEmpty(PartsRuns(footnotes, Split(text, "__FOOTNOTE__"))))
  }

  lemma PartsRunsSnoc(footnotes: map<string, string>, parts: seq<string>, k: nat)
    requires k < |parts|
    ensures PartsRuns(footnotes, parts[..k + 1]) == PartsRuns(footnotes, parts[..k]) + PartRuns(footnotes, parts[k])
  {
    assert parts[..k + 1][..k] == parts[..k];
  }

  /** The body of the loop of `_process_paragraph` for one part. */
  method ProcessPart(footnotes: map<string, string>, part: string) returns (runs: seq<Inline>)
    ensures runs == PartRuns(footnotes, part)
  {
    if Contains(part, "__") {
      var (fid, rem) := SplitOnce(part, "__");
      runs := [Footnote(if fid in footnotes then footnotes[fid] else "")];
      if rem != [] {
        var tokens := ProcessInlineMath(Strip(rem));
        runs := runs + Flat(tokens);
      }
    } else {
      var tokens := ProcessInlineMath(Strip(part));
      runs := Flat(tokens);
    }
  }

  /** The loop of `_process_paragraph` over the parts. */
  method ProcessParts(footnotes: map<string, string>, parts: seq<string>) returns (content: seq<Inline>)
    ensures content == PartsRuns(footnotes, parts)
  {
    content := [];
    var k := 0;
    while k < |parts|
      invariant k <= |parts|
      invariant content == PartsRuns(footnotes, parts[..k])
    {
      var runs := ProcessPart(footnotes, parts[k]);
      PartsRunsSnoc(footnotes, parts, k);
      content := content + runs;
      k := k + 1;
    }
    assert parts[..k] == parts;
  }

  /** `_process_paragraph`. */
  method ProcessParagraph(footnotes: map<string, string>, text: string) returns (b: Block)
    ensures b == ParagraphBlock(footnotes, text)
  {
    if text == [] {
      return Paragraph([]);
    }
    var parts := Split(text, "__FOOTNOTE__");
    var content := ProcessParts(footnotes, parts);
    b := Paragraph(NonEmpty(content));
  }

  // ---------------------------------------------------------------------
  // Paragraph properties

  /** A flattened result holds only runs of the inline engine. */
  lemma FlatRuns(s: string)
    ensures forall k :: 0 <= k < |Flat(Format(s))| ==> EngineRun(Flat(Format(s))[k])
  {
    FormatRuns(s);
    FlatOfItems(Format(s));
  }

  /** Flattening keeps the runs of a result or drops its empty string. */
  lemma FlatOfItems(f: Formatted)
    ensures Flat(f) == Items(f) || Flat(f) == []
  {
  }

  /** The segments of inline-math text are equations and runs of the inline engine, never footnotes. */
  lemma {:induction false} SegmentsRuns(s: string, last: nat)
    requires last <= |s|
    ensures forall k :: 0 <= k < |Segments(s, last)| ==> EngineRun(Segments(s, last)[k])
    decreases |s| - last
  {
    match MathSearch(s, last)
    case Some((q, sp)) =>
      if q > last {
        FlatRuns(s[last..q]);
      }
      SegmentsRuns(s, sp.end);
    case None =>
      if last < |s| {
        FlatRuns(s[last..]);
      }
  }

  /** Text read as plain paragraph text yields no footnote node. */
  lemma TextRunsHaveNoFootnote(text: string)
    ensures forall k :: 0 <= k < |TextRuns(text)| ==> !TextRuns(text)[k].Footnote?
  {
    SegmentsRuns(Strip(text), 0);
  }

  /** A placeholder holds `__`, so text without `__` holds no placeholder. */
  lemma PlaceholderHasUnderscores(s: string)
    requires Contains(s, "__FOOTNOTE__")
    ensures Contains(s, "__")
  {
    var k := FindFrom(s, "__FOOTNOTE__", 0).value;
    assert s[k..k + 2] == s[k..k + 12][..2];
    assert IsPrefixAt("__", s, k);
  }

  /** A paragraph whose text has no `__` has no footnote node: each part is plain text. */
  lemma NoUnderscoresNoFootnote(footnotes: map<string, string>, text: string)
    requires !Contains(text, "__")
    ensures forall k :: 0 <= k < |ParagraphBlock(footnotes, text).content| ==> !ParagraphBlock(footnotes, text).content[k].Footnote?
  {
    if text != [] {
      if Contains(text, "__FOOTNOTE__") {
        PlaceholderHasUnderscores(text);
      }
      assert Split(text, "__FOOTNOTE__") == [text];
      assert PartsRuns(footnotes, [text]) == PartRuns(footnotes, text);
      TextRunsHaveNoFootnote(text);
    }
  }

  /** A part `id__rest` yields the footnote of `id` first: its text, or "" for an id with no definition. */
  lemma FootnotePart(footnotes: map<string, string>, id: string, rest: string)
    requires !Contains(id, "__") && (id == [] || id[|id| - 1] != '_')
    ensures PartRuns(footnotes, id + "__" + rest) != []
    ensures PartRuns(footnotes, id + "__" + rest)[0] == Footnote(if id in footnotes then footnotes[id] else "")
  {
    var s := id + "__" + rest;
    forall k | 0 <= k < |id| ensures !IsPrefixAt("__", s, k) {
      if k + 1 < |id| {
        assert s[k..k + 2] == id[k..k + 2];
        assert !IsPrefixAt("__", id, k);
      } else {
        assert s[k..k + 2][0] == s[k] == id[k] != '_';
      }
    }
    assert IsPrefixAt("__", s, |id|);
    assert FindFrom(s, "__", 0) == Some(|id|) by {
      FirstMatchAt(s, "__", |id|);
    }
    assert SplitOnce(s, "__").0 == s[..|id|] == id;
  }

  /**
   * The first part is read the same way, so an underlined word in paragraph
   * text is taken for a footnote reference: "a __b__ c" starts with an
   * empty footnote node.
   */
  lemma UnderlineTakenForFootnote()
    ensures !Contains("a __b__ c", "__FOOTNOTE__")
    ensures ParagraphBlock(map[], "a __b__ c").content[0] == Footnote("")
  {
    var s := "a __b__ c";
    assert FindFrom(s, "__FOOTNOTE__", 0) == None;
    assert Split(s, "__FOOTNOTE__") == [s];
    assert IsPrefixAt("__", s, 2);
    assert FindFrom(s, "__", 2).Some?;
    assert s[0..2][0] == 'a' && s[1..3][0] == ' ';
    assert !IsPrefixAt("__", s, 0) && !IsPrefixAt("__", s, 1);
    assert Contains(s, "__");
    assert PartsRuns(map[], [s]) == PartRuns(map[], s);
  }
}
