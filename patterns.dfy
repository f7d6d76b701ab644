/**
 * The line-level regular expressions both converter versions share, as
 * explicit matchers. Each one decides exactly what Python's `re` decides for
 * its pattern (backtracking included); the comments give the pattern.
 */
module Patterns {
  import opened Wrappers
  import opened Text

  // ---------------------------------------------------------------------
  // HEADING_PATTERN  ^(#{1,6})\s*(.*)

  datatype HeadingMatch = HeadingMatch(hashes: nat, text: string)

  /** Number of leading '#' characters, at most six (`#{1,6}` is greedy). */
  function HashRun(s: string, i: nat): (n: nat)
    requires i <= 6 && i <= |s|
    requires forall k :: 0 <= k < i ==> s[k] == '#'
    decreases 6 - i
    ensures i <= n <= 6 && n <= |s|
    ensures forall k :: 0 <= k < n ==> s[k] == '#'
    ensures n < 6 && n < |s| ==> s[n] != '#'
  {
    if i < 6 && i < |s| && s[i] == '#' then HashRun(s, i + 1) else i
  }

  function HeadingAt(line: string): (r: Option<HeadingMatch>)
    ensures r.Some? <==> line != [] && line[0] == '#'
    ensures r.Some? ==> 1 <= r.value.hashes <= 6 && r.value.hashes <= |line|
    ensures r.Some? ==> forall k :: 0 <= k < r.value.hashes ==> line[k] == '#'
    ensures r.Some? && r.value.hashes < 6 && r.value.hashes < |line| ==> line[r.value.hashes] != '#'
  {
    if line == [] || line[0] != '#' then None
    else
      var h := HashRun(line, 0);
      var t := SkipSpaces(line, h);
      Some(HeadingMatch(h, line[t..LineEnd(line, t)]))
  }

  // ---------------------------------------------------------------------
  // LIST_ITEM_PATTERN  ^(\d+\.)|^([-*])\s+

  datatype Marker = Numbered | Bulleted

  function ListMarkerAt(line: string): (r: Option<Marker>)
    ensures r == Some(Numbered) ==> line != [] && IsDigit(line[0]) && Contains(line, ".")
    ensures r == Some(Bulleted) ==> |line| >= 2 && line[0] in "-*" && IsSpace(line[1])
    ensures r.None? && |line| >= 2 && line[0] in "-*" ==> !IsSpace(line[1])
  {
    if line != [] && IsDigit(line[0]) && SkipDigits(line, 0) < |line| && line[SkipDigits(line, 0)] == '.' then
      assert IsPrefixAt(".", line, SkipDigits(line, 0));
      Some(Numbered)
    else if |line| >= 2 && line[0] in "-*" && IsSpace(line[1]) then Some(Bulleted)
    else None
  }

  // ---------------------------------------------------------------------
  // CAPTION_PATTERN  ^(?:Table|Tab|TABLE|TAB)\.?\s*\d+   (re.IGNORECASE)
  // FIGURE_PATTERN   ^(?:Figure|Fig|FIGURE|FIG)\.?\s*\d+  (re.IGNORECASE)

  /** `\.?\s*\d+` matches at `i`; the optional dot is taken when present. */
  predicate NumberAt(s: string, i: nat) {
    i <= |s| && DigitAfterSpaces(s, if i < |s| && s[i] == '.' then i + 1 else i)
  }

  /** `\s*\d` matches at `i`. */
  predicate DigitAfterSpaces(s: string, i: nat)
    decreases |s| - i
  {
    i < |s| && (IsDigit(s[i]) || (IsSpace(s[i]) && DigitAfterSpaces(s, i + 1)))
  }

  /** `^<word>\.?\s*\d+` with ASCII case folding; `word` is lower case. */
  predicate LabelledNumber(s: string, word: string) {
    StartsWithCI(s, word) && NumberAt(s, |word|)
  }

  predicate IsTableCaption(s: string) {
    LabelledNumber(s, "table") || LabelledNumber(s, "tab")
  }

  predicate IsFigureCaption(s: string) {
    LabelledNumber(s, "figure") || LabelledNumber(s, "fig")
  }

  // ---------------------------------------------------------------------
  // _clean_caption:
  //   ^(?:Table|Tab|TABLE|TAB|Figure|Fig|FIGURE|FIG)\.?\s*\d+(?:\.\d+)*\s*[-:~]?\s*(.*)

  /** End of `(?:\.\d+)*`, greedy, from `i`. */
  function DottedGroups(s: string, i: nat): (e: nat)
    requires i <= |s|
    decreases |s| - i
    ensures i <= e <= |s|
  {
    if i + 1 < |s| && s[i] == '.' && IsDigit(s[i + 1]) then DottedGroups(s, SkipDigits(s, i + 1))
    else i
  }

  /** Where the caption group `(.*)` starts, when the label `word` matches. */
  function CaptionTextStart(s: string, word: string): (r: Option<nat>)
    ensures r.Some? <==> LabelledNumber(s, word)
    ensures r.Some? ==> |word| < r.value <= |s|
  {
    if !LabelledNumber(s, word) then None
    else
      var j := if |word| < |s| && s[|word|] == '.' then |word| + 1 else |word|;
      var d := SkipDigits(s, SkipSpaces(s, j));
      var f := SkipSpaces(s, DottedGroups(s, d));
      var g := if f < |s| && s[f] in "-:~" then f + 1 else f;
      Some(SkipSpaces(s, g))
  }

  /** The label alternatives in the order the pattern lists them. */
  function CaptionStart(s: string): (r: Option<nat>)
    ensures r.Some? <==> IsTableCaption(s) || IsFigureCaption(s)
    ensures r.Some? ==> r.value <= |s|
  {
    var t := CaptionTextStart(s, "table");
    if t.Some? then t
    else
      var t2 := CaptionTextStart(s, "tab");
      if t2.Some? then t2
      else
        var f := CaptionTextStart(s, "figure");
        if f.Some? then f else CaptionTextStart(s, "fig")
  }

  /**
   * `_clean_caption`: the text after the label, the number and an optional
   * separator, stripped; a line that does not start with a label is only
   * stripped.
   */
  function CleanCaption(text: string): (r: string)
    ensures r == [] || (!IsSpace(r[0]) && !IsSpace(r[|r| - 1]))
    ensures CaptionStart(text).None? ==> r == Strip(text)
  {
    match CaptionStart(text)
    case Some(i) => Strip(text[i..LineEnd(text, i)])
    case None => Strip(text)
  }

  // ---------------------------------------------------------------------
  // _find_caption: two lines above, then two lines below

  /** A line of the look-around window that holds a table caption. */
  predicate CaptionLine(lines: seq<string>, idx: nat) {
    idx < |lines| && IsTableCaption(Strip(lines[idx]))
  }

  /** The first of the two lines above `start` that holds a table caption. */
  function CaptionAbove(lines: seq<string>, start: nat): (r: Option<nat>)
    ensures r.Some? ==> CaptionLine(lines, r.value) && start - 2 <= r.value < start
  {
    if start >= 2 && CaptionLine(lines, start - 2) then Some(start - 2)
    else if start >= 1 && CaptionLine(lines, start - 1) then Some(start - 1)
    else None
  }

  /** The first of the two lines below `start` that holds a table caption. */
  function CaptionBelow(lines: seq<string>, start: nat): (r: Option<nat>)
    ensures r.Some? ==> CaptionLine(lines, r.value) && start < r.value <= start + 2
  {
    if CaptionLine(lines, start + 1) then Some(start + 1)
    else if CaptionLine(lines, start + 2) then Some(start + 2)
    else None
  }

  /**
   * The caption line `_find_caption` settles on: the two lines above
   * `start`, top first, then the two lines below it, nearest first.
   */
  function CaptionIndex(lines: seq<string>, start: nat): (r: Option<nat>)
    ensures r.Some? ==> CaptionLine(lines, r.value) && r.value != start
  {
    if CaptionAbove(lines, start).Some? then CaptionAbove(lines, start) else CaptionBelow(lines, start)
  }

  /**
   * `_find_caption`: the cleaned caption and the index to continue from,
   * which moves past the caption only when it was found below `start`.
   */
  function FindCaption(lines: seq<string>, start: nat): (r: (Option<string>, nat))
    requires start <= |lines|
    ensures r.0.None? <==> CaptionIndex(lines, start).None?
    ensures r.0.Some? ==> r.0.value == CleanCaption(Strip(lines[CaptionIndex(lines, start).value]))
    ensures r.1 == (if r.0.Some? && CaptionIndex(lines, start).value > start
                    then CaptionIndex(lines, start).value + 1 else start)
    ensures start <= r.1 <= |lines|
  {
    match CaptionIndex(lines, start)
    case None => (None, start)
    case Some(idx) =>
      (Some(CleanCaption(Strip(lines[idx]))), if idx < start then start else idx + 1)
  }

  // ---------------------------------------------------------------------
  // Tables: cells and the separator row  ^\|(?:\s*[-:]+\s*\|)+

  /** First index at or after `i` that is neither '-' nor ':'. */
  function SkipRule(s: string, i: nat): (e: nat)
    requires i <= |s|
    decreases |s| - i
    ensures i <= e <= |s| && (e < |s| ==> s[e] !in "-:")
    ensures forall k :: i <= k < e ==> s[k] in "-:"
  {
    if i == |s| || s[i] !in "-:" then i else SkipRule(s, i + 1)
  }

  /** The separator pattern matches a prefix of `s`: a first `|`, one rule cell and its closing `|`. */
  predicate IsSeparatorRow(s: string) {
    s != [] && s[0] == '|' &&
    var a := SkipSpaces(s, 1);
    var b := SkipRule(s, a);
    b > a && var c := SkipSpaces(s, b); c < |s| && s[c] == '|'
  }

  /** `[c.strip() for c in line.split("|")[1:-1]]`. */
  function Cells(line: string): (cells: seq<string>)
    ensures |cells| == if |Split(line, "|")| <= 2 then 0 else |Split(line, "|")| - 2
    ensures forall k :: 0 <= k < |cells| ==> cells[k] == Strip(Split(line, "|")[k + 1])
  {
    var parts := Split(line, "|");
    if |parts| <= 2 then [] else seq(|parts| - 2, k requires 0 <= k < |parts| - 2 => Strip(parts[k + 1]))
  }

  // ---------------------------------------------------------------------
  // Block delimiters

  /** BLOCK_MATH_START_PATTERN / BLOCK_MATH_END_PATTERN  ^\$\$\s*$ */
  predicate IsMathFence(s: string) {
    StartsWith(s, "$$") && IsBlank(s[2..])
  }

  predicate IsCodeFence(s: string) {
    StartsWith(s, "```")
  }

  // ---------------------------------------------------------------------
  // Image lines: !\[(.*?)\]  and  \((.*?)\)  (both searched), then
  // ^(.*?)\s+"(.*?)"$ on the stripped target

  /** `re.search(r'!\[(.*?)\]', line).group(1)`, searching from `s`. */
  function AltFrom(line: string, s: nat): (r: Option<string>)
    decreases |line| - s
  {
    if s + 2 > |line| then None
    else if IsPrefixAt("![", line, s) && LazyClose(line, s + 2, s + 2, "]").Some? then
      Some(line[s + 2..LazyClose(line, s + 2, s + 2, "]").value])
    else AltFrom(line, s + 1)
  }

  /** `re.search(r'\((.*?)\)', line).group(1)`, searching from `s`. */
  function ParenFrom(line: string, s: nat): (r: Option<string>)
    decreases |line| - s
  {
    if s >= |line| then None
    else if line[s] == '(' && LazyClose(line, s + 1, s + 1, ")").Some? then
      Some(line[s + 1..LazyClose(line, s + 1, s + 1, ")").value])
    else ParenFrom(line, s + 1)
  }

  /** `$` of Python (no MULTILINE): the end, or just before a final '\n'. */
  predicate AtEnd(s: string, p: nat) {
    p == |s| || (p + 1 == |s| && s[p] == '\n')
  }

  /** A closing quote at `k` that `"$` accepts. */
  predicate ClosingQuote(s: string, k: nat) {
    k < |s| && s[k] == '"' && AtEnd(s, k + 1)
  }

  /**
   * `(.*?)"$` with the group starting at `start`, its end tried from `e`:
   * the first closing quote the group can reach without crossing a '\n'.
   */
  function QuoteToEnd(s: string, start: nat, e: nat): (r: Option<nat>)
    requires start <= e <= |s|
    requires e == start || NoNewline(s, start, e - 1)
    decreases |s| - e
    ensures r.Some? ==> e <= r.value && ClosingQuote(s, r.value) && NoNewline(s, start, r.value)
    ensures r.Some? ==> forall k :: e <= k < r.value ==> !ClosingQuote(s, k)
    ensures r.None? ==> forall k :: e <= k < |s| && NoNewline(s, start, k) ==> !ClosingQuote(s, k)
  {
    if e > start && s[e - 1] == '\n' then None
    else if ClosingQuote(s, e) then Some(e)
    else if e == |s| then None
    else QuoteToEnd(s, start, e + 1)
  }

  /**
   * The attempt of `^(.*?)\s+"(.*?)"$` with group 1 equal to `s[..m]`: the
   * index of the closing quote when it succeeds. `\s+` must run up to the
   * opening quote, so it ends at the first non-whitespace character.
   */
  ghost function TitleAt(s: string, m: nat): Option<nat>
    requires m <= |s|
  {
    if !NoNewline(s, 0, m) then None
    else
      var w := SkipSpaces(s, m);
      if m < w < |s| && s[w] == '"' then QuoteToEnd(s, w + 1, w + 1) else None
  }

  /**
   * `re.search(r'^(.*?)\s+"(.*?)"$', s)`: the end of group 1 and the index of
   * the closing quote, trying group 1 of length `l1` upwards, so the
   * shortest group 1 that lets the whole pattern match.
   */
  function TitleSplit(s: string, l1: nat): (r: Option<(nat, nat)>)
    requires l1 <= |s|
    requires l1 == 0 || NoNewline(s, 0, l1 - 1)
    decreases |s| - l1
    ensures r.Some? ==> l1 <= r.value.0 <= |s| && TitleAt(s, r.value.0) == Some(r.value.1)
    ensures r.Some? ==> forall m :: l1 <= m < r.value.0 ==> TitleAt(s, m).None?
    ensures r.None? ==> forall m :: l1 <= m <= |s| ==> TitleAt(s, m).None?
  {
    if l1 > 0 && s[l1 - 1] == '\n' then
      assert forall m :: l1 <= m <= |s| ==> !NoNewline(s, 0, m) by {
        forall m | l1 <= m <= |s| ensures !NoNewline(s, 0, m) {
          assert s[l1 - 1] == '\n';
        }
      }
      None
    else
      var w := SkipSpaces(s, l1);
      var q := if l1 < w < |s| && s[w] == '"' then QuoteToEnd(s, w + 1, w + 1) else None;
      assert NoNewline(s, 0, l1);
      if q.Some? then Some((l1, q.value))
      else if l1 == |s| then None
      else TitleSplit(s, l1 + 1)
  }

  /**
   * The URL and the title of a stripped target: group 1 and group 2 of the
   * title match, both stripped, or the whole target and no title.
   */
  function TitleParts(t: string): (r: (string, Option<string>))
    ensures r.1.None? <==> TitleSplit(t, 0).None?
    ensures TitleSplit(t, 0).None? ==> r.0 == t
    ensures TitleSplit(t, 0).Some? ==>
              var m := TitleSplit(t, 0).value.0;
              var w := SkipSpaces(t, m);
              w < TitleSplit(t, 0).value.1 &&
              r.0 == Strip(t[..m]) && r.1 == Some(Strip(t[w + 1..TitleSplit(t, 0).value.1]))
  {
    match TitleSplit(t, 0)
    case Some((m, e)) => (Strip(t[..m]), Some(Strip(t[SkipSpaces(t, m) + 1..e])))
    case None => (t, None)
  }

  /** Alt text and stripped target of an image line, when both parts are present. */
  datatype ImageSyntax = ImageSyntax(alt: string, url: string, title: Option<string>)

  /**
   * The parsing part of `_process_image`: both the alt part and the target
   * must be found; the stripped target is split into a URL and a title by
   * the title match, or is the URL whole when there is none.
   */
  function ParseImageLine(line: string): (r: Option<ImageSyntax>)
    ensures r.Some? <==> AltFrom(line, 0).Some? && ParenFrom(line, 0).Some?
    ensures r.Some? ==> r.value.alt == Strip(AltFrom(line, 0).value)
    ensures r.Some? ==> (r.value.url, r.value.title) == TitleParts(Strip(ParenFrom(line, 0).value))
  {
    var alt := AltFrom(line, 0);
    var target := ParenFrom(line, 0);
    if alt.None? || target.None? then None
    else
      var parts := TitleParts(Strip(target.value));
      Some(ImageSyntax(Strip(alt.value), parts.0, parts.1))
  }

  // ---------------------------------------------------------------------
  // Image attributes: title "caption=..., ref=..., width=..., fullWidth"

  datatype ImageAttrs = ImageAttrs(caption: Option<string>, ref: Option<string>, width: Option<string>, fullWidth: bool)

  /** `'=' in attr` and the stripped key before the first '=' is `k`. */
  predicate HasKey(attr: string, k: string) {
    Contains(attr, "=") && Strip(SplitOnce(attr, "=").0) == k
  }

  /** The stripped value after the first '='. */
  function ValueOf(attr: string): string
    requires Contains(attr, "=")
  {
    Strip(SplitOnce(attr, "=").1)
  }

  /** `fullWidth` holds no '=', so it is never a `key=value` attribute. */
  lemma FullWidthIsBare()
    ensures !Contains("fullWidth", "=")
  {
    forall k: nat ensures !IsPrefixAt("=", "fullWidth", k) {
      if k < |"fullWidth"| {
        assert "fullWidth"[k..k + 1][0] == "fullWidth"[k] != '=';
      }
    }
  }

  /** One stripped attribute applied to the image object. */
  function ApplyAttr(acc: ImageAttrs, attr: string): (r: ImageAttrs)
    ensures r.caption == if HasKey(attr, "caption") then Some(ValueOf(attr)) else acc.caption
    ensures r.ref == if HasKey(attr, "ref") then Some(ValueOf(attr)) else acc.ref
    ensures r.width == if HasKey(attr, "width") then Some(ValueOf(attr)) else acc.width
    ensures r.fullWidth <==> acc.fullWidth || attr == "fullWidth"
  {
    if Contains(attr, "=") then
      FullWidthIsBare();
      var k := Strip(SplitOnce(attr, "=").0);
      var v := ValueOf(attr);
      if k == "caption" then acc.(caption := Some(v))
      else if k == "ref" then acc.(ref := Some(v))
      else if k == "width" then acc.(width := Some(v))
      else acc
    else if attr == "fullWidth" then acc.(fullWidth := true)
    else acc
  }

  /** The attributes applied in order. */
  function ApplyAttrs(acc: ImageAttrs, attrs: seq<string>): ImageAttrs
    decreases |attrs|
  {
    if attrs == [] then acc else ApplyAttr(ApplyAttrs(acc, attrs[..|attrs| - 1]), attrs[|attrs| - 1])
  }

  /** The index of the last attribute with key `k`, if any. */
  function LastKeyed(attrs: seq<string>, k: string): (r: Option<nat>)
    decreases |attrs|
    ensures r.Some? ==> r.value < |attrs| && HasKey(attrs[r.value], k)
    ensures r.Some? ==> forall j :: r.value < j < |attrs| ==> !HasKey(attrs[j], k)
    ensures r.None? ==> forall j :: 0 <= j < |attrs| ==> !HasKey(attrs[j], k)
  {
    if attrs == [] then None
    else if HasKey(attrs[|attrs| - 1], k) then Some(|attrs| - 1)
    else
      var r := LastKeyed(attrs[..|attrs| - 1], k);
      assert forall j :: 0 <= j < |attrs| - 1 ==> attrs[..|attrs| - 1][j] == attrs[j];
      r
  }

  /** The value the last attribute with key `k` gives, or `dflt` when there is none. */
  function KeyedValue(attrs: seq<string>, k: string, dflt: Option<string>): Option<string> {
    match LastKeyed(attrs, k)
    case Some(i) => Some(ValueOf(attrs[i]))
    case None => dflt
  }

  /**
   * What the attribute loop leaves: each of caption, ref and width is the
   * value of the last attribute with that key, or what it was before;
   * `fullWidth` is set exactly when some attribute is `fullWidth`; no other
   * key has any effect.
   */
  lemma {:induction false} ApplyAttrsMeans(acc: ImageAttrs, attrs: seq<string>)
    ensures ApplyAttrs(acc, attrs).caption == KeyedValue(attrs, "caption", acc.caption)
    ensures ApplyAttrs(acc, attrs).ref == KeyedValue(attrs, "ref", acc.ref)
    ensures ApplyAttrs(acc, attrs).width == KeyedValue(attrs, "width", acc.width)
    ensures ApplyAttrs(acc, attrs).fullWidth <==> acc.fullWidth || "fullWidth" in attrs
    decreases |attrs|
  {
    if attrs != [] {
      var init := attrs[..|attrs| - 1];
      ApplyAttrsMeans(acc, init);
      KeyedValueSnoc(attrs, "caption", acc.caption);
      KeyedValueSnoc(attrs, "ref", acc.ref);
      KeyedValueSnoc(attrs, "width", acc.width);
      assert attrs == init + [attrs[|attrs| - 1]];
    }
  }

  /** The last attribute decides a key's value when it has that key; otherwise the ones before it do. */
  lemma KeyedValueSnoc(attrs: seq<string>, k: string, dflt: Option<string>)
    requires attrs != []
    ensures KeyedValue(attrs, k, dflt) ==
              if HasKey(attrs[|attrs| - 1], k) then Some(ValueOf(attrs[|attrs| - 1]))
              else KeyedValue(attrs[..|attrs| - 1], k, dflt)
  {
    var init := attrs[..|attrs| - 1];
    if !HasKey(attrs[|attrs| - 1], k) {
      match LastKeyed(init, k)
      case Some(i) => assert init[i] == attrs[i];
      case None =>
    }
  }

  /** Attributes none of which has a recognised key or is `fullWidth` leave the image object alone. */
  lemma OtherKeysIgnored(acc: ImageAttrs, attrs: seq<string>)
    requires forall j :: 0 <= j < |attrs| ==>
               attrs[j] != "fullWidth" && !HasKey(attrs[j], "caption") && !HasKey(attrs[j], "ref") && !HasKey(attrs[j], "width")
    ensures ApplyAttrs(acc, attrs) == acc
  {
    ApplyAttrsMeans(acc, attrs);
  }

  /** `[a.strip() for a in title.split(',')]`. */
  function TitleAttrs(title: string): (attrs: seq<string>)
    ensures |attrs| == |Split(title, ",")|
    ensures forall k :: 0 <= k < |attrs| ==> attrs[k] == Strip(Split(title, ",")[k])
  {
    var parts := Split(title, ",");
    seq(|parts|, k requires 0 <= k < |parts| => Strip(parts[k]))
  }

  /** The attribute loop of `_process_image`, run over the title's attributes. */
  method ApplyTitleAttributes(acc: ImageAttrs, title: string) returns (r: ImageAttrs)
    ensures r == ApplyAttrs(acc, TitleAttrs(title))
    ensures r.caption == KeyedValue(TitleAttrs(title), "caption", acc.caption)
    ensures r.ref == KeyedValue(TitleAttrs(title), "ref", acc.ref)
    ensures r.width == KeyedValue(TitleAttrs(title), "width", acc.width)
    ensures r.fullWidth <==> acc.fullWidth || "fullWidth" in TitleAttrs(title)
  {
    var attrs := TitleAttrs(title);
    r := acc;
    var k := 0;
    while k < |attrs|
      invariant 0 <= k <= |attrs|
      invariant r == ApplyAttrs(acc, attrs[..k])
    {
      assert attrs[..k + 1][..k] == attrs[..k];
      r := ApplyAttr(r, attrs[k]);
      k := k + 1;
    }
    assert attrs[..k] == attrs;
    ApplyAttrsMeans(acc, attrs);
  }

  /** The attributes a title gives: none unless it is present and non-empty (`if title_str:`). */
  function ImageTitleAttrs(img: ImageSyntax): seq<string> {
    if img.title.Some? && img.title.value != [] then TitleAttrs(img.title.value) else []
  }

  /**
   * The image object's attributes, shared by both converters: the caption is
   * the last `caption=` value, else the non-empty alt text, else none; ref
   * and width are the last value given for them; `fullWidth` is set exactly
   * when an attribute is `fullWidth`.
   */
  function ImageAttributes(img: ImageSyntax): (r: ImageAttrs)
    ensures r.caption == KeyedValue(ImageTitleAttrs(img), "caption", if img.alt != [] then Some(img.alt) else None)
    ensures r.ref == KeyedValue(ImageTitleAttrs(img), "ref", None)
    ensures r.width == KeyedValue(ImageTitleAttrs(img), "width", None)
    ensures r.fullWidth <==> "fullWidth" in ImageTitleAttrs(img)
  {
    var base := ImageAttrs(if img.alt != [] then Some(img.alt) else None, None, None, false);
    ApplyAttrsMeans(base, ImageTitleAttrs(img));
    ApplyAttrs(base, ImageTitleAttrs(img))
  }

  // ---------------------------------------------------------------------
  // Image URLs: the file extension as os.path.splitext computes it

  /** Index of the last occurrence of `c` in `s[..n]`, if any. */
  function LastIndexOf(s: string, c: char, n: nat): (r: Option<nat>)
    requires n <= |s|
    ensures r.Some? ==> r.value < n && s[r.value] == c
    ensures r.Some? ==> forall k :: r.value < k < n ==> s[k] != c
    ensures r.None? ==> forall k :: 0 <= k < n ==> s[k] != c
  {
    if n == 0 then None else if s[n - 1] == c then Some(n - 1) else LastIndexOf(s, c, n - 1)
  }

  /** `os.path.splitext(p)[1]` on POSIX: from the last '.' after the last '/', unless the name is only dots up to it. */
  function Extension(p: string): (ext: string)
    ensures ext == [] || ext[0] == '.'
  {
    var sepIndex: int := match LastIndexOf(p, '/', |p|) case Some(k) => k case None => -1;
    match LastIndexOf(p, '.', |p|)
    case None => []
    case Some(dot) =>
      if dot > sepIndex && exists k :: sepIndex + 1 <= k < dot && p[k] != '.' then p[dot..] else []
  }

  /**
   * `d` splits off the extension: a '.' with neither '.' nor '/' after it,
   * and some character other than '.' between the last '/' and it.
   */
  ghost predicate ExtensionAt(p: string, d: nat) {
    d < |p| && p[d] == '.' &&
    (forall k :: d < k < |p| ==> p[k] != '.' && p[k] != '/') &&
    exists k :: 0 <= k < d && p[k] != '.' && forall m :: k <= m < d ==> p[m] != '/'
  }

  /** The extension is the suffix from the split point when there is one, and empty when there is none. */
  lemma ExtensionRule(p: string)
    ensures Extension(p) != [] <==> exists d: nat :: ExtensionAt(p, d)
    ensures forall d: nat :: ExtensionAt(p, d) ==> Extension(p) == p[d..]
  {
    var sepIndex: int := match LastIndexOf(p, '/', |p|) case Some(k) => k case None => -1;
    forall d: nat | ExtensionAt(p, d)
      ensures Extension(p) == p[d..] && p[d..] != []
    {
      var dot := LastIndexOf(p, '.', |p|);
      assert dot == Some(d);
      var k :| 0 <= k < d && p[k] != '.' && forall m :: k <= m < d ==> p[m] != '/';
      assert sepIndex < k;
    }
    if Extension(p) != [] {
      var dot := LastIndexOf(p, '.', |p|).value;
      var k :| sepIndex + 1 <= k < dot && p[k] != '.';
      assert forall m :: k <= m < dot ==> p[m] != '/';
      assert ExtensionAt(p, dot);
    }
  }

  function LowerAsciiString(s: string): (r: string)
    ensures |r| == |s| && forall k :: 0 <= k < |s| ==> r[k] == LowerAscii(s[k])
  {
    seq(|s|, k requires 0 <= k < |s| => LowerAscii(s[k]))
  }

  /** `url.startswith("http") or url.startswith("data:image/")`: passed through unchanged. */
  predicate IsRemoteOrInline(url: string) {
    StartsWith(url, "http") || StartsWith(url, "data:image/")
  }
}
