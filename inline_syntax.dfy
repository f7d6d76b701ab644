/**
 * The inline regular expressions of both converter versions as explicit
 * matchers, each anchored at a position the way `pattern.match(text, pos)`
 * is: lookbehind still sees the character before `pos`. A lazy group
 * `(.+?)` takes at least one character, never a '\n', and ends at the first
 * place its closing literal follows.
 */
module InlineSyntax {
  import opened Wrappers
  import opened Text
  import opened Nodes

  /** The first group of a match and the index just past the match. */
  datatype Span = Span(inner: string, end: nat)

  /** `open(.+?)close` at `pos`, for literal delimiters. */
  function DelimitedAt(s: string, pos: nat, open: string, close: string): (r: Option<Span>)
    requires open != []
    ensures r.Some? ==> IsPrefixAt(open, s, pos) && pos < r.value.end <= |s|
    ensures r.Some? ==> 1 <= |r.value.inner| < |s|
    ensures r.Some? ==> r.value.end == pos + |open| + |r.value.inner| + |close| && IsPrefixAt(close, s, r.value.end - |close|)
    ensures r.Some? ==> r.value.inner == s[pos + |open|..pos + |open| + |r.value.inner|]
  {
    if !IsPrefixAt(open, s, pos) || pos + |open| >= |s| then None
    else
      var a := pos + |open|;
      match LazyClose(s, a, a + 1, close)
      case None => None
      case Some(e) => Some(Span(s[a..e], e + |close|))
  }

  // ---------------------------------------------------------------------
  // italic  (?<!\*)\*(?!\*)(.+?)(?<!\*)\*(?!\*)

  /** A star that closes an italic span: not after a star, not before one. */
  predicate LoneStarAt(s: string, e: nat) {
    0 < e < |s| && s[e] == '*' && s[e - 1] != '*' && (e + 1 == |s| || s[e + 1] != '*')
  }

  function ItalicClose(s: string, start: nat, e: nat): (r: Option<nat>)
    requires start < e <= |s|
    decreases |s| - e
    ensures r.Some? ==> e <= r.value < |s| && LoneStarAt(s, r.value)
  {
    if s[e - 1] == '\n' then None
    else if LoneStarAt(s, e) then Some(e)
    else if e == |s| then None
    else ItalicClose(s, start, e + 1)
  }

  function ItalicAt(s: string, pos: nat): (r: Option<Span>)
    ensures r.Some? ==> pos < |s| && s[pos] == '*' && pos < r.value.end <= |s|
    ensures r.Some? ==> 1 <= |r.value.inner| < |s|
  {
    if pos + 1 < |s| && s[pos] == '*' && (pos == 0 || s[pos - 1] != '*') && s[pos + 1] != '*' then
      match ItalicClose(s, pos + 1, pos + 2)
      case None => None
      case Some(e) => Some(Span(s[pos + 1..e], e + 1))
    else None
  }

  // ---------------------------------------------------------------------
  // hyperlink  \[(?!\^|ref:)(.+?)\]\((.+?)\)

  datatype Link = Link(text: string, url: string, end: nat)

  /**
   * Group 1 is `s[start..e]`; when `](url)` does not follow, the engine
   * backtracks into group 1 and lets it grow by one character.
   */
  function LinkFrom(s: string, start: nat, e: nat): (r: Option<Link>)
    requires start < e <= |s|
    decreases |s| - e
    ensures r.Some? ==> e < r.value.end <= |s| && r.value.text != [] && r.value.url != []
  {
    if s[e - 1] == '\n' then None
    else
      var u := if IsPrefixAt("](", s, e) && e + 2 < |s| then LazyClose(s, e + 2, e + 3, ")") else None;
      if u.Some? then Some(Link(s[start..e], s[e + 2..u.value], u.value + 1))
      else if e == |s| then None
      else LinkFrom(s, start, e + 1)
  }

  function LinkAt(s: string, pos: nat): (r: Option<Link>)
    ensures r.Some? ==> pos < |s| && s[pos] == '[' && pos < r.value.end <= |s|
  {
    if pos + 1 < |s| && s[pos] == '[' && s[pos + 1] != '^' && !IsPrefixAt("ref:", s, pos + 1) then
      LinkFrom(s, pos + 1, pos + 2)
    else None
  }

  // ---------------------------------------------------------------------
  // REF_PATTERN  \[ref:(?P<ref>[^\]\s]+)(?:\s+label=(?P<label>[^\]]+))?\]

  datatype RefMatch = RefMatch(ref: string, labelText: Option<string>, end: nat)

  /** End of `[^\]\s]+` (greedy) from `i`. */
  function RefIdEnd(s: string, i: nat): (e: nat)
    requires i <= |s|
    decreases |s| - i
    ensures i <= e <= |s| && (e < |s| ==> s[e] == ']' || IsSpace(s[e]))
    ensures forall k :: i <= k < e ==> s[k] != ']' && !IsSpace(s[k])
  {
    if i == |s| || s[i] == ']' || IsSpace(s[i]) then i else RefIdEnd(s, i + 1)
  }

  /** End of `[^\]]+` (greedy) from `i`: the next ']' or the end. */
  function BracketFrom(s: string, i: nat): (e: nat)
    requires i <= |s|
    decreases |s| - i
    ensures i <= e <= |s| && (e < |s| ==> s[e] == ']')
    ensures forall k :: i <= k < e ==> s[k] != ']'
  {
    if i == |s| || s[i] == ']' then i else BracketFrom(s, i + 1)
  }

  /**
   * The greedy id stops at ']' or at whitespace. At ']' the match ends with
   * no label; at whitespace only ` label=L]` can complete it, and no shorter
   * id or label would make the match succeed instead.
   */
  function RefAt(s: string, pos: nat): (r: Option<RefMatch>)
    ensures r.Some? ==> IsPrefixAt("[ref:", s, pos) && pos < r.value.end <= |s| && s[r.value.end - 1] == ']'
    ensures r.Some? ==> r.value.ref != [] && forall k :: 0 <= k < |r.value.ref| ==> r.value.ref[k] != ']' && !IsSpace(r.value.ref[k])
    ensures r.Some? && r.value.labelText.Some? ==> r.value.labelText.value != [] && forall k :: 0 <= k < |r.value.labelText.value| ==> r.value.labelText.value[k] != ']'
  {
    if !IsPrefixAt("[ref:", s, pos) then None
    else
      var a := pos + 5;
      var b := RefIdEnd(s, a);
      if b == a || b == |s| then None
      else if s[b] == ']' then Some(RefMatch(s[a..b], None, b + 1))
      else
        var w := SkipSpaces(s, b);
        if !IsPrefixAt("label=", s, w) then None
        else
          var c := BracketFrom(s, w + 6);
          if c == w + 6 || c == |s| then None
          else Some(RefMatch(s[a..b], Some(s[w + 6..c]), c + 1))
  }

  // ---------------------------------------------------------------------
  // The decoration tables, in dictionary order

  datatype Pattern =
    | Delimited(open: string, close: string, flags: Flags)
    | ItalicPattern
    | LinkPattern
    | LegacyRefPattern   // the older version's  \[ref:(.+?)\]

  /** The characters a table entry can start on. */
  predicate Opener(c: char) {
    c == '*' || c == '_' || c == '^' || c == '<' || c == '~' || c == '['
  }

  predicate WellFormedPattern(p: Pattern) {
    p.Delimited? ==> p.open != [] && Opener(p.open[0])
  }

  /** `INLINE_FORMATTING_PATTERNS` of the current converter. */
  const CurrentPatterns: seq<Pattern> := [
    Delimited("***", "***", BoldItalic),
    Delimited("**", "**", Bold),
    ItalicPattern,
    Delimited("__", "__", Underline),
    Delimited("^", "^", Superscript),
    Delimited("<sup>", "</sup>", Superscript),
    Delimited("~", "~", Subscript),
    Delimited("<sub>", "</sub>", Subscript),
    LinkPattern
  ]

  /** `INLINE_FORMATTING_PATTERNS` of the older converter. */
  const LegacyPatterns: seq<Pattern> := [
    Delimited("***", "***", BoldItalic),
    Delimited("**", "**", Bold),
    ItalicPattern,
    Delimited("__", "__", Underline),
    Delimited("^", "^", Superscript),
    Delimited("~", "~", Subscript),
    Delimited("<sup>", "</sup>", Superscript),
    Delimited("<sub>", "</sub>", Subscript),
    LegacyRefPattern,
    LinkPattern
  ]

  /** What a successful match at a position yields. */
  datatype Hit =
    | MathHit(inner: string, end: nat)
    | RefHit(ref: string, labelText: Option<string>, end: nat)
    | DecorationHit(flags: Flags, inner: string, end: nat)
    | LinkHit(text: string, url: string, end: nat)

  /** One table entry tried at `pos`. */
  function PatternAt(s: string, pos: nat, p: Pattern): (r: Option<Hit>)
    requires WellFormedPattern(p)
    ensures r.Some? ==> pos < r.value.end <= |s|
    ensures r.Some? && r.value.DecorationHit? ==> 1 <= |r.value.inner| < |s|
    ensures r.Some? ==> (p.LinkPattern? <==> r.value.LinkHit?) && (r.value.DecorationHit? || r.value.LinkHit?)
    ensures r.Some? ==> pos < |s| && Opener(s[pos])
  {
    match p
    case Delimited(o, c, f) =>
      (match DelimitedAt(s, pos, o, c) case None => None case Some(sp) => Some(DecorationHit(f, sp.inner, sp.end)))
    case ItalicPattern =>
      (match ItalicAt(s, pos) case None => None case Some(sp) => Some(DecorationHit(Italic, sp.inner, sp.end)))
    case LegacyRefPattern =>
      (match DelimitedAt(s, pos, "[ref:", "]") case None => None case Some(sp) => Some(DecorationHit(NoFlags, sp.inner, sp.end)))
    case LinkPattern =>
      (match LinkAt(s, pos) case None => None case Some(l) => Some(LinkHit(l.text, l.url, l.end)))
  }

  /** The first entry of `table[k..]` that matches at `pos` (the `for ... break` over the dictionary). */
  function FirstInTable(s: string, pos: nat, table: seq<Pattern>, k: nat): (r: Option<Hit>)
    requires forall j :: 0 <= j < |table| ==> WellFormedPattern(table[j])
    requires k <= |table|
    decreases |table| - k
    ensures r.Some? ==> pos < r.value.end <= |s|
    ensures r.Some? && r.value.DecorationHit? ==> 1 <= |r.value.inner| < |s|
    ensures r.Some? ==> (r.value.DecorationHit? || r.value.LinkHit?) && pos < |s| && Opener(s[pos])
    ensures r.Some? ==> exists j :: k <= j < |table| && PatternAt(s, pos, table[j]) == r &&
                          forall i :: k <= i < j ==> PatternAt(s, pos, table[i]).None?
    ensures r.None? ==> forall j :: k <= j < |table| ==> PatternAt(s, pos, table[j]).None?
  {
    if k == |table| then None
    else
      var h := PatternAt(s, pos, table[k]);
      if h.Some? then h else FirstInTable(s, pos, table, k + 1)
  }

  /** `INLINE_MATH_PATTERN`  \$(.+?)\$  anchored at `pos`. */
  function MathAt(s: string, pos: nat): (r: Option<Span>)
    ensures r.Some? ==> pos < |s| && s[pos] == '$' && pos < r.value.end <= |s|
  {
    DelimitedAt(s, pos, "$", "$")
  }

  /** `INLINE_MATH_PATTERN.search(s, from)`: the first match at or after `from`. */
  function MathSearch(s: string, from: nat): (r: Option<(nat, Span)>)
    requires from <= |s|
    decreases |s| - from
    ensures r.Some? ==> from <= r.value.0 < r.value.1.end <= |s| && MathAt(s, r.value.0) == Some(r.value.1)
    ensures r.Some? ==> forall q :: from <= q < r.value.0 ==> MathAt(s, q).None?
    ensures r.None? ==> forall q :: from <= q <= |s| ==> MathAt(s, q).None?
  {
    if from == |s| then None
    else match MathAt(s, from)
      case Some(sp) => Some((from, sp))
      case None => MathSearch(s, from + 1)
  }
}
