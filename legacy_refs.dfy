/**
 * The reference-section support of the older converter: the patterns that
 * recognise a references heading and the lines of a reference list, and the
 * label a cross-reference takes from its id. Each pattern is an explicit
 * scanner; the `...Split` predicates state the same pattern the way the
 * regular-expression engine reads it (some way of cutting the line into the
 * pattern's parts), and a lemma shows the two agree.
 */
module LegacyReferences {
  import opened Text

  // ---------------------------------------------------------------------
  // REFERENCE_SECTION_PATTERNS (re.IGNORECASE)
  //   ^#{0,6}\s*(References?|Bibliography|Works\s+Cited|Literature(\s+Cited)?|Sources?)$
  //   ^(References?|Bibliography|Works\s+Cited|Literature(\s+Cited)?|Sources?)$
  // Both are applied to a stripped line, so `$` is the end of the line.

  /** `s` is the lower-case ASCII word `w`, ignoring ASCII case. */
  predicate EqualsCI(s: string, w: string) {
    |s| == |w| && StartsWithCI(s, w)
  }

  /** `first\s+second` spans the whole of `s`, ignoring ASCII case. */
  predicate TwoWordsCI(s: string, first: string, second: string) {
    StartsWithCI(s, first) &&
    var j := SkipSpaces(s, |first|);
    j > |first| && EqualsCI(s[j..], second)
  }

  /** The title group of the section patterns, matched against all of `s`. */
  predicate SectionTitle(s: string) {
    EqualsCI(s, "reference") || EqualsCI(s, "references") || EqualsCI(s, "bibliography") ||
    TwoWordsCI(s, "works", "cited") || EqualsCI(s, "literature") || TwoWordsCI(s, "literature", "cited") ||
    EqualsCI(s, "source") || EqualsCI(s, "sources")
  }

  /** Number of '#' characters from `i` on. */
  function Hashes(s: string, i: nat): (e: nat)
    requires i <= |s|
    decreases |s| - i
    ensures i <= e <= |s| && (e < |s| ==> s[e] != '#')
    ensures forall k :: i <= k < e ==> s[k] == '#'
  {
    if i == |s| || s[i] != '#' then i else Hashes(s, i + 1)
  }

  /**
   * The first section pattern: at most six '#', optional whitespace, then a
   * title up to the end. Taking fewer '#' or less whitespace cannot help,
   * since a title starts with a letter.
   */
  predicate HashedSectionTitle(line: string) {
    var h := Hashes(line, 0);
    h <= 6 && SectionTitle(line[SkipSpaces(line, h)..])
  }

  /** `_is_reference_section_heading`: either pattern matches. */
  predicate IsReferenceSectionHeading(line: string) {
    HashedSectionTitle(line) || SectionTitle(line)
  }

  /** A text that starts with a lower-case word, ignoring case, starts with a letter. */
  lemma StartsWithLetter(s: string, w: string)
    requires StartsWithCI(s, w) && w != [] && 'a' <= w[0] <= 'z'
    ensures s != [] && s[0] != '#' && !IsSpace(s[0])
  {
  }

  /** A title starts with a letter, never with '#' or whitespace. */
  lemma TitleStartsWithLetter(s: string)
    requires SectionTitle(s)
    ensures s != [] && s[0] != '#' && !IsSpace(s[0])
  {
    if EqualsCI(s, "reference") {
      StartsWithLetter(s, "reference");
    } else if EqualsCI(s, "references") {
      StartsWithLetter(s, "references");
    } else if EqualsCI(s, "bibliography") {
      StartsWithLetter(s, "bibliography");
    } else if TwoWordsCI(s, "works", "cited") {
      StartsWithLetter(s, "works");
    } else if EqualsCI(s, "literature") || TwoWordsCI(s, "literature", "cited") {
      StartsWithLetter(s, "literature");
    } else if EqualsCI(s, "source") {
      StartsWithLetter(s, "source");
    } else {
      StartsWithLetter(s, "sources");
    }
  }

  /** The second section pattern adds nothing: every line it accepts, the first accepts too. */
  lemma BareTitleIsHashed(line: string)
    ensures IsReferenceSectionHeading(line) <==> HashedSectionTitle(line)
  {
    if SectionTitle(line) {
      TitleStartsWithLetter(line);
      assert Hashes(line, 0) == 0 && SkipSpaces(line, 0) == 0;
      assert line[0..] == line;
    }
  }

  /** A references heading never has more than six '#' and always has a title. */
  lemma ReferenceHeadingShape(line: string)
    requires IsReferenceSectionHeading(line)
    ensures Hashes(line, 0) <= 6 && SectionTitle(line[SkipSpaces(line, Hashes(line, 0))..])
  {
    BareTitleIsHashed(line);
  }

  // ---------------------------------------------------------------------
  // REFERENCE_LINE_PATTERNS
  //   ^\s*\[?\d+[\]\.]
  //   ^\s*\([A-Z][a-zA-Z\s,\.-]+,?\s*\d{4}\)
  //   ^\s*[A-Z][a-zA-Z\s,\.-]+\s*\(\d{4}\)
  //   ^\s*\[[A-Z][a-zA-Z\s,\.-]+(?:\s+et\s+al\.?)?,?\s*\d{4}\]
  // In the last three the optional parts after the author run (`,?`, `\s*`,
  // ` et al.`) consist of author characters themselves, so the author run
  // can always absorb them: the pattern holds exactly when some non-empty
  // run of author characters is followed by the year.

  /** `[a-zA-Z\s,\.-]`: a character of an author list. */
  predicate NameChar(c: char) {
    'a' <= c <= 'z' || 'A' <= c <= 'Z' || IsSpace(c) || c == ',' || c == '.' || c == '-'
  }

  predicate Upper(c: char) {
    'A' <= c <= 'Z'
  }

  /** End of the greedy author run from `i`. */
  function NameEnd(s: string, i: nat): (e: nat)
    requires i <= |s|
    decreases |s| - i
    ensures i <= e <= |s| && (e < |s| ==> !NameChar(s[e]))
    ensures forall k :: i <= k < e ==> NameChar(s[k])
  {
    if i == |s| || !NameChar(s[i]) then i else NameEnd(s, i + 1)
  }

  /** `\d{4}` at `i`, then the character `close`. */
  predicate YearThen(s: string, i: nat, close: char) {
    i + 4 < |s| && IsDigit(s[i]) && IsDigit(s[i + 1]) && IsDigit(s[i + 2]) && IsDigit(s[i + 3]) && s[i + 4] == close
  }

  /** `s[i..e]` is a non-empty run of author characters. */
  predicate NameRun(s: string, i: nat, e: nat) {
    i < e <= |s| && forall k :: i <= k < e ==> NameChar(s[k])
  }

  /** `^\s*\[?\d+[\]\.]`: a numbered entry such as `[1]` or `1.`. */
  predicate NumberedEntry(s: string) {
    var a := SkipSpaces(s, 0);
    var b := if a < |s| && s[a] == '[' then a + 1 else a;
    var d := SkipDigits(s, b);
    b < d < |s| && (s[d] == ']' || s[d] == '.')
  }

  /** `^\s*\([A-Z]...\d{4}\)`: a citation in parentheses, such as `(Smith, 2020)`. */
  predicate ParenthesisedCitation(s: string) {
    var a := SkipSpaces(s, 0);
    a + 1 < |s| && s[a] == '(' && Upper(s[a + 1]) && YearThen(s, NameEnd(s, a + 2), ')') && NameEnd(s, a + 2) > a + 2
  }

  /** `^\s*[A-Z]...\s*\(\d{4}\)`: authors followed by the year in parentheses. */
  predicate AuthorYear(s: string) {
    var a := SkipSpaces(s, 0);
    var e := if a < |s| then NameEnd(s, a + 1) else a;
    a < |s| && Upper(s[a]) && e > a + 1 && e < |s| && s[e] == '(' && YearThen(s, e + 1, ')')
  }

  /** `^\s*\[[A-Z]...\d{4}\]`: a citation in brackets, such as `[Smith et al., 2020]`. */
  predicate BracketedCitation(s: string) {
    var a := SkipSpaces(s, 0);
    a + 1 < |s| && s[a] == '[' && Upper(s[a + 1]) && YearThen(s, NameEnd(s, a + 2), ']') && NameEnd(s, a + 2) > a + 2
  }

  /** `_is_reference_line`: one of the four patterns matches. */
  predicate IsReferenceLine(s: string) {
    NumberedEntry(s) || ParenthesisedCitation(s) || AuthorYear(s) || BracketedCitation(s)
  }

  /** The author run of a match is the greedy one: it cannot stop before a name character. */
  lemma {:induction false} NameRunIsGreedy(s: string, i: nat, e: nat)
    requires i <= e <= |s| && (forall k :: i <= k < e ==> NameChar(s[k])) && (e < |s| ==> !NameChar(s[e]))
    ensures e == NameEnd(s, i)
    decreases e - i
  {
    if i < e {
      NameRunIsGreedy(s, i + 1, e);
    }
  }

  /** A year digit or a '(' ends an author run. */
  lemma YearEndsName(s: string, i: nat, e: nat, close: char)
    requires i <= e && YearThen(s, e, close)
    ensures !NameChar(s[e])
  {
  }

  /** The second pattern, read as the engine does: an opening '(', a capital, some author run, the year. */
  ghost predicate ParenthesisedSplit(s: string) {
    var a := SkipSpaces(s, 0);
    a + 1 < |s| && s[a] == '(' && Upper(s[a + 1]) &&
    exists e: nat :: NameRun(s, a + 2, e) && YearThen(s, e, ')')
  }

  lemma ParenthesisedCitationMeansSplit(s: string)
    ensures ParenthesisedCitation(s) <==> ParenthesisedSplit(s)
  {
    var a := SkipSpaces(s, 0);
    if ParenthesisedCitation(s) {
      assert NameRun(s, a + 2, NameEnd(s, a + 2));
    }
    if ParenthesisedSplit(s) {
      var e: nat :| NameRun(s, a + 2, e) && YearThen(s, e, ')');
      YearEndsName(s, a + 2, e, ')');
      NameRunIsGreedy(s, a + 2, e);
    }
  }

  /** The third pattern, read as the engine does: a capital, some author run, then `(` and the year. */
  ghost predicate AuthorYearSplit(s: string) {
    var a := SkipSpaces(s, 0);
    a < |s| && Upper(s[a]) &&
    exists e: nat :: NameRun(s, a + 1, e) && e < |s| && s[e] == '(' && YearThen(s, e + 1, ')')
  }

  lemma AuthorYearMeansSplit(s: string)
    ensures AuthorYear(s) <==> AuthorYearSplit(s)
  {
    var a := SkipSpaces(s, 0);
    if AuthorYear(s) {
      assert NameRun(s, a + 1, NameEnd(s, a + 1));
    }
    if AuthorYearSplit(s) {
      var e: nat :| NameRun(s, a + 1, e) && e < |s| && s[e] == '(' && YearThen(s, e + 1, ')');
      NameRunIsGreedy(s, a + 1, e);
    }
  }

  /** The fourth pattern, read as the engine does: an opening '[', a capital, some author run, the year. */
  ghost predicate BracketedSplit(s: string) {
    var a := SkipSpaces(s, 0);
    a + 1 < |s| && s[a] == '[' && Upper(s[a + 1]) &&
    exists e: nat :: NameRun(s, a + 2, e) && YearThen(s, e, ']')
  }

  lemma BracketedCitationMeansSplit(s: string)
    ensures BracketedCitation(s) <==> BracketedSplit(s)
  {
    var a := SkipSpaces(s, 0);
    if BracketedCitation(s) {
      assert NameRun(s, a + 2, NameEnd(s, a + 2));
    }
    if BracketedSplit(s) {
      var e: nat :| NameRun(s, a + 2, e) && YearThen(s, e, ']');
      YearEndsName(s, a + 2, e, ']');
      NameRunIsGreedy(s, a + 2, e);
    }
  }

  /** A reference line never starts with '#', so a references list is never cut short by one of its own entries. */
  lemma ReferenceLineNotHeading(s: string)
    requires IsReferenceLine(s) && s != []
    ensures s[0] != '#'
  {
  }

  // ---------------------------------------------------------------------
  // _get_reference_label

  /** The kind of target a cross-reference id names, from its prefix. */
  function ReferenceLabel(refId: string): (kind: string)
    ensures kind == "figure" <==> StartsWith(refId, "fig-")
    ensures kind == "table" <==> StartsWith(refId, "tbl-") && !StartsWith(refId, "fig-")
    ensures kind == "section" <==> !StartsWith(refId, "fig-") && !StartsWith(refId, "tbl-")
  {
    if StartsWith(refId, "fig-") then "figure"
    else if StartsWith(refId, "tbl-") then "table"
    else "section"
  }
}
