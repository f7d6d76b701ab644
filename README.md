# papermill-markdown, modelled in Dafny

papermill-markdown turns Markdown into the JSON block list of the Papermill
report format: headings, lists, images, tables, paragraphs of formatted
runs, display equations, code blocks and page breaks. This project models,
and proves properties of, the three parts that do the work:

- the current converter, `MarkdownToPapermill` in
  `src/papermill_markdown/converter.py`:
  - the normalisation of the input (NFC, then eight repairs of garbled
    UTF-8);
  - footnote extraction;
  - the caption pre-pass and the main line loop, with its paragraph buffer
    and its count of blank lines in a row;
  - the block builders for headings, lists, images, tables and paragraphs;
  - the recursive inline engine for bold, italic, underline, superscript,
    subscript, hyperlinks, `[ref:…]` markers and inline `$…$` math.
- the older converter in `src/papermill_converter.py`. It shares the line
  patterns but differs in several ways:
  - references sections are recognised and read;
  - the inline engine is flat, driven by `search` and a minimum over the
    pattern table;
  - cells are kept as plain strings;
  - a missing image file keeps its URL instead of raising;
  - the paragraph builder reads placeholder prefixes and can raise.
- the linter, `MarkdownLinter` in `src/papermill_markdown/linter.py`. It
  moves a table caption found below a table to just above it, and reports
  every line with an odd number of unescaped `$`.

## Modules

| file | module | what it holds |
|---|---|---|
| wrappers.dfy | Wrappers | `Option` and `Result` |
| text.dfy | Text | the Python `str` operations the code relies on: `strip`, `find`, `split`, `join`, `replace`, and the regex building blocks `\s*`, `\d+` and lazy `.+?` |
| host.dfy | Host | what the converters get from outside: NFC normalisation, `unquote`, the file system and base64 |
| nodes.dfy | Nodes | the output: inline runs with their flags, and the block kinds |
| patterns.dfy | Patterns | the line patterns: headings, list markers, captions, table cells, image lines and their attributes |
| inline_syntax.dfy | InlineSyntax | the inline patterns as matchers with Python's backtracking worked out; the two formatting tables in dictionary order |
| inline.dfy | CurrentInline | `_process_inline_formatting` and `_process_inline_math_and_formatting` of the current converter |
| footnotes.dfy | Footnotes | `_process_footnotes` (shared by both converters) |
| normalize.dfy | Normalize | the replacement loop of `convert` |
| blocks.dfy | CurrentBlocks | the current block builders |
| converter.dfy | CurrentConverter | the main loop of the current `convert` and the `Converter` class |
| legacy_refs.dfy | LegacyReferences | references headings and reference lines of the older converter |
| legacy_inline.dfy | LegacyInline | the older inline engine |
| legacy_blocks.dfy | LegacyBlocks | the older block builders |
| legacy_converter.dfy | LegacyConverter | the older main loop and its `Converter` class |
| linter.dfy | Linter | `MarkdownLinter` |

## How the model is built

- Every loop of the source is a `method` with a `while` or `for` loop.
  - Its `ensures` equates its result with a specification function: `Scan`,
    `ListAt`, `TableAt`, `Run` and `Fixed`, for example.
  - The properties are then proved about that function as lemmas.
- The main loops of the converters are specified one pass at a time:
  - `StepAt` says what one pass appends and where the loop resumes;
  - `Run` is the whole loop together with the final flush;
  - the lemmas go one pass at a time through `RunStep`.
- The loop only decides which lines make which block. It hands each builder
  a `Piece`, and `Build` is the builder call.
- The converter and linter objects are classes:
  - `convert` replaces the `footnotes` field;
  - `lint` appends to `open_issues` and `resolved_issues` and sets
    `fixed_text`.
- The linter's caption pass is stated over `Rules`, which holds three line
  classes: table row, blank and caption.
  - `Linter.Markdown` is the instance the linter uses.
  - `Linter.MarkdownConsistent` proves that this instance meets the two
    facts the lemmas need. A table row is never blank, and a caption is
    neither a row nor blank.
- Regular expressions are matchers written by hand with Python's semantics:
  - lazy `.+?` never crosses a line break;
  - `pattern.match(text, pos)` sees the characters before `pos` for a
    look-behind;
  - `search` returns the leftmost match;
  - a dictionary of patterns is tried in insertion order.
- Where the code raises, the model returns `Failure`:
  - the current converter raises `FileNotFoundError` for a missing image;
  - the older paragraph builder fails to unpack a cross-reference
    placeholder, or a hyperlink placeholder without `__URL__`.

## Behaviour worth knowing

The model follows the code. Where the code and its own comments or the
project documentation disagree, the code is what is modelled. The behaviours below
are proved:

- **Page breaks.** The current converter emits a page break on every third
  blank line in a row: six blank lines give two breaks, not one per run of
  blank lines (`CurrentConverter.BlankLines`).
- **Repairs.** The garbled-text repairs are not idempotent. `â€â€œ` becomes
  `â€“` after one pass and `–` after a second (`Normalize.FirstPass`,
  `Normalize.SecondPass`).
- **Trailing caption.** The trailing caption of a table is looked for two
  and three lines below the last body row. The line directly after the body
  is never looked at, because `_find_caption` skips its start line.
- **Underline read as a footnote.** In the current converter's paragraph
  builder, every part that holds `__` is read as a footnote, the first part
  included. So an underlined word in plain paragraph text becomes an empty
  footnote node (`CurrentBlocks.UnderlineTakenForFootnote`).
- **Older paragraph builder.**
  - A `CROSS_REF__` placeholder always fails to unpack.
  - An `INLINE_MATH__` placeholder always yields an empty math node.
  - The text that follows a footnote placeholder in the same part is
    dropped.
- **Linter direction.** The linter's module docstring says that captions
  above a table are moved below it. The code, and so the model, moves a
  caption found below a table to above it. Blank lines between the table and
  its caption are dropped.
- **Markers re-formed by removal.** `REF_PATTERN.sub` does not look
  again at the text it has cut. So the pieces left around a removed marker
  can form a new one, and that marker stays in the heading text:
  `[re[ref:x]f:y]` becomes `[ref:y]` (`CurrentBlocks.ReformedMarker`).
  Footnote definitions cannot re-form this way: a definition always ends
  at a line break or at the end of the text (`Footnotes.DefinitionAt`).
  Text before it could only start a definition that had already matched
  before the cut. This last step is an argument, not a proved lemma.
- **Issue numbers.** The linter numbers its `$` issues by line of the fixed
  output, not of the input.

## Model

| member | source | states |
|---|---|---|
| Text.Strip | src/papermill_markdown/converter.py:94 | the result has no whitespace at either end, is empty exactly when the line is all whitespace, and is never longer than the line |
| Text.StripSlice | src/papermill_markdown/converter.py:94 | the stripped line is the slice from its first non-whitespace character to just after its last one |
| Text.FindFrom | src/papermill_markdown/converter.py:230 | `find` returns the first index at or after the start where the pattern occurs; no earlier index holds it; nothing is returned only when it occurs nowhere after the start |
| Text.NotInPrefixBeforeFirst | src/papermill_markdown/converter.py:410 | the text before the first occurrence of a separator does not contain it |
| Text.Split | src/papermill_markdown/converter.py:81 | `split` yields at least one part and no part contains the separator |
| Text.JoinSplit | src/papermill_markdown/converter.py:81 | joining the parts of a split with the same separator gives back the text |
| Text.SplitOnce | src/papermill_markdown/converter.py:410 | `split(sep, 1)`: the head, the separator and the tail make up the text, and the head has no separator |
| Text.ReplaceAbsent | src/papermill_markdown/converter.py:76-77 | `replace` leaves a text without the pattern unchanged |
| Text.Drop | src/papermill_markdown/converter.py:232 | `line[2:]`: the characters from the third on, in order, and nothing for a shorter line |
| Text.StartsWithCIChars | src/papermill_markdown/converter.py:16 | the case-insensitive prefix test compares the first characters one by one after lower-casing |
| Text.LineEnd | src/papermill_markdown/converter.py:14 | `[^\n]+` stops at the first line break: none before it, and it is a line break or the end |
| Text.SkipSpaces | src/papermill_markdown/converter.py:13 | `\s*` is greedy: all it skips is whitespace, and it stops at a non-whitespace character or the end |
| Text.SkipDigits | src/papermill_markdown/converter.py:14 | `\d+` is greedy: all it skips is digits, and it stops at a non-digit or the end |
| Text.LazyClose | src/papermill_markdown/converter.py:33-45 | lazy `(.+?)close` ends at the first position where the closing delimiter occurs, with no line break in the group |
| Text.SplitJoinLines | src/papermill_markdown/linter.py:89 | joining lines that hold no line break with `\n` and splitting again gives the lines back |
| Patterns.HeadingAt | src/papermill_markdown/converter.py:13 | the heading pattern matches exactly when the line starts with `#`; it takes one to six `#`, greedily |
| Patterns.HashRun | src/papermill_markdown/converter.py:13 | `#{1,6}` is greedy: it takes every leading `#` up to six |
| Patterns.ListMarkerAt | src/papermill_markdown/converter.py:28 | a numbered marker starts with a digit and holds a dot; a bullet is `-` or `*` followed by whitespace; `-` or `*` without whitespace after it is no marker |
| Patterns.CaptionTextStart | src/papermill_markdown/converter.py:384 | the caption group exists exactly when the label `word.? digits` starts the line, and it starts after the label |
| Patterns.CaptionStart | src/papermill_markdown/converter.py:384 | a caption group exists exactly when the line starts with a table or a figure label |
| Patterns.CleanCaption | src/papermill_markdown/converter.py:382-388 | the cleaned caption has no whitespace at either end; a line without a label is only stripped |
| Patterns.CaptionAbove | src/papermill_markdown/converter.py:369-373 | a caption found above is a table-caption line among the two lines before the start |
| Patterns.CaptionBelow | src/papermill_markdown/converter.py:375-379 | a caption found below is a table-caption line among the two lines after the start |
| Patterns.CaptionIndex | src/papermill_markdown/converter.py:367-380 | the caption line settled on is a table-caption line and never the start line itself |
| Patterns.FindCaption | src/papermill_markdown/converter.py:367-380 | there is no caption exactly when no window line holds one; the caption is that line cleaned; the index moves past the caption only when it was found below |
| Patterns.SkipRule | src/papermill_markdown/converter.py:328 | `[-:]+` is greedy over the separator row's rule characters |
| Patterns.Cells | src/papermill_markdown/converter.py:324 | the cells are the stripped parts between the first and the last bar: as many as the parts less two |
| Patterns.QuoteToEnd | src/papermill_markdown/converter.py:258 | `(.*?)"$` is lazy: the first quote that `"$` accepts and that the group reaches without a line break; none when the group reaches no such quote |
| Patterns.TitleSplit | src/papermill_markdown/converter.py:258 | `re.search(r'^(.*?)\s+"(.*?)"$', ...)` takes the shortest group 1 for which the whole pattern matches; none exactly when no group 1 lets it match |
| Patterns.TitleParts | src/papermill_markdown/converter.py:258-264 | when the title pattern matches the stripped target, the URL is its stripped group 1 and the title its stripped group 2; otherwise the URL is the whole target and there is no title |
| Patterns.ParseImageLine | src/papermill_markdown/converter.py:249-264 | the line is parsed exactly when both the alt part and the target are found; the alt text is the stripped group; URL and title are `TitleParts` of the stripped target |
| Patterns.ApplyAttr | src/papermill_markdown/converter.py:273-282 | an attribute with `=` whose stripped key is `caption`, `ref` or `width` sets that field to the stripped value after the first `=`; `fullWidth` sets full width; anything else changes nothing |
| Patterns.LastKeyed | src/papermill_markdown/converter.py:273-280 | the index of the last attribute with the given key, none after it; none when no attribute has the key |
| Patterns.ApplyAttrsMeans | src/papermill_markdown/converter.py:270-282 | after the loop, caption, ref and width each hold the value of the last attribute with that key, or what they held before; full width is set exactly when it was or some attribute is `fullWidth` |
| Patterns.OtherKeysIgnored | src/papermill_markdown/converter.py:273-282 | attributes with no recognised key that are not `fullWidth` leave the image object unchanged |
| Patterns.ApplyTitleAttributes | src/papermill_markdown/converter.py:270-282 | the attribute loop over the stripped comma-separated parts of the title leaves each of caption, ref and width at the last value given for it, and sets full width exactly when a part is `fullWidth` |
| Patterns.ImageAttributes | src/papermill_markdown/converter.py:267-282 | the caption is the last `caption=` value, else the non-empty alt text, else none; ref and width are the last value given for them, else none; full width is set exactly when the non-empty title has a `fullWidth` attribute |
| Patterns.LastIndexOf | src/papermill_markdown/converter.py:292 | the last occurrence of the character, with none after it; none only when it does not occur |
| Patterns.Extension | src/papermill_markdown/converter.py:292 | the extension is empty or starts with a dot |
| Patterns.ExtensionRule | src/papermill_markdown/converter.py:292 | `os.path.splitext`: the extension is the suffix from the last dot of the last path component, provided a character other than a dot precedes that dot in the component; otherwise it is empty |
| InlineSyntax.DelimitedAt | src/papermill_markdown/converter.py:33-45 | a delimited match opens at the position; its group is the non-empty text after the opener and is followed by the closer; the match ends just past the closer |
| InlineSyntax.ItalicClose | src/papermill_markdown/converter.py:37 | the star that closes an italic span has no star on either side |
| InlineSyntax.ItalicAt | src/papermill_markdown/converter.py:37 | an italic match starts on a star and has a non-empty group |
| InlineSyntax.LinkFrom | src/papermill_markdown/converter.py:47 | a hyperlink's text and URL are both non-empty |
| InlineSyntax.LinkAt | src/papermill_markdown/converter.py:47 | a hyperlink match starts on `[` |
| InlineSyntax.RefIdEnd | src/papermill_markdown/converter.py:52 | the reference id runs greedily up to `]` or whitespace |
| InlineSyntax.BracketFrom | src/papermill_markdown/converter.py:52 | the label runs greedily up to `]` |
| InlineSyntax.RefAt | src/papermill_markdown/converter.py:52 | a reference match starts with `[ref:` and ends with `]`; the id is non-empty with no `]` or whitespace; a label is non-empty with no `]` |
| InlineSyntax.PatternAt | src/papermill_markdown/converter.py:496-497 | a table entry's match ends after the position and starts on a markup character; only the link entry yields a link |
| InlineSyntax.FirstInTable | src/papermill_markdown/converter.py:496-498 | the match taken is that of the first entry in dictionary order that matches; nothing is taken only when no entry matches |
| InlineSyntax.MathAt | src/papermill_markdown/converter.py:57 | inline math starts on `$` |
| InlineSyntax.MathSearch | src/papermill_markdown/converter.py:434 | `finditer` finds the leftmost inline math from the position; none matches before it, and nothing is found only when none matches at all |
| CurrentInline.CurrentPatternsWellFormed | src/papermill_markdown/converter.py:31-47 | every entry of the formatting table opens with a markup character |
| CurrentInline.HitAt | src/papermill_markdown/converter.py:465-498 | the match taken at a position (math, then a reference, then the table) ends after it and starts on `$` or a markup character |
| CurrentInline.NextBoundary | src/papermill_markdown/converter.py:554-559 | the plain run ends at the nearest position where some pattern matches, or at the end; nothing matches before it |
| CurrentInline.Decorate | src/papermill_markdown/converter.py:528-544 | a decorated span keeps its number of runs; every run carries the decoration's flags and its own, and none is left a bare string |
| CurrentInline.RemoveEmpty | src/papermill_markdown/converter.py:564 | no empty string is left, and a list without one is unchanged |
| CurrentInline.Format | src/papermill_markdown/converter.py:457-567 | the formatter never returns a list of one, and never an empty string among its runs or as its single run |
| CurrentInline.MaybeListify | src/papermill_markdown/converter.py:310-315 | a one-element list becomes its element; anything else is unchanged |
| CurrentInline.ScanPlainStep | src/papermill_markdown/converter.py:553-561 | where nothing matches, the text up to the next boundary is one plain run |
| CurrentInline.ScanDecorationStep | src/papermill_markdown/converter.py:496-548 | at a decoration, the inner text is formatted recursively and decorated, and the scan resumes after the match |
| CurrentInline.ScanRunStep | src/papermill_markdown/converter.py:466-492 | inline math, a reference or a link at the position is one run, and the scan resumes after it |
| CurrentInline.SegmentsStep | src/papermill_markdown/converter.py:434-439 | the text before an inline-math match is formatted and flattened, then the stripped equation follows |
| CurrentInline.SegmentsRest | src/papermill_markdown/converter.py:440-441 | after the last inline-math match, the rest of the text is formatted and flattened |
| CurrentInline.MatchAt | src/papermill_markdown/converter.py:466-498 | the per-position decision of the loop is the match `HitAt` defines |
| CurrentInline.Step | src/papermill_markdown/converter.py:465-561 | one turn advances the position, and its runs followed by the scan from the new position are the scan from the old one |
| CurrentInline.ProcessInlineFormatting | src/papermill_markdown/converter.py:457-567 | the position loop computes the formatter's result |
| CurrentInline.ProcessInlineMath | src/papermill_markdown/converter.py:427-455 | the `finditer` loop with its flattening computes the math entry point's result |
| CurrentInline.ScanRuns | src/papermill_markdown/converter.py:463-561 | every run the scan emits is a non-empty string or a dictionary, never a math or footnote node |
| CurrentInline.FormatRuns | src/papermill_markdown/converter.py:457-567 | the formatter returns only runs of the inline engine |
| CurrentInline.EmptyFilterKeepsAll | src/papermill_markdown/converter.py:564 | the empty-string filter never removes anything |
| CurrentInline.ScanNonEmpty | src/papermill_markdown/converter.py:465 | from any position before the end, the scan emits a run |
| CurrentInline.FormatNonEmpty | src/papermill_markdown/converter.py:457-567 | non-empty text never formats to the empty list |
| CurrentInline.DecorationAddsFlags | src/papermill_markdown/converter.py:496-548 | the runs of a decorated span open the scan at that point, each with the decoration's flags and its own |
| CurrentInline.NoHitAtInert | src/papermill_markdown/converter.py:465-498 | nothing matches at a character that opens no pattern |
| CurrentInline.BoundaryAtEnd | src/papermill_markdown/converter.py:554-561 | text where nothing matches has its boundary at the end |
| CurrentInline.PlainScan | src/papermill_markdown/converter.py:553-561 | text without markup characters scans to one plain run |
| CurrentInline.PlainTextIsOneRun | src/papermill_markdown/converter.py:427-455 | text without markup characters is one plain run from both entry points |
| CurrentInline.NoMathIsFormat | src/papermill_markdown/converter.py:434-455 | without inline math, the math entry point returns what the formatter returns, and the empty string for empty text |
| CurrentInline.ListifyIsIdentity | src/papermill_markdown/converter.py:310-315 | `_maybe_listify` changes nothing the math entry point returns |
| CurrentInline.RefIdEndAfter | src/papermill_markdown/converter.py:52 | the greedy id run stops exactly at the end of a well-formed id |
| CurrentInline.ReferenceMarker | src/papermill_markdown/converter.py:474-491 | `[ref:ID]` alone formats to one reference run to ID |
| CurrentInline.CrossReferenceMarker | src/papermill_markdown/converter.py:474-484 | `[ref:ID label=L]` alone formats to one cross-reference run to ID with label L |
| CurrentInline.LabelledRefAt | src/papermill_markdown/converter.py:52 | the reference pattern reads ID and label L back from `[ref:ID label=L]` and ends at its `]` |
| Footnotes.LastNonNewline | src/papermill_markdown/converter.py:14 | the last character of a range that is not a line break, with only line breaks after it |
| Footnotes.DefinitionAt | src/papermill_markdown/converter.py:14 | a definition starts with `[^`, has a non-empty all-digit id, and ends at a line break or at the end of the text |
| Footnotes.StripDefinitions | src/papermill_markdown/converter.py:397 | cutting the definitions out never makes the text longer |
| Footnotes.DefinitionSearch | src/papermill_markdown/converter.py:397 | the first position where a definition matches; none matches before it, and nothing is found only when none matches |
| Footnotes.StripDefinitionsStep | src/papermill_markdown/converter.py:397 | a character where no definition starts is kept and nothing is recorded |
| Footnotes.StripDefinitionsCopies | src/papermill_markdown/converter.py:397 | a stretch where no definition starts is kept as it is, and records nothing |
| Footnotes.StripDefinitionsUnchanged | src/papermill_markdown/converter.py:397 | text with no definition comes back unchanged, with nothing recorded |
| Footnotes.StripDefinitionsLeftmost | src/papermill_markdown/converter.py:393-397 | each cut is the leftmost definition: the text before it is kept, the definition is dropped and its id and content recorded next, and the removal goes on after its end |
| Footnotes.ToMap | src/papermill_markdown/converter.py:393-394 | the dictionary's keys are exactly the ids defined |
| Footnotes.LastDefinitionWins | src/papermill_markdown/converter.py:394 | an id maps to the content of its last definition |
| Footnotes.ReferenceAt | src/papermill_markdown/converter.py:15 | a reference is `[^` then the all-digit id then `]` |
| Footnotes.CopiedUpTo | src/papermill_markdown/converter.py:398 | up to the first reference the rewritten text is the original; where a reference follows, the rewritten text goes on with the placeholder's leading `_` |
| Footnotes.ReplaceReferencesStep | src/papermill_markdown/converter.py:398 | a character where no reference starts is copied |
| Footnotes.ReplaceReferencesCopies | src/papermill_markdown/converter.py:398 | the text before the next reference is copied unchanged, and replacement goes on from where it ends |
| Footnotes.ReplaceReferencesLeftmost | src/papermill_markdown/converter.py:398 | the text before the leftmost reference is copied, and that reference `[^N]` becomes `__FOOTNOTE__N__` followed by the replacement of the text after it |
| Footnotes.NextReference | src/papermill_markdown/converter.py:398 | the next reference is the first position where one starts, or the end |
| Footnotes.NoReferenceRemains | src/papermill_markdown/converter.py:398 | no `[^N]` reference is left once they have been replaced |
| Footnotes.ProcessFootnotesFacts | src/papermill_markdown/converter.py:390-399 | once the definitions are stripped, the text is copied up to its leftmost `[^N]`, which becomes `__FOOTNOTE__N__`, and replacement goes on after it; the text is unchanged when it holds no reference; no reference is left in the result; text with neither a definition nor a reference comes back unchanged with an empty dictionary |
| Footnotes.MarkerBeforeNext | src/papermill_markdown/converter.py:398 | a marker at the start of the output ends before the first replaced reference |
| Footnotes.MarkerWithinCopy | src/papermill_markdown/converter.py:398 | so that marker's characters are the input's own |
| Normalize.RepairText | src/papermill_markdown/converter.py:76-77 | the replacement loop applies every repair in dictionary order over the whole text |
| Normalize.ApplyRepairsClean | src/papermill_markdown/converter.py:66-77 | text with neither lead character of a garbled form passes through the repairs unchanged |
| Normalize.RepairClean | src/papermill_markdown/converter.py:66-77 | text without a stray `Â` or `â` is left as it is |
| Normalize.RepairsAbsentFrom | src/papermill_markdown/converter.py:76-77 | repairs whose garbled forms do not occur leave the text alone |
| Normalize.SkipAbsent | src/papermill_markdown/converter.py:76-77 | repairs whose garbled forms do not occur can be skipped |
| Normalize.GarbledMissesFirstFive | src/papermill_markdown/converter.py:67-71 | none of the first five garbled forms occurs in the doubly garbled text |
| Normalize.SixthRepairFires | src/papermill_markdown/converter.py:72 | the sixth repair turns the doubly garbled text into a garbled en dash |
| Normalize.LastRepairsSkip | src/papermill_markdown/converter.py:73-74 | the last two repairs leave the garbled en dash alone |
| Normalize.FirstPass | src/papermill_markdown/converter.py:66-77 | one pass of the repairs leaves a garbled en dash |
| Normalize.SecondPass | src/papermill_markdown/converter.py:66-77 | a second pass turns it into an en dash, so the repairs are not idempotent |
| CurrentBlocks.RefSearch | src/papermill_markdown/converter.py:200 | `REF_PATTERN.search` finds the first position where a marker matches; none matches before it, and nothing is found only when none matches |
| CurrentBlocks.RemoveRefs | src/papermill_markdown/converter.py:204 | removing the markers never makes the text longer |
| CurrentBlocks.RemoveRefsStep | src/papermill_markdown/converter.py:204 | a character where no marker starts is kept |
| CurrentBlocks.RemoveRefsCopies | src/papermill_markdown/converter.py:204 | a stretch where no marker starts is kept as it is |
| CurrentBlocks.RemoveRefsUnchanged | src/papermill_markdown/converter.py:204 | text with no marker comes back unchanged |
| CurrentBlocks.RemoveRefsLeftmost | src/papermill_markdown/converter.py:204 | each cut is the leftmost marker: the text before it is kept, the marker dropped, and the removal goes on after its end |
| CurrentBlocks.ReformedMarker | src/papermill_markdown/converter.py:204 | the pieces left around a cut marker can form a new marker, which stays in the heading text |
| CurrentBlocks.HeadingBlock | src/papermill_markdown/converter.py:191-214 | a heading exactly for a `#` line, otherwise `{}`; the level is the number of `#` capped at five; the numbering is the converter's; without a marker the text is the rest of the line and holds no marker; with one, the ref is the first marker's id and the text is the rest of the line with every marker removed, stripped |
| CurrentBlocks.ItemText | src/papermill_markdown/converter.py:227-234 | an item text exists exactly when the line carries a marker of the list's style |
| CurrentBlocks.ListItem | src/papermill_markdown/converter.py:235-236 | a list item is never empty |
| CurrentBlocks.ListEnd | src/papermill_markdown/converter.py:223-239 | every line before the list's end is an item of its style, and the line at the end is not |
| CurrentBlocks.ItemTexts | src/papermill_markdown/converter.py:223-237 | one text per item line |
| CurrentBlocks.FirstLineIsItem | src/papermill_markdown/converter.py:219-232 | the first line of a list is an item of the style it chooses |
| CurrentBlocks.ListAt | src/papermill_markdown/converter.py:216-246 | the style is numbered exactly when the first line starts with a digit; the list ends at the first line that is not an item of that style, with one item per line; a marker line is always consumed |
| CurrentBlocks.ProcessList | src/papermill_markdown/converter.py:216-246 | the item loop builds the list and the index `ListAt` defines |
| CurrentBlocks.MimeType | src/papermill_markdown/converter.py:293-301 | the type is the dictionary's entry for the extension (PNG, JPEG, GIF, BMP, WebP), and `image/png` for any other extension |
| CurrentBlocks.ImageUrl | src/papermill_markdown/converter.py:286-308 | remote and inline URLs pass through; a local URL fails exactly when its unquoted path is not a file; a read file becomes an `image/` data URL |
| CurrentBlocks.ImageTarget | src/papermill_markdown/converter.py:248-266 | without both image parts there is no URL; otherwise the URL is the resolved target URL, and the call fails exactly when the resolution fails |
| CurrentBlocks.ImageBlock | src/papermill_markdown/converter.py:248-284 | an image line without both parts is a bare image; the block fails exactly when the URL does, with its error; otherwise its URL is the resolved target URL and its attributes are `ImageAttributes` of the parsed line |
| CurrentBlocks.ProcessImage | src/papermill_markdown/converter.py:248-284 | the image builder with its attribute loop computes `ImageBlock` |
| CurrentBlocks.TableEnd | src/papermill_markdown/converter.py:333-339 | every line before the body's end starts with a bar, and the line at the end does not |
| CurrentBlocks.Rows | src/papermill_markdown/converter.py:332-339 | one row per body line, in order, each that line's cells |
| CurrentBlocks.BodyStart | src/papermill_markdown/converter.py:325-329 | the body starts after the header, and after a separator row when there is one |
| CurrentBlocks.TrailingCaption | src/papermill_markdown/converter.py:342-343 | the second caption search never moves the index back or past the end |
| CurrentBlocks.TableFrom | src/papermill_markdown/converter.py:322-365 | a table from its header line is always built and consumes the header |
| CurrentBlocks.TableContents | src/papermill_markdown/converter.py:322-364 | the header is the header line's cells, formatted; the body has one row per line up to the first line not starting with a bar, each that line's cells, formatted; the caption is "" exactly when none (or an empty one) was found, and the index is where the caption search left it |
| CurrentBlocks.TableAt | src/papermill_markdown/converter.py:317-365 | no table exactly when the caption search leaves the index at the end or off a bar line, and then the index is where the search left it; otherwise the table is the one built from the line the search found; a line starting with a bar is always consumed |
| CurrentBlocks.TableNext | src/papermill_markdown/converter.py:317-365 | the index after a table never moves back, and a line starting with a bar is always consumed |
| CurrentBlocks.TableNextIsTableAt | src/papermill_markdown/converter.py:317-365 | the index `_process_table` returns does not depend on building the cells |
| CurrentBlocks.ReadRows | src/papermill_markdown/converter.py:332-339 | the body loop stops at `TableEnd` and collects the rows `Rows` defines |
| CurrentBlocks.ProcessRow | src/papermill_markdown/converter.py:352-355 | the cell loop converts each cell in order |
| CurrentBlocks.ProcessRows | src/papermill_markdown/converter.py:350-356 | the row loop converts each row in order |
| CurrentBlocks.ProcessTableFrom | src/papermill_markdown/converter.py:322-365 | the builder from the header line computes `TableFrom` |
| CurrentBlocks.ProcessTable | src/papermill_markdown/converter.py:317-365 | `_process_table` computes `TableAt`: the table or nothing, and the next index |
| CurrentBlocks.FootnoteRuns | src/papermill_markdown/converter.py:408-417 | a part holding `__` yields a footnote node first |
| CurrentBlocks.ParagraphBlock | src/papermill_markdown/converter.py:401-425 | a paragraph is always built, and it has content whenever the text is non-empty |
| CurrentBlocks.ProcessPart | src/papermill_markdown/converter.py:407-423 | the loop body for one part computes that part's runs |
| CurrentBlocks.ProcessParts | src/papermill_markdown/converter.py:405-423 | the part loop concatenates the parts' runs in order |
| CurrentBlocks.ProcessParagraph | src/papermill_markdown/converter.py:401-425 | `_process_paragraph` computes `ParagraphBlock` |
| CurrentBlocks.FlatRuns | src/papermill_markdown/converter.py:443-449 | a flattened result holds only runs of the inline engine |
| CurrentBlocks.FlatOfItems | src/papermill_markdown/converter.py:443-449 | flattening keeps a result's runs or drops its empty string |
| CurrentBlocks.SegmentsRuns | src/papermill_markdown/converter.py:432-449 | inline-math text yields equations and engine runs, never footnotes |
| CurrentBlocks.TextRunsHaveNoFootnote | src/papermill_markdown/converter.py:419-423 | a plain text part yields no footnote node |
| CurrentBlocks.PlaceholderHasUnderscores | src/papermill_markdown/converter.py:405-408 | text holding a footnote placeholder holds `__` |
| CurrentBlocks.NoUnderscoresNoFootnote | src/papermill_markdown/converter.py:401-425 | a paragraph whose text has no `__` has no footnote node |
| CurrentBlocks.FootnotePart | src/papermill_markdown/converter.py:408-411 | a part `id__rest` yields first the footnote of `id`: its definition, or "" when undefined |
| CurrentBlocks.UnderlineTakenForFootnote | src/papermill_markdown/converter.py:405-411 | "a __b__ c", which has no placeholder, still starts with an empty footnote node |
| CurrentConverter.LabelIgnoresTrailing | src/papermill_markdown/converter.py:16-17 | trailing whitespace does not change whether a caption label matches |
| CurrentConverter.DigitIgnoresTrailing | src/papermill_markdown/converter.py:16-17 | trailing whitespace does not change whether `\s*\d` matches after the label |
| CurrentConverter.CaptionIgnoresTrailing | src/papermill_markdown/converter.py:16-17 | trailing whitespace does not change the table-or-figure caption test |
| CurrentConverter.CaptionLikeIsStripped | src/papermill_markdown/converter.py:88 | the pre-pass test made at the first non-blank character is the caption test on the stripped line |
| CurrentConverter.FenceEnd | src/papermill_markdown/converter.py:103-105 | the closing line is the first line from the start that closes the fence, or the end |
| CurrentConverter.EquationOf | src/papermill_markdown/converter.py:107-109 | a display-math body gives at most one equation, and never an empty one |
| CurrentConverter.FenceAt | src/papermill_markdown/converter.py:101-106 | the loop resumes after the closing line, which may be one past the last line |
| CurrentConverter.FenceStepAt | src/papermill_markdown/converter.py:97-126 | a fence pass never raises, empties the buffer, resets the blank count and moves forward |
| CurrentConverter.BlockStepAt | src/papermill_markdown/converter.py:147-183 | a pass on a block or text line moves forward and resets the blank count |
| CurrentConverter.StepAt | src/papermill_markdown/converter.py:93-183 | every pass that continues moves the loop forward |
| CurrentConverter.RunFits | src/papermill_markdown/converter.py:93-187 | every piece the loop hands over is one its builder accepts: a list or table start inside the text, an image whose file exists, a paragraph whose first line is not empty |
| CurrentConverter.StepFits | src/papermill_markdown/converter.py:93-183 | one pass hands over fitting pieces and keeps the buffer's first line non-empty |
| CurrentConverter.BlockFits | src/papermill_markdown/converter.py:147-183 | a block pass hands over fitting pieces |
| CurrentConverter.FlushFits | src/papermill_markdown/converter.py:98-100 | a flushed buffer is a fitting paragraph |
| CurrentConverter.CaptionLines | src/papermill_markdown/converter.py:87-89 | the pre-pass collects exactly the indices of caption-like lines |
| CurrentConverter.FindFenceEnd | src/papermill_markdown/converter.py:103-105 | the inner fence loop stops at `FenceEnd` |
| CurrentConverter.FlushBuffer | src/papermill_markdown/converter.py:98-100 | the flush appends the blocks of the buffered paragraph, if any |
| CurrentConverter.ReadFence | src/papermill_markdown/converter.py:101-106 | the fence loop reads the body and the resume index `FenceAt` defines |
| CurrentConverter.FenceBlock | src/papermill_markdown/converter.py:107-124 | the blocks of a fence body are those `Build` gives it: an equation unless the body is blank, or a code block |
| CurrentConverter.BuildHeading | src/papermill_markdown/converter.py:148-154 | a heading line is built by `_process_heading` into one block |
| CurrentConverter.BuildList | src/papermill_markdown/converter.py:157-162 | a list start is built by `_process_list` into its list block |
| CurrentConverter.BuildImage | src/papermill_markdown/converter.py:165-171 | an image line that resolves is built into its image block |
| CurrentConverter.BuildTable | src/papermill_markdown/converter.py:174-179 | a table start is built into the table `_process_table` finds, or nothing |
| CurrentConverter.FenceStep | src/papermill_markdown/converter.py:97-126 | a fence pass does what `FenceStepAt` says and appends its blocks |
| CurrentConverter.StartBlock | src/papermill_markdown/converter.py:147-179 | a heading, list, image or table pass does what `BlockStepAt` says and appends its blocks |
| CurrentConverter.BlockStep | src/papermill_markdown/converter.py:147-183 | a pass on a non-blank line does what `BlockStepAt` says and appends its blocks |
| CurrentConverter.BlankStepMethod | src/papermill_markdown/converter.py:134-143 | a blank line flushes, counts, and on the third in a row adds a page break and resets the count |
| CurrentConverter.Step | src/papermill_markdown/converter.py:93-183 | one pass of the loop does what `StepAt` says and appends its blocks |
| CurrentConverter.RunAtEnd | src/papermill_markdown/converter.py:186-187 | past the last line, the loop only flushes the buffer |
| CurrentConverter.RunRaises | src/papermill_markdown/converter.py:165-171 | a pass that raises ends the conversion with its error |
| CurrentConverter.RunStep | src/papermill_markdown/converter.py:93-183 | the loop is one pass followed by the loop from where the pass leaves it |
| CurrentConverter.ConvertLines | src/papermill_markdown/converter.py:82-189 | the main loop with its final flush computes `Converted`: the blocks of the loop's pieces, or the error |
| CurrentConverter.ParagraphProduced | src/papermill_markdown/converter.py:401-425 | a buffered paragraph has content |
| CurrentConverter.ListProduced | src/papermill_markdown/converter.py:216-246 | a list started on a marker line has at least one item |
| CurrentConverter.ImageProduced | src/papermill_markdown/converter.py:248-284 | an image whose target resolves is built |
| CurrentConverter.TableProduced | src/papermill_markdown/converter.py:317-365 | `_process_table` appends only tables |
| CurrentConverter.BuildProduced | src/papermill_markdown/converter.py:93-187 | each builder, given a fitting piece, produces well-shaped blocks |
| CurrentConverter.BuildAllProduced | src/papermill_markdown/converter.py:93-187 | fitting pieces build only well-shaped blocks |
| CurrentConverter.ConvertedProduced | src/papermill_markdown/converter.py:63-189 | every block of a successful conversion is well shaped: never `{}`; a heading of level one to five with the converter's numbering; a list with items; a paragraph with content; a non-empty equation |
| CurrentConverter.StepRaises | src/papermill_markdown/converter.py:165-171 | a pass raises only on an image line whose file is missing, with that image's error |
| CurrentConverter.RunFailure | src/papermill_markdown/converter.py:93-189 | a failed conversion has met an image line whose file is missing, and reports that image's error |
| CurrentConverter.BlankIsNoCaption | src/papermill_markdown/converter.py:88 | a blank line is never skipped as a caption |
| CurrentConverter.PageBreaks | src/papermill_markdown/converter.py:140 | n page breaks in a row |
| CurrentConverter.BlankStep | src/papermill_markdown/converter.py:134-143 | a blank line flushes the buffer, adds a break when the count reaches three, and carries the count modulo three |
| CurrentConverter.BlankLineRun | src/papermill_markdown/converter.py:134-143 | one blank line flushes, adds a break on the third in a row, and the loop goes on from the next line with an empty buffer |
| CurrentConverter.BlankLines | src/papermill_markdown/converter.py:134-143 | a run of n blank lines after ec others flushes once and adds (ec+n)/3 page breaks, carrying the count on |
| CurrentConverter.TextLinesBuffer | src/papermill_markdown/converter.py:182-183 | text lines go, stripped, into the buffer, and the blank count is reset |
| CurrentConverter.TextLinesParagraph | src/papermill_markdown/converter.py:134-137 | text lines up to a blank line make one paragraph of the stripped lines |
| CurrentConverter.TextLinesAtEnd | src/papermill_markdown/converter.py:186-187 | text lines up to the end make one closing paragraph |
| CurrentConverter.Converter.constructor | src/papermill_markdown/converter.py:59-61 | a new converter has no footnotes and keeps the numbering flag |
| CurrentConverter.Converter.Convert | src/papermill_markdown/converter.py:63-189 | `convert` returns the document's blocks or the error, stores the footnotes of the normalised text, and keeps the numbering flag |
| LegacyReferences.Hashes | src/papermill_converter.py:16 | the leading `#` run is greedy |
| LegacyReferences.TitleStartsWithLetter | src/papermill_converter.py:16-17 | a section title starts with a letter, never with `#` or whitespace |
| LegacyReferences.StartsWithLetter | src/papermill_converter.py:16-17 | a title word matched case-insensitively starts with a letter, never `#` or whitespace |
| LegacyReferences.BareTitleIsHashed | src/papermill_converter.py:498-499 | the second section pattern adds nothing: a line is a references heading exactly when the first pattern accepts it |
| LegacyReferences.ReferenceHeadingShape | src/papermill_converter.py:16 | a references heading has at most six `#` followed by a title |
| LegacyReferences.NameEnd | src/papermill_converter.py:21-23 | the author run is greedy over letters, whitespace, `,`, `.` and `-` |
| LegacyReferences.NameRunIsGreedy | src/papermill_converter.py:21-23 | any maximal author run is the greedy one |
| LegacyReferences.YearEndsName | src/papermill_converter.py:21-23 | a year digit or a bracket ends an author run |
| LegacyReferences.ParenthesisedCitationMeansSplit | src/papermill_converter.py:21 | the greedy reading of `(Author, 2020)` is equivalent to the regex's backtracking reading |
| LegacyReferences.AuthorYearMeansSplit | src/papermill_converter.py:22 | the greedy reading of `Author (2020)` is equivalent to the backtracking reading |
| LegacyReferences.BracketedCitationMeansSplit | src/papermill_converter.py:23 | the greedy reading of `[Author et al., 2020]` is equivalent to the backtracking reading |
| LegacyReferences.ReferenceLineNotHeading | src/papermill_converter.py:125-127 | a reference line never starts with `#`, so a references list is never cut short by one of its entries |
| LegacyReferences.ReferenceLabel | src/papermill_converter.py:490-496 | `fig-` ids are figures, `tbl-` ids tables, and all others sections |
| LegacyInline.LegacyPatternsWellFormed | src/papermill_converter.py:28-38 | every entry of the older table opens with a markup character |
| LegacyInline.Search | src/papermill_converter.py:455 | `search` finds the first position from `q` where the entry matches; none matches before it, and nothing is found only when none matches |
| LegacyInline.SearchStartsAt | src/papermill_converter.py:455-456 | a search from the position starts there exactly when the entry matches there |
| LegacyInline.HitAt | src/papermill_converter.py:452-475 | the match taken at a position is a decoration or a link starting on a markup character; nothing is taken only when no entry matches there |
| LegacyInline.NextIn | src/papermill_converter.py:478-483 | the nearest position where some entry matches, with none before it |
| LegacyInline.NextStart | src/papermill_converter.py:478-483 | a plain run ends where the next match starts, or at the end |
| LegacyInline.Token | src/papermill_converter.py:457-472 | a match becomes one run carrying its text and flags and no URL |
| LegacyInline.MinStart | src/papermill_converter.py:483 | the minimum never exceeds the text length |
| LegacyInline.Smaller | src/papermill_converter.py:483 | the minimum of two is one of them and at most both |
| LegacyInline.MinStartAtLeast | src/papermill_converter.py:483 | a bound below every found start is a bound below the minimum |
| LegacyInline.MinStartAtMost | src/papermill_converter.py:483 | the minimum is at most every found start |
| LegacyInline.SearchFindsFirst | src/papermill_converter.py:455 | the search finds the first position where the entry matches |
| LegacyInline.EarliestIsNext | src/papermill_converter.py:478-483 | the minimum over all searches is the nearest position where some entry matches |
| LegacyInline.ScanPlainStep | src/papermill_converter.py:476-485 | where nothing matches, the text up to the next match is one plain run |
| LegacyInline.ScanMatchStep | src/papermill_converter.py:454-475 | a match at the position is one run, and the scan resumes after it |
| LegacyInline.SegmentsStep | src/papermill_converter.py:416-424 | the text before an inline-math match is formatted and flattened, then the stripped math node follows |
| LegacyInline.SegmentsRest | src/papermill_converter.py:427-429 | after the last match, the rest of the text is formatted and flattened |
| LegacyInline.MatchAt | src/papermill_converter.py:452-475 | the dictionary loop takes the first entry whose search starts at the position |
| LegacyInline.MatchHere | src/papermill_converter.py:455-456 | a search is kept exactly when it starts at the position |
| LegacyInline.EarliestSearch | src/papermill_converter.py:478-483 | the boundary loop computes the minimum over every entry's search |
| LegacyInline.NextPosition | src/papermill_converter.py:478-483 | that minimum is the nearest position where something matches |
| LegacyInline.ProcessInlineFormatting | src/papermill_converter.py:441-488 | the position loop and its filter compute the older formatter's result |
| LegacyInline.ProcessInlineMathAndFormatting | src/papermill_converter.py:410-439 | the `finditer` loop computes the older math entry point's result |
| LegacyInline.ScanRuns | src/papermill_converter.py:448-485 | every run is a non-empty string or a dictionary without a URL |
| LegacyInline.FilterKeepsAll | src/papermill_converter.py:487 | the empty-string filter never removes anything |
| LegacyInline.FormatNonEmpty | src/papermill_converter.py:441-488 | non-empty text never formats to the empty string |
| LegacyInline.SegmentsRuns | src/papermill_converter.py:413-437 | every flattened segment is a formatter run or a math node with stripped text |
| LegacyInline.InlineTextEmpty | src/papermill_converter.py:410-439 | the math entry point returns the empty string exactly for the empty text |
| LegacyInline.NoMathIsFormat | src/papermill_converter.py:410-439 | without inline math, the math entry point returns what the formatter returns |
| LegacyInline.NoHitAtInert | src/papermill_converter.py:452-456 | nothing matches at a character that opens no entry |
| LegacyInline.PlainTextIsOneRun | src/papermill_converter.py:410-488 | text without markup characters is one plain run, the same in both converters |
| LegacyBlocks.LegacyHeading | src/papermill_converter.py:189-200 | a heading exactly for a `#` line, otherwise `{}`; the level is the number of `#` capped at five; the text is stripped; no ref |
| LegacyBlocks.HeadingRoundTrip | src/papermill_converter.py:189-200 | `n` hashes, a space and a stripped one-line text read back as that text at level min(n, 5) |
| LegacyBlocks.BareTitleHeading | src/papermill_converter.py:116 | a bare references title is read as a level-two heading holding the title |
| LegacyBlocks.LegacyItem | src/papermill_converter.py:220-224 | an item is never empty; an empty text is the item `[""]` |
| LegacyBlocks.LegacyListAt | src/papermill_converter.py:202-234 | the first line chooses the style; every line up to the end is an item of that style, read in order; the line at the end is not |
| LegacyBlocks.ListLinesAgree | src/papermill_converter.py:202-234 | both converters cut the same lines into a list of the same style |
| LegacyBlocks.ListConsumesFirstLine | src/papermill_converter.py:202-234 | a marker line is always consumed by its list |
| LegacyBlocks.ProcessList | src/papermill_converter.py:202-234 | the item loop computes `LegacyListAt` |
| LegacyBlocks.LegacyTableFrom | src/papermill_converter.py:267-296 | a table from its header line is built with raw cells and consumes the header |
| LegacyBlocks.LegacyTableContents | src/papermill_converter.py:267-296 | the raw header is the header line's cells; the raw body has one row per line up to the first line not starting with a bar, each that line's cells; the caption is "" exactly when none (or an empty one) was found, and the index is where the caption search left it |
| LegacyBlocks.LegacyTableAt | src/papermill_converter.py:261-296 | no table exactly when the caption search leaves the index at the end or off a bar line, and then the index is where the search left it; otherwise the raw table is the one built from the line the search found |
| LegacyBlocks.TableAgrees | src/papermill_converter.py:261-296 | both converters find the same table over the same lines and resume at the same index; the current one formats the cells the older one keeps |
| LegacyBlocks.TableConsumesFirstLine | src/papermill_converter.py:261-296 | a line starting with a bar is always consumed |
| LegacyBlocks.MatchesCaptionPrefix | src/papermill_converter.py:248-249 | the four prefixes tried case-insensitively are the table-caption test |
| LegacyBlocks.AboveIsFirst | src/papermill_converter.py:246-250 | the window above is the two lines before the start, top first |
| LegacyBlocks.BelowIsFirst | src/papermill_converter.py:253-257 | the window below is the two lines after the start that exist, nearest first |
| LegacyBlocks.IsCaptionLine | src/papermill_converter.py:247-249 | one step tests whether the stripped line starts a table caption |
| LegacyBlocks.ScanCaptionLines | src/papermill_converter.py:246-257 | one index loop finds the first caption line of its window |
| LegacyBlocks.FindCaptionWindows | src/papermill_converter.py:244-259 | the result of the two window scans is `FindCaption`'s |
| LegacyBlocks.FindCaptionLines | src/papermill_converter.py:244-259 | `_find_caption` computes `FindCaption` |
| LegacyBlocks.ProcessTableFrom | src/papermill_converter.py:267-296 | the builder from the header line computes `LegacyTableFrom` |
| LegacyBlocks.ProcessTable | src/papermill_converter.py:261-296 | `_process_table` computes `LegacyTableAt` |
| LegacyBlocks.LegacyMime | src/papermill_converter.py:350-358 | the type is the older chain's entry for the extension (PNG, JPEG, GIF), and `image/png` for any other; it agrees with the current converter except for BMP and WebP |
| LegacyBlocks.LegacyImageUrl | src/papermill_converter.py:344-366 | remote and inline URLs pass through; a missing file keeps its URL; a file is inlined with its MIME type |
| LegacyBlocks.ImageUrlAgrees | src/papermill_converter.py:344-366 | where the current converter raises, the older one keeps the URL; otherwise both give the same URL, BMP and WebP aside |
| LegacyBlocks.LegacyImageBlock | src/papermill_converter.py:298-342 | without both parts a bare image; otherwise the resolved URL, the caption of `ImageAttributes` as a one-element list, and its ref, width and full width |
| LegacyBlocks.ImageAgrees | src/papermill_converter.py:298-342 | where the current converter builds an image, the older one carries the same caption, ref, width and fullWidth |
| LegacyBlocks.ProcessImage | src/papermill_converter.py:298-342 | the image builder computes `LegacyImageBlock` |
| LegacyBlocks.LegacyPartRuns | src/papermill_converter.py:385-406 | a part fails only with the unpacking error, and only as a cross reference or a hyperlink; a part without `__` is its inline text |
| LegacyBlocks.LegacyParagraph | src/papermill_converter.py:378-408 | the empty text is an empty paragraph; a built paragraph of non-empty text has content |
| LegacyBlocks.ProcessPart | src/papermill_converter.py:386-406 | the loop body computes one part's runs or its error |
| LegacyBlocks.ProcessParts | src/papermill_converter.py:385-406 | the part loop stops at the first part that raises |
| LegacyBlocks.ProcessParagraph | src/papermill_converter.py:378-408 | `_process_paragraph` computes `LegacyParagraph` |
| LegacyBlocks.GatherFails | src/papermill_converter.py:385-406 | the loop fails exactly when some part fails, with the error of the first one |
| LegacyBlocks.CrossReferenceRaises | src/papermill_converter.py:388-390 | every cross-reference placeholder fails to unpack |
| LegacyBlocks.InlineMathIsEmpty | src/papermill_converter.py:394-396 | every inline-math placeholder yields an empty math node |
| LegacyBlocks.HyperlinkRest | src/papermill_converter.py:391-393 | a hyperlink placeholder splits once on `__URL__`, or fails to unpack |
| LegacyBlocks.HyperlinkPart | src/papermill_converter.py:391-393 | `HYPERLINK__text__URL__url` is a run with that text and URL |
| LegacyBlocks.FootnoteDropsRest | src/papermill_converter.py:397-398 | a footnote placeholder yields only the footnote; the rest of its part is lost |
| LegacyBlocks.PartRaises | src/papermill_converter.py:386-398 | a part raises exactly when it is a cross reference, or a hyperlink without `__URL__` |
| LegacyBlocks.PartsRaise | src/papermill_converter.py:385-406 | the parts fail exactly when one raises, always with the unpacking error |
| LegacyBlocks.ParagraphRaises | src/papermill_converter.py:378-408 | a paragraph raises exactly when one of its parts raises, with the unpacking error |
| LegacyBlocks.NoUnderscoresIsInlineText | src/papermill_converter.py:399-406 | a paragraph without `__` never raises and is its text's inline formatting |
| LegacyConverter.BlankEnd | src/papermill_converter.py:120-121 | the blank lines after a references heading are skipped up to the first non-blank one |
| LegacyConverter.EntriesEnd | src/papermill_converter.py:123-126 | the references list ends at a blank or `#` line, or at the end of the lines |
| LegacyConverter.EntriesEndFirst | src/papermill_converter.py:123-126 | no line before that end is blank or starts with `#`, so the end is the first such line |
| LegacyConverter.ReferenceEntry | src/papermill_converter.py:127-131 | a line gives an entry exactly when it is a reference line, and the entry is a paragraph of the stripped line |
| LegacyConverter.Entries | src/papermill_converter.py:123-132 | the entries of a range of lines, in order |
| LegacyConverter.EntriesFromPickedLines | src/papermill_converter.py:123-132 | every entry comes from a line of the range |
| LegacyConverter.PickedLinesHaveEntries | src/papermill_converter.py:123-132 | every entry a line gives is kept, after those of the lines before it |
| LegacyConverter.ReferencesAt | src/papermill_converter.py:112-133 | a references pass flushes, empties the buffer and moves forward |
| LegacyConverter.MathOf | src/papermill_converter.py:100-103 | a math body gives at most one math block, never an empty one |
| LegacyConverter.MathStepAt | src/papermill_converter.py:89-104 | a `$$` pass flushes, empties the buffer and moves forward, at most one past the last line |
| LegacyConverter.StartedBlocks | src/papermill_converter.py:144-177 | a block builder appends only well-shaped blocks |
| LegacyConverter.StartedNext | src/papermill_converter.py:144-177 | a block builder always moves past its line |
| LegacyConverter.BlockStepAt | src/papermill_converter.py:144-181 | a pass on a block or text line moves forward |
| LegacyConverter.StepAt | src/papermill_converter.py:85-181 | every pass moves forward; a pass that flushes empties the buffer; one that does not appends nothing and keeps the buffer or adds the stripped line |
| LegacyConverter.RunAtEnd | src/papermill_converter.py:184-185 | past the last line, the loop only flushes |
| LegacyConverter.FinalFlush | src/papermill_converter.py:184-187 | the conversion is the blocks so far followed by the final flush |
| LegacyConverter.PassKeepsInvariant | src/papermill_converter.py:85-181 | after each pass the blocks so far are those of the pieces so far, or the conversion has failed with the flush's error |
| LegacyConverter.RunStep | src/papermill_converter.py:85-181 | the loop is one pass followed by the loop from where it leaves off |
| LegacyConverter.ParagraphOf | src/papermill_converter.py:378-408 | a built buffer is one paragraph |
| LegacyConverter.FlushBuffer | src/papermill_converter.py:91-93 | the flush builds the buffered paragraph, or its error |
| LegacyConverter.SkipBlankLines | src/papermill_converter.py:120-121 | the skip loop stops at `BlankEnd` |
| LegacyConverter.ReadReferences | src/papermill_converter.py:123-132 | the entry loop stops at `EntriesEnd` and keeps the entries `Entries` defines |
| LegacyConverter.ReferencesStep | src/papermill_converter.py:112-133 | a references pass computes `ReferencesAt` |
| LegacyConverter.MathStep | src/papermill_converter.py:89-104 | a `$$` pass computes `MathStepAt` |
| LegacyConverter.StartBlock | src/papermill_converter.py:144-177 | a block pass appends `StartedBlocks` and resumes at `StartedNext` |
| LegacyConverter.Step | src/papermill_converter.py:85-181 | one pass does what `StepAt` says |
| LegacyConverter.ConvertLines | src/papermill_converter.py:73-187 | the main loop with its final flush computes `Converted` |
| LegacyConverter.ReferenceHeadingProduced | src/papermill_converter.py:116 | a references heading is never `{}` |
| LegacyConverter.ReferencesProduced | src/papermill_converter.py:112-133 | a references pass appends a heading and one-line paragraphs |
| LegacyConverter.StepProduced | src/papermill_converter.py:85-181 | every block a pass appends is well shaped |
| LegacyConverter.StepFits | src/papermill_converter.py:85-181 | a pass appends fitting pieces and keeps the buffer's first line non-blank |
| LegacyConverter.RunFits | src/papermill_converter.py:85-187 | every piece the loop appends fits |
| LegacyConverter.BuildProduced | src/papermill_converter.py:184-187 | a fitting piece builds well-shaped blocks |
| LegacyConverter.BuildAllProduced | src/papermill_converter.py:184-187 | fitting pieces build well-shaped blocks |
| LegacyConverter.ConvertedProduced | src/papermill_converter.py:54-187 | every block of a successful conversion is well shaped; `{}` never reaches the result |
| LegacyConverter.BuildFails | src/papermill_converter.py:378-408 | only a paragraph fails to build, exactly when one of its parts raises, with the unpacking error |
| LegacyConverter.BuildAllFails | src/papermill_converter.py:54-187 | fitting pieces fail exactly when one is a raising paragraph |
| LegacyConverter.ConvertedFails | src/papermill_converter.py:54-187 | the conversion fails exactly when a paragraph it appends holds a cross reference or a hyperlink without `__URL__`, always with the unpacking error |
| LegacyConverter.Converter.constructor | src/papermill_converter.py:50-52 | a new converter has no footnotes and keeps the numbering flag |
| LegacyConverter.Converter.Convert | src/papermill_converter.py:54-187 | `convert` returns the document's blocks or the error, stores the footnotes, and keeps the numbering flag |
| Linter.CaptionNotRow | src/papermill_markdown/linter.py:17 | a table caption is neither a table line nor a blank line |
| Linter.MarkdownConsistent | src/papermill_markdown/linter.py:52-86 | the linter's line classes are consistent: a table line is not blank, and a caption is neither a table line nor blank |
| Linter.TableEnd | src/papermill_markdown/linter.py:61-63 | the table run ends at the end or at a line that is not a table line |
| Linter.TableEndIs | src/papermill_markdown/linter.py:61-63 | the run ends at `t` exactly when every line before `t` is a table line and line `t` is not |
| Linter.NonBlankFrom | src/papermill_markdown/linter.py:67-68 | the skip ends at the end or at a non-blank line |
| Linter.NonBlankFromIs | src/papermill_markdown/linter.py:67-68 | the skip ends at `e` exactly when every line before `e` is blank and line `e` is not |
| Linter.CaptionAfter | src/papermill_markdown/linter.py:65-69 | a caption found after the table is a caption line at or after the table's end |
| Linter.ChunkAt | src/papermill_markdown/linter.py:53-86 | one pass of the loop always moves forward |
| Linter.FixedStep | src/papermill_markdown/linter.py:52-86 | the fixed lines and issues are those of one pass followed by those of the rest |
| Linter.TableRun | src/papermill_markdown/linter.py:59-63 | the collection loop stops at `TableEnd` and collects exactly those lines |
| Linter.SkipBlank | src/papermill_markdown/linter.py:65-68 | the skip loop stops at `NonBlankFrom` |
| Linter.NextChunk | src/papermill_markdown/linter.py:53-86 | one pass emits, resolves and resumes as `ChunkAt` says |
| Linter.MoveCaptions | src/papermill_markdown/linter.py:48-86 | the outer loop computes the fixed lines and resolved issues `Fixed` defines |
| Linter.Dollars | src/papermill_markdown/linter.py:94 | a line has no more unescaped `$` than characters |
| Linter.MarkdownLinter.constructor | src/papermill_markdown/linter.py:21-28 | a new linter keeps the text, has no issues and no fixed text |
| Linter.MarkdownLinter.Lint | src/papermill_markdown/linter.py:30-98 | the resolved issues grow by the moved captions; the open issues grow by the unbalanced lines of the output; the fixed text is the output joined by `\n`; all three are returned |
| Linter.KeepsMovedCaption | src/papermill_markdown/linter.py:72-77 | moving a caption above its table keeps every line but the blank ones in between |
| Linter.ChunkKeepsLines | src/papermill_markdown/linter.py:53-86 | one pass emits every non-blank line it consumes exactly once and adds none |
| Linter.FixedKeepsLines | src/papermill_markdown/linter.py:52-86 | every non-blank line occurs in the output as often as in the input, and no line occurs more often |
| Linter.FixedUnchangedIff | src/papermill_markdown/linter.py:52-86 | the output equals the input exactly when no caption was moved |
| Linter.BelowTable | src/papermill_markdown/linter.py:65-69 | a caption after a table line and only blank lines is a caption below a table |
| Linter.ChunkMoved | src/papermill_markdown/linter.py:69-77 | a pass resolves at most one issue: its caption, numbered from one and found below a table, emitted first and followed by a table line |
| Linter.MovedAreCaptions | src/papermill_markdown/linter.py:69-71 | every resolved issue names a caption found below a table, in increasing line order |
| Linter.ChunkStopsAtTable | src/papermill_markdown/linter.py:57-82 | a pass never runs over the first line of a later table |
| Linter.RunStart | src/papermill_markdown/linter.py:61-63 | the first line of the table run a table line belongs to |
| Linter.CaptionIsMoved | src/papermill_markdown/linter.py:52-78 | a caption below a table is moved by every scan that reaches the table's first line |
| Linter.CaptionOfRun | src/papermill_markdown/linter.py:57-69 | a caption found below a table is the one the pass from that table's first line finds |
| Linter.ResolvedIssuesExactly | src/papermill_markdown/linter.py:69-71 | an issue for line n is resolved exactly when line n is a caption found below a table; the issues come in line order |
| Linter.CaptionAboveTable | src/papermill_markdown/linter.py:72-75 | each moved caption sits in the output directly above a table line |
| Linter.NoTableNoChange | src/papermill_markdown/linter.py:84-86 | without a table line the output is the input and nothing is resolved |
| Linter.FixedTextSplits | src/papermill_markdown/linter.py:89 | the fixed text splits on `\n` back into the output lines |
| Linter.DollarsCount | src/papermill_markdown/linter.py:94 | the count is the number of positions of unescaped `$`, which is what `findall` returns |
| Linter.UnmatchedExactly | src/papermill_markdown/linter.py:92-96 | an open issue is reported exactly for each output line with an odd number of unescaped `$`, by line number, in order |

## Left out

- Unicode NFC normalisation, `unquote`, the file system and base64 are not
  modelled. They are fields of `Host.Host`, and the converters take a host
  as a parameter.
- The image data URL is built from `Host.base64` of the file's bytes; the
  encoding itself is not modelled.
- `mdformat.text` and `str.splitlines` in the linter are not modelled:
  `Linter.MarkdownLinter.Lint` takes the formatted lines as a function of
  the original text.
- Case-insensitive matching folds ASCII letters only, and `\d` and
  `isdigit` accept ASCII digits only. Python also folds and accepts other
  Unicode letters and digits.
- The numbered flag of a list is the first character's `isdigit`, modelled
  for ASCII digits only.
- Patterns.ListMarkerAt: the numbered case states "starts with a digit and
  holds a dot", weaker than the pattern's digits immediately followed by a
  dot; the function body is the exact pattern.
- LegacyConverter.ReadReferences: the entry loop takes the line test as a
  parameter; the converter passes `ReferenceEntry`.
- Linter.MarkdownLinter.Lint: returns the two issue lists as values.
  Python returns the linter's own `open_issues` and `resolved_issues`
  list objects (`src/papermill_markdown/linter.py:98`), so a caller that
  changes them changes the linter's lists too. That sharing is not
  modelled.
- The `FIGURE_CAPTION_PATTERN` of the linter is declared but never used by
  the code, so it is not modelled.
- The JSON dictionaries are datatypes. Key order and the Python `dict`
  identity of the output are not modelled.
- `src/papermill_markdown/validator.py`, `src/validation_model.py` and
  `main.py` are not part of this model: they validate and write the result,
  and do not convert it.
