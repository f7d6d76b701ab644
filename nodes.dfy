/**
 * The Papermill block tree both converters produce. The source builds it
 * from Python dictionaries, strings and lists; here each dictionary shape is
 * a constructor. An inline run of text is either a bare string or a
 * dictionary; a decoration adds its flags to every run it encloses.
 */
module Nodes {
  import opened Wrappers
  import Patterns

  /** The decoration keys a formatted run can carry, each set to true. */
  datatype Flags = Flags(bold: bool, italic: bool, underline: bool, superscript: bool, subscript: bool)

  const NoFlags := Flags(false, false, false, false, false)
  const Bold := NoFlags.(bold := true)
  const Italic := NoFlags.(italic := true)
  const BoldItalic := NoFlags.(bold := true, italic := true)
  const Underline := NoFlags.(underline := true)
  const Superscript := NoFlags.(superscript := true)
  const Subscript := NoFlags.(subscript := true)

  /** `dict(flag)` updated with a run's own keys: a key set in either is set. */
  function Union(f: Flags, g: Flags): (u: Flags)
    ensures u.bold == (f.bold || g.bold) && u.italic == (f.italic || g.italic)
    ensures u.underline == (f.underline || g.underline)
    ensures u.superscript == (f.superscript || g.superscript) && u.subscript == (f.subscript || g.subscript)
  {
    Flags(f.bold || g.bold, f.italic || g.italic, f.underline || g.underline,
          f.superscript || g.superscript, f.subscript || g.subscript)
  }

  /** `f` sets every key that `g` sets. */
  predicate Covers(f: Flags, g: Flags) {
    (g.bold ==> f.bold) && (g.italic ==> f.italic) && (g.underline ==> f.underline) &&
    (g.superscript ==> f.superscript) && (g.subscript ==> f.subscript)
  }

  datatype Inline =
    | Plain(text: string)                                        // a bare string
    | Styled(flags: Flags, text: string, url: Option<string>)     // {flags..., "text", ["url"]}
    | Equation(flags: Flags, equation: string)                   // {"type": "equation", ...}
    | Math(text: string)                                         // {"type": "math", ...}, older version
    | Reference(flags: Flags, ref: string)                       // {"type": "reference", ...}
    | CrossReference(flags: Flags, ref: string, labelText: string)   // {"type": "crossReference", ...}
    | Footnote(text: string)                                     // {"type": "footnote", ...}

  /**
   * What an inline scan returns: a bare run (`str` or `dict`) or a list of
   * runs. The empty string is `Single(Plain(""))`.
   */
  datatype Formatted = Single(run: Inline) | Several(runs: seq<Inline>)

  datatype Block =
    | Empty                                                        // {}
    | Heading(text: string, level: int, numbered: bool, ref: Option<string>)
    | ListBlock(numberedStyle: bool, items: seq<seq<Inline>>)
    | Image(url: Option<string>, attrs: Patterns.ImageAttrs)
    | LegacyImage(url: Option<string>, captionList: Option<seq<string>>, imageRef: Option<string>,
                  width: Option<string>, fullWidth: bool)
    | Table(header: seq<Formatted>, body: seq<seq<Formatted>>, caption: string)
    | RawTable(rawHeader: seq<string>, rawBody: seq<seq<string>>, caption: string)
    | Paragraph(content: seq<Inline>)
    | EquationBlock(equation: string)
    | MathBlock(text: string)
    | Code(text: string)
    | Break
}
