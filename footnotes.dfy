/**
 * `_process_footnotes`, the same in both converter versions: every footnote
 * definition `[^N]: text` is cut out of the document and recorded (a later
 * definition of an id replaces an earlier one), then every remaining
 * reference `[^N]` becomes the placeholder `__FOOTNOTE__N__` that the
 * paragraph builder later splits on.
 */
module Footnotes {
  import opened Wrappers
  import opened Text

  // ---------------------------------------------------------------------
  // FOOTNOTE_DEF_PATTERN  \[\^(\d+)\]:\s*([^\n]+)

  datatype Definition = Definition(id: string, content: string, end: nat)

  /** Index of the last character in `s[a..b]` that is not '\n'. */
  function LastNonNewline(s: string, a: nat, b: nat): (r: Option<nat>)
    requires a <= b <= |s|
    decreases b - a
    ensures r.Some? ==> a <= r.value < b && s[r.value] != '\n'
    ensures r.Some? ==> forall k :: r.value < k < b ==> s[k] == '\n'
    ensures r.None? ==> forall k :: a <= k < b ==> s[k] == '\n'
  {
    if a == b then None
    else if s[b - 1] != '\n' then Some(b - 1)
    else LastNonNewline(s, a, b - 1)
  }

  /**
   * A definition starting at `p`. The greedy `\s*` may run over line breaks;
   * when it reaches the end of the text the engine gives back whitespace
   * until `[^\n]+` can take one character, which is then the whole (blank)
   * content.
   */
  function DefinitionAt(s: string, p: nat): (r: Option<Definition>)
    ensures r.Some? ==> p < r.value.end <= |s| && IsPrefixAt("[^", s, p)
    ensures r.Some? ==> r.value.id != [] && forall k :: 0 <= k < |r.value.id| ==> IsDigit(r.value.id[k])
    ensures r.Some? ==> r.value.end == |s| || s[r.value.end] == '\n'
  {
    if !IsPrefixAt("[^", s, p) then None
    else
      var d := SkipDigits(s, p + 2);
      if d == p + 2 || !IsPrefixAt("]:", s, d) then None
      else
        var w := SkipSpaces(s, d + 2);
        if w < |s| then
          Some(Definition(s[p + 2..d], Strip(s[w..LineEnd(s, w)]), LineEnd(s, w)))
        else
          match LastNonNewline(s, d + 2, |s|)
          case None => None
          case Some(k) => Some(Definition(s[p + 2..d], Strip(s[k..k + 1]), k + 1))
  }

  /**
   * `FOOTNOTE_DEF_PATTERN.sub(repl, s[p..])`: the text with every definition
   * cut out, and the (id, content) pairs in the order they were found.
   */
  function StripDefinitions(s: string, p: nat): (r: (string, seq<(string, string)>))
    requires p <= |s|
    decreases |s| - p
    ensures |r.0| <= |s| - p
  {
    if p == |s| then ([], [])
    else match DefinitionAt(s, p)
      case Some(d) =>
        var rest := StripDefinitions(s, d.end);
        (rest.0, [(d.id, d.content)] + rest.1)
      case None =>
        var rest := StripDefinitions(s, p + 1);
        ([s[p]] + rest.0, rest.1)
  }

  /** `FOOTNOTE_DEF_PATTERN.search(s, q)`: the first position at or after `q` where a definition matches. */
  function DefinitionSearch(s: string, q: nat): (r: Option<nat>)
    requires q <= |s|
    decreases |s| - q
    ensures r.Some? ==> q <= r.value < |s| && DefinitionAt(s, r.value).Some?
    ensures r.Some? ==> forall j :: q <= j < r.value ==> DefinitionAt(s, j).None?
    ensures r.None? ==> forall j :: q <= j < |s| ==> DefinitionAt(s, j).None?
  {
    if q == |s| then None
    else if DefinitionAt(s, q).Some? then Some(q)
    else DefinitionSearch(s, q + 1)
  }

  /** Where no definition starts, the character is kept and nothing is recorded. */
  lemma StripDefinitionsStep(s: string, p: nat)
    requires p < |s| && DefinitionAt(s, p).None?
    ensures StripDefinitions(s, p).0 == [s[p]] + StripDefinitions(s, p + 1).0
    ensures StripDefinitions(s, p).1 == StripDefinitions(s, p + 1).1
  {
  }

  /** The text between `p` and `q`, where no definition starts, is kept as it is. */
  lemma {:induction false} StripDefinitionsCopies(s: string, p: nat, q: nat)
    requires p <= q <= |s|
    requires DefinitionSearch(s, p).None? || q <= DefinitionSearch(s, p).value
    ensures StripDefinitions(s, p).0 == s[p..q] + StripDefinitions(s, q).0
    ensures StripDefinitions(s, p).1 == StripDefinitions(s, q).1
    decreases q - p
  {
    if p < q {
      assert DefinitionAt(s, p).None? && DefinitionSearch(s, p) == DefinitionSearch(s, p + 1);
      StripDefinitionsStep(s, p);
      StripDefinitionsCopies(s, p + 1, q);
      ConsSlice(s, p, q, StripDefinitions(s, q).0);
    }
  }

  /** Text in which no definition starts comes back unchanged, with nothing recorded. */
  lemma StripDefinitionsUnchanged(s: string, p: nat)
    requires p <= |s|
    requires forall j :: p <= j < |s| ==> DefinitionAt(s, j).None?
    ensures StripDefinitions(s, p) == (s[p..], [])
  {
    StripDefinitionsCopies(s, p, |s|);
    assert StripDefinitions(s, |s|) == ([], []);
    assert s[p..|s|] + [] == s[p..];
  }

  /**
   * `re.sub` cuts the leftmost definition: the text before it is kept, the
   * definition is dropped and recorded first, and the substitution goes on
   * after its end. So the recorded pairs are the matches, left to right.
   */
  lemma StripDefinitionsLeftmost(s: string, p: nat)
    requires p <= |s|
    ensures DefinitionSearch(s, p).None? ==> StripDefinitions(s, p) == (s[p..], [])
    ensures DefinitionSearch(s, p).Some? ==>
              var d := DefinitionAt(s, DefinitionSearch(s, p).value).value;
              var rest := StripDefinitions(s, d.end);
              StripDefinitions(s, p) == (s[p..DefinitionSearch(s, p).value] + rest.0, [(d.id, d.content)] + rest.1)
  {
    if DefinitionSearch(s, p).Some? {
      StripDefinitionsCopies(s, p, DefinitionSearch(s, p).value);
    } else {
      StripDefinitionsUnchanged(s, p);
    }
  }

  /** The dictionary the definitions fill, one assignment after another. */
  function ToMap(defs: seq<(string, string)>): (m: map<string, string>)
    decreases |defs|
    ensures forall id :: id in m <==> exists k :: 0 <= k < |defs| && defs[k].0 == id
  {
    if defs == [] then map[]
    else
      var m := ToMap(defs[..|defs| - 1]);
      assert forall k :: 0 <= k < |defs| - 1 ==> defs[..|defs| - 1][k] == defs[k];
      m[defs[|defs| - 1].0 := defs[|defs| - 1].1]
  }

  /** A recorded id maps to the content of its LAST definition. */
  lemma {:induction false} LastDefinitionWins(defs: seq<(string, string)>, k: nat)
    requires k < |defs|
    requires forall j :: k < j < |defs| ==> defs[j].0 != defs[k].0
    ensures defs[k].0 in ToMap(defs) && ToMap(defs)[defs[k].0] == defs[k].1
    decreases |defs|
  {
    if k < |defs| - 1 {
      var init := defs[..|defs| - 1];
      assert init[k] == defs[k];
      LastDefinitionWins(init, k);
    }
  }

  // ---------------------------------------------------------------------
  // FOOTNOTE_REF_PATTERN  \[\^(\d+)\]

  /** A reference `[^N]` at `p`: its id and where it ends. */
  function ReferenceAt(s: string, p: nat): (r: Option<(string, nat)>)
    ensures r.Some? ==> p + 4 <= r.value.1 <= |s| && IsPrefixAt("[^", s, p)
    ensures r.Some? ==> r.value.0 == s[p + 2..r.value.1 - 1] && s[r.value.1 - 1] == ']'
    ensures r.Some? ==> forall k :: 0 <= k < |r.value.0| ==> IsDigit(r.value.0[k])
  {
    if !IsPrefixAt("[^", s, p) then None
    else
      var d := SkipDigits(s, p + 2);
      if d == p + 2 || d == |s| || s[d] != ']' then None
      else Some((s[p + 2..d], d + 1))
  }

  function Placeholder(id: string): string {
    "__FOOTNOTE__" + id + "__"
  }

  /** `FOOTNOTE_REF_PATTERN.sub(...)` applied to `s[p..]`. */
  function ReplaceReferences(s: string, p: nat): string
    requires p <= |s|
    decreases |s| - p
  {
    if p == |s| then []
    else match ReferenceAt(s, p)
      case Some((id, e)) => Placeholder(id) + ReplaceReferences(s, e)
      case None => [s[p]] + ReplaceReferences(s, p + 1)
  }

  /** `_process_footnotes`: the rewritten text and the footnote dictionary. */
  function ProcessFootnotes(s: string): (string, map<string, string>) {
    var stripped := StripDefinitions(s, 0);
    (ReplaceReferences(stripped.0, 0), ToMap(stripped.1))
  }

  // ---------------------------------------------------------------------
  // Properties

  /** Up to the first reference, the rewritten text is the original text. */
  lemma CopiedUpTo(s: string, p: nat, m: nat)
    requires p <= |s| && p <= m <= NextReference(s, p)
    ensures |ReplaceReferences(s, p)| >= m - p
    ensures ReplaceReferences(s, p)[..m - p] == s[p..m]
    ensures m < |s| && ReferenceAt(s, m).Some? ==> |ReplaceReferences(s, p)| > m - p && ReplaceReferences(s, p)[m - p] == '_'
    ensures m == |s| ==> ReplaceReferences(s, p) == s[p..]
  {
    ReplaceReferencesCopies(s, p, m);
    var rest := ReplaceReferences(s, m);
    assert (s[p..m] + rest)[..m - p] == s[p..m];
    if m < |s| && ReferenceAt(s, m).Some? {
      assert rest[0] == Placeholder(ReferenceAt(s, m).value.0)[0];
      assert (s[p..m] + rest)[m - p] == rest[0];
    }
  }

  /** A stretch before the next reference is copied as it is. */
  lemma {:induction false} ReplaceReferencesCopies(s: string, p: nat, m: nat)
    requires p <= |s| && p <= m <= NextReference(s, p)
    ensures ReplaceReferences(s, p) == s[p..m] + ReplaceReferences(s, m)
    decreases m - p
  {
    if p < m {
      assert ReferenceAt(s, p).None? && NextReference(s, p + 1) == NextReference(s, p);
      ReplaceReferencesCopies(s, p + 1, m);
      ReplaceReferencesStep(s, p);
      ConsSlice(s, p, m, ReplaceReferences(s, m));
    } else {
      assert s[p..m] == [];
    }
  }

  /** First index at or after `p` where a reference starts (or `|s|`). */
  function NextReference(s: string, p: nat): (m: nat)
    requires p <= |s|
    decreases |s| - p
    ensures p <= m <= |s| && forall j :: p <= j < m ==> ReferenceAt(s, j).None?
    ensures m < |s| ==> ReferenceAt(s, m).Some?
  {
    if p == |s| || ReferenceAt(s, p).Some? then p else NextReference(s, p + 1)
  }

  /**
   * `sub` replaces the leftmost reference by the placeholder carrying its
   * id, copies the text before it and goes on after the reference.
   */
  lemma ReplaceReferencesLeftmost(s: string, p: nat)
    requires p <= |s| && NextReference(s, p) < |s|
    ensures var m := NextReference(s, p);
            ReplaceReferences(s, p) == s[p..m] + ReplaceReferences(s, m)
    ensures var m := NextReference(s, p);
            var (id, e) := ReferenceAt(s, m).value;
            ReplaceReferences(s, m) == Placeholder(id) + ReplaceReferences(s, e)
  {
    ReplaceReferencesCopies(s, p, NextReference(s, p));
  }

  /** A character where no reference starts is copied. */
  lemma ReplaceReferencesStep(s: string, p: nat)
    requires p < |s| && ReferenceAt(s, p).None?
    ensures ReplaceReferences(s, p) == [s[p]] + ReplaceReferences(s, p + 1)
  {
  }

  /** No reference is left once they have all been replaced. */
  lemma {:induction false} NoReferenceRemains(s: string, p: nat, q: nat)
    requires p <= |s|
    ensures ReferenceAt(ReplaceReferences(s, p), q).None?
    decreases |s| - p, q
  {
    var out := ReplaceReferences(s, p);
    if p == |s| {
    } else if ReferenceAt(s, p).Some? {
      var (id, e) := ReferenceAt(s, p).value;
      var ph := Placeholder(id);
      assert out == ph + ReplaceReferences(s, e);
      // The placeholder holds no '[', so a reference could only start after it.
      if q < |ph| {
        NoMarkerInPlaceholder(id, ReplaceReferences(s, e), q);
      } else {
        NoReferenceRemains(s, e, q - |ph|);
        NoReferenceAfter(ph, ReplaceReferences(s, e), q);
      }
    } else {
      var rest := ReplaceReferences(s, p + 1);
      assert out == [s[p]] + rest;
      if q > 0 {
        NoReferenceRemains(s, p + 1, q - 1);
        NoReferenceAfter([s[p]], rest, q);
      } else {
        ReferenceAtOutputStart(s, p);
      }
    }
  }

  /**
   * `_process_footnotes` as a whole: once the definitions are stripped, the
   * text is copied up to its leftmost reference `[^N]`, which becomes
   * `__FOOTNOTE__N__`, and replacement goes on after it; no reference is left
   * in the text returned; and text with neither a definition nor a
   * reference comes back unchanged with an empty dictionary.
   */
  lemma ProcessFootnotesFacts(s: string)
    ensures var t := StripDefinitions(s, 0).0;
            var m := NextReference(t, 0);
            (m == |t| ==> ProcessFootnotes(s).0 == t) &&
            (m < |t| ==>
               ProcessFootnotes(s).0 == t[..m] + Placeholder(ReferenceAt(t, m).value.0) + ReplaceReferences(t, ReferenceAt(t, m).value.1))
    ensures forall q :: ReferenceAt(ProcessFootnotes(s).0, q).None?
    ensures (forall j :: 0 <= j < |s| ==> DefinitionAt(s, j).None? && ReferenceAt(s, j).None?) ==>
              ProcessFootnotes(s) == (s, map[])
  {
    var stripped := StripDefinitions(s, 0).0;
    ReplaceReferencesWhole(stripped);
    forall q ensures ReferenceAt(ProcessFootnotes(s).0, q).None? {
      NoReferenceRemains(stripped, 0, q);
    }
    if forall j :: 0 <= j < |s| ==> DefinitionAt(s, j).None? && ReferenceAt(s, j).None? {
      StripDefinitionsUnchanged(s, 0);
      assert stripped == s;
      assert NextReference(s, 0) == |s|;
    }
  }

  /** The whole text rewritten: unchanged without a reference, else split at the leftmost one. */
  lemma ReplaceReferencesWhole(t: string)
    ensures var m := NextReference(t, 0);
            (m == |t| ==> ReplaceReferences(t, 0) == t) &&
            (m < |t| ==>
               ReplaceReferences(t, 0) == t[..m] + Placeholder(ReferenceAt(t, m).value.0) + ReplaceReferences(t, ReferenceAt(t, m).value.1))
  {
    var m := NextReference(t, 0);
    if m < |t| {
      ReplaceReferencesLeftmost(t, 0);
    } else {
      CopiedUpTo(t, 0, m);
    }
  }

  /** No reference at `q - |a|` in `b` means none at `q` once `a` is put in front. */
  lemma NoReferenceAfter(a: string, b: string, q: nat)
    requires |a| <= q && ReferenceAt(b, q - |a|).None?
    ensures ReferenceAt(a + b, q).None?
  {
    assert (a + b)[|a|..] == b;
    if ReferenceAt(a + b, q).Some? {
      ReferenceShift(a + b, q, |a|);
      assert false;
    }
  }

  /** A reference found at `q` is also found at `q - n` once the first `n` characters are dropped. */
  lemma ReferenceShift(s: string, q: nat, n: nat)
    requires n <= q <= |s| && ReferenceAt(s, q).Some?
    ensures ReferenceAt(s[n..], q - n).Some?
  {
    var t := s[n..];
    var d := SkipDigits(s, q + 2);
    assert s[q..q + 2] == t[q - n..q - n + 2];
    SkipDigitsShift(s, n, q + 2);
  }

  lemma {:induction false} SkipDigitsShift(s: string, n: nat, i: nat)
    requires n <= i <= |s|
    ensures SkipDigits(s[n..], i - n) == SkipDigits(s, i) - n
    decreases |s| - i
  {
    if i < |s| && IsDigit(s[i]) {
      SkipDigitsShift(s, n, i + 1);
    }
  }

  lemma NoMarkerInPlaceholder(id: string, rest: string, q: nat)
    requires forall k :: 0 <= k < |id| ==> IsDigit(id[k])
    requires q < |Placeholder(id)|
    ensures ReferenceAt(Placeholder(id) + rest, q).None?
  {
    var ph := Placeholder(id);
    assert (ph + rest)[q] == ph[q];
    if 12 <= q < 12 + |id| {
      assert ph[q] == id[q - 12];
    }
  }

  /** A marker read off a copy of the input is a marker of the input. */
  lemma MarkerInCopy(s: string, p: nat, out: string, e: nat)
    requires p + e <= |s| && e <= |out| && out[..e] == s[p..p + e]
    requires ReferenceAt(out, 0).Some? && ReferenceAt(out, 0).value.1 == e
    ensures ReferenceAt(s, p).Some?
  {
    forall k | 0 <= k < e ensures s[p + k] == out[k] {
      assert out[..e][k] == s[p..p + e][k];
    }
    assert s[p..p + 2] == out[..2];
    assert SkipDigits(s, p + 2) == p + e - 1;
  }

  /** Inside a marker there is no '_'. */
  lemma NoUnderscoreInMarker(out: string, j: nat)
    requires ReferenceAt(out, 0).Some? && j < ReferenceAt(out, 0).value.1
    ensures out[j] != '_'
  {
    assert out[..2] == "[^";
    if 2 <= j < ReferenceAt(out, 0).value.1 - 1 {
      assert out[j] == ReferenceAt(out, 0).value.0[j - 2];
    }
  }

  /**
   * A marker read at the start of the output lies within the part copied
   * from the input: a replaced reference contributes '_', which cannot
   * continue a marker.
   */
  lemma MarkerBeforeNext(s: string, p: nat)
    requires p < |s| && ReferenceAt(s, p).None?
    requires ReferenceAt(ReplaceReferences(s, p), 0).Some?
    ensures ReferenceAt(ReplaceReferences(s, p), 0).value.1 <= NextReference(s, p + 1) - p
  {
    var out := ReplaceReferences(s, p);
    var m := NextReference(s, p + 1);
    var e := ReferenceAt(out, 0).value.1;
    NextIsPlaceholder(s, p);
    if m < |s| && e > m - p {
      NoUnderscoreInMarker(out, m - p);
    }
  }

  /** Where the next reference was, the output holds the placeholder's '_'; without one it is as long as the input. */
  lemma NextIsPlaceholder(s: string, p: nat)
    requires p < |s| && ReferenceAt(s, p).None?
    ensures var m := NextReference(s, p + 1);
            (m < |s| ==> m - p < |ReplaceReferences(s, p)| && ReplaceReferences(s, p)[m - p] == '_') &&
            (m == |s| ==> |ReplaceReferences(s, p)| == m - p)
  {
    var m := NextReference(s, p + 1);
    assert NextReference(s, p) == m;
    CopiedUpTo(s, p, m);
    if m < |s| {
      assert ReferenceAt(s, m).Some?;
    }
  }

  /** So the characters of that marker are the input's own. */
  lemma MarkerWithinCopy(s: string, p: nat)
    requires p < |s| && ReferenceAt(s, p).None?
    requires ReferenceAt(ReplaceReferences(s, p), 0).Some?
    ensures var e := ReferenceAt(ReplaceReferences(s, p), 0).value.1;
            p + e <= |s| && e <= |ReplaceReferences(s, p)| && ReplaceReferences(s, p)[..e] == s[p..p + e]
  {
    var out := ReplaceReferences(s, p);
    var e := ReferenceAt(out, 0).value.1;
    var m := NextReference(s, p + 1);
    MarkerBeforeNext(s, p);
    CopiedUpTo(s, p, m);
    CopyPrefix(out, s, p, m, e);
  }

  /** A prefix of a copy of `s[p..m]` is a copy of the same prefix. */
  lemma CopyPrefix(out: string, s: string, p: nat, m: nat, e: nat)
    requires p + e <= m <= |s| && m - p <= |out| && out[..m - p] == s[p..m]
    ensures out[..e] == s[p..p + e]
  {
    forall k | 0 <= k < e ensures out[k] == s[p + k] {
      assert out[..m - p][k] == s[p..m][k];
    }
  }

  /** The output cannot start a reference where the input had none. */
  lemma ReferenceAtOutputStart(s: string, p: nat)
    requires p < |s| && ReferenceAt(s, p).None?
    ensures ReferenceAt(ReplaceReferences(s, p), 0).None?
  {
    var out := ReplaceReferences(s, p);
    if ReferenceAt(out, 0).Some? {
      MarkerWithinCopy(s, p);
      MarkerInCopy(s, p, out, ReferenceAt(out, 0).value.1);
      assert false;
    }
  }
}
