/**
 * The text clean-up `convert` performs before anything else: Unicode NFC
 * normalisation (left to the host) followed by a fixed table of mojibake
 * repairs, each a plain left-to-right `str.replace` applied in table order.
 * Both converter versions use the same table.
 */
module Normalize {
  import opened Wrappers
  import opened Text
  import Host

  /** The repairs in the order the source's dictionary lists them: garbled UTF-8 read as cp1252, and the character meant. */
  const Repairs: seq<(string, string)> := [
    ("\U{c2}\U{a3}", "\U{a3}"),
    ("\U{e2}\U{20ac}\U{201d}", "\U{2014}"),
    ("\U{e2}\U{20ac}\U{201c}", "\U{2013}"),
    ("\U{e2}\U{20ac}\U{2122}", "\U{2019}"),
    ("\U{e2}\U{20ac}\U{2dc}", "\U{2018}"),
    ("\U{e2}\U{20ac}\U{153}", "\U{201c}"),
    ("\U{e2}\U{20ac}\U{fffd}", "\U{201d}"),
    ("\U{e2}\U{20ac}\U{a6}", "\U{2026}")
  ]

  /** Every garbled form starts with one of the two lead characters. */
  predicate LeadChar(c: char) {
    c == '\U{c2}' || c == '\U{e2}'
  }

  predicate WellFormedTable(table: seq<(string, string)>) {
    forall k :: 0 <= k < |table| ==> table[k].0 != [] && LeadChar(table[k].0[0])
  }

  function ApplyRepairs(s: string, table: seq<(string, string)>): string
    requires WellFormedTable(table)
    decreases |table|
  {
    if table == [] then s else ApplyRepairs(Replace(s, table[0].0, table[0].1), table[1..])
  }

  function Repair(s: string): string {
    ApplyRepairs(s, Repairs)
  }

  /** The replacement loop of `convert`: each repair in table order, over the whole text. */
  method RepairText(s: string) returns (r: string)
    ensures r == Repair(s)
  {
    r := s;
    var k := 0;
    while k < |Repairs|
      invariant k <= |Repairs|
      invariant ApplyRepairs(r, Repairs[k..]) == Repair(s)
    {
      Unfold(r, k);
      r := Replace(r, Repairs[k].0, Repairs[k].1);
      k := k + 1;
    }
  }

  /** The text `convert` goes on to split into lines. */
  function Normalized(host: Host.Host, s: string): string {
    Repair(host.nfc(s))
  }

  /** A pattern occurs only where its first character does. */
  lemma ContainsFirstChar(s: string, p: string)
    requires p != [] && Contains(s, p)
    ensures exists k :: 0 <= k < |s| && s[k] == p[0]
  {
    var k := FindFrom(s, p, 0).value;
    assert s[k..k + |p|] == p;
    assert s[k] == p[0];
  }

  /** Text with neither lead character is left exactly as it was. */
  lemma {:induction false} ApplyRepairsClean(s: string, table: seq<(string, string)>)
    requires WellFormedTable(table)
    requires forall k :: 0 <= k < |s| ==> !LeadChar(s[k])
    ensures ApplyRepairs(s, table) == s
    decreases |table|
  {
    if table != [] {
      if Contains(s, table[0].0) {
        ContainsFirstChar(s, table[0].0);
      }
      ReplaceAbsent(s, table[0].0, table[0].1);
      ApplyRepairsClean(s, table[1..]);
    }
  }

  /** Text without a stray 'Â' or 'â' passes through the repairs unchanged. */
  lemma RepairClean(s: string)
    requires forall k :: 0 <= k < |s| ==> !LeadChar(s[k])
    ensures Repair(s) == s
  {
    ApplyRepairsClean(s, Repairs);
  }

  /** A repair can create another garbled form, which a second pass repairs again. */
  const DoublyGarbled: string := "\U{e2}\U{20ac}\U{e2}\U{20ac}\U{153}"

  /** `p` does not occur in `s` when the first `|s| - |p| + 1` positions hold no match. */
  lemma AbsentUpTo(s: string, p: string, n: nat)
    requires p != [] && n + |p| > |s|
    requires forall k :: 0 <= k < n ==> !IsPrefixAt(p, s, k)
    ensures !Contains(s, p)
  {
    var j := 0;
    while j < n
      invariant 0 <= j <= n
      invariant FindFrom(s, p, j) == FindFrom(s, p, 0)
    {
      j := j + 1;
    }
  }

  /** The repairs from index `i` on leave `s` alone when none of their patterns occurs in it. */
  lemma {:induction false} RepairsAbsentFrom(s: string, i: nat)
    requires i <= |Repairs|
    requires forall j :: i <= j < |Repairs| ==> !Contains(s, Repairs[j].0)
    ensures ApplyRepairs(s, Repairs[i..]) == s
    decreases |Repairs| - i
  {
    if i < |Repairs| {
      ReplaceAbsent(s, Repairs[i].0, Repairs[i].1);
      assert Repairs[i..][1..] == Repairs[i + 1..];
      RepairsAbsentFrom(s, i + 1);
    }
  }

  /** None of the first five garbled forms occurs in `DoublyGarbled`. */
  lemma GarbledMissesFirstFive()
    ensures forall i :: 0 <= i < 5 ==> !Contains(DoublyGarbled, Repairs[i].0)
  {
    var s := DoublyGarbled;
    var r := Repairs;
    forall i | 0 <= i < 5 ensures !Contains(s, r[i].0) {
      if i == 0 {
        forall k | 0 <= k < 4 ensures !IsPrefixAt(r[0].0, s, k) {
          assert s[k..k + 2][0] != r[0].0[0];
        }
        AbsentUpTo(s, r[i].0, 4);
      } else {
        assert s[0..3][2] != r[i].0[2] && s[1..4][0] != r[i].0[0] && s[2..5][2] != r[i].0[2];
        AbsentUpTo(s, r[i].0, 3);
      }
    }
  }

  /** Repairs whose patterns do not occur can be skipped. */
  lemma {:induction false} SkipAbsent(s: string, i: nat, j: nat)
    requires i <= j <= |Repairs|
    requires forall k :: i <= k < j ==> !Contains(s, Repairs[k].0)
    ensures ApplyRepairs(s, Repairs[i..]) == ApplyRepairs(s, Repairs[j..])
    decreases j - i
  {
    if i < j {
      Unfold(s, i);
      ReplaceAbsent(s, Repairs[i].0, Repairs[i].1);
      SkipAbsent(s, i + 1, j);
    }
  }

  /** The sixth repair turns the inner garbled form into 'â€“' ... */
  lemma SixthRepairFires()
    ensures Replace(DoublyGarbled, Repairs[5].0, Repairs[5].1) == "\U{e2}\U{20ac}\U{201c}"
  {
    var s := DoublyGarbled;
    var p := Repairs[5].0;
    assert s[0..3][2] != p[2] && s[1..4][0] != p[0];
    assert !IsPrefixAt(p, s, 0) && !IsPrefixAt(p, s, 1) && IsPrefixAt(p, s, 2);
    assert FindFrom(s, p, 0) == Some(2);
  }

  /** ... which the two repairs after it leave alone. */
  lemma LastRepairsSkip()
    ensures ApplyRepairs("\U{e2}\U{20ac}\U{201c}", Repairs[6..]) == "\U{e2}\U{20ac}\U{201c}"
  {
    var t: string := "\U{e2}\U{20ac}\U{201c}";
    forall i | 6 <= i < 8 ensures !Contains(t, Repairs[i].0) {
      assert t[0..3][2] != Repairs[i].0[2];
      AbsentUpTo(t, Repairs[i].0, 1);
    }
    RepairsAbsentFrom(t, 6);
  }

  lemma FirstPass()
    ensures Repair(DoublyGarbled) == "\U{e2}\U{20ac}\U{201c}"
  {
    GarbledMissesFirstFive();
    SkipAbsent(DoublyGarbled, 0, 5);
    assert Repairs[0..] == Repairs;
    Unfold(DoublyGarbled, 5);
    SixthRepairFires();
    LastRepairsSkip();
  }

  lemma Unfold(s: string, i: nat)
    requires i < |Repairs|
    ensures ApplyRepairs(s, Repairs[i..]) == ApplyRepairs(Replace(s, Repairs[i].0, Repairs[i].1), Repairs[i + 1..])
  {
    assert Repairs[i..][1..] == Repairs[i + 1..];
  }

  lemma SecondPass()
    ensures Repair("\U{e2}\U{20ac}\U{201c}") == "\U{2013}"
  {
    var t: string := "\U{e2}\U{20ac}\U{201c}";
    var r := Repairs;
    assert t[0] != r[0].0[0] && t[1..3][0] != r[0].0[0];
    AbsentUpTo(t, r[0].0, 2);
    ReplaceAbsent(t, r[0].0, r[0].1);
    assert t[0..3][2] != r[1].0[2];
    AbsentUpTo(t, r[1].0, 1);
    ReplaceAbsent(t, r[1].0, r[1].1);
    assert IsPrefixAt(r[2].0, t, 0);
    assert Replace(t, r[2].0, r[2].1) == "\U{2013}";
    ApplyRepairsClean("\U{2013}", r[3..]);
    Unfold(t, 0);
    Unfold(t, 1);
    Unfold(t, 2);
    assert r[0..] == r;
  }
}
