// The last step of the scrubber: a text is kept only compound by compound, and
// whatever is not made of known error words becomes [x].
module Allowlist {
  import Decimal
  import opened SupportText

  // ----- Which compounds are kept

  const UNITS: set<string> := {"", "ns", "us", "µs", "ms", "s", "m", "h", "b", "kb", "mb", "gb"}

  /** One to five digits and an optional unit. */
  predicate ShortNumber(w: string) {
    exists n :: 1 <= n <= 5 && n <= |w| && (forall i :: 0 <= i < n ==> Decimal.IsDigit(w[i])) && w[n..] in UNITS
  }

  predicate KeepWord(a: Alphabet, vocabulary: set<string>, w: string) {
    |w| == 1 || a.Lower(w) in vocabulary || ShortNumber(a.Lower(w))
  }

  const SLASH_WORDS: set<string> := {"i/o", "n/a", "and/or"}

  /** Joined like a path, a host or an address. */
  predicate Joined(a: Alphabet, c: string) {
    || (exists i :: 0 <= i < |c| && c[i] in "/\\@")
    || (exists i :: 0 < i < |c| - 1 && c[i] == '.' && a.isLetter(c[i - 1]) && a.isLetter(c[i + 1]))
  }

  function WordRuns(a: Alphabet, c: string): seq<Span> { Runs(x => a.Alnum(x), c, 0) }

  /** A compound is kept when it is not joined, slash words aside, and every word of it is. */
  predicate KeepCompound(a: Alphabet, vocabulary: set<string>, c: string) {
    && (Joined(a, c) ==> a.Lower(c) in SLASH_WORDS)
    && (forall k :: 0 <= k < |WordRuns(a, c)| ==>
          var r := WordRuns(a, c)[k];
          r.start <= r.end <= |c| && KeepWord(a, vocabulary, c[r.start..r.end]))
  }

  /** The mask's own letter is always kept. */
  lemma MaskIsKept(a: Alphabet, vocabulary: set<string>)
    ensures KeepCompound(a, vocabulary, "x")
  {
    assert forall k :: 0 <= k < |WordRuns(a, "x")| ==> WordRuns(a, "x")[k] == Span(0, 1);
    assert "x"[0..1] == "x";
  }

  // ----- The rewrite

  /** The end of the compound a text starts with. */
  function CompoundEnd(a: Alphabet, s: string): nat { RunEnd(c => !a.Structural(c), s, 0) }

  /**
   * The rewrite from a state: `masked` when the last compound written was [x],
   * `spaces` those seen since, written only if a kept compound follows.
   */
  function Allowed(a: Alphabet, keep: string -> bool, s: string, masked: bool, spaces: string): string
    decreases |s|
  {
    if s == [] then spaces
    else if a.Structural(s[0]) then
      if masked && a.isSpace(s[0]) then Allowed(a, keep, s[1..], true, spaces + [s[0]])
      else spaces + [s[0]] + Allowed(a, keep, s[1..], false, "")
    else
      var end := CompoundEnd(a, s);
      if keep(s[..end]) then spaces + s[..end] + Allowed(a, keep, s[end..], false, "")
      else if !masked then spaces + "[x]" + Allowed(a, keep, s[end..], true, "")
      else Allowed(a, keep, s[end..], true, "")
  }

  method Allowlist(a: Alphabet, keep: string -> bool, s: string) returns (out: string)
    ensures out == Allowed(a, keep, s, false, "")
  {
    hide CompoundEnd;
    out := "";
    var rest, spaces, masked := s, "", false;
    JoinNothing(Allowed(a, keep, s, false, ""));
    while rest != ""
      invariant out + Allowed(a, keep, rest, masked, spaces) == Allowed(a, keep, s, false, "")
      decreases |rest|
    {
      if a.Structural(rest[0]) {
        if masked && a.isSpace(rest[0]) {
          spaces := spaces + [rest[0]];
        } else {
          Join3(out, spaces, [rest[0]], Allowed(a, keep, rest[1..], false, ""));
          out := out + (spaces + [rest[0]]);
          spaces, masked := "", false;
        }
        rest := rest[1..];
        continue;
      }
      CompoundBounds(a, rest);
      var end := CompoundEnd(a, rest);
      var compound := rest[..end];
      if keep(compound) {
        Join3(out, spaces, compound, Allowed(a, keep, rest[end..], false, ""));
        out := out + (spaces + compound);
        masked := false;
      } else if !masked {
        Join3(out, spaces, "[x]", Allowed(a, keep, rest[end..], true, ""));
        out := out + (spaces + "[x]");
        masked := true;
      }
      spaces := "";
      rest := rest[end..];
    }
    out := out + spaces;
  }

  lemma Join3(a: string, b: string, c: string, d: string)
    ensures a + (b + c + d) == a + (b + c) + d
  {
  }

  lemma CompoundBounds(a: Alphabet, s: string)
    requires s != [] && !a.Structural(s[0])
    ensures 0 < CompoundEnd(a, s) <= |s|
    ensures CompoundEnd(a, s) < |s| ==> a.Structural(s[CompoundEnd(a, s)])
  {
  }

  // ----- What the output holds

  /** Every compound of the text is kept. */
  predicate AllKept(a: Alphabet, keep: string -> bool, s: string)
    decreases |s|
  {
    s == [] ||
    if a.Structural(s[0]) then AllKept(a, keep, s[1..])
    else CompoundBounds(a, s); keep(s[..CompoundEnd(a, s)]) && AllKept(a, keep, s[CompoundEnd(a, s)..])
  }

  /** Nothing before `t` can run into it. */
  predicate Bounded(a: Alphabet, t: string) { t == [] || a.Structural(t[0]) }

  /** A compound followed by a bound is a whole compound. */
  lemma {:induction false} WholeCompound(a: Alphabet, c: string, t: string, i: nat)
    requires i <= |c| && Bounded(a, t) && forall k :: i <= k < |c| ==> !a.Structural(c[k])
    ensures RunEnd(x => !a.Structural(x), c + t, i) == |c|
    decreases |c| - i
  {
    if i < |c| { WholeCompound(a, c, t, i + 1); }
  }

  predicate Compound(a: Alphabet, c: string) { c != [] && forall k :: 0 <= k < |c| ==> !a.Structural(c[k]) }

  lemma CompoundThen(a: Alphabet, c: string, t: string)
    requires Compound(a, c) && Bounded(a, t)
    ensures c + t != [] && !a.Structural((c + t)[0]) && CompoundEnd(a, c + t) == |c|
    ensures (c + t)[..|c|] == c && (c + t)[|c|..] == t
  {
    WholeCompound(a, c, t, 0);
  }

  lemma CompoundAtStart(a: Alphabet, s: string)
    requires s != [] && !a.Structural(s[0])
    ensures 0 < CompoundEnd(a, s) <= |s|
    ensures Compound(a, s[..CompoundEnd(a, s)]) && Bounded(a, s[CompoundEnd(a, s)..])
  {
    CompoundBounds(a, s);
    forall k | 0 <= k < CompoundEnd(a, s) ensures !a.Structural(s[k]) {
      RunIsUniform(c => !a.Structural(c), s, 0, k);
    }
  }

  lemma KeptCompoundThen(a: Alphabet, keep: string -> bool, c: string, t: string)
    requires Compound(a, c) && Bounded(a, t)
    ensures AllKept(a, keep, c + t) <==> keep(c) && AllKept(a, keep, t)
  {
    CompoundThen(a, c, t);
    hide Compound, CompoundEnd;
  }

  lemma {:induction false} SeparatorsThen(a: Alphabet, keep: string -> bool, sp: string, t: string)
    requires forall i :: 0 <= i < |sp| ==> a.Structural(sp[i])
    ensures AllKept(a, keep, sp + t) == AllKept(a, keep, t)
    decreases |sp|
  {
    if sp == [] {
      assert sp + t == t;
    } else {
      assert (sp + t)[1..] == sp[1..] + t;
      SeparatorsThen(a, keep, sp[1..], t);
    }
  }

  ghost predicate Spaces(a: Alphabet, sp: string) { forall i :: 0 <= i < |sp| ==> a.isSpace(sp[i]) }

  lemma SpacesStructural(a: Alphabet, sp: string)
    requires Spaces(a, sp)
    ensures forall i :: 0 <= i < |sp| ==> a.Structural(sp[i])
  {
  }

  /** The letters of the mask are apart from what surrounds it. */
  lemma MaskThen(a: Alphabet, keep: string -> bool, t: string)
    requires !a.Structural('x') && keep("x")
    ensures AllKept(a, keep, "[x]" + t) == AllKept(a, keep, t)
  {
    var u := "]" + t;
    assert "[x]" + t == "[" + ("x" + u);
    assert ("[" + ("x" + u))[1..] == "x" + u;
    KeptCompoundThen(a, keep, "x", u);
    assert u[1..] == t;
  }

  /** After a kept compound or a separator the output starts as the input does. */
  lemma OutputBounded(a: Alphabet, keep: string -> bool, t: string)
    requires Bounded(a, t)
    ensures Bounded(a, Allowed(a, keep, t, false, ""))
  {
    if t != [] { assert ("" + [t[0]] + Allowed(a, keep, t[1..], false, ""))[0] == t[0]; }
  }

  /** Every compound of the output is kept, from every state of the rewrite. */
  lemma {:induction false} OutputAllKept(a: Alphabet, keep: string -> bool, s: string, masked: bool, spaces: string)
    requires !a.Structural('x') && keep("x") && Spaces(a, spaces)
    ensures AllKept(a, keep, Allowed(a, keep, s, masked, spaces))
    decreases |s|
  {
    hide AllKept, Compound, CompoundEnd, Spaces;
    SpacesStructural(a, spaces);
    NothingKept(a, keep);
    if s == [] {
      SeparatorsThen(a, keep, spaces, "");
      assert spaces + "" == spaces;
    } else if a.Structural(s[0]) {
      if masked && a.isSpace(s[0]) {
        MoreSpaces(a, spaces, s[0]);
        OutputAllKept(a, keep, s[1..], true, spaces + [s[0]]);
      } else {
        var rest := Allowed(a, keep, s[1..], false, "");
        NoSpaces(a);
        OutputAllKept(a, keep, s[1..], false, "");
        SeparatorsThen(a, keep, spaces + [s[0]], rest);
      }
    } else {
      CompoundAtStart(a, s);
      var end := CompoundEnd(a, s);
      var c := s[..end];
      NoSpaces(a);
      if keep(c) {
        var rest := Allowed(a, keep, s[end..], false, "");
        OutputAllKept(a, keep, s[end..], false, "");
        OutputBounded(a, keep, s[end..]);
        KeptCompoundThen(a, keep, c, rest);
        SeparatorsThen(a, keep, spaces, c + rest);
        assert spaces + c + rest == spaces + (c + rest);
      } else {
        var rest := Allowed(a, keep, s[end..], true, "");
        OutputAllKept(a, keep, s[end..], true, "");
        if !masked {
          MaskThen(a, keep, rest);
          SeparatorsThen(a, keep, spaces, "[x]" + rest);
          assert spaces + "[x]" + rest == spaces + ("[x]" + rest);
        }
      }
    }
  }

  lemma NothingKept(a: Alphabet, keep: string -> bool)
    ensures AllKept(a, keep, "")
  {
  }

  lemma NoSpaces(a: Alphabet)
    ensures Spaces(a, "")
  {
  }

  lemma MoreSpaces(a: Alphabet, sp: string, c: char)
    requires Spaces(a, sp) && a.isSpace(c)
    ensures Spaces(a, sp + [c])
  {
  }

  /** A text whose compounds are all kept is unchanged. */
  lemma {:induction false} KeptTextUnchanged(a: Alphabet, keep: string -> bool, s: string)
    requires AllKept(a, keep, s)
    ensures Allowed(a, keep, s, false, "") == s
    decreases |s|
  {
    hide CompoundEnd, Allowed, AllKept;
    AllowedStep(a, keep, s);
    if s != [] {
      AllKeptFirst(a, keep, s);
      if a.Structural(s[0]) {
        KeptTextUnchanged(a, keep, s[1..]);
        assert s == [s[0]] + s[1..];
      } else {
        CompoundBounds(a, s);
        var end := CompoundEnd(a, s);
        KeptTextUnchanged(a, keep, s[end..]);
        assert s == s[..end] + s[end..];
      }
    }
  }

  /** One step of the rewrite with nothing held back. */
  lemma AllowedStep(a: Alphabet, keep: string -> bool, s: string)
    ensures s == [] ==> Allowed(a, keep, s, false, "") == ""
    ensures s != [] && a.Structural(s[0]) ==>
              Allowed(a, keep, s, false, "") == [s[0]] + Allowed(a, keep, s[1..], false, "")
    ensures s != [] && !a.Structural(s[0]) ==>
              var end := CompoundEnd(a, s);
              && 0 < end <= |s|
              && (keep(s[..end]) ==> Allowed(a, keep, s, false, "") == s[..end] + Allowed(a, keep, s[end..], false, ""))
  {
    if s != [] && !a.Structural(s[0]) {
      CompoundBounds(a, s);
      hide CompoundEnd;
      var end := CompoundEnd(a, s);
      assert "" + s[..end] == s[..end];
    }
  }

  lemma AllKeptFirst(a: Alphabet, keep: string -> bool, s: string)
    requires AllKept(a, keep, s) && s != []
    ensures a.Structural(s[0]) ==> AllKept(a, keep, s[1..])
    ensures !a.Structural(s[0]) ==>
              var end := CompoundEnd(a, s);
              0 < end <= |s| && keep(s[..end]) && AllKept(a, keep, s[end..])
  {
    hide CompoundEnd;
    if !a.Structural(s[0]) { CompoundBounds(a, s); }
  }

  /** Rewriting twice is rewriting once. */
  lemma Idempotent(a: Alphabet, keep: string -> bool, s: string)
    requires !a.Structural('x') && keep("x")
    ensures var once := Allowed(a, keep, s, false, ""); Allowed(a, keep, once, false, "") == once
  {
    hide Allowed;
    NoSpaces(a);
    OutputAllKept(a, keep, s, false, "");
    KeptTextUnchanged(a, keep, Allowed(a, keep, s, false, ""));
  }

  predicate RunKept(keep: string -> bool, s: string, r: Span) { r.start <= r.end <= |s| && keep(s[r.start..r.end]) }

  ghost predicate RunsKept(keep: string -> bool, s: string, runs: seq<Span>) {
    forall k :: 0 <= k < |runs| ==> RunKept(keep, s, runs[k])
  }

  function Bare(a: Alphabet): char -> bool { (c: char) => !a.Structural(c) }

  lemma {:induction false} RunEndShift(a: Alphabet, s: string, i: nat, j: nat)
    requires i + j <= |s|
    ensures RunEnd(c => !a.Structural(c), s[i..], j) + i == RunEnd(Bare(a), s, i + j)
    decreases |s| - i - j
  {
    if i + j < |s| {
      assert s[i..][j] == s[i + j];
      if !a.Structural(s[i + j]) { RunEndShift(a, s, i, j + 1); }
    }
  }

  lemma RunsKeptCons(keep: string -> bool, s: string, r: Span, runs: seq<Span>)
    ensures RunsKept(keep, s, [r] + runs) <==> RunKept(keep, s, r) && RunsKept(keep, s, runs)
  {
    hide RunKept;
    var all := [r] + runs;
    assert all[0] == r;
    assert forall k :: 0 <= k < |runs| ==> all[k + 1] == runs[k];
  }

  /** Being all kept is every maximal run between separators being kept. */
  lemma {:induction false} AllKeptMeans(a: Alphabet, keep: string -> bool, s: string, i: nat)
    requires i <= |s|
    ensures AllKept(a, keep, s[i..]) <==> RunsKept(keep, s, Runs(Bare(a), s, i))
    decreases |s| - i
  {
    if i < |s| {
      assert s[i..][0] == s[i];
      if a.Structural(s[i]) {
        assert s[i..][1..] == s[i + 1..];
        AllKeptMeans(a, keep, s, i + 1);
      } else {
        hide AllKept, RunsKept;
        AllKeptStep(a, keep, s, i);
        var e := RunEnd(Bare(a), s, i);
        AllKeptMeans(a, keep, s, e);
        RunsKeptCons(keep, s, Span(i, e), Runs(Bare(a), s, e));
      }
    }
  }

  lemma AllKeptStep(a: Alphabet, keep: string -> bool, s: string, i: nat)
    requires i < |s| && !a.Structural(s[i])
    ensures var e := RunEnd(Bare(a), s, i);
            i < e && (AllKept(a, keep, s[i..]) <==> RunKept(keep, s, Span(i, e)) && AllKept(a, keep, s[e..]))
  {
    hide RunEnd;
    assert s[i..][0] == s[i];
    var e := RunEnd(Bare(a), s, i);
    RunEndShift(a, s, i, 0);
    CompoundBounds(a, s[i..]);
    assert s[i..][..e - i] == s[i..e];
    assert s[i..][e - i..] == s[e..];
  }

  /** Every maximal run of the rewrite's output passes the test for being kept. */
  lemma OutputRunsKept(a: Alphabet, vocabulary: set<string>, s: string)
    requires !a.isSpace('x')
    ensures var keep := c => KeepCompound(a, vocabulary, c);
            var out := Allowed(a, keep, s, false, "");
            RunsKept(keep, out, Runs(Bare(a), out, 0)) && Allowed(a, keep, out, false, "") == out
  {
    hide KeepCompound;
    var keep := c => KeepCompound(a, vocabulary, c);
    MaskIsKept(a, vocabulary);
    NoSpaces(a);
    OutputAllKept(a, keep, s, false, "");
    var out := Allowed(a, keep, s, false, "");
    assert out[0..] == out;
    AllKeptMeans(a, keep, out, 0);
    Idempotent(a, keep, s);
  }

  // ----- Runs of masked compounds

  /** Spaces after a mask are held back. */
  lemma {:induction false} SpacesHeld(a: Alphabet, keep: string -> bool, sp: string, t: string, held: string)
    requires Spaces(a, sp)
    ensures Allowed(a, keep, sp + t, true, held) == Allowed(a, keep, t, true, held + sp)
    decreases |sp|
  {
    if sp == [] {
      assert sp + t == t && held + sp == held;
    } else {
      assert (sp + t)[1..] == sp[1..] + t;
      SpacesHeld(a, keep, sp[1..], t, held + [sp[0]]);
      assert held + [sp[0]] + sp[1..] == held + sp;
    }
  }

  /**
   * Two compounds that are both masked, with only spaces between them, come
   * out as one: the spaces and the second leave no trace, whatever was written
   * before and whatever follows.
   */
  lemma MaskedRunsCollapse(a: Alphabet, keep: string -> bool, c: string, sp: string, d: string, t: string,
                           masked: bool, spaces: string)
    requires Compound(a, c) && Compound(a, d) && !keep(c) && !keep(d)
    requires Spaces(a, sp) && sp != [] && Bounded(a, t)
    ensures Allowed(a, keep, c + (sp + (d + t)), masked, spaces) == Allowed(a, keep, c + t, masked, spaces)
  {
    hide Compound, CompoundEnd;
    SpacesStructural(a, sp);
    assert (sp + (d + t))[0] == sp[0];
    CompoundThen(a, c, sp + (d + t));
    CompoundThen(a, c, t);
    CompoundThen(a, d, t);
    SpacesHeld(a, keep, sp, d + t, "");
  }
}
