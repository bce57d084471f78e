// The scrubber's last two steps together: known names are masked, then every
// compound that is not made of kept words. What comes out of a text that holds
// a registered name.
module SupportScrub {
  import opened SupportText
  import opened NameTrie
  import opened NameScrub
  import opened Allowlist
  import opened TextOrigin
  import opened Subsequence

  // ----- Where the rewrite's output comes from

  /** Nothing is shown of the runs that are not kept. */
  ghost predicate HidesUnkept(org: Origins, keep: string -> bool, s: string, runs: seq<Span>) {
    forall k :: 0 <= k < |runs| ==> RunKept(keep, s, runs[k]) || Hides(org, runs[k])
  }

  /** Runs that come later are hidden as well with text before them. */
  lemma UnkeptLater(org: Origins, keep: string -> bool, s: string, runs: seq<Span>, lo: nat, hi: nat)
    requires lo <= hi && HidesUnkept(org, keep, s, runs) && forall k :: 0 <= k < |runs| ==> hi <= runs[k].start
    ensures HidesUnkept(Stretch(lo, hi) + org, keep, s, runs)
    ensures HidesUnkept(Stretch(lo, hi) + NoOrigin(3) + org, keep, s, runs)
  {
    hide RunKept, Hides;
    forall k | 0 <= k < |runs| && Hides(org, runs[k])
      ensures Hides(Stretch(lo, hi) + org, runs[k]) && Hides(Stretch(lo, hi) + NoOrigin(3) + org, runs[k])
    {
      HidesLater(lo, hi, org, runs[k]);
    }
  }

  lemma UnkeptCons(org: Origins, keep: string -> bool, s: string, r: Span, runs: seq<Span>)
    requires HidesUnkept(org, keep, s, runs) && (RunKept(keep, s, r) || Hides(org, r))
    ensures HidesUnkept(org, keep, s, [r] + runs)
  {
    hide RunKept, Hides;
  }

  lemma RunsStartLater(a: Alphabet, s: string, i: nat)
    requires i <= |s|
    ensures forall k :: 0 <= k < |Runs(Bare(a), s, i)| ==> i <= Runs(Bare(a), s, i)[k].start
  {
    hide Runs;
    RunsOrdered(Bare(a), s, i);
    var runs := Runs(Bare(a), s, i);
    forall k | 0 <= k < |runs| ensures i <= runs[k].start { OrderedAt(runs, i, |s|, k); }
  }

  /** The runs from a separator on, and from a compound on. */
  lemma RunsStep(a: Alphabet, s: string, i: nat)
    requires i < |s|
    ensures a.Structural(s[i]) ==> Runs(Bare(a), s, i) == Runs(Bare(a), s, i + 1)
    ensures !a.Structural(s[i]) ==>
              var e := i + CompoundEnd(a, s[i..]);
              i < e <= |s| && Runs(Bare(a), s, i) == [Span(i, e)] + Runs(Bare(a), s, e)
  {
    if !a.Structural(s[i]) {
      CompoundBounds(a, s[i..]);
      RunEndShift(a, s, i, 0);
    }
  }

  /** What the rewrite gives from position i, with the spaces since p held back, and where it comes from. */
  ghost predicate Rewritten(a: Alphabet, keep: string -> bool, s: string, p: nat, i: nat, masked: bool, org: Origins)
    requires p <= i <= |s|
  {
    var out := Allowed(a, keep, s[i..], masked, s[p..i]);
    && Traces(s, out, org) && From(org, p, |s|) && Blocked(out, org)
    && HidesUnkept(org, keep, s, Runs(Bare(a), s, i))
  }

  lemma RewrittenEnd(a: Alphabet, keep: string -> bool, s: string, p: nat, masked: bool)
    requires p <= |s|
    ensures Rewritten(a, keep, s, p, |s|, masked, Stretch(p, |s|))
  {
    TraceCopy(s, p, |s|);
    BlockedCopy(s, p, |s|);
    hide Traces, From, Blocked;
    assert s[|s|..] == [];
  }

  lemma AfterSeparator(a: Alphabet, keep: string -> bool, s: string, p: nat, i: nat, masked: bool, ro: Origins)
    requires p <= i < |s| && a.Structural(s[i]) && !(masked && a.isSpace(s[i]))
    requires Rewritten(a, keep, s, i + 1, i + 1, false, ro)
    ensures Rewritten(a, keep, s, p, i, masked, Stretch(p, i + 1) + ro)
  {
    hide Traces, From, Blocked, HidesUnkept, Runs;
    assert s[i..][0] == s[i] && s[i..][1..] == s[i + 1..] && s[i + 1..i + 1] == "";
    assert s[p..i] + [s[i]] == s[p..i + 1];
    var rest := Allowed(a, keep, s[i + 1..], false, "");
    LengthsAgree(s, rest, ro);
    CopyTrace(s, p, i + 1, rest, ro);
    RunsStep(a, s, i);
    RunsStartLater(a, s, i + 1);
    UnkeptLater(ro, keep, s, Runs(Bare(a), s, i + 1), p, i + 1);
  }

  lemma LengthsAgree(s: string, out: string, org: Origins)
    requires Traces(s, out, org)
    ensures |out| == |org|
  {
  }

  lemma HeldSpace(a: Alphabet, keep: string -> bool, s: string, p: nat, i: nat, ro: Origins)
    requires p <= i < |s| && a.Structural(s[i]) && a.isSpace(s[i]) && Rewritten(a, keep, s, p, i + 1, true, ro)
    ensures Rewritten(a, keep, s, p, i, true, ro)
  {
    hide Traces, From, Blocked, HidesUnkept, Runs;
    assert s[i..][0] == s[i] && s[i..][1..] == s[i + 1..] && s[p..i] + [s[i]] == s[p..i + 1];
    RunsStep(a, s, i);
  }

  lemma AfterKept(a: Alphabet, keep: string -> bool, s: string, p: nat, i: nat, e: nat, masked: bool, ro: Origins)
    requires p <= i < e <= |s| && !a.Structural(s[i]) && e == i + CompoundEnd(a, s[i..]) && keep(s[i..e])
    requires Rewritten(a, keep, s, e, e, false, ro)
    ensures Rewritten(a, keep, s, p, i, masked, Stretch(p, e) + ro)
  {
    hide Traces, From, Blocked, HidesUnkept, Runs, CompoundEnd;
    var t := s[i..];
    assert t[..e - i] == s[i..e] && t[e - i..] == s[e..] && s[e..e] == "" && s[p..i] + s[i..e] == s[p..e];
    var rest := Allowed(a, keep, s[e..], false, "");
    LengthsAgree(s, rest, ro);
    CopyTrace(s, p, e, rest, ro);
    RunsStep(a, s, i);
    RunsStartLater(a, s, e);
    UnkeptLater(ro, keep, s, Runs(Bare(a), s, e), p, e);
    UnkeptCons(Stretch(p, e) + ro, keep, s, Span(i, e), Runs(Bare(a), s, e));
  }

  lemma AfterUnkept(a: Alphabet, keep: string -> bool, s: string, p: nat, i: nat, e: nat, masked: bool, ro: Origins)
    requires p <= i < e <= |s| && !a.Structural(s[i]) && e == i + CompoundEnd(a, s[i..]) && !keep(s[i..e])
    requires Rewritten(a, keep, s, e, e, true, ro)
    ensures Rewritten(a, keep, s, p, i, masked, if masked then ro else Stretch(p, i) + NoOrigin(3) + ro)
  {
    hide Traces, From, Blocked, HidesUnkept, Runs, CompoundEnd, Hides;
    var t := s[i..];
    assert t[..e - i] == s[i..e] && t[e - i..] == s[e..] && s[e..e] == "";
    var rest := Allowed(a, keep, s[e..], true, "");
    LengthsAgree(s, rest, ro);
    RunsStep(a, s, i);
    RunsStartLater(a, s, e);
    FromHides(ro, e, |s|, Span(i, e));
    if masked {
      FromWider(ro, e, |s|, p, |s|);
      UnkeptCons(ro, keep, s, Span(i, e), Runs(Bare(a), s, e));
    } else {
      MaskTrace(s, p, i, e, rest, ro);
      UnkeptLater(ro, keep, s, Runs(Bare(a), s, e), p, i);
      HidesLater(p, i, ro, Span(i, e));
      UnkeptCons(Stretch(p, i) + NoOrigin(3) + ro, keep, s, Span(i, e), Runs(Bare(a), s, e));
    }
  }

  /** The rewrite only leaves out and writes whole masks, and shows nothing of a compound that is not kept. */
  lemma {:induction false} AllowedTrace(a: Alphabet, keep: string -> bool, s: string, p: nat, i: nat, masked: bool)
    returns (org: Origins)
    requires p <= i <= |s|
    ensures Rewritten(a, keep, s, p, i, masked, org)
    decreases |s| - i
  {
    hide Rewritten, CompoundEnd;
    if i == |s| {
      RewrittenEnd(a, keep, s, p, masked);
      org := Stretch(p, i);
    } else if a.Structural(s[i]) {
      if masked && a.isSpace(s[i]) {
        org := AllowedTrace(a, keep, s, p, i + 1, true);
        HeldSpace(a, keep, s, p, i, org);
      } else {
        var ro := AllowedTrace(a, keep, s, i + 1, i + 1, false);
        AfterSeparator(a, keep, s, p, i, masked, ro);
        org := Stretch(p, i + 1) + ro;
      }
    } else {
      CompoundBounds(a, s[i..]);
      var e := i + CompoundEnd(a, s[i..]);
      if keep(s[i..e]) {
        var ro := AllowedTrace(a, keep, s, e, e, false);
        AfterKept(a, keep, s, p, i, e, masked, ro);
        org := Stretch(p, e) + ro;
      } else {
        var ro := AllowedTrace(a, keep, s, e, e, true);
        AfterUnkept(a, keep, s, p, i, e, masked, ro);
        org := if masked then ro else Stretch(p, i) + NoOrigin(3) + ro;
      }
    }
  }

  // ----- The two steps

  /** The text the bundle shows, from the text that the pattern masks leave. */
  ghost function Scrubbed(a: Alphabet, vocabulary: set<string>, values: seq<string>, s: string): string {
    var keep := c => KeepCompound(a, vocabulary, c);
    Allowed(a, keep, LiteralsMasked(a, WordsMasked(a, s, WordNames(a, values)), LiteralNames(a, values)), false, "")
  }

  method ScrubText(a: Alphabet, vocabulary: set<string>, values: seq<string>, s: string) returns (out: string)
    ensures out == Scrubbed(a, vocabulary, values, s)
  {
    hide LiteralsMasked, WordsMasked, WordNames, LiteralNames, KeepCompound, Allowed;
    var masked := ScrubValues(a, values, s);
    out := Allowlist.Allowlist(a, c => KeepCompound(a, vocabulary, c), masked);
  }

  lemma LiteralsTrace(a: Alphabet, s: string, names: set<Tokens>) returns (org: Origins)
    ensures Traces(s, LiteralsMasked(a, s, names), org)
  {
    hide Traces, From, Hides;
    var spans, words, ok := CharSpans(|s|), Chars(s), LiteralAccept(a, s);
    UnitSpansOrdered(spans, 0, |s|);
    ReadyStart(s, spans, words);
    var ms := Masks(names, words, ok, 0);
    MasksApart(names, words, ok, 0);
    ApartInside(names, words, ms, 0);
    CutsOrdered(spans, ms, 0, 0, |s|);
    org := ReplaceTrace(s, Cuts(spans, ms), 0);
  }

  /**
   * Wherever the words of a registered value stand in a row in a text, in any
   * case, the first of them does not come out of the scrubber: what comes out,
   * the characters of masks aside, stands in the text outside that word, in
   * that order.
   */
  lemma RegisteredNamesDoNotComeOut(a: Alphabet, vocabulary: set<string>, values: seq<string>, v: string, s: string,
                                    k: nat)
    returns (org: Origins)
    requires v in values && NameWords(a, v) != []
    requires k + |NameWords(a, v)| <= |WordsOf(a, s)| && WordsOf(a, s)[k..k + |NameWords(a, v)|] == NameWords(a, v)
    ensures var out, spans := Scrubbed(a, vocabulary, values, s), Runs(c => a.Word(c), s, 0);
            && k < |spans| && Traces(s, out, org) && Hides(org, spans[k])
            && Sub(Unmasked(out), Others(s, spans[k], |s|))
  {
    hide Traces, From, Hides, NameWords, WordNames, WordsMasked, LiteralsMasked, LiteralNames, KeepCompound, Sub;
    RegisteredNamesAreHidden(a, values, v, s, k);
    var spans := Runs(c => a.Word(c), s, 0);
    var ms := Masks(WordNames(a, values), WordsOf(a, s), Always(), 0);
    var mid := WordsMasked(a, s, WordNames(a, values));
    var first := ReplaceTrace(s, Cuts(spans, ms), 0);
    CoveredIsHidden(first, Cuts(spans, ms), spans[k]);
    var late := LiteralsMasked(a, mid, LiteralNames(a, values));
    var second := LiteralsTrace(a, mid, LiteralNames(a, values));
    var keep := c => KeepCompound(a, vocabulary, c);
    assert late[0..] == late && late[0..0] == "";
    var third := AllowedTrace(a, keep, late, 0, 0, false);
    TraceThrough(s, mid, first, late, second);
    TraceThrough(s, late, Through(first, second), Allowed(a, keep, late, false, ""), third);
    HiddenThrough(first, second, spans[k]);
    HiddenThrough(Through(first, second), third, spans[k]);
    org := Through(Through(first, second), third);
    AllFrom(s, Scrubbed(a, vocabulary, values, s), org);
    HiddenIsLeftOut(s, Scrubbed(a, vocabulary, values, s), org, spans[k], |s|);
  }

  lemma AllFrom(s: string, out: string, org: Origins)
    requires Traces(s, out, org)
    ensures From(org, 0, |s|)
  {
    forall i | 0 <= i < |org| && 0 <= org[i] ensures org[i] < |s| { assert Shows(s, out, org, i); }
  }

  lemma CoveredIsHidden(org: Origins, cuts: seq<Span>, span: Span)
    requires CoveredBy(cuts, span) && forall j :: 0 <= j < |cuts| ==> Hides(org, cuts[j])
    ensures Hides(org, span)
  {
    var j :| 0 <= j < |cuts| && cuts[j].start <= span.start && span.end <= cuts[j].end;
    assert Hides(org, cuts[j]);
  }

  /** Every maximal run of what comes out is kept, whatever went in. */
  lemma ScrubbedIsKept(a: Alphabet, vocabulary: set<string>, values: seq<string>, s: string)
    requires !a.isSpace('x')
    ensures var keep := c => KeepCompound(a, vocabulary, c);
            var out := Scrubbed(a, vocabulary, values, s);
            RunsKept(keep, out, Runs(Bare(a), out, 0))
  {
    hide LiteralsMasked, WordsMasked, WordNames, LiteralNames, KeepCompound, Allowed, RunsKept;
    OutputRunsKept(a, vocabulary, LiteralsMasked(a, WordsMasked(a, s, WordNames(a, values)), LiteralNames(a, values)));
  }
}
