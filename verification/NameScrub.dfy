// Masking known names: the text's words are walked against the trie, each
// longest known name found becomes [x], and a second pass masks the names that
// have no letters or digits, character by character.
module NameScrub {
  import opened SupportText
  import opened NameTrie

  /** A stretch of tokens to mask. */
  datatype Mask = Mask(first: nat, count: nat)

  /** Which stretch lengths are acceptable at which token. */
  type Accept = (nat, nat) -> bool

  function At(ok: Accept, i: nat): nat -> bool { (m: nat) => ok(i, m) }

  /** The stretches masked from token i on: the longest known name at each token, then on behind it. */
  ghost function Masks(names: set<Tokens>, words: Tokens, ok: Accept, i: nat): seq<Mask>
    requires i <= |words|
    decreases |words| - i
  {
    if i == |words| then []
    else
      var n := Longest(names, words, i, |words| - i, At(ok, i));
      if n == 0 then Masks(names, words, ok, i + 1)
      else [Mask(i, n)] + Masks(names, words, ok, i + n)
  }

  /** Masked stretches are in order, apart, and each a known name. */
  ghost predicate Apart(names: set<Tokens>, words: Tokens, ms: seq<Mask>, i: nat)
    decreases |ms|
  {
    ms == [] ||
    (i <= ms[0].first && ms[0].count > 0 && KnownHere(names, words, ms[0].first, ms[0].count)
     && Apart(names, words, ms[1..], ms[0].first + ms[0].count))
  }

  lemma {:induction false} ApartWeaken(names: set<Tokens>, words: Tokens, ms: seq<Mask>, i: nat, i': nat)
    requires Apart(names, words, ms, i) && i' <= i
    ensures Apart(names, words, ms, i')
  {
  }

  lemma {:induction false} MasksApart(names: set<Tokens>, words: Tokens, ok: Accept, i: nat)
    requires i <= |words|
    ensures Apart(names, words, Masks(names, words, ok, i), i)
    decreases |words| - i
  {
    hide Longest, KnownHere;
    if i < |words| {
      var n := Longest(names, words, i, |words| - i, At(ok, i));
      if n == 0 {
        MasksApart(names, words, ok, i + 1);
        ApartWeaken(names, words, Masks(names, words, ok, i + 1), i + 1, i);
      } else {
        var rest := Masks(names, words, ok, i + n);
        MasksApart(names, words, ok, i + n);
        assert ([Mask(i, n)] + rest)[1..] == rest;
      }
    }
  }

  ghost predicate InMask(ms: seq<Mask>, k: nat) {
    exists j :: 0 <= j < |ms| && ms[j].first <= k < ms[j].first + ms[j].count
  }

  lemma InMaskCons(m: Mask, ms: seq<Mask>, k: nat)
    ensures InMask([m] + ms, k) <==> m.first <= k < m.first + m.count || InMask(ms, k)
  {
    var all := [m] + ms;
    if InMask(ms, k) {
      var j :| 0 <= j < |ms| && ms[j].first <= k < ms[j].first + ms[j].count;
      assert all[j + 1] == ms[j];
    }
    if m.first <= k < m.first + m.count { assert all[0] == m; }
    if InMask(all, k) && !(m.first <= k < m.first + m.count) {
      var j :| 0 <= j < |all| && all[j].first <= k < all[j].first + all[j].count;
      assert ms[j - 1] == all[j];
    }
  }

  lemma NameIsFound(names: set<Tokens>, words: Tokens, ok: Accept, i: nat, m: nat)
    requires 0 < m && KnownHere(names, words, i, m) && ok(i, m)
    ensures Longest(names, words, i, |words| - i, At(ok, i)) >= m
  {
    hide Longest;
    if Longest(names, words, i, |words| - i, At(ok, i)) < m {
      LongestIsLongest(names, words, i, |words| - i, At(ok, i), m);
    }
  }

  /** The first token of every occurrence of a known name is masked. */
  lemma {:induction false} MasksCover(names: set<Tokens>, words: Tokens, ok: Accept, i: nat, k: nat, m: nat)
    requires i <= k && 0 < m && KnownHere(names, words, k, m) && ok(k, m)
    requires k < |words|
    ensures InMask(Masks(names, words, ok, i), k)
    decreases |words| - i
  {
    hide InMask, Longest, KnownHere;
    var n := Longest(names, words, i, |words| - i, At(ok, i));
    if i == k { NameIsFound(names, words, ok, i, m); }
    if n == 0 {
      MasksCover(names, words, ok, i + 1, k, m);
    } else {
      InMaskCons(Mask(i, n), Masks(names, words, ok, i + n), k);
      if i + n <= k { MasksCover(names, words, ok, i + n, k, m); }
    }
  }

  // ----- From tokens to text

  /** The text stretches of masked tokens. */
  function Cuts(spans: seq<Span>, ms: seq<Mask>): seq<Span>
    requires forall j :: 0 <= j < |ms| ==> ms[j].count > 0 && ms[j].first + ms[j].count <= |spans|
    decreases |ms|
  {
    if ms == [] then []
    else [Cut(spans, ms[0])] + Cuts(spans, ms[1..])
  }

  function Cut(spans: seq<Span>, m: Mask): Span
    requires m.count > 0 && m.first + m.count <= |spans|
  {
    Span(spans[m.first].start, spans[m.first + m.count - 1].end)
  }

  ghost predicate Inside(ms: seq<Mask>, i: nat, n: nat)
    decreases |ms|
  {
    ms == [] ||
    (i <= ms[0].first && ms[0].count > 0 && ms[0].first + ms[0].count <= n
     && Inside(ms[1..], ms[0].first + ms[0].count, n))
  }

  lemma {:induction false} ApartInside(names: set<Tokens>, words: Tokens, ms: seq<Mask>, i: nat)
    requires Apart(names, words, ms, i)
    ensures Inside(ms, i, |words|)
    decreases |ms|
  {
    if ms != [] { ApartInside(names, words, ms[1..], ms[0].first + ms[0].count); }
  }

  lemma {:induction false} InsideEach(ms: seq<Mask>, i: nat, n: nat)
    requires Inside(ms, i, n)
    ensures forall j :: 0 <= j < |ms| ==> ms[j].count > 0 && ms[j].first + ms[j].count <= n
    decreases |ms|
  {
    if ms != [] { InsideEach(ms[1..], ms[0].first + ms[0].count, n); }
  }

  /** Cuts of ordered tokens are ordered. */
  lemma {:induction false} CutsOrdered(spans: seq<Span>, ms: seq<Mask>, i: nat, last: nat, size: nat)
    requires Ordered(spans, 0, size) && Inside(ms, i, |spans|) && i <= |spans| && last <= size
    requires i < |spans| ==> last <= spans[i].start
    ensures forall j :: 0 <= j < |ms| ==> ms[j].count > 0 && ms[j].first + ms[j].count <= |spans|
    ensures Ordered(Cuts(spans, ms), last, size)
    decreases |ms|
  {
    InsideEach(ms, i, |spans|);
    if ms != [] {
      var a, b := ms[0].first, ms[0].first + ms[0].count;
      OrderedAt(spans, 0, size, a);
      OrderedAt(spans, 0, size, b - 1);
      if i < a { OrderedAt(spans, 0, size, i); OrderedPair(spans, 0, size, i, a); }
      if a < b - 1 { OrderedPair(spans, 0, size, a, b - 1); }
      if b < |spans| { OrderedPair(spans, 0, size, b - 1, b); }
      CutsOrdered(spans, ms[1..], b, spans[b - 1].end, size);
      assert Cuts(spans, ms)[1..] == Cuts(spans, ms[1..]);
    }
  }

  /** A place to go on from: nothing before `last` is touched again. */
  ghost predicate Ready(s: string, spans: seq<Span>, words: Tokens, i: nat, last: nat) {
    && Ordered(spans, 0, |s|) && |words| == |spans| && i <= |spans| && last <= |s|
    && (i < |spans| ==> last <= spans[i].start)
  }

  /** The text from `last` on, with what is masked from token i on replaced. */
  ghost function MaskedFrom(s: string, spans: seq<Span>, names: set<Tokens>, words: Tokens, ok: Accept, i: nat,
                            last: nat): string
    requires Ready(s, spans, words, i, last)
  {
    var ms := Masks(names, words, ok, i);
    MasksApart(names, words, ok, i);
    ApartInside(names, words, ms, i);
    CutsOrdered(spans, ms, i, last, |s|);
    Replace(s, Cuts(spans, ms), last)
  }

  /** The whole text with every masked stretch replaced. */
  ghost function Masked(s: string, spans: seq<Span>, names: set<Tokens>, words: Tokens, ok: Accept): string
    requires Ready(s, spans, words, 0, 0)
  {
    MaskedFrom(s, spans, names, words, ok, 0, 0)
  }

  lemma ReadyStart(s: string, spans: seq<Span>, words: Tokens)
    requires Ordered(spans, 0, |s|) && |words| == |spans|
    ensures Ready(s, spans, words, 0, 0)
  {
    if spans != [] { OrderedAt(spans, 0, |s|, 0); }
  }

  lemma SkipToken(s: string, spans: seq<Span>, names: set<Tokens>, words: Tokens, ok: Accept, i: nat, last: nat)
    requires Ready(s, spans, words, i, last) && i < |words| && Longest(names, words, i, |words| - i, At(ok, i)) == 0
    ensures Ready(s, spans, words, i + 1, last)
    ensures MaskedFrom(s, spans, names, words, ok, i, last) == MaskedFrom(s, spans, names, words, ok, i + 1, last)
  {
    hide Longest, At;
    if i + 1 < |spans| {
      OrderedAt(spans, 0, |s|, i);
      OrderedPair(spans, 0, |s|, i, i + 1);
    }
  }

  lemma MaskToken(s: string, spans: seq<Span>, names: set<Tokens>, words: Tokens, ok: Accept, i: nat, last: nat, n: nat)
    requires Ready(s, spans, words, i, last) && i < |words| && Longest(names, words, i, |words| - i, At(ok, i)) == n > 0
    ensures spans[i].start <= |s| && Ready(s, spans, words, i + n, spans[i + n - 1].end)
    ensures MaskedFrom(s, spans, names, words, ok, i, last) ==
            s[last..spans[i].start] + "[x]" + MaskedFrom(s, spans, names, words, ok, i + n, spans[i + n - 1].end)
  {
    hide Longest, At;
    OrderedAt(spans, 0, |s|, i);
    OrderedAt(spans, 0, |s|, i + n - 1);
    if i + n < |spans| { OrderedPair(spans, 0, |s|, i + n - 1, i + n); }
    var rest := Masks(names, words, ok, i + n);
    MasksApart(names, words, ok, i);
    ApartInside(names, words, Masks(names, words, ok, i), i);
    CutsOrdered(spans, Masks(names, words, ok, i), i, last, |s|);
    assert Masks(names, words, ok, i) == [Mask(i, n)] + rest;
    CutsCons(spans, Mask(i, n), rest);
  }

  lemma CutsCons(spans: seq<Span>, m: Mask, rest: seq<Mask>)
    requires forall j :: 0 <= j < |[m] + rest| ==>
               ([m] + rest)[j].count > 0 && ([m] + rest)[j].first + ([m] + rest)[j].count <= |spans|
    ensures m.count > 0 && m.first + m.count <= |spans|
    ensures forall j :: 0 <= j < |rest| ==> rest[j].count > 0 && rest[j].first + rest[j].count <= |spans|
    ensures Cuts(spans, [m] + rest) == [Cut(spans, m)] + Cuts(spans, rest)
    ensures Cuts(spans, [m] + rest)[1..] == Cuts(spans, rest)
  {
    assert ([m] + rest)[0] == m;
    assert ([m] + rest)[1..] == rest;
  }

  /** Walks the tokens, masking the longest known name at each. */
  method MaskTokens(trie: Trie, s: string, spans: seq<Span>, words: Tokens, ok: Accept) returns (out: string)
    requires trie.Valid() && Ready(s, spans, words, 0, 0)
    ensures out == Masked(s, spans, trie.Names(), words, ok)
  {
    hide MaskedFrom, Longest, Ready, At, Tree;
    out := "";
    var last, i := 0, 0;
    ghost var names := trie.Names();
    ReadyBounds(s, spans, words, 0, 0);
    JoinNothing(MaskedFrom(s, spans, names, words, ok, 0, 0));
    while i < |words|
      invariant 0 <= i <= |words| && 0 <= last <= |s| && |words| == |spans| && Ready(s, spans, words, i, last)
      invariant out + MaskedFrom(s, spans, names, words, ok, i, last) == Masked(s, spans, names, words, ok)
    {
      var n := trie.FindLongest(words, i, At(ok, i));
      if n == 0 {
        SkipToken(s, spans, names, words, ok, i, last);
        i := i + 1;
      } else {
        MaskToken(s, spans, names, words, ok, i, last, n);
        ReadyBounds(s, spans, words, i, last);
        ReadyBounds(s, spans, words, i + n, spans[i + n - 1].end);
        JoinText(out, s[last..spans[i].start], MaskedFrom(s, spans, names, words, ok, i + n, spans[i + n - 1].end));
        out := out + s[last..spans[i].start] + "[x]";
        last := spans[i + n - 1].end;
        i := i + n;
      }
    }
    MaskedEnd(s, spans, names, words, ok, i, last);
    out := out + s[last..];
  }

  lemma JoinText(a: string, b: string, c: string)
    ensures a + (b + "[x]" + c) == (a + b + "[x]") + c
  {
  }

  lemma ReadyBounds(s: string, spans: seq<Span>, words: Tokens, i: nat, last: nat)
    requires Ready(s, spans, words, i, last)
    ensures |words| == |spans| && last <= |s| && (i < |spans| ==> last <= spans[i].start)
  {
  }

  lemma MaskedEnd(s: string, spans: seq<Span>, names: set<Tokens>, words: Tokens, ok: Accept, i: nat, last: nat)
    requires Ready(s, spans, words, i, last) && i == |words|
    ensures MaskedFrom(s, spans, names, words, ok, i, last) == s[last..]
  {
  }

  // ----- What the masked text hides

  ghost predicate CoveredBy(cuts: seq<Span>, span: Span) {
    exists j :: 0 <= j < |cuts| && cuts[j].start <= span.start && span.end <= cuts[j].end
  }

  lemma CoveredCons(c: Span, cuts: seq<Span>, span: Span)
    requires (c.start <= span.start && span.end <= c.end) || CoveredBy(cuts, span)
    ensures CoveredBy([c] + cuts, span)
  {
    var all := [c] + cuts;
    if c.start <= span.start && span.end <= c.end {
      assert all[0] == c;
    } else {
      var j :| 0 <= j < |cuts| && cuts[j].start <= span.start && span.end <= cuts[j].end;
      assert all[j + 1] == cuts[j];
    }
  }

  /** A masked token's text lies inside a replaced stretch. */
  lemma {:induction false} MaskedTextCovered(spans: seq<Span>, ms: seq<Mask>, k: nat, size: nat)
    requires Ordered(spans, 0, size) && k < |spans| && InMask(ms, k)
    requires forall j :: 0 <= j < |ms| ==> ms[j].count > 0 && ms[j].first + ms[j].count <= |spans|
    ensures CoveredBy(Cuts(spans, ms), spans[k])
    decreases |ms|
  {
    hide CoveredBy;
    var m := ms[0];
    assert ms == [m] + ms[1..];
    InMaskCons(m, ms[1..], k);
    if m.first <= k < m.first + m.count {
      OrderedAt(spans, 0, size, k);
      OrderedAt(spans, 0, size, m.first);
      if m.first < k { OrderedPair(spans, 0, size, m.first, k); }
      if k < m.first + m.count - 1 {
        OrderedPair(spans, 0, size, k, m.first + m.count - 1);
        OrderedAt(spans, 0, size, m.first + m.count - 1);
      }
    } else {
      MaskedTextCovered(spans, ms[1..], k, size);
    }
    CoveredCons(Cut(spans, m), Cuts(spans, ms[1..]), spans[k]);
  }

  /**
   * Wherever a known name stands in the text, its first word is inside a
   * replaced stretch; stretches are apart, each the text of a known name, and
   * everything outside them is unchanged.
   */
  lemma NamesAreHidden(s: string, spans: seq<Span>, names: set<Tokens>, words: Tokens, ok: Accept, k: nat, m: nat)
    requires Ready(s, spans, words, 0, 0) && k < |words| && 0 < m && KnownHere(names, words, k, m) && ok(k, m)
    ensures var ms := Masks(names, words, ok, 0);
            && Apart(names, words, ms, 0)
            && (forall j :: 0 <= j < |ms| ==> ms[j].count > 0 && ms[j].first + ms[j].count <= |spans|)
            && Ordered(Cuts(spans, ms), 0, |s|)
            && Masked(s, spans, names, words, ok) == Replace(s, Cuts(spans, ms), 0)
            && CoveredBy(Cuts(spans, ms), spans[k])
  {
    hide KnownHere, CoveredBy;
    var ms := Masks(names, words, ok, 0);
    MasksApart(names, words, ok, 0);
    ApartInside(names, words, ms, 0);
    CutsOrdered(spans, ms, 0, 0, |s|);
    MasksCover(names, words, ok, 0, k, m);
    MaskedTextCovered(spans, ms, k, |s|);
  }

  // ----- The scrubber

  function WordsAt(a: Alphabet, s: string, spans: seq<Span>): (ws: Tokens)
    requires forall i :: 0 <= i < |spans| ==> spans[i].start <= spans[i].end <= |s|
    ensures |ws| == |spans|
  {
    seq(|spans|, i requires 0 <= i < |spans| => a.Lower(s[spans[i].start..spans[i].end]))
  }

  lemma SpansFit(spans: seq<Span>, last: nat, size: nat)
    requires Ordered(spans, last, size)
    ensures forall i :: 0 <= i < |spans| ==> spans[i].start <= spans[i].end <= size
  {
    forall i | 0 <= i < |spans| ensures spans[i].start <= spans[i].end <= size { OrderedAt(spans, last, size, i); }
  }

  /** The words of a text, lower-cased. */
  function WordsOf(a: Alphabet, s: string): Tokens {
    RunsOrdered(c => a.Word(c), s, 0);
    SpansFit(Runs(c => a.Word(c), s, 0), 0, |s|);
    WordsAt(a, s, Runs(c => a.Word(c), s, 0))
  }

  function Always(): Accept { (i: nat, m: nat) => true }

  /** One token per character. */
  function Chars(s: string): (ws: Tokens)
    ensures |ws| == |s|
  {
    seq(|s|, i requires 0 <= i < |s| => [s[i]])
  }

  function CharSpans(n: nat): (spans: seq<Span>)
    ensures |spans| == n && forall i :: 0 <= i < n ==> spans[i] == Span(i, i + 1)
  {
    seq(n, i requires 0 <= i < n => Span(i, i + 1))
  }

  predicate AllStructural(a: Alphabet, s: string) { forall i :: 0 <= i < |s| ==> a.Structural(s[i]) }

  /** A literal is masked between separators or the ends, or anywhere when it is all separators. */
  predicate LiteralFits(a: Alphabet, s: string, i: nat, m: nat) {
    i + m <= |s| &&
    (|| ((i == 0 || a.Structural(s[i - 1])) && (i + m == |s| || a.Structural(s[i + m])))
     || AllStructural(a, s[i..i + m]))
  }

  function LiteralAccept(a: Alphabet, s: string): Accept { (i: nat, m: nat) => LiteralFits(a, s, i, m) }

  lemma {:induction false} UnitSpansOrdered(spans: seq<Span>, from: nat, size: nat)
    requires from + |spans| == size && forall i :: 0 <= i < |spans| ==> spans[i] == Span(from + i, from + i + 1)
    ensures Ordered(spans, from, size)
    decreases |spans|
  {
    if spans != [] { UnitSpansOrdered(spans[1..], from + 1, size); }
  }

  /** The names known to a scrubber. */
  datatype Known = Known(words: Trie, literals: Trie)

  /** The text with known words masked. */
  ghost function WordsMasked(a: Alphabet, s: string, names: set<Tokens>): string {
    RunsOrdered(c => a.Word(c), s, 0);
    SpansFit(Runs(c => a.Word(c), s, 0), 0, |s|);
    ReadyStart(s, Runs(c => a.Word(c), s, 0), WordsOf(a, s));
    Masked(s, Runs(c => a.Word(c), s, 0), names, WordsOf(a, s), Always())
  }

  /** The text with known literals masked. */
  ghost function LiteralsMasked(a: Alphabet, s: string, names: set<Tokens>): string {
    UnitSpansOrdered(CharSpans(|s|), 0, |s|);
    ReadyStart(s, CharSpans(|s|), Chars(s));
    Masked(s, CharSpans(|s|), names, Chars(s), LiteralAccept(a, s))
  }

  method ScrubWords(a: Alphabet, words: Trie, s: string) returns (out: string)
    requires words.Valid()
    ensures out == WordsMasked(a, s, words.Names())
  {
    hide Masked, Tree, NamesOf, Ordered, Ready, WordsAt;
    RunsOrdered(c => a.Word(c), s, 0);
    SpansFit(Runs(c => a.Word(c), s, 0), 0, |s|);
    ReadyStart(s, Runs(c => a.Word(c), s, 0), WordsOf(a, s));
    out := MaskTokens(words, s, Runs(c => a.Word(c), s, 0), WordsOf(a, s), Always());
  }

  method ScrubLiterals(a: Alphabet, literals: Trie, s: string) returns (out: string)
    requires literals.Valid()
    ensures out == LiteralsMasked(a, s, literals.Names())
  {
    hide Masked, Tree, NamesOf, Ordered, Ready, LiteralAccept;
    UnitSpansOrdered(CharSpans(|s|), 0, |s|);
    ReadyStart(s, CharSpans(|s|), Chars(s));
    out := MaskTokens(literals, s, CharSpans(|s|), Chars(s), LiteralAccept(a, s));
  }

  method Scrub(a: Alphabet, known: Known, s: string) returns (out: string)
    requires known.words.Valid() && known.literals.Valid()
    ensures out == LiteralsMasked(a, WordsMasked(a, s, known.words.Names()), known.literals.Names())
  {
    hide WordsMasked, LiteralsMasked, Tree, NamesOf;
    var masked := ScrubWords(a, known.words, s);
    out := ScrubLiterals(a, known.literals, masked);
  }

  // ----- Collecting the names

  /** The words of a text as they stand. */
  function WordTexts(a: Alphabet, s: string): (ws: Tokens) {
    RunsOrdered(c => a.Word(c), s, 0);
    SpansFit(Runs(c => a.Word(c), s, 0), 0, |s|);
    var spans := Runs(c => a.Word(c), s, 0);
    seq(|spans|, i requires 0 <= i < |spans| => s[spans[i].start..spans[i].end])
  }

  function Trim(a: Alphabet, s: string): string
    decreases |s|
  {
    if s == [] then s
    else if a.isSpace(s[0]) then Trim(a, s[1..])
    else if a.isSpace(s[|s| - 1]) then Trim(a, s[..|s| - 1])
    else s
  }

  /** The tokens a value is known by as words; none if it has no letters, digits or underscores. */
  function NameWords(a: Alphabet, v: string): Tokens { WordTexts(a, a.Lower(v)) }

  /** A value known by its characters: no words in it, and more than nothing or a lone separator. */
  predicate IsLiteral(a: Alphabet, v: string) {
    var t := Trim(a, v);
    NameWords(a, v) == [] && t != [] && !(|t| == 1 && a.Structural(t[0]))
  }

  ghost function WordNames(a: Alphabet, values: seq<string>): set<Tokens> {
    set v | v in values && NameWords(a, v) != [] :: NameWords(a, v)
  }

  ghost function LiteralNames(a: Alphabet, values: seq<string>): set<Tokens> {
    set v | v in values && IsLiteral(a, v) :: Chars(Trim(a, v))
  }

  lemma OneMoreName(a: Alphabet, values: seq<string>, v: string)
    ensures WordNames(a, values + [v]) ==
            WordNames(a, values) + (if NameWords(a, v) != [] then {NameWords(a, v)} else {})
    ensures LiteralNames(a, values + [v]) ==
            LiteralNames(a, values) + (if IsLiteral(a, v) then {Chars(Trim(a, v))} else {})
  {
    hide NameWords, IsLiteral, Trim, Chars;
    assert forall x :: x in values + [v] <==> x in values || x == v;
  }

  /** Two tries that share no node. */
  ghost predicate Separate(words: Trie, literals: Trie)
    reads words, literals, words.nodes, literals.nodes
  {
    words.Valid() && literals.Valid() && words != literals && words.nodes !! literals.nodes
  }

  /** Adds one value to the trie it belongs to. */
  method AddValue(a: Alphabet, words: Trie, literals: Trie, v: string)
    requires Separate(words, literals)
    modifies words, words.nodes, literals, literals.nodes
    ensures Separate(words, literals)
    ensures fresh(words.nodes - old(words.nodes)) && fresh(literals.nodes - old(literals.nodes))
    ensures words.Names() == old(words.Names()) + if NameWords(a, v) != [] then {NameWords(a, v)} else {}
    ensures literals.Names() == old(literals.Names()) + if IsLiteral(a, v) then {Chars(Trim(a, v))} else {}
  {
    hide NameWords, IsLiteral, Trim, Chars, Tree, NamesOf;
    OneOrOther(a, v);
    var ws := NameWords(a, v);
    if IsLiteral(a, v) {
      literals.Add(Chars(Trim(a, v)));
    } else if |ws| > 0 {
      words.Add(ws);
    }
  }

  /** The two tries of the given values. */
  method NewKnown(a: Alphabet, values: seq<string>) returns (known: Known)
    ensures known.words.Valid() && known.words.Names() == WordNames(a, values)
    ensures known.literals.Valid() && known.literals.Names() == LiteralNames(a, values)
  {
    hide NameWords, IsLiteral, Trim, Chars, Tree, NamesOf;
    var words := new Trie();
    var literals := new Trie();
    NoNames(a);
    for i := 0 to |values|
      invariant Separate(words, literals)
      invariant words.Names() == WordNames(a, values[..i]) && literals.Names() == LiteralNames(a, values[..i])
      invariant fresh(words) && fresh(literals) && fresh(words.nodes) && fresh(literals.nodes)
    {
      hide WordNames, LiteralNames;
      assert values[..i + 1] == values[..i] + [values[i]];
      OneMoreName(a, values[..i], values[i]);
      AddValue(a, words, literals, values[i]);
    }
    assert values[..|values|] == values;
    known := Known(words, literals);
  }

  /** The scrubber as the bundle uses it: on the values the server knows. */
  method ScrubValues(a: Alphabet, values: seq<string>, s: string) returns (out: string)
    ensures out == LiteralsMasked(a, WordsMasked(a, s, WordNames(a, values)), LiteralNames(a, values))
  {
    hide WordNames, LiteralNames, Tree, NamesOf, LiteralsMasked, WordsMasked;
    var known := NewKnown(a, values);
    out := Scrub(a, known, s);
  }

  /**
   * For every registered value with words in it: wherever those words stand in
   * a row in a text, in any case, the first of them lies in a stretch of the
   * text that the word pass replaces, and what lies outside is unchanged.
   */
  lemma RegisteredNamesAreHidden(a: Alphabet, values: seq<string>, v: string, s: string, k: nat)
    requires v in values && NameWords(a, v) != []
    requires k + |NameWords(a, v)| <= |WordsOf(a, s)| && WordsOf(a, s)[k..k + |NameWords(a, v)|] == NameWords(a, v)
    ensures var spans := Runs(c => a.Word(c), s, 0);
            var ms := Masks(WordNames(a, values), WordsOf(a, s), Always(), 0);
            && k < |spans|
            && (forall j :: 0 <= j < |ms| ==> ms[j].count > 0 && ms[j].first + ms[j].count <= |spans|)
            && Ordered(Cuts(spans, ms), 0, |s|) && CoveredBy(Cuts(spans, ms), spans[k])
            && WordsMasked(a, s, WordNames(a, values)) == Replace(s, Cuts(spans, ms), 0)
  {
    hide NameWords, CoveredBy;
    var names, words, spans := WordNames(a, values), WordsOf(a, s), Runs(c => a.Word(c), s, 0);
    RunsOrdered(c => a.Word(c), s, 0);
    SpansFit(spans, 0, |s|);
    ReadyStart(s, spans, words);
    assert NameWords(a, v) in names;
    assert KnownHere(names, words, k, |NameWords(a, v)|);
    NamesAreHidden(s, spans, names, words, Always(), k, |NameWords(a, v)|);
  }

  lemma OneOrOther(a: Alphabet, v: string)
    ensures IsLiteral(a, v) ==> NameWords(a, v) == []
  {
    hide NameWords, Trim;
  }

  lemma NoNames(a: Alphabet)
    ensures WordNames(a, []) == {} && LiteralNames(a, []) == {}
  {
  }

  /** With nothing known the text is unchanged. */
  lemma NothingKnown(s: string, spans: seq<Span>, words: Tokens, ok: Accept)
    requires Ready(s, spans, words, 0, 0)
    ensures Masked(s, spans, {}, words, ok) == s
  {
    NoMasks(words, ok, 0);
    assert s[0..] == s;
  }

  lemma {:induction false} NoMasks(words: Tokens, ok: Accept, i: nat)
    requires i <= |words|
    ensures Masks({}, words, ok, i) == []
    decreases |words| - i
  {
    if i < |words| {
      NoMasks(words, ok, i + 1);
      LongestShort({}, words, i, 0, |words| - i, At(ok, i));
    }
  }
}
