// Characters as the support-bundle scrubber sees them.
module SupportText {
  import LowerCase

  /** The Unicode classes the scrubber asks for, and lower-casing. */
  datatype Alphabet = Alphabet(isLetter: char -> bool, isNumber: char -> bool, isSpace: char -> bool,
                               lower: char -> char) {
    predicate Alnum(c: char) { isLetter(c) || isNumber(c) }

    predicate Word(c: char) { Alnum(c) || c == '_' }

    /** Separators that split a value into compounds and stay visible. */
    predicate Structural(c: char) { isSpace(c) || c in ":,;\"'()[]{}=<>" }

    function Lower(s: string): string { LowerCase.Lower(lower, s) }
  }

  /** A stretch of text. */
  datatype Span = Span(start: nat, end: nat)

  /** The end of the run of characters of one class that starts at i. */
  function RunEnd(inClass: char -> bool, s: string, i: nat): (e: nat)
    requires i <= |s|
    ensures i <= e <= |s| && (e < |s| ==> !inClass(s[e]))
    ensures i < |s| && inClass(s[i]) ==> i < e
    decreases |s| - i
  {
    if i < |s| && inClass(s[i]) then RunEnd(inClass, s, i + 1) else i
  }

  lemma {:induction false} RunIsUniform(inClass: char -> bool, s: string, i: nat, k: nat)
    requires i <= |s| && i <= k < RunEnd(inClass, s, i)
    ensures inClass(s[k])
    decreases |s| - i
  {
    if i < k { RunIsUniform(inClass, s, i + 1, k); }
  }

  /** The maximal runs of one class from i on (a regular expression's matches). */
  function Runs(inClass: char -> bool, s: string, i: nat): seq<Span>
    requires i <= |s|
    decreases |s| - i
  {
    if i == |s| then []
    else if inClass(s[i]) then [Span(i, RunEnd(inClass, s, i))] + Runs(inClass, s, RunEnd(inClass, s, i))
    else Runs(inClass, s, i + 1)
  }

  /** Stretches in order, apart, and inside the text, from `last` on. */
  ghost predicate Ordered(spans: seq<Span>, last: nat, size: nat)
    decreases |spans|
  {
    if spans == [] then last <= size
    else last <= spans[0].start <= spans[0].end && Ordered(spans[1..], spans[0].end, size)
  }

  lemma {:induction false} OrderedWeaken(spans: seq<Span>, last: nat, last': nat, size: nat)
    requires Ordered(spans, last, size) && last' <= last
    ensures Ordered(spans, last', size)
  {
  }

  lemma {:induction false} RunsOrdered(inClass: char -> bool, s: string, i: nat)
    requires i <= |s|
    ensures Ordered(Runs(inClass, s, i), i, |s|)
    decreases |s| - i
  {
    if i < |s| {
      if inClass(s[i]) {
        RunsOrdered(inClass, s, RunEnd(inClass, s, i));
      } else {
        RunsOrdered(inClass, s, i + 1);
        OrderedWeaken(Runs(inClass, s, i + 1), i + 1, i, |s|);
      }
    }
  }

  /** A run cannot be extended: it is bounded by other characters or the ends, and holds only its class. */
  lemma {:induction false} RunsMaximal(inClass: char -> bool, s: string, i: nat, k: nat)
    requires i <= |s| && k < |Runs(inClass, s, i)| && (i == 0 || !inClass(s[i - 1]) || i == |s| || !inClass(s[i]))
    ensures var r := Runs(inClass, s, i)[k];
            && i <= r.start < r.end <= |s|
            && (forall c :: r.start <= c < r.end ==> inClass(s[c]))
            && (r.end < |s| ==> !inClass(s[r.end]))
            && (r.start > 0 ==> !inClass(s[r.start - 1]))
    decreases |s| - i
  {
    if inClass(s[i]) {
      var e := RunEnd(inClass, s, i);
      forall c | i <= c < e ensures inClass(s[c]) { RunIsUniform(inClass, s, i, c); }
      if k > 0 { RunsMaximal(inClass, s, e, k - 1); }
    } else {
      RunsMaximal(inClass, s, i + 1, k);
    }
  }

  /** Every character of the class lies in one of the runs. */
  lemma {:induction false} RunsCover(inClass: char -> bool, s: string, i: nat, c: nat) returns (k: nat)
    requires i <= c < |s| && inClass(s[c])
    ensures k < |Runs(inClass, s, i)| && Runs(inClass, s, i)[k].start <= c < Runs(inClass, s, i)[k].end
    decreases |s| - i
  {
    if inClass(s[i]) {
      var e := RunEnd(inClass, s, i);
      if c < e {
        k := 0;
      } else {
        var m := RunsCover(inClass, s, e, c);
        k := m + 1;
      }
    } else {
      k := RunsCover(inClass, s, i + 1, c);
    }
  }

  /** The text with each stretch replaced by [x]; what lies between them is unchanged. */
  function Replace(s: string, cuts: seq<Span>, last: nat): string
    requires Ordered(cuts, last, |s|)
    decreases |cuts|
  {
    OrderedBound(cuts, last, |s|);
    if cuts == [] then s[last..]
    else s[last..cuts[0].start] + "[x]" + Replace(s, cuts[1..], cuts[0].end)
  }

  lemma {:induction false} OrderedBound(spans: seq<Span>, last: nat, size: nat)
    requires Ordered(spans, last, size)
    ensures last <= size
    ensures spans != [] ==> spans[0].end <= size
    decreases |spans|
  {
    if spans != [] { OrderedBound(spans[1..], spans[0].end, size); }
  }

  /** Any later stretch starts after an earlier one ends. */
  lemma {:induction false} OrderedAt(spans: seq<Span>, last: nat, size: nat, i: nat)
    requires Ordered(spans, last, size) && i < |spans|
    ensures last <= spans[i].start <= spans[i].end <= size
    ensures i > 0 ==> spans[0].end <= spans[i].start
    decreases |spans|
  {
    OrderedBound(spans, last, size);
    if i > 0 { OrderedAt(spans[1..], spans[0].end, size, i - 1); }
  }

  lemma {:induction false} OrderedPair(spans: seq<Span>, last: nat, size: nat, i: nat, j: nat)
    requires Ordered(spans, last, size) && i < j < |spans|
    ensures spans[i].end <= spans[j].start
    decreases |spans|
  {
    if i == 0 {
      OrderedAt(spans, last, size, j);
    } else {
      OrderedPair(spans[1..], spans[0].end, size, i - 1, j - 1);
    }
  }

  lemma JoinNothing(a: string)
    ensures "" + a == a
  {
  }
}
