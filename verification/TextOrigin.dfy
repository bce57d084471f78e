// Where the characters of a scrubbed text come from: each stands for one of the
// input, in order, or is a character of a mask that the scrubber wrote.
module TextOrigin {
  import opened SupportText
  import opened Subsequence

  /** The origin of each character of a text: a position of the input, or none (below zero). */
  type Origins = seq<int>

  /** The origins tell the truth, and come in order. */
  ghost predicate Traces(s: string, out: string, org: Origins) {
    && |org| == |out|
    && (forall i :: 0 <= i < |org| ==> Shows(s, out, org, i))
    && (forall i, j :: 0 <= i < j < |org| ==> Ascend(org[i], org[j]))
  }

  const MASK: string := "[x]"

  predicate IsMask(c: char) { c == '[' || c == 'x' || c == ']' }

  /** A character with an origin is the one there; a character with none is of a mask. */
  predicate Shows(s: string, out: string, org: Origins, i: nat)
    requires i < |org| == |out|
  {
    if 0 <= org[i] then org[i] < |s| && out[i] == s[org[i]] else IsMask(out[i])
  }

  predicate Ascend(a: int, b: int) { 0 <= a && 0 <= b ==> a < b }

  /** All come from this stretch of the input. */
  ghost predicate From(org: Origins, lo: nat, hi: nat) {
    forall i :: 0 <= i < |org| && 0 <= org[i] ==> lo <= org[i] < hi
  }

  lemma TraceJoin(s: string, a: string, ao: Origins, b: string, bo: Origins, lo: nat, mid: nat, hi: nat)
    requires Traces(s, a, ao) && From(ao, lo, mid) && Traces(s, b, bo) && From(bo, mid, hi) && lo <= mid <= hi
    ensures Traces(s, a + b, ao + bo) && From(ao + bo, lo, hi)
  {
    var org, out := ao + bo, a + b;
    forall i | 0 <= i < |org| ensures Shows(s, out, org, i) {
      if i < |ao| {
        assert Shows(s, a, ao, i);
      } else {
        assert org[i] == bo[i - |ao|] && Shows(s, b, bo, i - |ao|);
      }
    }
    forall i, j | 0 <= i < j < |org| ensures Ascend(org[i], org[j]) {
      if j < |ao| {
        assert Ascend(ao[i], ao[j]);
      } else if |ao| <= i {
        assert Ascend(bo[i - |ao|], bo[j - |ao|]);
      }
    }
  }

  function Stretch(lo: nat, hi: nat): Origins
    requires lo <= hi
  {
    seq(hi - lo, i => lo + i)
  }

  lemma TraceCopy(s: string, lo: nat, hi: nat)
    requires lo <= hi <= |s|
    ensures Traces(s, s[lo..hi], Stretch(lo, hi)) && From(Stretch(lo, hi), lo, hi)
  {
  }

  function NoOrigin(n: nat): Origins { seq(n, _ => -1) }

  lemma TraceMask(s: string, lo: nat, hi: nat)
    ensures Traces(s, MASK, NoOrigin(3)) && From(NoOrigin(3), lo, hi)
  {
  }

  /** What has no origin comes in whole masks. */
  ghost predicate Blocked(out: string, org: Origins)
    requires |out| == |org|
  {
    || out == []
    || (0 <= org[0] && Blocked(out[1..], org[1..]))
    || (3 <= |out| && out[..3] == MASK && org[..3] == NoOrigin(3) && Blocked(out[3..], org[3..]))
  }

  lemma {:induction false} BlockedJoin(a: string, ao: Origins, b: string, bo: Origins)
    requires |a| == |ao| && |b| == |bo| && Blocked(a, ao) && Blocked(b, bo)
    ensures Blocked(a + b, ao + bo)
    decreases |a|
  {
    if a == [] {
      assert a + b == b && ao + bo == bo;
    } else if 0 <= ao[0] && Blocked(a[1..], ao[1..]) {
      BlockedJoin(a[1..], ao[1..], b, bo);
      BlockedOne(a, ao, b, bo);
    } else {
      BlockedJoin(a[3..], ao[3..], b, bo);
      BlockedThree(a, ao, b, bo);
    }
  }

  lemma CutJoin<T>(a: seq<T>, b: seq<T>, n: nat)
    requires n <= |a|
    ensures (a + b)[..n] == a[..n] && (a + b)[n..] == a[n..] + b
  {
  }

  lemma BlockedOne(a: string, ao: Origins, b: string, bo: Origins)
    requires |a| == |ao| && |b| == |bo| && a != [] && 0 <= ao[0] && Blocked(a[1..] + b, ao[1..] + bo)
    ensures Blocked(a + b, ao + bo)
  {
    hide Blocked;
    CutJoin(a, b, 1);
    CutJoin(ao, bo, 1);
    ShownFirst(a + b, ao + bo);
  }

  lemma ShownFirst(out: string, org: Origins)
    requires |out| == |org| && out != [] && 0 <= org[0] && Blocked(out[1..], org[1..])
    ensures Blocked(out, org)
  {
  }

  lemma BlockedThree(a: string, ao: Origins, b: string, bo: Origins)
    requires |a| == |ao| && |b| == |bo| && 3 <= |a| && a[..3] == MASK && ao[..3] == NoOrigin(3)
    requires Blocked(a[3..] + b, ao[3..] + bo)
    ensures Blocked(a + b, ao + bo)
  {
    hide Blocked, NoOrigin;
    CutJoin(a, b, 3);
    CutJoin(ao, bo, 3);
    MaskedFirst(a + b, ao + bo);
  }

  lemma MaskedFirst(out: string, org: Origins)
    requires |out| == |org| && 3 <= |out| && out[..3] == MASK && org[..3] == NoOrigin(3)
    requires Blocked(out[3..], org[3..])
    ensures Blocked(out, org)
  {
  }

  lemma {:induction false} BlockedCopy(s: string, lo: nat, hi: nat)
    requires lo <= hi <= |s|
    ensures Blocked(s[lo..hi], Stretch(lo, hi))
    decreases hi - lo
  {
    if lo < hi {
      BlockedCopy(s, lo + 1, hi);
      assert s[lo..hi][1..] == s[lo + 1..hi] && Stretch(lo, hi)[1..] == Stretch(lo + 1, hi);
    }
  }

  lemma BlockedMask()
    ensures Blocked(MASK, NoOrigin(3))
  {
    assert MASK[..3] == MASK && NoOrigin(3)[..3] == NoOrigin(3);
    assert MASK[3..] == [] && Blocked([], []);
  }

  lemma BlockedNothing()
    ensures Blocked([], [])
  {
  }

  lemma FromWider(org: Origins, lo: nat, hi: nat, lo2: nat, hi2: nat)
    requires From(org, lo, hi) && lo2 <= lo && hi <= hi2
    ensures From(org, lo2, hi2)
  {
  }

  // ----- One pass after another

  function Through(first: Origins, second: Origins): Origins
  {
    seq(|second|, i requires 0 <= i < |second| =>
      if 0 <= second[i] < |first| then first[second[i]] else -1)
  }

  lemma TraceThrough(s: string, mid: string, first: Origins, out: string, second: Origins)
    requires Traces(s, mid, first) && Traces(mid, out, second)
    ensures Traces(s, out, Through(first, second))
  {
    var org := Through(first, second);
    forall i | 0 <= i < |org| ensures Shows(s, out, org, i) {
      assert Shows(mid, out, second, i);
      if 0 <= second[i] { assert Shows(s, mid, first, second[i]); }
    }
    forall i, j | 0 <= i < j < |org| ensures Ascend(org[i], org[j]) {
      assert Ascend(second[i], second[j]);
      if 0 <= second[i] && 0 <= second[j] {
        assert Shows(mid, out, second, i) && Shows(mid, out, second, j);
        assert Ascend(first[second[i]], first[second[j]]);
      }
    }
  }

  /** Nothing comes from this stretch of the input. */
  ghost predicate Hides(org: Origins, hidden: Span) {
    forall i :: 0 <= i < |org| ==> !(hidden.start <= org[i] < hidden.end)
  }

  /** What one pass hides, no later one brings back. */
  lemma HiddenThrough(first: Origins, second: Origins, hidden: Span)
    requires Hides(first, hidden)
    ensures Hides(Through(first, second), hidden)
  {
  }

  // ----- Replacing stretches

  lemma HidesJoin(a: Origins, b: Origins, hidden: Span)
    requires Hides(a, hidden) && Hides(b, hidden)
    ensures Hides(a + b, hidden)
  {
    var org := a + b;
    forall i | 0 <= i < |org| ensures !(hidden.start <= org[i] < hidden.end) {
      if |a| <= i { assert org[i] == b[i - |a|]; }
    }
  }

  lemma FromHides(org: Origins, lo: nat, hi: nat, hidden: Span)
    requires From(org, lo, hi) && (hi <= hidden.start || hidden.end <= lo)
    ensures Hides(org, hidden)
  {
  }

  lemma NoneHides(n: nat, hidden: Span)
    ensures Hides(NoOrigin(n), hidden)
  {
  }

  /** The position lies in none of the stretches. */
  ghost predicate Outside(cuts: seq<Span>, p: nat) {
    forall j :: 0 <= j < |cuts| ==> !(cuts[j].start <= p < cuts[j].end)
  }

  /** Everything from `last` on that lies in none of the stretches is shown. */
  ghost predicate ShowsRest(org: Origins, cuts: seq<Span>, last: nat, size: nat) {
    forall p :: last <= p < size && Outside(cuts, p) ==> p in org
  }

  lemma StretchShows(lo: nat, hi: nat, p: nat)
    requires lo <= p < hi
    ensures p in Stretch(lo, hi)
  {
    assert Stretch(lo, hi)[p - lo] == p;
  }

  lemma RestJoin(head: Origins, rest: Origins, cuts: seq<Span>, last: nat, size: nat)
    requires cuts != [] && last <= cuts[0].start && ShowsRest(rest, cuts[1..], cuts[0].end, size)
    requires head == Stretch(last, cuts[0].start) + NoOrigin(3)
    ensures ShowsRest(head + rest, cuts, last, size)
  {
    forall p | last <= p < size && Outside(cuts, p) ensures p in head + rest {
      assert !(cuts[0].start <= p < cuts[0].end);
      if p < cuts[0].start {
        StretchShows(last, cuts[0].start, p);
      } else {
        assert Outside(cuts[1..], p) by {
          forall j | 0 <= j < |cuts[1..]| ensures !(cuts[1..][j].start <= p < cuts[1..][j].end) {
            assert cuts[1..][j] == cuts[j + 1];
          }
        }
      }
    }
  }

  /** Replacing stretches by masks shows nothing of them, and everything else, in order. */
  lemma {:induction false} ReplaceTrace(s: string, cuts: seq<Span>, last: nat) returns (org: Origins)
    requires Ordered(cuts, last, |s|)
    ensures Traces(s, Replace(s, cuts, last), org) && From(org, last, |s|)
    ensures |org| == |Replace(s, cuts, last)| && Blocked(Replace(s, cuts, last), org)
    ensures forall j :: 0 <= j < |cuts| ==> Hides(org, cuts[j])
    ensures ShowsRest(org, cuts, last, |s|)
    decreases |cuts|
  {
    hide From, Hides, Blocked, ShowsRest, Shows, Ascend;
    OrderedBound(cuts, last, |s|);
    if cuts == [] {
      TraceCopy(s, last, |s|);
      BlockedCopy(s, last, |s|);
      assert s[last..|s|] == s[last..];
      org := Stretch(last, |s|);
      AllShown(last, |s|);
    } else {
      var c := cuts[0];
      var rest := ReplaceTrace(s, cuts[1..], c.end);
      OrderedBound(cuts[1..], c.end, |s|);
      var tail := Replace(s, cuts[1..], c.end);
      MaskTrace(s, last, c.start, c.end, tail, rest);
      org := Stretch(last, c.start) + NoOrigin(3) + rest;
      RestJoin(Stretch(last, c.start) + NoOrigin(3), rest, cuts, last, |s|);
      forall j | 0 <= j < |cuts| ensures Hides(org, cuts[j]) {
        OrderedAt(cuts, last, |s|, j);
        assert j > 0 ==> cuts[1..][j - 1] == cuts[j];
        if j == 0 { FromHides(rest, c.end, |s|, c); }
        HidesLater(last, c.start, rest, cuts[j]);
      }
    }
  }

  lemma AllShown(last: nat, size: nat)
    requires last <= size
    ensures ShowsRest(Stretch(last, size), [], last, size)
  {
    forall p | last <= p < size ensures p in Stretch(last, size) { StretchShows(last, size, p); }
  }

  /** Text before a hidden stretch, and a mask, show nothing of it. */
  lemma HidesLater(lo: nat, hi: nat, rest: Origins, hidden: Span)
    requires lo <= hi <= hidden.start && Hides(rest, hidden)
    ensures Hides(Stretch(lo, hi) + NoOrigin(3) + rest, hidden)
    ensures Hides(Stretch(lo, hi) + rest, hidden)
  {
    NoneHides(3, hidden);
    assert Hides(Stretch(lo, hi), hidden);
    HidesJoin(Stretch(lo, hi), NoOrigin(3), hidden);
    HidesJoin(Stretch(lo, hi) + NoOrigin(3), rest, hidden);
    HidesJoin(Stretch(lo, hi), rest, hidden);
  }

  // ----- A copied stretch, or one and a mask, then what the rest gives

  lemma CopyTrace(s: string, p: nat, e: nat, rest: string, ro: Origins)
    requires p <= e <= |s| && Traces(s, rest, ro) && From(ro, e, |s|) && Blocked(rest, ro)
    ensures var out, org := s[p..e] + rest, Stretch(p, e) + ro;
            Traces(s, out, org) && From(org, p, |s|) && |out| == |org| && Blocked(out, org)
  {
    hide Blocked;
    TraceCopy(s, p, e);
    BlockedCopy(s, p, e);
    TraceJoin(s, s[p..e], Stretch(p, e), rest, ro, p, e, |s|);
    BlockedJoin(s[p..e], Stretch(p, e), rest, ro);
  }

  lemma MaskTrace(s: string, p: nat, i: nat, e: nat, rest: string, ro: Origins)
    requires p <= i <= e <= |s| && Traces(s, rest, ro) && From(ro, e, |s|) && Blocked(rest, ro)
    ensures var out, org := s[p..i] + "[x]" + rest, Stretch(p, i) + NoOrigin(3) + ro;
            Traces(s, out, org) && From(org, p, |s|) && |out| == |org| && Blocked(out, org)
  {
    hide Blocked, From, Shows, Ascend;
    TraceCopy(s, p, i);
    TraceMask(s, i, e);
    BlockedCopy(s, p, i);
    BlockedMask();
    TraceJoin(s, s[p..i], Stretch(p, i), MASK, NoOrigin(3), p, i, e);
    BlockedJoin(s[p..i], Stretch(p, i), MASK, NoOrigin(3));
    TraceJoin(s, s[p..i] + MASK, Stretch(p, i) + NoOrigin(3), rest, ro, p, e, |s|);
    BlockedJoin(s[p..i] + MASK, Stretch(p, i) + NoOrigin(3), rest, ro);
  }

  // ----- Told without origins

  /** The text without the characters that masks are made of. */
  function Unmasked(s: string): string {
    if s == [] then []
    else if IsMask(s[|s| - 1]) then Unmasked(s[..|s| - 1])
    else Unmasked(s[..|s| - 1]) + [s[|s| - 1]]
  }

  /** The first n characters of the text without those, and without a word. */
  function Others(s: string, word: Span, n: nat): string
    requires n <= |s|
  {
    if n == 0 then []
    else if IsMask(s[n - 1]) || word.start <= n - 1 < word.end then Others(s, word, n - 1)
    else Others(s, word, n - 1) + [s[n - 1]]
  }

  lemma {:induction false} OthersMore(s: string, word: Span, t: string, n: nat)
    requires 0 < n <= |s| && Sub(t, Others(s, word, n - 1))
    ensures Sub(t, Others(s, word, n))
  {
    hide Sub;
    SubSkip(t, Others(s, word, n - 1), s[n - 1]);
  }

  lemma TraceFront(s: string, out: string, org: Origins)
    requires Traces(s, out, org) && out != []
    ensures Traces(s, out[..|out| - 1], org[..|org| - 1])
  {
    var n := |out| - 1;
    forall i | 0 <= i < n ensures Shows(s, out[..n], org[..n], i) { assert Shows(s, out, org, i); }
    forall i, j | 0 <= i < j < n ensures Ascend(org[..n][i], org[..n][j]) { assert Ascend(org[i], org[j]); }
  }

  /** What comes out and is no mask character stands in the text beside the hidden word, in that order. */
  lemma {:induction false} HiddenIsLeftOut(s: string, out: string, org: Origins, word: Span, n: nat)
    requires Traces(s, out, org) && Hides(org, word) && n <= |s| && From(org, 0, n)
    ensures Sub(Unmasked(out), Others(s, word, n))
    decreases |out|, n
  {
    hide Sub, Ascend;
    if out == [] {
      SubNothing(Others(s, word, n));
    } else {
      var k := |out| - 1;
      assert Shows(s, out, org, k);
      TraceFront(s, out, org);
      if org[k] < 0 {
        HiddenIsLeftOut(s, out[..k], org[..k], word, n);
      } else {
        BeforeLast(s, out, org);
        if org[k] < n - 1 {
          HiddenIsLeftOut(s, out, org, word, n - 1);
          OthersMore(s, word, Unmasked(out), n);
        } else {
          HiddenIsLeftOut(s, out[..k], org[..k], word, n - 1);
          SubTake(Unmasked(out[..k]), Others(s, word, n - 1), s[n - 1]);
        }
      }
    }
  }

  lemma BeforeLast(s: string, out: string, org: Origins)
    requires Traces(s, out, org) && out != [] && 0 <= org[|org| - 1]
    ensures From(org[..|org| - 1], 0, org[|org| - 1]) && From(org, 0, org[|org| - 1] + 1)
  {
    var k := |org| - 1;
    forall i | 0 <= i < k ensures Ascend(org[i], org[k]) {
    }
  }

  lemma {:induction false} OthersAreFewer(s: string, word: Span, n: nat)
    requires n <= |s|
    ensures |Others(s, word, n)| <= |Unmasked(s[..n])|
    ensures (exists p :: word.start <= p < word.end && p < n && !IsMask(s[p])) ==>
              |Others(s, word, n)| < |Unmasked(s[..n])|
  {
    if n > 0 {
      assert s[..n][..n - 1] == s[..n - 1];
      OthersAreFewer(s, word, n - 1);
    }
  }

  /** A text that shows the word, whatever else it does, is no such output: its own text is not. */
  lemma ShowingItIsCaught(s: string, word: Span, p: nat)
    requires word.start <= p < word.end <= |s| && !IsMask(s[p])
    ensures !Sub(Unmasked(s), Others(s, word, |s|))
  {
    OthersAreFewer(s, word, |s|);
    assert s[..|s|] == s;
    if Sub(Unmasked(s), Others(s, word, |s|)) { SubLength(Unmasked(s), Others(s, word, |s|)); }
  }
}
