// The lines of a saved log file: what "the complete lines before a byte
// offset, newest first" means, independently of how a reader finds them.
module LogLines {

  /** A non-empty line of a file: where it starts, and where the newline that ends it is. */
  datatype Line = Line(start: nat, end: nat)

  /** The line's text, without the newline. */
  function Text(g: string, l: Line): string {
    if l.start <= l.end <= |g| then g[l.start..l.end] else []
  }

  /** The last newline before offset `e`, or -1. */
  function LastNewline(g: string, e: nat): (k: int)
    requires e <= |g|
    ensures -1 <= k < e
    ensures k >= 0 ==> g[k] == '\n'
  {
    if e == 0 then -1 else if g[e - 1] == '\n' then e - 1 else LastNewline(g, e - 1)
  }

  /** `k` is the last newline before `e`: nothing between them is one. */
  lemma {:induction false} LastNewlineIsLast(g: string, e: nat)
    requires e <= |g|
    ensures forall i :: LastNewline(g, e) < i < e ==> g[i] != '\n'
  {
    if e > 0 && g[e - 1] != '\n' { LastNewlineIsLast(g, e - 1); }
  }

  lemma {:induction false} LastNewlineUnique(g: string, e: nat, k: int)
    requires -1 <= k < e <= |g| && (k >= 0 ==> g[k] == '\n')
    requires forall i :: k < i < e ==> g[i] != '\n'
    ensures LastNewline(g, e) == k
  {
    if k < e - 1 { LastNewlineUnique(g, e - 1, k); }
  }

  /** Offsets with no newline between them see the same last newline. */
  lemma LastNewlineBetween(g: string, c: nat, e: nat)
    requires c <= e <= |g| && LastNewline(g, e) < c
    ensures LastNewline(g, c) == LastNewline(g, e)
  {
    hide LastNewline;
    LastNewlineIsLast(g, e);
    if c > 0 { LastNewlineUnique(g, c, LastNewline(g, e)); }
  }

  /** The lines of g[..e], newest first, given that a newline ends the last of them at `e`. */
  function LinesEndingAt(g: string, e: nat): seq<Line>
    requires e <= |g|
    decreases e
  {
    var k := LastNewline(g, e);
    var older := if k < 0 then [] else LinesEndingAt(g, k);
    if k + 1 < e then [Line(k + 1, e)] + older else older
  }

  /** The complete non-empty lines of g[..end], newest first; an unterminated tail is not a line. */
  function LinesBefore(g: string, end: nat): seq<Line>
    requires end <= |g|
  {
    var j := LastNewline(g, end);
    if j < 0 then [] else LinesEndingAt(g, j)
  }

  // ----- The reference: split on newlines, drop the unterminated tail, reverse

  /** The first newline in g[i..end], or `end`. */
  function FirstNewline(g: string, i: nat, end: nat): (k: nat)
    requires i <= end <= |g|
    ensures i <= k <= end
    ensures k < end ==> g[k] == '\n'
    decreases end - i
  {
    if i == end || g[i] == '\n' then i else FirstNewline(g, i + 1, end)
  }

  lemma {:induction false} FirstNewlineIsFirst(g: string, i: nat, end: nat)
    requires i <= end <= |g|
    ensures forall m :: i <= m < FirstNewline(g, i, end) ==> g[m] != '\n'
    decreases end - i
  {
    if i < end && g[i] != '\n' { FirstNewlineIsFirst(g, i + 1, end); }
  }

  lemma {:induction false} FirstNewlineUnique(g: string, i: nat, end: nat, k: nat)
    requires i <= k <= end <= |g| && (k < end ==> g[k] == '\n')
    requires forall m :: i <= m < k ==> g[m] != '\n'
    ensures FirstNewline(g, i, end) == k
    decreases end - i
  {
    if i < k { FirstNewlineUnique(g, i + 1, end, k); }
  }

  /** Splitting g[i..end] on newlines, oldest line first, keeping only terminated non-empty pieces. */
  function Split(g: string, i: nat, end: nat): seq<Line>
    requires i <= end <= |g|
    decreases end - i
  {
    var k := FirstNewline(g, i, end);
    if k == end then []
    else if i < k then [Line(i, k)] + Split(g, k + 1, end)
    else Split(g, k + 1, end)
  }

  /** The line between two offsets, if it is not empty. */
  function Piece(i: nat, k: nat): seq<Line>
    requires i <= k
  {
    if i < k then [Line(i, k)] else []
  }

  function Reverse<T>(s: seq<T>): seq<T> {
    if s == [] then [] else Reverse(s[1..]) + [s[0]]
  }

  lemma ReverseConcat<T>(a: seq<T>, b: seq<T>)
    ensures Reverse(a + b) == Reverse(b) + Reverse(a)
  {
    if a == [] {
      assert a + b == b;
    } else {
      assert (a + b)[1..] == a[1..] + b;
      ReverseConcat(a[1..], b);
    }
  }

  /** Splitting up to just after a newline and from there on is splitting the whole. */
  lemma {:induction false} SplitAtNewline(g: string, i: nat, j: nat, end: nat)
    requires i <= j < end <= |g| && g[j] == '\n'
    ensures Split(g, i, end) == Split(g, i, j + 1) + Split(g, j + 1, end)
    decreases j - i
  {
    hide FirstNewline, Split;
    var k := FirstNewline(g, i, end);
    FirstNewlineIsFirst(g, i, end);
    assert k <= j;
    FirstNewlineUnique(g, i, j + 1, k);
    SplitFirst(g, i, end);
    SplitFirst(g, i, j + 1);
    var a, b := Split(g, k + 1, j + 1), Split(g, j + 1, end);
    if k < j {
      SplitAtNewline(g, k + 1, j, end);
    } else {
      SplitNothing(g, j + 1);
      assert a + b == b;
    }
    assert [Line(i, k)] + (a + b) == ([Line(i, k)] + a) + b;
  }

  lemma SplitFirst(g: string, i: nat, end: nat)
    requires i <= end <= |g| && FirstNewline(g, i, end) < end
    ensures var k := FirstNewline(g, i, end);
            i <= k && Split(g, i, end) == (if i < k then [Line(i, k)] else []) + Split(g, k + 1, end)
  {
    FirstNewlineIsFirst(g, i, end);
    hide FirstNewline;
    var rest := Split(g, FirstNewline(g, i, end) + 1, end);
    assert [] + rest == rest;
  }

  lemma SplitNothing(g: string, i: nat)
    requires i <= |g|
    ensures Split(g, i, i) == []
  {
  }

  lemma SplitOne(g: string, i: nat, e: nat)
    requires i <= e < |g| && g[e] == '\n'
    requires forall m :: i <= m < e ==> g[m] != '\n'
    ensures Split(g, i, e + 1) == Piece(i, e)
  {
    FirstNewlineUnique(g, i, e + 1, e);
    hide FirstNewline;
    assert Split(g, e + 1, e + 1) == [];
  }

  lemma {:induction false} LinesEndingAtIsSplit(g: string, e: nat)
    requires e < |g| && g[e] == '\n'
    ensures LinesEndingAt(g, e) == Reverse(Split(g, 0, e + 1))
    decreases e
  {
    var k := LastNewline(g, e);
    var last := Piece(k + 1, e);
    LastNewlineIsLast(g, e);
    hide LastNewline, FirstNewline, Reverse, Split;
    SplitOne(g, k + 1, e);
    ReversePiece(k + 1, e);
    if k >= 0 {
      LinesEndingAtIsSplit(g, k);
      SplitAtNewline(g, 0, k, e + 1);
      ReverseConcat(Split(g, 0, k + 1), last);
      assert [] + LinesEndingAt(g, k) == LinesEndingAt(g, k);
    }
  }

  lemma ReversePiece(i: nat, k: nat)
    requires i <= k
    ensures Reverse(Piece(i, k)) == Piece(i, k)
  {
  }

  /** The complete lines, newest first, are the reverse of the forward split. */
  lemma LinesBeforeIsReversedSplit(g: string, end: nat)
    requires end <= |g|
    ensures LinesBefore(g, end) == Reverse(Split(g, 0, end))
  {
    var j := LastNewline(g, end);
    if j >= 0 {
      LinesEndingAtIsSplit(g, j);
      SplitAtNewline(g, 0, j, end);
      LastNewlineIsLast(g, end);
      FirstNewlineUnique(g, j + 1, end, end);
      assert Split(g, 0, end) == Split(g, 0, j + 1);
    } else {
      LastNewlineIsLast(g, end);
      FirstNewlineUnique(g, 0, end, end);
    }
  }

  // ----- What the list contains

  /** `l` is exactly the text between two newlines (or the file start and a newline). */
  ghost predicate IsLine(g: string, l: Line) {
    && l.start < l.end < |g|
    && g[l.end] == '\n'
    && (forall i :: l.start <= i < l.end ==> g[i] != '\n')
    && (l.start == 0 || g[l.start - 1] == '\n')
  }

  /** The lines are lines of g that end by `e`, each before the one listed above it. */
  ghost predicate Descending(g: string, ls: seq<Line>, e: nat) {
    ls == [] ||
    (IsLine(g, ls[0]) && ls[0].end <= e && Descending(g, ls[1..], if ls[0].start == 0 then 0 else ls[0].start - 1))
  }

  lemma {:induction false} DescendingStep(g: string, ls: seq<Line>, e: nat, i: nat)
    requires Descending(g, ls, e) && i < |ls|
    ensures IsLine(g, ls[i]) && ls[i].end <= e
    ensures i > 0 ==> ls[i].end < ls[i - 1].start
  {
    if i > 0 {
      DescendingStep(g, ls[1..], if ls[0].start == 0 then 0 else ls[0].start - 1, i - 1);
    }
  }

  lemma DescendingWeaken(g: string, ls: seq<Line>, d: nat, e: nat)
    requires Descending(g, ls, d) && d <= e
    ensures Descending(g, ls, e)
  {
  }

  lemma {:induction false} LinesEndingAtSound(g: string, e: nat)
    requires e < |g| && g[e] == '\n'
    ensures Descending(g, LinesEndingAt(g, e), e)
    decreases e
  {
    hide LastNewline, IsLine, Descending;
    var k := LastNewline(g, e);
    var rest := if k < 0 then [] else LinesEndingAt(g, k);
    if k < 0 { DescendingNil(g, 0); }
    if k >= 0 {
      LinesEndingAtSound(g, k);
    }
    if k + 1 < e {
      BetweenNewlines(g, e);
      DescendingCons(g, Line(k + 1, e), rest, e);
    } else {
      if k >= 0 { DescendingWeaken(g, rest, k, e); }
    }
  }

  lemma DescendingNil(g: string, e: nat)
    ensures Descending(g, [], e)
  {
  }

  lemma BetweenNewlines(g: string, e: nat)
    requires e < |g| && g[e] == '\n' && LastNewline(g, e) + 1 < e
    ensures var k := LastNewline(g, e); IsLine(g, Line(k + 1, e))
  {
    hide LastNewline;
    LastNewlineIsLast(g, e);
  }

  lemma DescendingCons(g: string, l: Line, rest: seq<Line>, e: nat)
    requires IsLine(g, l) && l.end <= e && Descending(g, rest, if l.start == 0 then 0 else l.start - 1)
    ensures Descending(g, [l] + rest, e)
  {
    hide IsLine;
    assert ([l] + rest)[1..] == rest;
  }

  lemma {:induction false} LinesEndingAtComplete(g: string, e: nat, l: Line)
    requires e < |g| && g[e] == '\n' && IsLine(g, l) && l.end <= e
    ensures l in LinesEndingAt(g, e)
    decreases e
  {
    hide LastNewline;
    var k := LastNewline(g, e);
    if l.end == e {
      LastNewlineUnique(g, e, l.start - 1);
    } else {
      LastNewlineIsLast(g, e);
      LinesEndingAtComplete(g, k, l);
    }
  }

  /** Every listed line is a line at its true offset, ending before `end`, and offsets strictly decrease. */
  lemma LinesBeforeSound(g: string, end: nat, i: nat)
    requires end <= |g| && i < |LinesBefore(g, end)|
    ensures var ls := LinesBefore(g, end);
            IsLine(g, ls[i]) && ls[i].end < end && (i > 0 ==> ls[i].end < ls[i - 1].start)
  {
    var j := LastNewline(g, end);
    LinesEndingAtSound(g, j);
    DescendingStep(g, LinesEndingAt(g, j), j, i);
  }

  /** Every line of the file that ends before `end` is listed. */
  lemma LinesBeforeComplete(g: string, end: nat, l: Line)
    requires end <= |g| && IsLine(g, l) && l.end < end
    ensures l in LinesBefore(g, end)
  {
    LastNewlineIsLast(g, end);
    LinesEndingAtComplete(g, LastNewline(g, end), l);
  }

  lemma DropCons(l: Line, older: seq<Line>, n: nat)
    requires n <= |older|
    ensures ([l] + older)[n + 1..] == older[n..]
  {
  }

  /** Reading from an earlier offset lists a suffix: exactly the lines that end before it. */
  lemma {:induction false} LinesFromEarlierOffset(g: string, e: nat, c: nat) returns (n: nat)
    requires e < |g| && g[e] == '\n' && c <= e + 1
    ensures n <= |LinesEndingAt(g, e)|
    ensures LinesBefore(g, c) == LinesEndingAt(g, e)[n..]
    ensures forall i :: 0 <= i < n ==> c <= LinesEndingAt(g, e)[i].end
    decreases e
  {
    hide LastNewline, LinesEndingAt;
    n := 0;
    if c == e + 1 {
      LastNewlineUnique(g, c, e);
    } else {
      var k := LastNewline(g, e);
      if k < c {
        LastNewlineBetween(g, c, e);
      } else {
        n := LinesFromEarlierOffset(g, k, c);
      }
      LinesStep(g, e);
      var older := if k < 0 then [] else LinesEndingAt(g, k);
      assert LinesBefore(g, c) == older[n..];
      if k + 1 < e {
        DropCons(Line(k + 1, e), older, n);
        n := n + 1;
      }
    }
  }

  lemma LinesStep(g: string, e: nat)
    requires e <= |g|
    ensures var k := LastNewline(g, e);
            k < e &&
            var older := if k < 0 then [] else LinesEndingAt(g, k);
            LinesEndingAt(g, e) == if k + 1 < e then [Line(k + 1, e)] + older else older
  {
    hide LastNewline;
  }

  /** As LinesFromEarlierOffset, for any two offsets. */
  lemma LinesBeforeSuffix(g: string, end: nat, c: nat) returns (n: nat)
    requires c <= end <= |g|
    ensures n <= |LinesBefore(g, end)|
    ensures LinesBefore(g, c) == LinesBefore(g, end)[n..]
    ensures forall i :: 0 <= i < n ==> c <= LinesBefore(g, end)[i].end
  {
    hide LastNewline, LinesEndingAt;
    var j := LastNewline(g, end);
    if j < c {
      n := 0;
      LastNewlineBetween(g, c, end);
    } else {
      n := LinesFromEarlierOffset(g, j, c);
    }
  }
}
