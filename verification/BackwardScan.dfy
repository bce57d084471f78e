// The reader's chunked backward scan (scanLinesBackward): it reads a file
// from `end` towards its start one chunk at a time, stitches lines across
// chunk edges, and hands each complete line to a callback, newest first.
module BackwardScan {
  import opened LogLines

  const CHUNK: nat := 65536
  const MAX_LINE: nat := 1048576

  /** Feeds lines to a callback until it asks to stop. */
  function FoldUntil<S>(fn: (S, string, nat) -> (S, bool), st: S, f: string, ls: seq<Line>): (S, bool)
  {
    if ls == [] then (st, false)
    else
      var (next, stop) := fn(st, Text(f, ls[0]), ls[0].start);
      if stop then (next, true) else FoldUntil(fn, next, f, ls[1..])
  }

  /**
   * Whether a scan starting at `end` delivers the line. A line is dropped when
   * the part of it carried past a chunk edge is over `max`. The edge that
   * carries most of it is the lowest one at or above its start, so for a line
   * that does not start the file that edge is (end - start) % chunk above it.
   */
  predicate Delivered(l: Line, end: nat, chunk: nat, max: nat)
    requires chunk > 0
  {
    if l.start == 0 then l.end - l.start <= max
    else l.end - l.start - (end - l.start) % chunk <= max
  }

  function Keep(ls: seq<Line>, end: nat, chunk: nat, max: nat): seq<Line>
    requires chunk > 0
  {
    if ls == [] then []
    else if Delivered(ls[0], end, chunk, max) then [ls[0]] + Keep(ls[1..], end, chunk, max)
    else Keep(ls[1..], end, chunk, max)
  }

  /** What a scan from `end` delivers. */
  function Scan(f: string, end: nat, chunk: nat, max: nat): seq<Line>
    requires end <= |f| && chunk > 0
  {
    Keep(LinesBefore(f, end), end, chunk, max)
  }

  // ----- Which lines are delivered

  /** A line within the limit is always delivered; nothing over max + chunk - 1 ever is. */
  lemma DeliveredBounds(l: Line, end: nat, chunk: nat, max: nat)
    requires chunk > 0
    ensures l.end - l.start <= max ==> Delivered(l, end, chunk, max)
    ensures Delivered(l, end, chunk, max) ==> l.end - l.start <= max + chunk - 1
  {
  }

  lemma NextMultiple(n: nat, chunk: nat) returns (m: nat)
    requires chunk > 0
    ensures n < m * chunk <= n + chunk
  {
    m := n / chunk + 1;
    assert n == (n / chunk) * chunk + n % chunk;
    assert m * chunk == (n / chunk) * chunk + chunk;
  }

  lemma MultipleRemainder(m: nat, chunk: nat, r: nat)
    requires r < chunk
    ensures (m * chunk + r) % chunk == r
  {
    RemainderUnique(m * chunk + r, chunk, m, r);
  }

  lemma RemainderUnique(a: int, n: nat, q: int, r: nat)
    requires a == q * n + r && r < n
    ensures a % n == r
  {
    var d := a / n - q;
    assert d * n == r - a % n;
    assert d == 0 by {
      if d != 0 { MultipleIsFar(d, n); }
    }
  }

  lemma MultipleIsFar(d: int, n: int)
    requires d != 0 && n > 0
    ensures d * n >= n || d * n <= -n
  {
  }

  /** A chunk edge of a scan from `end`: a whole number of chunks below it. */
  ghost predicate Edge(end: nat, pos: nat, chunk: nat)
    requires chunk > 0
  {
    pos <= end && (end - pos) % chunk == 0
  }

  /** Two offsets a whole number of chunks apart have the same remainder above a third. */
  lemma EdgeRemainder(end: nat, edge: nat, s: nat, chunk: nat)
    requires chunk > 0 && s <= edge && Edge(end, edge, chunk)
    ensures (end - s) % chunk == (edge - s) % chunk
    ensures (edge - s) % chunk <= edge - s
    ensures edge - s < chunk ==> (end - s) % chunk == edge - s
  {
    var q := (end - edge) / chunk;
    var p := (edge - s) / chunk;
    assert end - s == q * chunk + p * chunk + (edge - s) % chunk;
    assert q * chunk + p * chunk == (q + p) * chunk;
    RemainderUnique(end - s, chunk, q + p, (edge - s) % chunk);
    if edge - s < chunk { RemainderUnique(edge - s, chunk, 0, edge - s); }
  }

  lemma {:induction false} KeepAll(ls: seq<Line>, end: nat, chunk: nat, max: nat)
    requires chunk > 0 && forall l :: l in ls ==> l.end - l.start <= max
    ensures Keep(ls, end, chunk, max) == ls
  {
    hide Delivered;
    if ls != [] {
      DeliveredBounds(ls[0], end, chunk, max);
      KeepAll(ls[1..], end, chunk, max);
    }
  }

  /** When every line fits, the scan is the whole reversed split. */
  lemma ScanIsReversedSplit(f: string, end: nat, chunk: nat, max: nat)
    requires end <= |f| && chunk > 0
    requires forall l :: l in LinesBefore(f, end) ==> l.end - l.start <= max
    ensures Scan(f, end, chunk, max) == LinesBefore(f, end) == Reverse(Split(f, 0, end))
  {
    KeepAll(LinesBefore(f, end), end, chunk, max);
    LinesBeforeIsReversedSplit(f, end);
  }

  /** In general the scan keeps exactly the delivered lines. */
  lemma {:induction false} KeepMembers(ls: seq<Line>, end: nat, chunk: nat, max: nat, l: Line)
    requires chunk > 0
    ensures l in Keep(ls, end, chunk, max) <==> l in ls && Delivered(l, end, chunk, max)
  {
    hide Delivered;
    if ls != [] { KeepMembers(ls[1..], end, chunk, max, l); }
  }

  /** A scan of a file delivers a line of it that ends before `end` exactly when the rule says so. */
  lemma ScanMembers(f: string, l: Line, end: nat, chunk: nat, max: nat)
    requires chunk > 0 && IsLine(f, l) && l.end < end <= |f|
    ensures l in Scan(f, end, chunk, max) <==> Delivered(l, end, chunk, max)
  {
    hide Delivered, LinesBefore, IsLine;
    LinesBeforeComplete(f, end, l);
    KeepMembers(LinesBefore(f, end), end, chunk, max, l);
  }

  /**
   * Between the two bounds the documented limit is not what the code applies:
   * for every such line past the start of a file that goes on for two chunks,
   * one scan of the file delivers it and another drops it, so which happens
   * hangs on `end` alone.
   */
  lemma OverLongHangsOnEnd(f: string, l: Line, chunk: nat, max: nat) returns (delivers: nat, drops: nat)
    requires chunk > 0 && IsLine(f, l) && l.end + 2 * chunk <= |f|
    requires 0 < l.start && max < l.end - l.start <= max + chunk - 1
    ensures l.end < delivers <= |f| && l in Scan(f, delivers, chunk, max)
    ensures l.end < drops <= |f| && l !in Scan(f, drops, chunk, max)
  {
    var m := NextMultiple(l.end - l.start, chunk);
    drops := l.start + m * chunk;
    delivers := drops + chunk - 1;
    MultipleRemainder(m, chunk, chunk - 1);
    MultipleRemainder(m, chunk, 0);
    hide Scan, IsLine;
    ScanMembers(f, l, delivers, chunk, max);
    ScanMembers(f, l, drops, chunk, max);
  }

  // ----- The scan itself

  /** What remains of the scan once a newline is known at offset `e`. */
  ghost function FromNewline<S>(fn: (S, string, nat) -> (S, bool), st: S, f: string, e: nat, end: nat, chunk: nat,
                                max: nat): (S, bool)
    requires e <= |f| && chunk > 0
  {
    FoldUntil(fn, st, f, Keep(LinesEndingAt(f, e), end, chunk, max))
  }

  /** What remains of the scan while the next newline below `pos` is still to be found. */
  ghost function FromOffset<S>(fn: (S, string, nat) -> (S, bool), st: S, f: string, pos: nat, end: nat, chunk: nat,
                               max: nat): (S, bool)
    requires pos <= |f| && chunk > 0
  {
    FoldUntil(fn, st, f, Keep(LinesBefore(f, pos), end, chunk, max))
  }

  /** `buf` is the stretch of f that starts at `pos`. */
  ghost predicate Window(f: string, pos: nat, buf: string) {
    pos + |buf| <= |f| && forall i :: 0 <= i < |buf| ==> buf[i] == f[pos + i]
  }

  /** The last newline seen through the window, or below it. */
  lemma WindowNewline(f: string, pos: nat, buf: string, e: nat)
    requires Window(f, pos, buf) && e <= |buf|
    ensures var k := LastNewline(buf, e);
            LastNewline(f, pos + e) == if k < 0 then LastNewline(f, pos) else pos + k
  {
    hide LastNewline;
    var k := LastNewline(buf, e);
    LastNewlineIsLast(buf, e);
    assert forall i :: pos <= i < pos + |buf| ==> f[i] == buf[i - pos];
    if k >= 0 {
      LastNewlineUnique(f, pos + e, pos + k);
    } else if e > 0 {
      LastNewlineIsLast(f, pos);
      LastNewlineUnique(f, pos + e, LastNewline(f, pos));
    }
  }

  lemma WindowPrefix(f: string, pos: nat, buf: string, e: nat)
    requires Window(f, pos, buf) && e <= |buf| && LastNewline(buf, e) < 0
    ensures Window(f, pos, buf[..e]) && LastNewline(buf[..e], e) < 0
  {
    hide LastNewline;
    WindowNewline(buf, 0, buf[..e], e);
  }

  lemma WindowGrow(f: string, pos: nat, n: nat, tail: string)
    requires Window(f, pos + n, tail) && LastNewline(tail, |tail|) < 0
    ensures var buf := f[pos..pos + n] + tail;
            Window(f, pos, buf) && LastNewline(buf, |buf|) < n
  {
    hide LastNewline;
    var buf := f[pos..pos + n] + tail;
    WindowNewline(buf, n, tail, |tail|);
  }

  lemma WindowText(f: string, pos: nat, buf: string, a: nat, b: nat)
    requires Window(f, pos, buf) && a <= b <= |buf|
    ensures buf[a..b] == Text(f, Line(pos + a, pos + b))
  {
  }

  /** Finding the last newline of the window, or none in it. */
  lemma FindNewline<S>(fn: (S, string, nat) -> (S, bool), st: S, f: string, pos: nat, buf: string, end: nat,
                       chunk: nat, max: nat)
    requires Window(f, pos, buf) && pos + |buf| <= |f| && chunk > 0
    ensures var j := LastNewline(buf, |buf|);
            FromOffset(fn, st, f, pos + |buf|, end, chunk, max) ==
            if j < 0 then FromOffset(fn, st, f, pos, end, chunk, max)
            else FromNewline(fn, st, f, pos + j, end, chunk, max)
  {
    hide LastNewline, LinesEndingAt, FoldUntil, Keep, Window;
    WindowNewline(f, pos, buf, |buf|);
  }

  /** A line found whole in the window was never carried past the limit. */
  lemma WindowDelivered(l: Line, pos: nat, top: nat, end: nat, chunk: nat, max: nat)
    requires chunk > 0 && pos < l.start <= top <= end && top - pos <= chunk
    requires Edge(end, top, chunk) && l.end - top <= max
    ensures Delivered(l, end, chunk, max)
  {
    EdgeRemainder(end, top, l.start, chunk);
  }

  lemma FoldDelivered<S>(fn: (S, string, nat) -> (S, bool), st: S, f: string, l: Line, older: seq<Line>, end: nat,
                         chunk: nat, max: nat)
    requires chunk > 0 && Delivered(l, end, chunk, max)
    ensures FoldUntil(fn, st, f, Keep([l] + older, end, chunk, max)) ==
            var (next, stop) := fn(st, Text(f, l), l.start);
            if stop then (next, true) else FoldUntil(fn, next, f, Keep(older, end, chunk, max))
  {
    hide Delivered, Text;
    var kept := Keep(older, end, chunk, max);
    assert ([l] + older)[1..] == older;
    assert ([l] + kept)[1..] == kept;
  }

  lemma FoldNothing<S>(fn: (S, string, nat) -> (S, bool), st: S, f: string, end: nat, chunk: nat, max: nat)
    requires chunk > 0
    ensures FoldUntil(fn, st, f, Keep([], end, chunk, max)) == (st, false)
  {
  }

  /** Passing over an empty line of the window. */
  lemma SkipLine<S>(fn: (S, string, nat) -> (S, bool), st: S, f: string, pos: nat, buf: string, e: nat, end: nat,
                    chunk: nat, max: nat)
    requires Window(f, pos, buf) && pos + |buf| <= |f| && 0 < e <= |buf| && chunk > 0 && LastNewline(buf, e) == e - 1
    ensures FromNewline(fn, st, f, pos + e, end, chunk, max) == FromNewline(fn, st, f, pos + (e - 1), end, chunk, max)
  {
    hide LastNewline, FoldUntil, Keep, Window;
    WindowNewline(f, pos, buf, e);
  }

  /** Delivering one line of the window. */
  lemma DeliverLine<S>(fn: (S, string, nat) -> (S, bool), st: S, f: string, pos: nat, buf: string, e: nat, end: nat,
                       chunk: nat, max: nat)
    requires Window(f, pos, buf) && pos + |buf| <= |f| && e <= |buf| && chunk > 0 && 0 <= LastNewline(buf, e) < e - 1
    requires Delivered(Line(pos + LastNewline(buf, e) + 1, pos + e), end, chunk, max)
    ensures var k := LastNewline(buf, e);
            FromNewline(fn, st, f, pos + e, end, chunk, max) ==
              var (next, stop) := fn(st, buf[k + 1..e], pos + k + 1);
              if stop then (next, true) else FromNewline(fn, next, f, pos + k, end, chunk, max)
  {
    hide LastNewline, FoldUntil, Keep, Delivered, Text, Window;
    WindowNewline(f, pos, buf, e);
    var k := LastNewline(buf, e);
    WindowText(f, pos, buf, k + 1, e);
    FoldDelivered(fn, st, f, Line(pos + k + 1, pos + e), LinesEndingAt(f, pos + k), end, chunk, max);
  }

  /** The line a newline-free tail ends. */
  lemma CarriedLine(f: string, pos: nat, tail: string)
    requires Window(f, pos, tail) && pos + |tail| <= |f| && LastNewline(tail, |tail|) < 0 && tail != []
    ensures LinesEndingAt(f, pos + |tail|) == [Line(LastNewline(f, pos) + 1, pos + |tail|)] + LinesBefore(f, pos)
  {
    hide LastNewline, Window;
    WindowNewline(f, pos, tail, |tail|);
  }

  lemma CarriedPastEdge(l: Line, pos: nat, end: nat, chunk: nat, max: nat)
    requires chunk > 0 && l.start <= pos <= end && l.end - pos > max && (pos > 0 ==> Edge(end, pos, chunk))
    ensures !Delivered(l, end, chunk, max)
  {
    if l.start > 0 { EdgeRemainder(end, pos, l.start, chunk); }
  }

  lemma KeepDropped(l: Line, older: seq<Line>, end: nat, chunk: nat, max: nat)
    requires chunk > 0 && !Delivered(l, end, chunk, max)
    ensures Keep([l] + older, end, chunk, max) == Keep(older, end, chunk, max)
  {
    hide Delivered;
    assert ([l] + older)[1..] == older;
  }

  /** A carried tail over the limit belongs to a line that is not delivered: the next newline is to be found. */
  lemma CarriedTooLong<S>(fn: (S, string, nat) -> (S, bool), st: S, f: string, pos: nat, tail: string, end: nat,
                          chunk: nat, max: nat)
    requires Window(f, pos, tail) && pos + |tail| <= |f| && LastNewline(tail, |tail|) < 0 && |tail| > max
    requires pos <= end && chunk > 0 && (pos > 0 ==> Edge(end, pos, chunk))
    ensures FromNewline(fn, st, f, pos + |tail|, end, chunk, max) == FromOffset(fn, st, f, pos, end, chunk, max)
  {
    hide LastNewline, LinesEndingAt, LinesBefore, Delivered, Keep, Edge, FoldUntil, Window;
    CarriedLine(f, pos, tail);
    var l := Line(LastNewline(f, pos) + 1, pos + |tail|);
    CarriedPastEdge(l, pos, end, chunk, max);
    KeepDropped(l, LinesBefore(f, pos), end, chunk, max);
  }

  /** At the file start the carried tail is the first line. */
  lemma CarriedToStart<S>(fn: (S, string, nat) -> (S, bool), st: S, f: string, tail: string, end: nat, chunk: nat,
                          max: nat)
    requires Window(f, 0, tail) && |tail| <= |f| && LastNewline(tail, |tail|) < 0 && |tail| <= max && chunk > 0
    ensures FromNewline(fn, st, f, |tail|, end, chunk, max) == if tail == [] then (st, false) else fn(st, tail, 0)
  {
    hide LastNewline, Delivered, FoldUntil, Keep, Text, Window;
    if tail != [] {
      var l := Line(0, |tail|);
      CarriedLine(f, 0, tail);
      assert LastNewline(f, 0) == -1;
      DeliveredBounds(l, end, chunk, max);
      FoldDelivered(fn, st, f, l, [], end, chunk, max);
      WindowText(f, 0, tail, 0, |tail|);
      assert tail[0..|tail|] == tail;
      FoldNothing(fn, fn(st, tail, 0).0, f, end, chunk, max);
    } else {
      FoldNothing(fn, st, f, end, chunk, max);
    }
  }

  lemma NextEdge(end: nat, pos: nat, chunk: nat)
    requires chunk > 0 && chunk <= pos && Edge(end, pos, chunk)
    ensures Edge(end, pos - chunk, chunk)
  {
    RemainderUnique(end - (pos - chunk), chunk, (end - pos) / chunk + 1, 0);
  }

  /**
   * Delivers the lines that start in the window, from the newline at `from`
   * down. What is left in front of the last newline found is carried on.
   */
  method DeliverWindow<S>(f: string, pos: nat, buf: string, from: nat, ghost top: nat,
                          ghost end: nat, ghost chunk: nat, ghost max: nat, init: S, fn: (S, string, nat) -> (S, bool))
    returns (st: S, stopped: bool, lineEnd: nat)
    requires Window(f, pos, buf) && pos + |buf| <= |f| && from <= |buf|
    requires chunk > 0 && pos <= top <= end && top - pos <= chunk && Edge(end, top, chunk)
    requires pos + from - top <= max && LastNewline(buf, from) < top - pos
    ensures lineEnd <= from && LastNewline(buf, lineEnd) < 0
    ensures FromNewline(fn, init, f, pos + from, end, chunk, max) ==
            if stopped then (st, true) else FromNewline(fn, st, f, pos + lineEnd, end, chunk, max)
  {
    hide FromNewline, Delivered, LastNewline, Edge, Window;
    st, stopped, lineEnd := init, false, from;
    var k := LastNewline(buf, lineEnd);
    while k >= 0
      invariant lineEnd <= from && k == LastNewline(buf, lineEnd) < top - pos
      invariant FromNewline(fn, init, f, pos + from, end, chunk, max) ==
                FromNewline(fn, st, f, pos + lineEnd, end, chunk, max)
    {
      if k + 1 < lineEnd {
        WindowDelivered(Line(pos + k + 1, pos + lineEnd), pos, top, end, chunk, max);
        DeliverLine(fn, st, f, pos, buf, lineEnd, end, chunk, max);
        var (next, stop) := fn(st, buf[k + 1..lineEnd], pos + k + 1);
        st := next;
        if stop { return st, true, 0; }
      } else {
        SkipLine(fn, st, f, pos, buf, lineEnd, end, chunk, max);
      }
      lineEnd := k;
      k := LastNewline(buf, lineEnd);
    }
  }

  /** What the scan knows between two chunks. */
  ghost predicate Between(f: string, pos: nat, tail: string, seen: bool, end: nat, chunk: nat, max: nat)
    requires chunk > 0
  {
    && pos + |tail| <= end <= |f|
    && Window(f, pos, tail)
    && LastNewline(tail, |tail|) < 0
    && |tail| <= max
    && (!seen ==> tail == [])
    && (pos > 0 ==> Edge(end, pos, chunk))
  }

  method ScanLinesBackward<S>(f: string, end: nat, chunk: nat, max: nat, init: S, fn: (S, string, nat) -> (S, bool))
    returns (st: S, stopped: bool)
    requires end <= |f| && chunk > 0
    ensures (st, stopped) == FoldUntil(fn, init, f, Scan(f, end, chunk, max))
  {
    hide LastNewline, FoldUntil, Keep, LinesEndingAt, Window;
    st := init;
    var pos: nat, tail: string, seenNewline := end, "", false;
    assert Edge(end, end, chunk);
    EmptyWindow(f, end);
    while pos > 0
      invariant Between(f, pos, tail, seenNewline, end, chunk, max)
      invariant FoldUntil(fn, init, f, Scan(f, end, chunk, max)) ==
                if seenNewline then FromNewline(fn, st, f, pos + |tail|, end, chunk, max)
                else FromOffset(fn, st, f, pos, end, chunk, max)
    {
      hide FromNewline, FromOffset, Scan, Edge;
      var n := if pos < chunk then pos else chunk;
      ghost var top := pos;
      if chunk <= pos { NextEdge(end, pos, chunk); }
      pos := pos - n;
      var buf := f[pos..pos + n] + tail;
      WindowGrow(f, pos, n, tail);
      var lineEnd := |buf|;
      if !seenNewline {
        FindNewline(fn, st, f, pos, buf, end, chunk, max);
        var j := LastNewline(buf, |buf|);
        if j < 0 {
          tail := "";
          EmptyWindow(f, pos);
          continue;
        }
        lineEnd, seenNewline := j, true;
      }
      st, stopped, lineEnd := DeliverWindow(f, pos, buf, lineEnd, top, end, chunk, max, st, fn);
      if stopped { return; }
      tail := buf[..lineEnd];
      WindowPrefix(f, pos, buf, lineEnd);
      if |tail| > max {
        CarriedTooLong(fn, st, f, pos, tail, end, chunk, max);
        tail, seenNewline := "", false;
        EmptyWindow(f, pos);
      }
    }
    stopped := false;
    if seenNewline {
      CarriedToStart(fn, st, f, tail, end, chunk, max);
      if |tail| > 0 {
        var (next, stop) := fn(st, tail, 0);
        st, stopped := next, stop;
      }
    } else {
      FoldNothing(fn, st, f, end, chunk, max);
    }
  }

  lemma EmptyWindow(f: string, pos: nat)
    requires pos <= |f|
    ensures Window(f, pos, "")
  {
  }
}
