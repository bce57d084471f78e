// Paging while the writer goes on: entries saved between two pages of a query
// do not disturb the pages that follow, because a cursor reads only what lies
// below it.
module LogGrowing {
  import opened Decimal
  import opened LogLines
  import opened BackwardScan
  import opened LogFileKey
  import opened LogRecord
  import opened LogHistory
  import opened LogPaging

  // ----- One file

  lemma {:induction false} SameLastNewline(f: string, g: string, e: nat)
    requires f <= g && e <= |f|
    ensures LastNewline(f, e) == LastNewline(g, e)
  {
    if e > 0 { SameLastNewline(f, g, e - 1); }
  }

  lemma {:induction false} SameLinesEndingAt(f: string, g: string, e: nat)
    requires f <= g && e <= |f|
    ensures LinesEndingAt(f, e) == LinesEndingAt(g, e)
    decreases e
  {
    hide LastNewline;
    SameLastNewline(f, g, e);
    var k := LastNewline(f, e);
    if k >= 0 { SameLinesEndingAt(f, g, k); }
  }

  /** Bytes added at the end of a file change nothing below an offset. */
  lemma SameItems(f: File, g: File, end: nat)
    requires f.key == g.key && f.content <= g.content && end <= |f.content|
    ensures FileItems(f, end) == FileItems(g, end)
  {
    hide LinesEndingAt, LastNewline, Keep;
    SameLastNewline(f.content, g.content, end);
    LastNewlineIsLast(f.content, end);
    var k := LastNewline(f.content, end);
    if k >= 0 { SameLinesEndingAt(f.content, g.content, k); }
    var ls := Scan(f.content, end, CHUNK, MAX_LINE);
    forall i | 0 <= i < |ls| ensures Text(f.content, ls[i]) == Text(g.content, ls[i]) {
      ScannedFits(f.content, end, ls[i]);
    }
  }

  lemma ScannedFits(f: string, end: nat, l: Line)
    requires end <= |f| && l in Scan(f, end, CHUNK, MAX_LINE)
    ensures l.start <= l.end < |f|
  {
    hide Keep, LinesBefore, Delivered;
    var ls := LinesBefore(f, end);
    KeepMembers(ls, end, CHUNK, MAX_LINE, l);
    var i :| 0 <= i < |ls| && ls[i] == l;
    LinesBeforeSound(f, end, i);
  }

  // ----- The directory

  /**
   * What the writer does while nothing is swept: bytes are added to the newest
   * file, and newer files follow it.
   */
  ghost predicate Grows(fs: seq<File>, gs: seq<File>) {
    && Sorted(gs) && |fs| <= |gs|
    && (forall i :: 0 <= i < |fs| - 1 ==> gs[i] == fs[i])
    && (fs != [] ==> Longer(fs[|fs| - 1], gs[|fs| - 1]))
  }

  predicate Longer(f: File, g: File) { f.key == g.key && f.content <= g.content }

  lemma GrowsSame(fs: seq<File>)
    requires Sorted(fs)
    ensures Grows(fs, fs)
  {
    hide Less;
  }

  lemma GrowsOn(fs: seq<File>, gs: seq<File>, hs: seq<File>)
    requires Grows(fs, gs) && Grows(gs, hs)
    ensures Grows(fs, hs)
  {
    hide Less;
  }

  /** The cursor stands in a file, no further than its end. */
  ghost predicate Inside(fs: seq<File>, cursor: Cursor, k: nat) {
    k < |fs| && cursor.Before? && fs[k].key == cursor.key && cursor.offset <= |fs[k].content|
  }

  /** Newer files are passed over by a cursor. */
  lemma {:induction false} NewerPassedOver(gs: seq<File>, n: nat, q: Query, cursor: Cursor)
    requires cursor.Before? && n <= |gs| && forall i :: n <= i < |gs| ==> Less(cursor.key, gs[i].key)
    ensures Feed(gs, q, cursor) == Feed(gs[..n], q, cursor)
    decreases |gs|
  {
    hide FileItems, Ends, Less;
    if n == |gs| {
      assert gs[..n] == gs;
    } else {
      var m := |gs| - 1;
      NewerPassedOver(gs[..m], n, q, cursor);
      assert gs[..m][..n] == gs[..n];
    }
  }

  /** What a cursor reads does not change while the directory grows. */
  lemma SameFeed(fs: seq<File>, gs: seq<File>, q: Query, cursor: Cursor, k: nat)
    requires Sorted(fs) && Grows(fs, gs) && Inside(fs, cursor, k)
    ensures Feed(gs, q, cursor) == Feed(fs, q, cursor)
  {
    hide Less, FileItems, Ends, Feed, PassedOver, EndOffset, Grows, Sorted;
    GrownFiles(fs, gs, k);
    NewerPassedOver(fs, k + 1, q, cursor);
    NewerPassedOver(gs, k + 1, q, cursor);
    FeedStep(fs, k + 1, q, cursor);
    FeedStep(gs, k + 1, q, cursor);
    SameVerdict(fs[k], gs[k], q, cursor);
    SameItems(fs[k], gs[k], cursor.offset);
  }

  lemma GrownFiles(fs: seq<File>, gs: seq<File>, k: nat)
    requires Sorted(fs) && Grows(fs, gs) && k < |fs|
    ensures k < |gs| && fs[..k] == gs[..k] && Longer(fs[k], gs[k])
    ensures forall i :: k < i < |fs| ==> Less(fs[k].key, fs[i].key)
    ensures forall i :: k < i < |gs| ==> Less(fs[k].key, gs[i].key)
  {
    hide Less;
    assert forall i :: 0 <= i < k ==> fs[i] == gs[i];
  }

  lemma SameVerdict(f: File, g: File, q: Query, cursor: Cursor)
    requires Longer(f, g) && cursor.Before? && f.key == cursor.key && cursor.offset <= |f.content|
    ensures PassedOver(q, cursor, f) == PassedOver(q, cursor, g) && Ends(q, f) == Ends(q, g)
    ensures EndOffset(cursor, f) == EndOffset(cursor, g) == cursor.offset
  {
    hide DateLess, DateAt, Less;
  }

  lemma LineInside(f: File, i: nat)
    requires i < |FileItems(f, |f.content|)|
    ensures var it := FileItems(f, |f.content|)[i]; it.key == f.key && it.start + |it.text| + 1 <= |f.content|
  {
    hide Scan;
    ScannedFits(f.content, |f.content|, Scan(f.content, |f.content|, CHUNK, MAX_LINE)[i]);
  }

  /** A cursor amid the lines of a directory stands inside one of its files. */
  lemma {:induction false} AmidIsInside(fs: seq<File>, q: Query, cursor: Cursor) returns (k: nat)
    requires Amid(Feed(fs, q, Start), cursor)
    ensures Inside(fs, cursor, k)
  {
    hide FileItems, Ends, PassedOver;
    var n := |fs| - 1;
    var f, items, rest := fs[n], Feed(fs, q, Start), Feed(fs[..n], q, Start);
    var i :| 0 <= i < |items| && UpTo(items[i], cursor);
    var own := if PassedOver(q, Start, f) then [] else FileItems(f, |f.content|);
    assert items == own + rest;
    if i < |own| {
      LineInside(f, i);
      k := n;
    } else {
      assert UpTo(rest[i - |own|], cursor);
      k := AmidIsInside(fs[..n], q, cursor);
    }
  }

  lemma CursorStands(fs: seq<File>, gs: seq<File>, q: Query, cursor: Cursor)
    requires Sorted(fs) && Grows(fs, gs) && Amid(Feed(fs, q, Start), cursor)
    ensures Feed(gs, q, cursor) == Feed(fs, q, cursor)
  {
    hide Feed, Grows, Sorted, Amid;
    var k := AmidIsInside(fs, q, cursor);
    SameFeed(fs, gs, q, cursor, k);
  }

  /** The directory as each page finds it. */
  type Directories = nat -> seq<File>

  ghost predicate GrowsAt(dir: Directories, i: nat) { Grows(dir(i), dir(i + 1)) }

  ghost predicate KeepsGrowing(dir: Directories) { forall i: nat :: GrowsAt(dir, i) }

  lemma {:induction false} GrownBy(dir: Directories, i: nat)
    requires KeepsGrowing(dir)
    ensures Grows(dir(0), dir(i + 1))
  {
    hide Grows;
    assert GrowsAt(dir, i);
    if i > 0 {
      GrownBy(dir, i - 1);
      GrowsOn(dir(0), dir(i), dir(i + 1));
    }
  }

  /**
   * A client that follows the cursors while entries are being saved: each page
   * is read from the directory as it is by then. It ends, and gets exactly what
   * the directory held when it began: nothing lost, repeated or reordered.
   */
  method FollowGrowing(c: Codec, dir: Directories, q: Query) returns (entries: seq<Entry>)
    requires Readable(dir(0)) && q.limit > 0 && KeepsGrowing(dir)
    ensures entries == Takes(c, q, Feed(dir(0), q, Start))
  {
    hide RunPage, Feed, DecodeCursor, Takes, Grows, KeepsGrowing, Amid, Sorted;
    var cursor, i := Start, 0;
    entries := [];
    ghost var files := dir(0);
    ghost var items, m := Feed(files, q, Start), 0;
    assert items[0..] == items;
    assert Sorted(files);
    hide Readable;
    while true
      invariant 0 <= i && m <= |items| && Feed(dir(i), q, cursor) == Feed(files, q, cursor) == items[m..]
      invariant entries + Takes(c, q, items[m..]) == Takes(c, q, items)
      decreases |items| - m
    {
      var page := ReadLogHistory(c, dir(i), q, cursor);
      ghost var k, after := NextPage(c, files, q, cursor, m);
      entries := entries + page.entries;
      if page.next == "" { return; }
      cursor := DecodeCursor(page.next).value;
      GrownBy(dir, i);
      CursorStands(files, dir(i + 1), q, cursor);
      i, m := i + 1, k;
    }
  }
}
