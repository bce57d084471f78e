// Reading saved logs back, newest first, a page at a time: one request scans
// files backwards until its page fills, its scan budget runs out, or it is
// past the time range, and answers with a cursor to go on from.
module LogHistory {
  import opened Decimal
  import opened LogLines
  import opened BackwardScan
  import opened LogFileKey
  import opened LogRecord

  const SCAN_LIMIT: nat := 67108864
  const ORDER_SLACK: nat := 60_000_000_000

  /** The library functions the reader calls: time parsing, JSON decoding and lower-casing. */
  datatype Codec = Codec(parseTime: string -> Option<nat>, unmarshal: string -> Option<Entry>, lower: char -> char)

  datatype File = File(key: Key, content: string)

  datatype Page = Page(entries: seq<Entry>, next: string, partial: bool)

  datatype Progress = Progress(page: Page, scanned: nat)

  const FRESH: Progress := Progress(Page([], "", false), 0)

  // ----- One line

  datatype Verdict = Skip | Stop | Take(entry: Entry)

  /** What the scan does with a line once the budget allows it. */
  function Judge(c: Codec, q: Query, line: string): Verdict {
    match LineTime(c.parseTime, line)
    case None => Skip
    case Some(ts) =>
      if ts > q.to then Skip
      else if q.from.Some? && ts < q.from.value then
        if ts + ORDER_SLACK < q.from.value then Stop else Skip
      else if !RawChecks(c.lower, q, line) then Skip
      else
        match c.unmarshal(line)
        case None => Skip
        case Some(e) => if Matches(c.lower, q, e) then Take(e) else Skip
  }

  /** The scan's callback: counts the line, judges it, and says whether the page is done. */
  function OnLine(c: Codec, q: Query, key: Key, st: Progress, line: string, start: nat): (Progress, bool) {
    var scanned := st.scanned + |line| + 1;
    if scanned > SCAN_LIMIT then
      (Progress(st.page.(next := EncodeCursor(key, start + |line| + 1), partial := true), scanned), true)
    else
      match Judge(c, q, line)
      case Skip => (st.(scanned := scanned), false)
      case Stop => (st.(scanned := scanned), true)
      case Take(e) =>
        var entries := st.page.entries + [e];
        if |entries| >= q.limit then
          (Progress(st.page.(entries := entries, next := EncodeCursor(key, start)), scanned), true)
        else
          (Progress(st.page.(entries := entries), scanned), false)
  }

  // ----- A page as one pass over a list of lines

  datatype Item = Item(key: Key, start: nat, text: string)

  function RunPage(c: Codec, q: Query, st: Progress, items: seq<Item>): (Progress, bool)
    decreases |items|
  {
    if items == [] then (st, false)
    else
      var (next, stop) := OnLine(c, q, items[0].key, st, items[0].text, items[0].start);
      if stop then (next, true) else RunPage(c, q, next, items[1..])
  }

  function Items(key: Key, content: string, ls: seq<Line>): (items: seq<Item>)
    ensures |items| == |ls|
    ensures forall i :: 0 <= i < |ls| ==> items[i] == Item(key, ls[i].start, Text(content, ls[i]))
  {
    seq(|ls|, i requires 0 <= i < |ls| => Item(key, ls[i].start, Text(content, ls[i])))
  }

  function FileItems(f: File, end: nat): seq<Item>
    requires end <= |f.content|
  {
    Items(f.key, f.content, Scan(f.content, end, CHUNK, MAX_LINE))
  }

  lemma {:induction false} FoldIsRunPage(c: Codec, q: Query, key: Key, content: string, st: Progress, ls: seq<Line>,
                                         fn: (Progress, string, nat) -> (Progress, bool))
    requires forall s, line, start :: fn(s, line, start) == OnLine(c, q, key, s, line, start)
    ensures FoldUntil(fn, st, content, ls) == RunPage(c, q, st, Items(key, content, ls))
    decreases |ls|
  {
    hide OnLine, Text;
    if ls != [] {
      assert Items(key, content, ls)[1..] == Items(key, content, ls[1..]);
      FoldIsRunPage(c, q, key, content, fn(st, Text(content, ls[0]), ls[0].start).0, ls[1..], fn);
    }
  }

  /** Scans one file backwards from `end`; reports whether the page is complete. */
  method ReadLogFile(c: Codec, f: File, end: nat, q: Query, st: Progress) returns (next: Progress, done: bool)
    requires end <= |f.content|
    ensures (next, done) == RunPage(c, q, st, FileItems(f, end))
  {
    hide OnLine, RunPage, FoldUntil, Scan;
    var fn := (s: Progress, line: string, start: nat) => OnLine(c, q, f.key, s, line, start);
    next, done := ScanLinesBackward(f.content, end, CHUNK, MAX_LINE, st, fn);
    FoldIsRunPage(c, q, f.key, f.content, st, Scan(f.content, end, CHUNK, MAX_LINE), fn);
  }

  // ----- A request

  /** Files newer than the cursor, or dated past the day after `to`, are passed over. */
  predicate PassedOver(q: Query, cursor: Cursor, f: File) {
    || (cursor.Before? && Less(cursor.key, f.key))
    || DateLess(DateAt(q.to + NS_PER_DAY), f.key.date)
  }

  /** A file dated before `from` ends the request: no older one is read. */
  predicate Ends(q: Query, f: File) {
    q.from.Some? && DateLess(f.key.date, DateAt(q.from.value))
  }

  function EndOffset(cursor: Cursor, f: File): (end: nat)
    ensures end <= |f.content|
  {
    if cursor.Before? && f.key == cursor.key && cursor.offset < |f.content| then cursor.offset else |f.content|
  }

  /** The lines a request would read if nothing cut its page short, newest first. */
  function Feed(files: seq<File>, q: Query, cursor: Cursor): seq<Item> {
    if files == [] then []
    else
      var f := files[|files| - 1];
      var older := files[..|files| - 1];
      if PassedOver(q, cursor, f) then Feed(older, q, cursor)
      else if Ends(q, f) then []
      else FileItems(f, EndOffset(cursor, f)) + Feed(older, q, cursor)
  }

  lemma {:induction false} RunPageConcat(c: Codec, q: Query, st: Progress, a: seq<Item>, b: seq<Item>)
    ensures RunPage(c, q, st, a + b) ==
            var (next, stop) := RunPage(c, q, st, a);
            if stop then (next, true) else RunPage(c, q, next, b)
    decreases |a|
  {
    hide OnLine;
    if a == [] {
      assert a + b == b;
    } else {
      assert (a + b)[1..] == a[1..] + b;
      RunPageConcat(c, q, OnLine(c, q, a[0].key, st, a[0].text, a[0].start).0, a[1..], b);
    }
  }

  /** One request over the directory's files, oldest first. */
  method ReadLogHistory(c: Codec, files: seq<File>, q: Query, cursor: Cursor) returns (page: Page)
    ensures page == RunPage(c, q, FRESH, Feed(files, q, cursor)).0.page
  {
    hide RunPage, FileItems, PassedOver, Ends, Feed;
    var st := FRESH;
    var i := |files|;
    RunPageNil(c, q);
    FeedNothing(q, cursor);
    assert files[..i] == files && files[..0] == [];
    while i > 0
      invariant 0 <= i <= |files|
      invariant RunPage(c, q, FRESH, Feed(files, q, cursor)) == RunPage(c, q, st, Feed(files[..i], q, cursor))
    {
      FeedStep(files, i, q, cursor);
      i := i - 1;
      var f := files[i];
      if PassedOver(q, cursor, f) { continue; }
      if Ends(q, f) {
        RunPageNil(c, q);
        break;
      }
      RunPageConcat(c, q, st, FileItems(f, EndOffset(cursor, f)), Feed(files[..i], q, cursor));
      var done: bool;
      st, done := ReadLogFile(c, f, EndOffset(cursor, f), q, st);
      if done { return st.page; }
    }
    return st.page;
  }

  lemma RunPageNil(c: Codec, q: Query)
    ensures forall st :: RunPage(c, q, st, []) == (st, false)
  {
  }

  lemma FeedNothing(q: Query, cursor: Cursor)
    ensures Feed([], q, cursor) == []
  {
  }

  lemma FeedStep(files: seq<File>, i: nat, q: Query, cursor: Cursor)
    requires 0 < i <= |files|
    ensures Feed(files[..i], q, cursor) ==
            if PassedOver(q, cursor, files[i - 1]) then Feed(files[..i - 1], q, cursor)
            else if Ends(q, files[i - 1]) then []
            else FileItems(files[i - 1], EndOffset(cursor, files[i - 1])) + Feed(files[..i - 1], q, cursor)
    ensures Feed(files[..0], q, cursor) == []
  {
    hide PassedOver, Ends, FileItems;
    assert files[..i][..i - 1] == files[..i - 1];
  }

  // ----- What a page leaves for the next one

  /** The entries a run of lines yields before the first line that stops it. */
  function Takes(c: Codec, q: Query, items: seq<Item>): seq<Entry> {
    if items == [] then []
    else
      match Judge(c, q, items[0].text)
      case Skip => Takes(c, q, items[1..])
      case Stop => []
      case Take(e) => [e] + Takes(c, q, items[1..])
  }

  /** `next` resumes at items[p..]: just past a taken line, or at a line the budget did not cover. */
  predicate ResumesAt(items: seq<Item>, next: string, p: nat) {
    || (0 < p <= |items| && next == EncodeCursor(items[p - 1].key, items[p - 1].start))
    || (p < |items| && next == EncodeCursor(items[p].key, items[p].start + |items[p].text| + 1))
  }

  lemma ResumesShift(items: seq<Item>, next: string, p: nat)
    requires items != [] && ResumesAt(items[1..], next, p)
    ensures ResumesAt(items, next, p + 1)
  {
    hide EncodeCursor;
  }

  /** A line that does not end the page. */
  lemma GoesOn(c: Codec, q: Query, st: Progress, items: seq<Item>)
    requires |st.page.entries| < q.limit && st.page.next == "" && items != []
    requires !OnLine(c, q, items[0].key, st, items[0].text, items[0].start).1
    ensures var next := OnLine(c, q, items[0].key, st, items[0].text, items[0].start).0;
            && |next.page.entries| < q.limit && next.page.next == ""
            && next.page.entries + Takes(c, q, items[1..]) == st.page.entries + Takes(c, q, items)
            && RunPage(c, q, st, items) == RunPage(c, q, next, items[1..])
            && st.scanned + |items[0].text| + 1 <= SCAN_LIMIT
  {
    hide Judge, EncodeCursor;
  }

  /** A line that ends the page: it was taken, is past the time bound, or is over the budget. */
  lemma StopsHere(c: Codec, q: Query, st: Progress, items: seq<Item>) returns (p: nat)
    requires |st.page.entries| < q.limit && st.page.next == "" && items != []
    requires OnLine(c, q, items[0].key, st, items[0].text, items[0].start).1
    ensures Resumed(c, q, st, items, p)
  {
    hide Judge, EncodeCursor;
    var it := items[0];
    EncodedIsText(it.key, it.start);
    EncodedIsText(it.key, it.start + |it.text| + 1);
    p := 1;
    if st.scanned + |it.text| + 1 > SCAN_LIMIT {
      p := 0;
      assert items[0..] == items;
    }
  }

  /** The page's entries and those from its cursor on are those of the uncut run, and the page makes progress. */
  ghost predicate Resumed(c: Codec, q: Query, st: Progress, items: seq<Item>, p: nat) {
    var r := RunPage(c, q, st, items).0.page;
    if r.next == "" then r.entries == st.page.entries + Takes(c, q, items)
    else
      && p <= |items| && ResumesAt(items, r.next, p)
      && r.entries + Takes(c, q, items[p..]) == st.page.entries + Takes(c, q, items)
      && (items != [] && st.scanned + |items[0].text| + 1 <= SCAN_LIMIT ==> p > 0)
  }

  /** A cut page and the lines from where it resumes together yield what the whole run does. */
  lemma {:induction false} PageResumes(c: Codec, q: Query, st: Progress, items: seq<Item>) returns (p: nat)
    requires q.limit > 0 && |st.page.entries| < q.limit && st.page.next == ""
    ensures Resumed(c, q, st, items, p)
    decreases |items|
  {
    p := 0;
    if items != [] {
      hide OnLine, EncodeCursor;
      var (next, stop) := OnLine(c, q, items[0].key, st, items[0].text, items[0].start);
      if stop {
        p := StopsHere(c, q, st, items);
      } else {
        GoesOn(c, q, st, items);
        p := PageResumes(c, q, next, items[1..]);
        hide RunPage, Takes;
        var after := RunPage(c, q, next, items[1..]).0.page;
        if after.next != "" {
          ResumesShift(items, after.next, p);
          assert items[1..][p..] == items[p + 1..];
        }
        p := p + 1;
      }
    }
  }

  lemma EncodedIsText(key: Key, offset: nat)
    ensures EncodeCursor(key, offset) != ""
  {
  }

  // ----- Cursors and the list of lines

  /** The directory listing: keys strictly increase, as file names are distinct. */
  ghost predicate Sorted(files: seq<File>) {
    forall i, j :: 0 <= i < j < |files| ==> Less(files[i].key, files[j].key)
  }

  /** Every line of the file is within the reader's line limit. */
  ghost predicate Fits(f: File) {
    forall l :: l in LinesBefore(f.content, |f.content|) ==> l.end - l.start <= MAX_LINE
  }

  /** The item lies below the cursor: in an older file, or ended before the offset. */
  predicate Below(it: Item, cursor: Cursor) {
    cursor.Before? ==> Less(it.key, cursor.key) || (it.key == cursor.key && it.start + |it.text| < cursor.offset)
  }

  /** The list is cut by the cursor at m: nothing above is below it, everything from m on is. */
  ghost predicate CutAt(items: seq<Item>, cursor: Cursor, m: nat) {
    && m <= |items|
    && (forall i :: 0 <= i < m ==> !Below(items[i], cursor))
    && (forall i :: m <= i < |items| ==> Below(items[i], cursor))
  }

  lemma CutAtConcat(a: seq<Item>, b: seq<Item>, cursor: Cursor, m: nat, k: nat)
    requires CutAt(a, cursor, m) && CutAt(b, cursor, k)
    requires m == |a| || k == 0
    ensures CutAt(a + b, cursor, m + k)
  {
    hide Below;
  }

  lemma CutAtUnique(items: seq<Item>, cursor: Cursor, m: nat, k: nat)
    requires CutAt(items, cursor, m) && CutAt(items, cursor, k)
    ensures m == k
  {
    hide Below;
    assert m < |items| ==> Below(items[m], cursor);
    assert k < |items| ==> Below(items[k], cursor);
  }

  lemma ItemsDrop(key: Key, content: string, ls: seq<Line>, m: nat)
    requires m <= |ls|
    ensures Items(key, content, ls[m..]) == Items(key, content, ls)[m..]
  {
  }

  /** A file that fits is read whole from any offset: nothing is dropped. */
  lemma FittingScan(f: File, end: nat)
    requires Fits(f) && end <= |f.content|
    ensures Scan(f.content, end, CHUNK, MAX_LINE) == LinesBefore(f.content, end)
  {
    hide LinesBefore, Keep;
    var g := f.content;
    var m := LinesBeforeSuffix(g, |g|, end);
    assert forall l :: l in LinesBefore(g, end) ==> l in LinesBefore(g, |g|);
    KeepAll(LinesBefore(g, end), end, CHUNK, MAX_LINE);
  }

  /** An item's text ends where its line does. */
  lemma ItemEnd(f: File, i: nat)
    requires i < |LinesBefore(f.content, |f.content|)|
    ensures var l := LinesBefore(f.content, |f.content|)[i];
            l.start + |Text(f.content, l)| == l.end < |f.content|
  {
    hide LinesBefore;
    LinesBeforeSound(f.content, |f.content|, i);
  }

  /** A file that fits, read from any offset, is a suffix of the same file read whole. */
  lemma FileItemsCut(f: File, cursor: Cursor) returns (m: nat)
    requires Fits(f) && cursor.Before? && f.key == cursor.key
    ensures m <= |FileItems(f, |f.content|)| && CutAt(FileItems(f, |f.content|), cursor, m)
    ensures FileItems(f, EndOffset(cursor, f)) == FileItems(f, |f.content|)[m..]
  {
    hide Keep, Fits, LinesBefore, Scan, Text, Less;
    var g, end := f.content, EndOffset(cursor, f);
    var whole := LinesBefore(g, |g|);
    FittingScan(f, |g|);
    FittingScan(f, end);
    m := LinesBeforeSuffix(g, |g|, end);
    ItemsDrop(f.key, g, whole, m);
    var items := FileItems(f, |g|);
    LessTotal(f.key, f.key);
    forall i | 0 <= i < m ensures !Below(items[i], cursor) {
      ItemEnd(f, i);
    }
    forall i | m <= i < |items| ensures Below(items[i], cursor) {
      ItemEnd(f, i);
      assert whole[i] == LinesBefore(g, end)[i - m];
      LinesBeforeSound(g, end, i - m);
    }
  }

  lemma FileItemsKeys(f: File, end: nat)
    requires end <= |f.content|
    ensures forall i :: 0 <= i < |FileItems(f, end)| ==> FileItems(f, end)[i].key == f.key
  {
  }

  /** Every item of the feed comes from one of the files. */
  lemma {:induction false} FeedKeys(files: seq<File>, q: Query, cursor: Cursor, bound: Key)
    requires forall i :: 0 <= i < |files| ==> Less(files[i].key, bound)
    ensures forall i :: 0 <= i < |Feed(files, q, cursor)| ==> Less(Feed(files, q, cursor)[i].key, bound)
  {
    hide Less, FileItems;
    if files != [] {
      var f := files[|files| - 1];
      FeedKeys(files[..|files| - 1], q, cursor, bound);
      FileItemsKeys(f, EndOffset(cursor, f));
    }
  }

  /** Once a file is dated before `from`, nothing older is fed. */
  lemma {:induction false} FeedEnded(files: seq<File>, q: Query, cursor: Cursor)
    requires forall i :: 0 <= i < |files| ==> Ends(q, files[i])
    ensures Feed(files, q, cursor) == []
  {
    hide Ends, PassedOver;
    if files != [] { FeedEnded(files[..|files| - 1], q, cursor); }
  }

  /** Reading from a cursor feeds a suffix of what reading from the start feeds: the items below it. */
  lemma {:induction false} FeedCut(files: seq<File>, q: Query, cursor: Cursor) returns (m: nat)
    requires Sorted(files) && cursor.Before? && forall i :: 0 <= i < |files| ==> Fits(files[i])
    ensures m <= |Feed(files, q, Start)| && CutAt(Feed(files, q, Start), cursor, m)
    ensures Feed(files, q, cursor) == Feed(files, q, Start)[m..]
  {
    hide FileItems, Fits, Less, DateLess, DateAt, CutAt, Below, Ends;
    m := 0;
    if files == [] {
      AllBelow([], cursor);
    } else {
      var f := files[|files| - 1];
      var older := files[..|files| - 1];
      m := FeedCut(older, q, cursor);
      var whole, rest := FileItems(f, |f.content|), Feed(older, q, Start);
      FileItemsKeys(f, |f.content|);
      if DateLess(DateAt(q.to + NS_PER_DAY), f.key.date) {
      } else if Ends(q, f) {
        OlderEnds(files, q);
        FeedEnded(older, q, cursor);
        FeedEnded(older, q, Start);
        AllBelow([], cursor);
        m := 0;
      } else if Less(cursor.key, f.key) {
        AllAbove(whole, cursor);
        CutAtConcat(whole, rest, cursor, |whole|, m);
        assert (whole + rest)[|whole| + m..] == rest[m..];
        m := |whole| + m;
      } else {
        var n := 0;
        LessTotal(cursor.key, f.key);
        if f.key == cursor.key {
          n := FileItemsCut(f, cursor);
        } else {
          AllBelow(whole, cursor);
        }
        OlderBelow(files, q, cursor);
        CutAtUnique(rest, cursor, m, 0);
        CutAtConcat(whole, rest, cursor, n, 0);
        assert (whole + rest)[n..] == whole[n..] + rest;
        m := n;
      }
    }
  }

  lemma AllAbove(items: seq<Item>, cursor: Cursor)
    requires cursor.Before? && forall i :: 0 <= i < |items| ==> Less(cursor.key, items[i].key)
    ensures CutAt(items, cursor, |items|)
  {
    forall i | 0 <= i < |items| ensures !Below(items[i], cursor) { LessTotal(cursor.key, items[i].key); }
  }

  lemma AllBelow(items: seq<Item>, cursor: Cursor)
    requires cursor.Before? && forall i :: 0 <= i < |items| ==> Less(items[i].key, cursor.key)
    ensures CutAt(items, cursor, 0)
  {
  }

  lemma LessTrans(a: Key, b: Key, c: Key)
    requires Less(a, b) && Less(b, c)
    ensures Less(a, c)
  {
  }

  /** Files older than one at or before the cursor feed only items below it. */
  lemma OlderBelow(files: seq<File>, q: Query, cursor: Cursor)
    requires Sorted(files) && files != [] && cursor.Before? && !Less(cursor.key, files[|files| - 1].key)
    ensures CutAt(Feed(files[..|files| - 1], q, Start), cursor, 0)
  {
    var last := files[|files| - 1];
    LessTotal(cursor.key, last.key);
    forall i | 0 <= i < |files| - 1 ensures Less(files[i].key, cursor.key) {
      if last.key != cursor.key { LessTrans(files[i].key, last.key, cursor.key); }
    }
    FeedKeys(files[..|files| - 1], q, Start, cursor.key);
    AllBelow(Feed(files[..|files| - 1], q, Start), cursor);
  }

  lemma OlderEnds(files: seq<File>, q: Query)
    requires Sorted(files) && files != [] && Ends(q, files[|files| - 1])
    ensures forall i :: 0 <= i < |files| - 1 ==> Ends(q, files[i])
  {
    forall i | 0 <= i < |files| - 1 ensures Ends(q, files[i]) {
      assert Less(files[i].key, files[|files| - 1].key);
    }
  }

  // ----- The feed is in strictly decreasing position

  predicate Newer(a: Item, b: Item) {
    Less(b.key, a.key) || (b.key == a.key && b.start + |b.text| < a.start)
  }

  ghost predicate Descends(items: seq<Item>) {
    forall i, j :: 0 <= i < j < |items| ==> Newer(items[i], items[j])
  }

  lemma {:induction false} LinesDescend(g: string, end: nat, i: nat, j: nat)
    requires end <= |g| && i < j < |LinesBefore(g, end)|
    ensures LinesBefore(g, end)[j].end < LinesBefore(g, end)[i].start
    decreases j - i
  {
    hide LinesBefore;
    LinesBeforeSound(g, end, j);
    if i + 1 < j {
      LinesDescend(g, end, i, j - 1);
      LinesBeforeSound(g, end, j - 1);
    }
  }

  lemma FileItemsDescend(f: File)
    requires Fits(f)
    ensures Descends(FileItems(f, |f.content|))
  {
    hide Keep, Fits, LinesBefore, Scan, Text, Less;
    var g := f.content;
    FittingScan(f, |g|);
    var items := FileItems(f, |g|);
    forall i, j | 0 <= i < j < |items| ensures Newer(items[i], items[j]) {
      LinesDescend(g, |g|, i, j);
      ItemEnd(f, j);
    }
  }

  lemma {:induction false} FeedDescends(files: seq<File>, q: Query)
    requires Sorted(files) && forall i :: 0 <= i < |files| ==> Fits(files[i])
    ensures Descends(Feed(files, q, Start))
  {
    hide Fits, Less, FileItems, PassedOver, Ends;
    if files != [] {
      var f := files[|files| - 1];
      var older := files[..|files| - 1];
      FeedDescends(older, q);
      FileItemsDescend(f);
      FileItemsKeys(f, |f.content|);
      FeedKeys(older, q, Start, f.key);
    }
  }

  /** The cursor stands no further than the end of one of the lines. */
  ghost predicate Amid(items: seq<Item>, cursor: Cursor) {
    exists i :: 0 <= i < |items| && UpTo(items[i], cursor)
  }

  predicate UpTo(it: Item, cursor: Cursor) {
    cursor.Before? && cursor.key == it.key && cursor.offset <= it.start + |it.text| + 1
  }

  /** A cursor handed out at items[p] cuts the list exactly there. */
  lemma ResumeCuts(items: seq<Item>, next: string, p: nat) returns (cursor: Cursor)
    requires Descends(items) && ResumesAt(items, next, p)
    requires forall i :: 0 <= i < |items| ==> ValidKey(items[i].key) && items[i].start + |items[i].text| < MAX_OFFSET
    ensures DecodeCursor(next) == Some(cursor) && cursor.Before?
    ensures CutAt(items, cursor, p) && Amid(items, cursor)
  {
    hide EncodeCursor, DecodeCursor, ValidKey, Less;
    if 0 < p && next == EncodeCursor(items[p - 1].key, items[p - 1].start) {
      var at := items[p - 1];
      CursorRoundTrip(at.key, at.start);
      cursor := Before(at.key, at.start);
      assert UpTo(items[p - 1], cursor);
      forall i | 0 <= i < |items| ensures Below(items[i], cursor) <==> p <= i { NewerIff(items, p - 1, i); }
    } else {
      var at := items[p];
      CursorRoundTrip(at.key, at.start + |at.text| + 1);
      cursor := Before(at.key, at.start + |at.text| + 1);
      assert UpTo(items[p], cursor);
      forall i | 0 <= i < |items| ensures Below(items[i], cursor) <==> p <= i { AtOrBelow(items, p, i); }
    }
  }

  lemma NewerIff(items: seq<Item>, p: nat, i: nat)
    requires Descends(items) && p < |items| && i < |items|
    ensures Newer(items[p], items[i]) <==> p < i
    ensures Newer(items[i], items[p]) <==> i < p
  {
    hide Less;
    LessTotal(items[p].key, items[i].key);
  }

  lemma AtOrBelow(items: seq<Item>, p: nat, i: nat)
    requires Descends(items) && p < |items| && i < |items|
    ensures Below(items[i], Before(items[p].key, items[p].start + |items[p].text| + 1)) <==> p <= i
  {
    hide Less, Descends;
    LessTotal(items[p].key, items[i].key);
    NewerIff(items, p, i);
  }
}
