// Following the cursors of a query to the end: the pages put together are the
// whole newest-first list of matching entries, wherever each page was cut.
module LogPaging {
  import opened Decimal
  import opened LogLines
  import opened BackwardScan
  import opened LogFileKey
  import opened LogRecord
  import opened LogHistory

  /** A directory the reader handles: distinct keys, lines within the limit, offsets that fit a cursor. */
  ghost predicate Readable(files: seq<File>) {
    && Sorted(files)
    && (forall i :: 0 <= i < |files| ==> Fits(files[i]) && ValidKey(files[i].key) && |files[i].content| <= MAX_OFFSET)
  }

  predicate Sound(it: Item) {
    ValidKey(it.key) && it.start + |it.text| < MAX_OFFSET && |it.text| <= MAX_LINE
  }

  lemma FileItemsSound(f: File)
    requires Fits(f) && ValidKey(f.key) && |f.content| <= MAX_OFFSET
    ensures forall i :: 0 <= i < |FileItems(f, |f.content|)| ==> Sound(FileItems(f, |f.content|)[i])
  {
    hide Scan, LinesBefore, Text, ValidKey;
    FittingScan(f, |f.content|);
    var items := FileItems(f, |f.content|);
    forall i | 0 <= i < |items| ensures Sound(items[i]) {
      ItemEnd(f, i);
      assert LinesBefore(f.content, |f.content|)[i] in LinesBefore(f.content, |f.content|);
    }
  }

  lemma {:induction false} FeedSound(files: seq<File>, q: Query)
    requires Readable(files)
    ensures forall i :: 0 <= i < |Feed(files, q, Start)| ==> Sound(Feed(files, q, Start)[i])
  {
    hide Fits, ValidKey, PassedOver, Ends, FileItems, Sound, Less;
    if files != [] {
      FeedSound(files[..|files| - 1], q);
      FileItemsSound(files[|files| - 1]);
    }
  }

  lemma ResumesInTail(items: seq<Item>, m: nat, next: string, p: nat)
    requires m <= |items| && ResumesAt(items[m..], next, p)
    ensures ResumesAt(items, next, m + p)
  {
    hide EncodeCursor;
  }

  /** One page from `cursor`, and where its cursor leads. */
  lemma NextPage(c: Codec, files: seq<File>, q: Query, cursor: Cursor, m: nat) returns (k: nat, after: Cursor)
    requires Readable(files) && q.limit > 0 && m <= |Feed(files, q, Start)|
    requires Feed(files, q, cursor) == Feed(files, q, Start)[m..]
    ensures var items := Feed(files, q, Start);
            var page := RunPage(c, q, FRESH, Feed(files, q, cursor)).0.page;
            if page.next == "" then page.entries == Takes(c, q, items[m..])
            else
              && m < k <= |items|
              && DecodeCursor(page.next) == Some(after)
              && Feed(files, q, after) == items[k..] && Amid(items, after)
              && page.entries + Takes(c, q, items[k..]) == Takes(c, q, items[m..])
  {
    hide RunPage, Feed, DecodeCursor, Takes, ResumesAt, ValidKey, Fits, Less, CutAt, Below, Amid;
    var items := Feed(files, q, Start);
    var p := PageResumes(c, q, FRESH, items[m..]);
    var page := RunPage(c, q, FRESH, items[m..]).0.page;
    k, after := m, cursor;
    if page.next == "" {
      assert [] + Takes(c, q, items[m..]) == Takes(c, q, items[m..]);
    } else {
      k := m + p;
      assert items[m..][p..] == items[k..];
      assert [] + Takes(c, q, items[m..]) == Takes(c, q, items[m..]);
      FeedSound(files, q);
      FeedDescends(files, q);
      ResumesInTail(items, m, page.next, p);
      after := ResumeCuts(items, page.next, k);
      var n := FeedCut(files, q, after);
      CutAtUnique(items, after, n, k);
      if m == |items| { RunPageNil(c, q); }
      assert items[m..] != [];
      assert Sound(items[m]);
    }
  }

  /**
   * A client that keeps asking for the next page until no cursor comes back.
   * It always ends, and the pages concatenate to the whole list.
   */
  method FollowCursors(c: Codec, files: seq<File>, q: Query) returns (entries: seq<Entry>)
    requires Readable(files) && q.limit > 0
    ensures entries == Takes(c, q, Feed(files, q, Start))
  {
    hide RunPage, Feed, DecodeCursor, Takes, Readable;
    var cursor := Start;
    entries := [];
    ghost var items, m := Feed(files, q, Start), 0;
    assert items[0..] == items;
    while true
      invariant m <= |items| && Feed(files, q, cursor) == items[m..]
      invariant entries + Takes(c, q, items[m..]) == Takes(c, q, items)
      decreases |items| - m
    {
      var page := ReadLogHistory(c, files, q, cursor);
      ghost var k, after := NextPage(c, files, q, cursor, m);
      entries := entries + page.entries;
      if page.next == "" { return; }
      var decoded := DecodeCursor(page.next);
      cursor := decoded.value;
      m := k;
    }
  }

  // ----- Which entries that list holds

  /** Every line of every file, newest first. */
  function AllItems(files: seq<File>): seq<Item> {
    if files == [] then []
    else FileItems(files[|files| - 1], |files[|files| - 1].content|) + AllItems(files[..|files| - 1])
  }

  /** The entries of the lines the query wants, whatever stands between them. */
  function Wanted(c: Codec, q: Query, items: seq<Item>): seq<Entry> {
    if items == [] then []
    else
      match Judge(c, q, items[0].text)
      case Take(e) => [e] + Wanted(c, q, items[1..])
      case _ => Wanted(c, q, items[1..])
  }

  function TimeOf(c: Codec, it: Item): Option<nat> { LineTime(c.parseTime, it.text) }

  /** A line is never dated after the day of its file, and at most a day before it. */
  ghost predicate DaysAgree(c: Codec, items: seq<Item>) {
    forall i :: 0 <= i < |items| && TimeOf(c, items[i]).Some? ==>
      && !DateLess(items[i].key.date, DateAt(TimeOf(c, items[i]).value))
      && !DateLess(DateAt(TimeOf(c, items[i]).value + NS_PER_DAY), items[i].key.date)
  }

  /** A line sits at most the slack out of time order. */
  ghost predicate TimesAgree(c: Codec, items: seq<Item>) {
    forall i, j :: 0 <= i < j < |items| && TimeOf(c, items[i]).Some? && TimeOf(c, items[j]).Some? ==>
      TimeOf(c, items[j]).value <= TimeOf(c, items[i]).value + ORDER_SLACK
  }

  lemma {:induction false} WantedNone(c: Codec, q: Query, items: seq<Item>)
    requires forall i :: 0 <= i < |items| ==> !Judge(c, q, items[i].text).Take?
    ensures Wanted(c, q, items) == []
  {
    hide Judge;
    if items != [] { WantedNone(c, q, items[1..]); }
  }

  lemma {:induction false} WantedConcat(c: Codec, q: Query, a: seq<Item>, b: seq<Item>)
    ensures Wanted(c, q, a + b) == Wanted(c, q, a) + Wanted(c, q, b)
  {
    hide Judge;
    if a == [] {
      assert a + b == b;
    } else {
      assert (a + b)[1..] == a[1..] + b;
      WantedConcat(c, q, a[1..], b);
    }
  }

  /** Stopping at a line past the slack loses nothing. */
  lemma {:induction false} StopLosesNothing(c: Codec, q: Query, items: seq<Item>)
    requires q.from.Some? ==> TimesAgree(c, items)
    ensures Takes(c, q, items) == Wanted(c, q, items)
  {
    if items != [] {
      if Judge(c, q, items[0].text).Stop? {
        forall i | 0 <= i < |items| - 1 ensures !Judge(c, q, items[1..][i].text).Take? {
          assert items[1..][i] == items[i + 1];
          TimeOrder(c, items, i + 1);
        }
        WantedNone(c, q, items[1..]);
      } else {
        assert q.from.Some? ==> TimesAgree(c, items[1..]) by { hide TimeOf; }
        hide Judge;
        StopLosesNothing(c, q, items[1..]);
      }
    }
  }

  lemma TimeOrder(c: Codec, items: seq<Item>, j: nat)
    requires TimesAgree(c, items) && 0 < j < |items|
    ensures TimeOf(c, items[0]).Some? && TimeOf(c, items[j]).Some? ==>
              TimeOf(c, items[j]).value <= TimeOf(c, items[0]).value + ORDER_SLACK
  {
  }

  lemma DateAtOrder(s: nat, t: nat)
    ensures DateLess(DateAt(s), DateAt(t)) ==> s < t
  {
    DateOfOrder(s / NS_PER_DAY, t / NS_PER_DAY);
  }

  /** A file passed over, or past the end, holds nothing the query wants. */
  lemma UnreadUnwanted(c: Codec, q: Query, it: Item)
    requires DaysAgree(c, [it])
    requires DateLess(DateAt(q.to + NS_PER_DAY), it.key.date)
          || (q.from.Some? && DateLess(it.key.date, DateAt(q.from.value)))
    ensures !Judge(c, q, it.text).Take?
  {
    hide DateAt, LineTime, RawChecks, Matches;
    assert [it][0] == it;
    match LineTime(c.parseTime, it.text)
    case None =>
    case Some(ts) =>
      assert TimeOf(c, [it][0]).Some?;
      if DateLess(DateAt(q.to + NS_PER_DAY), it.key.date) {
        assert DateLess(DateAt(q.to + NS_PER_DAY), DateAt(ts + NS_PER_DAY));
        DateAtOrder(q.to + NS_PER_DAY, ts + NS_PER_DAY);
      } else {
        assert DateLess(DateAt(ts), DateAt(q.from.value));
        DateAtOrder(ts, q.from.value);
      }
  }

  lemma UnreadNone(c: Codec, q: Query, items: seq<Item>)
    requires DaysAgree(c, items)
    requires forall i :: 0 <= i < |items| ==>
               DateLess(DateAt(q.to + NS_PER_DAY), items[i].key.date)
               || (q.from.Some? && DateLess(items[i].key.date, DateAt(q.from.value)))
    ensures Wanted(c, q, items) == []
  {
    hide Judge, DateAt, DateLess, TimeOf;
    forall i | 0 <= i < |items| ensures !Judge(c, q, items[i].text).Take? {
      assert [items[i]][0] == items[i];
      UnreadUnwanted(c, q, items[i]);
    }
    WantedNone(c, q, items);
  }

  lemma {:induction false} AllItemsEnded(files: seq<File>, q: Query)
    requires q.from.Some? && forall i :: 0 <= i < |files| ==> Ends(q, files[i])
    ensures forall i :: 0 <= i < |AllItems(files)| ==> DateLess(AllItems(files)[i].key.date, DateAt(q.from.value))
  {
    hide FileItems, DateLess, DateAt;
    if files != [] {
      var n := |files| - 1;
      AllItemsEnded(files[..n], q);
      FileItemsKeys(files[n], |files[n].content|);
      assert Ends(q, files[n]);
    }
  }

  lemma DaysAgreeSplit(c: Codec, a: seq<Item>, b: seq<Item>)
    requires DaysAgree(c, a + b)
    ensures DaysAgree(c, a) && DaysAgree(c, b)
  {
    hide TimeOf, DateLess, DateAt;
    assert forall i :: 0 <= i < |a| ==> (a + b)[i] == a[i];
    assert forall i :: 0 <= i < |b| ==> (a + b)[|a| + i] == b[i];
  }

  /** What the request never reads, the query does not want. */
  lemma {:induction false} FeedHoldsAllWanted(c: Codec, q: Query, files: seq<File>)
    requires Sorted(files) && DaysAgree(c, AllItems(files))
    ensures Wanted(c, q, Feed(files, q, Start)) == Wanted(c, q, AllItems(files))
  {
    hide Judge, DateAt, DateLess, FileItems, DaysAgree, Wanted;
    if files != [] {
      var n := |files| - 1;
      var f, older := files[n], files[..n];
      var head, rest := FileItems(f, |f.content|), AllItems(older);
      DaysAgreeSplit(c, head, rest);
      FeedHoldsAllWanted(c, q, older);
      WantedConcat(c, q, head, rest);
      FileItemsKeys(f, |f.content|);
      if PassedOver(q, Start, f) {
        UnreadNone(c, q, head);
        assert [] + Wanted(c, q, rest) == Wanted(c, q, rest);
      } else if Ends(q, f) {
        OlderEnds(files, q);
        AllItemsEnded(older, q);
        UnreadNone(c, q, head);
        UnreadNone(c, q, rest);
        WantedNone(c, q, []);
      } else {
        WantedConcat(c, q, head, Feed(older, q, Start));
      }
    }
  }

  ghost predicate Within(c: Codec, x: Item, y: Item) {
    TimeOf(c, x).Some? && TimeOf(c, y).Some? ==> TimeOf(c, y).value <= TimeOf(c, x).value + ORDER_SLACK
  }

  lemma TimesAgreeSplit(c: Codec, a: seq<Item>, b: seq<Item>)
    requires TimesAgree(c, a + b)
    ensures TimesAgree(c, a) && TimesAgree(c, b)
    ensures forall x, y :: x in a && y in b ==> Within(c, x, y)
  {
    hide TimeOf;
    assert forall i :: 0 <= i < |a| ==> (a + b)[i] == a[i];
    assert forall i :: 0 <= i < |b| ==> (a + b)[|a| + i] == b[i];
    forall x, y | x in a && y in b ensures Within(c, x, y) {
      var i :| 0 <= i < |a| && a[i] == x;
      var j :| 0 <= j < |b| && b[j] == y;
      assert (a + b)[i] == x && (a + b)[|a| + j] == y;
    }
  }

  lemma TimesAgreeJoin(c: Codec, a: seq<Item>, b: seq<Item>)
    requires TimesAgree(c, a) && TimesAgree(c, b)
    requires forall x, y :: x in a && y in b ==> Within(c, x, y)
    ensures TimesAgree(c, a + b)
  {
    hide TimeOf;
    var s := a + b;
    forall i, j | 0 <= i < j < |s| && TimeOf(c, s[i]).Some? && TimeOf(c, s[j]).Some?
      ensures TimeOf(c, s[j]).value <= TimeOf(c, s[i]).value + ORDER_SLACK
    {
      if j < |a| {
        assert s[i] == a[i] && s[j] == a[j];
      } else if |a| <= i {
        assert s[i] == b[i - |a|] && s[j] == b[j - |a|];
      } else {
        assert s[i] in a && s[j] in b;
        assert Within(c, s[i], s[j]);
      }
    }
  }

  lemma {:induction false} FeedMembers(files: seq<File>, q: Query)
    ensures forall x :: x in Feed(files, q, Start) ==> x in AllItems(files)
  {
    hide FileItems, PassedOver, Ends;
    if files != [] { FeedMembers(files[..|files| - 1], q); }
  }

  /** The lines a request feeds keep the order of all lines. */
  lemma {:induction false} FeedTimes(c: Codec, files: seq<File>, q: Query)
    requires TimesAgree(c, AllItems(files))
    ensures TimesAgree(c, Feed(files, q, Start))
  {
    hide FileItems, PassedOver, Ends, TimesAgree, Within;
    if files == [] {
      NoTimes(c);
    } else {
      var n := |files| - 1;
      var head := FileItems(files[n], |files[n].content|);
      TimesAgreeSplit(c, head, AllItems(files[..n]));
      FeedTimes(c, files[..n], q);
      FeedMembers(files[..n], q);
      TimesAgreeJoin(c, head, Feed(files[..n], q, Start));
      NoTimes(c);
    }
  }

  lemma NoTimes(c: Codec)
    ensures TimesAgree(c, [])
  {
  }

  /**
   * The pages of a query, put together, are exactly the wanted entries of the
   * whole history, newest first: none lost, repeated or reordered.
   */
  lemma PagesAreAllWanted(c: Codec, q: Query, files: seq<File>)
    requires Readable(files) && DaysAgree(c, AllItems(files))
    requires q.from.Some? ==> TimesAgree(c, AllItems(files))
    ensures Takes(c, q, Feed(files, q, Start)) == Wanted(c, q, AllItems(files))
  {
    hide Takes, Feed, Wanted, AllItems, TimesAgree, DaysAgree;
    if q.from.Some? { FeedTimes(c, files, q); }
    StopLosesNothing(c, q, Feed(files, q, Start));
    FeedHoldsAllWanted(c, q, files);
  }
}
