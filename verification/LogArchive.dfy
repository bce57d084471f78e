// From the writer's runs to the reader's answers: entries written promptly and
// nearly in order, over any number of restarts and crashes of the writer, are
// answered to every query exactly, as far as sweeping has left them.
module LogArchive {
  import opened Decimal
  import opened LogLines
  import opened BackwardScan
  import opened LogFileKey
  import opened LogRecord
  import opened LogHistory
  import opened LogPaging
  import opened LogFileWriter
  import opened LogRoundTrip
  import opened Subsequence

  // ----- What the writer puts in

  /** An entry saved within a day of its timestamp lands in a file whose day agrees with it. */
  lemma PromptWritesAgree(ts: nat, now: nat)
    requires ts <= now <= ts + NS_PER_DAY
    ensures !DateLess(DateAt(now), DateAt(ts)) && !DateLess(DateAt(ts + NS_PER_DAY), DateAt(now))
  {
    DateAtOrder(now, ts);
    DateAtOrder(ts + NS_PER_DAY, now);
  }

  /** A line's time agrees with the day of its file, as the reader expects. */
  predicate DatedRight(c: Codec, day: Date, line: string) {
    match LineTime(c.parseTime, line)
    case None => true
    case Some(t) => !DateLess(day, DateAt(t)) && !DateLess(DateAt(t + NS_PER_DAY), day)
  }

  /**
   * What the reader needs of every file: short lines that the writer wrote, on
   * the right day; a day whose year has four digits; an offset that fits.
   */
  ghost function HistoryRules(c: Codec): Rules {
    Rules((day: Date, line: string) => FineLine(c, day, line), (day: Date) => ValidDate(day), MAX_OFFSET)
  }

  ghost predicate FineLine(c: Codec, day: Date, line: string) {
    |line| <= MAX_LINE && DatedRight(c, day, line) && Written(line)
  }

  /** Every entry is written within a day of its timestamp, in a year of four digits, as a line within the limit. */
  ghost predicate Prompt(c: Codec, ops: seq<Op>) {
    forall i :: 0 <= i < |ops| && ops[i].Write? ==> PromptWrite(c, ops[i].entry, ops[i].now)
  }

  predicate PromptWrite(c: Codec, e: Entry, now: nat) {
    && |Marshal(e)| <= MAX_LINE && DateAt(now).year <= 9999
    && (c.parseTime(e.ts).Some? ==> c.parseTime(e.ts).value <= now <= c.parseTime(e.ts).value + NS_PER_DAY)
  }

  lemma {:induction false} DateOfValid(n: nat)
    ensures 1 <= DateOf(n).month <= 12 && 1 <= DateOf(n).day <= DaysIn(DateOf(n).year, DateOf(n).month)
  {
    if n > 0 { DateOfValid(n - 1); }
  }

  lemma PromptIsFine(c: Codec, e: Entry, now: nat, cap: nat)
    requires TimesArePlain(c.parseTime) && PromptWrite(c, e, now) && cap + MAX_LINE < MAX_OFFSET
    ensures LineFine(HistoryRules(c), cap, DateAt(now), Marshal(e))
  {
    hide Marshal, LineTime, TimesArePlain, DateLess, Written;
    LineTimeOfEntry(c.parseTime, e);
    EntryIsWritten(e);
    DateOfValid(now / NS_PER_DAY);
    if c.parseTime(e.ts).Some? { PromptWritesAgree(c.parseTime(e.ts).value, now); }
    hide DateOf;
  }

  lemma PromptOpsFine(c: Codec, ops: seq<Op>, cap: nat)
    requires TimesArePlain(c.parseTime) && Prompt(c, ops) && cap + MAX_LINE < MAX_OFFSET
    ensures OpsFine(HistoryRules(c), ops, cap)
  {
    hide LineFine, PromptWrite, HistoryRules, TimesArePlain, Marshal, DateAt;
    forall i | 0 <= i < |ops| && ops[i].Write?
      ensures LineFine(HistoryRules(c), cap, DateAt(ops[i].now), Marshal(ops[i].entry))
    {
      PromptIsFine(c, ops[i].entry, ops[i].now, cap);
    }
  }

  // ----- The order of lines

  /** A line is at most the slack younger than one written after it. */
  ghost predicate InOrder(c: Codec, x: string, y: string) {
    var s, t := LineTime(c.parseTime, x), LineTime(c.parseTime, y);
    s.Some? && t.Some? ==> s.value <= t.value + ORDER_SLACK
  }

  ghost predicate NearlyOrdered(c: Codec, lines: seq<string>) {
    forall i, j :: 0 <= i < j < |lines| ==> InOrder(c, lines[i], lines[j])
  }

  /** Lines left out do not disturb the order. */
  lemma {:induction false} OrderedSub(c: Codec, a: seq<string>, b: seq<string>)
    requires Sub(a, b) && NearlyOrdered(c, b)
    ensures NearlyOrdered(c, a)
    decreases |b|
  {
    hide InOrder;
    if a != [] {
      var m, n := |a| - 1, |b| - 1;
      assert NearlyOrdered(c, b[..n]);
      if a[m] == b[n] && Sub(a[..m], b[..n]) {
        OrderedSub(c, a[..m], b[..n]);
        forall i | 0 <= i < m ensures InOrder(c, a[i], a[m]) {
          SubMember(a[..m], b[..n], i);
          var k :| 0 <= k < n && b[k] == a[i];
        }
        assert forall i :: 0 <= i < m ==> a[..m][i] == a[i];
      } else {
        OrderedSub(c, a, b[..n]);
      }
    }
  }

  /** A line cut short is no more out of order than the whole. */
  lemma OrderedCut(c: Codec, lines: seq<string>, line: string, cut: string)
    requires NearlyOrdered(c, lines + [line]) && cut <= line
    ensures NearlyOrdered(c, lines + [cut])
  {
    hide LineTime;
    CutLineTime(c.parseTime, cut, line);
    var was, now := lines + [line], lines + [cut];
    forall i, j | 0 <= i < j < |now| ensures InOrder(c, now[i], now[j]) {
      assert InOrder(c, was[i], was[j]);
    }
  }

  lemma {:induction false} SavedSub(a: seq<Entry>, b: seq<Entry>)
    requires Sub(a, b)
    ensures Sub(Saved(a), Saved(b))
    decreases |b|
  {
    hide Marshal, Saved;
    if a == [] {
      SavedNothing();
    } else {
      var m, n := |a| - 1, |b| - 1;
      assert b == b[..n] + [b[n]];
      SavedMore(b[..n], b[n]);
      if a[m] == b[n] && Sub(a[..m], b[..n]) {
        SavedSub(a[..m], b[..n]);
        assert a == a[..m] + [a[m]];
        SavedMore(a[..m], a[m]);
        SubTake(Saved(a[..m]), Saved(b[..n]), Marshal(b[n]));
      } else {
        SavedSub(a, b[..n]);
        SubSkip(Saved(a), Saved(b[..n]), Marshal(b[n]));
      }
    }
  }

  // ----- What the reader gets

  /** The half line at the end of the newest file, if there is one. */
  function TornOf(vs: seq<Volume>): seq<string> {
    if vs == [] || Last(vs).torn == [] then [] else [Last(vs).torn]
  }

  /** A directory of lines as the reader needs them: nearly in order, the half line at the end included. */
  ghost predicate Archive(c: Codec, dir: seq<File>, vs: seq<Volume>, parts: nat) {
    && Holds(dir, vs, []) && VolumesFine(HistoryRules(c), vs, parts) && parts <= MAX_PART
    && NearlyOrdered(c, LinesOf(vs) + TornOf(vs))
  }

  lemma FineLines(c: Codec, v: Volume, parts: nat, j: nat)
    requires VolumeFine(HistoryRules(c), v, parts) && j < |v.lines|
    ensures FineLine(c, v.key.date, v.lines[j])
  {
    hide Bytes, FineLine;
    assert HistoryRules(c).fine(v.key.date, v.lines[j]);
  }

  lemma FineKey(c: Codec, v: Volume, parts: nat)
    requires VolumeFine(HistoryRules(c), v, parts) && parts <= MAX_PART
    ensures ValidKey(v.key) && |Bytes(v)| <= MAX_OFFSET
  {
    hide Bytes, FineLine, ValidDate;
  }

  /** A line dated right is read as one. */
  lemma DatedAgrees(c: Codec, items: seq<Item>)
    requires forall i :: 0 <= i < |items| ==> DatedRight(c, items[i].key.date, items[i].text)
    ensures DaysAgree(c, items)
  {
    hide LineTime, DateLess, DateAt;
  }

  lemma FineFile(c: Codec, f: File, v: Volume, parts: nat)
    requires VolumeFine(HistoryRules(c), v, parts) && parts <= MAX_PART && GoodVolume(v) && f == File(v.key, Bytes(v))
    ensures ValidKey(f.key) && |f.content| <= MAX_OFFSET
    ensures forall j :: 0 <= j < |v.lines| ==> |v.lines[j]| <= MAX_LINE
    ensures DaysAgree(c, FileItems(f, |f.content|))
  {
    hide Bytes, GoodVolume, DatedRight, Written, ValidKey, FileItems, HistoryRules, VolumeFine, DaysAgree;
    FineKey(c, v, parts);
    forall j | 0 <= j < |v.lines| ensures FineLine(c, v.key.date, v.lines[j]) { FineLines(c, v, parts, j); }
    FileReadsBack(f, v);
    FileItemsKeys(f, |f.content|);
    var items := FileItems(f, |f.content|);
    forall i | 0 <= i < |items| ensures DatedRight(c, items[i].key.date, items[i].text) {
      ReverseMember(v.lines, i);
      assert ItemTexts(items)[i] in v.lines;
    }
    DatedAgrees(c, items);
  }

  lemma DaysAgreeJoin(c: Codec, a: seq<Item>, b: seq<Item>)
    requires DaysAgree(c, a) && DaysAgree(c, b)
    ensures DaysAgree(c, a + b)
  {
    hide DateLess, DateAt, TimeOf;
  }

  lemma {:induction false} FineDays(c: Codec, dir: seq<File>, vs: seq<Volume>, parts: nat)
    requires Holds(dir, vs, []) && VolumesFine(HistoryRules(c), vs, parts) && parts <= MAX_PART
    ensures ShortLines(vs) && DaysAgree(c, AllItems(dir))
    ensures forall i :: 0 <= i < |dir| ==> ValidKey(dir[i].key) && |dir[i].content| <= MAX_OFFSET
  {
    hide VolumeFine, HistoryRules, GoodVolume, Bytes, ValidKey, FileItems, DateLess, DateAt, TimeOf, Less;
    HoldsSorted(dir, vs, []);
    if dir != [] {
      var n := |dir| - 1;
      NewestFine(c, dir, vs, parts);
      HoldsFront(dir, vs);
      hide Holds, DaysAgree;
      assert forall i :: 0 <= i < n ==> vs[..n][i] == vs[i];
      FineDays(c, dir[..n], vs[..n], parts);
      DaysAgreeJoin(c, FileItems(dir[n], |dir[n].content|), AllItems(dir[..n]));
      assert forall i :: 0 <= i < n ==> dir[..n][i] == dir[i];
    }
  }

  lemma NewestFine(c: Codec, dir: seq<File>, vs: seq<Volume>, parts: nat)
    requires Holds(dir, vs, []) && VolumesFine(HistoryRules(c), vs, parts) && parts <= MAX_PART && dir != []
    ensures var n := |dir| - 1;
            && |vs| == |dir| && ValidKey(dir[n].key) && |dir[n].content| <= MAX_OFFSET
            && DaysAgree(c, FileItems(dir[n], |dir[n].content|))
            && forall j :: 0 <= j < |vs[n].lines| ==> |vs[n].lines[j]| <= MAX_LINE
  {
    hide VolumeFine, HistoryRules, GoodVolume, Bytes, ValidKey, FileItems, DaysAgree, Less;
    var n := |dir| - 1;
    FlushedLast(dir, vs);
    assert dir[n] == File(vs[n].key, Bytes(vs[n]));
    hide Holds;
    FineFile(c, dir[n], vs[n], parts);
  }

  /** A line is in order with those before it, read back. */
  lemma FirstInOrder(c: Codec, x: Item, rest: seq<Item>, lines: seq<string>)
    requires NearlyOrdered(c, lines) && lines != [] && x.text == lines[|lines| - 1]
    requires ItemTexts(rest) == Reverse(lines[..|lines| - 1])
    ensures forall y :: y in rest ==> Within(c, x, y)
  {
    hide LineTime, Reverse;
    var n := |lines| - 1;
    forall y | y in rest ensures Within(c, x, y) {
      var j :| 0 <= j < |rest| && rest[j] == y;
      ReverseMember(lines[..n], j);
      assert y.text == ItemTexts(rest)[j];
      var k :| 0 <= k < n && lines[k] == y.text;
      assert InOrder(c, lines[k], lines[n]);
    }
  }

  /** Lines in the order written, read newest first, are as far out of order as the reader allows. */
  lemma {:induction false} FineTimes(c: Codec, items: seq<Item>, lines: seq<string>)
    requires NearlyOrdered(c, lines) && ItemTexts(items) == Reverse(lines)
    ensures TimesAgree(c, items)
  {
    if lines == [] {
      NothingReversed<string>();
    } else {
      hide Reverse, InOrder, Within, TimesAgree;
      var n := |lines| - 1;
      ReverseLast(lines);
      var x, rest := items[0], items[1..];
      assert x.text == ItemTexts(items)[0] == lines[n];
      assert ItemTexts(rest) == ItemTexts(items)[1..] == Reverse(lines[..n]);
      assert NearlyOrdered(c, lines[..n]);
      FirstInOrder(c, x, rest, lines);
      hide NearlyOrdered, ItemTexts;
      FineTimes(c, rest, lines[..n]);
      OneTime(c, x);
      TimesAgreeJoin(c, [x], rest);
      assert items == [x] + rest;
    }
  }

  lemma OneTime(c: Codec, x: Item)
    ensures TimesAgree(c, [x])
  {
  }

  lemma {:induction false} FineIsWritten(c: Codec, vs: seq<Volume>, parts: nat)
    requires VolumesFine(HistoryRules(c), vs, parts)
    ensures AllWritten(LinesOf(vs))
  {
    hide Written, DatedRight, Bytes;
    if vs != [] {
      var n := |vs| - 1;
      assert forall i :: 0 <= i < n ==> vs[..n][i] == vs[i];
      FineIsWritten(c, vs[..n], parts);
      assert VolumeFine(HistoryRules(c), vs[n], parts);
      assert forall j :: 0 <= j < |vs[n].lines| ==> HistoryRules(c).fine(vs[n].key.date, vs[n].lines[j]);
    }
  }

  /** Following the cursors of any query over an archive gives exactly the entries it asks for, newest first. */
  lemma ArchiveAnswers(c: Codec, q: Query, dir: seq<File>, vs: seq<Volume>, parts: nat)
    requires Faithful(c) && ValidQuery(q) && Archive(c, dir, vs, parts)
    ensures Readable(dir) && Takes(c, q, Feed(dir, q, Start)) == Answers(c, q, Reverse(Decoded(c, LinesOf(vs))))
  {
    hide ValidQuery, ShortLines, LinesOf, ValidKey, DaysAgree, TimesAgree, AllItems, Takes, Feed, Answers;
    hide Reverse, Holds, VolumesFine, NearlyOrdered, Readable, Faithful, AllWritten, Decoded, TornOf;
    FineDays(c, dir, vs, parts);
    FineIsWritten(c, vs, parts);
    DirectoryReadsBack(dir, vs);
    OrderedFront(c, LinesOf(vs), TornOf(vs));
    FineTimes(c, AllItems(dir), LinesOf(vs));
    HistoryAnswersQueries(c, q, dir, vs);
  }

  lemma OrderedFront(c: Codec, a: seq<string>, b: seq<string>)
    requires NearlyOrdered(c, a + b)
    ensures NearlyOrdered(c, a)
  {
    hide InOrder;
    assert forall i :: 0 <= i < |a| ==> (a + b)[i] == a[i];
  }
}
