// Writing and reading back: what the writer put into the history is what a
// query over its files answers with, newest first.
module LogRoundTrip {
  import opened Decimal
  import opened LogLines
  import opened BackwardScan
  import opened LogFileKey
  import opened LogRecord
  import opened LogHistory
  import opened LogPaging
  import opened LogFileWriter

  // ----- One file

  function Texts(g: string, ls: seq<Line>): (ts: seq<string>)
    ensures |ts| == |ls| && forall i :: 0 <= i < |ls| ==> ts[i] == Text(g, ls[i])
  {
    seq(|ls|, i requires 0 <= i < |ls| => Text(g, ls[i]))
  }

  ghost predicate StartsWith(g: string, p: string) {
    |p| <= |g| && forall i :: 0 <= i < |p| ==> g[i] == p[i]
  }

  ghost predicate GoodLines(lines: seq<string>) {
    forall i :: 0 <= i < |lines| ==> lines[i] != [] && Bare(lines[i])
  }

  /** The line that the last newline of a body ends. */
  lemma LastLineOfBody(g: string, lines: seq<string>)
    requires lines != [] && GoodLines(lines) && StartsWith(g, Body(lines))
    ensures var a, e := |Body(lines[..|lines| - 1])|, |Body(lines)| - 1;
            a < e < |g| && g[e] == '\n' && LastNewline(g, e) == a - 1 && Text(g, Line(a, e)) == lines[|lines| - 1]
  {
    hide LastNewline;
    var front, line := Body(lines[..|lines| - 1]), lines[|lines| - 1];
    var a, e := |front|, |Body(lines)| - 1;
    assert Body(lines) == front + line + "\n";
    forall i | a <= i < e ensures g[i] == line[i - a] {
      assert g[i] == Body(lines)[i];
    }
    assert g[e] == Body(lines)[e] == '\n';
    if a > 0 {
      EndsInNewline(lines[..|lines| - 1]);
      assert g[a - 1] == Body(lines)[a - 1] == front[a - 1];
    }
    LastNewlineUnique(g, e, a - 1);
    assert g[a..e] == line;
  }

  lemma BodyFront(lines: seq<string>)
    requires lines != []
    ensures Body(lines) == Body(lines[..|lines| - 1]) + lines[|lines| - 1] + "\n"
    ensures |lines| == 1 ==> Body(lines[..0]) == []
  {
  }

  lemma EndsInNewline(lines: seq<string>)
    requires Body(lines) != []
    ensures Body(lines)[|Body(lines)| - 1] == '\n'
  {
  }

  lemma {:induction false} BodyReadsBack(g: string, lines: seq<string>)
    requires lines != [] && GoodLines(lines) && StartsWith(g, Body(lines))
    ensures Body(lines) != [] && Texts(g, LinesEndingAt(g, |Body(lines)| - 1)) == Reverse(lines)
  {
    hide LastNewline, Text, Body, Reverse, LinesEndingAt, Bare;
    LastLineOfBody(g, lines);
    BodyFront(lines);
    ReverseLast(lines);
    var front := lines[..|lines| - 1];
    var a, e := |Body(front)|, |Body(lines)| - 1;
    var older := if a == 0 then [] else LinesEndingAt(g, a - 1);
    LastLineFirst(g, a, e);
    TextsCons(g, Line(a, e), older);
    if front == [] {
      assert Texts(g, []) == [];
      NothingReversed<string>();
    } else {
      BodyReadsBack(g, front);
    }
  }

  lemma LastLineFirst(g: string, a: nat, e: nat)
    requires a < e <= |g| && LastNewline(g, e) == a - 1
    ensures LinesEndingAt(g, e) == [Line(a, e)] + if a == 0 then [] else LinesEndingAt(g, a - 1)
  {
    hide LastNewline;
  }

  lemma ReverseLast<T>(s: seq<T>)
    requires s != []
    ensures Reverse(s) == [s[|s| - 1]] + Reverse(s[..|s| - 1])
  {
    hide Reverse;
    assert s == s[..|s| - 1] + [s[|s| - 1]];
    ReverseConcat(s[..|s| - 1], [s[|s| - 1]]);
    ReverseOne(s[|s| - 1]);
  }

  lemma TextsCons(g: string, l: Line, ls: seq<Line>)
    ensures Texts(g, [l] + ls) == [Text(g, l)] + Texts(g, ls)
  {
    hide Text;
  }

  lemma ReverseOne<T>(x: T)
    ensures Reverse([x]) == [x]
  {
    assert [x][1..] == [];
    assert Reverse<T>([]) == [];
  }

  /** A file reads back as its lines, newest first; a half line at its end is not read. */
  lemma VolumeReadsBack(lines: seq<string>, torn: string)
    requires GoodLines(lines) && Bare(torn)
    ensures var g := Body(lines) + torn; Texts(g, LinesBefore(g, |g|)) == Reverse(lines)
  {
    hide LastNewline, Text, LinesEndingAt;
    var b, g := Body(lines), Body(lines) + torn;
    assert forall i :: |b| <= i < |g| ==> g[i] == torn[i - |b|];
    if lines == [] {
      if g != [] { LastNewlineUnique(g, |g|, -1); } else { assert LastNewline(g, 0) == -1; }
    } else {
      BodyReadsBack(g, lines);
      EndsInNewline(lines);
      assert g[|b| - 1] == b[|b| - 1];
      LastNewlineUnique(g, |g|, |b| - 1);
    }
  }

  /** What has reached the disk of a body is some of its whole lines and a half line. */
  lemma {:induction false} PrefixOfBody(lines: seq<string>, p: string, rest: string) returns (k: nat, torn: string)
    requires GoodLines(lines) && p + rest == Body(lines)
    ensures k <= |lines| && p == Body(lines[..k]) + torn && Bare(torn)
    ensures torn != [] ==> k < |lines| && torn <= lines[k]
  {
    if lines == [] {
      k, torn := 0, [];
    } else {
      var front, line := lines[..|lines| - 1], lines[|lines| - 1];
      var b := Body(front);
      assert p + rest == b + line + "\n";
      assert forall i :: 0 <= i < |p| ==> p[i] == (p + rest)[i];
      if |p| <= |b| {
        assert p == b[..|p|] && b[..|p|] + b[|p|..] == b;
        k, torn := PrefixOfBody(front, p, b[|p|..]);
        assert front[..k] == lines[..k];
      } else if |p| <= |b| + |line| {
        k, torn := |front|, line[..|p| - |b|];
        assert lines[..k] == front;
        assert p == b + torn;
      } else {
        k, torn := |lines|, [];
        assert lines[..k] == lines;
        assert p == b + line + "\n";
      }
    }
  }

  /** A file still being buffered reads back as the lines that reached the disk whole, newest first. */
  lemma UnflushedReadsBack(content: string, unflushed: string, v: Volume) returns (k: nat)
    requires GoodVolume(v) && v.torn == [] && content + unflushed == Bytes(v)
    ensures k <= |v.lines| && Texts(content, LinesBefore(content, |content|)) == Reverse(v.lines[..k])
    ensures unflushed == [] ==> k == |v.lines|
  {
    if unflushed == [] {
      k := |v.lines|;
      assert v.lines[..k] == v.lines;
      assert content + [] == content;
      VolumeReadsBack(v.lines, []);
    } else {
      assert Bytes(v) == Body(v.lines);
      var torn: string;
      k, torn := PrefixOfBody(v.lines, content, unflushed);
      VolumeReadsBack(v.lines[..k], torn);
    }
  }

  // ----- The directory

  function ItemTexts(items: seq<Item>): (ts: seq<string>)
    ensures |ts| == |items| && forall i :: 0 <= i < |items| ==> ts[i] == items[i].text
  {
    seq(|items|, i requires 0 <= i < |items| => items[i].text)
  }

  ghost predicate ShortLines(vs: seq<Volume>) {
    forall i :: 0 <= i < |vs| ==> forall j :: 0 <= j < |vs[i].lines| ==> |vs[i].lines[j]| <= MAX_LINE
  }

  lemma {:induction false} ReverseMember<T>(s: seq<T>, i: nat)
    requires i < |Reverse(s)|
    ensures Reverse(s)[i] in s
  {
    if s != [] && i < |Reverse(s[1..])| { ReverseMember(s[1..], i); }
  }

  /** A file of short lines is within the reader's limit, and its items are its lines, newest first. */
  lemma FileReadsBack(f: File, v: Volume)
    requires GoodVolume(v) && f.content == Bytes(v) && forall j :: 0 <= j < |v.lines| ==> |v.lines[j]| <= MAX_LINE
    ensures Fits(f) && ItemTexts(FileItems(f, |f.content|)) == Reverse(v.lines)
  {
    hide LinesBefore, Text, Reverse, Scan, Bare;
    var g := f.content;
    VolumeReadsBack(v.lines, v.torn);
    var ls := LinesBefore(g, |g|);
    forall i | 0 <= i < |ls| ensures ls[i].end - ls[i].start <= MAX_LINE {
      ItemEnd(f, i);
      ReverseMember(v.lines, i);
      assert Texts(g, ls)[i] in v.lines;
    }
    assert Fits(f);
    FittingScan(f, |g|);
  }

  /** The whole directory, read back, is every retained line, newest first. */
  lemma {:induction false} DirectoryReadsBack(dir: seq<File>, vs: seq<Volume>)
    requires Holds(dir, vs, []) && ShortLines(vs)
    ensures forall i :: 0 <= i < |dir| ==> Fits(dir[i])
    ensures ItemTexts(AllItems(dir)) == Reverse(LinesOf(vs))
  {
    hide Fits, FileItems, Reverse, GoodVolume, Bytes, Less;
    if dir == [] {
      NothingReversed<string>();
    } else {
      var n := |dir| - 1;
      FlushedLast(dir, vs);
      HoldsFront(dir, vs);
      DirectoryReadsBack(dir[..n], vs[..n]);
      FileReadsBack(dir[n], vs[n]);
      ReverseConcat(LinesOf(vs[..n]), vs[n].lines);
      ItemTextsConcat(FileItems(dir[n], |dir[n].content|), AllItems(dir[..n]));
    }
  }

  lemma NothingReversed<T>()
    ensures Reverse<T>([]) == []
  {
  }

  lemma ItemTextsConcat(a: seq<Item>, b: seq<Item>)
    ensures ItemTexts(a + b) == ItemTexts(a) + ItemTexts(b)
  {
  }

  lemma FlushedLast(dir: seq<File>, vs: seq<Volume>)
    requires Holds(dir, vs, []) && dir != []
    ensures forall i :: 0 <= i < |dir| ==> dir[i].content == Bytes(vs[i]) && GoodVolume(vs[i])
  {
    hide Bytes, GoodVolume;
    assert Last(dir).content + [] == Last(dir).content;
  }

  lemma HoldsFront(dir: seq<File>, vs: seq<Volume>)
    requires Holds(dir, vs, []) && dir != []
    ensures Holds(dir[..|dir| - 1], vs[..|dir| - 1], [])
  {
    hide Bytes, GoodVolume, Less;
    var n := |dir| - 1;
    if n > 0 { assert dir[n - 1].content + [] == dir[n - 1].content; }
  }

  /** What is on disk is a suffix of everything written, cut at a file boundary. */
  lemma RetainedIsSuffix(vs: seq<Volume>, removed: nat)
    requires removed <= |vs|
    ensures var n := |LinesOf(vs[..removed])|;
            n <= |LinesOf(vs)| && LinesOf(vs[removed..]) == LinesOf(vs)[n..]
  {
    hide LinesOf;
    assert vs == vs[..removed] + vs[removed..];
    LinesOfSplit(vs[..removed], vs[removed..]);
  }

  // ----- Queries over saved entries

  /** The library functions decode what the writer encodes. */
  ghost predicate Faithful(c: Codec) {
    && (forall e :: c.unmarshal(Marshal(e)) == Some(e))
    && RejectsHalves(c)
    && TimesArePlain(c.parseTime)
    && EscapesStayEscaped(c.lower)
  }

  /** Half an object is no JSON text. */
  ghost predicate RejectsHalves(c: Codec) {
    forall e, k :: 0 <= k < |Marshal(e)| ==> c.unmarshal(Marshal(e)[..k]).None?
  }

  ghost predicate Begins(line: string, e: Entry) { line <= Marshal(e) }

  /** What the writer puts into a file: an entry's line, or as much of one as a crash left. */
  ghost predicate Written(line: string) { exists e :: Begins(line, e) }

  ghost predicate AllWritten(lines: seq<string>) { forall i :: 0 <= i < |lines| ==> Written(lines[i]) }

  lemma WrittenDecodes(c: Codec, line: string)
    requires Faithful(c) && Written(line) && c.unmarshal(line).Some?
    ensures line == Marshal(c.unmarshal(line).value)
  {
    hide Marshal, TimesArePlain, EscapesStayEscaped;
    var e :| Begins(line, e);
    assert line == Marshal(e)[..|line|];
    assert |line| == |Marshal(e)|;
    assert line == Marshal(e);
  }

  lemma EntryIsWritten(e: Entry)
    ensures Written(Marshal(e))
  {
    hide Marshal;
    assert Begins(Marshal(e), e);
  }

  /** The entries of the lines that are whole. */
  function Decoded(c: Codec, lines: seq<string>): seq<Entry> {
    if lines == [] then []
    else
      match c.unmarshal(lines[0])
      case Some(e) => [e] + Decoded(c, lines[1..])
      case None => Decoded(c, lines[1..])
  }

  lemma {:induction false} DecodedConcat(c: Codec, a: seq<string>, b: seq<string>)
    ensures Decoded(c, a + b) == Decoded(c, a) + Decoded(c, b)
  {
    if a == [] {
      assert a + b == b;
    } else {
      assert (a + b)[1..] == a[1..] + b;
      DecodedConcat(c, a[1..], b);
    }
  }

  /** Saved entries decode to themselves. */
  lemma {:induction false} DecodedSaved(c: Codec, es: seq<Entry>)
    requires Faithful(c)
    ensures Decoded(c, Saved(es)) == es
  {
    hide Marshal, RejectsHalves, TimesArePlain, EscapesStayEscaped;
    if es != [] {
      assert Saved(es)[0] == Marshal(es[0]) && Saved(es)[1..] == Saved(es[1..]);
      DecodedSaved(c, es[1..]);
    }
  }

  lemma {:induction false} DecodedReverse(c: Codec, lines: seq<string>)
    ensures Decoded(c, Reverse(lines)) == Reverse(Decoded(c, lines))
  {
    if lines != [] {
      DecodedReverse(c, lines[1..]);
      DecodedConcat(c, Reverse(lines[1..]), [lines[0]]);
      assert [lines[0]][1..] == [];
      var rest := Decoded(c, lines[1..]);
      assert c.unmarshal(lines[0]).Some? ==> ([c.unmarshal(lines[0]).value] + rest)[1..] == rest;
    }
  }

  /** What a query asks of an entry. */
  predicate Asked(c: Codec, q: Query, e: Entry) {
    && c.parseTime(e.ts).Some?
    && c.parseTime(e.ts).value <= q.to
    && (q.from.Some? ==> q.from.value <= c.parseTime(e.ts).value)
    && Matches(c.lower, q, e)
  }

  function Answers(c: Codec, q: Query, es: seq<Entry>): seq<Entry> {
    if es == [] then []
    else if Asked(c, q, es[0]) then [es[0]] + Answers(c, q, es[1..])
    else Answers(c, q, es[1..])
  }

  /** The scan takes a saved entry exactly when the query asks for it. */
  lemma TakenIsAsked(c: Codec, q: Query, e: Entry)
    requires Faithful(c) && ValidQuery(q)
    ensures if Asked(c, q, e) then Judge(c, q, Marshal(e)) == Take(e) else !Judge(c, q, Marshal(e)).Take?
  {
    hide Marshal, LineTime, RawChecks, Matches, ValidQuery, TimesArePlain, EscapesStayEscaped, RejectsHalves;
    LineTimeOfEntry(c.parseTime, e);
    if Matches(c.lower, q, e) { RawChecksKeep(c.lower, q, e); }
    assert c.unmarshal(Marshal(e)) == Some(e);
  }

  lemma {:induction false} WantedAreAnswers(c: Codec, q: Query, items: seq<Item>)
    requires Faithful(c) && ValidQuery(q) && AllWritten(ItemTexts(items))
    ensures Wanted(c, q, items) == Answers(c, q, Decoded(c, ItemTexts(items)))
  {
    hide Marshal, Judge, Asked, Faithful, ValidQuery, Written;
    if items != [] {
      var line := items[0].text;
      assert line == ItemTexts(items)[0];
      JudgeWritten(c, q, line);
      assert ItemTexts(items[1..]) == ItemTexts(items)[1..];
      WantedAreAnswers(c, q, items[1..]);
      if c.unmarshal(line).Some? {
        var rest := Decoded(c, ItemTexts(items[1..]));
        assert ([c.unmarshal(line).value] + rest)[1..] == rest;
      }
    }
  }

  /** The scan takes a line exactly when it is whole and the query asks for its entry. */
  lemma JudgeWritten(c: Codec, q: Query, line: string)
    requires Faithful(c) && ValidQuery(q) && Written(line)
    ensures var e := c.unmarshal(line);
            if e.Some? && Asked(c, q, e.value) then Judge(c, q, line) == Take(e.value) else !Judge(c, q, line).Take?
  {
    if c.unmarshal(line).Some? {
      WrittenDecodes(c, line);
      TakenIsAsked(c, q, c.unmarshal(line).value);
      hide Judge, Asked, Marshal, Faithful;
    } else {
      hide LineTime, RawChecks, Matches, Faithful, ValidQuery, Written;
    }
  }

  lemma WrittenReversed(lines: seq<string>)
    requires AllWritten(lines)
    ensures AllWritten(Reverse(lines))
  {
    hide Written;
    forall i | 0 <= i < |Reverse(lines)| ensures Written(Reverse(lines)[i]) { ReverseMember(lines, i); }
  }

  /**
   * The saved history answers queries: following the cursors of any query over
   * a directory gives exactly the entries of its whole lines that the query
   * asks for, newest first.
   */
  lemma HistoryAnswersQueries(c: Codec, q: Query, dir: seq<File>, vs: seq<Volume>)
    requires Faithful(c) && ValidQuery(q)
    requires Holds(dir, vs, []) && ShortLines(vs) && AllWritten(LinesOf(vs))
    requires forall i :: 0 <= i < |dir| ==> ValidKey(dir[i].key) && |dir[i].content| <= MAX_OFFSET
    requires DaysAgree(c, AllItems(dir)) && (q.from.Some? ==> TimesAgree(c, AllItems(dir)))
    ensures Readable(dir)
    ensures Takes(c, q, Feed(dir, q, Start)) == Answers(c, q, Reverse(Decoded(c, LinesOf(vs))))
  {
    hide Faithful, ShortLines, LinesOf, Decoded, ValidKey, DaysAgree, TimesAgree, AllItems;
    hide Takes, Feed, Wanted, Answers, Reverse, Fits, ItemTexts, AllWritten;
    DirectoryReadsBack(dir, vs);
    HoldsSorted(dir, vs, []);
    PagesAreAllWanted(c, q, dir);
    WrittenReversed(LinesOf(vs));
    WantedAreAnswers(c, q, AllItems(dir));
    DecodedReverse(c, LinesOf(vs));
  }
}
