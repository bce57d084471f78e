// Whole lives of the history writer: started on what an earlier one left,
// through writes that may fail, flushes, sweeps and closings, and ended by
// closing its file or by a crash that loses what is still in its buffer.
module LogRuns {
  import opened Decimal
  import opened LogLines
  import opened BackwardScan
  import opened LogFileKey
  import opened LogRecord
  import opened LogHistory
  import opened LogPaging
  import opened LogFileWriter
  import opened LogRoundTrip
  import opened LogArchive
  import opened Subsequence
  import LogDecode

  // ----- A crash

  /** What a crash leaves of a file: some whole lines, and perhaps the beginning of the next. */
  ghost predicate CutOf(v: Volume, w: Volume) {
    && w.key == v.key && |w.lines| <= |v.lines| && w.lines == v.lines[..|w.lines|]
    && (w.torn != [] ==> |w.lines| < |v.lines| && w.torn <= v.lines[|w.lines|])
  }

  lemma {:induction false} BodyConcat(a: seq<string>, b: seq<string>)
    ensures Body(a + b) == Body(a) + Body(b)
  {
    if b == [] {
      assert a + b == a;
    } else {
      var n := |b| - 1;
      assert (a + b)[..|a| + n] == a + b[..n];
      BodyConcat(a, b[..n]);
    }
  }

  /** The bytes on disk of a file of whole lines are such a cut, and what is lost fits the buffer. */
  lemma CutFile(v: Volume, content: string, pending: string) returns (w: Volume)
    requires GoodVolume(v) && v.torn == [] && content + pending == Bytes(v)
    ensures CutOf(v, w) && GoodVolume(w) && Bytes(w) == content
    ensures |Body(v.lines[|w.lines|..])| == |w.torn| + |pending|
  {
    hide Body, Bare;
    assert Bytes(v) == Body(v.lines);
    var k, torn := PrefixOfBody(v.lines, content, pending);
    w := Volume(v.key, v.lines[..k], torn);
    assert |w.lines| == k && Bytes(w) == content;
    assert v.lines == v.lines[..k] + v.lines[k..];
    BodyConcat(v.lines[..k], v.lines[k..]);
    assert |Body(v.lines)| == |Body(v.lines[..k])| + |Body(v.lines[k..])|;
    assert |Body(v.lines)| == |content| + |pending| && |content| == |Body(v.lines[..k])| + |torn|;
  }

  /** Cutting keeps a file within the rules. */
  lemma CutFine(c: Codec, v: Volume, w: Volume, parts: nat)
    requires VolumeFine(HistoryRules(c), v, parts) && CutOf(v, w) && |Bytes(w)| <= |Bytes(v)|
    ensures VolumeFine(HistoryRules(c), w, parts)
  {
    hide Bytes;
    var r := HistoryRules(c);
    forall i | 0 <= i < |w.lines| ensures r.fine(w.key.date, w.lines[i]) {
      assert w.lines[i] == v.lines[i];
    }
    if w.torn != [] {
      assert r.fine(v.key.date, v.lines[|w.lines|]);
      CutLine(c, v.key.date, v.lines[|w.lines|], w.torn);
    }
  }

  lemma CutLine(c: Codec, day: Date, line: string, cut: string)
    requires FineLine(c, day, line) && cut <= line
    ensures FineLine(c, day, cut)
  {
    hide LineTime, DateLess, DateAt, Marshal;
    CutLineTime(c.parseTime, cut, line);
    var e :| Begins(line, e);
    assert Begins(cut, e);
  }

  lemma CutHolds(dir: seq<File>, vs: seq<Volume>, pending: string, w: Volume)
    requires Holds(dir, vs, pending) && vs != [] && GoodVolume(w) && w.key == Last(vs).key
             && Bytes(w) == Last(dir).content
    ensures Holds(dir, WithLast(vs, w), [])
  {
    hide Bytes, GoodVolume, Less;
    assert Last(dir).content + [] == Last(dir).content;
  }

  lemma CutAllFine(c: Codec, vs: seq<Volume>, w: Volume, parts: nat)
    requires VolumesFine(HistoryRules(c), vs, parts) && vs != [] && VolumeFine(HistoryRules(c), w, parts)
    ensures VolumesFine(HistoryRules(c), WithLast(vs, w), parts)
  {
    hide VolumeFine, HistoryRules;
  }

  /** The lines that are left are the first of those there were. */
  lemma CutLines(vs: seq<Volume>, w: Volume)
    requires vs != [] && CutOf(Last(vs), w)
    ensures var all, left := LinesOf(vs), LinesOf(WithLast(vs, w));
            && |left| <= |all| && left == all[..|left|] && all[|left|..] == Last(vs).lines[|w.lines|..]
            && (w.torn != [] ==> |left| < |all| && w.torn <= all[|left|])
  {
    hide LinesOf;
    var n := |vs| - 1;
    LinesOfLast(vs);
    LinesOfLast(WithLast(vs, w));
    assert WithLast(vs, w)[..n] == vs[..n];
  }

  lemma LinesOfLast(vs: seq<Volume>)
    requires vs != []
    ensures LinesOf(vs) == LinesOf(vs[..|vs| - 1]) + Last(vs).lines
  {
  }

  lemma CutOrdered(c: Codec, all: seq<string>, left: seq<string>, torn: seq<string>)
    requires NearlyOrdered(c, all) && |left| <= |all| && left == all[..|left|]
    requires torn == [] || (|torn| == 1 && |left| < |all| && torn[0] <= all[|left|])
    ensures NearlyOrdered(c, left + torn)
  {
    hide InOrder;
    var n := |left|;
    assert forall i :: 0 <= i < n ==> left[i] == all[i];
    if torn == [] {
      assert left + torn == left;
    } else {
      assert left + [all[n]] == all[..n + 1];
      assert forall i :: 0 <= i <= n ==> all[..n + 1][i] == all[i];
      OrderedCut(c, left, all[n], torn[0]);
      assert torn == [torn[0]];
    }
  }

  /**
   * A crash at any moment leaves an archive: the lines from the first to some
   * last, and perhaps half of the next. What is lost is no more than the bytes
   * that were not on the disk, and the rest of that line.
   */
  lemma CrashLeavesArchive(c: Codec, dir: seq<File>, vs: seq<Volume>, pending: string, parts: nat)
    returns (left: seq<Volume>)
    requires Holds(dir, vs, pending) && VolumesFine(HistoryRules(c), vs, parts) && parts <= MAX_PART
    requires NearlyOrdered(c, LinesOf(vs) + TornOf(vs))
    requires pending != [] ==> vs != [] && Last(vs).torn == []
    ensures Archive(c, dir, left, parts) && (pending == [] ==> left == vs)
    ensures var all, n := LinesOf(vs), |LinesOf(left)|;
            n <= |all| && LinesOf(left) == all[..n] && |Body(all[n..])| <= MAX_LINE + |pending|
  {
    hide VolumesFine, VolumeFine, HistoryRules, LinesOf, NearlyOrdered, Holds, GoodVolume, Bytes;
    if pending == [] {
      left := vs;
      var all := LinesOf(vs);
      assert all[..|all|] == all && all[|all|..] == [];
    } else {
      LastHolds(dir, vs, pending);
      LastFine(c, vs, parts);
      var w := CutFile(Last(vs), Last(dir).content, pending);
      CutFine(c, Last(vs), w, parts);
      left := WithLast(vs, w);
      CutHolds(dir, vs, pending, w);
      CutAllFine(c, vs, w, parts);
      CutLines(vs, w);
      OrderedFront(c, LinesOf(vs), TornOf(vs));
      CutOrdered(c, LinesOf(vs), LinesOf(left), TornOf(left));
      TornIsShort(c, w, parts);
    }
  }

  lemma LastHolds(dir: seq<File>, vs: seq<Volume>, pending: string)
    requires Holds(dir, vs, pending) && vs != []
    ensures dir != [] && GoodVolume(Last(vs)) && Last(dir).content + pending == Bytes(Last(vs))
  {
  }

  lemma LastFine(c: Codec, vs: seq<Volume>, parts: nat)
    requires VolumesFine(HistoryRules(c), vs, parts) && vs != []
    ensures VolumeFine(HistoryRules(c), Last(vs), parts)
  {
  }

  lemma TornIsShort(c: Codec, w: Volume, parts: nat)
    requires VolumeFine(HistoryRules(c), w, parts)
    ensures |w.torn| <= MAX_LINE
  {
    assert w.torn != [] ==> HistoryRules(c).fine(w.key.date, w.torn);
  }

  // ----- A life of the writer

  /** A run's lines, the half line behind them included, are among those asked to be in order. */
  lemma LivesInOrder(c: Codec, vs: seq<Volume>, us: seq<Volume>, asked: seq<Entry>, accepted: seq<Entry>,
                     repaired: seq<string>)
    requires NearlyOrdered(c, LinesOf(vs) + TornOf(vs) + Saved(asked)) && Sub(accepted, asked)
    requires LinesOf(us) == LinesOf(vs) + repaired + Saved(accepted)
    requires repaired == [] || repaired == TornOf(vs)
    requires TornOf(us) == [] || us == vs
    ensures NearlyOrdered(c, LinesOf(us) + TornOf(us))
  {
    hide LinesOf, Saved, NearlyOrdered, Sub, TornOf;
    var a, t := LinesOf(vs), TornOf(vs);
    if us == vs {
      OrderedFront(c, a + t, Saved(asked));
    } else {
      SavedSub(accepted, asked);
      SubSelf(a);
      SubNothing(t);
      if repaired == t { SubSelf(t); }
      SubConcat(a, a, repaired, t);
      SubConcat(a + repaired, a + t, Saved(accepted), Saved(asked));
      OrderedSub(c, LinesOf(us), a + t + Saved(asked));
      assert LinesOf(us) + TornOf(us) == LinesOf(us);
    }
  }

  /** The files kept, and the half line at their end, are the last of all. */
  lemma KeptInOrder(c: Codec, us: seq<Volume>, removed: nat)
    requires removed <= |us| && NearlyOrdered(c, LinesOf(us) + TornOf(us))
    ensures NearlyOrdered(c, LinesOf(us[removed..]) + TornOf(us[removed..]))
  {
    hide LinesOf, Sub, NearlyOrdered;
    RetainedIsSuffix(us, removed);
    var kept := us[removed..];
    var n := |LinesOf(us[..removed])|;
    SubSuffix(LinesOf(us), n);
    if TornOf(kept) == [] { SubNothing(TornOf(us)); } else { SubSelf(TornOf(us)); }
    SubConcat(LinesOf(kept), LinesOf(us), TornOf(kept), TornOf(us));
    OrderedSub(c, LinesOf(kept) + TornOf(kept), LinesOf(us) + TornOf(us));
  }

  lemma FineDrop(r: Rules, vs: seq<Volume>, parts: nat, n: nat)
    requires VolumesFine(r, vs, parts) && n <= |vs|
    ensures VolumesFine(r, vs[n..], parts)
  {
    hide VolumeFine;
  }

  /** Only the first bytes of the newest file have reached the disk. */
  lemma HoldsCut(dir: seq<File>, vs: seq<Volume>, pending: string, n: nat)
    requires Holds(dir, vs, pending) && dir != [] && n <= |Last(dir).content| + |pending|
    ensures var all := Last(dir).content + pending;
            Holds(WithLast(dir, File(Last(dir).key, all[..n])), vs, all[n..])
  {
    hide Bytes, Less, GoodVolume;
    var all := Last(dir).content + pending;
    assert all[..n] + all[n..] == all;
  }

  /**
   * How a run of the writer ends: its file closed; or a crash after it, `more`
   * bytes of the buffer later; or a crash within its last step, `more` bytes
   * after the first that step put on the disk.
   */
  datatype Ending = Closed | CrashAfter(more: nat) | CrashWithin(more: nat)

  function Min(a: nat, b: nat): nat { if a < b then a else b }

  /** The directory a run leaves behind, and what of the newest file is not in it. */
  method Leave(lf: LogFile, end: Ending, safe: nat, ghost c: Codec, ghost parts: nat)
    returns (after: seq<File>, ghost rest: string)
    requires lf.Valid() && lf.OnDisk(safe) && VolumesFine(HistoryRules(c), lf.volumes, parts)
    modifies lf`dir, lf`pending, lf`open
    ensures Holds(after, lf.volumes[lf.removed..], rest)
    ensures rest != [] ==> lf.removed < |lf.volumes| && Last(lf.volumes).torn == []
    ensures |rest| <= if end.CrashWithin? then BUFFER + MAX_LINE + 1 else BUFFER
    ensures end.Closed? ==> rest == []
  {
    hide Holds, VolumesFine, HistoryRules;
    if end.Closed? {
      lf.CloseFile();
    }
    after, rest := lf.dir, lf.pending;
    HoldsSorted(lf.dir, lf.volumes[lf.removed..], lf.pending);
    if !end.Closed? && lf.open {
      var all := Last(lf.dir).content + lf.pending;
      var start := if end.CrashWithin? then safe else |Last(lf.dir).content|;
      var n := Min(start + end.more, |all|);
      HoldsCut(lf.dir, lf.volumes[lf.removed..], lf.pending, n);
      LastLineShort(c, lf.volumes, parts);
      after, rest := WithLast(lf.dir, File(lf.cur, all[..n])), all[n..];
    }
  }

  lemma LastLineShort(c: Codec, vs: seq<Volume>, parts: nat)
    requires VolumesFine(HistoryRules(c), vs, parts) && vs != []
    ensures LastLine(Last(vs)) <= MAX_LINE + 1
  {
    var v := Last(vs);
    assert VolumeFine(HistoryRules(c), v, parts);
    if v.lines != [] { assert HistoryRules(c).fine(v.key.date, Last(v.lines)); }
  }

  /**
   * A writer started on an archive, through any run of prompt and nearly
   * ordered writes that may fail to open a file, flushes, sweeps and closings,
   * and then closed or ended by a crash, leaves an archive again. `files` are
   * all there ever were, and hold the lines before, the half line it mended and
   * those of the entries it accepted. Of these files the first are deleted, each
   * past the age limit at some step or too much with all after it; a crash loses
   * at most the buffer and one line of the last, and the line being written; the
   * rest reads back, newest first.
   */
  method SaveRun(ghost c: Codec, maxAge: nat, maxBytes: nat, fileCap: nat, dir: seq<File>, ghost vs: seq<Volume>,
                 ghost parts: nat, ops: seq<Op>, from: Date, end: Ending)
    returns (after: seq<File>, accepted: seq<Entry>, ghost repaired: seq<string>, ghost files: seq<Volume>,
             ghost removed: nat, ghost left: seq<Volume>)
    requires TimesArePlain(c.parseTime) && 0 < fileCap && fileCap + MAX_LINE < MAX_OFFSET
    requires Archive(c, dir, vs, parts) && parts + |ops| <= MAX_PART
    requires NotAfter(dir, from) && DaysGoOn(ops, from) && Prompt(c, ops)
    requires NearlyOrdered(c, LinesOf(vs) + TornOf(vs) + Saved(Entries(ops)))
    ensures Sub(accepted, Entries(ops)) && (NoFailures(ops) ==> accepted == Entries(ops))
    ensures repaired == [] || repaired == TornOf(vs)
    ensures LinesOf(files) == LinesOf(vs) + repaired + Saved(accepted)
    ensures removed <= |files| && AllDue(files, 0, removed, ops, maxAge, maxBytes)
    ensures Archive(c, after, left, parts + |ops|)
    ensures var all, n := LinesOf(files), |LinesOf(files[..removed])|;
            var m := n + |LinesOf(left)|;
            && m <= |all| && LinesOf(files[..removed]) == all[..n] && LinesOf(left) == all[n..m]
            && (end.Closed? ==> m == |all|)
            && |Body(all[m..])| <= MAX_LINE + BUFFER + if end.CrashWithin? then MAX_LINE + 1 else 0
    ensures ItemTexts(AllItems(after)) == Reverse(LinesOf(left))
  {
    hide VolumesFine, OpsFine, Saved, LinesOf, NearlyOrdered, Prompt, TimesArePlain, HistoryRules, AllItems, Reverse;
    hide NotAfter, Holds, Sub, Body, ItemTexts, ShortLines, DaysAgree, AllDue;
    PromptOpsFine(c, ops, fileCap);
    var lf := new LogFile(maxAge, maxBytes, fileCap, dir, vs);
    var safe;
    accepted, repaired, safe := lf.Replay(ops, from, HistoryRules(c), parts);
    files, removed := lf.volumes, lf.removed;
    LivesInOrder(c, vs, files, Entries(ops), accepted, repaired);
    ghost var rest;
    after, rest := Leave(lf, end, safe, c, parts + |ops|);
    KeptInOrder(c, files, removed);
    FineDrop(HistoryRules(c), files, parts + |ops|, removed);
    ghost var kept := files[removed..];
    RetainedIsSuffix(files, removed);
    GoneIsPrefix(files, removed);
    HoldsSorted(after, kept, rest);
    left := CrashLeavesArchive(c, after, kept, rest, parts + |ops|);
    FineDays(c, after, left, parts + |ops|);
    DirectoryReadsBack(after, left);
    Within3(LinesOf(files), LinesOf(files[..removed]), LinesOf(kept), LinesOf(left));
  }

  lemma GoneIsPrefix(us: seq<Volume>, removed: nat)
    requires removed <= |us|
    ensures LinesOf(us) == LinesOf(us[..removed]) + LinesOf(us[removed..])
  {
    hide LinesOf;
    assert us == us[..removed] + us[removed..];
    LinesOfSplit(us[..removed], us[removed..]);
  }

  /** The first lines, and the first of the rest, of a list. */
  lemma Within3(all: seq<string>, gone: seq<string>, kept: seq<string>, left: seq<string>)
    requires all == gone + kept && |left| <= |kept| && left == kept[..|left|]
    ensures var n, m := |gone|, |gone| + |left|;
            m <= |all| && gone == all[..n] && left == all[n..m] && all[m..] == kept[|left|..]
  {
  }

  // ----- What it comes to

  /** The entries an archive's lines hold after a run: those before, a mended one if it was whole, those accepted. */
  lemma RunDecodes(c: Codec, before: seq<string>, repaired: seq<string>, accepted: seq<Entry>)
    requires Faithful(c)
    ensures Decoded(c, before + repaired + Saved(accepted)) == Decoded(c, before) + Decoded(c, repaired) + accepted
  {
    hide Faithful, Saved, Decoded;
    DecodedConcat(c, before + repaired, Saved(accepted));
    DecodedConcat(c, before, repaired);
    DecodedSaved(c, accepted);
  }

  /** An empty directory is where it starts. */
  lemma EmptyArchive(c: Codec)
    ensures Archive(c, [], [], 0)
  {
  }

  /** The library the reader relies on can exist: a saved line determines its entry, and half of one none. */
  lemma FaithfulCodec(c: Codec)
    requires TimesArePlain(c.parseTime) && EscapesStayEscaped(c.lower)
    ensures Faithful(c.(unmarshal := line => LogDecode.Decode(line)))
  {
    hide Marshal, TimesArePlain, EscapesStayEscaped;
    forall e ensures LogDecode.Decode(Marshal(e)) == Some(e) { LogDecode.DecodeMarshal(e); }
    forall e, k | 0 <= k < |Marshal(e)| ensures LogDecode.Decode(Marshal(e)[..k]).None? { LogDecode.DecodeHalf(e, k); }
  }
}
