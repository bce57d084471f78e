// The history writer: every entry becomes one line of the newest file of its
// day. A new day or a full file starts a new one, and sweeping deletes the
// oldest. Buffered bytes reach the disk later than the entry.
module LogFileWriter {
  import opened Decimal
  import opened LogFileKey
  import opened LogRecord
  import opened LogHistory
  import opened LogGrowing
  import opened Subsequence

  const BUFFER: nat := 65536

  /** What was ever put into one file: whole lines, then what a crash left of a last one. */
  datatype Volume = Volume(key: Key, lines: seq<string>, torn: string)

  /** The lines as they stand in a file, each with its newline. */
  function Body(lines: seq<string>): string {
    if lines == [] then [] else Body(lines[..|lines| - 1]) + lines[|lines| - 1] + "\n"
  }

  function Bytes(v: Volume): string { Body(v.lines) + v.torn }

  predicate Bare(s: string) { forall i :: 0 <= i < |s| ==> s[i] != '\n' }

  predicate GoodVolume(v: Volume) {
    Bare(v.torn) && forall i :: 0 <= i < |v.lines| ==> v.lines[i] != [] && Bare(v.lines[i])
  }

  /** The bytes of a file's last line, with its newline. */
  function LastLine(v: Volume): nat {
    if v.lines == [] then 0 else |v.lines[|v.lines| - 1]| + 1
  }

  /** All lines ever written, oldest first. */
  function LinesOf(vs: seq<Volume>): seq<string> {
    if vs == [] then [] else LinesOf(vs[..|vs| - 1]) + vs[|vs| - 1].lines
  }

  lemma BodyAppend(lines: seq<string>, line: string)
    ensures Body(lines + [line]) == Body(lines) + line + "\n"
  {
    assert (lines + [line])[..|lines|] == lines;
  }

  lemma SpillJoins(buffered: string, p: string, room: nat, disk: string, rest: string)
    requires room <= |p| && disk + rest == [] + p[room..]
    ensures buffered + p[..room] + disk + rest == buffered + p
  {
    assert p[..room] + (disk + rest) == p;
    assert buffered + p[..room] + disk + rest == buffered + (p[..room] + (disk + rest));
  }

  /** bufio.Writer.Write: what goes to the disk now, and what stays in the buffer. */
  function Spill(buffered: string, p: string): (r: (string, string))
    ensures r.0 + r.1 == buffered + p && |r.1| <= BUFFER
    decreases |p|, |buffered|
  {
    if |buffered| + |p| <= BUFFER then ([], buffered + p)
    else if buffered == [] then (p, [])
    else
      var room := if |buffered| < BUFFER then BUFFER - |buffered| else 0;
      var (disk, rest) := Spill([], p[room..]);
      SpillJoins(buffered, p, room, disk, rest);
      (buffered + p[..room] + disk, rest)
  }

  function Total(files: seq<File>): nat {
    if files == [] then 0 else |files[0].content| + Total(files[1..])
  }

  // ----- The directory and what was written to it

  /** The directory is the volumes file by file, except that the newest may still lack its last bytes. */
  ghost predicate Holds(dir: seq<File>, vs: seq<Volume>, unflushed: string) {
    && |dir| == |vs|
    && Sorted(dir)
    && (forall i :: 0 <= i < |vs| ==> GoodVolume(vs[i]) && dir[i].key == vs[i].key)
    && (forall i :: 0 <= i < |vs| - 1 ==> dir[i].content == Bytes(vs[i]))
    && (if vs == [] then unflushed == [] else dir[|dir| - 1].content + unflushed == Bytes(vs[|vs| - 1]))
  }

  /** No file is dated after `day`. */
  ghost predicate NotAfter(dir: seq<File>, day: Date) {
    forall i :: 0 <= i < |dir| ==> !DateLess(day, dir[i].key.date)
  }

  function Last<T>(s: seq<T>): T
    requires s != []
  {
    s[|s| - 1]
  }

  function WithLast<T>(s: seq<T>, x: T): (r: seq<T>)
    requires s != []
    ensures |r| == |s| && r[|s| - 1] == x && forall i :: 0 <= i < |s| - 1 ==> r[i] == s[i]
  {
    s[..|s| - 1] + [x]
  }

  lemma {:induction false} LinesOfSplit(a: seq<Volume>, b: seq<Volume>)
    ensures LinesOf(a + b) == LinesOf(a) + LinesOf(b)
  {
    if b == [] {
      assert a + b == a;
    } else {
      assert (a + b)[..|a + b| - 1] == a + b[..|b| - 1];
      LinesOfSplit(a, b[..|b| - 1]);
    }
  }

  lemma LinesOfWithLast(vs: seq<Volume>, v: Volume, more: seq<string>)
    requires vs != [] && v.lines == Last(vs).lines + more
    ensures LinesOf(WithLast(vs, v)) == LinesOf(vs) + more
  {
    assert WithLast(vs, v)[..|vs| - 1] == vs[..|vs| - 1];
  }

  lemma LinesOfNew(vs: seq<Volume>, key: Key)
    ensures LinesOf(vs + [Volume(key, [], [])]) == LinesOf(vs)
  {
    assert (vs + [Volume(key, [], [])])[..|vs|] == vs;
  }

  // ----- What a write does to the files

  /** A half line that a crash left becomes a line of its own. */
  function Mended(v: Volume): Volume {
    if v.torn == [] then v else Volume(v.key, v.lines + [v.torn], [])
  }

  /** The newest file does not end in half a line. */
  predicate Settled(vs: seq<Volume>) { vs != [] ==> Last(vs).torn == [] }

  /** The newest file is one of `day`; files before `gone` are deleted. */
  predicate OfDay(vs: seq<Volume>, gone: nat, day: Date) { gone < |vs| && Last(vs).key.date == day }

  /** The file a line of `day` goes to: the day's newest part, the next one if that is full, or the first. */
  function KeyFor(vs: seq<Volume>, gone: nat, cap: nat, day: Date): Key {
    if !OfDay(vs, gone, day) then Key(day, 0)
    else if |Bytes(Last(vs))| < cap then Last(vs).key
    else Last(vs).key.(part := Last(vs).key.part + 1)
  }

  function Reopened(vs: seq<Volume>, gone: nat, cap: nat, day: Date): (r: seq<Volume>)
    ensures r != []
  {
    if OfDay(vs, gone, day) && |Bytes(Last(vs))| < cap then WithLast(vs, Mended(Last(vs)))
    else vs + [Volume(KeyFor(vs, gone, cap, day), [], [])]
  }

  function WithLine(vs: seq<Volume>, line: string): (r: seq<Volume>)
    requires vs != []
    ensures r != []
  {
    WithLast(vs, Last(vs).(lines := Last(vs).lines + [line]))
  }

  /** The files after a line of `day` was saved. */
  function Put(vs: seq<Volume>, gone: nat, cap: nat, day: Date, line: string): (r: seq<Volume>)
    ensures r != []
  {
    WithLine(Reopened(vs, gone, cap, day), line)
  }

  /** The half line ended before a line of `day` is saved. */
  function Repaired(vs: seq<Volume>, gone: nat, cap: nat, day: Date): seq<string> {
    if OfDay(vs, gone, day) && |Bytes(Last(vs))| < cap && Last(vs).torn != [] then [Last(vs).torn] else []
  }

  /** The size of the file a line of `day` is added to. */
  function SizeBefore(vs: seq<Volume>, gone: nat, cap: nat, day: Date): nat {
    if OfDay(vs, gone, day) && |Bytes(Last(vs))| < cap then |Bytes(Last(vs))| + |Repaired(vs, gone, cap, day)| else 0
  }

  lemma MendedBytes(v: Volume)
    ensures |Bytes(Mended(v))| == |Bytes(v)| + (if v.torn == [] then 0 else 1) && Mended(v).torn == []
  {
    if v.torn != [] { BodyAppend(v.lines, v.torn); }
  }

  lemma LineBytes(v: Volume, line: string)
    requires v.torn == []
    ensures |Bytes(v.(lines := v.lines + [line]))| == |Bytes(v)| + |line| + 1
  {
    BodyAppend(v.lines, line);
  }

  lemma ReopenedLast(vs: seq<Volume>, gone: nat, cap: nat, day: Date)
    ensures var v := Last(Reopened(vs, gone, cap, day));
            && v.key == KeyFor(vs, gone, cap, day) && v.torn == []
            && |Bytes(v)| == SizeBefore(vs, gone, cap, day)
  {
    hide Body;
    if OfDay(vs, gone, day) && |Bytes(Last(vs))| < cap {
      MendedBytes(Last(vs));
    } else {
      GoodEmpty(KeyFor(vs, gone, cap, day));
    }
  }

  lemma ReopenedLines(vs: seq<Volume>, gone: nat, cap: nat, day: Date)
    ensures LinesOf(Reopened(vs, gone, cap, day)) == LinesOf(vs) + Repaired(vs, gone, cap, day)
  {
    hide Body, LinesOf;
    if OfDay(vs, gone, day) && |Bytes(Last(vs))| < cap {
      LinesOfWithLast(vs, Mended(Last(vs)), Repaired(vs, gone, cap, day));
    } else {
      LinesOfNew(vs, KeyFor(vs, gone, cap, day));
    }
  }

  /** Saving a line adds it last of all lines, after the half line it may have ended. */
  lemma PutLines(vs: seq<Volume>, gone: nat, cap: nat, day: Date, line: string)
    ensures LinesOf(Put(vs, gone, cap, day, line)) == LinesOf(vs) + Repaired(vs, gone, cap, day) + [line]
    ensures Last(Put(vs, gone, cap, day, line)).torn == []
  {
    ReopenedLast(vs, gone, cap, day);
    ReopenedLines(vs, gone, cap, day);
    var r := Reopened(vs, gone, cap, day);
    hide LinesOf, Reopened, Repaired, KeyFor, SizeBefore;
    LinesOfWithLast(r, Last(r).(lines := Last(r).lines + [line]), [line]);
  }

  /** The file's size afterwards, exactly; it passes the cap exactly when the line does not fit under it. */
  lemma PutSize(vs: seq<Volume>, gone: nat, cap: nat, day: Date, line: string)
    requires cap > 0
    ensures var size := |Bytes(Last(Put(vs, gone, cap, day, line)))|;
            && size == SizeBefore(vs, gone, cap, day) + |line| + 1
            && SizeBefore(vs, gone, cap, day) <= cap
            && (size > cap <==> SizeBefore(vs, gone, cap, day) + |line| + 1 > cap)
  {
    ReopenedLast(vs, gone, cap, day);
    LineBytes(Last(Reopened(vs, gone, cap, day)), line);
    hide Bytes, Reopened, KeyFor;
  }

  /** Bytes moving from the buffer to the disk. */
  lemma HoldsAppend(dir: seq<File>, vs: seq<Volume>, unflushed: string, disk: string, rest: string)
    requires Holds(dir, vs, unflushed) && dir != [] && disk + rest == unflushed
    ensures Holds(WithLast(dir, File(Last(dir).key, Last(dir).content + disk)), vs, rest)
  {
    hide Bytes, Less, GoodVolume;
    assert Last(dir).content + (disk + rest) == (Last(dir).content + disk) + rest;
  }

  /** A line added to the newest volume, still to reach the disk. */
  lemma HoldsLine(dir: seq<File>, vs: seq<Volume>, unflushed: string, line: string)
    requires Holds(dir, vs, unflushed) && dir != [] && Last(vs).torn == [] && line != [] && Bare(line)
    ensures Holds(dir, WithLast(vs, Last(vs).(lines := Last(vs).lines + [line])), unflushed + line + "\n")
  {
    hide Body, Less, Bare;
    BodyAppend(Last(vs).lines, line);
    var v := Last(vs).(lines := Last(vs).lines + [line]);
    assert Bytes(v) == Bytes(Last(vs)) + line + "\n";
    assert Last(dir).content + (unflushed + line + "\n") == (Last(dir).content + unflushed) + line + "\n";
  }

  /** Ending a half line makes it a line. */
  lemma HoldsRepair(dir: seq<File>, vs: seq<Volume>)
    requires Holds(dir, vs, []) && dir != [] && Last(vs).torn != []
    ensures Holds(dir, WithLast(vs, Volume(Last(vs).key, Last(vs).lines + [Last(vs).torn], [])), "\n")
  {
    hide Body, Less, Bare;
    BodyAppend(Last(vs).lines, Last(vs).torn);
    BareNothing();
    assert Last(dir).content + [] == Last(dir).content;
  }

  lemma BareNothing()
    ensures Bare([])
  {
  }

  /** A new, empty newest file. */
  lemma HoldsCreate(dir: seq<File>, vs: seq<Volume>, key: Key)
    requires Holds(dir, vs, []) && (dir != [] ==> Less(Last(dir).key, key))
    ensures Holds(dir + [File(key, [])], vs + [Volume(key, [], [])], [])
  {
    hide Less, GoodVolume;
    GoodEmpty(key);
    if dir != [] {
      assert Last(dir).content + [] == Last(dir).content;
      forall i | 0 <= i < |dir| ensures Less(dir[i].key, key) {
        if i < |dir| - 1 { LessTrans(dir[i].key, Last(dir).key, key); }
      }
    }
  }

  lemma GoodEmpty(key: Key)
    ensures GoodVolume(Volume(key, [], [])) && Bytes(Volume(key, [], [])) == []
  {
  }

  /** The oldest file deleted. */
  lemma HoldsRemove(dir: seq<File>, vs: seq<Volume>, unflushed: string)
    requires Holds(dir, vs, unflushed) && dir != [] && (|dir| > 1 || unflushed == [])
    ensures Holds(dir[1..], vs[1..], unflushed)
  {
    hide Bytes, Less, GoodVolume;
  }

  /** A file older than the newest is dated no later; a day's newest file is the newest of all. */
  lemma NewestOfDay(dir: seq<File>, day: Date, j: nat)
    requires Sorted(dir) && NotAfter(dir, day) && j < |dir| && dir[j].key.date == day
    ensures Last(dir).key.date == day
  {
    if j < |dir| - 1 { assert Less(dir[j].key, Last(dir).key); }
  }

  /** The first day the age limit keeps. */
  function OldestKept(now: nat, maxAge: nat): Date { DateAt(if now < maxAge then 0 else now - maxAge) }

  /** What a sweep leaves: nothing past the age limit, and a total that fits, unless only the open file is left. */
  ghost predicate Swept(dir: seq<File>, open: bool, oldest: Date, maxBytes: nat) {
    && (forall i :: 0 <= i < |dir| && !(open && i == |dir| - 1) ==> !DateLess(dir[i].key.date, oldest))
    && (Total(dir) <= maxBytes || dir == [] || (open && |dir| == 1))
  }

  /** All bytes ever put into these files. */
  function AllBytes(vs: seq<Volume>): nat {
    if vs == [] then 0 else |Bytes(vs[0])| + AllBytes(vs[1..])
  }

  /** Each file of a stretch was past the age limit, or too much with all that came after it. */
  ghost predicate Due(vs: seq<Volume>, from: nat, to: nat, oldest: Date, maxBytes: nat) {
    forall j :: from <= j < to <= |vs| ==> DateLess(vs[j].key.date, oldest) || AllBytes(vs[j..]) > maxBytes
  }

  /** What is on the disk of a file is no more than was put into it. */
  lemma {:induction false} OnDiskAtMost(dir: seq<File>, vs: seq<Volume>)
    requires |dir| == |vs| && forall i :: 0 <= i < |vs| ==> |dir[i].content| <= |Bytes(vs[i])|
    ensures Total(dir) <= AllBytes(vs)
  {
    hide Bytes;
    if dir != [] { OnDiskAtMost(dir[1..], vs[1..]); }
  }

  lemma HoldsSizes(dir: seq<File>, vs: seq<Volume>, unflushed: string, j: nat)
    requires Holds(dir, vs, unflushed) && j < |vs|
    ensures |dir| == |vs| && dir[j].key == vs[j].key && Total(dir[j..]) <= AllBytes(vs[j..])
  {
    hide Bytes, GoodVolume, Less, AllBytes, Total;
    OnDiskAtMost(dir[j..], vs[j..]);
  }

  /** Each of the first n files is past the age limit, or too much on the disk with those after it. */
  ghost predicate Overdue(dir: seq<File>, n: nat, oldest: Date, maxBytes: nat) {
    forall j :: 0 <= j < n <= |dir| ==> DateLess(dir[j].key.date, oldest) || Total(dir[j..]) > maxBytes
  }

  lemma OverdueMore(dir: seq<File>, n: nat, oldest: Date, maxBytes: nat)
    requires n < |dir| && Overdue(dir, n, oldest, maxBytes)
    requires DateLess(dir[n].key.date, oldest) || Total(dir[n..]) > maxBytes
    ensures Overdue(dir, n + 1, oldest, maxBytes)
  {
    hide DateLess, Total;
  }

  lemma NoneOverdue(dir: seq<File>, oldest: Date, maxBytes: nat)
    ensures Overdue(dir, 0, oldest, maxBytes)
  {
  }

  /** What a sweep deletes was due. */
  lemma SweptWereDue(dir: seq<File>, vs: seq<Volume>, unflushed: string, removed: nat, n: nat, oldest: Date,
                     maxBytes: nat)
    requires removed <= |vs| && Holds(dir, vs[removed..], unflushed) && n <= |dir|
    requires Overdue(dir, n, oldest, maxBytes)
    ensures Due(vs, removed, removed + n, oldest, maxBytes)
  {
    hide Holds, Total, AllBytes, DateLess;
    HoldsSorted(dir, vs[removed..], unflushed);
    forall j | removed <= j < removed + n
      ensures DateLess(vs[j].key.date, oldest) || AllBytes(vs[j..]) > maxBytes
    {
      HoldsSizes(dir, vs[removed..], unflushed, j - removed);
      assert vs[removed..][j - removed..] == vs[j..];
      assert DateLess(dir[j - removed].key.date, oldest) || Total(dir[j - removed..]) > maxBytes;
    }
  }

  /** The same files, perhaps with more in them, and perhaps more files. */
  ghost predicate Widens(vs: seq<Volume>, us: seq<Volume>) {
    |vs| <= |us| && forall i :: 0 <= i < |vs| ==> us[i].key == vs[i].key && |Bytes(vs[i])| <= |Bytes(us[i])|
  }

  lemma {:induction false} WidensBytes(vs: seq<Volume>, us: seq<Volume>)
    requires Widens(vs, us)
    ensures AllBytes(vs) <= AllBytes(us)
  {
    hide Bytes;
    if vs != [] { WidensBytes(vs[1..], us[1..]); }
  }

  /** What was due stays so. */
  lemma DueStays(vs: seq<Volume>, us: seq<Volume>, from: nat, to: nat, oldest: Date, maxBytes: nat)
    requires Widens(vs, us) && to <= |vs| && Due(vs, from, to, oldest, maxBytes)
    ensures Due(us, from, to, oldest, maxBytes)
  {
    hide Bytes, AllBytes, DateLess;
    forall j | from <= j < to ensures DateLess(us[j].key.date, oldest) || AllBytes(us[j..]) > maxBytes {
      WidensBytes(vs[j..], us[j..]);
    }
  }

  lemma WithLineWidens(vs: seq<Volume>, line: string)
    requires vs != [] && Last(vs).torn == []
    ensures Widens(vs, WithLine(vs, line))
  {
    hide Bytes;
    LineBytes(Last(vs), line);
  }

  lemma ReopenedWidens(vs: seq<Volume>, gone: nat, cap: nat, day: Date)
    ensures Widens(vs, Reopened(vs, gone, cap, day))
  {
    hide Bytes, KeyFor;
    if OfDay(vs, gone, day) && |Bytes(Last(vs))| < cap { MendedBytes(Last(vs)); }
  }

  lemma PutWidens(vs: seq<Volume>, gone: nat, cap: nat, day: Date, line: string)
    ensures Widens(vs, Put(vs, gone, cap, day, line))
  {
    hide Bytes, KeyFor, Reopened, WithLine, SizeBefore;
    var mid := Reopened(vs, gone, cap, day);
    ReopenedWidens(vs, gone, cap, day);
    ReopenedLast(vs, gone, cap, day);
    WithLineWidens(mid, line);
  }

  /** Some step of a run finds `date` past the age limit. */
  ghost predicate Expires(ops: seq<Op>, maxAge: nat, date: Date) {
    exists i :: 0 <= i < |ops| && (ops[i].Write? || ops[i].Sweep?) && DateLess(date, OldestKept(ops[i].now, maxAge))
  }

  /** Each file of a stretch was past the age limit at some step, or too much with all that came after it. */
  ghost predicate AllDue(vs: seq<Volume>, from: nat, to: nat, ops: seq<Op>, maxAge: nat, maxBytes: nat) {
    forall j :: from <= j < to <= |vs| ==> Expires(ops, maxAge, vs[j].key.date) || AllBytes(vs[j..]) > maxBytes
  }

  lemma AllDueStays(vs: seq<Volume>, us: seq<Volume>, from: nat, to: nat, ops: seq<Op>, maxAge: nat, maxBytes: nat)
    requires Widens(vs, us) && to <= |vs| && AllDue(vs, from, to, ops, maxAge, maxBytes)
    ensures AllDue(us, from, to, ops, maxAge, maxBytes)
  {
    hide Bytes, AllBytes, Expires;
    forall j | from <= j < to ensures Expires(ops, maxAge, us[j].key.date) || AllBytes(us[j..]) > maxBytes {
      WidensBytes(vs[j..], us[j..]);
    }
  }

  lemma AllDueMore(vs: seq<Volume>, from: nat, mid: nat, to: nat, ops: seq<Op>, i: nat, maxAge: nat, maxBytes: nat)
    requires from <= mid <= to <= |vs| && AllDue(vs, from, mid, ops, maxAge, maxBytes)
    requires i < |ops| && (ops[i].Write? || ops[i].Sweep?)
    requires Due(vs, mid, to, OldestKept(ops[i].now, maxAge), maxBytes)
    ensures AllDue(vs, from, to, ops, maxAge, maxBytes)
  {
    hide AllBytes, DateLess, OldestKept;
  }

  lemma NoneDue(vs: seq<Volume>, from: nat, ops: seq<Op>, maxAge: nat, maxBytes: nat)
    ensures AllDue(vs, from, from, ops, maxAge, maxBytes)
  {
  }

  /** A run deletes nothing when no file is ever past the age limit and all ever written fits. */
  lemma NothingDue(vs: seq<Volume>, removed: nat, ops: seq<Op>, maxAge: nat, maxBytes: nat)
    requires removed <= |vs| && AllDue(vs, 0, removed, ops, maxAge, maxBytes) && AllBytes(vs) <= maxBytes
    requires forall j :: 0 <= j < |vs| ==> !Expires(ops, maxAge, vs[j].key.date)
    ensures removed == 0
  {
    hide Expires, AllBytes;
    assert vs[0..] == vs;
  }

  /** The files kept start no later than the first one kept. */
  lemma KeptFrom(files: seq<File>, i: nat, open: bool, oldest: Date, maxBytes: nat)
    requires Sorted(files) && i < |files| && !DateLess(files[i].key.date, oldest) && Total(files[i..]) <= maxBytes
    ensures Swept(files[i..], open, oldest, maxBytes)
  {
    forall j | i < j < |files| ensures !DateLess(files[j].key.date, oldest) {
      assert Less(files[i].key, files[j].key);
    }
  }

  /** One step of a run of the writer. */
  datatype Op =
    | Write(entry: Entry, now: nat, rotateFails: bool)
    | Flush
    | Sweep(now: nat)
    | Close

  class LogFile {
    const maxAge: nat
    const maxBytes: nat
    const fileCap: nat

    // The directory, as listed: oldest file first, bytes on disk only.
    var dir: seq<File>
    // The open file, if any, is `cur`; `pending` is still in its buffer.
    var open: bool
    var cur: Key
    var pending: string
    var size: nat
    var failedDay: Option<Date>

    // Every file there ever was, in order; the first `removed` are deleted.
    ghost var volumes: seq<Volume>
    ghost var removed: nat

    ghost predicate Valid()
      reads this`dir, this`open, this`cur, this`pending, this`size, this`volumes, this`removed
    {
      && fileCap > 0
      && removed <= |volumes|
      && Holds(dir, volumes[removed..], pending)
      && (open ==>
            && dir != [] && cur == Last(dir).key
            && Last(volumes).torn == []
            && size == |Last(dir).content| + |pending|)
      && (!open ==> pending == []) && |pending| <= BUFFER
    }

    /**
     * The last step put bytes on the disk behind the first `safe` of the newest
     * file; with those in the buffer, they are a buffer and its last line.
     */
    ghost predicate OnDisk(safe: nat)
      reads this`dir, this`open, this`pending, this`volumes
    {
      open ==>
        && dir != [] && safe <= |Last(dir).content| && volumes != []
        && |Last(dir).content| + |pending| <= safe + BUFFER + LastLine(Last(volumes))
    }

    constructor (maxAge: nat, maxBytes: nat, fileCap: nat, dir: seq<File>, ghost volumes: seq<Volume>)
      requires fileCap > 0 && Holds(dir, volumes, [])
      ensures Valid() && !open && this.dir == dir && this.volumes == volumes && removed == 0 && failedDay == None
      ensures this.maxAge == maxAge && this.maxBytes == maxBytes && this.fileCap == fileCap
    {
      this.maxAge, this.maxBytes, this.fileCap := maxAge, maxBytes, fileCap;
      this.dir, this.open, this.cur, this.pending, this.size := dir, false, Key(Date(1, 1, 1), 0), [], 0;
      this.failedDay := None;
      this.volumes, this.removed := volumes, 0;
      new;
      assert volumes[0..] == volumes;
    }

    /** Puts bytes on the disk at the end of the open file. */
    method Append(disk: string, ghost rest: string)
      requires open && dir != [] && cur == Last(dir).key && removed <= |volumes|
      requires Holds(dir, volumes[removed..], disk + rest)
      modifies this`dir
      ensures dir != [] && cur == Last(dir).key && |Last(dir).content| == |old(Last(dir).content)| + |disk|
      ensures Holds(dir, volumes[removed..], rest) && Grows(old(dir), dir)
      ensures forall day :: NotAfter(old(dir), day) ==> NotAfter(dir, day)
    {
      HoldsAppend(dir, volumes[removed..], disk + rest, disk, rest);
      HoldsSorted(WithLast(dir, File(cur, Last(dir).content + disk)), volumes[removed..], rest);
      hide Holds, Less, DateLess;
      dir := WithLast(dir, File(cur, Last(dir).content + disk));
    }

    method FlushBuffer()
      requires Valid()
      modifies this`dir, this`pending
      ensures Valid() && pending == [] && Grows(old(dir), dir)
      ensures forall day :: NotAfter(old(dir), day) ==> NotAfter(dir, day)
    {
      hide Holds, NotAfter, Grows;
      HoldsSorted(dir, volumes[removed..], pending);
      GrowsSame(dir);
      if open {
        assert pending == pending + [];
        Append(pending, []);
        pending := [];
      }
    }

    method CloseFile()
      requires Valid()
      modifies this`dir, this`pending, this`open
      ensures Valid() && !open && Grows(old(dir), dir)
      ensures forall day :: NotAfter(old(dir), day) ==> NotAfter(dir, day)
    {
      hide Holds, NotAfter, Grows;
      FlushBuffer();
      open := false;
    }

    /** The newest file of `day` and its size on disk, wherever it stands; the day's first part if there is none. */
    method FindNewest(day: Date) returns (key: Key, size: nat, ghost at: int)
      requires Sorted(dir)
      ensures -1 <= at < |dir| && forall k :: at < k < |dir| ==> dir[k].key.date != day
      ensures at >= 0 ==> key == dir[at].key && size == |dir[at].content| && key.date == day
      ensures at == -1 ==> key == Key(day, 0) && size == 0
    {
      key, size, at := Key(day, 0), 0, -1;
      for i := 0 to |dir|
        invariant -1 <= at < i
        invariant at == -1 ==> key == Key(day, 0) && size == 0
        invariant at >= 0 ==> key == dir[at].key && size == |dir[at].content| && key.date == day
        invariant forall k :: at < k < i ==> dir[k].key.date != day
      {
        if dir[i].key.date == day && !Less(dir[i].key, key) {
          key, size := dir[i].key, |dir[i].content|;
          at := i;
        } else if dir[i].key.date == day {
          assert at >= 0;
          LessTotal(dir[i].key, key);
          assert false;
        }
      }
    }

    method RemoveOldest()
      requires Valid() && dir != [] && (open ==> |dir| > 1)
      modifies this`dir, this`removed
      ensures Valid() && removed == old(removed) + 1 && dir == old(dir)[1..]
    {
      hide Holds;
      HoldsSorted(dir, volumes[removed..], pending);
      assert volumes[removed..][1..] == volumes[removed + 1..];
      HoldsRemove(dir, volumes[removed..], pending);
      dir := dir[1..];
      removed := removed + 1;
    }

    /** Deletes files past the age limit, then the oldest until the total fits; never the open one. */
    method SweepFiles(now: nat)
      requires Valid()
      modifies this`dir, this`removed
      ensures Valid()
      ensures old(removed) <= removed <= old(removed) + |old(dir)| && dir == old(dir)[removed - old(removed)..]
      ensures Swept(dir, open, OldestKept(now, maxAge), maxBytes)
      ensures Overdue(old(dir), removed - old(removed), OldestKept(now, maxAge), maxBytes)
      ensures Due(volumes, old(removed), removed, OldestKept(now, maxAge), maxBytes)
    {
      hide DateLess, OldestKept, Holds, Total, Swept, Due, Overdue;
      var files := dir;
      HoldsSorted(dir, volumes[removed..], pending);
      var oldest := OldestKept(now, maxAge);
      var total := SumSizes(files);
      var i := 0;
      ghost var r := removed;
      assert files[0..] == files;
      NoneOverdue(files, oldest, maxBytes);
      while i < |files|
        invariant removed == r + i && i <= |files| && dir == files[i..]
        invariant Valid() && total == Total(files[i..])
        invariant Overdue(files, i, oldest, maxBytes)
        decreases |files| - i
      {
        if open && files[i].key == cur {
          OpenIsLast(files, i);
          assert |dir| == 1;
          OnlyOpen(dir, oldest, maxBytes);
          SweptWereDue(files, volumes, pending, r, i, oldest, maxBytes);
          return;
        }
        if !DateLess(files[i].key.date, oldest) && total <= maxBytes {
          KeptFrom(files, i, open, oldest, maxBytes);
          SweptWereDue(files, volumes, pending, r, i, oldest, maxBytes);
          return;
        }
        DropOldest(files, i);
        OverdueMore(files, i, oldest, maxBytes);
        RemoveOldest();
        total := total - |files[i].content|;
        i := i + 1;
      }
      NothingLeft(open, oldest, maxBytes);
      SweptWereDue(files, volumes, pending, r, i, oldest, maxBytes);
    }

    /** Opens the newest part of `day`, or the next part when that one is full, creating it if need be. */
    method OpenNewest(day: Date)
      requires Valid() && !open && NotAfter(dir, day)
      modifies this`dir, this`open, this`cur, this`size, this`volumes
      ensures NotAfter(dir, day) && Grows(old(dir), dir)
      ensures open && dir != [] && cur == Last(dir).key == KeyFor(old(volumes), removed, fileCap, day)
      ensures size == |Last(dir).content| < fileCap
      ensures removed < |volumes| && Holds(dir, volumes[removed..], []) && Last(volumes) == Last(volumes[removed..])
      ensures volumes == if OfDay(old(volumes), removed, day) && |Bytes(Last(old(volumes)))| < fileCap then old(volumes)
                         else old(volumes) + [Volume(cur, [], [])]
    {
      hide Holds, Less, DateLess, Bytes;
      HoldsSorted(dir, volumes[removed..], []);
      var key, sz, at := FindNewest(day);
      NewestIs(dir, volumes[removed..], day, at);
      if sz >= fileCap {
        PartAfter(key);
        key, sz := key.(part := key.part + 1), 0;
      }
      LessTotal(key, key);
      if dir == [] || Last(dir).key != key {
        HoldsCreate(dir, volumes[removed..], key);
        assert (volumes + [Volume(key, [], [])])[removed..] == volumes[removed..] + [Volume(key, [], [])];
        NotAfterNew(dir, File(key, []), day);
        dir := dir + [File(key, [])];
        volumes := volumes + [Volume(key, [], [])];
        HoldsSorted(dir, volumes[removed..], []);
      }
      cur, size, open := key, sz, true;
    }

    /** Ends a half line that a crash mid-flush left. */
    method EndTornLine()
      requires fileCap > 0 && open && dir != [] && cur == Last(dir).key && size == |Last(dir).content|
      requires removed < |volumes| && Holds(dir, volumes[removed..], []) && Last(volumes) == Last(volumes[removed..])
      requires pending == []
      modifies this`pending, this`size, this`volumes
      ensures Valid() && volumes == WithLast(old(volumes), Mended(Last(old(volumes))))
    {
      hide Holds, Less;
      TornTail(dir, volumes[removed..]);
      if size > 0 && Last(Last(dir).content) != '\n' {
        HoldsRepair(dir, volumes[removed..]);
        ghost var w := Mended(Last(volumes));
        assert WithLast(volumes, w)[removed..] == WithLast(volumes[removed..], w);
        volumes := WithLast(volumes, w);
        pending, size := "\n", size + 1;
      } else {
        assert WithLast(volumes, Last(volumes)) == volumes;
      }
    }

    /** Closes the open file and opens the newest part of `day`, or the next part when that one is full. */
    method Rotate(day: Date, now: nat, fails: bool) returns (ok: bool)
      requires Valid() && NotAfter(dir, day)
      modifies this`dir, this`open, this`cur, this`pending, this`size, this`volumes, this`removed
      ensures Valid() && NotAfter(dir, day)
      ensures ok == !fails && open == ok && old(removed) <= removed
      ensures removed == old(removed) ==> Grows(old(dir), dir)
      ensures if ok then cur == KeyFor(old(volumes), old(removed), fileCap, day)
                         && volumes == Reopened(old(volumes), old(removed), fileCap, day)
              else volumes == old(volumes)
      ensures ok && old(open) ==> Swept(dir, open, OldestKept(now, maxAge), maxBytes)
      ensures Due(volumes, old(removed), removed, OldestKept(now, maxAge), maxBytes)
      ensures !ok ==> removed == old(removed)
    {
      hide Holds, Less, DateLess, Swept, OldestKept, Bytes, NotAfter, Grows, AllBytes;
      var rotated := open;
      CloseFile();
      if fails { return false; }
      ghost var closed := dir;
      OpenNewest(day);
      GrowsOn(old(dir), closed, dir);
      MendedNew(cur);
      EndTornLine();
      assert volumes == Reopened(old(volumes), old(removed), fileCap, day);
      if rotated {
        NotAfterSuffix(dir, day);
        SweepFiles(now);
      }
      return true;
    }

    /** Puts one line into the open file's buffer, spilling to disk what does not fit. */
    method PutLine(line: string)
      requires Valid() && open && line != [] && Bare(line)
      modifies this`dir, this`pending, this`size, this`volumes
      ensures Valid() && size == old(size) + |line| + 1 && volumes == WithLine(old(volumes), line)
              && Grows(old(dir), dir) && OnDisk(old(|Last(dir).content|))
      ensures forall day :: NotAfter(old(dir), day) ==> NotAfter(dir, day)
    {
      hide Holds, Less, DateLess, Spill, Bare, NotAfter, Grows;
      HoldsSorted(dir, volumes[removed..], pending);
      ghost var w := Last(volumes).(lines := Last(volumes).lines + [line]);
      HoldsKeys(dir, volumes[removed..], pending);
      HoldsLine(dir, volumes[removed..], pending, line);
      assert WithLast(volumes, w)[removed..] == WithLast(volumes[removed..], w);
      volumes := WithLast(volumes, w);
      var (disk, rest) := Spill(pending, line + "\n");
      assert pending + line + "\n" == pending + (line + "\n");
      Append(disk, rest);
      pending := rest;
      size := size + |line| + 1;
    }

    /**
     * Saves one entry as the last line of its day's newest file; an entry is
     * lost only while saving is paused, or when its file cannot be opened.
     */
    method WriteEntry(entry: Entry, now: nat, rotateFails: bool) returns (accepted: bool, safe: nat)
      requires Valid() && NotAfter(dir, DateAt(now))
      modifies this`dir, this`open, this`cur, this`pending, this`size, this`volumes, this`removed, this`failedDay
      ensures Valid() && NotAfter(dir, DateAt(now)) && old(removed) <= removed
      ensures removed == old(removed) ==> Grows(old(dir), dir)
      ensures accepted <==>
                && old(failedDay) != Some(DateAt(now))
                && !(rotateFails && (!old(open) || old(cur).date != DateAt(now) || old(size) >= fileCap))
      ensures failedDay == if accepted then None else Some(DateAt(now))
      ensures accepted ==>
                && open && cur == KeyFor(old(volumes), old(removed), fileCap, DateAt(now))
                && volumes == Put(old(volumes), old(removed), fileCap, DateAt(now), Marshal(entry))
                && size == SizeBefore(old(volumes), old(removed), fileCap, DateAt(now)) + |Marshal(entry)| + 1
      ensures !accepted ==> volumes == old(volumes) && removed == old(removed)
      ensures Due(volumes, old(removed), removed, OldestKept(now, maxAge), maxBytes)
      ensures OnDisk(safe)
    {
      hide Holds, Less, DateLess, Marshal, Bare, NotAfter, DateAt, Bytes, Reopened, WithLine, SizeBefore, KeyFor, Grows;
      hide Widens, OldestKept, AllBytes, Valid, Sorted, OnDisk;
      Bounds();
      GrowsSame(dir);
      var day := DateAt(now);
      if failedDay.Some? {
        if failedDay == Some(day) {
          safe := Flushed();
          return false, safe;
        }
        failedDay := None;
      }
      OpenStands(day);
      if !open || cur.date != day || size >= fileCap {
        var ok := Rotate(day, now, rotateFails);
        ghost var rotated := dir;
        if !ok {
          CloseFile();
          if removed == old(removed) { GrowsOn(old(dir), rotated, dir); }
          failedDay := Some(day);
          safe := Flushed();
          return false, safe;
        }
      }
      ReopenedLast(old(volumes), old(removed), fileCap, day);
      OpenSize();
      MarshalBare(entry);
      ghost var before := dir;
      WithLineWidens(volumes, Marshal(entry));
      DueStays(volumes, WithLine(volumes, Marshal(entry)), old(removed), removed, OldestKept(now, maxAge), maxBytes);
      safe := |Last(dir).content|;
      PutLine(Marshal(entry));
      if removed == old(removed) { GrowsOn(old(dir), before, dir); }
      return true, safe;
    }

    lemma Bounds()
      requires Valid()
      ensures fileCap > 0 && removed <= |volumes| && Sorted(dir)
    {
      HoldsSorted(dir, volumes[removed..], pending);
    }

    /** All of the open file that is on the disk. */
    method Flushed() returns (safe: nat)
      requires Valid()
      ensures OnDisk(safe)
    {
      hide Holds;
      HoldsSorted(dir, volumes[removed..], pending);
      safe := if open then |Last(dir).content| else 0;
    }

    /** While a file is open, its size is that of the newest volume. */
    lemma OpenSize()
      requires Valid() && open
      ensures dir != [] && removed < |volumes| && Last(volumes).torn == []
      ensures size == |Bytes(Last(volumes))| && Last(volumes).key == cur
    {
      hide Bytes, GoodVolume;
      HoldsSorted(dir, volumes[removed..], pending);
      assert Last(volumes) == Last(volumes[removed..]);
    }

    /** A file that is open, of the day and not full is the one a line of the day goes to. */
    lemma OpenStands(day: Date)
      requires Valid()
      ensures open && cur.date == day && size < fileCap ==>
                && cur == KeyFor(volumes, removed, fileCap, day)
                && volumes == Reopened(volumes, removed, fileCap, day)
    {
      hide Bytes;
      if open && cur.date == day && size < fileCap {
        OpenSize();
        hide Holds;
        assert WithLast(volumes, Last(volumes)) == volumes;
      }
    }

    /**
     * Any run of the writer whose clock never goes back a day: every entry
     * accepted is saved, in order, after the half line a crash may have left.
     */
    method Replay(ops: seq<Op>, from: Date, ghost r: Rules, ghost parts: nat)
      returns (accepted: seq<Entry>, ghost repaired: seq<string>, safe: nat)
      requires Valid() && NotAfter(dir, from) && DaysGoOn(ops, from)
      requires VolumesFine(r, volumes, parts) && OpsFine(r, ops, fileCap)
      modifies this`dir, this`open, this`cur, this`pending, this`size, this`volumes, this`removed, this`failedDay
      ensures Valid() && old(removed) <= removed
      ensures LinesOf(volumes) == old(LinesOf(volumes)) + repaired + Saved(accepted)
      ensures repaired == [] || (!Settled(old(volumes)) && repaired == [old(Last(volumes)).torn])
      ensures Settled(volumes) || volumes == old(volumes)
      ensures Sub(accepted, Entries(ops))
      ensures old(failedDay).None? && NoFailures(ops) ==> accepted == Entries(ops)
      ensures VolumesFine(r, volumes, parts + |ops|)
      ensures AllDue(volumes, old(removed), removed, ops, maxAge, maxBytes) && OnDisk(safe)
    {
      hide Holds, NotAfter, DateAt, DateLess, Swept, Less, OpsFine, Put, Repaired, Marshal, Grows, Due, AllDue;
      hide Widens, OldestKept, Saves, OnDisk, LineFine, Valid, KeyFor, SizeBefore;
      accepted, repaired := [], [];
      safe := Flushed();
      NoneDue(volumes, removed, ops, maxAge, maxBytes);
      var i := 0;
      ghost var written: seq<Entry> := [];
      ghost var day := from;
      SavesNothing(r, volumes, parts);
      assert ops[0..] == ops;
      while i < |ops|
        invariant 0 <= i <= |ops|
        invariant Valid() && NotAfter(dir, day) && DaysGoOn(ops[i..], day) && old(removed) <= removed
        invariant Saves(r, old(volumes), volumes, accepted, repaired, written, parts + i)
        invariant written + Entries(ops[i..]) == Entries(ops)
        invariant old(failedDay).None? && NoFailures(ops) ==>
                    failedDay.None? && NoFailures(ops[i..]) && accepted == written
        invariant AllDue(volumes, old(removed), removed, ops, maxAge, maxBytes) && OnDisk(safe)
      {
        assert ops[i..][1..] == ops[i + 1..];
        SavesLonger(r, old(volumes), volumes, accepted, repaired, written, parts + i);
        match ops[i] {
          case Write(entry, now, fails) =>
            NotAfterLater(dir, day, DateAt(now));
            ghost var vs, gone := volumes, removed;
            Bounds();
            var ok;
            ok, safe := WriteEntry(entry, now, fails);
            day := DateAt(now);
            EntriesNext(written, ops, i);
            if ok {
              OpFine(r, ops, fileCap, i);
              PutWidens(vs, gone, fileCap, day, Marshal(entry));
              AllDueStays(vs, volumes, old(removed), gone, ops, maxAge, maxBytes);
              SavesWrite(r, old(volumes), vs, accepted, repaired, written, parts + i, gone, fileCap, day, entry);
              repaired := repaired + Repaired(vs, gone, fileCap, day);
              accepted := accepted + [entry];
            } else {
              SavesLost(r, old(volumes), vs, accepted, repaired, written, parts + i + 1, entry);
            }
            written := written + [entry];
            Bounds();
            AllDueMore(volumes, old(removed), gone, removed, ops, i, maxAge, maxBytes);
          case Flush =>
            FlushBuffer();
            safe := Flushed();
          case Sweep(now) =>
            NotAfterSuffix(dir, day);
            ghost var gone := removed;
            SweepFiles(now);
            Bounds();
            AllDueMore(volumes, old(removed), gone, removed, ops, i, maxAge, maxBytes);
            safe := Flushed();
          case Close =>
            CloseFile();
            safe := Flushed();
        }
        i := i + 1;
      }
      assert Entries(ops[i..]) == [] && written + [] == written;
      SavesIs(r, old(volumes), volumes, accepted, repaired, written, parts + i);
    }
  }

  // ----- What a run has saved so far

  /** From `vs` to `us`, a run asked to write `written` has saved `accepted`, after mending `repaired`. */
  ghost predicate Saves(r: Rules, vs: seq<Volume>, us: seq<Volume>, accepted: seq<Entry>, repaired: seq<string>,
                        written: seq<Entry>, parts: nat) {
    && LinesOf(us) == LinesOf(vs) + repaired + Saved(accepted)
    && (repaired == [] || (!Settled(vs) && repaired == [Last(vs).torn]))
    && (Settled(us) || (us == vs && accepted == [] && repaired == []))
    && Sub(accepted, written) && VolumesFine(r, us, parts)
  }

  lemma SavesNothing(r: Rules, vs: seq<Volume>, parts: nat)
    requires VolumesFine(r, vs, parts)
    ensures Saves(r, vs, vs, [], [], [], parts)
  {
    hide LinesOf, Saved, VolumesFine, Sub;
    SavedNothing();
    var none: seq<Entry> := [];
    SubSelf(none);
    assert LinesOf(vs) + [] + [] == LinesOf(vs);
  }

  lemma SavesIs(r: Rules, vs: seq<Volume>, us: seq<Volume>, accepted: seq<Entry>, repaired: seq<string>,
                written: seq<Entry>, parts: nat)
    requires Saves(r, vs, us, accepted, repaired, written, parts)
    ensures LinesOf(us) == LinesOf(vs) + repaired + Saved(accepted)
    ensures repaired == [] || (!Settled(vs) && repaired == [Last(vs).torn])
    ensures Settled(us) || us == vs
    ensures Sub(accepted, written) && VolumesFine(r, us, parts)
  {
    hide LinesOf, Saved, VolumesFine, Sub;
  }

  lemma SavesLonger(r: Rules, vs: seq<Volume>, us: seq<Volume>, accepted: seq<Entry>, repaired: seq<string>,
                    written: seq<Entry>, parts: nat)
    requires Saves(r, vs, us, accepted, repaired, written, parts)
    ensures Saves(r, vs, us, accepted, repaired, written, parts + 1)
  {
    hide LinesOf, Saved, Sub, VolumesFine;
    FineMore(r, us, parts);
  }

  lemma SavesLost(r: Rules, vs: seq<Volume>, us: seq<Volume>, accepted: seq<Entry>, repaired: seq<string>,
                  written: seq<Entry>, parts: nat, entry: Entry)
    requires Saves(r, vs, us, accepted, repaired, written, parts)
    ensures Saves(r, vs, us, accepted, repaired, written + [entry], parts)
  {
    hide LinesOf, Saved, Sub, VolumesFine;
    SubSkip(accepted, written, entry);
  }

  lemma SavesWrite(r: Rules, vs: seq<Volume>, us: seq<Volume>, accepted: seq<Entry>, repaired: seq<string>,
                   written: seq<Entry>, parts: nat, gone: nat, cap: nat, day: Date, entry: Entry)
    requires Saves(r, vs, us, accepted, repaired, written, parts)
    requires cap > 0 && LineFine(r, cap, day, Marshal(entry))
    ensures Saves(r, vs, Put(us, gone, cap, day, Marshal(entry)), accepted + [entry],
                  repaired + Repaired(us, gone, cap, day), written + [entry], parts + 1)
  {
    hide LinesOf, Saved, Sub, VolumesFine, LineFine, Put, Repaired, Marshal;
    SubTake(accepted, written, entry);
    PutFine(r, us, gone, cap, day, Marshal(entry), parts);
    PutLines(us, gone, cap, day, Marshal(entry));
    RepairedIs(us, gone, cap, day);
    SavedAfter(LinesOf(vs), repaired, Repaired(us, gone, cap, day), accepted, entry);
  }

  lemma EntriesNext(written: seq<Entry>, ops: seq<Op>, i: nat)
    requires i < |ops| && ops[i].Write? && written + Entries(ops[i..]) == Entries(ops)
    ensures (written + [ops[i].entry]) + Entries(ops[i + 1..]) == Entries(ops)
  {
    assert ops[i..][1..] == ops[i + 1..];
    assert Entries(ops[i..]) == [ops[i].entry] + Entries(ops[i + 1..]);
  }

  const MIN_CAP: nat := 1048576

  /** A file a byte under the smallest cap, holding one line. */
  function AlmostFull(day: Date): Volume { Volume(Key(day, 0), [seq(MIN_CAP - 2, _ => 'x')], []) }

  lemma AlmostFullIs(day: Date)
    ensures var v := AlmostFull(day);
            v.torn == [] && |Bytes(v)| == MIN_CAP - 1 && Holds([File(v.key, Bytes(v))], [v], []) && OfDay([v], 0, day)
  {
    var v := AlmostFull(day);
    BodyAppend([], v.lines[0]);
    assert [] + [v.lines[0]] == v.lines;
    assert Bytes(v) == [] + v.lines[0] + "\n";
    assert Bytes(v) + [] == Bytes(v);
  }

  /** A file that passes its cap: any entry written to one a byte short of it. */
  method PassesItsCap(entry: Entry, now: nat, maxAge: nat, maxBytes: nat) returns (lf: LogFile)
    ensures lf.Valid() && lf.open && lf.fileCap == MIN_CAP && lf.size == MIN_CAP + |Marshal(entry)| > lf.fileCap
  {
    hide Marshal, Holds, DateAt;
    var day := DateAt(now);
    AlmostFullIs(day);
    MarshalBare(entry);
    var v := AlmostFull(day);
    hide AlmostFull, Bytes;
    lf := new LogFile(maxAge, maxBytes, MIN_CAP, [File(v.key, Bytes(v))], [v]);
    var _, _ := lf.WriteEntry(entry, now, false);
  }

  lemma RepairedIs(vs: seq<Volume>, gone: nat, cap: nat, day: Date)
    ensures Repaired(vs, gone, cap, day) == [] || (vs != [] && Last(vs).torn != []
            && Repaired(vs, gone, cap, day) == [Last(vs).torn])
  {
  }

  lemma SavedAfter(before: seq<string>, repaired: seq<string>, more: seq<string>, es: seq<Entry>, e: Entry)
    requires more == [] || es == []
    ensures before + repaired + Saved(es) + more + [Marshal(e)] == before + (repaired + more) + Saved(es + [e])
  {
    hide Marshal, Saved;
    SavedNothing();
    SavedMore(es, e);
  }

  // ----- What holds of every line written

  /** What is promised of each line by its day, of each day, and of the size of each file. */
  datatype Rules = Rules(fine: (Date, string) -> bool, day: Date -> bool, bound: nat)

  ghost predicate VolumeFine(r: Rules, v: Volume, parts: nat) {
    && r.day(v.key.date) && v.key.part <= parts && |Bytes(v)| <= r.bound
    && (forall i :: 0 <= i < |v.lines| ==> r.fine(v.key.date, v.lines[i]))
    && (v.torn != [] ==> r.fine(v.key.date, v.torn))
  }

  ghost predicate VolumesFine(r: Rules, vs: seq<Volume>, parts: nat) {
    forall i :: 0 <= i < |vs| ==> VolumeFine(r, vs[i], parts)
  }

  ghost predicate OpsFine(r: Rules, ops: seq<Op>, cap: nat) {
    forall i :: 0 <= i < |ops| && ops[i].Write? ==> LineFine(r, cap, DateAt(ops[i].now), Marshal(ops[i].entry))
  }

  predicate LineFine(r: Rules, cap: nat, day: Date, line: string) {
    r.day(day) && r.fine(day, line) && cap + |line| + 1 <= r.bound
  }

  lemma OpFine(r: Rules, ops: seq<Op>, cap: nat, i: nat)
    requires OpsFine(r, ops, cap) && i < |ops| && ops[i].Write?
    ensures LineFine(r, cap, DateAt(ops[i].now), Marshal(ops[i].entry))
  {
  }

  lemma FineMore(r: Rules, vs: seq<Volume>, parts: nat)
    ensures VolumesFine(r, vs, parts) ==> VolumesFine(r, vs, parts + 1)
  {
  }

  /** A line saved on its day keeps every file within the rules. */
  lemma PutFine(r: Rules, vs: seq<Volume>, gone: nat, cap: nat, day: Date, line: string, parts: nat)
    requires cap > 0 && VolumesFine(r, vs, parts) && LineFine(r, cap, day, line)
    ensures VolumesFine(r, Put(vs, gone, cap, day, line), parts + 1)
  {
    hide Bytes;
    PutSize(vs, gone, cap, day, line);
    var put := Put(vs, gone, cap, day, line);
    forall i | 0 <= i < |put| ensures VolumeFine(r, put[i], parts + 1) {
      if i < |put| - 1 {
        assert put[i] == vs[i];
      } else if OfDay(vs, gone, day) {
        assert VolumeFine(r, Last(vs), parts);
      }
    }
  }

  /** The clock of a run never goes back a day. */
  ghost predicate DaysGoOn(ops: seq<Op>, day: Date) {
    ops == [] ||
    match ops[0]
    case Write(_, now, _) => !DateLess(DateAt(now), day) && DaysGoOn(ops[1..], DateAt(now))
    case _ => DaysGoOn(ops[1..], day)
  }

  predicate NoFailures(ops: seq<Op>) {
    ops == [] || ((ops[0].Write? ==> !ops[0].rotateFails) && NoFailures(ops[1..]))
  }

  function Entries(ops: seq<Op>): seq<Entry> {
    if ops == [] then []
    else if ops[0].Write? then [ops[0].entry] + Entries(ops[1..])
    else Entries(ops[1..])
  }

  /** The lines a run of entries is saved as. */
  function Saved(es: seq<Entry>): seq<string> {
    seq(|es|, i requires 0 <= i < |es| => Marshal(es[i]))
  }

  lemma SavedNothing()
    ensures Saved([]) == []
  {
  }

  lemma SavedMore(es: seq<Entry>, e: Entry)
    ensures Saved(es + [e]) == Saved(es) + [Marshal(e)]
  {
    hide Marshal;
  }

  lemma NotAfterLater(dir: seq<File>, day: Date, later: Date)
    requires NotAfter(dir, day) && !DateLess(later, day)
    ensures NotAfter(dir, later)
  {
  }

  lemma NotAfterSuffix(dir: seq<File>, day: Date)
    requires NotAfter(dir, day)
    ensures forall k :: 0 <= k <= |dir| ==> NotAfter(dir[k..], day)
  {
    hide DateLess;
  }

  method SumSizes(files: seq<File>) returns (total: nat)
    ensures total == Total(files)
  {
    total := 0;
    assert files[0..] == files;
    for i := 0 to |files|
      invariant total + Total(files[i..]) == Total(files)
    {
      assert files[i..][1..] == files[i + 1..];
      total := total + |files[i].content|;
    }
  }

  lemma HoldsSorted(dir: seq<File>, vs: seq<Volume>, unflushed: string)
    requires Holds(dir, vs, unflushed)
    ensures Sorted(dir) && |dir| == |vs|
  {
  }

  lemma HoldsKeys(dir: seq<File>, vs: seq<Volume>, unflushed: string)
    requires Holds(dir, vs, unflushed) && dir != []
    ensures |dir| == |vs| && Last(dir).key == Last(vs).key
  {
  }

  lemma MarshalBare(e: Entry)
    ensures Marshal(e) != [] && Bare(Marshal(e))
  {
    hide Marshal;
    MarshalPrintable(e);
  }

  lemma DropOldest(files: seq<File>, i: nat)
    requires i < |files|
    ensures Total(files[i..]) == |files[i].content| + Total(files[i + 1..])
    ensures files[i..][1..] == files[i + 1..]
  {
    assert files[i..][1..] == files[i + 1..];
  }

  lemma OpenIsLast(files: seq<File>, i: nat)
    requires Sorted(files) && i < |files| && files[i].key == Last(files).key
    ensures i == |files| - 1
  {
    LessTotal(files[i].key, Last(files).key);
  }

  lemma OnlyOpen(dir: seq<File>, oldest: Date, maxBytes: nat)
    requires |dir| == 1
    ensures Swept(dir, true, oldest, maxBytes)
  {
  }

  lemma NothingLeft(open: bool, oldest: Date, maxBytes: nat)
    ensures Swept([], open, oldest, maxBytes)
  {
  }

  lemma MendedNew(key: Key)
    ensures Mended(Volume(key, [], [])) == Volume(key, [], [])
  {
  }

  /** With no file after `day`, the day's newest file is the newest of all. */
  lemma NewestIs(dir: seq<File>, vs: seq<Volume>, day: Date, at: int)
    requires Holds(dir, vs, []) && NotAfter(dir, day) && -1 <= at < |dir|
    requires forall k :: at < k < |dir| ==> dir[k].key.date != day
    requires at >= 0 ==> dir[at].key.date == day
    ensures |dir| == |vs|
    ensures at == -1 ==> dir == [] || (Last(vs).key.date != day && Less(Last(dir).key, Key(day, 0)))
    ensures at >= 0 ==> at == |dir| - 1 && Last(vs).key == Last(dir).key && |Last(dir).content| == |Bytes(Last(vs))|
  {
    hide Bytes, GoodVolume;
    if at >= 0 {
      NewestOfDay(dir, day, at);
      assert Last(dir).content + [] == Last(dir).content;
    }
  }

  lemma PartAfter(key: Key)
    ensures Less(key, key.(part := key.part + 1))
  {
  }

  lemma NotAfterNew(dir: seq<File>, f: File, day: Date)
    requires NotAfter(dir, day) && f.key.date == day
    ensures NotAfter(dir + [f], day)
  {
  }

  /** A file ends without a newline exactly when its last line is torn. */
  lemma TornTail(dir: seq<File>, vs: seq<Volume>)
    requires Holds(dir, vs, []) && dir != []
    ensures Last(vs).torn != [] <==> Last(dir).content != [] && Last(Last(dir).content) != '\n'
  {
    var v := Last(vs);
    assert Last(dir).content + [] == Last(dir).content;
    if v.torn != [] {
      assert Last(Last(dir).content) == Last(v.torn);
    } else if v.lines != [] {
      assert Last(Bytes(v)) == '\n';
    }
  }
}
