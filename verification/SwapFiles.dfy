// Which file an update puts in place: the one that was hashed, with the bytes
// that were hashed unless somebody overwrote it.
module SwapFiles {
  import RestartSlot
  import opened BinarySwap

  // ----- Which file a restart is asked for

  lemma DoGoodDisk(c: Config, s: System, a: Act)
    requires GoodDisk(s.disk)
    ensures GoodDisk(Do(c, s, a).disk)
  {
    if a.Go? { NextGoodDisk(c, s, a.fails, a.n); }
  }

  lemma NextGoodDisk(c: Config, s: System, fails: bool, n: nat)
    requires GoodDisk(s.disk)
    ensures GoodDisk(Next(c, s, fails, n).disk)
  {
    GoodCreated(s.disk, Name(n), "");
    GoodDeleted(s.disk, s.aside);
    forall p, q | p in s.disk.at ensures GoodDisk(Renamed(s.disk, p, q)) { GoodRenamed(s.disk, p, q); }
    hide GoodDisk, Created, Deleted, Renamed;
  }

  lemma GoodCreated(d: Disk, p: Path, text: string)
    requires GoodDisk(d)
    ensures GoodDisk(Created(d, p, text))
  {
  }

  lemma GoodDeleted(d: Disk, p: Path)
    requires GoodDisk(d)
    ensures GoodDisk(Deleted(d, p))
  {
  }

  lemma GoodRenamed(d: Disk, p: Path, q: Path)
    requires GoodDisk(d) && p in d.at
    ensures GoodDisk(Renamed(d, p, q))
  {
  }

  /** How far the job has got with its handle: not open, open, hash matched, file compared. */
  function Rank(p: Phase): nat {
    match p
    case Reading => 1
    case Checked => 2
    case Clear => 2
    case Named => 2
    case Away => 2
    case Looked => 2
    case Placed => 2
    case Lost(_) => 2
    case InPlace => 3
    case Recorded => 3
    case Committed => 3
    case Requested => 3
    case _ => 0
  }

  /** The moments that matter: opening at o, the matching hash at h, the comparison at l. */
  datatype Times = Times(o: nat, h: nat, l: nat)

  /** They lie as they should, as far as the job has got. */
  ghost predicate Moments(c: Config, s: System, xs: seq<Act>, m: Times) {
    var t := Run(c, s, xs);
    && (Rank(t.phase) >= 1 ==> m.o <= |xs| && OpenedAt(Run(c, s, xs[..m.o]), t))
    && (Rank(t.phase) >= 2 ==> m.o <= m.h <= |xs| && CheckedAt(c, Run(c, s, xs[..m.h]), t))
    && (Rank(t.phase) >= 3 ==> m.h <= m.l <= |xs| && ComparedAt(Run(c, s, xs[..m.l]), t))
  }

  /** The handle was opened on the file at the staged path, and nothing was read yet. */
  ghost predicate OpenedAt(u: System, t: System) {
    && u.phase == Reading && u.file == t.file && u.read == ""
    && Leads(u.disk, New, t.file) && t.file in u.disk.text
  }

  /** What was read hashes to the expected value. */
  ghost predicate CheckedAt(c: Config, u: System, t: System) {
    u.phase == Checked && u.file == t.file && u.read == t.read && c.hash(t.read) == c.expected && t.file in u.disk.text
  }

  /** The file at the executable's path was the one behind the handle. */
  ghost predicate ComparedAt(u: System, t: System) {
    u.phase == InPlace && u.file == t.file && Exe in u.disk.at && u.disk.at[Exe] == t.file
  }

  lemma MomentsStep(c: Config, s: System, xs: seq<Act>, a: Act, before: Times) returns (m: Times)
    requires Moments(c, s, xs, before) && GoodDisk(Run(c, s, xs).disk)
    ensures Moments(c, s, xs + [a], m)
  {
    var t, n := Run(c, s, xs), |xs| + 1;
    RunPush(c, s, xs, a);
    var u := Do(c, t, a);
    m := before;
    StepRank(c, t, a);
    hide Run, Do;
    assert (xs + [a])[..n] == xs + [a];
    if Rank(t.phase) >= 1 { assert (xs + [a])[..m.o] == xs[..m.o]; }
    if Rank(t.phase) >= 2 { assert (xs + [a])[..m.h] == xs[..m.h]; }
    if Rank(t.phase) >= 3 { assert (xs + [a])[..m.l] == xs[..m.l]; }
    if Rank(t.phase) == 0 && Rank(u.phase) == 1 { m := m.(o := n); }
    if Rank(t.phase) == 1 && Rank(u.phase) == 2 { m := m.(h := n); }
    if Rank(t.phase) == 2 && Rank(u.phase) == 3 { m := m.(l := n); }
  }

  /** A step goes up by one rank at a time, and keeps the handle and what was read once the hash matched. */
  lemma StepRank(c: Config, t: System, a: Act)
    requires GoodDisk(t.disk)
    ensures var u := Do(c, t, a);
            && Rank(u.phase) <= Rank(t.phase) + 1
            && (Rank(t.phase) >= 1 ==> u.file == t.file)
            && (Rank(t.phase) >= 2 ==> u.read == t.read)
            && (Rank(t.phase) == 0 && Rank(u.phase) == 1 ==> OpenedAt(u, u))
            && (Rank(t.phase) == 1 && Rank(u.phase) == 2 ==> CheckedAt(c, u, u))
            && (Rank(t.phase) == 2 && Rank(u.phase) == 3 ==> ComparedAt(u, u))
  {
    if a.Go? && t.phase.Opening? { OpeningRank(c, t, a); }
  }

  lemma OpeningRank(c: Config, t: System, a: Act)
    requires GoodDisk(t.disk) && a.Go? && t.phase.Opening?
    ensures var u := Do(c, t, a); u.phase == Reading ==> OpenedAt(u, u)
  {
  }

  lemma {:induction false} RunGoodDisk(c: Config, s: System, xs: seq<Act>)
    requires GoodDisk(s.disk)
    ensures GoodDisk(Run(c, s, xs).disk)
  {
    if xs != [] {
      RunGoodDisk(c, s, xs[..|xs| - 1]);
      hide GoodDisk, Do;
      DoGoodDisk(c, Run(c, s, xs[..|xs| - 1]), xs[|xs| - 1]);
    }
  }

  lemma {:induction false} MomentsOfRun(c: Config, s: System, xs: seq<Act>) returns (m: Times)
    requires Begun(s)
    ensures Moments(c, s, xs, m)
  {
    m := Times(0, 0, 0);
    if xs != [] {
      var n := |xs| - 1;
      m := MomentsOfRun(c, s, xs[..n]);
      assert xs == xs[..n] + [xs[n]];
      RunGoodDisk(c, s, xs[..n]);
      hide Moments, Run, Do, GoodDisk;
      m := MomentsStep(c, s, xs[..n], xs[n], m);
    }
  }

  // ----- What that file holds

  /** What others last wrote into the file. */
  function LastWritten(xs: seq<Act>, id: nat, text: string): string {
    if xs == [] then text
    else
      var a := xs[|xs| - 1];
      if a.Write? && a.id == id then a.text else LastWritten(xs[..|xs| - 1], id, text)
  }

  predicate Writes(xs: seq<Act>, id: nat) {
    exists i :: 0 <= i < |xs| && xs[i].Write? && xs[i].id == id
  }

  lemma DoText(c: Config, s: System, a: Act, id: nat)
    requires GoodDisk(s.disk) && id in s.disk.text
    ensures var t := Do(c, s, a);
            id in t.disk.text && t.disk.text[id] == if a.Write? && a.id == id then a.text else s.disk.text[id]
  {
    if a.Go? { NextText(c, s, a.fails, a.n, id); }
  }

  lemma NextText(c: Config, s: System, fails: bool, n: nat, id: nat)
    requires GoodDisk(s.disk) && id in s.disk.text
    ensures var t := Next(c, s, fails, n); id in t.disk.text && t.disk.text[id] == s.disk.text[id]
  {
  }

  /** Nothing the job does changes a file's text: it holds what others wrote last. */
  lemma {:induction false} TextIsLastWritten(c: Config, s: System, xs: seq<Act>, id: nat)
    requires GoodDisk(s.disk) && id in s.disk.text
    ensures var t := Run(c, s, xs);
            id in t.disk.text && t.disk.text[id] == LastWritten(xs, id, s.disk.text[id])
  {
    if xs != [] {
      var n := |xs| - 1;
      TextIsLastWritten(c, s, xs[..n], id);
      RunGoodDisk(c, s, xs[..n]);
      DoText(c, Run(c, s, xs[..n]), xs[n], id);
      hide Do, GoodDisk;
    }
  }

  /** While nobody writes the file, what was read is the beginning of it, and all of it once the hash matched. */
  ghost predicate ReadsIt(t: System, file: nat) {
    && (Rank(t.phase) >= 1 ==> t.file == file && file in t.disk.text)
    && (Rank(t.phase) == 1 ==> |t.read| <= |t.disk.text[file]| && t.read == t.disk.text[file][..|t.read|])
    && (Rank(t.phase) >= 2 ==> t.read == t.disk.text[file])
    && (Rank(t.phase) == 0 ==> t.phase.Refused? || t.phase.Failing? || t.phase.Ended?)
  }

  lemma ReadStep(c: Config, t: System, a: Act, file: nat)
    requires GoodDisk(t.disk) && ReadsIt(t, file) && !(a.Write? && a.id == file)
    ensures ReadsIt(Do(c, t, a), file)
  {
    if a.Go? { ReadNext(c, t, a.fails, a.n, file); } else { ReadAround(t, a, file); }
    hide ReadsIt, Next, Around;
  }

  lemma ReadAround(t: System, a: Act, file: nat)
    requires GoodDisk(t.disk) && ReadsIt(t, file) && !a.Go? && !(a.Write? && a.id == file)
    ensures ReadsIt(Around(t, a), file)
  {
  }

  lemma ReadNext(c: Config, t: System, fails: bool, n: nat, file: nat)
    requires GoodDisk(t.disk) && ReadsIt(t, file)
    ensures ReadsIt(Next(c, t, fails, n), file)
  {
    if t.phase == Reading { hide Told, Opened, NameTaken, MovedAway, PutInPlace, Compared, Recovered, Abandoned; }
    else if Rank(t.phase) >= 1 { NextText(c, t, fails, n, file); hide OneRead; }
  }

  lemma {:induction false} ReadsWhatIsThere(c: Config, s: System, xs: seq<Act>)
    requires GoodDisk(s.disk) && OpenedAt(s, s) && !Writes(xs, s.file)
    ensures ReadsIt(Run(c, s, xs), s.file)
  {
    if xs != [] {
      var n := |xs| - 1;
      forall i | 0 <= i < n ensures !(xs[..n][i].Write? && xs[..n][i].id == s.file) { assert xs[..n][i] == xs[i]; }
      ReadsWhatIsThere(c, s, xs[..n]);
      RunGoodDisk(c, s, xs[..n]);
      ReadStep(c, Run(c, s, xs[..n]), xs[n], s.file);
      hide Do, GoodDisk, ReadsIt;
    }
  }

  // ----- Restarts

  predicate Leads(d: Disk, p: Path, id: nat) { p in d.at && d.at[p] == id }

  /** Nobody creates, deletes or moves anything at the path. */
  predicate LeavesPath(xs: seq<Act>, p: Path) {
    forall i :: 0 <= i < |xs| ==> !Touches(xs[i], p)
  }

  predicate Touches(a: Act, p: Path) {
    match a
    case Create(q, _) => p == q
    case Delete(q) => p == q
    case Move(q, r) => p == q || p == r
    case _ => false
  }

  /** After the comparison the job leaves the executable's path alone. */
  lemma {:induction false} StaysInPlace(c: Config, s: System, xs: seq<Act>)
    requires Rank(s.phase) == 3 && Exe in s.disk.at && LeavesPath(xs, Exe)
    ensures Rank(Run(c, s, xs).phase) == 3 && Leads(Run(c, s, xs).disk, Exe, s.disk.at[Exe])
  {
    if xs != [] {
      var n := |xs| - 1;
      assert forall i :: 0 <= i < n ==> xs[..n][i] == xs[i];
      StaysInPlace(c, s, xs[..n]);
      assert !Touches(xs[n], Exe);
      StayStep(c, Run(c, s, xs[..n]), xs[n]);
      hide Do;
    }
  }

  lemma StayStep(c: Config, t: System, a: Act)
    requires Rank(t.phase) == 3 && Exe in t.disk.at && !Touches(a, Exe)
    ensures var u := Do(c, t, a); Rank(u.phase) == 3 && Exe in u.disk.at && u.disk.at[Exe] == t.disk.at[Exe]
  {
  }

  /**
   * In every interleaving, a restart is asked for only after one file was
   * opened at the staged path, what was read from it had the expected hash,
   * and that same file was found at the executable's path. It is still there
   * at the request if nobody touched the path since.
   */
  lemma RestartOnlyForHashedFile(c: Config, s: System, xs: seq<Act>) returns (o: nat, h: nat, l: nat)
    requires Begun(s) && RestartRequested in Run(c, s, xs).events
    ensures var t := Run(c, s, xs);
            && o <= h <= l <= |xs|
            && OpenedAt(Run(c, s, xs[..o]), t)
            && CheckedAt(c, Run(c, s, xs[..h]), t)
            && ComparedAt(Run(c, s, xs[..l]), t)
            && (LeavesPath(xs[l..], Exe) ==> Exe in t.disk.at && t.disk.at[Exe] == t.file)
  {
    RequestedIff(c, s, xs);
    var m := MomentsOfRun(c, s, xs);
    o, h, l := m.o, m.h, m.l;
    RunSplit(c, s, xs, l);
    if LeavesPath(xs[l..], Exe) { StaysInPlace(c, Run(c, s, xs[..l]), xs[l..]); }
  }

  /**
   * The bytes are another matter: they are the hashed ones exactly when what
   * others last wrote into the file since, if anything, was those bytes. What
   * was hashed is what stood there, provided nobody wrote the file while it
   * was read.
   */
  lemma RestartBytes(c: Config, s: System, xs: seq<Act>, o: nat, h: nat)
    requires Begun(s) && Rank(Run(c, s, xs).phase) >= 2 && o <= h <= |xs|
    requires OpenedAt(Run(c, s, xs[..o]), Run(c, s, xs)) && CheckedAt(c, Run(c, s, xs[..h]), Run(c, s, xs))
    ensures var t := Run(c, s, xs);
            && t.file in t.disk.text
            && (t.disk.text[t.file] == t.read <==>
                LastWritten(xs[h..], t.file, Run(c, s, xs[..h]).disk.text[t.file]) == t.read)
            && (!Writes(xs[o..h], t.file) ==> Run(c, s, xs[..h]).disk.text[t.file] == t.read)
            && (!Writes(xs[o..], t.file) ==> t.disk.text[t.file] == t.read)
  {
    var t := Run(c, s, xs);
    RunGoodDisk(c, s, xs[..o]);
    RunGoodDisk(c, s, xs[..h]);
    RunSplit(c, s, xs, h);
    RunSplit(c, s, xs, o);
    TextIsLastWritten(c, Run(c, s, xs[..h]), xs[h..], t.file);
    hide Run, GoodDisk, LastWritten;
    if !Writes(xs[o..h], t.file) {
      assert xs[..h][..o] == xs[..o] && xs[..h][o..] == xs[o..h];
      RunSplit(c, s, xs[..h], o);
      ReadsWhatIsThere(c, Run(c, s, xs[..o]), xs[o..h]);
    }
    if !Writes(xs[o..], t.file) { ReadsWhatIsThere(c, Run(c, s, xs[..o]), xs[o..]); }
  }

  // ----- Two runs

  /** A disk with an executable and a staged file. */
  function TwoFiles(original: string, staged: string): System {
    System(Disk(map[Exe := 0, New := 1], map[0 := original, 1 := staged], 2), false, RestartSlot.Busy, [],
           0, "", Elsewhere(0), 0, Starting)
  }

  /** The staged file opened, read in one go and found good. */
  function Verify(n: nat): seq<Act> { [Go(false, 0), Go(false, 0), Go(false, 0), Go(false, n), Go(false, 0)] }

  lemma RunTwo(c: Config, s: System, xs: seq<Act>, ys: seq<Act>)
    ensures Run(c, s, xs + ys) == Run(c, Run(c, s, xs), ys)
  {
    assert (xs + ys)[..|xs|] == xs && (xs + ys)[|xs|..] == ys;
    RunSplit(c, s, xs + ys, |xs|);
  }

  lemma RunFive(c: Config, s: System, a: Act, b: Act, d: Act, e: Act, f: Act)
    ensures Run(c, s, [a, b, d, e, f]) == Do(c, Do(c, Do(c, Do(c, Do(c, s, a), b), d), e), f)
  {
    hide Do;
    assert [] + [a] == [a] && [a] + [b] == [a, b] && [a, b] + [d] == [a, b, d];
    assert [a, b, d] + [e] == [a, b, d, e] && [a, b, d, e] + [f] == [a, b, d, e, f];
    RunPush(c, s, [], a);
    RunPush(c, s, [a], b);
    RunPush(c, s, [a, b], d);
    RunPush(c, s, [a, b, d], e);
    RunPush(c, s, [a, b, d, e], f);
  }

  lemma VerifyGoes(c: Config, original: string, staged: string)
    requires c.hash(staged) == c.expected && staged != ""
    ensures var s := TwoFiles(original, staged);
            Run(c, s, Verify(|staged|)) ==
            s.(events := if c.hub then [RestartingIn5s] else [], file := 1, read := staged, phase := Checked)
  {
    var s := TwoFiles(original, staged);
    RunFive(c, s, Go(false, 0), Go(false, 0), Go(false, 0), Go(false, |staged|), Go(false, 0));
    var s3 := Do(c, Do(c, Do(c, s, Go(false, 0)), Go(false, 0)), Go(false, 0));
    assert [] + [RestartingIn5s] == [RestartingIn5s];
    assert s3.phase == Reading && s3.read == "";
    assert "" + staged[0..|staged|] == staged;
  }

  /** The job going straight on for n steps. */
  function Gos(n: nat): seq<Act> { if n == 0 then [] else Gos(n - 1) + [Go(false, 0)] }

  function Straight(c: Config, s: System, n: nat): System {
    if n == 0 then s else Next(c, Straight(c, s, n - 1), false, 0)
  }

  lemma {:induction false} StraightIsRun(c: Config, s: System, n: nat)
    ensures Run(c, s, Gos(n)) == Straight(c, s, n)
  {
    hide Next;
    if n > 0 {
      StraightIsRun(c, s, n - 1);
      RunPush(c, s, Gos(n - 1), Go(false, 0));
    }
  }

  /** The staged file under the executable's name, the original set aside. */
  function Exchanged(original: string, staged: string): Disk {
    Disk(map[Exe := 1, Name(0) := 0], map[0 := original, 1 := staged, 2 := ""], 3)
  }

  lemma ExchangedIs(original: string, staged: string)
    ensures var d := Created(TwoFiles(original, staged).disk, Name(0), "");
            && Exe in d.at && New in Renamed(d, Exe, Name(0)).at
            && Renamed(Renamed(d, Exe, Name(0)), New, Exe) == Exchanged(original, staged)
  {
    var d := Created(TwoFiles(original, staged).disk, Name(0), "");
    assert d.at == map[Exe := 0, New := 1, Name(0) := 2];
    assert Renamed(d, Exe, Name(0)).at == map[New := 1, Name(0) := 0];
    assert Renamed(Renamed(d, Exe, Name(0)), New, Exe).at == map[Exe := 1, Name(0) := 0];
  }

  /** From a good check to the staged file in place, undisturbed. */
  lemma FiveToPlaced(c: Config, s: System, original: string, staged: string)
    requires s.phase == Checked && !s.stopping && s.disk == TwoFiles(original, staged).disk && s.file == 1
    ensures Straight(c, s, 5) == s.(disk := Exchanged(original, staged), aside := Name(0), moved := 1, phase := Placed)
  {
    ExchangedIs(original, staged);
    var s2 := Straight(c, s, 2);
    assert s2 == s.(disk := Created(s.disk, Name(0), ""), aside := Name(0), phase := Named) by {
      assert Straight(c, s, 1) == s.(phase := Clear);
    }
    hide Created, Renamed, Exchanged, TwoFiles;
    var s4 := Straight(c, s, 4);
    assert s4 == s2.(disk := Renamed(s2.disk, Exe, Name(0)), phase := Looked) by {
      assert Straight(c, s, 3) == s2.(disk := Renamed(s2.disk, Exe, Name(0)), phase := Away);
    }
  }

  lemma FourToRequest(c: Config, s: System)
    requires s.phase == Placed && Leads(s.disk, Exe, s.file)
    ensures Straight(c, s, 4) == s.(events := s.events + [AuditApplied] + [RestartRequested],
                                    slot := RestartSlot.Pending, phase := Requested)
  {
    assert Straight(c, s, 1) == s.(phase := InPlace);
    assert Straight(c, s, 2) == s.(events := s.events + [AuditApplied], phase := Recorded);
    assert Straight(c, s, 3) ==
           s.(events := s.events + [AuditApplied], slot := RestartSlot.Pending, phase := Committed);
  }

  /**
   * Comparing files does not compare bytes: overwritten in place after it was
   * hashed, the staged file (number 1) is at the executable's path when the
   * restart is asked for, with whatever was written into it.
   */
  lemma RestartWithOtherBytes(c: Config, original: string, staged: string, bad: string) returns (xs: seq<Act>)
    requires c.hash(staged) == c.expected && staged != ""
    ensures var t := Run(c, TwoFiles(original, staged), xs);
            t.phase == Requested && t.disk == Exchanged(original, bad) && t.file == 1 && t.read == staged
  {
    var s := TwoFiles(original, staged);
    var s1 := Run(c, s, Verify(|staged|));
    VerifyGoes(c, original, staged);
    var written := Verify(|staged|) + [Write(1, bad)];
    RunPush(c, s, Verify(|staged|), Write(1, bad));
    var s2 := Run(c, s, written);
    assert s2 == s1.(disk := TwoFiles(original, bad).disk);
    hide Next, Verify, Exchanged;
    FiveToPlaced(c, s2, original, bad);
    StraightIsRun(c, s2, 5);
    RunTwo(c, s, written, Gos(5));
    var s3 := Run(c, s, written + Gos(5));
    assert s3.file == 1 && s3.read == staged;
    FourToRequest(c, s3);
    StraightIsRun(c, s3, 4);
    RunTwo(c, s, written + Gos(5), Gos(4));
    xs := written + Gos(5) + Gos(4);
  }

  lemma StrandedGoes(c: Config, s: System)
    requires s.phase == Placed && Leads(s.disk, Exe, s.file)
    ensures var t := Straight(c, Next(c, Next(c, s, true, 0), true, 0), 2);
            t.phase == Ended(Stranded(NotSeen)) && t.disk == s.disk && t.file == s.file && t.read == s.read
  {
    var u := Next(c, Next(c, s, true, 0), true, 0);
    assert u == s.(phase := Refused(Stranded(NotSeen)));
    assert Straight(c, u, 0) == u;
    var v := Straight(c, u, 1);
    assert v == Next(c, u, false, 0) && v.phase == Failing(Stranded(NotSeen)) && v.disk == s.disk && v.file == s.file;
    assert v.read == s.read;
    assert Straight(c, u, 2) == Next(c, v, false, 0);
  }

  /** The verified file in place, its bytes untouched, and no restart: it could be neither looked at nor taken back. */
  lemma VerifiedWithoutRestart(c: Config, original: string, staged: string) returns (xs: seq<Act>)
    requires c.hash(staged) == c.expected && staged != ""
    ensures var t := Run(c, TwoFiles(original, staged), xs);
            && t.phase == Ended(Stranded(NotSeen)) && t.disk == Exchanged(original, staged)
            && t.file == 1 && t.read == staged
  {
    var s := TwoFiles(original, staged);
    var s1 := Run(c, s, Verify(|staged|));
    VerifyGoes(c, original, staged);
    FiveToPlaced(c, s1, original, staged);
    StraightIsRun(c, s1, 5);
    var placed := Verify(|staged|) + Gos(5);
    RunTwo(c, s, Verify(|staged|), Gos(5));
    var s2 := Run(c, s, placed);
    StrandedGoes(c, s2);
    RunPush(c, s, placed, Go(true, 0));
    RunPush(c, s, placed + [Go(true, 0)], Go(true, 0));
    var lost := placed + [Go(true, 0)] + [Go(true, 0)];
    StraightIsRun(c, Run(c, s, lost), 2);
    RunTwo(c, s, lost, Gos(2));
    xs := lost + Gos(2);
  }
}
