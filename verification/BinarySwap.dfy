// The background tail of an update: wait out the countdown, verify the staged
// file through one open handle, swap it into place through renames that can
// each fail, and ask for a restart, or correct the promise that was broadcast
// and give the slot back. Between any two of its steps others may create,
// delete, move and overwrite files, and the shutdown may begin.
module BinarySwap {
  import RestartSlot

  // ----- The disk

  /** The executable, the staged file beside it, names for the previous binary, and everything else. */
  datatype Path = Exe | New | Name(n: nat) | Elsewhere(n: nat)

  /** Paths lead to files, files hold text; a file is known by its number, which is never used again. */
  datatype Disk = Disk(at: map<Path, nat>, text: map<nat, string>, next: nat)

  ghost predicate GoodDisk(d: Disk) {
    && (forall p :: p in d.at ==> d.at[p] in d.text)
    && (forall id :: id in d.text ==> id < d.next)
  }

  function Created(d: Disk, p: Path, text: string): Disk {
    Disk(d.at[p := d.next], d.text[d.next := text], d.next + 1)
  }

  function Deleted(d: Disk, p: Path): Disk { d.(at := d.at - {p}) }

  function Renamed(d: Disk, p: Path, q: Path): Disk
    requires p in d.at
  {
    d.(at := (d.at - {p})[q := d.at[p]])
  }

  function Written(d: Disk, id: nat, text: string): Disk
    requires id in d.text
  {
    d.(text := d.text[id := text])
  }

  // ----- The job and its surroundings

  datatype Event = RestartingIn5s | UpdateAborted | RestartRequested | AuditApplied | AuditFailed

  /** Why committing the staged file failed. */
  datatype Fault = NotPlaced | NotSeen | OtherFile

  /** How the job ended without a restart. */
  datatype End = Interrupted | ShutDown | Unverified | NoName | NotMoved | Restored | Stranded(fault: Fault)

  datatype Phase =
    | Starting | Counting | Opening
    | Reading                       // the handle is open
    | Checked                       // the hash of what was read is the expected one
    | Clear                         // no shutdown has begun
    | Named                         // a name for the previous binary is reserved
    | Away                          // the previous binary is moved to it
    | Looked                        // the handle's own file is known
    | Placed                        // the staged path is renamed to the executable's
    | Lost(fault: Fault)            // committing failed
    | Refused(end: End)             // the broadcast is still to be corrected
    | Failing(end: End)             // the outcome is still to be recorded
    | InPlace | Recorded | Committed | Requested
    | Ended(end: End)

  /** The job's own variables: the file behind its handle, what it read, the reserved name, what it renamed. */
  datatype System = System(disk: Disk, stopping: bool, slot: RestartSlot.Slot, events: seq<Event>,
                           file: nat, read: string, aside: Path, moved: nat, phase: Phase)

  datatype Config = Config(hub: bool, hash: string -> string, expected: string)

  datatype Act =
    | Create(p: Path, text: string)
    | Delete(p: Path)
    | Move(p: Path, q: Path)
    | Write(id: nat, text: string)
    | Shutdown
    // The job's next step; it fails if it can, and n is the size of a read or the name tried.
    | Go(fails: bool, n: nat)

  function Told(c: Config, s: System, e: Event, next: Phase): System {
    s.(events := if c.hub then s.events + [e] else s.events, phase := next)
  }

  function Opened(s: System, fails: bool): System {
    if fails || New !in s.disk.at then s.(phase := Refused(Unverified))
    else s.(file := s.disk.at[New], read := "", phase := Reading)
  }

  /** One read through the handle; at the end of the file the hash decides. */
  function OneRead(c: Config, s: System, fails: bool, n: nat): System {
    if fails || s.file !in s.disk.text then s.(phase := Refused(Unverified))
    else
      var text := s.disk.text[s.file];
      if |s.read| < |text| then
        s.(read := s.read + text[|s.read|..if |s.read| + n < |text| then |s.read| + n else |text|])
      else s.(phase := if c.hash(s.read) == c.expected then Checked else Refused(Unverified))
  }

  /** A name is taken only if nothing stands there. */
  function NameTaken(s: System, fails: bool, n: nat): System {
    if fails then s.(phase := Refused(NoName))
    else if Name(n) in s.disk.at then s
    else s.(disk := Created(s.disk, Name(n), ""), aside := Name(n), phase := Named)
  }

  function MovedAway(s: System, fails: bool): System {
    if fails || Exe !in s.disk.at then s.(disk := Deleted(s.disk, s.aside), phase := Refused(NotMoved))
    else s.(disk := Renamed(s.disk, Exe, s.aside), phase := Away)
  }

  function PutInPlace(s: System, fails: bool): System {
    if fails || New !in s.disk.at then s.(phase := Lost(NotPlaced))
    else s.(moved := s.disk.at[New], disk := Renamed(s.disk, New, Exe), phase := Placed)
  }

  /** The file now at the path is compared with the one behind the handle. */
  function Compared(s: System, fails: bool): System {
    if fails || Exe !in s.disk.at then s.(phase := Lost(NotSeen))
    else if s.disk.at[Exe] != s.file then s.(phase := Lost(OtherFile))
    else s.(phase := InPlace)
  }

  function Recovered(s: System, fails: bool, fault: Fault): System {
    if fails || s.aside !in s.disk.at then s.(phase := Refused(Stranded(fault)))
    else s.(disk := Renamed(s.disk, s.aside, Exe), phase := Refused(Restored))
  }

  function Abandoned(s: System, end: End): System {
    s.(events := s.events + [AuditFailed], phase := Ended(end),
       slot := RestartSlot.Swapped(s.slot, RestartSlot.Busy, RestartSlot.Idle))
  }

  function Next(c: Config, s: System, fails: bool, n: nat): System {
    match s.phase
    case Starting => Told(c, s, RestartingIn5s, Counting)
    case Counting => if s.stopping then Abandoned(s, Interrupted) else s.(phase := Opening)
    case Opening => Opened(s, fails)
    case Reading => OneRead(c, s, fails, n)
    case Checked => s.(phase := if s.stopping then Refused(ShutDown) else Clear)
    case Clear => NameTaken(s, fails, n)
    case Named => MovedAway(s, fails)
    case Away => s.(phase := if fails then Lost(NotPlaced) else Looked)
    case Looked => PutInPlace(s, fails)
    case Placed => Compared(s, fails)
    case Lost(fault) => Recovered(s, fails, fault)
    case Refused(end) => Told(c, s, UpdateAborted, Failing(end))
    case Failing(end) => Abandoned(s, end)
    case InPlace => s.(events := s.events + [AuditApplied], phase := Recorded)
    case Recorded => s.(slot := RestartSlot.Pending, phase := Committed)
    case Committed => s.(events := s.events + [RestartRequested], phase := Requested)
    case Requested => s
    case Ended(_) => s
  }

  /** What others do; an act on a path or file that is not there does nothing. */
  function Around(s: System, a: Act): System
    requires !a.Go?
  {
    match a
    case Create(p, text) => s.(disk := Created(s.disk, p, text))
    case Delete(p) => s.(disk := Deleted(s.disk, p))
    case Move(p, q) => if p in s.disk.at then s.(disk := Renamed(s.disk, p, q)) else s
    case Write(id, text) => if id in s.disk.text then s.(disk := Written(s.disk, id, text)) else s
    case Shutdown => s.(stopping := true)
  }

  function Do(c: Config, s: System, a: Act): System {
    if a.Go? then Next(c, s, a.fails, a.n) else Around(s, a)
  }

  function Run(c: Config, s: System, xs: seq<Act>): System {
    if xs == [] then s else Do(c, Run(c, s, xs[..|xs| - 1]), xs[|xs| - 1])
  }

  /** The job begins with the slot claimed, on any disk. */
  ghost predicate Begun(s: System) {
    s.phase == Starting && s.slot == RestartSlot.Busy && s.events == [] && GoodDisk(s.disk)
  }

  lemma RunPush(c: Config, s: System, xs: seq<Act>, a: Act)
    ensures Run(c, s, xs + [a]) == Do(c, Run(c, s, xs), a)
  {
    hide Do;
    assert (xs + [a])[..|xs|] == xs;
  }

  lemma {:induction false} RunSplit(c: Config, s: System, xs: seq<Act>, k: nat)
    requires k <= |xs|
    ensures Run(c, s, xs) == Run(c, Run(c, s, xs[..k]), xs[k..])
  {
    hide Do;
    if k == |xs| {
      assert xs[..k] == xs && xs[k..] == [];
    } else {
      var n := |xs| - 1;
      RunSplit(c, s, xs[..n], k);
      assert xs[..n][..k] == xs[..k] && xs[..n][k..] == xs[k..][..n - k];
    }
  }

  // ----- What clients and the audit log are told

  function Count(es: seq<Event>, e: Event): nat {
    if es == [] then 0 else Count(es[..|es| - 1], e) + if es[|es| - 1] == e then 1 else 0
  }

  lemma CountPush(es: seq<Event>, x: Event, e: Event)
    ensures Count(es + [x], e) == Count(es, e) + if x == e then 1 else 0
  {
    assert (es + [x])[..|es|] == es;
  }

  datatype Tally = Tally(restarts: nat, aborts: nat, applied: nat, failed: nat)

  function TallyOf(es: seq<Event>): Tally {
    Tally(Count(es, RestartRequested), Count(es, UpdateAborted), Count(es, AuditApplied), Count(es, AuditFailed))
  }

  /** What has been said by each phase. */
  predicate Said(c: Config, s: System) {
    var t := TallyOf(s.events);
    var aborts := if c.hub then 1 else 0;
    match s.phase
    case Refused(end) => t == Tally(0, 0, 0, 0) && s.slot == RestartSlot.Busy && end != Interrupted
    case Failing(end) => t == Tally(0, aborts, 0, 0) && s.slot == RestartSlot.Busy && end != Interrupted
    case Ended(end) => t == Tally(0, if end == Interrupted then 0 else aborts, 0, 1) && s.slot == RestartSlot.Idle
    case Recorded => t == Tally(0, 0, 1, 0) && s.slot == RestartSlot.Busy
    case Committed => t == Tally(0, 0, 1, 0) && s.slot == RestartSlot.Pending
    case Requested => t == Tally(1, 0, 1, 0) && s.slot == RestartSlot.Pending
    case _ => t == Tally(0, 0, 0, 0) && s.slot == RestartSlot.Busy
  }

  lemma SaidStep(c: Config, s: System, a: Act)
    requires Said(c, s)
    ensures Said(c, Do(c, s, a))
  {
    hide Count;
    forall x, e ensures Count(s.events + [x], e) == Count(s.events, e) + if x == e then 1 else 0 {
      CountPush(s.events, x, e);
    }
  }

  lemma {:induction false} RunSaid(c: Config, s: System, xs: seq<Act>)
    requires Begun(s)
    ensures Said(c, Run(c, s, xs))
  {
    if xs != [] {
      RunSaid(c, s, xs[..|xs| - 1]);
      SaidStep(c, Run(c, s, xs[..|xs| - 1]), xs[|xs| - 1]);
      hide Said, Do;
    }
  }

  lemma {:induction false} CountIn(es: seq<Event>, e: Event)
    ensures Count(es, e) > 0 <==> e in es
  {
    if es != [] {
      var n := |es| - 1;
      CountIn(es[..n], e);
      assert es == es[..n] + [es[n]];
    }
  }

  lemma RequestedIff(c: Config, s: System, xs: seq<Act>)
    requires Begun(s)
    ensures RestartRequested in Run(c, s, xs).events <==> Run(c, s, xs).phase == Requested
  {
    RunSaid(c, s, xs);
    CountIn(Run(c, s, xs).events, RestartRequested);
    hide Run, Count;
  }

  /** The job is over. */
  predicate Over(p: Phase) { p == Requested || p.Ended? }

  /**
   * In every interleaving: at no time have both a restart been asked for and
   * its announcement been taken back; once the countdown has run out and the
   * job is over, exactly one of the two has happened, once.
   */
  lemma ExactlyOneAnswer(c: Config, s: System, xs: seq<Act>)
    requires Begun(s)
    ensures var t := Run(c, s, xs);
            var n := Count(t.events, RestartRequested) + Count(t.events, UpdateAborted);
            n <= 1 && (c.hub && Over(t.phase) && t.phase != Ended(Interrupted) ==> n == 1)
  {
    RunSaid(c, s, xs);
    hide Run, Count;
  }

  /**
   * Every job that is over has recorded one outcome: applied exactly when it
   * asked for the restart with the slot pending for good, failed exactly when
   * the slot is free again.
   */
  lemma AuditIsTrue(c: Config, s: System, xs: seq<Act>)
    requires Begun(s) && Over(Run(c, s, xs).phase)
    ensures var t := Run(c, s, xs);
            && Count(t.events, AuditApplied) + Count(t.events, AuditFailed) == 1
            && (AuditApplied in t.events <==> RestartRequested in t.events)
            && (AuditApplied in t.events <==> t.slot == RestartSlot.Pending)
            && (AuditFailed in t.events <==> t.slot == RestartSlot.Idle)
  {
    var t := Run(c, s, xs);
    RunSaid(c, s, xs);
    CountIn(t.events, RestartRequested);
    CountIn(t.events, AuditApplied);
    CountIn(t.events, AuditFailed);
    hide Run, Count;
  }
}
