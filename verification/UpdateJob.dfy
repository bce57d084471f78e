// The update's background job as it runs: real variables, real order, early
// returns and the deferred broadcast. Others act between any two of its steps.
// Every execution is a run of the machine in BinarySwap, and always ends.
module UpdateJob {
  import RestartSlot
  import opened BinarySwap

  /** What happens around one step: what others do just before it, whether it fails, and its size or name. */
  datatype Turn = Turn(around: seq<Act>, fails: bool, n: nat)

  class Job {
    const c: Config
    const slot: RestartSlot.RestartState
    var disk: Disk
    var stopping: bool
    var events: seq<Event>
    // The file behind the handle, what was read through it, and the reserved name.
    var file: nat
    var read: string
    var aside: Path

    ghost var moved: nat
    ghost var phase: Phase
    ghost var start: System
    ghost var trace: seq<Act>

    ghost function View(): System
      reads this, slot
    {
      System(disk, stopping, slot.state, events, file, read, aside, moved, phase)
    }

    /** The job's state is that of a run of the machine. */
    ghost predicate Tracks()
      reads this, slot
    {
      View() == Run(c, start, trace)
    }

    constructor (c: Config, slot: RestartSlot.RestartState, disk: Disk, stopping: bool)
      ensures Tracks() && phase == Starting && trace == [] && this.c == c && this.slot == slot
      ensures start.disk == disk && start.stopping == stopping && start.events == [] && start.slot == slot.state
    {
      this.c, this.slot, this.disk, this.stopping, this.events := c, slot, disk, stopping, [];
      this.file, this.read, this.aside := 0, "", Elsewhere(0);
      this.moved, this.phase, this.trace := 0, Starting, [];
      this.start := System(disk, stopping, slot.state, [], 0, "", Elsewhere(0), 0, Starting);
    }

    ghost method Note(before: System, a: Act)
      requires before == Run(c, start, trace) && View() == Do(c, before, a)
      modifies this`trace
      ensures Tracks()
    {
      RunPush(c, start, trace, a);
      hide Run, Do;
      trace := trace + [a];
    }

    /** Others act. */
    method Disturb(around: seq<Act>)
      requires Tracks()
      modifies this`disk, this`stopping, this`trace
      ensures Tracks() && (old(stopping) ==> stopping) && (around == [] ==> disk == old(disk))
    {
      hide Run;
      for i := 0 to |around|
        invariant Tracks() && (old(stopping) ==> stopping) && (i == 0 ==> disk == old(disk))
      {
        if !around[i].Go? {
          ghost var before := View();
          match around[i] {
            case Create(p, text) => disk := Created(disk, p, text);
            case Delete(p) => disk := Deleted(disk, p);
            case Move(p, q) => if p in disk.at { disk := Renamed(disk, p, q); }
            case Write(id, text) => if id in disk.text { disk := Written(disk, id, text); }
            case Shutdown => stopping := true;
          }
          Note(before, around[i]);
        }
      }
    }

    method Broadcast(e: Event)
      modifies this`events
      ensures events == if c.hub then old(events) + [e] else old(events)
    {
      if c.hub { events := events + [e]; }
    }

    /** The countdown ran to its end, and no shutdown has begun. */
    method WaitCountdown(t: Turn) returns (done: bool)
      requires Tracks() && phase == Counting
      modifies this`disk, this`stopping, this`trace, this`phase
      ensures Tracks() && if done then phase == Opening else phase == Counting && stopping
    {
      hide Run;
      Disturb(t.around);
      if stopping { return false; }
      ghost var before := View();
      phase := Opening;
      Note(before, Go(t.fails, t.n));
      return true;
    }

    method OpenStaged(t: Turn) returns (ok: bool)
      requires Tracks() && phase == Opening
      modifies this`disk, this`stopping, this`trace, this`phase, this`file, this`read
      ensures Tracks() && phase == if ok then Reading else Refused(Unverified)
    {
      hide Run;
      Disturb(t.around);
      ghost var before := View();
      ok := !t.fails && New in disk.at;
      if ok { file, read := disk.at[New], ""; }
      phase := if ok then Reading else Refused(Unverified);
      Note(before, Go(t.fails, t.n));
    }

    /** One read: more text, the end of the file, or an error. */
    method ReadOnce(t: Turn) returns (more: bool, ok: bool)
      requires Tracks() && phase == Reading
      modifies this`disk, this`stopping, this`trace, this`phase, this`read
      ensures Tracks() && phase == if more then Reading else if ok then Checked else Refused(Unverified)
      ensures t.around == [] ==> disk == old(disk)
      ensures t.around == [] && !t.fails && file in disk.text && |old(read)| < |disk.text[file]| ==>
                more && |read| >= if |old(read)| + t.n < |disk.text[file]| then |old(read)| + t.n else |disk.text[file]|
      ensures t.around == [] && file in disk.text && |old(read)| >= |disk.text[file]| ==> !more
      ensures t.around == [] && file !in disk.text ==> !more
    {
      hide Run;
      Disturb(t.around);
      ghost var before := View();
      if t.fails || file !in disk.text {
        more, ok := false, false;
        phase := Refused(Unverified);
      } else {
        var text := disk.text[file];
        more := |read| < |text|;
        if more {
          ok := true;
          read := read + text[|read|..if |read| + t.n < |text| then |read| + t.n else |text|];
        } else {
          ok := c.hash(read) == c.expected;
          phase := if ok then Checked else Refused(Unverified);
        }
      }
      Note(before, Go(t.fails, t.n));
    }

    /** Reads to the end of the file and compares the hash; whatever others do, they leave off in the end. */
    method ReadStaged(turns: seq<Turn>) returns (ok: bool)
      requires Tracks() && phase == Reading
      modifies this`disk, this`stopping, this`trace, this`phase, this`read
      ensures Tracks() && phase == if ok then Checked else Refused(Unverified)
    {
      hide Run, Do;
      var more: bool;
      for i := 0 to |turns|
        invariant Tracks() && phase == Reading
      {
        more, ok := ReadOnce(turns[i]);
        if !more { return; }
      }
      more, ok := ReadOnce(Turn([], false, if file in disk.text then |disk.text[file]| else 0));
      if more { more, ok := ReadOnce(Turn([], false, 0)); }
    }

    method CheckStop(t: Turn) returns (stop: bool)
      requires Tracks() && phase == Checked
      modifies this`disk, this`stopping, this`trace, this`phase
      ensures Tracks() && phase == if stop then Refused(ShutDown) else Clear
    {
      hide Run;
      Disturb(t.around);
      ghost var before := View();
      stop := stopping;
      phase := if stop then Refused(ShutDown) else Clear;
      Note(before, Go(t.fails, t.n));
    }

    /** Creates a file under a name nothing has. */
    method Reserve(t: Turn) returns (ok: bool)
      requires Tracks() && phase == Clear
      modifies this`disk, this`stopping, this`trace, this`phase, this`aside
      ensures Tracks() && phase == if ok then Named else Refused(NoName)
    {
      hide Run;
      Disturb(t.around);
      ghost var before := View();
      ok := !t.fails;
      if ok {
        var n := UnusedName();
        disk, aside, phase := Created(disk, Name(n), ""), Name(n), Named;
        Note(before, Go(false, n));
      } else {
        phase := Refused(NoName);
        Note(before, Go(true, t.n));
      }
    }

    method UnusedName() returns (n: nat)
      ensures Name(n) !in disk.at
    {
      n := 0;
      var left := disk.at.Keys;
      while Name(n) in disk.at
        invariant left == disk.at.Keys - set i | 0 <= i < n :: Name(i)
        decreases left
      {
        assert Name(n) in left;
        left := left - {Name(n)};
        n := n + 1;
      }
    }

    method MoveAway(t: Turn) returns (ok: bool)
      requires Tracks() && phase == Named
      modifies this`disk, this`stopping, this`trace, this`phase
      ensures Tracks() && phase == if ok then Away else Refused(NotMoved)
    {
      hide Run;
      Disturb(t.around);
      ghost var before := View();
      ok := !t.fails && Exe in disk.at;
      disk := if ok then Renamed(disk, Exe, aside) else Deleted(disk, aside);
      phase := if ok then Away else Refused(NotMoved);
      Note(before, Go(t.fails, t.n));
    }

    /** Renames the staged path and makes sure that the file renamed is the one behind the handle. */
    method Commit(stat: Turn, rename: Turn, lstat: Turn) returns (ok: bool)
      requires Tracks() && phase == Away
      modifies this`disk, this`stopping, this`trace, this`phase, this`moved
      ensures Tracks() && if ok then phase == InPlace else phase.Lost?
    {
      hide Run, Do, Tracks, View;
      ok := Stat(stat);
      if !ok { return; }
      ok := Place(rename);
      if !ok { return; }
      ok := Compare(lstat);
    }

    method Stat(t: Turn) returns (ok: bool)
      requires Tracks() && phase == Away
      modifies this`disk, this`stopping, this`trace, this`phase
      ensures Tracks() && phase == if ok then Looked else Lost(NotPlaced)
    {
      hide Run;
      Disturb(t.around);
      ghost var before := View();
      ok := !t.fails;
      phase := if ok then Looked else Lost(NotPlaced);
      Note(before, Go(t.fails, t.n));
    }

    method Place(t: Turn) returns (ok: bool)
      requires Tracks() && phase == Looked
      modifies this`disk, this`stopping, this`trace, this`phase, this`moved
      ensures Tracks() && phase == if ok then Placed else Lost(NotPlaced)
    {
      hide Run;
      Disturb(t.around);
      ghost var before := View();
      ok := !t.fails && New in disk.at;
      if ok {
        moved := disk.at[New];
        disk := Renamed(disk, New, Exe);
      }
      phase := if ok then Placed else Lost(NotPlaced);
      Note(before, Go(t.fails, t.n));
    }

    method Compare(t: Turn) returns (ok: bool)
      requires Tracks() && phase == Placed
      modifies this`disk, this`stopping, this`trace, this`phase
      ensures Tracks() && if ok then phase == InPlace else phase.Lost?
    {
      hide Run;
      Disturb(t.around);
      ghost var before := View();
      var seen := !t.fails && Exe in disk.at;
      ok := seen && disk.at[Exe] == file;
      phase := if ok then InPlace else Lost(if seen then OtherFile else NotSeen);
      Note(before, Go(t.fails, t.n));
    }

    method Recover(t: Turn)
      requires Tracks() && phase.Lost?
      modifies this`disk, this`stopping, this`trace, this`phase
      ensures Tracks() && phase.Refused?
    {
      hide Run;
      Disturb(t.around);
      ghost var before := View();
      var ok := !t.fails && aside in disk.at;
      if ok { disk := Renamed(disk, aside, Exe); }
      phase := Refused(if ok then Restored else Stranded(phase.fault));
      Note(before, Go(t.fails, t.n));
    }

    /** The swap on disk, with the broadcast corrected on every way out but success. */
    method ApplyStaged(turn: nat -> Turn, readings: seq<Turn>) returns (committed: bool)
      requires Tracks() && phase == Opening
      modifies this
      ensures Tracks() && start == old(start) && if committed then phase == InPlace else phase.Failing?
    {
      hide Run;
      committed := Swap(turn, readings);
      if !committed {
        ghost var before := View();
        Broadcast(UpdateAborted);
        phase := Failing(phase.end);
        Note(before, Go(false, 0));
      }
    }

    method Swap(turn: nat -> Turn, readings: seq<Turn>) returns (committed: bool)
      requires Tracks() && phase == Opening
      modifies this
      ensures Tracks() && start == old(start) && if committed then phase == InPlace else phase.Refused?
    {
      hide Run, Do, Tracks, View;
      var ok := OpenStaged(turn(0));
      if !ok { return false; }
      ok := ReadStaged(readings);
      if !ok { return false; }
      var stop := CheckStop(turn(1));
      if stop { return false; }
      ok := Reserve(turn(2));
      if !ok { return false; }
      ok := MoveAway(turn(3));
      if !ok { return false; }
      ok := Commit(turn(4), turn(5), turn(6));
      if !ok {
        Recover(turn(7));
        return false;
      }
      return true;
    }

    method RecordFailure()
      requires Tracks() && (phase.Failing? || (phase == Counting && stopping))
      modifies this`events, this`phase, this`trace, slot
      ensures Tracks() && phase.Ended?
    {
      hide Run;
      ghost var before := View();
      events := events + [AuditFailed];
      slot.Abort();
      phase := Ended(if phase == Counting then Interrupted else phase.end);
      Note(before, Go(false, 0));
    }

    method RecordSuccess()
      requires Tracks() && phase == InPlace
      modifies this`events, this`phase, this`trace
      ensures Tracks() && phase == Recorded
    {
      hide Run;
      ghost var before := View();
      events, phase := events + [AuditApplied], Recorded;
      Note(before, Go(false, 0));
    }

    method CommitPending(t: Turn)
      requires Tracks() && phase == Recorded
      modifies this`phase, this`trace, this`disk, this`stopping, slot
      ensures Tracks() && phase == Committed
    {
      hide Run;
      Disturb(t.around);
      ghost var before := View();
      slot.Commit();
      phase := Committed;
      Note(before, Go(false, 0));
    }

    method RequestRestart(t: Turn)
      requires Tracks() && phase == Committed
      modifies this`events, this`phase, this`trace, this`disk, this`stopping
      ensures Tracks() && phase == Requested
    {
      hide Run;
      Disturb(t.around);
      ghost var before := View();
      events, phase := events + [RestartRequested], Requested;
      Note(before, Go(false, 0));
    }

    method Announce()
      requires Tracks() && phase == Starting
      modifies this`events, this`phase, this`trace
      ensures Tracks() && phase == Counting
    {
      hide Run;
      ghost var before := View();
      Broadcast(RestartingIn5s);
      phase := Counting;
      Note(before, Go(false, 0));
    }

    /** The whole tail: whatever others do and whatever fails, it is a run of the machine, and it ends. */
    method ApplyAndRestart(turn: nat -> Turn, readings: seq<Turn>)
      requires Tracks() && phase == Starting
      modifies this, slot
      ensures Tracks() && start == old(start) && Over(phase)
    {
      hide Run, Do, Tracks, View;
      Announce();
      var done := WaitCountdown(turn(8));
      if !done {
        RecordFailure();
        return;
      }
      var swapped := ApplyStaged(turn, readings);
      if swapped {
        RecordSuccess();
        CommitPending(turn(9));
        RequestRestart(turn(10));
        return;
      }
      RecordFailure();
    }
  }
}
