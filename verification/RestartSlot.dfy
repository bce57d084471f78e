// The slot that serializes the actions ending in a process restart: applying
// an update, restoring a backup, restarting for configuration and finishing
// setup. One atomic word, claimed and released by compare-and-swap, shared by
// any number of requests and the background jobs they hand their claim to.
module RestartSlot {

  datatype Slot = Idle | Busy | Pending

  /** The process-wide word and its four transitions. */
  class RestartState {
    var state: Slot

    constructor ()
      ensures state == Idle
    {
      state := Idle;
    }

    method CompareAndSwap(from: Slot, to: Slot) returns (swapped: bool)
      modifies this
      ensures swapped == (old(state) == from) && state == Swapped(old(state), from, to)
    {
      swapped := state == from;
      if swapped { state := to; }
    }

    method Begin() returns (claimed: bool)
      modifies this
      ensures claimed == (old(state) == Idle) && state == Swapped(old(state), Idle, Busy)
      ensures claimed ==> state == Busy
    {
      claimed := CompareAndSwap(Idle, Busy);
    }

    method Abort()
      modifies this
      ensures state == Swapped(old(state), Busy, Idle)
      ensures old(state) == Pending ==> state == Pending
    {
      var _ := CompareAndSwap(Busy, Idle);
    }

    method Commit()
      modifies this
      ensures state == Pending
    {
      state := Pending;
    }

    method TryDirect() returns (claimed: bool)
      modifies this
      ensures claimed == (old(state) == Idle) && state == Swapped(old(state), Idle, Pending)
    {
      claimed := CompareAndSwap(Idle, Pending);
    }
  }

  function Swapped(s: Slot, from: Slot, to: Slot): Slot { if s == from then to else s }

  // ----- The operations, as far as they have got

  /** An update's handler: after claiming, after its job was admitted, after it gave up its own release. */
  datatype Handler = Claimed | Admitted | Cleared | Returned

  /** An update's background job. */
  datatype Job = NoJob | Running | Committed | Finished

  datatype Op =
    | Refused
    | Apply(handler: Handler, job: Job, requested: bool)
    // A restore releases in a deferred call, and asks for the restart from a goroutine.
    | Restore(returned: bool, committed: bool, requested: bool)
    // A configuration or setup restart claims and commits in one step.
    | Direct(requested: bool)

  datatype System = System(slot: Slot, ops: map<nat, Op>, requests: nat)

  /** One atomic step of one operation. */
  datatype Step =
    | StartApply | HandlerFails | Admit | ClearClaim | HandlerReturns
    | JobFails | JobCommits | JobRequests
    | StartRestore | RestoreFails | RestoreCommits | RestoreReturns | RestoreRequests
    | StartDirect | DirectRequests

  /** The step's effect; a step that is not next for the operation does nothing. */
  function Do(s: System, id: nat, step: Step): System {
    if id !in s.ops then
      match step
      case StartApply =>
        if s.slot == Idle then System(Busy, s.ops[id := Apply(Claimed, NoJob, false)], s.requests)
        else s.(ops := s.ops[id := Refused])
      case StartRestore =>
        if s.slot == Idle then System(Busy, s.ops[id := Restore(false, false, false)], s.requests)
        else s.(ops := s.ops[id := Refused])
      case StartDirect =>
        if s.slot == Idle then System(Pending, s.ops[id := Direct(false)], s.requests)
        else s.(ops := s.ops[id := Refused])
      case _ => s
    else
      match (s.ops[id], step)
      // Any early return while the claim is the handler's own: the deferred release runs.
      case (Apply(Claimed, NoJob, _), HandlerFails) =>
        System(Swapped(s.slot, Busy, Idle), s.ops[id := Apply(Returned, NoJob, false)], s.requests)
      // The job is admitted and may run before the handler says so.
      case (Apply(Claimed, NoJob, r), Admit) => s.(ops := s.ops[id := Apply(Admitted, Running, r)])
      case (Apply(Admitted, job, r), ClearClaim) => s.(ops := s.ops[id := Apply(Cleared, job, r)])
      case (Apply(Cleared, job, r), HandlerReturns) => s.(ops := s.ops[id := Apply(Returned, job, r)])
      case (Apply(h, Running, r), JobFails) =>
        System(Swapped(s.slot, Busy, Idle), s.ops[id := Apply(h, Finished, r)], s.requests)
      case (Apply(h, Running, r), JobCommits) => System(Pending, s.ops[id := Apply(h, Committed, r)], s.requests)
      case (Apply(h, Committed, false), JobRequests) =>
        System(s.slot, s.ops[id := Apply(h, Committed, true)], s.requests + 1)
      case (Restore(false, false, r), RestoreFails) =>
        System(Swapped(s.slot, Busy, Idle), s.ops[id := Restore(true, false, r)], s.requests)
      case (Restore(false, false, r), RestoreCommits) =>
        System(Pending, s.ops[id := Restore(false, true, r)], s.requests)
      // The deferred release runs after a success too, and must not undo it.
      case (Restore(false, true, r), RestoreReturns) =>
        System(Swapped(s.slot, Busy, Idle), s.ops[id := Restore(true, true, r)], s.requests)
      case (Restore(d, true, false), RestoreRequests) =>
        System(s.slot, s.ops[id := Restore(d, true, true)], s.requests + 1)
      case (Direct(false), DirectRequests) => System(s.slot, s.ops[id := Direct(true)], s.requests + 1)
      case _ => s
  }

  function Start(): System { System(Idle, map[], 0) }

  function Run(steps: seq<(nat, Step)>): System {
    if steps == [] then Start()
    else
      var last := steps[|steps| - 1];
      Do(Run(steps[..|steps| - 1]), last.0, last.1)
  }

  // ----- Who owns the slot

  /** The operation has claimed the slot and not let go of it. */
  predicate Holds(op: Op) {
    match op
    case Refused => false
    case Apply(h, job, _) => (h == Claimed && job == NoJob) || job == Running
    case Restore(returned, committed, _) => !returned && !committed
    case Direct(_) => false
  }

  /** The operation has committed the process to a restart. */
  predicate Commits(op: Op) {
    match op
    case Refused => false
    case Apply(_, job, _) => job == Committed
    case Restore(_, committed, _) => committed
    case Direct(_) => true
  }

  predicate Owns(op: Op) { Holds(op) || Commits(op) }

  predicate Requested(op: Op) { !op.Refused? && op.requested }

  /** Handler and job phases that fit together. */
  predicate Fits(op: Op) {
    match op
    case Apply(h, job, r) =>
      && (job == NoJob ==> h == Claimed || h == Returned)
      && (job != NoJob ==> h != Claimed)
      && (r ==> job == Committed)
    case Restore(_, committed, r) => r ==> committed
    case _ => true
  }

  /** The slot says what the operations are doing, and at most one of them owns it. */
  ghost predicate Inv(s: System) {
    && (forall i :: i in s.ops ==> Fits(s.ops[i]))
    && (forall i, j :: i in s.ops && j in s.ops && Owns(s.ops[i]) && Owns(s.ops[j]) ==> i == j)
    && (forall i :: i in s.ops && Holds(s.ops[i]) ==> s.slot == Busy)
    && (forall i :: i in s.ops && Commits(s.ops[i]) ==> s.slot == Pending)
    && (s.slot != Idle ==> exists i :: i in s.ops && Owns(s.ops[i]))
    && s.requests <= 1
    && (s.requests == 1 <==> exists i :: i in s.ops && Requested(s.ops[i]))
  }

  lemma RequestedOwns(op: Op)
    requires Fits(op) && Requested(op)
    ensures Commits(op)
  {
  }

  /** What one step of operation `id` may change. */
  ghost predicate Moves(s: System, t: System, id: nat)
    requires id in s.ops
  {
    && t.ops.Keys == s.ops.Keys
    && (forall i :: i in s.ops && i != id ==> t.ops[i] == s.ops[i])
    && Fits(t.ops[id])
    && (Owns(t.ops[id]) ==> Owns(s.ops[id]))
    && (Commits(s.ops[id]) ==> Commits(t.ops[id]) && t.slot == s.slot)
    && (!Owns(s.ops[id]) ==> t.slot == s.slot && t.requests == s.requests)
    && (Holds(t.ops[id]) ==> t.slot == Busy)
    && (Commits(t.ops[id]) ==> t.slot == Pending)
    && (Owns(s.ops[id]) && !Owns(t.ops[id]) ==> t.slot == Idle && Holds(s.ops[id]))
    && (Requested(s.ops[id]) ==> Requested(t.ops[id]) && t.requests == s.requests)
    && (!Requested(s.ops[id]) ==> t.requests == s.requests + if Requested(t.ops[id]) then 1 else 0)
  }

  lemma StepMoves(s: System, id: nat, step: Step)
    requires id in s.ops && Fits(s.ops[id])
    requires Holds(s.ops[id]) ==> s.slot == Busy
    requires Commits(s.ops[id]) ==> s.slot == Pending
    ensures Moves(s, Do(s, id, step), id)
  {
    if s.ops[id].Apply? { ApplyMoves(s, id, step); }
  }

  lemma ApplyMoves(s: System, id: nat, step: Step)
    requires id in s.ops && s.ops[id].Apply? && Fits(s.ops[id])
    requires Holds(s.ops[id]) ==> s.slot == Busy
    requires Commits(s.ops[id]) ==> s.slot == Pending
    ensures Moves(s, Do(s, id, step), id)
  {
  }

  lemma MoveKeepsInv(s: System, t: System, id: nat)
    requires Inv(s) && id in s.ops && Moves(s, t, id)
    ensures Inv(t)
  {
    hide Holds, Commits, Requested, Fits;
    MoveOwners(s, t, id);
    MoveRequests(s, t, id);
  }

  lemma MoveOwners(s: System, t: System, id: nat)
    requires Inv(s) && id in s.ops && Moves(s, t, id)
    ensures forall i, j :: i in t.ops && j in t.ops && Owns(t.ops[i]) && Owns(t.ops[j]) ==> i == j
    ensures forall i :: i in t.ops && Holds(t.ops[i]) ==> t.slot == Busy
    ensures forall i :: i in t.ops && Commits(t.ops[i]) ==> t.slot == Pending
    ensures t.slot != Idle ==> exists i :: i in t.ops && Owns(t.ops[i])
  {
    hide Requested, Fits, Holds, Commits;
    forall i | i in t.ops && i != id && Owns(t.ops[i]) ensures !Owns(s.ops[id]) && t.slot == s.slot {
      assert s.ops[i] == t.ops[i];
    }
    if t.slot != Idle {
      if !Owns(s.ops[id]) {
        var i :| i in s.ops && Owns(s.ops[i]);
        assert t.ops[i] == s.ops[i];
      } else {
        assert Owns(t.ops[id]);
      }
    }
  }

  lemma MoveRequests(s: System, t: System, id: nat)
    requires Inv(s) && id in s.ops && Moves(s, t, id)
    ensures t.requests <= 1 && (t.requests == 1 <==> exists i :: i in t.ops && Requested(t.ops[i]))
  {
    forall i | i in s.ops && Requested(s.ops[i]) ensures Commits(s.ops[i]) { RequestedOwns(s.ops[i]); }
    if Requested(t.ops[id]) && !Requested(s.ops[id]) {
      RequestedOwns(t.ops[id]);
      assert Owns(s.ops[id]);
      assert forall i :: i in s.ops && Requested(s.ops[i]) ==> i == id;
      assert s.requests == 0;
    } else if exists i :: i in s.ops && Requested(s.ops[i]) {
      var i :| i in s.ops && Requested(s.ops[i]);
      assert Requested(t.ops[i]);
    } else if exists i :: i in t.ops && Requested(t.ops[i]) {
      var i :| i in t.ops && Requested(t.ops[i]);
      assert i != id ==> s.ops[i] == t.ops[i];
    }
  }

  /** What the arrival of operation `id` may change. */
  ghost predicate Arrives(s: System, t: System, id: nat) {
    && id in t.ops && t.ops == s.ops[id := t.ops[id]] && t.requests == s.requests
    && Fits(t.ops[id]) && !Requested(t.ops[id])
    && (Owns(t.ops[id]) <==> s.slot == Idle)
    && (s.slot != Idle ==> t.slot == s.slot)
    && (Holds(t.ops[id]) ==> t.slot == Busy)
    && (Commits(t.ops[id]) ==> t.slot == Pending)
  }

  lemma NewOpArrives(s: System, id: nat, step: Step)
    requires id !in s.ops
    ensures Do(s, id, step) == s || Arrives(s, Do(s, id, step), id)
  {
  }

  lemma ArrivalKeepsInv(s: System, t: System, id: nat)
    requires Inv(s) && id !in s.ops && Arrives(s, t, id)
    ensures Inv(t)
  {
    hide Holds, Commits, Requested, Fits;
    assert forall i :: i in s.ops ==> t.ops[i] == s.ops[i];
    if s.slot != Idle {
      var i :| i in s.ops && Owns(s.ops[i]);
      assert Owns(t.ops[i]);
    } else {
      assert forall i :: i in s.ops ==> !Owns(s.ops[i]);
    }
    if s.requests == 1 {
      var i :| i in s.ops && Requested(s.ops[i]);
      assert Requested(t.ops[i]);
    }
  }

  lemma StepKeepsInv(s: System, id: nat, step: Step)
    requires Inv(s)
    ensures Inv(Do(s, id, step))
  {
    if id in s.ops {
      assert Moves(s, Do(s, id, step), id) by { StepMoves(s, id, step); }
      hide Do, Inv, Moves;
      MoveKeepsInv(s, Do(s, id, step), id);
    } else {
      NewOpArrives(s, id, step);
      hide Do, Inv, Arrives;
      if Do(s, id, step) != s { ArrivalKeepsInv(s, Do(s, id, step), id); }
    }
  }

  /**
   * In every interleaving of any number of operations: at most one owns the
   * slot, the slot says what it is doing, and at most one restart request is
   * ever made.
   */
  lemma {:induction false} EveryRunKeepsInv(steps: seq<(nat, Step)>)
    ensures Inv(Run(steps)) && Run(steps).requests <= 1
  {
    hide Do;
    if steps != [] {
      EveryRunKeepsInv(steps[..|steps| - 1]);
      var last := steps[|steps| - 1];
      StepKeepsInv(Run(steps[..|steps| - 1]), last.0, last.1);
    }
  }

  /** A release takes back only the claim of the operation that makes it. */
  lemma ReleaseIsOwn(s: System, id: nat, step: Step)
    requires Inv(s) && s.slot == Busy && Do(s, id, step).slot == Idle
    ensures id in s.ops && Holds(s.ops[id]) && !Owns(Do(s, id, step).ops[id])
    ensures forall i :: i in s.ops && i != id ==> !Owns(s.ops[i])
  {
    assert id in s.ops;
    StepMoves(s, id, step);
  }

  /** A pending restart is never left, whatever anyone does. */
  lemma PendingStays(s: System, id: nat, step: Step)
    requires Inv(s) && s.slot == Pending
    ensures Do(s, id, step).slot == Pending
  {
    if id in s.ops { StepMoves(s, id, step); }
  }

  /** Once pending, pending after any further steps. */
  lemma {:induction false} PendingForGood(steps: seq<(nat, Step)>, more: seq<(nat, Step)>)
    requires Run(steps).slot == Pending
    ensures Run(steps + more).slot == Pending
    decreases |more|
  {
    hide Do, Inv;
    if more == [] {
      assert steps + more == steps;
    } else {
      var n := |more| - 1;
      PendingForGood(steps, more[..n]);
      assert (steps + more)[..|steps + more| - 1] == steps + more[..n];
      EveryRunKeepsInv(steps + more[..n]);
      PendingStays(Run(steps + more[..n]), more[n].0, more[n].1);
    }
  }

  /** Whoever asks for a restart has committed it first, alone. */
  lemma RequestIsCommitted(s: System, id: nat, step: Step)
    requires Inv(s) && Do(s, id, step).requests > s.requests
    ensures s.requests == 0 && s.slot == Pending && id in s.ops && Commits(s.ops[id])
  {
    assert id in s.ops;
    StepMoves(s, id, step);
    MoveRequests(s, Do(s, id, step), id);
  }

  // ----- Losing the slot

  lemma RunPush(steps: seq<(nat, Step)>, id: nat, step: Step)
    ensures Run(steps + [(id, step)]) == Do(Run(steps), id, step)
  {
    hide Do;
    assert (steps + [(id, step)])[..|steps|] == steps;
  }

  /** The operation gives its claim back at this step. */
  predicate GivesUp(op: Op, step: Step) {
    match op
    case Apply(handler, job, _) =>
      (handler == Claimed && job == NoJob && step == HandlerFails) || (job == Running && step == JobFails)
    case Restore(returned, committed, _) => !returned && !committed && step == RestoreFails
    case _ => false
  }

  /** The operation gave its claim back at one of the further steps. */
  ghost predicate GaveUp(steps: seq<(nat, Step)>, more: seq<(nat, Step)>, id: nat) {
    exists i :: 0 <= i < |more| && GivesUpAt(steps, more, id, i)
  }

  ghost predicate GivesUpAt(steps: seq<(nat, Step)>, more: seq<(nat, Step)>, id: nat, i: nat)
    requires i < |more|
  {
    var s := Run(steps + more[..i]);
    more[i].0 == id && id in s.ops && GivesUp(s.ops[id], more[i].1)
  }

  lemma GaveUpPush(steps: seq<(nat, Step)>, more: seq<(nat, Step)>, id: nat, step: (nat, Step))
    ensures GaveUp(steps, more + [step], id) <==>
            || GaveUp(steps, more, id)
            || (step.0 == id && id in Run(steps + more).ops && GivesUp(Run(steps + more).ops[id], step.1))
  {
    hide Run, GivesUp;
    var all := more + [step];
    assert all[|more|] == step && all[..|more|] == more;
    forall i | 0 <= i < |more| ensures GivesUpAt(steps, all, id, i) == GivesUpAt(steps, more, id, i) {
      assert all[..i] == more[..i];
    }
    if GaveUp(steps, more, id) {
      var i :| 0 <= i < |more| && GivesUpAt(steps, more, id, i);
      assert GivesUpAt(steps, all, id, i);
    }
    assert GivesUpAt(steps, all, id, |more|) <==>
           step.0 == id && id in Run(steps + more).ops && GivesUp(Run(steps + more).ops[id], step.1);
  }

  /** An owner stays the owner until it gives up, and nobody becomes one later. */
  lemma OwnerStep(s: System, id: nat, who: nat, step: Step)
    requires id in s.ops
    ensures var t := Do(s, who, step);
            && id in t.ops
            && (Owns(t.ops[id]) <==> Owns(s.ops[id]) && !(who == id && GivesUp(s.ops[id], step)))
  {
  }

  lemma {:induction false} OwnerUntilGivenUp(steps: seq<(nat, Step)>, more: seq<(nat, Step)>, id: nat)
    requires id in Run(steps).ops && Owns(Run(steps).ops[id])
    ensures id in Run(steps + more).ops
    ensures Owns(Run(steps + more).ops[id]) <==> !GaveUp(steps, more, id)
    decreases |more|
  {
    if more == [] {
      assert steps + more == steps;
    } else {
      var n := |more| - 1;
      assert more == more[..n] + [more[n]] && steps + more == steps + more[..n] + [more[n]];
      OwnerUntilGivenUp(steps, more[..n], id);
      GaveUpPush(steps, more[..n], id, more[n]);
      RunPush(steps + more[..n], more[n].0, more[n].1);
      OwnerStep(Run(steps + more[..n]), id, more[n].0, more[n].1);
      hide Run, Do, GivesUp, GaveUp, Owns;
    }
  }

  /**
   * A direct restart that is refused has lost to one operation. That operation
   * restarts the process exactly when it does not give its claim back: once it
   * no longer holds the slot it has committed, and the slot is pending for
   * good, if and only if none of its further steps was a failure.
   */
  lemma RefusedDirect(steps: seq<(nat, Step)>, id: nat, more: seq<(nat, Step)>) returns (owner: nat)
    requires id !in Run(steps).ops && Run(steps).slot != Idle
    ensures var lost := steps + [(id, StartDirect)];
            && id in Run(lost).ops && Run(lost).ops[id] == Refused
            && owner in Run(lost).ops && Owns(Run(lost).ops[owner])
            && (forall j :: j in Run(lost).ops && Owns(Run(lost).ops[j]) ==> j == owner)
            && owner in Run(lost + more).ops
            && (!Holds(Run(lost + more).ops[owner]) ==>
                (Commits(Run(lost + more).ops[owner]) <==> !GaveUp(lost, more, owner)))
            && (Commits(Run(lost + more).ops[owner]) ==> Run(lost + more).slot == Pending)
            && (Run(lost).slot == Pending ==> !GaveUp(lost, more, owner))
  {
    var lost := steps + [(id, StartDirect)];
    RunPush(steps, id, StartDirect);
    EveryRunKeepsInv(lost);
    EveryRunKeepsInv(lost + more);
    owner :| owner in Run(lost).ops && Owns(Run(lost).ops[owner]);
    OwnerUntilGivenUp(lost, more, owner);
    if Run(lost).slot == Pending { PendingForGood(lost, more); CommittedStays(lost, more, owner); }
    hide Run, Do, GaveUp;
  }

  lemma {:induction false} CommittedStays(steps: seq<(nat, Step)>, more: seq<(nat, Step)>, id: nat)
    requires id in Run(steps).ops && Commits(Run(steps).ops[id])
    ensures id in Run(steps + more).ops && Commits(Run(steps + more).ops[id])
    decreases |more|
  {
    if more == [] {
      assert steps + more == steps;
    } else {
      var n := |more| - 1;
      assert steps + more == steps + more[..n] + [more[n]];
      CommittedStays(steps, more[..n], id);
      RunPush(steps + more[..n], more[n].0, more[n].1);
      CommitStep(Run(steps + more[..n]), id, more[n].0, more[n].1);
      hide Run, Do, Commits;
    }
  }

  lemma CommitStep(s: System, id: nat, who: nat, step: Step)
    requires id in s.ops && Commits(s.ops[id])
    ensures id in Do(s, who, step).ops && Commits(Do(s, who, step).ops[id])
  {
  }

  /** A setup restart skipped for an update that then fails: nothing restarts the process. */
  lemma SetupLosesToAFailure()
    ensures var s := Run([(0, StartApply), (1, StartDirect), (0, HandlerFails)]);
            s.slot == Idle && s.requests == 0 && 1 in s.ops && s.ops[1] == Refused
  {
    var one, two := [(0, StartApply)], [(0, StartApply), (1, StartDirect)];
    assert [] + [(0, StartApply)] == one && one + [(1, StartDirect)] == two;
    assert two + [(0, HandlerFails)] == [(0, StartApply), (1, StartDirect), (0, HandlerFails)];
    RunPush([], 0, StartApply);
    RunPush(one, 1, StartDirect);
    RunPush(two, 0, HandlerFails);
  }
}
