// What an update leaves at the executable's path, told by which steps of the
// swap failed and what the staged path led to.
module SwapOutcome {
  import opened BinarySwap
  import opened SwapFiles

  // ----- Where the original is

  /** Others keep off the executable and the names for the previous binary; the staged path is theirs too. */
  predicate Quiet(a: Act) {
    match a
    case Create(p, _) => Free(p)
    case Delete(p) => Free(p)
    case Move(p, q) => Free(p) && Free(q)
    case _ => true
  }

  predicate Free(p: Path) { p.New? || p.Elsewhere? }

  predicate AllQuiet(xs: seq<Act>) { forall i :: 0 <= i < |xs| ==> Quiet(xs[i]) }

  /** The original is at the executable's path, or set aside, or one of the two ways it can be gone. */
  predicate Whereabouts(s: System, orig: nat) {
    match s.phase
    case Named => s.aside.Name? && Leads(s.disk, Exe, orig)
    case Away => Parted(s, orig)
    case Looked => Parted(s, orig)
    case Placed => s.aside.Name? && Leads(s.disk, s.aside, orig) && Leads(s.disk, Exe, s.moved)
    case Lost(fault) =>
      if fault == NotPlaced then Parted(s, orig)
      else
        && s.aside.Name? && Leads(s.disk, s.aside, orig) && Leads(s.disk, Exe, s.moved)
        && (fault == OtherFile ==> s.moved != s.file)
    case Refused(end) => AtEnd(s, end, orig)
    case Failing(end) => AtEnd(s, end, orig)
    case Ended(end) => AtEnd(s, end, orig)
    case InPlace => Leads(s.disk, Exe, s.file)
    case Recorded => Leads(s.disk, Exe, s.file)
    case Committed => Leads(s.disk, Exe, s.file)
    case Requested => Leads(s.disk, Exe, s.file)
    case _ => Leads(s.disk, Exe, orig)
  }

  predicate Parted(s: System, orig: nat) {
    s.aside.Name? && Leads(s.disk, s.aside, orig) && Exe !in s.disk.at
  }

  predicate AtEnd(s: System, end: End, orig: nat) {
    if !end.Stranded? then Leads(s.disk, Exe, orig)
    else if end.fault == NotPlaced then Exe !in s.disk.at
    else Leads(s.disk, Exe, s.moved) && (end.fault == OtherFile ==> s.moved != s.file)
  }

  lemma NextWhereabouts(c: Config, s: System, fails: bool, n: nat, orig: nat)
    requires Whereabouts(s, orig)
    ensures Whereabouts(Next(c, s, fails, n), orig)
  {
    hide Next, Whereabouts;
    if s.phase.Looked? || s.phase.Lost? {
      PlaceOrRecover(c, s, fails, n, orig);
    } else if s.phase.Clear? || s.phase.Named? {
      SetAside(c, s, fails, n, orig);
    } else {
      Elsewhere(c, s, fails, n, orig);
    }
  }

  lemma DiskStays(c: Config, s: System, fails: bool, n: nat)
    requires !s.phase.Clear? && !s.phase.Named? && !s.phase.Looked? && !s.phase.Lost?
    ensures Next(c, s, fails, n).disk == s.disk
  {
    hide Created, Deleted, Renamed, NameTaken, MovedAway, PutInPlace, Recovered;
  }

  lemma Elsewhere(c: Config, s: System, fails: bool, n: nat, orig: nat)
    requires Whereabouts(s, orig) && !s.phase.Clear? && !s.phase.Named? && !s.phase.Looked? && !s.phase.Lost?
    ensures Whereabouts(Next(c, s, fails, n), orig)
  {
    hide Created, Deleted, Renamed, NameTaken, MovedAway, PutInPlace, Recovered, Leads;
    DiskStays(c, s, fails, n);
    if s.phase.Placed? { LookedAt(c, s, fails, n, orig); }
  }

  lemma LookedAt(c: Config, s: System, fails: bool, n: nat, orig: nat)
    requires Whereabouts(s, orig) && s.phase.Placed?
    ensures Whereabouts(Next(c, s, fails, n), orig)
  {
  }

  lemma SetAside(c: Config, s: System, fails: bool, n: nat, orig: nat)
    requires Whereabouts(s, orig) && (s.phase.Clear? || s.phase.Named?)
    ensures Whereabouts(Next(c, s, fails, n), orig)
  {
  }

  lemma PlaceOrRecover(c: Config, s: System, fails: bool, n: nat, orig: nat)
    requires Whereabouts(s, orig) && (s.phase.Looked? || s.phase.Lost?)
    ensures Whereabouts(Next(c, s, fails, n), orig)
  {
  }

  lemma AroundWhereabouts(s: System, a: Act, orig: nat)
    requires Whereabouts(s, orig) && !a.Go? && Quiet(a)
    ensures Whereabouts(Around(s, a), orig)
  {
  }

  lemma {:induction false} RunWhereabouts(c: Config, s: System, xs: seq<Act>, orig: nat)
    requires s.phase == Starting && Leads(s.disk, Exe, orig) && AllQuiet(xs)
    ensures Whereabouts(Run(c, s, xs), orig)
  {
    if xs != [] {
      var n := |xs| - 1;
      assert forall i :: 0 <= i < n ==> xs[..n][i] == xs[i];
      RunWhereabouts(c, s, xs[..n], orig);
      assert Quiet(xs[n]);
      var t := Run(c, s, xs[..n]);
      if xs[n].Go? { NextWhereabouts(c, t, xs[n].fails, xs[n].n, orig); } else { AroundWhereabouts(t, xs[n], orig); }
      hide Whereabouts, Next, Around;
    }
  }

  // ----- Told by what went wrong on the way

  /** What can happen at a step of the swap. */
  datatype Happening =
    | StatFails                  // the handle's own file could not be looked at
    | RenameFails                // the staged path could not be renamed, or led nowhere
    | Renames(id: nat)           // the staged path led to this file and was renamed
    | LookFails                  // the executable's path could not be looked at
    | RecoveryFails              // the original could not be moved back

  predicate Happens(t: System, a: Act, w: Happening) {
    && a.Go?
    && match w
       case StatFails => t.phase == Away && a.fails
       case RenameFails => t.phase == Looked && (a.fails || New !in t.disk.at)
       case Renames(id) => t.phase == Looked && !a.fails && Leads(t.disk, New, id)
       case LookFails => t.phase == Placed && a.fails
       case RecoveryFails => t.phase.Lost? && a.fails
  }

  /** It happened at some step of the run. */
  ghost predicate Happened(c: Config, s: System, xs: seq<Act>, w: Happening) {
    exists i :: 0 <= i < |xs| && Happens(Run(c, s, xs[..i]), xs[i], w)
  }

  lemma HappenedPush(c: Config, s: System, xs: seq<Act>, a: Act, w: Happening)
    ensures Happened(c, s, xs + [a], w) <==> Happened(c, s, xs, w) || Happens(Run(c, s, xs), a, w)
  {
    hide Run, Happens;
    var all := xs + [a];
    assert forall i :: 0 <= i < |xs| ==> all[..i] == xs[..i] && all[i] == xs[i];
    assert all[..|xs|] == xs && all[|xs|] == a;
  }

  /** What has happened, of those that matter, with one file in mind. */
  datatype Past = Past(stat: bool, rename: bool, renamed: bool, look: bool, recovery: bool)

  ghost function PastOf(c: Config, s: System, xs: seq<Act>, id: nat): Past {
    Past(Happened(c, s, xs, StatFails), Happened(c, s, xs, RenameFails), Happened(c, s, xs, Renames(id)),
         Happened(c, s, xs, LookFails), Happened(c, s, xs, RecoveryFails))
  }

  function Onward(p: Past, t: System, a: Act, id: nat): Past {
    Past(p.stat || Happens(t, a, StatFails), p.rename || Happens(t, a, RenameFails),
         p.renamed || Happens(t, a, Renames(id)), p.look || Happens(t, a, LookFails),
         p.recovery || Happens(t, a, RecoveryFails))
  }

  lemma PastPush(c: Config, s: System, xs: seq<Act>, a: Act, id: nat)
    ensures PastOf(c, s, xs + [a], id) == Onward(PastOf(c, s, xs, id), Run(c, s, xs), a, id)
  {
    hide Happened, Happens, Run;
    HappenedPush(c, s, xs, a, StatFails);
    HappenedPush(c, s, xs, a, RenameFails);
    HappenedPush(c, s, xs, a, Renames(id));
    HappenedPush(c, s, xs, a, LookFails);
    HappenedPush(c, s, xs, a, RecoveryFails);
  }

  /** Why committing failed, told by the past. */
  predicate Explained(s: System, p: Past, fault: Fault, id: nat) {
    match fault
    case NotPlaced => (p.stat || p.rename) && !p.renamed && !p.look
    case NotSeen => !p.stat && !p.rename && p.renamed == (s.moved == id) && p.look
    case OtherFile => !p.stat && !p.rename && p.renamed == (s.moved == id) && !p.look && s.moved != s.file
  }

  /** Each phase is reached by exactly one past. */
  predicate Accounts(s: System, p: Past, id: nat) {
    match s.phase
    case Placed => p == Past(false, false, s.moved == id, false, false)
    case Lost(fault) => Explained(s, p, fault, id) && !p.recovery
    case Refused(end) => AccountsEnd(s, p, end, id)
    case Failing(end) => AccountsEnd(s, p, end, id)
    case Ended(end) => AccountsEnd(s, p, end, id)
    case InPlace => p == Past(false, false, s.file == id, false, false)
    case Recorded => p == Past(false, false, s.file == id, false, false)
    case Committed => p == Past(false, false, s.file == id, false, false)
    case Requested => p == Past(false, false, s.file == id, false, false)
    case _ => p == Past(false, false, false, false, false)
  }

  predicate AccountsEnd(s: System, p: Past, end: End, id: nat) {
    match end
    case Stranded(fault) => Explained(s, p, fault, id) && p.recovery
    case Restored =>
      !p.recovery && (Explained(s, p, NotPlaced, id) || Explained(s, p, NotSeen, id) || Explained(s, p, OtherFile, id))
    case _ => p == Past(false, false, false, false, false)
  }

  lemma NextAccounts(c: Config, s: System, a: Act, p: Past, orig: nat, id: nat)
    requires Whereabouts(s, orig) && Accounts(s, p, id) && a.Go?
    ensures Accounts(Next(c, s, a.fails, a.n), Onward(p, s, a, id), id)
  {
    if s.phase.Placed? || s.phase.Lost? {
      LateAccounts(c, s, a, p, orig, id);
    } else if s.phase.Away? || s.phase.Looked? {
      PlaceAccounts(c, s, a, p, id);
    } else if s.phase.Refused? || s.phase.Failing? || s.phase.Ended? {
      EndAccounts(c, s, a, p, id);
    } else {
      PlainAccounts(c, s, a, p, id);
    }
    hide Accounts, Onward, Next, Whereabouts;
  }

  lemma PlaceAccounts(c: Config, s: System, a: Act, p: Past, id: nat)
    requires Accounts(s, p, id) && a.Go? && (s.phase.Away? || s.phase.Looked?)
    ensures Accounts(Next(c, s, a.fails, a.n), Onward(p, s, a, id), id)
  {
    hide Renamed;
  }

  lemma EndAccounts(c: Config, s: System, a: Act, p: Past, id: nat)
    requires Accounts(s, p, id) && a.Go? && (s.phase.Refused? || s.phase.Failing? || s.phase.Ended?)
    ensures Accounts(Next(c, s, a.fails, a.n), Onward(p, s, a, id), id)
  {
    assert Onward(p, s, a, id) == p;
    hide Onward;
  }

  /** Steps at which nothing that matters can happen. */
  lemma PlainAccounts(c: Config, s: System, a: Act, p: Past, id: nat)
    requires Accounts(s, p, id) && a.Go? && !s.phase.Placed? && !s.phase.Lost? && !s.phase.Away? && !s.phase.Looked?
    requires !s.phase.Refused? && !s.phase.Failing? && !s.phase.Ended?
    ensures Accounts(Next(c, s, a.fails, a.n), Onward(p, s, a, id), id)
  {
    assert Onward(p, s, a, id) == p;
    hide Onward, Explained, Created, Deleted, Renamed;
  }

  lemma LateAccounts(c: Config, s: System, a: Act, p: Past, orig: nat, id: nat)
    requires Whereabouts(s, orig) && Accounts(s, p, id) && a.Go? && (s.phase.Placed? || s.phase.Lost?)
    ensures Accounts(Next(c, s, a.fails, a.n), Onward(p, s, a, id), id)
  {
  }

  lemma {:induction false} RunAccounts(c: Config, s: System, xs: seq<Act>, orig: nat, id: nat)
    requires s.phase == Starting && Leads(s.disk, Exe, orig) && AllQuiet(xs)
    ensures Accounts(Run(c, s, xs), PastOf(c, s, xs, id), id)
  {
    hide Run, PastOf, Whereabouts, Accounts, Onward, Leads;
    if xs == [] {
      NoActs(c, s, id);
    } else {
      var n := |xs| - 1;
      var front, a := xs[..n], xs[n];
      assert forall i :: 0 <= i < n ==> front[i] == xs[i];
      assert xs == front + [a];
      RunAccounts(c, s, front, orig, id);
      RunWhereabouts(c, s, front, orig);
      PastPush(c, s, front, a, id);
      RunPush(c, s, front, a);
      StepAccounts(c, Run(c, s, front), a, PastOf(c, s, front, id), orig, id);
    }
  }

  lemma NoActs(c: Config, s: System, id: nat)
    requires s.phase == Starting
    ensures Accounts(Run(c, s, []), PastOf(c, s, [], id), id)
  {
  }

  lemma StepAccounts(c: Config, t: System, a: Act, p: Past, orig: nat, id: nat)
    requires Whereabouts(t, orig) && Accounts(t, p, id)
    ensures Accounts(Do(c, t, a), Onward(p, t, a, id), id)
  {
    if a.Go? {
      NextAccounts(c, t, a, p, orig, id);
      hide Accounts, Onward, Next, Whereabouts;
    } else {
      AroundAccounts(t, a, p, id);
      hide Accounts, Onward, Around, Whereabouts;
    }
  }

  lemma AroundAccounts(t: System, a: Act, p: Past, id: nat)
    requires Accounts(t, p, id) && !a.Go?
    ensures Onward(p, t, a, id) == p && Accounts(Around(t, a), p, id)
  {
    AroundJob(t, a);
    hide Around;
    AccountsSame(t, Around(t, a), p, id);
    hide Accounts;
  }

  lemma AroundJob(t: System, a: Act)
    requires !a.Go?
    ensures var u := Around(t, a); u.phase == t.phase && u.file == t.file && u.moved == t.moved
  {
  }

  lemma AccountsSame(t: System, u: System, p: Past, id: nat)
    requires Accounts(t, p, id) && u.phase == t.phase && u.file == t.file && u.moved == t.moved
    ensures Accounts(u, p, id)
  {
  }

  /**
   * However the staged path is meddled with, what a job that is over leaves at
   * the executable's path is told by what went wrong on the way. A restart is
   * asked for exactly when the hashed file was renamed into place and could be
   * looked at, and then it is there. Otherwise the original is there exactly
   * when moving it back did not fail, or the staged path had led to it; nothing
   * is there exactly when it did fail and nothing had been renamed; and with
   * that failure the hashed file is there, without a restart, exactly when it
   * had been renamed into place and could not be looked at.
   */
  lemma WhatIsLeft(c: Config, s: System, xs: seq<Act>, orig: nat)
    requires s.phase == Starting && Leads(s.disk, Exe, orig) && AllQuiet(xs)
    requires Over(Run(c, s, xs).phase)
    ensures var t := Run(c, s, xs);
            && (t.phase == Requested <==>
                Happened(c, s, xs, Renames(t.file)) && !Happened(c, s, xs, LookFails))
            && (t.phase == Requested ==> Leads(t.disk, Exe, t.file))
    ensures var t := Run(c, s, xs);
            t.phase != Requested ==>
              && (Leads(t.disk, Exe, orig) <==>
                  !Happened(c, s, xs, RecoveryFails) || Happened(c, s, xs, Renames(orig)))
              && (Exe !in t.disk.at <==>
                  && Happened(c, s, xs, RecoveryFails)
                  && (Happened(c, s, xs, StatFails) || Happened(c, s, xs, RenameFails)))
              && (Happened(c, s, xs, RecoveryFails) ==>
                  (Leads(t.disk, Exe, t.file) <==>
                   Happened(c, s, xs, Renames(t.file)) && Happened(c, s, xs, LookFails)))
  {
    var t := Run(c, s, xs);
    RunWhereabouts(c, s, xs, orig);
    RunAccounts(c, s, xs, orig, orig);
    RunAccounts(c, s, xs, orig, t.file);
    hide Run, Happened, Whereabouts, Accounts, Over;
    Concluded(t, PastOf(c, s, xs, orig), PastOf(c, s, xs, t.file), orig);
  }

  lemma Concluded(t: System, p: Past, f: Past, orig: nat)
    requires Over(t.phase) && Whereabouts(t, orig) && Accounts(t, p, orig) && Accounts(t, f, t.file)
    requires f == p.(renamed := f.renamed)
    ensures t.phase == Requested <==> f.renamed && !p.look
    ensures t.phase == Requested ==> Leads(t.disk, Exe, t.file)
    ensures t.phase != Requested ==>
              && (Leads(t.disk, Exe, orig) <==> !p.recovery || p.renamed)
              && (Exe !in t.disk.at <==> p.recovery && (p.stat || p.rename))
              && (p.recovery ==> (Leads(t.disk, Exe, t.file) <==> f.renamed && p.look))
  {
  }
}
