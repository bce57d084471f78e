// Update applies and the shutdown hook that cancels them. A hook marks the
// server and collects the cancels under the registry lock, and runs them
// outside it; an apply registers under the lock, and cancels itself outside it
// when the server was already closing.
module ApplyShutdown {
  import opened HttpServer

  // ----- The objects and their lock's critical sections

  class ApplyEntry {
    const srv: Server
    var cancelled: bool

    constructor (srv: Server)
      ensures this.srv == srv && !cancelled
    {
      this.srv, cancelled := srv, false;
    }

    method Cancel()
      modifies this
      ensures cancelled
    {
      cancelled := true;
    }
  }

  class AppliesInFlight {
    var tracked: set<ApplyEntry>
    var closing: set<Server>

    constructor ()
      ensures tracked == {} && closing == {}
    {
      tracked, closing := {}, {};
    }

    /** Under the lock: mark the server and collect exactly its tracked applies. */
    method Collect(srv: Server) returns (cancels: seq<ApplyEntry>)
      modifies this`closing
      ensures closing == old(closing) + {srv}
      ensures forall e :: e in cancels <==> e in tracked && e.srv == srv
    {
      closing := closing + {srv};
      cancels := [];
      var todo := tracked;
      while todo != {}
        invariant todo <= tracked && tracked == old(tracked) && closing == old(closing) + {srv}
        invariant forall e :: e in cancels <==> e in tracked - todo && e.srv == srv
        decreases |todo|
      {
        var e :| e in todo;
        if e.srv == srv { cancels := cancels + [e]; }
        todo := todo - {e};
      }
    }

    /** The hook cancels exactly the server's tracked applies. */
    method EndApplies(srv: Server)
      modifies this`closing, tracked
      ensures closing == old(closing) + {srv}
      ensures forall e :: e in tracked ==> e.cancelled == (old(e.cancelled) || e.srv == srv)
    {
      var cancels := Collect(srv);
      for i := 0 to |cancels|
        invariant closing == old(closing) + {srv}
        invariant forall e :: e in tracked ==> e.cancelled == (old(e.cancelled) || e in cancels[..i])
      {
        var e := cancels[i];
        assert e in cancels && e in old(tracked);
        e.Cancel();
        assert cancels[..i + 1] == cancels[..i] + [cancels[i]];
      }
      assert cancels[..|cancels|] == cancels;
    }

    /** A new apply is cancelled at once exactly when its server is already closing. */
    method TrackApply(srv: Server) returns (e: ApplyEntry)
      modifies this`tracked
      ensures fresh(e) && e.srv == srv && tracked == old(tracked) + {e}
      ensures e.cancelled == (srv in closing && srv != NoServer)
    {
      e := new ApplyEntry(srv);
      tracked := tracked + {e};
      if srv in closing && srv != NoServer { e.Cancel(); }
    }

    method Untrack(e: ApplyEntry)
      modifies this`tracked
      ensures tracked == old(tracked) - {e}
    {
      tracked := tracked - {e};
    }
  }

  // ----- Every interleaving

  datatype Apply = Apply(srv: Server, cancelled: bool)

  /** Who has still to call an apply's cancel: a hook, or the apply's own registration. */
  datatype Caller = Hook(id: nat) | Itself

  datatype Applies = Applies(applies: map<nat, Apply>, tracked: set<nat>, closing: set<Server>,
                             owed: set<(Caller, nat)>)

  datatype Action =
    | Track(id: nat, srv: Server)
    | Untrack(id: nat)
    | Collect(hook: nat, srv: Server)
    | Cancel(who: Caller, id: nat)

  function None(): Applies { Applies(map[], {}, {}, {}) }

  function Owing(s: Applies, hook: nat, srv: Server): set<(Caller, nat)> {
    set id | id in s.tracked && id in s.applies && s.applies[id].srv == srv :: (Hook(hook), id)
  }

  /** A step that its order does not allow leaves the system alone. */
  function Act(s: Applies, x: Action): Applies {
    match x
    case Track(id, srv) =>
      if id in s.applies then s
      else s.(applies := s.applies[id := Apply(srv, false)], tracked := s.tracked + {id},
              owed := if srv in s.closing && srv != NoServer then s.owed + {(Itself, id)} else s.owed)
    case Untrack(id) => s.(tracked := s.tracked - {id})
    case Collect(hook, srv) =>
      s.(closing := s.closing + {srv}, owed := s.owed + Owing(s, hook, srv))
    case Cancel(who, id) =>
      if (who, id) !in s.owed || id !in s.applies then s
      else s.(applies := s.applies[id := s.applies[id].(cancelled := true)], owed := s.owed - {(who, id)})
  }

  function Run(s: Applies, xs: seq<Action>): Applies {
    if xs == [] then s else Act(Run(s, xs[..|xs| - 1]), xs[|xs| - 1])
  }

  ghost predicate IsOwed(s: Applies, id: nat) { exists who :: (who, id) in s.owed }

  /** A tracked apply of a closing server is cancelled, or somebody has still to cancel it. */
  ghost predicate Caught(s: Applies, id: nat)
    requires id in s.applies
  {
    var a := s.applies[id];
    a.srv != NoServer && a.srv in s.closing ==> a.cancelled || IsOwed(s, id)
  }

  /** No apply is cancelled, or to be cancelled, unless its server is closing. */
  ghost predicate Due(s: Applies, id: nat)
    requires id in s.applies
  {
    s.applies[id].cancelled || IsOwed(s, id) ==> s.applies[id].srv in s.closing
  }

  ghost predicate Inv(s: Applies) {
    && (forall id :: id in s.tracked ==> id in s.applies && Caught(s, id))
    && (forall id :: id in s.applies ==> Due(s, id))
    && (forall who, id :: (who, id) in s.owed ==> id in s.applies)
  }

  lemma TrackKeeps(s: Applies, id: nat, srv: Server)
    requires Inv(s) && id !in s.applies
    ensures Inv(Act(s, Track(id, srv)))
  {
    var t := Act(s, Track(id, srv));
    assert srv in s.closing && srv != NoServer ==> (Itself, id) in t.owed;
    forall j | j in t.applies ensures Due(t, j) && (j in t.tracked ==> Caught(t, j)) {
      assert j != id ==> (IsOwed(t, j) <==> IsOwed(s, j));
      assert j != id ==> Due(s, j) && (j in s.tracked ==> Caught(s, j));
    }
  }

  lemma CollectKeeps(s: Applies, hook: nat, srv: Server)
    requires Inv(s)
    ensures Inv(Act(s, Collect(hook, srv)))
  {
    var t := Act(s, Collect(hook, srv));
    forall j | j in t.applies ensures Due(t, j) && (j in t.tracked ==> Caught(t, j)) {
      assert Due(s, j) && (j in s.tracked ==> Caught(s, j));
      assert j in s.tracked && s.applies[j].srv == srv ==> (Hook(hook), j) in Owing(s, hook, srv);
      assert IsOwed(s, j) ==> IsOwed(t, j);
      assert IsOwed(t, j) ==> IsOwed(s, j) || s.applies[j].srv == srv;
    }
  }

  lemma CancelKeeps(s: Applies, who: Caller, id: nat)
    requires Inv(s) && (who, id) in s.owed && id in s.applies
    ensures Inv(Act(s, Cancel(who, id)))
  {
    var t := Act(s, Cancel(who, id));
    forall j | j in t.applies ensures Due(t, j) && (j in t.tracked ==> Caught(t, j)) {
      assert Due(s, j) && (j in s.tracked ==> Caught(s, j));
      assert IsOwed(t, j) ==> IsOwed(s, j);
      assert j != id ==> (IsOwed(s, j) ==> IsOwed(t, j));
    }
  }

  lemma ActKeepsInv(s: Applies, x: Action)
    requires Inv(s)
    ensures Inv(Act(s, x))
  {
    match x
    case Track(id, srv) => if id !in s.applies { TrackKeeps(s, id, srv); }
    case Untrack(id) =>
      var t := Act(s, x);
      forall j | j in t.applies ensures Due(t, j) && (j in t.tracked ==> Caught(t, j)) {
        assert Due(s, j) && (j in s.tracked ==> Caught(s, j));
        assert IsOwed(t, j) <==> IsOwed(s, j);
      }
    case Collect(hook, srv) => CollectKeeps(s, hook, srv);
    case Cancel(who, id) => if (who, id) in s.owed && id in s.applies { CancelKeeps(s, who, id); }
  }

  lemma {:induction false} RunKeepsInv(xs: seq<Action>)
    ensures Inv(Run(None(), xs))
  {
    if xs != [] {
      RunKeepsInv(xs[..|xs| - 1]);
      hide Inv, Act;
      ActKeepsInv(Run(None(), xs[..|xs| - 1]), xs[|xs| - 1]);
    }
  }

  /**
   * In every interleaving, once nobody still owes an apply its cancel, a
   * tracked apply of a server is cancelled exactly when the server is closing,
   * whichever of the two registered first.
   */
  lemma CancelledExactlyWhenClosing(xs: seq<Action>, id: nat)
    requires var s := Run(None(), xs); id in s.tracked && id in s.applies && s.applies[id].srv != NoServer
    requires !IsOwed(Run(None(), xs), id)
    ensures var s := Run(None(), xs); s.applies[id].cancelled <==> s.applies[id].srv in s.closing
  {
    RunKeepsInv(xs);
    hide Run, IsOwed;
    assert Caught(Run(None(), xs), id) && Due(Run(None(), xs), id);
  }

  /** A cancel is never taken back, and a closing server stays closing. */
  lemma {:induction false} CancelledStays(s: Applies, xs: seq<Action>, id: nat)
    requires id in s.applies
    ensures var t := Run(s, xs);
            && s.closing <= t.closing && id in t.applies && t.applies[id].srv == s.applies[id].srv
            && (s.applies[id].cancelled ==> t.applies[id].cancelled)
  {
    if xs != [] {
      CancelledStays(s, xs[..|xs| - 1], id);
      hide Run, Owing;
    }
  }
}
