// Archive requests and the shutdown hook that pulls their bounds in. Requests
// start, write and end while hooks of several servers run. The registry lock
// keeps registering, releasing and the whole of one hook apart; writes only
// take their own request's lock, so they fall anywhere, inside a hook too.
module ArchiveShutdown {
  import opened HttpServer

  /** A request's deadlines: its bound, when its build is cancelled, and its connection's deadline. */
  datatype Archive = Archive(srv: Server, idle: int, until: int, timer: int, deadline: int)

  function Started(srv: Server, idle: int, lifetime: int, now: int): Archive {
    Archive(srv, idle, now + lifetime, now + lifetime, now + lifetime)
  }

  function Armed(a: Archive, now: int): Archive {
    a.(deadline := if now + a.idle > a.until then a.until else now + a.idle)
  }

  function Capped(a: Archive, cutoff: int, now: int): Archive {
    if cutoff >= a.until then a else Armed(a.(until := cutoff, timer := cutoff), now)
  }

  /** The build and the connection both end by the bound. */
  predicate Bounded(a: Archive) { a.timer == a.until && a.deadline <= a.until }

  // ----- The objects and their locks' critical sections

  class ArchiveDeadline {
    const srv: Server
    const idle: int
    var until: int
    var timer: int
    var deadline: int

    function Value(): Archive
      reads this
    {
      Archive(srv, idle, until, timer, deadline)
    }

    constructor (srv: Server, idle: int, lifetime: int, now: int)
      ensures Value() == Started(srv, idle, lifetime, now)
    {
      this.srv, this.idle := srv, idle;
      until, timer, deadline := now + lifetime, now + lifetime, now + lifetime;
    }

    method Arm(now: int)
      modifies this`deadline
      ensures Value() == Armed(old(Value()), now)
    {
      var next := now + idle;
      if next > until { next := until; }
      deadline := next;
    }

    method CapAt(cutoff: int, now: int)
      modifies this
      ensures Value() == Capped(old(Value()), cutoff, now)
    {
      if cutoff >= until { return; }
      until, timer := cutoff, cutoff;
      Arm(now);
    }
  }

  class ArchivesInFlight {
    var running: set<ArchiveDeadline>
    var closing: map<Server, int>

    constructor ()
      ensures running == {} && closing == map[]
    {
      running, closing := {}, map[];
    }

    /** The hook caps exactly the server's running requests; `read` is the time read while capping each. */
    method ShutdownArchives(srv: Server, grace: int, now: int, read: ArchiveDeadline -> int)
      modifies this`closing, running
      ensures closing == old(closing)[srv := now + grace]
      ensures forall d :: d in running ==>
                d.Value() == if d.srv == srv then Capped(old(d.Value()), now + grace, read(d)) else old(d.Value())
    {
      var cutoff := now + grace;
      closing := closing[srv := cutoff];
      var todo := running;
      while todo != {}
        invariant todo <= running && running == old(running) && closing == old(closing)[srv := cutoff]
        invariant forall d :: d in todo ==> d.Value() == old(d.Value())
        invariant forall d :: d in running - todo ==>
                    d.Value() == if d.srv == srv then Capped(old(d.Value()), cutoff, read(d)) else old(d.Value())
        decreases |todo|
      {
        hide Capped;
        var d :| d in todo;
        if d.srv == srv { d.CapAt(cutoff, read(d)); }
        todo := todo - {d};
      }
    }

    /** A request that starts on a closing server is capped before it is registered. */
    method StartArchive(srv: Server, idle: int, lifetime: int, now: int, later: int) returns (d: ArchiveDeadline)
      modifies this`running
      ensures fresh(d) && running == old(running) + {d}
      ensures d.Value() == Entering(Started(srv, idle, lifetime, now), closing, later)
    {
      d := new ArchiveDeadline(srv, idle, lifetime, now);
      if srv in closing && srv != NoServer { d.CapAt(closing[srv], later); }
      running := running + {d};
    }

    method Release(d: ArchiveDeadline)
      modifies this`running
      ensures running == old(running) - {d}
    {
      running := running - {d};
    }
  }

  /** A request's deadlines once it is registered. */
  function Entering(a: Archive, closing: map<Server, int>, now: int): Archive {
    if a.srv in closing && a.srv != NoServer then Capped(a, closing[a.srv], now) else a
  }

  // ----- Every interleaving

  /** Who holds the registry lock: nobody, or a hook with the requests it has still to cap. */
  datatype Lock = Free | Held(srv: Server, todo: set<nat>)

  /** Every request ever started, the registered ones, the recorded cutoffs, and the clock. */
  datatype System = System(now: int, archives: map<nat, Archive>, running: set<nat>,
                           closing: map<Server, int>, lock: Lock)

  datatype Step =
    | Tick(gap: nat)
    | Start(id: nat, srv: Server, idle: int, lifetime: int)
    | Register(id: nat)
    | Touch(id: nat)
    | Release(id: nat)
    | HookBegin(srv: Server, grace: int)
    | HookCap(id: nat)
    | HookEnd

  function Initial(now: int): System { System(now, map[], {}, map[], Free) }

  function OnServer(s: System, srv: Server): set<nat> {
    set id | id in s.running && id in s.archives && s.archives[id].srv == srv
  }

  /** A step that its locks or its order do not allow leaves the system alone. */
  function Do(s: System, x: Step): System {
    match x
    case Tick(gap) => s.(now := s.now + gap)
    case Start(id, srv, idle, lifetime) =>
      if id in s.archives then s
      else s.(archives := s.archives[id := Started(srv, idle, lifetime, s.now)])
    case Register(id) =>
      if s.lock.Held? || id !in s.archives then s
      else s.(archives := s.archives[id := Entering(s.archives[id], s.closing, s.now)], running := s.running + {id})
    case Touch(id) =>
      if id !in s.archives then s else s.(archives := s.archives[id := Armed(s.archives[id], s.now)])
    case Release(id) =>
      if s.lock.Held? then s else s.(running := s.running - {id})
    case HookBegin(srv, grace) =>
      if s.lock.Held? then s
      else s.(closing := s.closing[srv := s.now + grace], lock := Held(srv, OnServer(s, srv)))
    case HookCap(id) =>
      if s.lock.Free? || id !in s.lock.todo || id !in s.archives || s.lock.srv !in s.closing then s
      else s.(archives := s.archives[id := Capped(s.archives[id], s.closing[s.lock.srv], s.now)],
              lock := s.lock.(todo := s.lock.todo - {id}))
    case HookEnd =>
      if s.lock.Held? && s.lock.todo == {} then s.(lock := Free) else s
  }

  function Run(s: System, xs: seq<Step>): System {
    if xs == [] then s else Do(Run(s, xs[..|xs| - 1]), xs[|xs| - 1])
  }

  predicate Awaited(l: Lock, srv: Server, id: nat) { l.Held? && l.srv == srv && id in l.todo }

  /** A registered request of a closing server is bound by the cutoff, or its server's hook has yet to reach it. */
  predicate Caught(s: System, id: nat)
    requires id in s.archives
  {
    var a := s.archives[id];
    a.srv != NoServer && a.srv in s.closing ==> a.until <= s.closing[a.srv] || Awaited(s.lock, a.srv, id)
  }

  ghost predicate Inv(s: System) {
    && (forall id :: id in s.archives ==> Bounded(s.archives[id]))
    && (forall id :: id in s.running ==> id in s.archives && Caught(s, id))
    && (s.lock.Held? ==> s.lock.srv in s.closing && s.lock.todo <= s.running)
    && (forall id :: id in s.archives && s.lock.Held? && id in s.lock.todo ==> s.archives[id].srv == s.lock.srv)
  }

  lemma CappedKeeps(a: Archive, cutoff: int, now: int)
    requires Bounded(a)
    ensures var c := Capped(a, cutoff, now);
            Bounded(c) && c.srv == a.srv && c.until <= a.until && c.until <= cutoff
  {
  }

  lemma ArmedKeeps(a: Archive, now: int)
    requires Bounded(a)
    ensures var c := Armed(a, now); Bounded(c) && c.srv == a.srv && c.until == a.until
  {
  }

  lemma EnteringKeeps(a: Archive, closing: map<Server, int>, now: int)
    requires Bounded(a)
    ensures var c := Entering(a, closing, now);
            && Bounded(c) && c.srv == a.srv && c.until <= a.until
            && (a.srv != NoServer && a.srv in closing ==> c.until <= closing[a.srv])
  {
  }

  lemma DoKeepsInv(s: System, x: Step)
    requires Inv(s)
    ensures Inv(Do(s, x))
  {
    hide Capped, Armed, Entering;
    if x.Register? && x.id in s.archives { EnteringKeeps(s.archives[x.id], s.closing, s.now); }
    if x.Touch? && x.id in s.archives { ArmedKeeps(s.archives[x.id], s.now); }
    if x.HookCap? && x.id in s.archives && s.lock.Held? && s.lock.srv in s.closing {
      CappedKeeps(s.archives[x.id], s.closing[s.lock.srv], s.now);
    }
  }

  lemma {:induction false} RunKeepsInv(s: System, xs: seq<Step>)
    requires Inv(s)
    ensures Inv(Run(s, xs))
  {
    if xs != [] {
      RunKeepsInv(s, xs[..|xs| - 1]);
      hide Inv, Do;
      DoKeepsInv(Run(s, xs[..|xs| - 1]), xs[|xs| - 1]);
    }
  }

  /** No request of `s` is gone from `t`, on another server, or bound later. */
  ghost predicate NoLater(s: System, t: System) {
    forall id :: id in s.archives ==>
      id in t.archives && t.archives[id].srv == s.archives[id].srv && t.archives[id].until <= s.archives[id].until
  }

  lemma DoNoLater(s: System, x: Step)
    requires Inv(s)
    ensures NoLater(s, Do(s, x))
  {
    hide Capped, Armed, Entering, Caught;
    if x.Register? && x.id in s.archives { EnteringKeeps(s.archives[x.id], s.closing, s.now); }
    if x.Touch? && x.id in s.archives { ArmedKeeps(s.archives[x.id], s.now); }
    if x.HookCap? && x.id in s.archives && s.lock.Held? && s.lock.srv in s.closing {
      CappedKeeps(s.archives[x.id], s.closing[s.lock.srv], s.now);
    }
  }

  /** Over any run, bounds never move later. */
  lemma {:induction false} BoundsNeverMoveLater(s: System, xs: seq<Step>)
    requires Inv(s)
    ensures NoLater(s, Run(s, xs))
  {
    if xs != [] {
      BoundsNeverMoveLater(s, xs[..|xs| - 1]);
      RunKeepsInv(s, xs[..|xs| - 1]);
      hide Inv, Do;
      DoNoLater(Run(s, xs[..|xs| - 1]), xs[|xs| - 1]);
    }
  }

  predicate IsHook(x: Step, srv: Server) { x.HookBegin? && x.srv == srv }

  /** Between hooks of a server its recorded cutoff stands. */
  lemma {:induction false} CutoffStands(s: System, srv: Server, xs: seq<Step>)
    requires srv in s.closing && forall i :: 0 <= i < |xs| ==> !IsHook(xs[i], srv)
    ensures srv in Run(s, xs).closing && Run(s, xs).closing[srv] == s.closing[srv]
  {
    if xs != [] {
      CutoffStands(s, srv, xs[..|xs| - 1]);
      assert !IsHook(xs[|xs| - 1], srv);
      hide Run;
    }
  }

  /** No hook of the server is at work. */
  predicate HookDone(s: System, srv: Server) { s.lock.Held? ==> s.lock.srv != srv }

  /**
   * In every interleaving, once a server's hook has run, every registered
   * request on it, whichever side of the hook it registered on, has its bound,
   * its build and its connection's deadline within the grace of that hook.
   */
  lemma HookCatchesAll(start: int, before: seq<Step>, srv: Server, grace: int, after: seq<Step>, id: nat)
    requires srv != NoServer && forall i :: 0 <= i < |after| ==> !IsHook(after[i], srv)
    requires Run(Initial(start), before).lock.Free?
    requires var s := Run(Do(Run(Initial(start), before), HookBegin(srv, grace)), after);
             HookDone(s, srv) && id in s.running && id in s.archives && s.archives[id].srv == srv
    ensures var s := Run(Do(Run(Initial(start), before), HookBegin(srv, grace)), after);
            && s.archives[id].until <= Run(Initial(start), before).now + grace
            && s.archives[id].timer <= Run(Initial(start), before).now + grace
            && s.archives[id].deadline <= Run(Initial(start), before).now + grace
  {
    var s0 := Run(Initial(start), before);
    var s1 := Do(s0, HookBegin(srv, grace));
    RunKeepsInv(Initial(start), before);
    DoKeepsInv(s0, HookBegin(srv, grace));
    RunKeepsInv(s1, after);
    CutoffStands(s1, srv, after);
    hide Run, OnServer;
    assert Caught(Run(s1, after), id);
  }

  lemma LeftAlone(s: System, x: Step, id: nat)
    requires id in s.archives && Inv(s) && s.archives[id].srv !in s.closing && !IsHook(x, s.archives[id].srv)
    ensures var t := Do(s, x);
            && id in t.archives && t.archives[id].srv == s.archives[id].srv
            && t.archives[id].srv !in t.closing && t.archives[id].until == s.archives[id].until
  {
    hide Capped, Caught, OnServer;
  }

  /** A request keeps its whole lifetime until its own server closes: hooks of other servers leave it alone. */
  lemma {:induction false} OthersAreLeftAlone(s: System, xs: seq<Step>, id: nat)
    requires id in s.archives && Inv(s) && s.archives[id].srv !in s.closing
    requires forall i :: 0 <= i < |xs| ==> !IsHook(xs[i], s.archives[id].srv)
    ensures var t := Run(s, xs);
            && id in t.archives && t.archives[id].srv == s.archives[id].srv
            && t.archives[id].srv !in t.closing && t.archives[id].until == s.archives[id].until
  {
    if xs != [] {
      OthersAreLeftAlone(s, xs[..|xs| - 1], id);
      RunKeepsInv(s, xs[..|xs| - 1]);
      assert !IsHook(xs[|xs| - 1], s.archives[id].srv);
      hide Do, Inv;
      LeftAlone(Run(s, xs[..|xs| - 1]), xs[|xs| - 1], id);
    }
  }
}
