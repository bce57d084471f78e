// The voice gate: a counter that rises on loud quanta and falls on others
// opens it, a run of quiet quanta closes it, and a new configuration opens it
// at once. Here is the gate as a value, and what it does over whole runs.
module VoiceGate {

  /** The gate's state and its two frame counts, which a configuration may set to any number. */
  datatype Gate = Gate(gated: bool, silent: nat, speech: nat, on: int, off: int)

  /** What one render quantum says: at the threshold and voiced, or under the close level or unvoiced. */
  datatype Quantum = Quantum(loud: bool, quiet: bool)

  datatype Message = Nothing | Closed | Opened

  /** One quantum past the start-up grace. */
  function Heard(g: Gate, q: Quantum): (Gate, Message) {
    if g.gated then
      var speech := if q.loud then g.speech + 1 else if g.speech > 0 then g.speech - 1 else 0;
      if speech >= g.off then (g.(gated := false, silent := 0, speech := 0), Opened)
      else (g.(speech := speech), Nothing)
    else if q.quiet then
      if g.silent + 1 >= g.on then (g.(gated := true, silent := 0, speech := 0), Closed)
      else (g.(silent := g.silent + 1), Nothing)
    else (g.(silent := 0), Nothing)
  }

  /** A new configuration restarts both counts and opens a closed gate. */
  function Configured(g: Gate, on: int, off: int): (Gate, Message) {
    (Gate(false, 0, 0, on, off), if g.gated then Opened else Nothing)
  }

  function All(g: Gate, qs: seq<Quantum>): Gate {
    if qs == [] then g else Heard(All(g, qs[..|qs| - 1]), qs[|qs| - 1]).0
  }

  // ----- When a closed gate opens

  /** Loud quanta minus the others. */
  function Net(qs: seq<Quantum>): int {
    if qs == [] then 0 else Net(qs[..|qs| - 1]) + if qs[|qs| - 1].loud then 1 else -1
  }

  /** The clipped counter. */
  function Clipped(qs: seq<Quantum>): nat {
    if qs == [] then 0
    else
      var before := Clipped(qs[..|qs| - 1]);
      if qs[|qs| - 1].loud then before + 1 else if before > 0 then before - 1 else 0
  }

  /** The clipped counter is the best net count of any window that ends now, the empty one included. */
  lemma {:induction false} ClippedIsBestWindow(qs: seq<Quantum>) returns (j: nat)
    ensures j <= |qs| && Clipped(qs) == Net(qs[j..])
    ensures forall i :: 0 <= i <= |qs| ==> Net(qs[i..]) <= Clipped(qs)
  {
    if qs == [] {
      j := 0;
    } else {
      var n := |qs| - 1;
      var front := qs[..n];
      j := ClippedIsBestWindow(front);
      forall i | 0 <= i <= |qs| ensures Net(qs[i..]) <= Clipped(qs) {
        if i <= n { NetSuffix(qs, i); } else { assert qs[i..] == []; }
      }
      if qs[n].loud || Clipped(front) > 0 {
        NetSuffix(qs, j);
      } else {
        j := |qs|;
        assert qs[j..] == [];
      }
    }
  }

  lemma NetSuffix(qs: seq<Quantum>, i: nat)
    requires i < |qs|
    ensures var n := |qs| - 1;
            Net(qs[i..]) == Net(qs[..n][i..]) + if qs[n].loud then 1 else -1
  {
    var n := |qs| - 1;
    assert qs[i..][..|qs[i..]| - 1] == qs[..n][i..];
  }

  /** Some window that ends with the last quantum reaches the count. */
  ghost predicate WindowReaches(qs: seq<Quantum>, off: int) {
    exists i :: 0 <= i <= |qs| && Net(qs[i..]) >= off
  }

  lemma ReachesIffClipped(qs: seq<Quantum>, off: int)
    ensures WindowReaches(qs, off) <==> Clipped(qs) >= off
  {
    var j := ClippedIsBestWindow(qs);
  }

  /** The gate just closed. */
  predicate JustClosed(g: Gate) { g.gated && g.speech == 0 && g.silent == 0 }

  /** No prefix of the quanta has a window, ending with its last quantum, that reaches the count. */
  ghost predicate NeverReached(qs: seq<Quantum>, off: int) {
    forall n :: 1 <= n <= |qs| ==> !WindowReaches(qs[..n], off)
  }

  lemma {:induction false} ClosedCounts(g: Gate, qs: seq<Quantum>)
    requires JustClosed(g) && NeverReached(qs, g.off)
    ensures All(g, qs) == g.(speech := Clipped(qs))
  {
    hide WindowReaches;
    if qs != [] {
      var n := |qs| - 1;
      forall m | 1 <= m <= n ensures !WindowReaches(qs[..n][..m], g.off) {
        assert qs[..n][..m] == qs[..m];
      }
      ClosedCounts(g, qs[..n]);
      assert qs[..|qs|] == qs;
      ReachesIffClipped(qs, g.off);
    }
  }

  /**
   * A closed gate opens exactly at the first quantum that ends a window, since
   * closing, in which loud quanta outnumber the others by the count.
   */
  lemma OpensExactly(g: Gate, qs: seq<Quantum>)
    requires JustClosed(g) && qs != [] && NeverReached(qs[..|qs| - 1], g.off)
    ensures Heard(All(g, qs[..|qs| - 1]), qs[|qs| - 1]).1 == Opened <==> WindowReaches(qs, g.off)
    ensures WindowReaches(qs, g.off) ==> All(g, qs) == g.(gated := false)
    ensures All(g, qs[..|qs| - 1]).gated
  {
    ClosedCounts(g, qs[..|qs| - 1]);
    ReachesIffClipped(qs, g.off);
    hide WindowReaches, NeverReached;
  }

  // ----- When an open gate closes

  /** How many of the latest quanta are quiet without a break. */
  function QuietRun(qs: seq<Quantum>): nat {
    if qs == [] || !qs[|qs| - 1].quiet then 0 else QuietRun(qs[..|qs| - 1]) + 1
  }

  lemma {:induction false} QuietRunIs(qs: seq<Quantum>, k: nat)
    requires k <= |qs|
    ensures k <= QuietRun(qs) <==> forall i :: |qs| - k <= i < |qs| ==> qs[i].quiet
    decreases |qs|
  {
    if k > 0 {
      var n := |qs| - 1;
      QuietRunIs(qs[..n], k - 1);
      assert forall i :: 0 <= i < n ==> qs[..n][i] == qs[i];
      assert qs[n].quiet || !(forall i :: |qs| - k <= i < |qs| ==> qs[i].quiet);
    }
  }

  predicate JustOpened(g: Gate) { !g.gated && g.silent == 0 && g.speech == 0 }

  /** The last quantum is quiet, and completes a quiet run as long as the count. */
  predicate RunReaches(qs: seq<Quantum>, on: int) { QuietRun(qs) >= 1 && QuietRun(qs) >= on }

  ghost predicate NeverQuiet(qs: seq<Quantum>, on: int) {
    forall n :: 0 <= n <= |qs| ==> !RunReaches(qs[..n], on)
  }

  lemma {:induction false} OpenCounts(g: Gate, qs: seq<Quantum>)
    requires JustOpened(g) && NeverQuiet(qs, g.on)
    ensures All(g, qs) == g.(silent := QuietRun(qs))
  {
    if qs != [] {
      var n := |qs| - 1;
      forall m | 0 <= m <= n ensures !RunReaches(qs[..n][..m], g.on) {
        assert qs[..n][..m] == qs[..m];
      }
      OpenCounts(g, qs[..n]);
      assert qs[..|qs|] == qs;
    }
  }

  /** An open gate closes exactly when the quiet quanta without a break reach the count. */
  lemma ClosesExactly(g: Gate, qs: seq<Quantum>)
    requires JustOpened(g) && qs != [] && NeverQuiet(qs[..|qs| - 1], g.on)
    ensures Heard(All(g, qs[..|qs| - 1]), qs[|qs| - 1]).1 == Closed <==> RunReaches(qs, g.on)
    ensures RunReaches(qs, g.on) ==> All(g, qs) == g.(gated := true)
    ensures !All(g, qs[..|qs| - 1]).gated
  {
    OpenCounts(g, qs[..|qs| - 1]);
    hide NeverQuiet;
  }

  // ----- Whole runs

  datatype Input = Hear(q: Quantum) | Configure(on: int, off: int)

  /** A run: the gate, every gate message in order, and what caused them. */
  datatype Run = Run(gate: Gate, messages: seq<Message>, closings: nat, openings: nat, quanta: nat)

  function Begin(on: int, off: int): Run { Run(Gate(false, 0, 0, on, off), [], 0, 0, 0) }

  function Post(ms: seq<Message>, m: Message): seq<Message> { if m == Nothing then ms else ms + [m] }

  function Step(r: Run, x: Input): Run {
    match x
    case Hear(q) =>
      var (g, m) := Heard(r.gate, q);
      Run(g, Post(r.messages, m), r.closings + (if m == Closed then 1 else 0),
          r.openings + (if m == Opened then 1 else 0), r.quanta + 1)
    case Configure(on, off) =>
      var (g, m) := Configured(r.gate, on, off);
      r.(gate := g, messages := Post(r.messages, m))
  }

  function Replay(on: int, off: int, xs: seq<Input>): Run {
    if xs == [] then Begin(on, off) else Step(Replay(on, off, xs[..|xs| - 1]), xs[|xs| - 1])
  }

  lemma ReplayPush(on: int, off: int, xs: seq<Input>, x: Input)
    ensures Replay(on, off, xs + [x]) == Step(Replay(on, off, xs), x)
  {
    hide Step;
    assert (xs + [x])[..|xs|] == xs;
  }

  /** Messages strictly alternate, starting with a closing, and the last one says how the gate stands. */
  ghost predicate Alternates(r: Run) {
    && (forall i :: 0 <= i < |r.messages| ==> r.messages[i] == if i % 2 == 0 then Closed else Opened)
    && r.gate.gated == (|r.messages| % 2 == 1)
    && 2 * r.closings == |r.messages| + if r.gate.gated then 1 else 0
  }

  lemma {:induction false} MessagesAlternate(on: int, off: int, xs: seq<Input>)
    ensures Alternates(Replay(on, off, xs))
  {
    if xs != [] {
      MessagesAlternate(on, off, xs[..|xs| - 1]);
      hide Heard;
      var r := Replay(on, off, xs[..|xs| - 1]);
      if xs[|xs| - 1].Hear? { HeardFlips(r.gate, xs[|xs| - 1].q); }
    }
  }

  lemma HeardFlips(g: Gate, q: Quantum)
    ensures var (h, m) := Heard(g, q);
            m == if h.gated == g.gated then Nothing else if h.gated then Closed else Opened
  {
  }

  /** Whatever the counts, no quantum and no configuration sends more than one message. */
  lemma {:induction false} MessagesAtMostInputs(on: int, off: int, xs: seq<Input>)
    ensures |Replay(on, off, xs).messages| <= |xs|
  {
    if xs != [] {
      MessagesAtMostInputs(on, off, xs[..|xs| - 1]);
      hide Heard;
    }
  }

  /** A closing count of at least a and an opening count of at least b; b of zero asks nothing. */
  predicate AtLeast(on: int, off: int, a: nat, b: nat) { on >= a && (b > 0 ==> off >= b) }

  /** The counts in force never fall below a and b. */
  ghost predicate CountsAtLeast(on: int, off: int, xs: seq<Input>, a: nat, b: nat) {
    AtLeast(on, off, a, b) && forall i :: 0 <= i < |xs| && xs[i].Configure? ==> AtLeast(xs[i].on, xs[i].off, a, b)
  }

  /** Every closing has used up `a` quanta, every opening by voice `b`, and the running count some more. */
  ghost predicate Paid(r: Run, a: nat, b: nat) {
    && AtLeast(r.gate.on, r.gate.off, a, b)
    && a * r.closings + b * r.openings + (if r.gate.gated then r.gate.speech else r.gate.silent) <= r.quanta
  }

  lemma OneMore(a: nat, n: nat)
    ensures a * (n + 1) == a * n + a
  {
  }

  lemma StepPaid(r: Run, x: Input, a: nat, b: nat)
    requires Paid(r, a, b) && (x.Configure? ==> AtLeast(x.on, x.off, a, b))
    ensures Paid(Step(r, x), a, b)
  {
    OneMore(a, r.closings);
    OneMore(b, r.openings);
  }

  lemma {:induction false} EveryChangeIsPaid(on: int, off: int, xs: seq<Input>, a: nat, b: nat)
    requires CountsAtLeast(on, off, xs, a, b)
    ensures Paid(Replay(on, off, xs), a, b)
  {
    if xs == [] {
      assert a * 0 == 0 && b * 0 == 0;
    } else {
      hide Step;
      var n := |xs| - 1;
      assert forall i :: 0 <= i < n ==> xs[..n][i] == xs[i];
      EveryChangeIsPaid(on, off, xs[..n], a, b);
      StepPaid(Replay(on, off, xs[..n]), xs[n], a, b);
    }
  }

  /**
   * With closing counts of at least a and any opening counts, n quanta make the
   * gate change at most 2n/a times, however often it is configured.
   */
  lemma MessagesAreFew(on: int, off: int, xs: seq<Input>, a: nat)
    requires CountsAtLeast(on, off, xs, a, 0)
    ensures var r := Replay(on, off, xs); a * |r.messages| <= 2 * r.quanta
  {
    var r := Replay(on, off, xs);
    EveryChangeIsPaid(on, off, xs, a, 0);
    MessagesAlternate(on, off, xs);
    hide Replay;
    TwiceClosings(a, r.closings, |r.messages|);
  }

  lemma TwiceClosings(a: nat, closings: nat, messages: nat)
    requires messages <= 2 * closings
    ensures a * messages <= 2 * (a * closings)
  {
    var d := 2 * closings - messages;
    assert a * messages + a * d == a * (2 * closings);
    assert a * d >= 0;
  }
}
