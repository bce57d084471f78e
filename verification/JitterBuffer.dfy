// The app-audio jitter buffer: interleaved stereo chunks in a list with a read
// offset into the oldest, and the queue of frames it stands for. Playback
// waits for a target, runs dry into silence, and is cut back when it lags.
module JitterBuffer {
  import opened Subsequence

  const TRIM_AFTER: nat := 48000

  datatype Frame = Frame(left: real, right: real)

  // ----- The queue of frames

  /** What the buffer stands for: queued frames, whether it plays, and how long it has lagged. */
  datatype Queue = Queue(frames: seq<Frame>, primed: bool, high: nat)

  datatype Pulled = Silence | Audio(frames: seq<Frame>)

  function Oldest(s: seq<Frame>, cap: nat): nat { if |s| <= cap then 0 else |s| - cap }

  /** Queues frames; past the cap the oldest go. */
  function Pushed(q: Queue, fs: seq<Frame>, cap: nat): Queue {
    if fs == [] then q else q.(frames := (q.frames + fs)[Oldest(q.frames + fs, cap)..])
  }

  /** Takes the next frames, or nothing while filling; a lag that lasts is cut back to the target. */
  function Pull(q: Queue, need: nat, target: nat): (Queue, Pulled) {
    if !q.primed && |q.frames| < target then (q.(high := 0), Silence)
    else if |q.frames| < need then (q.(primed := false), Silence)
    else
      var rest := q.frames[need..];
      (Rested(rest, q.high + need, target), Audio(q.frames[..need]))
  }

  /** The queue after frames were played with `high` frames of lag behind it. */
  function Rested(rest: seq<Frame>, high: nat, target: nat): Queue {
    if |rest| <= 2 * target then Queue(rest, true, 0)
    else if high < TRIM_AFTER then Queue(rest, true, high)
    else Queue(rest[|rest| - target..], true, 0)
  }

  // ----- Whole runs

  datatype Op = Push(frames: seq<Frame>) | PullOp(need: nat)

  /** A frame that left the queue, and whether it was played. */
  datatype Gone = Gone(frame: Frame, played: bool)

  datatype Run = Run(q: Queue, pushed: seq<Frame>, gone: seq<Gone>)

  function Mark(fs: seq<Frame>, played: bool): (g: seq<Gone>)
    ensures |g| == |fs| && forall i :: 0 <= i < |fs| ==> g[i] == Gone(fs[i], played)
  {
    seq(|fs|, i requires 0 <= i < |fs| => Gone(fs[i], played))
  }

  function Step(r: Run, op: Op, target: nat, cap: nat): Run {
    match op
    case Push(fs) =>
      var all := r.q.frames + fs;
      Run(Pushed(r.q, fs, cap), r.pushed + fs,
          r.gone + if fs == [] then [] else Mark(all[..Oldest(all, cap)], false))
    case PullOp(need) =>
      var (q, out) := Pull(r.q, need, target);
      match out
      case Silence => r.(q := q)
      case Audio(fs) =>
        var rest := r.q.frames[need..];
        Run(q, r.pushed, r.gone + Mark(fs, true) + Mark(rest[..|rest| - |q.frames|], false))
  }

  function Replay(ops: seq<Op>, target: nat, cap: nat): Run {
    if ops == [] then Run(Queue([], false, 0), [], [])
    else Step(Replay(ops[..|ops| - 1], target, cap), ops[|ops| - 1], target, cap)
  }

  function FramesOf(g: seq<Gone>): (fs: seq<Frame>)
    ensures |fs| == |g| && forall i :: 0 <= i < |g| ==> fs[i] == g[i].frame
  {
    seq(|g|, i requires 0 <= i < |g| => g[i].frame)
  }

  function Played(g: seq<Gone>): seq<Frame> {
    if g == [] then []
    else if g[|g| - 1].played then Played(g[..|g| - 1]) + [g[|g| - 1].frame]
    else Played(g[..|g| - 1])
  }

  function Dropped(g: seq<Gone>): seq<Frame> {
    if g == [] then []
    else if g[|g| - 1].played then Dropped(g[..|g| - 1])
    else Dropped(g[..|g| - 1]) + [g[|g| - 1].frame]
  }

  /** Frames leave from the front only: what was pushed is what left, in order, then what is queued. */
  ghost predicate Conserves(r: Run) { r.pushed == FramesOf(r.gone) + r.q.frames }

  lemma FramesOfConcat(a: seq<Gone>, b: seq<Gone>)
    ensures FramesOf(a + b) == FramesOf(a) + FramesOf(b)
  {
  }

  lemma FramesOfMark(fs: seq<Frame>, played: bool)
    ensures FramesOf(Mark(fs, played)) == fs
  {
  }

  lemma PushConserves(r: Run, fs: seq<Frame>, target: nat, cap: nat)
    requires Conserves(r)
    ensures Conserves(Step(r, Push(fs), target, cap))
  {
    hide FramesOf, Mark;
    if fs == [] {
      assert r.gone + [] == r.gone && r.pushed + [] == r.pushed;
    } else {
      var all := r.q.frames + fs;
      var k := Oldest(all, cap);
      FramesOfConcat(r.gone, Mark(all[..k], false));
      FramesOfMark(all[..k], false);
      assert all == all[..k] + all[k..];
      assert FramesOf(r.gone) + r.q.frames + fs == FramesOf(r.gone) + (all[..k] + all[k..]);
    }
  }

  lemma PullConserves(r: Run, need: nat, target: nat, cap: nat)
    requires Conserves(r)
    ensures Conserves(Step(r, PullOp(need), target, cap))
  {
    hide FramesOf, Mark, Rested;
    var (q, out) := Pull(r.q, need, target);
    if out.Audio? {
      var fs, rest := out.frames, r.q.frames[need..];
      RestedSuffix(rest, r.q.high + need, target);
      var k := |rest| - |q.frames|;
      var a, b := Mark(fs, true), Mark(rest[..k], false);
      FramesOfConcat(r.gone + a, b);
      FramesOfConcat(r.gone, a);
      FramesOfMark(fs, true);
      FramesOfMark(rest[..k], false);
      CutInThree(r.q.frames, need, k);
    }
  }

  lemma CutInThree(s: seq<Frame>, need: nat, k: nat)
    requires need + k <= |s|
    ensures forall p: seq<Frame> :: p + s == p + s[..need] + s[need..][..k] + s[need..][k..]
  {
    assert s == s[..need] + s[need..] && s[need..] == s[need..][..k] + s[need..][k..];
    forall p: seq<Frame> ensures p + s == p + s[..need] + s[need..][..k] + s[need..][k..] {
      assert p + (s[..need] + (s[need..][..k] + s[need..][k..])) == p + s[..need] + s[need..][..k] + s[need..][k..];
    }
  }

  lemma StepConserves(r: Run, op: Op, target: nat, cap: nat)
    requires Conserves(r)
    ensures Conserves(Step(r, op, target, cap))
  {
    hide Step, Conserves;
    match op {
      case Push(fs) => PushConserves(r, fs, target, cap);
      case PullOp(need) => PullConserves(r, need, target, cap);
    }
  }

  lemma RestedSuffix(rest: seq<Frame>, high: nat, target: nat)
    ensures var q := Rested(rest, high, target);
            |q.frames| <= |rest| && q.frames == rest[|rest| - |q.frames|..]
  {
  }

  lemma FramesOfLast(g: seq<Gone>)
    requires g != []
    ensures FramesOf(g) == FramesOf(g[..|g| - 1]) + [g[|g| - 1].frame]
  {
  }

  lemma {:induction false} PlayedInOrder(g: seq<Gone>)
    ensures Sub(Played(g), FramesOf(g)) && Sub(Dropped(g), FramesOf(g))
    ensures |Played(g)| + |Dropped(g)| == |g|
  {
    hide Sub;
    if g == [] {
      SubSelf<Frame>([]);
      assert FramesOf(g) == [];
    } else {
      var n := |g| - 1;
      PlayedInOrder(g[..n]);
      FramesOfLast(g);
      hide FramesOf;
      SubTake(Played(g[..n]), FramesOf(g[..n]), g[n].frame);
      SubSkip(Played(g[..n]), FramesOf(g[..n]), g[n].frame);
      SubTake(Dropped(g[..n]), FramesOf(g[..n]), g[n].frame);
      SubSkip(Dropped(g[..n]), FramesOf(g[..n]), g[n].frame);
    }
  }

  /** Lag is only counted while more than twice the target is queued, and is always cut in time. */
  ghost predicate LagBounded(q: Queue, target: nat, cap: nat) {
    && |q.frames| <= cap
    && (q.high > 0 ==> |q.frames| > 2 * target)
    && q.high < TRIM_AFTER
  }

  lemma StepLagBounded(r: Run, op: Op, target: nat, cap: nat)
    requires LagBounded(r.q, target, cap)
    ensures LagBounded(Step(r, op, target, cap).q, target, cap)
  {
    hide Mark;
  }

  /**
   * In every run: every frame pushed was played, was dropped or is queued;
   * frames leave from the front, so only the oldest are dropped and what is
   * played is in the order pushed, each frame once; and at most `cap` wait.
   */
  lemma {:induction false} RunConserves(ops: seq<Op>, target: nat, cap: nat)
    ensures var r := Replay(ops, target, cap);
            && Conserves(r)
            && LagBounded(r.q, target, cap)
            && |r.pushed| == |Played(r.gone)| + |Dropped(r.gone)| + |r.q.frames|
            && Sub(Played(r.gone), r.pushed)
  {
    hide FramesOf, Played, Dropped, Sub, Step;
    var r := Replay(ops, target, cap);
    if ops == [] {
      NoFrames();
    } else {
      var before := Replay(ops[..|ops| - 1], target, cap);
      RunConserves(ops[..|ops| - 1], target, cap);
      StepConserves(before, ops[|ops| - 1], target, cap);
      StepLagBounded(before, ops[|ops| - 1], target, cap);
    }
    PlayedInOrder(r.gone);
    NothingQueued(r.gone, r.q.frames);
  }

  lemma NoFrames()
    ensures FramesOf([]) == []
  {
  }

  lemma NothingQueued(g: seq<Gone>, queued: seq<Frame>)
    requires Sub(Played(g), FramesOf(g))
    ensures Sub(Played(g), FramesOf(g) + queued) && |FramesOf(g)| == |g|
  {
    hide Sub, Played;
    assert Sub<Frame>([], queued) by { NothingSub(queued); }
    SubConcat(Played(g), FramesOf(g), [], queued);
    assert Played(g) + [] == Played(g);
  }

  lemma NothingSub(h: seq<Frame>)
    ensures Sub<Frame>([], h)
  {
  }

  // ----- How long a lag can last

  /** A pull that plays, and leaves more than twice the target, without a cut. */
  predicate Lags(q: Queue, need: nat, target: nat) {
    var (after, out) := Pull(q, need, target);
    out.Audio? && |q.frames| - need > 2 * target && |after.frames| == |q.frames| - need
  }

  // ----- Filling and running dry

  function After(r: Run, ops: seq<Op>, target: nat, cap: nat): Run {
    if ops == [] then r else Step(After(r, ops[..|ops| - 1], target, cap), ops[|ops| - 1], target, cap)
  }

  function AllPushed(ops: seq<Op>): seq<Frame> {
    if ops == [] then []
    else AllPushed(ops[..|ops| - 1]) + if ops[|ops| - 1].Push? then ops[|ops| - 1].frames else []
  }

  lemma StillFilling(r: Run, op: Op, target: nat, cap: nat)
    requires !r.q.primed && target <= cap
    requires |r.q.frames| + (if op.Push? then |op.frames| else 0) < target
    ensures var t := Step(r, op, target, cap);
            && !t.q.primed && t.gone == r.gone
            && t.q.frames == r.q.frames + if op.Push? then op.frames else []
  {
    hide Mark;
    if op.Push? && op.frames != [] { assert Mark((r.q.frames + op.frames)[..0], false) == []; }
  }

  /** While filling, no pull plays or drops anything before the target is queued. */
  lemma {:induction false} SilentWhileFilling(r: Run, ops: seq<Op>, target: nat, cap: nat)
    requires !r.q.primed && |r.q.frames| + |AllPushed(ops)| < target <= cap
    ensures var t := After(r, ops, target, cap);
            !t.q.primed && t.gone == r.gone && t.q.frames == r.q.frames + AllPushed(ops)
  {
    if ops != [] {
      hide Step;
      var n := |ops| - 1;
      var fs := if ops[n].Push? then ops[n].frames else [];
      SilentWhileFilling(r, ops[..n], target, cap);
      JoinFrames(r.q.frames, AllPushed(ops[..n]), fs);
      StillFilling(After(r, ops[..n], target, cap), ops[n], target, cap);
    }
  }

  lemma JoinFrames(a: seq<Frame>, b: seq<Frame>, c: seq<Frame>)
    ensures a + b + c == a + (b + c)
  {
  }

  /** A buffer that runs dry is silent, however often it is pulled, until the target is queued again. */
  lemma UnderrunWaitsForTarget(r: Run, need: nat, ops: seq<Op>, target: nat, cap: nat)
    requires |r.q.frames| < need && |r.q.frames| + |AllPushed(ops)| < target <= cap
    ensures var t := After(Step(r, PullOp(need), target, cap), ops, target, cap);
            !t.q.primed && t.gone == r.gone && t.q.frames == r.q.frames + AllPushed(ops)
  {
    SilentWhileFilling(Step(r, PullOp(need), target, cap), ops, target, cap);
    hide After, AllPushed;
  }

  /** Every pull of the run lags; frames may be pushed between them. */
  ghost predicate AllLag(q: Queue, ops: seq<Op>, target: nat, cap: nat)
    decreases |ops|
  {
    ops == [] ||
    match ops[0]
    case Push(fs) => AllLag(Pushed(q, fs, cap), ops[1..], target, cap)
    case PullOp(need) => Lags(q, need, target) && AllLag(Pull(q, need, target).0, ops[1..], target, cap)
  }

  function PulledFrames(ops: seq<Op>): nat {
    if ops == [] then 0 else (if ops[0].PullOp? then ops[0].need else 0) + PulledFrames(ops[1..])
  }

  /** No streak of lagging pulls plays a second of audio. */
  lemma {:induction false} LagIsCutInTime(q: Queue, ops: seq<Op>, target: nat, cap: nat)
    requires q.high < TRIM_AFTER && AllLag(q, ops, target, cap)
    ensures q.high + PulledFrames(ops) < TRIM_AFTER
    decreases |ops|
  {
    if ops != [] {
      match ops[0] {
        case Push(fs) =>
          LagIsCutInTime(Pushed(q, fs, cap), ops[1..], target, cap);
        case PullOp(need) =>
          LagCounts(q, need, target);
          LagIsCutInTime(Pull(q, need, target).0, ops[1..], target, cap);
      }
    }
  }

  lemma LagCounts(q: Queue, need: nat, target: nat)
    requires Lags(q, need, target)
    ensures Pull(q, need, target).0.high == q.high + need < TRIM_AFTER
  {
  }

  /** The pull that ends such a streak leaves exactly the target. */
  lemma CutLeavesTheTarget(q: Queue, need: nat, target: nat)
    requires (q.primed || |q.frames| >= target) && |q.frames| - need > 2 * target && q.high + need >= TRIM_AFTER
    ensures var (after, out) := Pull(q, need, target);
            out == Audio(q.frames[..need]) && after == Queue(q.frames[|q.frames| - target..], true, 0)
  {
    var rest := q.frames[need..];
    assert rest[|rest| - target..] == q.frames[|q.frames| - target..];
  }

  // ----- The buffer itself

  /** The frames of a chunk from a sample offset on. */
  function ChunkFrames(chunk: seq<real>, offset: nat): (fs: seq<Frame>)
    requires offset <= |chunk| && (|chunk| - offset) % 2 == 0
    ensures |fs| == (|chunk| - offset) / 2
  {
    seq((|chunk| - offset) / 2, i requires 0 <= i < (|chunk| - offset) / 2 =>
      Frame(chunk[offset + 2 * i], chunk[offset + 2 * i + 1]))
  }

  predicate Stereo(chunks: seq<seq<real>>) {
    forall i :: 0 <= i < |chunks| ==> chunks[i] != [] && |chunks[i]| % 2 == 0
  }

  /** The read offset is inside the oldest chunk, at a frame. */
  predicate Placed(chunks: seq<seq<real>>, offset: nat) {
    if chunks == [] then offset == 0 else offset < |chunks[0]| && offset % 2 == 0
  }

  function Whole(chunks: seq<seq<real>>): seq<Frame>
    requires Stereo(chunks)
  {
    if chunks == [] then [] else ChunkFrames(chunks[0], 0) + Whole(chunks[1..])
  }

  /** The frames still to be read. */
  function Queued(chunks: seq<seq<real>>, offset: nat): seq<Frame>
    requires Stereo(chunks) && Placed(chunks, offset)
  {
    if chunks == [] then [] else ChunkFrames(chunks[0], offset) + Whole(chunks[1..])
  }

  lemma {:induction false} WholeAppend(chunks: seq<seq<real>>, c: seq<real>)
    requires Stereo(chunks) && c != [] && |c| % 2 == 0
    ensures Stereo(chunks + [c]) && Whole(chunks + [c]) == Whole(chunks) + ChunkFrames(c, 0)
  {
    hide ChunkFrames;
    if chunks == [] {
      assert chunks + [c] == [c] && [c][1..] == [];
      assert Whole([c]) == ChunkFrames(c, 0) + [];
      assert [] + ChunkFrames(c, 0) == ChunkFrames(c, 0) + [];
    } else {
      assert (chunks + [c])[1..] == chunks[1..] + [c];
      WholeAppend(chunks[1..], c);
      assert (chunks + [c])[0] == chunks[0];
      assert ChunkFrames(chunks[0], 0) + (Whole(chunks[1..]) + ChunkFrames(c, 0)) == Whole(chunks) + ChunkFrames(c, 0);
    }
  }

  lemma QueuedAppend(chunks: seq<seq<real>>, offset: nat, c: seq<real>)
    requires Stereo(chunks) && Placed(chunks, offset) && c != [] && |c| % 2 == 0
    ensures Stereo(chunks + [c]) && Placed(chunks + [c], offset)
    ensures Queued(chunks + [c], offset) == Queued(chunks, offset) + ChunkFrames(c, 0)
  {
    hide ChunkFrames, Whole;
    if chunks == [] {
      assert chunks + [c] == [c] && [c][1..] == [];
      WholeNothing();
    } else {
      assert (chunks + [c])[1..] == chunks[1..] + [c];
      WholeAppend(chunks[1..], c);
    }
  }

  lemma WholeNothing()
    ensures Whole([]) == []
  {
  }

  /** Moving the read offset on inside the oldest chunk. */
  lemma QueuedAdvance(chunks: seq<seq<real>>, offset: nat, n: nat)
    requires Stereo(chunks) && Placed(chunks, offset) && chunks != [] && offset + 2 * n < |chunks[0]|
    ensures n <= |Queued(chunks, offset)| && Placed(chunks, offset + 2 * n)
    ensures Queued(chunks, offset + 2 * n) == Queued(chunks, offset)[n..]
  {
    hide Whole, ChunkFrames;
    var c := chunks[0];
    var fs, rest := ChunkFrames(c, offset), Whole(chunks[1..]);
    assert n < |fs|;
    ChunkAdvance(c, offset, n);
    assert (fs + rest)[n..] == fs[n..] + rest;
  }

  lemma ChunkAdvance(c: seq<real>, offset: nat, n: nat)
    requires |c| % 2 == 0 && offset % 2 == 0 && offset + 2 * n < |c|
    ensures n <= |ChunkFrames(c, offset)| && ChunkFrames(c, offset + 2 * n) == ChunkFrames(c, offset)[n..]
  {
    hide ChunkFrames;
    var a, b := ChunkFrames(c, offset), ChunkFrames(c, offset + 2 * n);
    HalfLess(|c| - offset, n);
    forall i | 0 <= i < |b| ensures b[i] == a[n + i] {
      FrameAt(c, offset + 2 * n, i, offset + 2 * n + 2 * i);
      FrameAt(c, offset, n + i, offset + 2 * n + 2 * i);
    }
  }

  lemma HalfLess(size: nat, n: nat)
    requires size % 2 == 0 && 2 * n <= size
    ensures (size - 2 * n) % 2 == 0 && (size - 2 * n) / 2 == size / 2 - n
  {
  }

  lemma FrameAt(c: seq<real>, offset: nat, i: nat, at: nat)
    requires offset <= |c| && (|c| - offset) % 2 == 0 && at == offset + 2 * i && at + 1 < |c|
    ensures i < |ChunkFrames(c, offset)| && ChunkFrames(c, offset)[i] == Frame(c[at], c[at + 1])
  {
  }

  /** Reading the oldest chunk to its end. */
  lemma QueuedShift(chunks: seq<seq<real>>, offset: nat, n: nat)
    requires Stereo(chunks) && Placed(chunks, offset) && chunks != [] && offset + 2 * n == |chunks[0]|
    ensures Stereo(chunks[1..]) && Placed(chunks[1..], 0) && n <= |Queued(chunks, offset)|
    ensures Queued(chunks[1..], 0) == Queued(chunks, offset)[n..]
  {
    hide ChunkFrames;
    var fs, rest := ChunkFrames(chunks[0], offset), Whole(chunks[1..]);
    assert |fs| == n;
    assert (fs + rest)[n..] == rest;
  }

  class AppAudioJitterBuffer {
    const target: nat
    const cap: nat
    var chunks: seq<seq<real>>
    var offset: nat
    var frames: nat
    var primed: bool
    var high: nat

    ghost predicate Valid()
      reads this
    {
      Stereo(chunks) && Placed(chunks, offset) && frames == |Queued(chunks, offset)|
    }

    /** The queue the buffer stands for. */
    ghost function Abstract(): Queue
      requires Valid()
      reads this
    {
      Queue(Queued(chunks, offset), primed, high)
    }

    constructor (target: nat, cap: nat)
      ensures Valid() && Abstract() == Queue([], false, 0) && this.target == target && this.cap == cap
    {
      this.target, this.cap := target, cap;
      chunks, offset, frames, primed, high := [], 0, 0, false, 0;
    }

    /** Reads n frames off the oldest chunk. */
    method Advance(n: nat)
      requires Valid() && chunks != [] && n <= (|chunks[0]| - offset) / 2
      modifies this`chunks, this`offset, this`frames
      ensures Valid() && frames == old(frames) - n && n <= |old(Abstract()).frames|
      ensures Abstract().frames == old(Abstract()).frames[n..]
      ensures 2 * n < |old(chunks)[0]| - old(offset) ==> chunks == old(chunks)
      ensures 2 * n == |old(chunks)[0]| - old(offset) ==> chunks == old(chunks)[1..]
    {
      hide Queued, ChunkFrames, Stereo;
      QueuedLength(chunks, offset);
      if 2 * n == |chunks[0]| - offset {
        QueuedShift(chunks, offset, n);
        chunks, offset := chunks[1..], 0;
      } else {
        QueuedAdvance(chunks, offset, n);
        offset := offset + 2 * n;
      }
      frames := frames - n;
    }

    /** Drops the `excess` oldest frames. */
    method Drop(excess: int)
      requires Valid() && excess <= frames
      modifies this`chunks, this`offset, this`frames
      ensures Valid()
      ensures Abstract().frames == old(Abstract()).frames[if excess < 0 then 0 else excess..]
    {
      hide Queued, ChunkFrames, Stereo, Placed;
      var left := excess;
      ghost var gone := 0;
      ghost var was := Abstract().frames;
      assert was[0..] == was;
      while left > 0 && |chunks| > 0
        invariant Valid() && 0 <= gone <= |was| && Abstract().frames == was[gone..]
        invariant left == excess - gone && (excess < 0 ==> gone == 0) && (excess >= 0 ==> left >= 0)
        decreases left
      {
        HeadFrames(chunks, offset);
        var headFrames := (|chunks[0]| - offset) / 2;
        var n := if headFrames <= left then headFrames else left;
        Advance(n);
        assert was[gone..][n..] == was[gone + n..];
        gone := gone + n;
        left := left - n;
      }
      if left > 0 { QueuedNothing(chunks, offset); }
    }

    /** Queues interleaved stereo samples; past the cap the oldest audio is dropped. */
    method Push(samples: seq<real>)
      requires Valid() && |samples| % 2 == 0
      modifies this`chunks, this`offset, this`frames
      ensures Valid() && Abstract() == Pushed(old(Abstract()), ChunkFrames(samples, 0), cap)
    {
      hide Queued, ChunkFrames, Stereo, Placed;
      if |samples| / 2 == 0 { return; }
      QueuedAppend(chunks, offset, samples);
      chunks := chunks + [samples];
      frames := frames + |samples| / 2;
      assert Abstract().frames == old(Abstract()).frames + ChunkFrames(samples, 0);
      Drop(frames - cap);
    }

    /** Copies `take` frames of the oldest chunk into the outputs from `written` on. */
    method CopyHead(left: array<real>, right: array<real>, written: nat, take: nat)
      requires Valid() && chunks != [] && take <= (|chunks[0]| - offset) / 2
      requires left != right && left.Length == right.Length && written + take <= left.Length
      modifies left, right
      ensures take <= |Queued(chunks, offset)|
      ensures forall i :: 0 <= i < take ==> Frame(left[written + i], right[written + i]) == Queued(chunks, offset)[i]
      ensures forall i :: 0 <= i < written ==> left[i] == old(left[i]) && right[i] == old(right[i])
    {
      hide Queued, Stereo, Placed;
      var head := chunks[0];
      QueuedLength(chunks, offset);
      HeadFrames(chunks, offset);
      ghost var fs := Queued(chunks, offset);
      for i := 0 to take
        invariant forall j :: 0 <= j < i ==> Frame(left[written + j], right[written + j]) == fs[j]
        invariant forall j :: 0 <= j < written ==> left[j] == old(left[j]) && right[j] == old(right[j])
      {
        HeadFrame(chunks, offset, i);
        left[written + i] := head[offset + i * 2];
        right[written + i] := head[offset + i * 2 + 1];
      }
    }

    /** Plays frames of the queue into the outputs. */
    method Play(left: array<real>, right: array<real>)
      requires Valid() && left != right && left.Length == right.Length <= frames
      modifies left, right, this`chunks, this`offset, this`frames
      ensures Valid() && Abstract().frames == old(Abstract()).frames[left.Length..]
      ensures forall i :: 0 <= i < left.Length ==> Frame(left[i], right[i]) == old(Abstract()).frames[i]
    {
      hide Queued, ChunkFrames, Stereo, Placed;
      var need := left.Length;
      ghost var was := Abstract().frames;
      var written := 0;
      assert was[0..] == was;
      while written < need
        invariant Valid() && written <= need <= |was| && Abstract().frames == was[written..]
        invariant forall i :: 0 <= i < written ==> Frame(left[i], right[i]) == was[i]
        decreases need - written
      {
        if chunks == [] { QueuedNothing(chunks, offset); }
        HeadFrames(chunks, offset);
        var available := (|chunks[0]| - offset) / 2;
        var take := if available < need - written then available else need - written;
        ghost var before := Abstract().frames;
        CopyHead(left, right, written, take);
        assert forall i :: 0 <= i < take ==> before[i] == was[written + i];
        forall i | written <= i < written + take ensures Frame(left[i], right[i]) == was[i] {
          assert Frame(left[written + (i - written)], right[written + (i - written)]) == before[i - written];
        }
        Advance(take);
        assert was[written..][take..] == was[written + take..];
        written := written + take;
      }
    }

    method Silence(left: array<real>, right: array<real>)
      requires left != right && left.Length == right.Length
      modifies left, right
      ensures forall i :: 0 <= i < left.Length ==> left[i] == 0.0 && right[i] == 0.0
    {
      for i := 0 to left.Length
        invariant forall j :: 0 <= j < i ==> left[j] == 0.0 && right[j] == 0.0
      {
        left[i] := 0.0;
        right[i] := 0.0;
      }
    }

    /** Fills the outputs with the next frames, or with silence while the buffer fills. */
    method PullInto(left: array<real>, right: array<real>) returns (playing: bool)
      requires Valid() && left != right && left.Length == right.Length
      modifies this, left, right
      ensures Valid()
      ensures var (q, out) := Pull(old(Abstract()), left.Length, target);
              && Abstract() == q && playing == out.Audio?
              && (playing ==>
                  && |out.frames| == left.Length
                  && forall i :: 0 <= i < left.Length ==> Frame(left[i], right[i]) == out.frames[i])
              && (!playing ==> forall i :: 0 <= i < left.Length ==> left[i] == 0.0 && right[i] == 0.0)
    {
      hide Queued, ChunkFrames, Stereo, Placed;
      var need := left.Length;
      if !primed && frames >= target { primed := true; }
      if !primed {
        high := 0;
        Silence(left, right);
        return false;
      }
      if frames < need {
        primed := false;
        Silence(left, right);
        return false;
      }
      Play(left, right);
      if frames > target * 2 {
        high := high + need;
        if high >= TRIM_AFTER {
          Drop(frames - target);
          high := 0;
        }
      } else {
        high := 0;
      }
      return true;
    }
  }

  lemma QueuedLength(chunks: seq<seq<real>>, offset: nat)
    requires Stereo(chunks) && Placed(chunks, offset) && chunks != []
    ensures (|chunks[0]| - offset) % 2 == 0 && (|chunks[0]| - offset) / 2 <= |Queued(chunks, offset)|
  {
    hide ChunkFrames, Whole;
  }

  lemma HeadFrame(chunks: seq<seq<real>>, offset: nat, i: nat)
    requires Stereo(chunks) && Placed(chunks, offset) && chunks != [] && i < (|chunks[0]| - offset) / 2
    ensures offset + i * 2 + 1 < |chunks[0]| && i < |Queued(chunks, offset)|
    ensures Queued(chunks, offset)[i] == Frame(chunks[0][offset + i * 2], chunks[0][offset + i * 2 + 1])
  {
    hide Whole;
    var c := chunks[0];
    var fs := ChunkFrames(c, offset);
    assert fs[i] == Frame(c[offset + 2 * i], c[offset + 2 * i + 1]);
    assert (fs + Whole(chunks[1..]))[i] == fs[i];
  }

  lemma HeadFrames(chunks: seq<seq<real>>, offset: nat)
    requires Stereo(chunks) && Placed(chunks, offset) && chunks != []
    ensures offset <= |chunks[0]| && (|chunks[0]| - offset) / 2 > 0
  {
  }

  lemma QueuedNothing(chunks: seq<seq<real>>, offset: nat)
    requires Stereo(chunks) && Placed(chunks, offset) && chunks == []
    ensures Queued(chunks, offset) == []
  {
  }
}
