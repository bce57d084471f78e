// The re-framing stage in front of RNNoise: render quanta of any length go in,
// 480-sample frames go through the model, and its output is played from a ring
// of 50 frames. This is the stage as a value, and what holds over whole runs.
module NoiseFrames {

  const FRAME: nat := 480
  const SLOTS: nat := 50
  const SCALE: real := 32768.0

  /** RNNoise: from its state and a scaled frame to its next state and output samples. */
  type Model<!S> = (S, seq<real>) -> (S, nat -> real)

  /** One frame through the model, scaled to 16-bit range and back. */
  function Denoise<S>(model: Model<S>, st: S, frame: seq<real>): (r: (S, seq<real>))
    ensures |r.1| == FRAME
  {
    var (next, out) := model(st, seq(|frame|, i requires 0 <= i < |frame| => frame[i] * SCALE));
    (next, seq(FRAME, i requires 0 <= i < FRAME => out(i) / SCALE))
  }

  /** The model's output for whole frames of input. */
  function Through<S>(model: Model<S>, st: S, input: seq<real>): (r: (S, seq<real>))
    requires |input| % FRAME == 0
    ensures |r.1| == |input|
  {
    if input == [] then (st, [])
    else
      var n := |input| - FRAME;
      var (mid, out) := Through(model, st, input[..n]);
      var (next, frame) := Denoise(model, mid, input[n..]);
      (next, out + frame)
  }

  /** The stage: model state, samples short of a frame, frames waiting, samples of the first already played. */
  datatype Stage<S> = Stage(st: S, partial: seq<real>, frames: seq<seq<real>>, offset: nat)

  ghost predicate Sound<S>(a: Stage<S>) {
    && |a.partial| < FRAME
    && |a.frames| <= SLOTS
    && (forall i :: 0 <= i < |a.frames| ==> |a.frames[i]| == FRAME)
    && a.offset < FRAME
    && (a.frames == [] ==> a.offset == 0)
  }

  /** A finished frame enters the ring; a full ring loses its oldest frame. */
  function Stored<S>(a: Stage<S>, next: S, frame: seq<real>): Stage<S> {
    if |a.frames| < SLOTS then Stage(next, [], a.frames + [frame], a.offset)
    else Stage(next, [], a.frames[1..] + [frame], 0)
  }

  /** One sample in. */
  function Fed1<S>(model: Model<S>, a: Stage<S>, x: real): Stage<S> {
    var partial := a.partial + [x];
    if |partial| < FRAME then a.(partial := partial)
    else
      var (next, frame) := Denoise(model, a.st, partial);
      Stored(a, next, frame)
  }

  function Fed<S>(model: Model<S>, a: Stage<S>, data: seq<real>): Stage<S>
    decreases |data|
  {
    if data == [] then a else Fed1(model, Fed(model, a, data[..|data| - 1]), data[|data| - 1])
  }

  /** One sample out, if a frame is waiting. */
  function Drained1<S>(a: Stage<S>): Stage<S>
    requires a.frames != []
  {
    if a.offset + 1 < FRAME then a.(offset := a.offset + 1)
    else a.(frames := a.frames[1..], offset := 0)
  }

  /** Up to n samples out. */
  function Drained<S>(a: Stage<S>, n: nat): (r: (Stage<S>, seq<real>))
    requires Sound(a)
    ensures |r.1| <= n && Sound(r.0)
    decreases n
  {
    if n == 0 || a.frames == [] then (a, [])
    else
      var (rest, out) := Drained(Drained1(a), n - 1);
      (rest, [a.frames[0][a.offset]] + out)
  }

  // ----- What is buffered

  function Flat(frames: seq<seq<real>>): seq<real> {
    if frames == [] then [] else frames[0] + Flat(frames[1..])
  }

  lemma {:induction false} FlatLength(frames: seq<seq<real>>)
    requires forall i :: 0 <= i < |frames| ==> |frames[i]| == FRAME
    ensures |Flat(frames)| == FRAME * |frames|
  {
    if frames != [] { FlatLength(frames[1..]); }
  }

  lemma {:induction false} FlatAppend(frames: seq<seq<real>>, f: seq<real>)
    ensures Flat(frames + [f]) == Flat(frames) + f
  {
    if frames == [] {
      assert frames + [f] == [f] && [f][1..] == [];
      assert f + [] == [] + f;
    } else {
      assert (frames + [f])[1..] == frames[1..] + [f];
      FlatAppend(frames[1..], f);
    }
  }

  /** The samples waiting to be played. */
  function Waiting<S>(a: Stage<S>): seq<real>
    requires Sound(a)
  {
    FlatLength(a.frames);
    Flat(a.frames)[a.offset..]
  }

  lemma Drain1Waiting<S>(a: Stage<S>)
    requires Sound(a) && a.frames != []
    ensures Sound(Drained1(a)) && Waiting(a) == [a.frames[0][a.offset]] + Waiting(Drained1(a))
  {
    FlatLength(a.frames);
    FlatLength(a.frames[1..]);
    var flat := Flat(a.frames);
    assert flat == a.frames[0] + Flat(a.frames[1..]);
    assert flat[a.offset] == a.frames[0][a.offset];
    assert flat[a.offset..] == [flat[a.offset]] + flat[a.offset + 1..];
    if a.offset + 1 == FRAME { assert flat[FRAME..] == Flat(a.frames[1..]) == Flat(a.frames[1..])[0..]; }
  }

  /** Draining plays what waits, in order, as far as it goes. */
  lemma {:induction false} DrainPlaysWaiting<S>(a: Stage<S>, n: nat)
    requires Sound(a)
    ensures var (rest, out) := Drained(a, n);
            && Waiting(a) == out + Waiting(rest)
            && (|out| < n ==> rest.frames == [] && Waiting(rest) == [])
            && rest.partial == a.partial && rest.st == a.st
    decreases n
  {
    hide Flat, Sound;
    if a.frames == [] { NoneWaiting(a); }
    if n == 0 || a.frames == [] {
      assert [] + Waiting(a) == Waiting(a);
    } else {
      Drain1Waiting(a);
      DrainPlaysWaiting(Drained1(a), n - 1);
    }
  }

  lemma NoneWaiting<S>(a: Stage<S>)
    requires Sound(a) && a.frames == []
    ensures Waiting(a) == []
  {
  }

  // ----- Whole runs

  /** A call of n samples would make the ring lose a frame. */
  predicate Overflows<S>(a: Stage<S>, n: nat) {
    |a.frames| + (|a.partial| + n) / FRAME > SLOTS
  }

  /**
   * After `input`, of which the output so far held `heard`: the samples short
   * of a frame are the last of the input, and what was heard followed by what
   * waits is the model's output for the rest.
   */
  ghost predicate Tracks<S>(model: Model<S>, st0: S, a: Stage<S>, input: seq<real>, heard: seq<real>) {
    && Sound(a)
    && |a.partial| <= |input|
    && (|input| - |a.partial|) % FRAME == 0
    && a.partial == input[|input| - |a.partial|..]
    && Through(model, st0, input[..|input| - |a.partial|]) == (a.st, heard + Waiting(a))
  }

  lemma StoredWaiting<S>(a: Stage<S>, next: S, frame: seq<real>)
    requires Sound(a) && |a.frames| < SLOTS && |frame| == FRAME
    ensures Sound(Stored(a, next, frame)) && Waiting(Stored(a, next, frame)) == Waiting(a) + frame
  {
    FlatLength(a.frames);
    FlatAppend(a.frames, frame);
    hide Flat;
    assert (Flat(a.frames) + frame)[a.offset..] == Flat(a.frames)[a.offset..] + frame;
  }

  lemma ThroughMore<S>(model: Model<S>, st: S, input: seq<real>, frame: seq<real>)
    requires |input| % FRAME == 0 && |frame| == FRAME
    ensures Through(model, st, input + frame) ==
            var (mid, out) := Through(model, st, input);
            var (next, f) := Denoise(model, mid, frame);
            (next, out + f)
  {
    hide Denoise;
    assert (input + frame)[..|input|] == input && (input + frame)[|input|..] == frame;
  }

  lemma Fed1Tracks<S>(model: Model<S>, st0: S, a: Stage<S>, input: seq<real>, heard: seq<real>, x: real)
    requires Tracks(model, st0, a, input, heard) && (|a.frames| < SLOTS || |a.partial| + 1 < FRAME)
    ensures Tracks(model, st0, Fed1(model, a, x), input + [x], heard)
  {
    hide Through, Denoise, Waiting;
    var n := |input| - |a.partial|;
    var more, partial := input + [x], a.partial + [x];
    assert partial == more[n..] && more[..n] == input[..n];
    if |partial| == FRAME {
      var (next, frame) := Denoise(model, a.st, partial);
      StoredWaiting(a, next, frame);
      ThroughMore(model, st0, input[..n], partial);
      assert more == input[..n] + partial && more[..|more|] == more;
      assert heard + Waiting(a) + frame == heard + (Waiting(a) + frame);
    } else {
      SameWaiting(a, partial);
    }
  }

  lemma SameWaiting<S>(a: Stage<S>, partial: seq<real>)
    requires Sound(a) && |partial| < FRAME
    ensures Sound(a.(partial := partial)) && Waiting(a.(partial := partial)) == Waiting(a)
  {
  }

  /** Samples in, without overflow: nothing waiting is lost, and every finished frame waits. */
  lemma {:induction false} FedTracks<S>(model: Model<S>, st0: S, a: Stage<S>, input: seq<real>, heard: seq<real>,
                                        data: seq<real>)
    requires Tracks(model, st0, a, input, heard) && !Overflows(a, |data|)
    ensures Tracks(model, st0, Fed(model, a, data), input + data, heard)
    ensures var b := Fed(model, a, data);
            |b.frames| == |a.frames| + (|a.partial| + |data|) / FRAME && |b.partial| == (|a.partial| + |data|) % FRAME
    decreases |data|
  {
    hide Tracks, Fed1, Sound;
    if data == [] {
      assert input + data == input;
      TracksSound(model, st0, a, input, heard);
    } else {
      var n := |data| - 1;
      FedTracks(model, st0, a, input, heard, data[..n]);
      var b := Fed(model, a, data[..n]);
      assert input + data == (input + data[..n]) + [data[n]];
      Fed1Counts(model, b, data[n]);
      Fed1Tracks(model, st0, b, input + data[..n], heard, data[n]);
    }
  }

  lemma TracksSound<S>(model: Model<S>, st0: S, a: Stage<S>, input: seq<real>, heard: seq<real>)
    requires Tracks(model, st0, a, input, heard)
    ensures Sound(a) && |a.partial| < FRAME
  {
  }

  lemma Fed1Counts<S>(model: Model<S>, a: Stage<S>, x: real)
    ensures var b := Fed1(model, a, x);
            if |a.partial| + 1 < FRAME then b.partial == a.partial + [x] && b.frames == a.frames
            else |b.partial| == 0 && (|a.frames| < SLOTS ==> |b.frames| == |a.frames| + 1)
  {
    hide Denoise;
  }

  /** A run so far: the stage, all input, all audio played and all silence inserted. */
  datatype Session<S> = Session(a: Stage<S>, input: seq<real>, heard: seq<real>, silent: nat)

  function Start<S>(st0: S): Session<S> { Session(Stage(st0, [], [], 0), [], [], 0) }

  /** One render call with equal input and output lengths: feed, then play, then silence. */
  function Call<S>(model: Model<S>, s: Session<S>, data: seq<real>): Session<S>
    requires Sound(Fed(model, s.a, data))
  {
    var (a, out) := Drained(Fed(model, s.a, data), |data|);
    Session(a, s.input + data, s.heard + out, s.silent + |data| - |out|)
  }

  ghost predicate Healthy<S>(model: Model<S>, st0: S, s: Session<S>) {
    && Tracks(model, st0, s.a, s.input, s.heard)
    && |s.heard| + s.silent == |s.input|
    && s.silent < FRAME
  }

  /** All silence ever inserted is the input not yet through plus the output not yet played. */
  lemma SilenceIsLatency<S>(model: Model<S>, st0: S, s: Session<S>)
    requires Healthy(model, st0, s)
    ensures Sound(s.a) && s.silent == |s.a.partial| + |Waiting(s.a)|
    ensures |Waiting(s.a)| == FRAME * |s.a.frames| - s.a.offset
  {
    hide Flat;
    var n := |s.input| - |s.a.partial|;
    assert |Through(model, st0, s.input[..n]).1| == n;
    FlatLength(s.a.frames);
  }

  const CALL_LIMIT: nat := 23521

  /** A healthy stage takes a call of up to CALL_LIMIT samples without losing a frame. */
  lemma NoOverflow<S>(model: Model<S>, st0: S, s: Session<S>, n: nat)
    requires Healthy(model, st0, s) && n <= CALL_LIMIT
    ensures !Overflows(s.a, n)
  {
    SilenceIsLatency(model, st0, s);
    hide Healthy, Waiting, Sound;
    TracksOffset(model, st0, s);
  }

  lemma TracksOffset<S>(model: Model<S>, st0: S, s: Session<S>)
    requires Healthy(model, st0, s)
    ensures s.a.offset < FRAME && |s.a.partial| < FRAME
  {
  }

  lemma DrainTracks<S>(model: Model<S>, st0: S, b: Stage<S>, input: seq<real>, heard: seq<real>, n: nat)
    requires Tracks(model, st0, b, input, heard)
    ensures var (c, out) := Drained(b, n); Tracks(model, st0, c, input, heard + out)
  {
    hide Drained, Through, Waiting, Sound;
    DrainPlaysWaiting(b, n);
    var (c, out) := Drained(b, n);
    assert heard + (out + Waiting(c)) == (heard + out) + Waiting(c);
  }

  lemma CallKeeps<S>(model: Model<S>, st0: S, s: Session<S>, data: seq<real>)
    requires Healthy(model, st0, s) && !Overflows(s.a, |data|)
    ensures Sound(Fed(model, s.a, data)) && Healthy(model, st0, Call(model, s, data))
  {
    hide Fed, Drained, Tracks, Overflows, Waiting, Sound;
    var b := Fed(model, s.a, data);
    FedTracks(model, st0, s.a, s.input, s.heard, data);
    TracksSound(model, st0, b, s.input + data, s.heard);
    DrainTracks(model, st0, b, s.input + data, s.heard, |data|);
    DrainPlaysWaiting(b, |data|);
    var (c, out) := Drained(b, |data|);
    if |out| < |data| { QuietTail(model, st0, Call(model, s, data)); }
  }

  /** When a call runs dry, all that was missing so far is the unfinished frame. */
  lemma QuietTail<S>(model: Model<S>, st0: S, t: Session<S>)
    requires Tracks(model, st0, t.a, t.input, t.heard) && Waiting(t.a) == [] && |t.heard| + t.silent == |t.input|
    ensures t.silent == |t.a.partial| < FRAME
  {
    var n := |t.input| - |t.a.partial|;
    assert |Through(model, st0, t.input[..n]).1| == n;
  }

  lemma StartHealthy<S>(model: Model<S>, st0: S)
    ensures Healthy(model, st0, Start(st0))
  {
    var a := Start(st0).a;
    NoneWaiting(a);
    assert Start(st0).input[..0] == [];
    assert [] + Waiting(a) == [];
  }

  /**
   * Any run of calls within the limit: no frame is ever overwritten, what was
   * heard is a prefix of the model's output in order, and all silence ever
   * inserted is less than one frame.
   */
  function Played<S>(model: Model<S>, st0: S, calls: seq<seq<real>>): (s: Session<S>)
    requires forall i :: 0 <= i < |calls| ==> |calls[i]| <= CALL_LIMIT
    ensures Healthy(model, st0, s)
    ensures forall n :: 0 <= n <= CALL_LIMIT ==> !Overflows(s.a, n)
    decreases |calls|
  {
    if calls == [] then
      StartHealthy(model, st0);
      NeverOverflows(model, st0, Start(st0));
      Start(st0)
    else
      var before := Played(model, st0, calls[..|calls| - 1]);
      var data := calls[|calls| - 1];
      CallKeeps(model, st0, before, data);
      NeverOverflows(model, st0, Call(model, before, data));
      Call(model, before, data)
  }

  lemma NeverOverflows<S>(model: Model<S>, st0: S, s: Session<S>)
    requires Healthy(model, st0, s)
    ensures forall n :: 0 <= n <= CALL_LIMIT ==> !Overflows(s.a, n)
  {
    forall n | 0 <= n <= CALL_LIMIT ensures !Overflows(s.a, n) { NoOverflow(model, st0, s, n); }
  }

  /** What was heard, read off a healthy session. */
  lemma HeardIsPrefix<S>(model: Model<S>, st0: S, s: Session<S>)
    requires Healthy(model, st0, s)
    ensures var n := |s.input| - |s.a.partial|;
            && 0 <= n && n % FRAME == 0
            && s.heard <= Through(model, st0, s.input[..n]).1
            && |s.input| - |s.heard| < FRAME
  {
  }

  // ----- The limit is exact

  function Max(a: nat, b: nat): nat { if a < b then b else a }

  /** A call raises the silence of the run to the input it leaves short of a frame, if that is more. */
  lemma CallSilence<S>(model: Model<S>, st0: S, s: Session<S>, data: seq<real>)
    requires Healthy(model, st0, s) && !Overflows(s.a, |data|)
    ensures Sound(Fed(model, s.a, data))
    ensures var t := Call(model, s, data);
            && |t.a.partial| == (|s.a.partial| + |data|) % FRAME
            && t.silent == Max(s.silent, |t.a.partial|)
  {
    hide Fed, Drained, Tracks, Overflows, Waiting, Sound;
    CallKeeps(model, st0, s, data);
    FedTracks(model, st0, s.a, s.input, s.heard, data);
    DrainPlaysWaiting(Fed(model, s.a, data), |data|);
    SilenceIsLatency(model, st0, Call(model, s, data));
  }

  function Total(calls: seq<seq<real>>): nat {
    if calls == [] then 0 else Total(calls[..|calls| - 1]) + |calls[|calls| - 1]|
  }

  /** The most input any prefix of the calls leaves short of a whole frame. */
  function WorstRemainder(calls: seq<seq<real>>): nat {
    if calls == [] then 0 else Max(WorstRemainder(calls[..|calls| - 1]), Total(calls) % FRAME)
  }

  /** The silence of a whole run is exactly the most input it ever left short of a frame. */
  lemma {:induction false} SilenceIsWorstRemainder<S>(model: Model<S>, st0: S, calls: seq<seq<real>>)
    requires forall i :: 0 <= i < |calls| ==> |calls[i]| <= CALL_LIMIT
    ensures var s := Played(model, st0, calls);
            s.silent == WorstRemainder(calls) && |s.a.partial| == Total(calls) % FRAME
    decreases |calls|
  {
    hide Fed, Drained, Healthy, Overflows, Sound, Played, Call;
    PlayedStep(model, st0, calls);
    if calls != [] {
      var front, data := calls[..|calls| - 1], calls[|calls| - 1];
      SilenceIsWorstRemainder(model, st0, front);
      var before := Played(model, st0, front);
      assert !Overflows(before.a, |data|);
      CallSilence(model, st0, before, data);
      RemainderOfSum(Total(front), |data|);
    }
  }

  lemma PlayedStep<S>(model: Model<S>, st0: S, calls: seq<seq<real>>)
    requires forall i :: 0 <= i < |calls| ==> |calls[i]| <= CALL_LIMIT
    ensures calls == [] ==> Played(model, st0, calls) == Start(st0)
    ensures calls != [] ==>
              var before, data := Played(model, st0, calls[..|calls| - 1]), calls[|calls| - 1];
              Sound(Fed(model, before.a, data)) && Played(model, st0, calls) == Call(model, before, data)
  {
    hide Fed, Drained, Healthy, Call;
    if calls != [] {
      var before, data := Played(model, st0, calls[..|calls| - 1]), calls[|calls| - 1];
      CallKeeps(model, st0, before, data);
    }
  }

  lemma RemainderOfSum(a: nat, b: nat)
    ensures (a % FRAME + b) % FRAME == (a + b) % FRAME
  {
  }

  function Zeros(n: nat): (z: seq<real>)
    ensures |z| == n
  {
    seq(n, _ => 0.0)
  }

  /** What a ring keeps of the frames put into it. */
  function Newest(frames: seq<seq<real>>): seq<seq<real>> {
    if |frames| <= SLOTS then frames else frames[|frames| - SLOTS..]
  }

  lemma NewestPush(frames: seq<seq<real>>, f: seq<real>)
    ensures Newest(frames + [f]) == if |Newest(frames)| < SLOTS then Newest(frames) + [f] else Newest(frames)[1..] + [f]
  {
  }

  /** `made` is the model's output for the whole frames of the samples held back and `data`; the rest is held back. */
  ghost predicate Makes<S>(model: Model<S>, a: Stage<S>, data: seq<real>, b: Stage<S>, made: seq<seq<real>>) {
    var all, n := a.partial + data, FRAME * |made|;
    && |b.partial| < FRAME && |all| == n + |b.partial| && b.partial == all[n..]
    && (forall i :: 0 <= i < |made| ==> |made[i]| == FRAME)
    && Through(model, a.st, all[..n]) == (b.st, Flat(made))
  }

  lemma MakesNone<S>(model: Model<S>, a: Stage<S>)
    requires |a.partial| < FRAME
    ensures Makes(model, a, [], a, [])
  {
    assert a.partial + [] == a.partial && a.partial[..0] == [] && a.partial[0..] == a.partial;
  }

  lemma MakesCounts<S>(model: Model<S>, a: Stage<S>, data: seq<real>, b: Stage<S>, made: seq<seq<real>>)
    requires Makes(model, a, data, b, made)
    ensures |made| == (|a.partial| + |data|) / FRAME && |b.partial| == (|a.partial| + |data|) % FRAME
  {
    hide Through;
  }

  /** One more sample, held back or ending a frame. */
  lemma MakesHeld<S>(model: Model<S>, a: Stage<S>, data: seq<real>, b: Stage<S>, made: seq<seq<real>>, x: real)
    requires Makes(model, a, data, b, made) && |b.partial| + 1 < FRAME
    ensures Makes(model, a, data + [x], Fed1(model, b, x), made) && Fed1(model, b, x).frames == b.frames
  {
    hide Through, Denoise, Flat;
    var all, n := a.partial + data, FRAME * |made|;
    assert a.partial + (data + [x]) == all + [x];
    assert (all + [x])[..n] == all[..n] && (all + [x])[n..] == all[n..] + [x];
  }

  lemma MakesFrame<S>(model: Model<S>, a: Stage<S>, data: seq<real>, b: Stage<S>, made: seq<seq<real>>, x: real)
    returns (frame: seq<real>)
    requires Makes(model, a, data, b, made) && |b.partial| + 1 == FRAME
    ensures Makes(model, a, data + [x], Fed1(model, b, x), made + [frame])
    ensures Fed1(model, b, x).frames == if |b.frames| < SLOTS then b.frames + [frame] else b.frames[1..] + [frame]
  {
    hide Through, Denoise, Flat;
    var all, n := a.partial + data, FRAME * |made|;
    frame := Denoise(model, b.st, b.partial + [x]).1;
    assert a.partial + (data + [x]) == all + [x];
    ThroughMore(model, a.st, all[..n], b.partial + [x]);
    assert all[..n] + (b.partial + [x]) == all + [x] == (all + [x])[..n + FRAME];
    FlatAppend(made, frame);
  }

  /** A call puts the frames it makes into the ring, which keeps the newest. */
  lemma {:induction false} FedFrames<S>(model: Model<S>, a: Stage<S>, data: seq<real>) returns (made: seq<seq<real>>)
    requires |a.partial| < FRAME && |a.frames| <= SLOTS
    ensures var b := Fed(model, a, data);
            Makes(model, a, data, b, made) && b.frames == Newest(a.frames + made)
    decreases |data|
  {
    hide Fed1, Newest, Makes;
    if data == [] {
      made := [];
      assert a.frames + [] == a.frames;
      NewestFew(a.frames);
      MakesNone(model, a);
    } else {
      var n := |data| - 1;
      made := FedFrames(model, a, data[..n]);
      var b := Fed(model, a, data[..n]);
      assert data == data[..n] + [data[n]];
      MakesCounts(model, a, data[..n], b, made);
      if |b.partial| + 1 < FRAME {
        MakesHeld(model, a, data[..n], b, made, data[n]);
      } else {
        var frame := MakesFrame(model, a, data[..n], b, made, data[n]);
        NewestPush(a.frames + made, frame);
        assert a.frames + (made + [frame]) == a.frames + made + [frame];
        made := made + [frame];
      }
    }
  }

  lemma NewestFew(frames: seq<seq<real>>)
    requires |frames| <= SLOTS
    ensures Newest(frames) == frames
  {
  }

  /** A call loses the oldest frames exactly when it overflows the ring: as many as it is over. */
  lemma OverflowLosesFrames<S>(model: Model<S>, a: Stage<S>, data: seq<real>) returns (made: seq<seq<real>>)
    requires |a.partial| < FRAME && |a.frames| <= SLOTS
    ensures Makes(model, a, data, Fed(model, a, data), made) && |made| == (|a.partial| + |data|) / FRAME
    ensures Fed(model, a, data).frames == a.frames + made <==> !Overflows(a, |data|)
    ensures Overflows(a, |data|) ==>
              var lost := |a.frames| + |made| - SLOTS;
              lost > 0 && Fed(model, a, data).frames == (a.frames + made)[lost..]
  {
    hide Fed, Makes;
    made := FedFrames(model, a, data);
    MakesCounts(model, a, data, Fed(model, a, data), made);
  }

  /**
   * One sample past the limit, three calls are enough to make the next one lose
   * a frame that still waits: the ring is left with the model's output for the
   * samples of that call alone, from the frame held back on.
   */
  lemma LimitIsExact<S>(model: Model<S>, st0: S, data: seq<real>) returns (made: seq<seq<real>>)
    requires |data| == CALL_LIMIT + 1
    ensures var a := Played(model, st0, [Zeros(479), Zeros(1), Zeros(478)]).a;
            && Sound(a) && |Waiting(a)| == 1 && |a.frames| == 1
            && |made| == SLOTS && Makes(model, a, data, Fed(model, a, data), made)
            && Fed(model, a, data).frames == made
  {
    hide Zeros, Healthy, Played, WorstRemainder, Total, Waiting, Fed, Makes;
    var calls := [Zeros(479), Zeros(1), Zeros(478)];
    ThreeCalls(Zeros(479), Zeros(1), Zeros(478));
    SilenceIsWorstRemainder(model, st0, calls);
    SilenceIsLatency(model, st0, Played(model, st0, calls));
    var a := Played(model, st0, calls).a;
    made := OverflowLosesFrames(model, a, data);
    assert (a.frames + made)[1..] == made;
  }

  lemma OneMoreCall(calls: seq<seq<real>>, x: seq<real>)
    ensures Total(calls + [x]) == Total(calls) + |x|
    ensures WorstRemainder(calls + [x]) == Max(WorstRemainder(calls), (Total(calls) + |x|) % FRAME)
  {
    assert (calls + [x])[..|calls|] == calls;
  }

  lemma NoCalls()
    ensures Total([]) == 0 && WorstRemainder([]) == 0
  {
  }

  lemma ThreeCalls(x: seq<real>, y: seq<real>, z: seq<real>)
    ensures Total([x, y, z]) == |x| + |y| + |z|
    ensures WorstRemainder([x, y, z]) == Max(Max(|x| % FRAME, (|x| + |y|) % FRAME), (|x| + |y| + |z|) % FRAME)
  {
    hide Total, WorstRemainder;
    NoCalls();
    OneMoreCall([], x);
    OneMoreCall([x], y);
    OneMoreCall([x, y], z);
    assert [] + [x] == [x] && [x] + [y] == [x, y] && [x, y] + [z] == [x, y, z];
  }
}
