// The voice activity processor: the level of the last four render quanta, the
// start-up grace, the port's messages, and the gate they drive.
module VoiceProcessor {
  import opened Decimal
  import opened VoiceGate

  const SMOOTH_QUANTA: nat := 4
  const STARTUP_GRACE: nat := 188
  const SPEECH_OPEN_PROBABILITY: real := 0.5
  const SPEECH_CLOSE_PROBABILITY: real := 0.15

  function Squares(samples: seq<real>): (r: real)
    ensures r >= 0.0
  {
    if samples == [] then 0.0
    else
      var v := samples[|samples| - 1];
      SquareNotNegative(v);
      Squares(samples[..|samples| - 1]) + v * v
  }

  lemma SquareNotNegative(v: real)
    ensures v * v >= 0.0
  {
  }

  function MeanSquare(samples: seq<real>): real
    requires |samples| > 0
  {
    Squares(samples) / (|samples| as real)
  }

  method SumSquares(samples: seq<real>) returns (sum: real)
    ensures sum == Squares(samples)
  {
    sum := 0.0;
    for i := 0 to |samples|
      invariant sum == Squares(samples[..i])
    {
      var v := samples[i];
      assert samples[..i + 1][..i] == samples[..i];
      sum := sum + v * v;
    }
    assert samples[..|samples|] == samples;
  }

  lemma MeanNotNegative(samples: seq<real>)
    requires |samples| > 0
    ensures MeanSquare(samples) >= 0.0
  {
    hide Squares;
    QuotientNotNegative(Squares(samples), |samples| as real);
  }

  lemma QuotientNotNegative(a: real, b: real)
    requires a >= 0.0 && b > 0.0
    ensures a / b >= 0.0
  {
  }

  /** The k-th newest power; silence before the first. */
  function Recent(history: seq<real>, k: nat): real {
    if k < |history| then history[|history| - 1 - k] else 0.0
  }

  function LastFour(history: seq<real>): real {
    Recent(history, 0) + Recent(history, 1) + Recent(history, 2) + Recent(history, 3)
  }

  ghost predicate NoneNegative(history: seq<real>) {
    forall i :: 0 <= i < |history| ==> history[i] >= 0.0
  }

  lemma NextFour(history: seq<real>, power: real)
    ensures var next := history + [power];
            && Recent(next, 0) == power
            && Recent(next, 1) == Recent(history, 0)
            && Recent(next, 2) == Recent(history, 1)
            && Recent(next, 3) == Recent(history, 2)
  {
  }

  /** What a quantum says, at a level and a probability that the sound is a voice. */
  function Verdict(threshold: real, speechGate: bool, closeRatio: real, level: real, probability: real): Quantum {
    var speechRuled := speechGate && threshold > 0.0 && probability > 0.0;
    Quantum(level >= threshold && (!speechRuled || probability >= SPEECH_OPEN_PROBABILITY),
            level < threshold * closeRatio || (speechRuled && probability < SPEECH_CLOSE_PROBABILITY))
  }

  /** With a ratio below one no quantum counts both ways, unless the threshold is negative. */
  lemma NotBoth(threshold: real, speechGate: bool, closeRatio: real, level: real, probability: real)
    requires 0.0 <= threshold && 0.0 < closeRatio < 1.0
    ensures var q := Verdict(threshold, speechGate, closeRatio, level, probability); !(q.loud && q.quiet)
  {
    Shrinks(threshold, closeRatio);
  }

  lemma Shrinks(x: real, ratio: real)
    requires 0.0 <= x && 0.0 < ratio < 1.0
    ensures x * ratio <= x
  {
    assert x * (1.0 - ratio) >= 0.0;
  }

  class VadProcessor {
    const root: real -> real
    const closeRatio: real
    var threshold: real
    var gateOnFrames: int
    var gateOffFrames: int
    var silentFrames: nat
    var speechFrames: nat
    var gated: bool
    var speechGate: bool
    var active: bool
    var startupFrames: nat
    const powers: array<real>
    var powerAt: nat
    var powerSum: real
    /** The gate messages posted, oldest first. */
    var posted: seq<Message>
    var stopped: bool
    /** The power of every quantum, oldest first. */
    ghost var history: seq<real>
    /** The quanta the gate judged and the configurations, oldest first. */
    ghost var inputs: seq<Input>

    /** The gate and its messages are those of a run over the inputs, from the initial counts. */
    ghost predicate Tracks()
      reads this`gated, this`silentFrames, this`speechFrames, this`gateOnFrames, this`gateOffFrames,
            this`posted, this`inputs
    {
      var run := Replay(188, 12, inputs);
      run.gate == State() && run.messages == posted
    }

    ghost predicate Valid()
      reads this`powerAt, this`powerSum, this`history, powers
    {
      && powers.Length == SMOOTH_QUANTA
      && powerAt < SMOOTH_QUANTA
      && powers[(powerAt + 3) % 4] == Recent(history, 0)
      && powers[(powerAt + 2) % 4] == Recent(history, 1)
      && powers[(powerAt + 1) % 4] == Recent(history, 2)
      && powers[powerAt] == Recent(history, 3)
      && powerSum == LastFour(history)
      && NoneNegative(history)
    }

    function State(): Gate
      reads this`gated, this`silentFrames, this`speechFrames, this`gateOnFrames, this`gateOffFrames
    {
      Gate(gated, silentFrames, speechFrames, gateOnFrames, gateOffFrames)
    }

    constructor (root: real -> real, closeRatio: real)
      ensures Valid() && Tracks() && fresh(powers)
      ensures history == [] && posted == [] && active && !stopped && startupFrames == 0
      ensures State() == Begin(188, 12).gate && threshold == 0.05 && !speechGate
      ensures this.root == root && this.closeRatio == closeRatio
    {
      this.root, this.closeRatio := root, closeRatio;
      threshold, gateOnFrames, gateOffFrames := 0.05, 188, 12;
      silentFrames, speechFrames, gated, speechGate, active := 0, 0, false, false, true;
      startupFrames, powerAt, powerSum, posted, stopped := 0, 0, 0.0, [], false;
      powers := new real[SMOOTH_QUANTA](_ => 0.0);
      history, inputs := [], [];
    }

    /** A configuration keeps the counts it leaves out, restarts both counters, and opens the gate. */
    method Configure(level: real, on: Option<int>, off: Option<int>, speech: Option<bool>)
      requires Tracks()
      modifies this`threshold, this`gateOnFrames, this`gateOffFrames, this`speechGate, this`silentFrames,
               this`speechFrames, this`gated, this`posted, this`inputs
      ensures Tracks()
      ensures threshold == level && speechGate == if speech.Some? then speech.value else old(speechGate)
      ensures inputs == old(inputs) + [VoiceGate.Configure(if on.Some? then on.value else old(gateOnFrames),
                                                           if off.Some? then off.value else old(gateOffFrames))]
    {
      hide Replay;
      threshold := level;
      if on.Some? { gateOnFrames := on.value; }
      if off.Some? { gateOffFrames := off.value; }
      if speech.Some? { speechGate := speech.value; }
      silentFrames, speechFrames := 0, 0;
      if gated {
        gated := false;
        posted := posted + [Opened];
      }
      ghost var x := VoiceGate.Configure(gateOnFrames, gateOffFrames);
      ReplayPush(188, 12, inputs, x);
      inputs := inputs + [x];
    }

    /** Moving the level leaves the gate and its counters alone. */
    method MoveThreshold(level: real)
      modifies this`threshold
      ensures threshold == level && State() == old(State())
    {
      threshold := level;
    }

    method SetSpeechGate(on: bool)
      modifies this`speechGate
      ensures speechGate == on && State() == old(State())
    {
      speechGate := on;
    }

    method Stop()
      modifies this`active
      ensures !active && State() == old(State())
    {
      active := false;
    }

    /** The running sum is the sum of the four newest powers, so it is never below zero. */
    method Store(power: real)
      requires Valid() && power >= 0.0
      modifies this`powerAt, this`powerSum, this`history, powers
      ensures Valid() && history == old(history) + [power] && powerSum >= 0.0
    {
      hide Recent;
      NextFour(history, power);
      history := history + [power];
      FourNotNegative(history);
      powerSum := powerSum + power - powers[powerAt];
      powers[powerAt] := power;
      powerAt := (powerAt + 1) % SMOOTH_QUANTA;
    }

    /** The level is the root of the mean of the four newest powers, this quantum's included. */
    method Level(samples: seq<real>) returns (rms: real)
      requires Valid() && |samples| > 0
      modifies this`powerAt, this`powerSum, this`history, powers
      ensures Valid() && history == old(history) + [MeanSquare(samples)]
      ensures rms == root(LastFour(history) / 4.0)
    {
      hide Squares, Recent, LastFour, NoneNegative;
      var sum := SumSquares(samples);
      MeanNotNegative(samples);
      Store(sum / (|samples| as real));
      rms := root((if powerSum > 0.0 then powerSum else 0.0) / 4.0);
    }

    /** One gate decision: the run goes on by the quantum's verdict. */
    method Decide(rms: real, probability: real)
      requires Tracks()
      modifies this`silentFrames, this`speechFrames, this`gated, this`posted, this`inputs
      ensures Tracks()
      ensures inputs == old(inputs) + [Hear(Verdict(threshold, speechGate, closeRatio, rms, probability))]
    {
      hide Replay;
      ghost var x := Hear(Verdict(threshold, speechGate, closeRatio, rms, probability));
      ReplayPush(188, 12, inputs, x);
      inputs := inputs + [x];
      var speechRuled := speechGate && threshold > 0.0 && probability > 0.0;
      var voiced := !speechRuled || probability >= SPEECH_OPEN_PROBABILITY;
      var unvoiced := speechRuled && probability < SPEECH_CLOSE_PROBABILITY;
      if gated {
        if rms >= threshold && voiced {
          speechFrames := speechFrames + 1;
        } else if speechFrames > 0 {
          speechFrames := speechFrames - 1;
        }
        if speechFrames >= gateOffFrames {
          gated, speechFrames, silentFrames := false, 0, 0;
          posted := posted + [Opened];
        }
      } else if rms < threshold * closeRatio || unvoiced {
        silentFrames := silentFrames + 1;
        if silentFrames >= gateOnFrames {
          gated, silentFrames, speechFrames := true, 0, 0;
          posted := posted + [Closed];
        }
      } else {
        silentFrames := 0;
      }
    }

    /**
     * One render quantum. A stopped processor says so and ends; a missing
     * input changes nothing; the first 188 quanta only feed the level.
     */
    method Process(samples: Option<seq<real>>, probability: real) returns (again: bool)
      requires Valid() && Tracks() && (samples.Some? ==> |samples.value| > 0)
      modifies this`silentFrames, this`speechFrames, this`gated, this`posted, this`inputs, this`powerAt,
               this`powerSum, this`history, this`startupFrames, this`stopped, powers
      ensures Valid() && Tracks() && again == active && stopped == (old(stopped) || !active)
      ensures history == if active && samples.Some? then old(history) + [MeanSquare(samples.value)] else old(history)
      ensures startupFrames == if active && samples.Some? && old(startupFrames) < STARTUP_GRACE
                               then old(startupFrames) + 1 else old(startupFrames)
      ensures inputs == if active && samples.Some? && old(startupFrames) >= STARTUP_GRACE
                        then old(inputs) + [Hear(Verdict(threshold, speechGate, closeRatio,
                                                         root(LastFour(history) / 4.0), probability))]
                        else old(inputs)
    {
      hide Verdict, Replay, Recent, LastFour;
      if !active {
        stopped := true;
        return false;
      }
      if samples.None? { return true; }
      var rms := Level(samples.value);
      if startupFrames < STARTUP_GRACE {
        startupFrames := startupFrames + 1;
        return true;
      }
      Decide(rms, probability);
      again := true;
    }
  }

  /** Every processor's gate messages strictly alternate, starting with a closing. */
  lemma PostedAlternate(p: VadProcessor)
    requires p.Tracks()
    ensures forall i :: 0 <= i < |p.posted| ==> p.posted[i] == if i % 2 == 0 then Closed else Opened
    ensures p.gated == (|p.posted| % 2 == 1) && |p.posted| <= |p.inputs|
  {
    MessagesAlternate(188, 12, p.inputs);
    MessagesAtMostInputs(188, 12, p.inputs);
    hide Replay;
  }

  lemma FourNotNegative(history: seq<real>)
    requires NoneNegative(history)
    ensures LastFour(history) >= 0.0
  {
  }
}
