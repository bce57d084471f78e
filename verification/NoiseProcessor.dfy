// The RNNoise worklet's buffers: a 480-sample input array and a contiguous
// output ring of 50 frames with read and write positions, driven in blocks.
// Every method is the corresponding step of the stage in NoiseFrames.
module NoiseProcessor {
  import opened NoiseFrames

  /** Frame slot i of the output buffer. */
  function Slot(b: seq<real>, i: nat): (f: seq<real>)
    requires |b| == SLOTS * FRAME && i < SLOTS
    ensures |f| == FRAME
  {
    b[i * FRAME..i * FRAME + FRAME]
  }

  /** The frames waiting, oldest first, in a ring read from `read`. */
  function Ringed(b: seq<real>, read: nat, available: nat): (fs: seq<seq<real>>)
    requires |b| == SLOTS * FRAME
    ensures |fs| == available && forall k :: 0 <= k < available ==> |fs[k]| == FRAME
  {
    var fs := seq(available, k requires 0 <= k < available => Slot(b, (read + k) % SLOTS));
    assert forall k :: 0 <= k < available ==> fs[k] == Slot(b, (read + k) % SLOTS);
    fs
  }

  /** b with slot w replaced by f. */
  ghost predicate SlotWritten(b: seq<real>, c: seq<real>, w: nat, f: seq<real>) {
    && |b| == |c| == SLOTS * FRAME && w < SLOTS && |f| == FRAME
    && (forall i :: 0 <= i < FRAME ==> c[w * FRAME + i] == f[i])
    && (forall i :: 0 <= i < |b| && !(w * FRAME <= i < w * FRAME + FRAME) ==> c[i] == b[i])
  }

  lemma WrittenSlot(b: seq<real>, c: seq<real>, w: nat, f: seq<real>, i: nat)
    requires SlotWritten(b, c, w, f) && i < SLOTS
    ensures Slot(c, i) == if i == w then f else Slot(b, i)
  {
    if i == w {
      assert Slot(c, w) == f;
    } else {
      assert i < w || i > w;
      assert Slot(c, i) == Slot(b, i);
    }
  }

  lemma RingPush(b: seq<real>, c: seq<real>, read: nat, available: nat, f: seq<real>)
    requires |b| == |c| == SLOTS * FRAME && read < SLOTS && available < SLOTS
             && SlotWritten(b, c, (read + available) % SLOTS, f)
    ensures Ringed(c, read, available + 1) == Ringed(b, read, available) + [f]
  {
    hide Slot, SlotWritten;
    var w := (read + available) % SLOTS;
    forall k | 0 <= k < available + 1
      ensures Ringed(c, read, available + 1)[k] == (Ringed(b, read, available) + [f])[k]
    {
      WrittenSlot(b, c, w, f, (read + k) % SLOTS);
    }
  }

  lemma RingOverwrite(b: seq<real>, c: seq<real>, read: nat, f: seq<real>)
    requires |b| == |c| == SLOTS * FRAME && read < SLOTS && SlotWritten(b, c, read, f)
    ensures Ringed(c, (read + 1) % SLOTS, SLOTS) == Ringed(b, read, SLOTS)[1..] + [f]
  {
    hide Slot, SlotWritten;
    var next := (read + 1) % SLOTS;
    forall k | 0 <= k < SLOTS ensures Ringed(c, next, SLOTS)[k] == (Ringed(b, read, SLOTS)[1..] + [f])[k] {
      WrittenSlot(b, c, read, f, (next + k) % SLOTS);
      assert (next + k) % SLOTS == (read + 1 + k) % SLOTS;
    }
  }

  lemma RingPop(b: seq<real>, read: nat, available: nat)
    requires |b| == SLOTS * FRAME && read < SLOTS && 0 < available <= SLOTS
    ensures Ringed(b, (read + 1) % SLOTS, available - 1) == Ringed(b, read, available)[1..]
  {
    hide Slot;
    var next := (read + 1) % SLOTS;
    forall k | 0 <= k < available - 1
      ensures Ringed(b, next, available - 1)[k] == Ringed(b, read, available)[1..][k]
    {
      assert (next + k) % SLOTS == (read + 1 + k) % SLOTS;
    }
  }

  // ----- Blocks instead of single samples

  /** Samples that do not finish a frame only lengthen the unfinished one. */
  lemma {:induction false} FedShort<S>(model: Model<S>, a: Stage<S>, data: seq<real>)
    requires |a.partial| + |data| < FRAME
    ensures Fed(model, a, data) == a.(partial := a.partial + data)
    decreases |data|
  {
    hide Denoise;
    if data == [] {
      assert a.partial + data == a.partial;
    } else {
      var n := |data| - 1;
      FedShort(model, a, data[..n]);
      assert a.partial + data == (a.partial + data[..n]) + [data[n]];
    }
  }

  /** Samples that just finish a frame. */
  lemma FedFrame<S>(model: Model<S>, a: Stage<S>, data: seq<real>)
    requires |a.partial| + |data| == FRAME && data != []
    ensures Fed(model, a, data) ==
            var (next, frame) := Denoise(model, a.st, a.partial + data);
            Stored(a, next, frame)
  {
    hide Denoise, Fed, Stored;
    var n := |data| - 1;
    FedShort(model, a, data[..n]);
    FedLast(model, a, data);
    assert a.partial + data == (a.partial + data[..n]) + [data[n]];
    var (next, frame) := Denoise(model, a.st, a.partial + data);
    StoredAnyPartial(a, a.partial + data[..n], next, frame);
  }

  lemma FedLast<S>(model: Model<S>, a: Stage<S>, data: seq<real>)
    requires data != []
    ensures Fed(model, a, data) == Fed1(model, Fed(model, a, data[..|data| - 1]), data[|data| - 1])
  {
  }

  lemma StoredAnyPartial<S>(a: Stage<S>, partial: seq<real>, next: S, frame: seq<real>)
    ensures Stored(a.(partial := partial), next, frame) == Stored(a, next, frame)
  {
  }

  lemma {:induction false} FedConcat<S>(model: Model<S>, a: Stage<S>, x: seq<real>, y: seq<real>)
    ensures Fed(model, a, x + y) == Fed(model, Fed(model, a, x), y)
    decreases |y|
  {
    hide Fed1;
    if y == [] {
      assert x + y == x;
    } else {
      var n := |y| - 1;
      assert (x + y)[..|x + y| - 1] == x + y[..n];
      FedConcat(model, a, x, y[..n]);
    }
  }

  /** Playing a block of the first waiting frame. */
  lemma {:induction false} DrainedBlock<S>(a: Stage<S>, n: nat, more: nat)
    requires Sound(a) && a.frames != [] && a.offset + n <= FRAME
    ensures var b := if a.offset + n < FRAME then a.(offset := a.offset + n)
                     else a.(frames := a.frames[1..], offset := 0);
            && Sound(b)
            && Drained(a, n + more) == (Drained(b, more).0, a.frames[0][a.offset..a.offset + n] + Drained(b, more).1)
    decreases n
  {
    hide Drained;
    if n == 0 {
      assert [] + Drained(a, more).1 == Drained(a, more).1;
    } else {
      DrainedStep(a, n + more);
      var c := Drained1(a);
      var x := a.frames[0][a.offset];
      if a.offset + 1 == FRAME {
        assert a.frames[0][a.offset..a.offset + n] == [x];
      } else {
        DrainedBlock(c, n - 1, more);
        assert (n - 1) + more == n + more - 1;
        var b := if a.offset + n < FRAME then a.(offset := a.offset + n) else a.(frames := a.frames[1..], offset := 0);
        JoinBlock(x, a.frames[0], a.offset, n, Drained(b, more).1);
      }
    }
  }

  lemma JoinBlock(x: real, f: seq<real>, i: nat, n: nat, rest: seq<real>)
    requires 0 < n && i + n <= |f| && x == f[i]
    ensures [x] + (f[i + 1..i + 1 + (n - 1)] + rest) == f[i..i + n] + rest
  {
    assert f[i..i + n] == [x] + f[i + 1..i + n];
  }

  lemma DrainedStep<S>(a: Stage<S>, n: nat)
    requires Sound(a) && a.frames != [] && n > 0
    ensures Sound(Drained1(a))
    ensures Drained(a, n) == (Drained(Drained1(a), n - 1).0, [a.frames[0][a.offset]] + Drained(Drained1(a), n - 1).1)
  {
  }

  class RNNoiseProcessor<S> {
    const model: Model<S>
    var st: S
    const inputRing: array<real>
    var inputRingOffset: nat
    const outBuffer: array<real>
    var outWritePos: nat
    var outReadPos: nat
    var outAvailable: nat
    var outSampleOffset: nat

    ghost predicate Valid()
      reads this
    {
      && inputRing.Length == FRAME && inputRingOffset < FRAME
      && outBuffer.Length == SLOTS * FRAME && inputRing != outBuffer
      && outReadPos < SLOTS && outAvailable <= SLOTS
      && outWritePos == (outReadPos + outAvailable) % SLOTS
      && outSampleOffset < FRAME && (outAvailable == 0 ==> outSampleOffset == 0)
    }

    /** The stage the buffers stand for. */
    ghost function Abstract(): (a: Stage<S>)
      requires Valid()
      reads this, inputRing, outBuffer
      ensures Sound(a)
    {
      Stage(st, inputRing[..inputRingOffset], Ringed(outBuffer[..], outReadPos, outAvailable), outSampleOffset)
    }

    constructor (model: Model<S>, st: S)
      ensures Valid() && Abstract() == Start(st).a && this.model == model
      ensures fresh(inputRing) && fresh(outBuffer)
    {
      this.model, this.st := model, st;
      inputRing := new real[FRAME](_ => 0.0);
      outBuffer := new real[SLOTS * FRAME](_ => 0.0);
      inputRingOffset, outWritePos, outReadPos, outAvailable, outSampleOffset := 0, 0, 0, 0, 0;
    }

    /** Writes a frame into the slot at the write position. */
    method WriteSlot(frame: seq<real>)
      requires Valid() && |frame| == FRAME
      modifies outBuffer
      ensures SlotWritten(old(outBuffer[..]), outBuffer[..], outWritePos, frame)
    {
      var writeStart := outWritePos * FRAME;
      for i := 0 to FRAME
        invariant forall j :: 0 <= j < i ==> outBuffer[writeStart + j] == frame[j]
        invariant forall j :: 0 <= j < outBuffer.Length && !(writeStart <= j < writeStart + FRAME) ==>
                    outBuffer[j] == old(outBuffer[j])
      {
        outBuffer[writeStart + i] := frame[i];
      }
    }

    /** Runs the full input array through the model and stores the result in the ring. */
    method ProcessFrame()
      requires Valid()
      modifies this, outBuffer
      ensures inputRing[..] == old(inputRing[..]) && inputRingOffset == 0
      ensures Valid()
      ensures Abstract() ==
              var (next, frame) := Denoise(model, old(st), old(inputRing[..]));
              Stored(old(Abstract()), next, frame)
    {
      hide Denoise, Ringed, SlotWritten;
      var (next, frame) := Denoise(model, st, inputRing[..]);
      st := next;
      WriteSlot(frame);
      if outAvailable < SLOTS {
        RingPush(old(outBuffer[..]), outBuffer[..], outReadPos, outAvailable, frame);
        outAvailable := outAvailable + 1;
      } else {
        RingOverwrite(old(outBuffer[..]), outBuffer[..], outReadPos, frame);
        outReadPos := (outReadPos + 1) % SLOTS;
        outSampleOffset := 0;
      }
      outWritePos := (outWritePos + 1) % SLOTS;
      inputRingOffset := 0;
    }

    /** Appends a block to the input array. */
    method CopyInput(block: seq<real>)
      requires Valid() && inputRingOffset + |block| <= FRAME
      modifies inputRing
      ensures inputRing[..inputRingOffset + |block|] == old(inputRing[..inputRingOffset]) + block
    {
      for i := 0 to |block|
        invariant forall j :: 0 <= j < i ==> inputRing[inputRingOffset + j] == block[j]
        invariant forall j :: 0 <= j < inputRingOffset ==> inputRing[j] == old(inputRing[j])
      {
        inputRing[inputRingOffset + i] := block[i];
      }
    }

    /** Takes input of any length, a block at a time. */
    method ProcessInput(inData: seq<real>)
      requires Valid()
      modifies this, inputRing, outBuffer
      ensures Valid() && Abstract() == Fed(model, old(Abstract()), inData)
    {
      hide Fed, Denoise, Ringed;
      var inIdx := 0;
      ghost var was := Abstract();
      FedNothing(model, was);
      assert inData[..0] == [];
      while inIdx < |inData|
        invariant Valid() && inIdx <= |inData| && Abstract() == Fed(model, was, inData[..inIdx])
      {
        inIdx := TakeBlock(inData, inIdx, was);
      }
      assert inData[..inIdx] == inData;
    }

    method TakeBlock(inData: seq<real>, inIdx: nat, ghost was: Stage<S>) returns (next: nat)
      requires Valid() && inIdx < |inData| && Abstract() == Fed(model, was, inData[..inIdx])
      modifies this, inputRing, outBuffer
      ensures inIdx < next <= |inData| && Valid() && Abstract() == Fed(model, was, inData[..next])
    {
      hide Fed, Denoise, Ringed, Stored;
      var needed := FRAME - inputRingOffset;
      var toCopy := if needed < |inData| - inIdx then needed else |inData| - inIdx;
      next := inIdx + toCopy;
      ghost var before := Abstract();
      ghost var block := inData[inIdx..next];
      assert inData[..next] == inData[..inIdx] + block;
      FedConcat(model, was, inData[..inIdx], block);
      CopyInput(inData[inIdx..next]);
      if inputRingOffset + toCopy >= FRAME {
        FedFrame(model, before, block);
        assert inputRing[..] == inputRing[..FRAME];
        ProcessFrame();
      } else {
        FedShort(model, before, block);
        inputRingOffset := inputRingOffset + toCopy;
      }
    }
  
    /** Copies samples of the frame at the read position to the output. */
    method CopyOutput(outData: array<real>, outIdx: nat, toWrite: nat)
      requires Valid() && outAvailable > 0 && outSampleOffset + toWrite <= FRAME && outIdx + toWrite <= outData.Length
      requires outData != outBuffer && outData != inputRing
      modifies outData
      ensures outData[..outIdx + toWrite] ==
              old(outData[..outIdx]) + Abstract().frames[0][outSampleOffset..outSampleOffset + toWrite]
    {
      var readStart := outReadPos * FRAME;
      ghost var block := Abstract().frames[0][outSampleOffset..outSampleOffset + toWrite];
      assert Abstract().frames[0] == Slot(outBuffer[..], outReadPos);
      ghost var b := outBuffer[..];
      assert forall j :: 0 <= j < toWrite ==> block[j] == b[readStart + outSampleOffset + j];
      hide Ringed, Slot;
      for i := 0 to toWrite
        invariant outBuffer[..] == b
        invariant forall j :: 0 <= j < i ==> outData[outIdx + j] == block[j]
        invariant forall j :: 0 <= j < outIdx ==> outData[j] == old(outData[j])
      {
        assert block[i] == b[readStart + outSampleOffset + i] == outBuffer[readStart + outSampleOffset + i];
        outData[outIdx + i] := outBuffer[readStart + outSampleOffset + i];
      }
    }

    /** Fills the output from the ring, and with silence once the ring is empty. */
    method FillOutput(outData: array<real>)
      requires Valid() && outData != outBuffer && outData != inputRing
      modifies this, outData
      ensures Valid()
      ensures var (a, out) := Drained(old(Abstract()), outData.Length);
              && Abstract() == a
              && outData[..] == out + Zeros(outData.Length - |out|)
    {
      hide Drained, Ringed, Sound;
      ghost var was := Abstract();
      var outIdx := 0;
      assert [] + Drained(was, outData.Length).1 == Drained(was, outData.Length).1;
      while outIdx < outData.Length && outAvailable > 0
        invariant Valid() && outIdx <= outData.Length
        invariant var (a, rest) := Drained(Abstract(), outData.Length - outIdx);
                  Drained(was, outData.Length) == (a, outData[..outIdx] + rest)
        decreases outData.Length - outIdx
      {
        outIdx := PlayBlock(outData, outIdx, was);
      }
      DrainedNone(Abstract(), outData.Length - outIdx);
      ghost var out := outData[..outIdx];
      assert out + [] == out;
      for i := outIdx to outData.Length
        invariant Valid() && Abstract() == Drained(was, outData.Length).0
        invariant outData[..outIdx] == out
        invariant forall j :: outIdx <= j < i ==> outData[j] == 0.0
      {
        outData[i] := 0.0;
      }
      assert outData[..] == out + Zeros(outData.Length - outIdx);
    }

    method PlayBlock(outData: array<real>, outIdx: nat, ghost was: Stage<S>) returns (next: nat)
      requires Valid() && outData != outBuffer && outData != inputRing && outAvailable > 0
               && outIdx < outData.Length && Sound(was)
      requires var (a, rest) := Drained(Abstract(), outData.Length - outIdx);
               Drained(was, outData.Length) == (a, outData[..outIdx] + rest)
      modifies this, outData
      ensures Valid() && outIdx < next <= outData.Length
      ensures var (a, rest) := Drained(Abstract(), outData.Length - next);
              Drained(was, outData.Length) == (a, outData[..next] + rest)
    {
      hide Drained, Ringed, Sound;
      var available := FRAME - outSampleOffset;
      var toWrite := if available < outData.Length - outIdx then available else outData.Length - outIdx;
      next := outIdx + toWrite;
      ghost var before := Abstract();
      DrainedBlock(before, toWrite, outData.Length - next);
      assert toWrite + (outData.Length - next) == outData.Length - outIdx;
      ghost var head := outData[..outIdx];
      CopyOutput(outData, outIdx, toWrite);
      RingPop(outBuffer[..], outReadPos, outAvailable);
      outSampleOffset := outSampleOffset + toWrite;
      if outSampleOffset >= FRAME {
        outReadPos := (outReadPos + 1) % SLOTS;
        outAvailable := outAvailable - 1;
        outSampleOffset := 0;
      }
      ghost var block := before.frames[0][before.offset..before.offset + toWrite];
      ghost var rest := Drained(Abstract(), outData.Length - next).1;
      assert head + (block + rest) == (head + block) + rest;
    }

    /** One render call once RNNoise is running. */
    method Process(inData: seq<real>, outData: array<real>)
      requires Valid() && outData != outBuffer && outData != inputRing
      modifies this, inputRing, outBuffer, outData
      ensures Valid()
      ensures Sound(Fed(model, old(Abstract()), inData))
      ensures var (a, out) := Drained(Fed(model, old(Abstract()), inData), outData.Length);
              && Abstract() == a
              && outData[..] == out + Zeros(outData.Length - |out|)
    {
      hide Fed, Drained, Ringed, Sound;
      ProcessInput(inData);
      FillOutput(outData);
    }
  }

  lemma DrainedNone<S>(a: Stage<S>, n: nat)
    requires Sound(a) && (n == 0 || a.frames == [])
    ensures Drained(a, n) == (a, [])
  {
  }

  lemma FedNothing<S>(model: Model<S>, a: Stage<S>)
    ensures Fed(model, a, []) == a
  {
  }
}
