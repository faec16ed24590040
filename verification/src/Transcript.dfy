/** A recorded harness conversation, and the channel that replays it (`transcript.ts`). */
module Transcript {
  import opened Foundations
  import opened Json

  type Frame = Json
  type Batches = seq<seq<Frame>>

  /** The frames of the first `n` batches, run together. */
  function Spoken(batches: Batches, n: nat): seq<Frame>
    requires n <= |batches|
  {
    if n == 0 then [] else Spoken(batches, n - 1) + batches[n - 1]
  }

  /** All a harness has said once `results` tool results were written: one batch to open with, one per result. */
  function Heard(batches: Batches, results: nat): seq<Frame> {
    Spoken(batches, if results < |batches| then results + 1 else |batches|)
  }

  lemma {:induction false} SpokenGrows(batches: Batches, n: nat, more: nat)
    requires n <= more <= |batches|
    ensures |Spoken(batches, n)| <= |Spoken(batches, more)|
    ensures Spoken(batches, n) == Spoken(batches, more)[..|Spoken(batches, n)|]
  {
    if n == more {
      assert Spoken(batches, n)[..|Spoken(batches, n)|] == Spoken(batches, n);
    } else {
      SpokenGrows(batches, n, more - 1);
      assert Spoken(batches, more)[..|Spoken(batches, n)|] == Spoken(batches, more - 1)[..|Spoken(batches, n)|];
    }
  }

  /** Writing a result only ever adds to what has been said. */
  lemma HeardGrows(batches: Batches, results: nat, more: nat)
    requires results <= more
    ensures |Heard(batches, results)| <= |Heard(batches, more)|
    ensures Heard(batches, results) == Heard(batches, more)[..|Heard(batches, results)|]
  {
    SpokenGrows(batches, if results < |batches| then results + 1 else |batches|,
                if more < |batches| then more + 1 else |batches|);
  }

  /** One batch to open with, and one more per result while there are more. */
  lemma OneBatchPerResult(batches: Batches, results: nat)
    ensures Heard(batches, 0) == if batches == [] then [] else batches[0]
    ensures Heard(batches, results + 1)
      == Heard(batches, results) + if results + 1 < |batches| then batches[results + 1] else []
  {
    if batches != [] { assert Spoken(batches, 0) + batches[0] == batches[0]; }
    assert Heard(batches, results) + [] == Heard(batches, results);
  }

  /** The list every channel of one transport appends to. */
  class FrameLog {
    var frames: seq<Frame>

    constructor ()
      ensures frames == []
    {
      frames := [];
    }
  }

  class TranscriptChannel {
    const batches: Batches
    const written: FrameLog
    var batch: nat
    var index: nat
    var unlocked: nat

    ghost predicate Valid()
      reads this
    {
      if batch < |batches| then index <= |batches[batch]| else batch == |batches| && index == 0
    }

    /** Tool results written so far: those already spent on a batch, and those still to spend. */
    ghost function Results(): nat
      reads this
    {
      batch + unlocked
    }

    /** Frames read so far. */
    ghost function Position(): (position: nat)
      requires Valid()
      reads this
      ensures position <= |Heard(batches, Results())|
    {
      SpokenGrows(batches, batch, |batches|);
      if batch < |batches| then
        SpokenGrows(batches, batch + 1, if Results() < |batches| then Results() + 1 else |batches|);
        |Spoken(batches, batch)| + index
      else |Spoken(batches, batch)|
    }

    constructor (batches: Batches, written: FrameLog)
      ensures Valid() && this.batches == batches && this.written == written
      ensures Position() == 0 && Results() == 0
    {
      this.batches, this.written := batches, written;
      batch, index, unlocked := 0, 0, 0;
    }

    /** The next frame of what has been heard; none once all of it was read, and then nothing moves. */
    method Read() returns (frame: Option<Frame>)
      requires Valid()
      modifies this
      ensures Valid() && Results() == old(Results())
      ensures
        var heard := Heard(batches, Results());
        if old(Position()) < |heard|
        then frame == Some(heard[old(Position())]) && Position() == old(Position()) + 1
        else frame == None && Position() == old(Position())
    {
      ghost var heard := Heard(batches, Results());
      ghost var position := Position();
      while batch < |batches| && index == |batches[batch]| && unlocked > 0
        invariant Valid() && Results() == old(Results()) && Position() == position
        decreases |batches| - batch
      {
        unlocked := unlocked - 1;
        batch, index := batch + 1, 0;
      }
      if batch == |batches| { return None; }
      if index == |batches[batch]| { return None; }
      SpokenGrows(batches, batch + 1, if Results() < |batches| then Results() + 1 else |batches|);
      assert Spoken(batches, batch + 1)[position] == batches[batch][index];
      frame := Some(batches[batch][index]);
      index := index + 1;
    }

    /** Records the frame and lets one more batch be said. */
    method Write(frame: Frame)
      requires Valid()
      modifies this`unlocked, written
      ensures Valid() && Position() == old(Position()) && Results() == old(Results()) + 1
      ensures written.frames == old(written.frames) + [frame]
    {
      written.frames := written.frames + [frame];
      unlocked := unlocked + 1;
    }
  }
}
