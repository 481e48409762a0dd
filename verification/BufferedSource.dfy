/** piMemoryBufferedSource: the counter that interleaves frames with the parameter sets. */
module BufferedSource {
  import opened Bytes
  import opened NalMailbox
  import opened RtspRuns

  /** What is pushed while the consumer sleeps between two polls, one batch for each sleep. */
  type Arrivals = seq<seq<Chunk>>

  predicate Deliverable(arrivals: Arrivals) {
    forall i :: 0 <= i < |arrivals| ==> AllWellSized(arrivals[i])
  }

  /** One call of doGetNextFrame in the world of RtspRuns, if it returns within these arrivals. */
  function Waited(w: World, arrivals: Arrivals): World
    requires Deliverable(arrivals)
    decreases |arrivals|
  {
    var v := Consumed(w);
    if |v.delivered| > |w.delivered| || arrivals == [] then v
    else Waited(After(v, ExpandAll(arrivals[0])), arrivals[1..])
  }

  function Pushes(arrivals: Arrivals): seq<Step>
    requires Deliverable(arrivals)
    decreases |arrivals|
  {
    if arrivals == [] then [] else ExpandAll(arrivals[0]) + Pushes(arrivals[1..])
  }

  /** A call is a run: polls of the consumer between the pushes that arrive. */
  lemma {:induction false} CallIsARun(w: World, arrivals: Arrivals) returns (run: seq<Step>)
    requires Deliverable(arrivals)
    ensures Waited(w, arrivals) == After(w, run) && Producer(run) <= Pushes(arrivals)
    decreases |arrivals|
  {
    var v := Consumed(w);
    AfterTwo(w, Consume, Consume);
    run := [Consume];
    if |v.delivered| <= |w.delivered| && arrivals != [] {
      hide Consumed, Do, Expand;
      var pushes := ExpandAll(arrivals[0]);
      var rest := CallIsARun(After(v, pushes), arrivals[1..]);
      AfterConcat(w, [Consume], pushes);
      AfterConcat(w, [Consume] + pushes, rest);
      ExpandIsProducer(arrivals[0]);
      ProducerOnly(pushes);
      ProducerConcat([Consume], pushes);
      ProducerConcat([Consume] + pushes, rest);
      run := [Consume] + pushes + rest;
    }
  }

  // ---- when a call returns ------------------------------------------------------------------

  /** The world after some batches, with nobody reading. */
  function AfterBatches(w: World, arrivals: Arrivals): World
    requires Deliverable(arrivals)
    decreases |arrivals|
  {
    if arrivals == [] then w else AfterBatches(After(w, ExpandAll(arrivals[0])), arrivals[1..])
  }

  /** Steps of the producer fill an empty slot exactly when they publish, and then with the latest. */
  lemma {:induction false} PublishFillsSlot(w: World, steps: seq<Step>)
    requires Consume !in steps && w.box.frame == []
    ensures var v := After(w, steps);
      && w.published <= v.published
      && (v.box.frame == [] <==> v.published == w.published)
      && (v.box.frame != [] ==> v.box.frame == v.published[|v.published| - 1])
    decreases |steps|
  {
    if steps != [] {
      PublishFillsSlot(w, steps[..|steps| - 1]);
    }
  }

  lemma {:induction false} BatchesPublish(w: World, arrivals: Arrivals)
    requires Deliverable(arrivals)
    ensures w.published <= AfterBatches(w, arrivals).published
    ensures KeepsConsumer(w, AfterBatches(w, arrivals))
    decreases |arrivals|
  {
    if arrivals != [] {
      hide After, ExpandAll;
      var v := After(w, ExpandAll(arrivals[0]));
      PublishedGrows(w, ExpandAll(arrivals[0]));
      PushKeepsConsumer(w, arrivals[0]);
      BatchesPublish(v, arrivals[1..]);
    }
  }

  /** The batch that ends the call: the first that publishes, counted from 1, or none. */
  predicate EndsWith(w: World, arrivals: Arrivals, i: nat)
    requires Deliverable(arrivals)
  {
    && 1 <= i <= |arrivals|
    && AfterBatches(w, arrivals[..i]).published != w.published
    && AfterBatches(w, arrivals[..i - 1]).published == w.published
  }

  /** The world after one frame has been taken out of the slot. */
  predicate FrameTaken(w: World, v: World, body: seq<byte>) {
    && v.delivered == w.delivered + [Frame(|w.published| - 1, body)]
    && v.box == w.box.(frame := []) && v.published == w.published && v.idx == w.idx + 1
  }

  lemma BatchesHead(w: World, arrivals: Arrivals, i: nat)
    requires Deliverable(arrivals) && 1 <= i <= |arrivals|
    ensures Deliverable(arrivals[1..]) && Deliverable(arrivals[..i])
    ensures AfterBatches(w, arrivals[..i]) == AfterBatches(After(w, ExpandAll(arrivals[0])), arrivals[1..][..i - 1])
  {
    hide After, ExpandAll, AllWellSized;
    assert arrivals[..i][0] == arrivals[0] && arrivals[..i][1..] == arrivals[1..][..i - 1];
  }

  /** With a full slot a call for a frame returns it at once, and nothing is pushed meanwhile. */
  lemma FullSlotIsTaken(w: World, arrivals: Arrivals)
    requires Deliverable(arrivals) && w.idx < 5 && w.box.frame != []
    ensures FrameTaken(w, Waited(w, arrivals), w.box.frame)
  {
  }

  /** One batch with an empty slot: the call polls in vain, the batch is pushed, and the call polls again. */
  lemma OneMoreBatch(w: World, arrivals: Arrivals)
    requires Deliverable(arrivals) && arrivals != [] && w.idx < 5 && w.box.frame == []
    ensures var u := After(w, ExpandAll(arrivals[0]));
      && Waited(w, arrivals) == Waited(u, arrivals[1..])
      && AfterBatches(w, arrivals) == AfterBatches(u, arrivals[1..])
      && w.published <= u.published && KeepsConsumer(w, u)
      && (u.published == w.published ==> u.box.frame == [])
      && (u.published != w.published ==> u.box.frame != [] && u.box.frame == u.published[|u.published| - 1])
  {
    UnfoldBatch(w, arrivals);
    hide *;
    ExpandIsProducer(arrivals[0]);
    PublishFillsSlot(w, ExpandAll(arrivals[0]));
    PushKeepsConsumer(w, arrivals[0]);
  }

  lemma UnfoldBatch(w: World, arrivals: Arrivals)
    requires Deliverable(arrivals) && arrivals != [] && w.idx < 5 && w.box.frame == []
    ensures AllWellSized(arrivals[0]) && Deliverable(arrivals[1..])
    ensures Waited(w, arrivals) == Waited(After(w, ExpandAll(arrivals[0])), arrivals[1..])
    ensures AfterBatches(w, arrivals) == AfterBatches(After(w, ExpandAll(arrivals[0])), arrivals[1..])
  {
    hide After, ExpandAll, AllWellSized;
  }

  lemma {:induction false} EndOfCall(w: World, arrivals: Arrivals, i: nat)
    requires Deliverable(arrivals) && w.idx < 5 && w.box.frame == [] && EndsWith(w, arrivals, i)
    ensures var u := AfterBatches(w, arrivals[..i]);
      u.published != [] && FrameTaken(u, Waited(w, arrivals), u.published[|u.published| - 1])
    decreases i
  {
    OneMoreBatch(w, arrivals);
    EndsWithMeans(w, arrivals, i);
    BatchesHead(w, arrivals, i);
    var u, rest := After(w, ExpandAll(arrivals[0])), arrivals[1..];
    hide After, ExpandAll, Waited, AllWellSized, FrameTaken;
    if i == 1 {
      assert rest[..0] == [];
      FullSlotIsTaken(u, rest);
    } else {
      BatchesHead(w, arrivals, i - 1);
      BatchesPublish(u, rest[..i - 2]);
      assert u.published == w.published;
      EndOfCall(u, rest, i - 1);
    }
  }

  lemma EndsWithMeans(w: World, arrivals: Arrivals, i: nat)
    requires Deliverable(arrivals) && EndsWith(w, arrivals, i)
    ensures 1 <= i <= |arrivals| && AfterBatches(w, arrivals[..i]).published != w.published
    ensures AfterBatches(w, arrivals[..i - 1]).published == w.published
  {
  }

  lemma {:induction false} ReturnsIfPublished(w: World, arrivals: Arrivals)
    requires Deliverable(arrivals) && w.idx < 5 && w.box.frame == []
    ensures var v, all := Waited(w, arrivals), AfterBatches(w, arrivals);
      && w.published <= all.published
      && (|v.delivered| > |w.delivered| <==> all.published != w.published)
      && (all.published == w.published ==> v == all && v.delivered == w.delivered)
    decreases |arrivals|
  {
    if arrivals != [] {
      var u := After(w, ExpandAll(arrivals[0]));
      OneMoreBatch(w, arrivals);
      BatchesPublish(u, arrivals[1..]);
      hide After, ExpandAll, AllWellSized;
      if u.published != w.published {
        FullSlotIsTaken(u, arrivals[1..]);
      } else {
        ReturnsIfPublished(u, arrivals[1..]);
      }
    }
  }

  /**
   With an empty slot a call for a frame goes on polling, one batch after the other. It returns exactly if some
   batch publishes a body: then with the last body that the first such batch has published, when
   exactly the batches up to that one have been pushed. Otherwise all have been pushed, and it still waits.
   */
  lemma CallReturnsExactly(w: World, arrivals: Arrivals)
    requires Deliverable(arrivals) && w.idx < 5 && w.box.frame == []
    ensures var v, all := Waited(w, arrivals), AfterBatches(w, arrivals);
      && w.published <= all.published
      && (|v.delivered| > |w.delivered| <==> all.published != w.published)
      && (all.published == w.published ==> v == all && v.delivered == w.delivered)
    ensures forall i: nat :: EndsWith(w, arrivals, i) ==>
      var u := AfterBatches(w, arrivals[..i]);
      u.published != [] && FrameTaken(u, Waited(w, arrivals), u.published[|u.published| - 1])
  {
    ReturnsIfPublished(w, arrivals);
    forall i: nat | EndsWith(w, arrivals, i)
      ensures var u := AfterBatches(w, arrivals[..i]);
        u.published != [] && FrameTaken(u, Waited(w, arrivals), u.published[|u.published| - 1])
    {
      EndOfCall(w, arrivals, i);
    }
  }

  /** If all batches together publish something, there is a first one that does. */
  lemma {:induction false} SomeBatchEnds(w: World, arrivals: Arrivals) returns (i: nat)
    requires Deliverable(arrivals) && AfterBatches(w, arrivals).published != w.published
    ensures EndsWith(w, arrivals, i)
    decreases |arrivals|
  {
    var n := |arrivals| - 1;
    assert arrivals[..|arrivals|] == arrivals;
    if AfterBatches(w, arrivals[..n]).published == w.published {
      i := n + 1;
    } else {
      i := SomeBatchEnds(w, arrivals[..n]);
      assert arrivals[..n][..i] == arrivals[..i] && arrivals[..n][..i - 1] == arrivals[..i - 1];
    }
  }

  class PiMemoryBufferedSource {
    const fBuffer: PiMemoryBuffer
    var nFrameIdx: nat

    constructor (input: PiMemoryBuffer)
      ensures fBuffer == input && nFrameIdx == 0
    {
      fBuffer := input;
      nFrameIdx := 0;
    }

    /** The encoder thread pushing during one sleep. */
    method PushAll(chunks: seq<Chunk>, ghost w: World)
      requires fBuffer.Valid() && AllWellSized(chunks) && w.box == fBuffer.View()
      modifies fBuffer, fBuffer.sps, fBuffer.pps, fBuffer.tempData, fBuffer.frameData
      ensures fBuffer.Valid() && fBuffer.View() == After(w, ExpandAll(chunks)).box
      ensures After(w, ExpandAll(chunks)).idx == w.idx && After(w, ExpandAll(chunks)).delivered == w.delivered
    {
      NothingExpanded(w);
      assert chunks[..0] == [];
      for k := 0 to |chunks|
        invariant fBuffer.Valid() && fBuffer.View() == After(w, ExpandAll(chunks[..k])).box
      {
        PushChunk(chunks, k, w);
      }
      assert chunks[..|chunks|] == chunks;
      PushKeepsConsumer(w, chunks);
    }

    method PushChunk(chunks: seq<Chunk>, k: nat, ghost w: World)
      requires AllWellSized(chunks) && k < |chunks|
      requires fBuffer.Valid() && fBuffer.View() == After(w, ExpandAll(chunks[..k])).box
      modifies fBuffer, fBuffer.sps, fBuffer.pps, fBuffer.tempData, fBuffer.frameData
      ensures fBuffer.Valid() && fBuffer.View() == After(w, ExpandAll(chunks[..k + 1])).box
    {
      hide After, Expand, ExpandAll, Pushed, WellSized;
      assert chunks[..k + 1] == chunks[..k] + [chunks[k]];
      ExpandSnoc(chunks[..k], chunks[k]);
      AfterConcat(w, ExpandAll(chunks[..k]), Expand(chunks[k]));
      PushIsItsSteps(After(w, ExpandAll(chunks[..k])), chunks[k]);
      fBuffer.PushFrameData(chunks[k]);
    }

    /**
     One call: poll until a frame is there, or hand out a parameter set, and advance the counter.
     returned is false when the frame has not come within the arrivals; the call is still waiting then.
     */
    method DoGetNextFrame(fTo: array<byte>, arrivals: Arrivals, ghost w: World)
        returns (frameSize: nat, returned: bool, ghost v: World)
      requires fBuffer.Valid() && Deliverable(arrivals)
      requires w.box == fBuffer.View() && w.idx == nFrameIdx
      requires nFrameIdx == PARAMETER_SET_DISTANCE ==> fBuffer.spsLen <= PARAMETER_SET_MAX
      requires nFrameIdx > PARAMETER_SET_DISTANCE ==> fBuffer.ppsLen <= PARAMETER_SET_MAX
      requires fTo !in {fBuffer.sps, fBuffer.pps, fBuffer.tempData, fBuffer.frameData}
      requires fTo.Length >= RTSP_INPUT_BUFFER_MAX
      modifies this, fTo, fBuffer, fBuffer.sps, fBuffer.pps, fBuffer.tempData, fBuffer.frameData
      ensures v == Waited(w, arrivals)
      ensures fBuffer.Valid() && fBuffer.View() == v.box && nFrameIdx == v.idx
      ensures returned <==> |v.delivered| == |w.delivered| + 1
      ensures returned ==> frameSize <= fTo.Length
      ensures returned && IsKnown(v.delivered[|w.delivered|]) ==>
        DataOf(v.delivered[|w.delivered|]) == fTo[..frameSize]
      ensures !returned ==> v.delivered == w.delivered
    {
      v := w;
      returned, frameSize := true, 0;
      if nFrameIdx < PARAMETER_SET_DISTANCE {
        var i := 0;
        frameSize := fBuffer.ReadFrameData(fTo);
        while frameSize == 0 && i < |arrivals|
          invariant i <= |arrivals| && fBuffer.Valid()
          invariant v.idx == nFrameIdx == w.idx && v.delivered == w.delivered
          invariant fBuffer.View() == v.box.(frame := [])
          invariant frameSize <= fTo.Length && frameSize == |v.box.frame| && fTo[..frameSize] == v.box.frame
          invariant Waited(w, arrivals) == Waited(v, arrivals[i..])
        {
          assert v.box == v.box.(frame := []);
          PushAll(arrivals[i], v);
          v := After(v, ExpandAll(arrivals[i]));
          i := i + 1;
          frameSize := fBuffer.ReadFrameData(fTo);
        }
        if frameSize == 0 {
          returned := false;
          return;
        }
      } else if nFrameIdx == PARAMETER_SET_DISTANCE {
        frameSize := fBuffer.ReadFrameSps(fTo);
      } else {
        frameSize := fBuffer.ReadFramePps(fTo);
        nFrameIdx := 0;
      }
      nFrameIdx := nFrameIdx + 1;
      v := Consumed(v);
    }
  }

  function DataOf(d: Delivery): seq<byte>
    requires IsKnown(d)
  {
    match d
    case Frame(_, data) => data
    case SpsSet(s) => s.value
    case PpsSet(s) => s.value
  }
}
