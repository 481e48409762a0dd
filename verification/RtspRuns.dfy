/**
 The encoder thread pushing into PI_MEMORY_BUFFER while the RTSP thread takes NAL units out of it
 through piMemoryBufferedSource::doGetNextFrame: all interleavings of their locked steps.
 */
module RtspRuns {
  import opened Bytes
  import opened NalMailbox

  const PARAMETER_SET_DISTANCE: nat := 5

  /** What the source hands to the RTP sink; pick tells which published body a frame is. */
  datatype Delivery =
    | Frame(pick: int, data: seq<byte>)
    | SpsSet(sps: Option<seq<byte>>)
    | PpsSet(pps: Option<seq<byte>>)

  /** A frame, or a set that was saved before. */
  predicate IsKnown(d: Delivery) {
    (d.SpsSet? ==> d.sps.Some?) && (d.PpsSet? ==> d.pps.Some?)
  }

  /** The mailbox, the log of what was published, and the consumer with the log of what it delivered. */
  datatype World = World(box: Mailbox, published: seq<seq<byte>>, taken: nat, idx: nat, delivered: seq<Delivery>)

  const Start := World(EmptyMailbox, [], 0, 0, [])

  datatype Step =
    | Flush                      // flush_frame_data, under buffer_lock
    | Load(body: seq<byte>)      // the memcpy of a new slice into temp_data
    | Append(data: seq<byte>)    // trailing data
    | SaveSps(data: seq<byte>)   // under spspps_lock
    | SavePps(data: seq<byte>)
    | Consume                    // one poll, or one parameter set, of doGetNextFrame

  function Consumed(w: World): World {
    if w.idx < PARAMETER_SET_DISTANCE then
      if w.box.frame == [] then w
      else w.(box := w.box.(frame := []), taken := |w.published|, idx := w.idx + 1,
              delivered := w.delivered + [Frame(|w.published| - 1, w.box.frame)])
    else if w.idx == PARAMETER_SET_DISTANCE then
      w.(idx := w.idx + 1, delivered := w.delivered + [SpsSet(w.box.sps)])
    else
      w.(idx := 0 + 1, delivered := w.delivered + [PpsSet(w.box.pps)])
  }

  function Do(w: World, step: Step): World {
    match step
    case Flush =>
      w.(box := Flushed(w.box), published := if |w.box.temp| > 0 then w.published + [w.box.temp] else w.published)
    case Load(body) => w.(box := Loaded(w.box, body))
    case Append(data) => w.(box := Appended(w.box, data))
    case SaveSps(data) => w.(box := w.box.(sps := Some(data)))
    case SavePps(data) => w.(box := w.box.(pps := Some(data)))
    case Consume => Consumed(w)
  }

  function After(w: World, run: seq<Step>): World
    decreases |run|
  {
    if run == [] then w else Do(After(w, run[..|run| - 1]), run[|run| - 1])
  }

  lemma {:induction false} AfterConcat(w: World, a: seq<Step>, b: seq<Step>)
    ensures After(w, a + b) == After(After(w, a), b)
    decreases |b|
  {
    if b == [] {
      assert a + b == a;
    } else {
      var n := |b| - 1;
      AfterConcat(w, a, b[..n]);
      assert (a + b)[..|a + b| - 1] == a + b[..n];
    }
  }

  lemma AfterOne(w: World, a: seq<Step>, step: Step)
    ensures After(w, a + [step]) == Do(After(w, a), step)
  {
    assert (a + [step])[..|a|] == a;
  }

  // ---- the mailbox in every run -------------------------------------------------------------

  /** The slot is full exactly when something was published after the last successful read. */
  predicate SlotInv(w: World) {
    && w.taken <= |w.published|
    && (w.box.frame == [] <==> w.taken == |w.published|)
    && (w.box.frame != [] ==> w.box.frame == w.published[|w.published| - 1])
  }

  /** Delivered frames are published bodies, each at most once, in the order of publication. */
  predicate FramesInv(w: World) {
    && (forall i :: 0 <= i < |w.delivered| && w.delivered[i].Frame? ==>
          && 0 <= w.delivered[i].pick < w.taken <= |w.published|
          && w.delivered[i].data == w.published[w.delivered[i].pick])
    && (forall i, j :: 0 <= i < j < |w.delivered| && w.delivered[i].Frame? && w.delivered[j].Frame? ==>
          w.delivered[i].pick < w.delivered[j].pick)
  }

  lemma MailboxInvKept(w: World, step: Step)
    requires SlotInv(w) && FramesInv(w)
    ensures SlotInv(Do(w, step)) && FramesInv(Do(w, step))
  {
  }

  lemma {:induction false} MailboxInv(run: seq<Step>)
    ensures SlotInv(After(Start, run)) && FramesInv(After(Start, run))
    decreases |run|
  {
    if run != [] {
      hide SlotInv, FramesInv, Do;
      MailboxInv(run[..|run| - 1]);
      MailboxInvKept(After(Start, run[..|run| - 1]), run[|run| - 1]);
    }
  }

  /**
   Safety of the mailbox over every interleaving: the frames delivered form a subsequence of the
   published bodies, none partial, none twice; a poll comes back empty exactly when nothing was
   published since the last one that did not; and what it returns is the latest.
   */
  lemma MailboxIsSafe(run: seq<Step>)
    ensures var w := After(Start, run);
      && FramesInv(w)
      && (w.idx < PARAMETER_SET_DISTANCE ==> (Do(w, Consume) == w <==> w.taken == |w.published|))
      && (w.idx < PARAMETER_SET_DISTANCE && w.taken < |w.published| ==>
            Do(w, Consume).delivered == w.delivered + [Frame(|w.published| - 1, w.published[|w.published| - 1])])
  {
    MailboxInv(run);
  }

  // ---- the delivery schedule ----------------------------------------------------------------

  datatype DeliveryKind = FrameKind | SpsKind | PpsKind

  function KindOfDelivery(d: Delivery): DeliveryKind {
    if d.Frame? then FrameKind else if d.SpsSet? then SpsKind else PpsKind
  }

  /** Delivery n: five frames, SPS, PPS, and from then on four frames, SPS, PPS. */
  function KindAt(n: nat): DeliveryKind {
    if n == 0 || (n - 1) % 6 < 4 then FrameKind else if (n - 1) % 6 == 4 then SpsKind else PpsKind
  }

  /** nFrameIdx after n deliveries. */
  function IdxAfter(n: nat): nat {
    if n == 0 then 0 else (n - 1) % 6 + 1
  }

  lemma ScheduleStep(n: nat)
    ensures IdxAfter(n + 1) == if IdxAfter(n) > PARAMETER_SET_DISTANCE then 1 else IdxAfter(n) + 1
    ensures KindAt(n) == if IdxAfter(n) < PARAMETER_SET_DISTANCE then FrameKind
                         else if IdxAfter(n) == PARAMETER_SET_DISTANCE then SpsKind else PpsKind
  {
  }

  /** The counter and the kinds of the deliveries so far agree with the schedule. */
  predicate OnSchedule(w: World) {
    && w.idx == IdxAfter(|w.delivered|)
    && forall n :: 0 <= n < |w.delivered| ==> KindOfDelivery(w.delivered[n]) == KindAt(n)
  }

  lemma ScheduleKept(w: World, step: Step)
    requires OnSchedule(w)
    ensures OnSchedule(Do(w, step))
  {
    hide KindAt, IdxAfter, Flushed, Loaded, Appended;
    ScheduleStep(|w.delivered|);
  }

  lemma {:induction false} DeliverySchedule(run: seq<Step>)
    ensures OnSchedule(After(Start, run))
    decreases |run|
  {
    if run != [] {
      hide OnSchedule, Do;
      DeliverySchedule(run[..|run| - 1]);
      ScheduleKept(After(Start, run[..|run| - 1]), run[|run| - 1]);
    }
  }

  /** A PPS directly follows every SPS and comes nowhere else. */
  lemma PpsFollowsSps(n: nat)
    ensures KindAt(n + 1) == PpsKind <==> KindAt(n) == SpsKind
    ensures KindAt(0) == FrameKind
  {
  }

  // ---- the producer -------------------------------------------------------------------------

  /** The steps of push_frame_data for one chunk. */
  function Expand(c: Chunk): seq<Step>
    requires WellSized(c)
  {
    match KindOf(c)
    case TooBig => []
    case Sps => [SaveSps(Payload(c))]
    case Pps => [SavePps(Payload(c))]
    case SliceStart => [Flush, Load(Payload(c))]
    case Trailing => [Append(Payload(c))]
  }

  predicate AllWellSized(chunks: seq<Chunk>) {
    forall i :: 0 <= i < |chunks| ==> WellSized(chunks[i])
  }

  function ExpandAll(chunks: seq<Chunk>): seq<Step>
    requires AllWellSized(chunks)
    decreases |chunks|
  {
    if chunks == [] then [] else ExpandAll(chunks[..|chunks| - 1]) + Expand(chunks[|chunks| - 1])
  }

  lemma AfterTwo(w: World, a: Step, b: Step)
    ensures After(w, [a]) == Do(w, a) && After(w, [a, b]) == Do(Do(w, a), b)
  {
    hide Do;
    AfterOne(w, [], a);
    AfterOne(w, [a], b);
    assert [] + [a] == [a] && [a] + [b] == [a, b];
  }

  /** The steps together are the method: pushing a chunk in one go gives the same mailbox. */
  lemma PushIsItsSteps(w: World, c: Chunk)
    requires WellSized(c)
    ensures After(w, Expand(c)).box == Pushed(w.box, c)
    ensures After(w, Expand(c)).published
         == if KindOf(c) == SliceStart && |w.box.temp| > 0 then w.published + [w.box.temp] else w.published
  {
    hide KindOf, WellSized, Payload;
    match KindOf(c) {
      case TooBig =>
      case Sps => AfterTwo(w, SaveSps(Payload(c)), Flush);
      case Pps => AfterTwo(w, SavePps(Payload(c)), Flush);
      case SliceStart => AfterTwo(w, Flush, Load(Payload(c)));
      case Trailing => AfterTwo(w, Append(Payload(c)), Flush);
    }
  }

  lemma ExpandSnoc(chunks: seq<Chunk>, c: Chunk)
    requires AllWellSized(chunks) && WellSized(c)
    ensures AllWellSized(chunks + [c]) && ExpandAll(chunks + [c]) == ExpandAll(chunks) + Expand(c)
  {
    hide WellSized, Expand;
    assert (chunks + [c])[..|chunks|] == chunks;
  }

  lemma {:induction false} ExpandConcat(a: seq<Chunk>, b: seq<Chunk>)
    requires AllWellSized(a) && AllWellSized(b)
    ensures AllWellSized(a + b) && ExpandAll(a + b) == ExpandAll(a) + ExpandAll(b)
    decreases |b|
  {
    hide WellSized, Expand, ExpandAll;
    if b == [] {
      assert a + b == a;
      NothingToExpand();
    } else {
      var n := |b| - 1;
      ExpandConcat(a, b[..n]);
      ExpandSnoc(a + b[..n], b[n]);
      ExpandSnoc(b[..n], b[n]);
      assert a + b == (a + b[..n]) + [b[n]] && b == b[..n] + [b[n]];
    }
  }

  lemma NothingToExpand()
    ensures ExpandAll([]) == []
  {
  }

  // ---- NAL units ----------------------------------------------------------------------------

  /**
   A slice NAL unit as the encoder delivers it: a chunk with the start code and the header byte, and
   chunks of trailing data, with unsplit parameter sets between them. Emulation prevention (section
   7.4.1 of ITU-T H.264) keeps start codes out of the trailing data.
   */
  datatype Slice = Slice(start: Chunk, rest: seq<Chunk>)

  predicate IsParameterSet(c: Chunk) {
    WellSized(c) && KindOf(c) in {Sps, Pps}
  }

  predicate IsRest(rest: seq<Chunk>) {
    forall i :: 0 <= i < |rest| ==> WellSized(rest[i]) && (KindOf(rest[i]) == Trailing || IsParameterSet(rest[i]))
  }

  function Trail(c: Chunk): seq<byte>
    requires WellSized(c)
  {
    if KindOf(c) == Trailing then c.mem[..c.len] else []
  }

  function Trails(rest: seq<Chunk>): seq<byte>
    requires IsRest(rest)
    decreases |rest|
  {
    if rest == [] then [] else Trails(rest[..|rest| - 1]) + Trail(rest[|rest| - 1])
  }

  /** The NAL unit without its start code. */
  function Body(s: Slice): seq<byte>
    requires WellSized(s.start) && KindOf(s.start) == SliceStart && IsRest(s.rest)
  {
    s.start.mem[4..s.start.len] + Trails(s.rest)
  }

  predicate IsSlice(s: Slice) {
    && WellSized(s.start) && KindOf(s.start) == SliceStart && s.start.len > 4
    && IsRest(s.rest) && |Body(s)| <= RTSP_INPUT_BUFFER_MAX
  }

  predicate AreSlices(slices: seq<Slice>) {
    forall i :: 0 <= i < |slices| ==> IsSlice(slices[i])
  }

  function Bodies(slices: seq<Slice>): seq<seq<byte>>
    requires AreSlices(slices)
  {
    seq(|slices|, i requires 0 <= i < |slices| => Body(slices[i]))
  }

  function ChunksOf(slices: seq<Slice>): (chunks: seq<Chunk>)
    requires AreSlices(slices)
    ensures AllWellSized(chunks)
    decreases |slices|
  {
    if slices == [] then []
    else
      var s := slices[|slices| - 1];
      ChunksOf(slices[..|slices| - 1]) + ([s.start] + s.rest)
  }

  lemma RestChunk(w: World, c: Chunk)
    requires WellSized(c) && (KindOf(c) == Trailing || IsParameterSet(c))
    requires |w.box.temp| + |Trail(c)| <= RTSP_INPUT_BUFFER_MAX
    ensures var v := After(w, Expand(c)); v.box.temp == w.box.temp + Trail(c) && v.published == w.published
  {
    hide After, Expand;
    PushIsItsSteps(w, c);
  }

  predicate RestAppended(w: World, v: World, trails: seq<byte>) {
    v.box.temp == w.box.temp + trails && v.published == w.published
  }

  lemma TrailsSnoc(before: seq<Chunk>, c: Chunk)
    requires IsRest(before + [c])
    ensures IsRest(before) && WellSized(c) && (KindOf(c) == Trailing || IsParameterSet(c))
    ensures Trails(before + [c]) == Trails(before) + Trail(c)
  {
    hide WellSized, KindOf, IsParameterSet, Trail;
    assert (before + [c])[..|before|] == before && (before + [c])[|before|] == c;
    forall i | 0 <= i < |before|
      ensures WellSized(before[i]) && (KindOf(before[i]) == Trailing || IsParameterSet(before[i]))
    {
      assert before[i] == (before + [c])[i];
    }
  }

  lemma RestExtended(w: World, v: World, before: seq<byte>, c: Chunk)
    requires WellSized(c) && (KindOf(c) == Trailing || IsParameterSet(c))
    requires RestAppended(w, v, before) && |w.box.temp| + |before| + |Trail(c)| <= RTSP_INPUT_BUFFER_MAX
    ensures RestAppended(w, After(v, Expand(c)), before + Trail(c))
  {
    hide WellSized, KindOf, IsParameterSet, Trail, After, Expand;
    RestChunk(v, c);
    assert w.box.temp + before + Trail(c) == w.box.temp + (before + Trail(c));
  }

  /** Trailing chunks are appended, parameter sets pass by, nothing is published. */
  lemma {:induction false} RestIsAppended(w: World, rest: seq<Chunk>)
    requires IsRest(rest) && |w.box.temp| + |Trails(rest)| <= RTSP_INPUT_BUFFER_MAX
    ensures RestAppended(w, After(w, ExpandAll(rest)), Trails(rest))
    decreases |rest|
  {
    if rest != [] {
      hide *;
      var n := |rest| - 1;
      var before, c := rest[..n], rest[n];
      assert rest == before + [c];
      TrailsSnoc(before, c);
      RestIsAppended(w, before);
      RestWellSized(before);
      ExpandSnoc(before, c);
      AfterConcat(w, ExpandAll(before), Expand(c));
      RestExtended(w, After(w, ExpandAll(before)), Trails(before), c);
    }
  }

  lemma RestWellSized(rest: seq<Chunk>)
    requires IsRest(rest)
    ensures AllWellSized(rest)
  {
    hide WellSized, KindOf, IsParameterSet;
  }

  /** A slice first publishes what was assembled before it, then is assembled itself. */
  lemma SliceIsAssembled(w: World, s: Slice)
    requires IsSlice(s)
    ensures AllWellSized([s.start] + s.rest)
    ensures var v := After(w, ExpandAll([s.start] + s.rest));
      && v.box.temp == Body(s)
      && v.published == if |w.box.temp| > 0 then w.published + [w.box.temp] else w.published
  {
    hide KindOf, Expand, After, Do, Trail, IsParameterSet;
    assert ExpandAll([s.start]) == Expand(s.start) by {
      assert [s.start][..0] == [];
    }
    ExpandConcat([s.start], s.rest);
    AfterConcat(w, ExpandAll([s.start]), ExpandAll(s.rest));
    PushIsItsSteps(w, s.start);
    RestIsAppended(After(w, Expand(s.start)), s.rest);
  }

  /** What has been published once the first n >= 1 slices have been pushed. */
  predicate PublishedUpTo(v: World, before: seq<seq<byte>>, bodies: seq<seq<byte>>, n: nat)
    requires 0 < n <= |bodies|
  {
    v.box.temp == bodies[n - 1] && v.published == before + bodies[..n - 1]
  }

  lemma {:induction false} SlicesArePublished(w: World, slices: seq<Slice>, n: nat)
    requires AreSlices(slices) && w.box.temp == [] && 0 < n <= |slices|
    ensures PublishedUpTo(After(w, ExpandAll(ChunksOf(slices[..n]))), w.published, Bodies(slices), n)
  {
    hide IsSlice, WellSized, KindOf, Expand, ExpandAll, After, Body;
    var before, s, bodies := slices[..n - 1], slices[n - 1], Bodies(slices);
    assert slices[..n][..n - 1] == before;
    var v := After(w, ExpandAll(ChunksOf(before)));
    SliceIsAssembled(v, s);
    ExpandConcat(ChunksOf(before), [s.start] + s.rest);
    AfterConcat(w, ExpandAll(ChunksOf(before)), ExpandAll([s.start] + s.rest));
    if n == 1 {
      assert ChunksOf(before) == [];
      NothingExpanded(w);
    } else {
      SlicesArePublished(w, slices, n - 1);
      BodyNotEmpty(slices[n - 2]);
      assert bodies[..n - 1] == bodies[..n - 2] + [bodies[n - 2]];
    }
  }

  lemma NothingExpanded(w: World)
    ensures After(w, ExpandAll([])) == w
  {
  }

  lemma BodyNotEmpty(s: Slice)
    requires IsSlice(s)
    ensures |Body(s)| > 0
  {
  }

  // ---- producer and consumer together -------------------------------------------------------

  /** The steps of the producer in a run. */
  function Producer(run: seq<Step>): seq<Step>
    decreases |run|
  {
    if run == [] then []
    else
      var before, step := Producer(run[..|run| - 1]), run[|run| - 1];
      if step == Consume then before else before + [step]
  }

  /** Two worlds that look the same to the producer. */
  predicate SameForProducer(w: World, v: World) {
    && w.published == v.published && w.box.temp == v.box.temp
    && w.box.sps == v.box.sps && w.box.pps == v.box.pps
  }

  /** The consumer never disturbs the producer. */
  lemma {:induction false} ConsumerIsInvisible(run: seq<Step>)
    ensures SameForProducer(After(Start, run), After(Start, Producer(run)))
    decreases |run|
  {
    if run != [] {
      var before, step := run[..|run| - 1], run[|run| - 1];
      ConsumerIsInvisible(before);
      if step != Consume {
        AfterOne(Start, Producer(before), step);
      }
    }
  }

  lemma {:induction false} ExpandIsProducer(chunks: seq<Chunk>)
    requires AllWellSized(chunks)
    ensures Consume !in ExpandAll(chunks)
    decreases |chunks|
  {
    if chunks != [] {
      hide WellSized, KindOf;
      ExpandIsProducer(chunks[..|chunks| - 1]);
    }
  }

  lemma {:induction false} ProducerConcat(a: seq<Step>, b: seq<Step>)
    ensures Producer(a + b) == Producer(a) + Producer(b)
    decreases |b|
  {
    if b == [] {
      assert a + b == a;
    } else {
      var n := |b| - 1;
      ProducerConcat(a, b[..n]);
      assert (a + b)[..|a + b| - 1] == a + b[..n];
    }
  }

  lemma {:induction false} ProducerOnly(run: seq<Step>)
    requires Consume !in run
    ensures Producer(run) == run
    decreases |run|
  {
    if run != [] {
      ProducerOnly(run[..|run| - 1]);
    }
  }

  predicate KeepsConsumer(w: World, v: World) {
    v.idx == w.idx && v.delivered == w.delivered && v.taken == w.taken
  }

  lemma PushKeepsConsumer(w: World, chunks: seq<Chunk>)
    requires AllWellSized(chunks)
    ensures KeepsConsumer(w, After(w, ExpandAll(chunks)))
  {
    ExpandIsProducer(chunks);
    StepsKeepConsumer(w, ExpandAll(chunks));
  }

  lemma {:induction false} StepsKeepConsumer(w: World, steps: seq<Step>)
    requires Consume !in steps
    ensures KeepsConsumer(w, After(w, steps))
    decreases |steps|
  {
    if steps != [] {
      StepsKeepConsumer(w, steps[..|steps| - 1]);
    }
  }

  lemma {:induction false} PublishedGrows(w: World, run: seq<Step>)
    ensures w.published <= After(w, run).published
    decreases |run|
  {
    if run != [] {
      PublishedGrows(w, run[..|run| - 1]);
    }
  }

  /** What the encoder sends: parameter sets first, then slices. */
  function StreamSteps(preamble: seq<Chunk>, slices: seq<Slice>): seq<Step>
    requires AreSlices(slices) && IsPreamble(preamble)
  {
    ExpandAll(preamble + ChunksOf(slices))
  }

  predicate IsPreamble(preamble: seq<Chunk>) {
    forall i :: 0 <= i < |preamble| ==> IsParameterSet(preamble[i])
  }

  lemma {:induction false} PreamblePublishesNothing(preamble: seq<Chunk>)
    requires IsPreamble(preamble)
    ensures After(Start, ExpandAll(preamble)).published == [] && After(Start, ExpandAll(preamble)).box.temp == []
    decreases |preamble|
  {
    if preamble != [] {
      var n := |preamble| - 1;
      PreamblePublishesNothing(preamble[..n]);
      AfterConcat(Start, ExpandAll(preamble[..n]), Expand(preamble[n]));
      PushIsItsSteps(After(Start, ExpandAll(preamble[..n])), preamble[n]);
    }
  }

  /**
   NAL reassembly: of any stream of slices, with parameter sets before and between their chunks, the
   published values are exactly the bodies of all slices but the last, in order, and the last one is
   complete in temp_data.
   */
  lemma NalReassembly(preamble: seq<Chunk>, slices: seq<Slice>)
    requires AreSlices(slices) && IsPreamble(preamble) && slices != []
    ensures var w := After(Start, StreamSteps(preamble, slices));
      && w.published == Bodies(slices)[..|slices| - 1]
      && w.box.temp == Body(slices[|slices| - 1])
  {
    PreamblePublishesNothing(preamble);
    ExpandConcat(preamble, ChunksOf(slices));
    AfterConcat(Start, ExpandAll(preamble), ExpandAll(ChunksOf(slices)));
    SlicesArePublished(After(Start, ExpandAll(preamble)), slices, |slices|);
    assert slices[..|slices|] == slices;
  }

  /**
   End to end, for every interleaving and at every moment of it: each frame delivered is the complete
   body of one slice, no slice is delivered twice or out of order, and the last slice never.
   */
  lemma DeliveredFramesAreSlices(run: seq<Step>, preamble: seq<Chunk>, slices: seq<Slice>)
    requires AreSlices(slices) && IsPreamble(preamble) && slices != []
    requires Producer(run) <= StreamSteps(preamble, slices)
    ensures var w := After(Start, run);
      && w.published <= Bodies(slices)[..|slices| - 1]
      && (forall i :: 0 <= i < |w.delivered| && w.delivered[i].Frame? ==>
            0 <= w.delivered[i].pick < |slices| - 1 && w.delivered[i].data == Body(slices[w.delivered[i].pick]))
      && (forall i, j :: 0 <= i < j < |w.delivered| && w.delivered[i].Frame? && w.delivered[j].Frame? ==>
            w.delivered[i].pick < w.delivered[j].pick)
  {
    hide IsSlice, IsPreamble, StreamSteps, SlotInv, After, Body;
    var all, done := StreamSteps(preamble, slices), Producer(run);
    NalReassembly(preamble, slices);
    ConsumerIsInvisible(run);
    assert all == done + all[|done|..];
    AfterConcat(Start, done, all[|done|..]);
    PublishedGrows(After(Start, done), all[|done|..]);
    MailboxInv(run);
  }
}
