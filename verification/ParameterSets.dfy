/**
 sps_len and pps_len are uninitialised until the encoder delivers the parameter sets. This module says
 exactly when the RTSP thread can hand out a set that was never saved.
 */
module ParameterSets {
  import opened Bytes
  import opened NalMailbox
  import opened RtspRuns

  predicate DeliveredSetsKnown(w: World) {
    forall n :: 0 <= n < |w.delivered| ==> IsKnown(w.delivered[n])
  }

  predicate SetsKnown(w: World) {
    w.box.sps.Some? && w.box.pps.Some?
  }

  // ---- what is saved ------------------------------------------------------------------------

  predicate HasKind(chunks: seq<Chunk>, kind: Kind) {
    exists i :: 0 <= i < |chunks| && KindOf(chunks[i]) == kind
  }

  lemma HasKindConcat(a: seq<Chunk>, b: seq<Chunk>, kind: Kind)
    ensures HasKind(a + b, kind) <==> HasKind(a, kind) || HasKind(b, kind)
  {
    hide KindOf;
    if HasKind(a, kind) {
      var i :| 0 <= i < |a| && KindOf(a[i]) == kind;
      assert (a + b)[i] == a[i];
    }
    if HasKind(b, kind) {
      var i :| 0 <= i < |b| && KindOf(b[i]) == kind;
      assert (a + b)[|a| + i] == b[i];
    }
  }

  lemma HasKindOne(c: Chunk, kind: Kind)
    ensures HasKind([c], kind) <==> KindOf(c) == kind
  {
    hide KindOf;
    assert [c][0] == c;
  }

  lemma PushSaves(w: World, c: Chunk)
    requires WellSized(c)
    ensures After(w, Expand(c)).box.sps.Some? <==> w.box.sps.Some? || KindOf(c) == Sps
    ensures After(w, Expand(c)).box.pps.Some? <==> w.box.pps.Some? || KindOf(c) == Pps
  {
    PushIsItsSteps(w, c);
    hide KindOf, WellSized, Payload, After, Expand;
  }

  /** A set is known exactly when a chunk of its kind has been pushed. */
  lemma {:induction false} SavedExactly(chunks: seq<Chunk>)
    requires AllWellSized(chunks)
    ensures After(Start, ExpandAll(chunks)).box.sps.Some? <==> HasKind(chunks, Sps)
    ensures After(Start, ExpandAll(chunks)).box.pps.Some? <==> HasKind(chunks, Pps)
    decreases |chunks|
  {
    hide KindOf, WellSized, Expand, HasKind;
    if chunks == [] {
      NothingSaved();
    } else {
      var n := |chunks| - 1;
      var before, c := chunks[..n], chunks[n];
      assert chunks == before + [c];
      SavedExactly(before);
      AfterConcat(Start, ExpandAll(before), Expand(c));
      PushSaves(After(Start, ExpandAll(before)), c);
      HasKindConcat(before, [c], Sps);
      HasKindConcat(before, [c], Pps);
      HasKindOne(c, Sps);
      HasKindOne(c, Pps);
    }
  }

  lemma NothingSaved()
    ensures After(Start, ExpandAll([])).box == EmptyMailbox
    ensures !HasKind([], Sps) && !HasKind([], Pps)
  {
  }

  lemma {:induction false} SetsStayKnown(w: World, run: seq<Step>)
    ensures w.box.sps.Some? ==> After(w, run).box.sps.Some?
    ensures w.box.pps.Some? ==> After(w, run).box.pps.Some?
    decreases |run|
  {
    if run != [] {
      SetsStayKnown(w, run[..|run| - 1]);
    }
  }

  // ---- the stream up to its sixth slice -----------------------------------------------------

  lemma PreambleWellSized(preamble: seq<Chunk>)
    requires IsPreamble(preamble)
    ensures AllWellSized(preamble)
  {
    hide WellSized, KindOf;
  }

  /** Everything pushed before the sixth slice starts. */
  function BeforeSixth(preamble: seq<Chunk>, slices: seq<Slice>): (chunks: seq<Chunk>)
    requires AreSlices(slices) && IsPreamble(preamble) && |slices| >= 5
    ensures AllWellSized(chunks)
  {
    preamble + ChunksOf(slices[..5])
  }

  lemma ChunksOfNext(slices: seq<Slice>, n: nat)
    requires AreSlices(slices) && n < |slices|
    ensures AllWellSized([slices[n].start] + slices[n].rest)
    ensures ChunksOf(slices[..n + 1]) == ChunksOf(slices[..n]) + ([slices[n].start] + slices[n].rest)
  {
    assert slices[..n + 1][..n] == slices[..n];
    hide WellSized, KindOf;
  }

  lemma {:induction false} ChunksGrow(slices: seq<Slice>, n: nat)
    requires AreSlices(slices) && n <= |slices|
    ensures ChunksOf(slices[..n]) <= ChunksOf(slices)
    decreases |slices| - n
  {
    hide IsSlice, ChunksOf;
    if n == |slices| {
      assert slices[..n] == slices;
    } else {
      ChunksOfNext(slices, n);
      ChunksGrow(slices, n + 1);
    }
  }

  /** Of the stream, the first n slices are pushed first. */
  lemma StepsOfFirst(preamble: seq<Chunk>, slices: seq<Slice>, n: nat)
    requires AreSlices(slices) && IsPreamble(preamble) && n <= |slices|
    ensures StreamSteps(preamble, slices[..n]) <= StreamSteps(preamble, slices)
  {
    hide IsSlice, ChunksOf, WellSized, KindOf, IsParameterSet, Expand, ExpandAll;
    ChunksGrow(slices, n);
    PreambleWellSized(preamble);
    var first, all := preamble + ChunksOf(slices[..n]), preamble + ChunksOf(slices);
    var rest := ChunksOf(slices)[|ChunksOf(slices[..n])|..];
    assert all == first + rest;
    ExpandConcat(first, rest);
  }

  /** At most one body less than slices is published. */
  lemma PublishedCount(done: seq<Step>, preamble: seq<Chunk>, slices: seq<Slice>)
    requires AreSlices(slices) && IsPreamble(preamble) && done <= StreamSteps(preamble, slices)
    ensures After(Start, done).published != [] ==> |After(Start, done).published| < |slices|
  {
    hide IsSlice, IsPreamble, StreamSteps, After, Body;
    var all := StreamSteps(preamble, slices);
    assert all == done + all[|done|..];
    AfterConcat(Start, done, all[|done|..]);
    PublishedGrows(After(Start, done), all[|done|..]);
    if slices == [] {
      NoSliceNothingPublished(preamble);
    } else {
      NalReassembly(preamble, slices);
    }
  }

  lemma NoSliceNothingPublished(preamble: seq<Chunk>)
    requires IsPreamble(preamble)
    ensures After(Start, StreamSteps(preamble, [])).published == []
  {
    PreamblePublishesNothing(preamble);
    assert preamble + ChunksOf([]) == preamble;
    hide IsPreamble, After, ExpandAll;
  }

  /** A fifth body is published at the start of the sixth slice only. */
  lemma FivePublishedLate(done: seq<Step>, preamble: seq<Chunk>, slices: seq<Slice>)
    requires AreSlices(slices) && IsPreamble(preamble) && done <= StreamSteps(preamble, slices)
    requires |After(Start, done).published| >= 5
    ensures |slices| >= 6 && StreamSteps(preamble, slices[..5]) <= done
  {
    hide IsSlice, IsPreamble, StreamSteps, After;
    PublishedCount(done, preamble, slices);
    StepsOfFirst(preamble, slices, 5);
    if |done| <= |StreamSteps(preamble, slices[..5])| {
      PublishedCount(done, preamble, slices[..5]);
    }
  }

  // ---- no unsaved set -----------------------------------------------------------------------

  /** The consumer gets to a parameter set after five frames. */
  lemma FiveFramesFirst(w: World)
    requires SlotInv(w) && FramesInv(w) && OnSchedule(w) && w.idx >= PARAMETER_SET_DISTANCE
    ensures |w.published| >= 5
  {
    assert |w.delivered| >= 5;
    forall n | 0 <= n < 5 ensures w.delivered[n].Frame? {
      assert KindOfDelivery(w.delivered[n]) == KindAt(n);
    }
    assert w.delivered[0].pick < w.delivered[1].pick < w.delivered[2].pick < w.delivered[3].pick < w.delivered[4].pick;
  }

  /** When the consumer gets to a parameter set, both are known. */
  lemma KnownInTime(run: seq<Step>, preamble: seq<Chunk>, slices: seq<Slice>)
    requires AreSlices(slices) && IsPreamble(preamble) && Producer(run) <= StreamSteps(preamble, slices)
    requires |slices| >= 6 ==>
      HasKind(BeforeSixth(preamble, slices), Sps) && HasKind(BeforeSixth(preamble, slices), Pps)
    requires After(Start, run).idx >= PARAMETER_SET_DISTANCE
    ensures SetsKnown(After(Start, run))
  {
    MailboxInv(run);
    DeliverySchedule(run);
    FiveFramesFirst(After(Start, run));
    hide *;
    ConsumerIsInvisible(run);
    SameMeans(After(Start, run), After(Start, Producer(run)));
    FivePublishedLate(Producer(run), preamble, slices);
    KnownAfterFive(Producer(run), preamble, slices);
  }

  lemma SameMeans(w: World, v: World)
    requires SameForProducer(w, v)
    ensures w.published == v.published && (SetsKnown(w) <==> SetsKnown(v))
  {
  }

  lemma DeliveryIsKnown(w: World, step: Step)
    requires DeliveredSetsKnown(w) && (w.idx >= PARAMETER_SET_DISTANCE ==> SetsKnown(w))
    ensures DeliveredSetsKnown(Do(w, step))
  {
  }

  lemma {:induction false} KnownSetsOnly(run: seq<Step>, preamble: seq<Chunk>, slices: seq<Slice>)
    requires AreSlices(slices) && IsPreamble(preamble) && Producer(run) <= StreamSteps(preamble, slices)
    requires |slices| >= 6 ==>
      HasKind(BeforeSixth(preamble, slices), Sps) && HasKind(BeforeSixth(preamble, slices), Pps)
    ensures DeliveredSetsKnown(After(Start, run))
    decreases |run|
  {
    if run != [] {
      var before, step := run[..|run| - 1], run[|run| - 1];
      assert Producer(before) <= Producer(run);
      assert After(Start, run) == Do(After(Start, before), step);
      hide *;
      KnownSetsOnly(before, preamble, slices);
      if After(Start, before).idx >= PARAMETER_SET_DISTANCE {
        KnownInTime(before, preamble, slices);
      }
      DeliveryIsKnown(After(Start, before), step);
    } else {
      assert After(Start, run) == Start;
    }
  }

  lemma KnownAfterFive(done: seq<Step>, preamble: seq<Chunk>, slices: seq<Slice>)
    requires AreSlices(slices) && IsPreamble(preamble) && |slices| >= 6
    requires StreamSteps(preamble, slices[..5]) <= done
    requires HasKind(BeforeSixth(preamble, slices), Sps) && HasKind(BeforeSixth(preamble, slices), Pps)
    ensures SetsKnown(After(Start, done))
  {
    SixthSteps(preamble, slices);
    hide IsSlice, IsPreamble, StreamSteps, BeforeSixth, After, HasKind, WellSized, ExpandAll;
    var first := StreamSteps(preamble, slices[..5]);
    assert done == first + done[|first|..];
    AfterConcat(Start, first, done[|first|..]);
    SavedExactly(BeforeSixth(preamble, slices));
    SetsStayKnown(After(Start, first), done[|first|..]);
  }

  lemma SixthSteps(preamble: seq<Chunk>, slices: seq<Slice>)
    requires AreSlices(slices) && IsPreamble(preamble) && |slices| >= 5
    ensures StreamSteps(preamble, slices[..5]) == ExpandAll(BeforeSixth(preamble, slices))
  {
    hide IsSlice, ChunksOf, WellSized, ExpandAll;
  }

  /** In particular when both sets come before the first slice. */
  lemma DeliveredSetsWereSaved(run: seq<Step>, preamble: seq<Chunk>, slices: seq<Slice>, i: nat, j: nat)
    requires AreSlices(slices) && IsPreamble(preamble) && Producer(run) <= StreamSteps(preamble, slices)
    requires i < |preamble| && KindOf(preamble[i]) == Sps && j < |preamble| && KindOf(preamble[j]) == Pps
    ensures DeliveredSetsKnown(After(Start, run))
  {
    hide KindOf, IsSlice, ChunksOf, DeliveredSetsKnown, After, Producer;
    if |slices| >= 6 {
      HasKindConcat(preamble, ChunksOf(slices[..5]), Sps);
      HasKindConcat(preamble, ChunksOf(slices[..5]), Pps);
    }
    KnownSetsOnly(run, preamble, slices);
  }

  // ---- an unsaved set -----------------------------------------------------------------------

  /** The run in which the consumer polls once after every slice. */
  function Polled(preamble: seq<Chunk>, slices: seq<Slice>, n: nat): seq<Step>
    requires AreSlices(slices) && IsPreamble(preamble) && n <= |slices|
  {
    if n == 0 then PreambleWellSized(preamble); ExpandAll(preamble)
    else
      ChunksOfNext(slices, n - 1);
      Polled(preamble, slices, n - 1) + ExpandAll([slices[n - 1].start] + slices[n - 1].rest) + [Consume]
  }

  lemma {:induction false} PolledPushes(preamble: seq<Chunk>, slices: seq<Slice>, n: nat)
    requires AreSlices(slices) && IsPreamble(preamble) && n <= |slices|
    ensures Producer(Polled(preamble, slices, n)) == StreamSteps(preamble, slices[..n])
  {
    hide IsSlice, WellSized, KindOf, IsParameterSet, Expand, ExpandAll, Producer, ChunksOf;
    PreambleWellSized(preamble);
    if n == 0 {
      ExpandIsProducer(preamble);
      ProducerOnly(ExpandAll(preamble));
      NoChunks(slices);
      assert preamble + ChunksOf(slices[..0]) == preamble;
    } else {
      var before, chunks := Polled(preamble, slices, n - 1), [slices[n - 1].start] + slices[n - 1].rest;
      PolledPushes(preamble, slices, n - 1);
      ChunksOfNext(slices, n - 1);
      ExpandIsProducer(chunks);
      ProducerOnly(ExpandAll(chunks));
      ProducerConcat(before, ExpandAll(chunks));
      ProducerConcat(before + ExpandAll(chunks), [Consume]);
      ProducerOfConsume();
      ExpandConcat(preamble + ChunksOf(slices[..n - 1]), chunks);
      assert preamble + ChunksOf(slices[..n - 1]) + chunks == preamble + ChunksOf(slices[..n]);
    }
  }

  lemma NoChunks(slices: seq<Slice>)
    requires AreSlices(slices)
    ensures ChunksOf(slices[..0]) == []
  {
  }

  lemma ProducerOfConsume()
    ensures Producer([Consume]) == []
  {
    assert [Consume][..0] == [];
  }

  /** After n polled slices n - 1 frames have been delivered, and the last slice is assembled. */
  predicate PolledState(w: World, n: nat) {
    && |w.published| == n - 1 && w.taken == n - 1 && w.idx == n - 1 && |w.box.temp| > 0
    && w.box.frame == []
  }

  lemma PollTakes(w: World, n: nat)
    requires SlotInv(w) && |w.published| == n && w.taken == n - 1 && w.idx == n - 1 && |w.box.temp| > 0
    requires 1 <= n <= 5
    ensures PolledState(Do(w, Consume), n + 1)
  {
  }

  lemma {:induction false} PolledDelivers(preamble: seq<Chunk>, slices: seq<Slice>, n: nat)
    requires AreSlices(slices) && IsPreamble(preamble) && 1 <= n <= |slices| && n <= 5
    ensures PolledState(After(Start, Polled(preamble, slices, n)), n)
  {
    hide IsSlice, WellSized, KindOf, IsParameterSet, IsPreamble, Expand, ExpandAll, After, Body, SlotInv, Do, ChunksOf;
    var before, s := Polled(preamble, slices, n - 1), slices[n - 1];
    var w := After(Start, before);
    ChunksOfNext(slices, n - 1);
    var steps := ExpandAll([s.start] + s.rest);
    SliceIsAssembled(w, s);
    BodyNotEmpty(s);
    PushKeepsConsumer(w, [s.start] + s.rest);
    AfterConcat(Start, before, steps);
    AfterOne(Start, before + steps, Consume);
    var v := After(Start, before + steps);
    MailboxInv(before + steps);
    if n == 1 {
      PreambleWellSized(preamble);
      PreamblePublishesNothing(preamble);
      PushKeepsConsumer(Start, preamble);
      EmptyPoll(v);
    } else {
      PolledDelivers(preamble, slices, n - 1);
      PollTakes(v, n - 1);
    }
  }

  lemma EmptyPoll(w: World)
    requires SlotInv(w) && w.published == [] && w.taken == 0 && w.idx == 0 && |w.box.temp| > 0
    ensures PolledState(Do(w, Consume), 1)
  {
  }

  /** The start of the next slice makes the fifth frame available; then both sets are handed out. */
  lemma SetsAreHandedOut(w: World)
    requires PolledState(w, 5)
    ensures var v := After(w, [Flush, Consume, Consume, Consume]);
      v.delivered == w.delivered + [Frame(4, w.box.temp), SpsSet(w.box.sps), PpsSet(w.box.pps)]
  {
    var run := [Flush, Consume, Consume, Consume];
    assert run[..3] == [Flush, Consume, Consume] && run[..3][..2] == [Flush, Consume];
    assert [Flush, Consume][..1] == [Flush] && [Flush][..0] == [];
  }

  /** The run that hands out both sets as they are before the sixth slice. */
  function EarlyRun(preamble: seq<Chunk>, slices: seq<Slice>): seq<Step>
    requires AreSlices(slices) && IsPreamble(preamble) && |slices| >= 6
  {
    Polled(preamble, slices, 5) + [Flush, Consume, Consume, Consume]
  }

  lemma EarlyRunPushes(preamble: seq<Chunk>, slices: seq<Slice>)
    requires AreSlices(slices) && IsPreamble(preamble) && |slices| >= 6
    ensures Producer(EarlyRun(preamble, slices)) <= StreamSteps(preamble, slices)
  {
    hide IsSlice, IsPreamble, StreamSteps, Polled, WellSized, KindOf;
    PolledPushes(preamble, slices, 5);
    ProducerConcat(Polled(preamble, slices, 5), [Flush, Consume, Consume, Consume]);
    FlushOnly();
    SixthStartsWithFlush(preamble, slices);
    StepsOfFirst(preamble, slices, 6);
  }

  lemma FlushOnly()
    ensures Producer([Flush, Consume, Consume, Consume]) == [Flush]
  {
    var run := [Flush, Consume, Consume, Consume];
    assert run[..3] == [Flush, Consume, Consume] && run[..3][..2] == [Flush, Consume];
    assert [Flush, Consume][..1] == [Flush] && [Flush][..0] == [];
  }

  lemma SixthStartsWithFlush(preamble: seq<Chunk>, slices: seq<Slice>)
    requires AreSlices(slices) && IsPreamble(preamble) && |slices| >= 6
    ensures StreamSteps(preamble, slices[..5]) + [Flush] <= StreamSteps(preamble, slices[..6])
  {
    var first, s := preamble + ChunksOf(slices[..5]), slices[5];
    assert IsSlice(s);
    PreambleWellSized(preamble);
    ChunksOfNext(slices, 5);
    hide *;
    assert preamble + (ChunksOf(slices[..5]) + ([s.start] + s.rest)) == first + ([s.start] + s.rest);
    StepsAre(preamble, slices, 5);
    StepsAre(preamble, slices, 6);
    FlushBehind(first, s);
  }

  lemma StepsAre(preamble: seq<Chunk>, slices: seq<Slice>, n: nat)
    requires AreSlices(slices) && IsPreamble(preamble) && n <= |slices|
    ensures AllWellSized(preamble + ChunksOf(slices[..n]))
    ensures StreamSteps(preamble, slices[..n]) == ExpandAll(preamble + ChunksOf(slices[..n]))
  {
    PreambleWellSized(preamble);
    hide WellSized, IsSlice, ChunksOf, ExpandAll;
  }

  lemma FlushBehind(first: seq<Chunk>, s: Slice)
    requires AllWellSized(first) && IsSlice(s)
    ensures AllWellSized(first + ([s.start] + s.rest))
    ensures ExpandAll(first) + [Flush] <= ExpandAll(first + ([s.start] + s.rest))
  {
    StartsWithFlush(s);
    hide *;
    ExpandConcat(first, [s.start] + s.rest);
  }

  lemma StartsWithFlush(s: Slice)
    requires IsSlice(s)
    ensures AllWellSized([s.start] + s.rest) && [Flush] <= ExpandAll([s.start] + s.rest)
  {
    hide KindOf, Trail;
    assert [s.start][..0] == [];
    assert ExpandAll([s.start]) == [Flush, Load(Payload(s.start))];
    hide Expand, ExpandAll;
    ExpandConcat([s.start], s.rest);
  }

  lemma UnsavedIsDelivered(preamble: seq<Chunk>, slices: seq<Slice>)
    requires AreSlices(slices) && IsPreamble(preamble) && |slices| >= 6
    requires !(HasKind(BeforeSixth(preamble, slices), Sps) && HasKind(BeforeSixth(preamble, slices), Pps))
    ensures !DeliveredSetsKnown(After(Start, EarlyRun(preamble, slices)))
  {
    hide IsSlice, IsPreamble, StreamSteps, Polled, BeforeSixth, WellSized, KindOf, HasKind, After, ExpandAll;
    var polled := Polled(preamble, slices, 5);
    var w := After(Start, polled);
    PolledDelivers(preamble, slices, 5);
    PolledPushes(preamble, slices, 5);
    ConsumerIsInvisible(polled);
    SixthSteps(preamble, slices);
    SavedExactly(BeforeSixth(preamble, slices));
    AfterConcat(Start, polled, [Flush, Consume, Consume, Consume]);
    SetsAreHandedOut(w);
    var v := After(Start, EarlyRun(preamble, slices));
    assert v.delivered[|w.delivered| + 1] == SpsSet(w.box.sps);
    assert v.delivered[|w.delivered| + 2] == PpsSet(w.box.pps);
  }

  /** In no interleaving of this stream with the RTSP thread is a set handed out that was never saved. */
  ghost predicate NeverUnsaved(preamble: seq<Chunk>, slices: seq<Slice>)
    requires AreSlices(slices) && IsPreamble(preamble)
  {
    forall run :: Producer(run) <= StreamSteps(preamble, slices) ==> DeliveredSetsKnown(After(Start, run))
  }

  /**
   Exactly: no interleaving hands out an unsaved set if and only if both sets are pushed before the
   sixth slice starts, or there is no sixth slice.
   */
  lemma NeverUnsavedExactly(preamble: seq<Chunk>, slices: seq<Slice>)
    requires AreSlices(slices) && IsPreamble(preamble)
    ensures NeverUnsaved(preamble, slices)
       <==> |slices| < 6
            || (HasKind(BeforeSixth(preamble, slices), Sps) && HasKind(BeforeSixth(preamble, slices), Pps))
  {
    hide IsSlice, IsPreamble, StreamSteps, BeforeSixth, HasKind, KindOf, After, DeliveredSetsKnown, Producer, EarlyRun;
    if |slices| < 6 || (HasKind(BeforeSixth(preamble, slices), Sps) && HasKind(BeforeSixth(preamble, slices), Pps)) {
      forall run | Producer(run) <= StreamSteps(preamble, slices)
        ensures DeliveredSetsKnown(After(Start, run))
      {
        KnownSetsOnly(run, preamble, slices);
      }
    } else {
      EarlyRunPushes(preamble, slices);
      UnsavedIsDelivered(preamble, slices);
    }
  }

  // ---- what is in the sets ------------------------------------------------------------------

  /** The bytes behind the start code of the last chunk that begins 0 0 0 1 and has this fifth byte. */
  function LastWith(chunks: seq<Chunk>, fifth: byte): Option<seq<byte>>
    decreases |chunks|
  {
    if chunks == [] then None
    else
      var c := chunks[|chunks| - 1];
      if 4 <= c.len <= |c.mem| && c.len <= 300000 && |c.mem| >= 5 && c.mem[..5] == [0, 0, 0, 1, fifth]
      then Some(c.mem[4..c.len])
      else LastWith(chunks[..|chunks| - 1], fifth)
  }

  lemma FirstFive(c: Chunk)
    requires |c.mem| >= 5
    ensures c.mem[..5] == c.mem[..4] + [c.mem[4]]
  {
  }

  lemma LastWithOne(chunks: seq<Chunk>, c: Chunk, fifth: byte)
    requires WellSized(c)
    ensures LastWith(chunks + [c], fifth)
         == if c.len <= 300000 && c.mem[..4] == [0, 0, 0, 1] && c.mem[4] == fifth then Some(c.mem[4..c.len])
            else LastWith(chunks, fifth)
  {
    FirstFive(c);
    assert (chunks + [c])[..|chunks|] == chunks;
    if c.mem[..5] == [0, 0, 0, 1, fifth] {
      assert c.mem[..5][..4] == c.mem[..4] && c.mem[..5][4] == fifth;
    }
  }

  /** After whole chunks, the sets are those of the last chunks with their fifth bytes. */
  lemma {:induction false} SetsOfChunks(chunks: seq<Chunk>)
    requires AllWellSized(chunks)
    ensures After(Start, ExpandAll(chunks)).box.sps == LastWith(chunks, 0x27)
    ensures After(Start, ExpandAll(chunks)).box.pps == LastWith(chunks, 0x28)
    decreases |chunks|
  {
    if chunks == [] {
      NothingSaved();
    } else {
      var before, c := chunks[..|chunks| - 1], chunks[|chunks| - 1];
      var w := After(Start, ExpandAll(before));
      assert chunks == before + [c] && WellSized(c);
      SetsOfChunks(before);
      PushInBytes(w.box, c);
      hide *;
      ExpandSnoc(before, c);
      AfterConcat(Start, ExpandAll(before), Expand(c));
      PushIsItsSteps(w, c);
      LastWithOne(before, c, 0x27);
      LastWithOne(before, c, 0x28);
    }
  }

  /** How many of the chunks have been pushed completely by some steps of the producer. */
  function PushedBy(done: seq<Step>, chunks: seq<Chunk>): (k: nat)
    requires AllWellSized(chunks)
    ensures k <= |chunks|
    decreases |chunks|
  {
    if chunks == [] then 0
    else if |ExpandAll(chunks)| <= |done| then |chunks|
    else PushedBy(done, chunks[..|chunks| - 1])
  }

  /** A chunk under way is a slice of which only the flush has happened; it does not touch the sets. */
  lemma PartialPush(w: World, c: Chunk, steps: seq<Step>)
    requires WellSized(c) && steps <= Expand(c) && |steps| < |Expand(c)|
    ensures After(w, steps).box.sps == w.box.sps && After(w, steps).box.pps == w.box.pps
  {
    if |steps| == 1 {
      assert steps == [Flush];
      AfterTwo(w, Flush, Flush);
    } else {
      assert steps == [];
    }
  }

  lemma ExpandLast(chunks: seq<Chunk>)
    requires AllWellSized(chunks) && chunks != []
    ensures ExpandAll(chunks) == ExpandAll(chunks[..|chunks| - 1]) + Expand(chunks[|chunks| - 1])
  {
    hide WellSized, Expand;
  }

  lemma PushedBefore(done: seq<Step>, chunks: seq<Chunk>)
    requires AllWellSized(chunks) && chunks != [] && |done| < |ExpandAll(chunks)|
    ensures PushedBy(done, chunks) == PushedBy(done, chunks[..|chunks| - 1])
    ensures chunks[..PushedBy(done, chunks)] == chunks[..|chunks| - 1][..PushedBy(done, chunks)]
  {
    hide ExpandAll, WellSized;
  }

  lemma {:induction false} SetsOfSteps(done: seq<Step>, chunks: seq<Chunk>)
    requires AllWellSized(chunks) && done <= ExpandAll(chunks)
    ensures var pushed, w := chunks[..PushedBy(done, chunks)], After(Start, done);
      w.box.sps == LastWith(pushed, 0x27) && w.box.pps == LastWith(pushed, 0x28)
    decreases |chunks|
  {
    hide *;
    if |ExpandAll(chunks)| <= |done| {
      SetsOfChunks(chunks);
      AllPushed(chunks, done);
      assert done == ExpandAll(chunks) && chunks[..|chunks|] == chunks;
    } else {
      if chunks == [] {
        NothingToExpand();
      }
      var before, c := chunks[..|chunks| - 1], chunks[|chunks| - 1];
      WellSizedParts(chunks);
      ExpandLast(chunks);
      PushedBefore(done, chunks);
      var first := ExpandAll(before);
      if |done| < |first| {
        assert done <= first;
        SetsOfSteps(done, before);
      } else {
        assert done == first + done[|first|..];
        SetsOfSteps(first, before);
        AllPushed(before, done);
        AllPushed(before, first);
        AfterConcat(Start, first, done[|first|..]);
        PartialPush(After(Start, first), c, done[|first|..]);
      }
    }
  }

  lemma WellSizedParts(chunks: seq<Chunk>)
    requires AllWellSized(chunks) && chunks != []
    ensures AllWellSized(chunks[..|chunks| - 1]) && WellSized(chunks[|chunks| - 1])
  {
    hide WellSized;
  }

  lemma AllPushed(chunks: seq<Chunk>, done: seq<Step>)
    requires AllWellSized(chunks) && |ExpandAll(chunks)| <= |done|
    ensures PushedBy(done, chunks) == |chunks|
  {
  }

  /**
   In every interleaving: whatever is handed out as SPS, if anything was saved, is the rest of the last
   chunk pushed before that begins 0 0 0 1 0x27, and whatever is handed out as PPS that of the last one
   with 0x28. pushed are the chunks that were pushed completely before this step.
   */
  lemma SetsAreLastPushed(run: seq<Step>, step: Step, chunks: seq<Chunk>)
    requires AllWellSized(chunks) && Producer(run) <= ExpandAll(chunks)
    ensures var w, v := After(Start, run), After(Start, run + [step]);
      var pushed := chunks[..PushedBy(Producer(run), chunks)];
      && w.delivered <= v.delivered && |v.delivered| <= |w.delivered| + 1
      && forall n :: |w.delivered| <= n < |v.delivered| ==>
           && (v.delivered[n].SpsSet? ==> v.delivered[n].sps == LastWith(pushed, 0x27))
           && (v.delivered[n].PpsSet? ==> v.delivered[n].pps == LastWith(pushed, 0x28))
  {
    ConsumerIsInvisible(run);
    SetsOfSteps(Producer(run), chunks);
    AfterOne(Start, run, step);
    hide After, LastWith, PushedBy, Producer, ExpandAll, Flushed, Loaded, Appended;
  }
}
