/**
 The client loops together with the hand-over of their buffer: what a capture returns, and where a
 stream or a recording stops, in every interleaving with the component.
 */
module CaptureCalls {
  import opened Bytes
  import opened FrameUnpack
  import opened FrameRoundTrip
  import opened KeyFrameCutoff
  import H = BufferHandshake

  // ---- several frames in one call -----------------------------------------------------------

  /** Whole slices, with the end-of-frame flag on the last slice of every frame. */
  predicate FrameStream(g: Setup, fragments: seq<Fragment>)
    requires g.slices > 0
  {
    forall j :: 0 <= j < |fragments| ==>
      |fragments[j].data| >= g.buf.size && (fragments[j].endOfFrame <==> j % g.slices == g.slices - 1)
  }

  /** The loop between two frames. */
  predicate BetweenFrames(g: Setup, st: CaptureState) {
    st.Running? && st.bufNum == 0 && st.frameBytes == 0 && |st.frame| == FrameSize(g.info)
  }

  /** The loop k slices further, in the middle of the next frame. */
  predicate InFrame(g: Setup, st: CaptureState, next: CaptureState, k: nat, x: int) {
    && st.Running? && next.Running? && next.bufNum == k && next.frameBytes == k * x
    && |next.frame| == FrameSize(g.info) && next.output == st.output && next.offset == st.offset
  }

  lemma PlaceInFrame(n: int, base: nat, j: nat)
    requires n > 0 && (base == 0 || base == n) && j < n
    ensures (base + j) % n == j
  {
  }

  lemma {:induction false} SlicesOfNextFrame(g: Setup, fragments: seq<Fragment>, base: nat, k: nat, x: int)
    requires g.Sound() && FrameStream(g, fragments) && (base == 0 || base == g.slices)
    requires k < g.slices && base + k <= |fragments| && x == BytesCopied(g.info, g.buf, false)
    requires BetweenFrames(g, CaptureRun(g.info, g.buf, fragments[..base]))
    ensures InFrame(g, CaptureRun(g.info, g.buf, fragments[..base]),
                    CaptureRun(g.info, g.buf, fragments[..base + k]), k, x)
  {
    hide *;
    if k == 0 {
      NothingOfNextFrame(g, CaptureRun(g.info, g.buf, fragments[..base]), x);
      assert base + 0 == base;
    } else {
      var fragment := fragments[base + (k - 1)];
      SlicesOfNextFrame(g, fragments, base, k - 1, x);
      RunOfPrefix(g.info, g.buf, fragments, base + (k - 1));
      StreamFlags(g, fragments, base, k - 1);
      EarlyFlagFits(g, k - 1, fragment);
      SliceOfNextFrame(g, CaptureRun(g.info, g.buf, fragments[..base]),
                       CaptureRun(g.info, g.buf, fragments[..base + (k - 1)]), fragment, k - 1, x);
    }
  }

  lemma NothingOfNextFrame(g: Setup, st: CaptureState, x: int)
    requires BetweenFrames(g, st)
    ensures InFrame(g, st, st, 0, x)
  {
  }

  lemma StreamFlags(g: Setup, fragments: seq<Fragment>, base: nat, j: nat)
    requires g.slices > 0 && FrameStream(g, fragments) && (base == 0 || base == g.slices)
    requires j < g.slices && base + j < |fragments|
    ensures |fragments[base + j].data| >= g.buf.size
    ensures fragments[base + j].endOfFrame <==> j == g.slices - 1
  {
    PlaceInFrame(g.slices, base, j);
  }

  lemma SliceOfNextFrame(g: Setup, st: CaptureState, next: CaptureState, fragment: Fragment, k: nat, x: int)
    requires InFrame(g, st, next, k, x) && !fragment.endOfFrame && x == BytesCopied(g.info, g.buf, false)
    requires FragmentFits(g.info, g.buf, k, fragment, FrameSize(g.info))
    ensures InFrame(g, st, CaptureStep(g.info, g.buf, next, fragment), k + 1, x)
  {
    hide FragmentFits, Unpacked, BytesCopied;
    assert (k + 1) * x == k * x + x;
  }

  /** The last slice of a frame brings the byte count to the frame size. */
  lemma LastSliceOfNextFrame(g: Setup, fragments: seq<Fragment>, base: nat)
    requires g.Sound() && FrameStream(g, fragments) && (base == 0 || base == g.slices)
    requires base + g.slices <= |fragments| && BetweenFrames(g, CaptureRun(g.info, g.buf, fragments[..base]))
    ensures var st := CaptureRun(g.info, g.buf, fragments[..base]);
      CaptureRun(g.info, g.buf, fragments[..base + g.slices]).Overrun? <==> st.offset + FrameSize(g.info) > |st.output|
  {
    var last := g.slices - 1;
    hide FragmentFits, Unpacked, BytesCopied, CaptureRun, Countable;
    SlicesOfNextFrame(g, fragments, base, last, BytesCopied(g.info, g.buf, false));
    RunOfPrefix(g.info, g.buf, fragments, base + last);
    StreamFlags(g, fragments, base, last);
    SlicesFit(g, last, fragments[base + last]);
    SoundIsCountable(g);
    SizeCheckExact(g, g.slices);
  }

  /**
   What the frame buffer holds after any number of slices of a stream of frames: black until the first
   frame is complete, then that frame; the end of a second frame is copied behind the buffer.
   */
  lemma CapturedOfStream(g: Setup, picture: seq<byte>, fragments: seq<Fragment>)
    requires g.Sound() && |picture| == FrameSize(g.info) && FrameStream(g, fragments)
    requires |fragments| >= g.slices ==> IsCut(g, picture, fragments[..g.slices])
    ensures var st := CaptureRun(g.info, g.buf, fragments);
      && (|fragments| < g.slices ==> st.Running? && st.output == Zeros(|picture|))
      && (g.slices <= |fragments| < 2 * g.slices ==> st.Running? && st.output == picture)
      && (|fragments| >= 2 * g.slices ==> st.Overrun?)
  {
    var x := BytesCopied(g.info, g.buf, false);
    hide BytesCopied, CaptureRun, IsCut;
    assert fragments[..|fragments|] == fragments;
    if |fragments| < g.slices {
      assert fragments[..0] == [];
      NothingCaptured(g);
      SlicesOfNextFrame(g, fragments, 0, |fragments|, x);
    } else {
      CaptureRoundTrip(g, picture, fragments[..g.slices]);
      hide FrameStream, g.Sound;
      if |fragments| < 2 * g.slices {
        SlicesOfNextFrame(g, fragments, g.slices, |fragments| - g.slices, x);
      } else {
        SecondFrameOverruns(g, fragments);
      }
    }
  }

  /** The frame buffer holds one frame; the end of a second one is copied behind it. */
  lemma SecondFrameOverruns(g: Setup, fragments: seq<Fragment>)
    requires g.Sound() && FrameStream(g, fragments) && |fragments| >= 2 * g.slices
    requires var st := CaptureRun(g.info, g.buf, fragments[..g.slices]);
      BetweenFrames(g, st) && st.offset == |st.output| == FrameSize(g.info)
    ensures CaptureRun(g.info, g.buf, fragments).Overrun?
  {
    hide CaptureRun, FrameStream;
    PlaneSizesPositive(g);
    LastSliceOfNextFrame(g, fragments, g.slices);
    StoppedStaysStopped(g.info, g.buf, fragments, 2 * g.slices, Overrun);
  }

  lemma NothingCaptured(g: Setup)
    ensures CaptureRun(g.info, g.buf, []) == CaptureInit(g.info)
  {
  }

  // ---- the loops with their buffer ----------------------------------------------------------

  /**
   The hand-over, and what the current loop keeps besides: the capture state, or quit_detected and
   quit_in_keyframe. For the proofs: the buffers tested so far, and the one that set quit_in_keyframe.
   */
  datatype World = World(
    hand: H.State, capture: CaptureState, detected: bool, inKeyFrame: bool, seen: seq<EncodedBuffer>, latch: nat)

  /** One statement or event, with is_end and the seconds elapsed as the loop reads them at that moment. */
  datatype Move = Move(action: H.Action, isEnd: bool, elapsed: int)

  /** The set-up of the capture, and the length of a recording. */
  datatype Config = Config(g: Setup, recordTime: int)

  function Start(c: Config, channel: H.Channel): World {
    World(H.Init(channel), CaptureInit(c.g.info), false, false, [], 0)
  }

  function FragmentOf(b: H.OmxBuffer): Fragment {
    Fragment(b.data, b.endOfFrame)
  }

  function EncodedOf(b: H.OmxBuffer, m: Move): EncodedBuffer {
    EncodedBuffer(b.data, b.sync, m.isEnd, m.elapsed)
  }

  /** The first test of the encoder loops: does this buffer set quit_in_keyframe? */
  predicate Latches(c: Config, w: World, m: Move) {
    if w.hand.current == H.Stream then m.isEnd && !w.detected else m.elapsed == c.recordTime
  }

  /** quit_detected && (quit_in_keyframe ^ sync flag), after the first test. */
  predicate Quits(c: Config, w: World, m: Move) {
    !Latches(c, w, m) && w.detected && w.inKeyFrame != w.hand.buffer.sync
  }

  predicate Enabled(c: Config, w: World, m: Move) {
    && H.Enabled(w.hand, m.action)
    && (m.action.Decide? && w.hand.channel == H.Encoder ==> (m.action.quit <==> Quits(c, w, m)))
  }

  function Do(c: Config, w: World, m: Move): World
    requires Enabled(c, w, m)
  {
    var w' := w.(hand := H.Do(w.hand, m.action));
    match m.action
    case Start(l) =>
      if l == H.Capture then w'.(capture := CaptureInit(c.g.info))
      else w'.(detected := false, inKeyFrame := false, seen := [], latch := 0)
    case Decide(_) =>
      if w.hand.channel == H.Camera then w'
      else
        var w'' := w'.(seen := w.seen + [EncodedOf(w.hand.buffer, m)]);
        if Latches(c, w, m) then w''.(detected := true, inKeyFrame := w.hand.buffer.sync, latch := |w.seen|) else w''
    case Read =>
      if w.hand.channel == H.Camera
      then w'.(capture := CaptureStep(c.g.info, c.g.buf, w.capture, FragmentOf(w.hand.buffer))) else w'
    case _ => w'
  }

  predicate IsRun(c: Config, w: World, run: seq<Move>)
    decreases |run|
  {
    run == [] || (Enabled(c, w, run[0]) && IsRun(c, Do(c, w, run[0]), run[1..]))
  }

  function After(c: Config, w: World, run: seq<Move>): World
    requires IsRun(c, w, run)
    decreases |run|
  {
    if run == [] then w else After(c, Do(c, w, run[0]), run[1..])
  }

  /** The loop that ran last has been left. */
  predicate CallOver(s: H.State) {
    s.pc == H.Idle && s.callStart < |s.fates|
  }

  // ---- captures -----------------------------------------------------------------------------

  /** The fragments that the loop used. */
  function UsedOf(fates: seq<H.Fate>): seq<Fragment>
    decreases |fates|
  {
    if fates == [] then []
    else
      var before, last := UsedOf(fates[..|fates| - 1]), fates[|fates| - 1];
      if last.Used? then before + [FragmentOf(last.buffer)] else before
  }

  predicate CaptureInv(c: Config, w: World) {
    && H.Inv(w.hand) && w.hand.channel == H.Camera
    && Captured(c.g, w.capture, w.hand.fates, w.hand.callStart)
  }

  /** The capture state is that of the buffers used since the start of the call. */
  predicate Captured(g: Setup, st: CaptureState, fates: seq<H.Fate>, start: nat) {
    start <= |fates| && st == CaptureRun(g.info, g.buf, UsedOf(fates[start..]))
  }

  lemma UsedOfOne(fates: seq<H.Fate>, start: nat, f: H.Fate)
    requires start <= |fates|
    ensures UsedOf((fates + [f])[start..])
         == if f.Used? then UsedOf(fates[start..]) + [FragmentOf(f.buffer)] else UsedOf(fates[start..])
  {
    assert (fates + [f])[start..] == fates[start..] + [f];
    assert (fates[start..] + [f])[..|fates[start..]|] == fates[start..];
  }

  lemma OneMoreFate(g: Setup, st: CaptureState, fates: seq<H.Fate>, start: nat, f: H.Fate)
    requires Captured(g, st, fates, start)
    ensures Captured(g, if f.Used? then CaptureStep(g.info, g.buf, st, FragmentOf(f.buffer)) else st,
                     fates + [f], start)
  {
    UsedOfOne(fates, start, f);
    hide CaptureStep;
    var used := UsedOf(fates[start..]);
    assert (used + [FragmentOf(f.buffer)])[..|used|] == used;
  }

  lemma NothingUsed(g: Setup, fates: seq<H.Fate>)
    ensures Captured(g, CaptureInit(g.info), fates, |fates|)
  {
    assert fates[|fates|..] == [];
    NothingCaptured(g);
  }

  /** What a move does to the capture state. */
  lemma CaptureAfter(c: Config, w: World, m: Move)
    requires w.hand.channel == H.Camera && Enabled(c, w, m)
    ensures Do(c, w, m).hand == H.Do(w.hand, m.action)
    ensures Do(c, w, m).capture
         == if m.action.Start? then CaptureInit(c.g.info)
            else if m.action.Read? then CaptureStep(c.g.info, c.g.buf, w.capture, FragmentOf(w.hand.buffer))
            else w.capture
  {
    hide H.Do, CaptureStep, CaptureInit;
  }

  lemma CaptureInvKept(c: Config, w: World, m: Move)
    requires CaptureInv(c, w) && Enabled(c, w, m)
    ensures CaptureInv(c, Do(c, w, m))
  {
    var s, a := w.hand, m.action;
    H.InvKept(s, a);
    H.FatesStep(s, a);
    CaptureAfter(c, w, m);
    hide Captured, CaptureStep, CaptureInit, H.Inv, H.Do, Do, H.Enabled;
    if a.Start? {
      NothingUsed(c.g, s.fates);
      assert s.fates + [] == s.fates;
    } else if a.Read? {
      OneMoreFate(c.g, w.capture, s.fates, s.callStart, H.Used(s.buffer));
    } else if a.Decide? && a.quit {
      OneMoreFate(c.g, w.capture, s.fates, s.callStart, H.AtExit(s.buffer));
    } else {
      assert s.fates + [] == s.fates;
    }
  }

  lemma {:induction false} CaptureInvAlways(c: Config, w: World, run: seq<Move>)
    requires CaptureInv(c, w) && IsRun(c, w, run)
    ensures CaptureInv(c, After(c, w, run))
    decreases |run|
  {
    if run != [] {
      hide CaptureInv, Do, Enabled;
      CaptureInvKept(c, w, run[0]);
      CaptureInvAlways(c, Do(c, w, run[0]), run[1..]);
    }
  }

  function Fragments(buffers: seq<H.OmxBuffer>): seq<Fragment> {
    seq(|buffers|, i requires 0 <= i < |buffers| => FragmentOf(buffers[i]))
  }

  /** The buffers completed in the call that was left last, without the one at which it was left. */
  function UsedInCall(s: H.State): seq<Fragment>
    requires s.callStart < |s.completed|
  {
    Fragments(s.completed[s.callStart..|s.completed| - 1])
  }

  lemma {:induction false} UsedAreFragments(fates: seq<H.Fate>, buffers: seq<H.OmxBuffer>)
    requires |fates| == |buffers| && forall i :: 0 <= i < |fates| ==> fates[i] == H.Used(buffers[i])
    ensures UsedOf(fates) == Fragments(buffers)
    decreases |fates|
  {
    if fates != [] {
      UsedAreFragments(fates[..|fates| - 1], buffers[..|fates| - 1]);
    }
  }

  lemma UsedOfCall(s: H.State)
    requires CallOver(s) && H.CallUsedAllButTheLast(s)
    ensures UsedOf(s.fates[s.callStart..]) == UsedInCall(s)
  {
    var last := |s.fates| - 1;
    assert s.fates == s.fates[..last] + [s.fates[last]];
    UsedOfOne(s.fates[..last], s.callStart, s.fates[last]);
    UsedAreFragments(s.fates[..last][s.callStart..], s.completed[s.callStart..last]);
  }

  /**
   In every interleaving, a capture call returns what the capture loop makes of the buffers completed
   since its start, except the one at which it saw the end of the stream.
   */
  lemma CaptureOfEveryRun(c: Config, run: seq<Move>)
    requires IsRun(c, Start(c, H.Camera), run)
    ensures var w := After(c, Start(c, H.Camera), run);
      CallOver(w.hand) ==>
        w.hand.callStart < |w.hand.completed| && w.capture == CaptureRun(c.g.info, c.g.buf, UsedInCall(w.hand))
  {
    NothingCaptured(c.g);
    hide CaptureRun, UsedInCall, H.CallUsedAllButTheLast;
    CaptureInvAlways(c, Start(c, H.Camera), run);
    var s := After(c, Start(c, H.Camera), run).hand;
    H.InvMeansUsed(s);
    if CallOver(s) {
      UsedOfCall(s);
    }
  }

  /**
   So when the camera delivers the slices of one frame after the other, the call returns the first
   frame exactly when it uses all slices of that frame and does not get to the end of a second one. If
   the end of the stream is seen earlier, even together with the last slice, a black frame comes back.
   */
  lemma ReturnedFrameExactly(c: Config, run: seq<Move>, picture: seq<byte>)
    requires c.g.Sound() && |picture| == FrameSize(c.g.info) && picture != Zeros(|picture|)
    requires IsRun(c, Start(c, H.Camera), run)
    requires var s := After(c, Start(c, H.Camera), run).hand;
      && CallOver(s) && s.callStart < |s.completed| && FrameStream(c.g, UsedInCall(s))
      && (|UsedInCall(s)| >= c.g.slices ==> IsCut(c.g, picture, UsedInCall(s)[..c.g.slices]))
    ensures var w := After(c, Start(c, H.Camera), run);
      var used := |w.hand.completed| - 1 - w.hand.callStart;
      && (w.capture.Running? && w.capture.output == picture <==> c.g.slices <= used < 2 * c.g.slices)
      && (w.capture.Running? && w.capture.output == Zeros(|picture|) <==> used < c.g.slices)
      && (w.capture.Overrun? <==> used >= 2 * c.g.slices)
  {
    CaptureOfEveryRun(c, run);
    CapturedOfStream(c.g, picture, UsedInCall(After(c, Start(c, H.Camera), run).hand));
  }

  // ---- streams and recordings ---------------------------------------------------------------

  ghost predicate EndsAt(c: Config, l: H.Loop, buffers: seq<EncodedBuffer>, e: nat) {
    if l == H.Stream then StreamEndsAt(buffers, e) else RecordingEndsAt(buffers, c.recordTime, e)
  }

  /** quit_detected and quit_in_keyframe say where the end is to be expected, and it has not come yet. */
  ghost predicate StreamGoesOn(buffers: seq<EncodedBuffer>, detected: bool, inKeyFrame: bool, latch: nat) {
    if !detected then forall i :: 0 <= i < |buffers| ==> !buffers[i].isEnd
    else
      && StopLatchedAt(buffers, latch) && inKeyFrame == buffers[latch].sync
      && forall i :: latch <= i < |buffers| ==> buffers[i].sync == inKeyFrame
  }

  ghost predicate RecordingGoesOn(buffers: seq<EncodedBuffer>, recordTime: int,
                                  detected: bool, inKeyFrame: bool, latch: nat)
  {
    && (forall i: nat :: i < |buffers| ==> !RecordingMayEnd(buffers, recordTime, i))
    && if !detected then forall i :: 0 <= i < |buffers| ==> buffers[i].elapsed != recordTime
       else LastInSecond(buffers, recordTime, latch, |buffers|) && inKeyFrame == buffers[latch].sync
  }

  ghost predicate GoesOn(c: Config, w: World) {
    if w.hand.current == H.Stream then StreamGoesOn(w.seen, w.detected, w.inKeyFrame, w.latch)
    else RecordingGoesOn(w.seen, c.recordTime, w.detected, w.inKeyFrame, w.latch)
  }

  /** The buffers tested are those completed since the start of the call, in order. */
  predicate SeenAreCompleted(w: World) {
    |w.seen| == H.Tested(w.hand) && AreBuffers(w.seen, w.hand.completed, w.hand.callStart)
  }

  predicate AreBuffers(seen: seq<EncodedBuffer>, completed: seq<H.OmxBuffer>, start: nat) {
    && start + |seen| <= |completed|
    && forall i :: 0 <= i < |seen| ==> IsBuffer(seen[i], completed[start + i])
  }

  predicate IsBuffer(e: EncodedBuffer, b: H.OmxBuffer) {
    e.data == b.data && e.sync == b.sync
  }

  ghost predicate EncoderInv(c: Config, w: World) {
    && H.Inv(w.hand) && w.hand.channel == H.Encoder && SeenAreCompleted(w)
    && (H.InLoop(w.hand) ==> GoesOn(c, w))
    && (!H.InLoop(w.hand) && w.hand.callStart < |w.hand.fates| ==> EndsAt(c, w.hand.current, w.seen, |w.seen| - 1))
  }

  lemma StreamStep(buffers: seq<EncodedBuffer>, b: EncodedBuffer, detected: bool, inKeyFrame: bool, latch: nat)
    requires StreamGoesOn(buffers, detected, inKeyFrame, latch)
    ensures var n, latches := |buffers|, b.isEnd && !detected;
      if !latches && detected && inKeyFrame != b.sync then StreamEndsAt(buffers + [b], n)
      else if latches then StreamGoesOn(buffers + [b], true, b.sync, n)
      else StreamGoesOn(buffers + [b], detected, inKeyFrame, latch)
  {
    var after := buffers + [b];
    if detected {
      assert StopLatchedAt(after, latch);
      if inKeyFrame != b.sync {
        assert FirstSyncChange(after, latch, |buffers|);
      }
    }
  }

  lemma MayEndLater(buffers: seq<EncodedBuffer>, b: EncodedBuffer, recordTime: int, i: nat)
    requires i < |buffers|
    ensures RecordingMayEnd(buffers + [b], recordTime, i) <==> RecordingMayEnd(buffers, recordTime, i)
  {
    forall l: nat
      ensures LastInSecond(buffers + [b], recordTime, l, i) <==> LastInSecond(buffers, recordTime, l, i)
    {
      assert forall j :: 0 <= j < |buffers| ==> (buffers + [b])[j] == buffers[j];
    }
  }

  lemma RecordingStep(buffers: seq<EncodedBuffer>, b: EncodedBuffer, recordTime: int,
                      detected: bool, inKeyFrame: bool, latch: nat)
    requires RecordingGoesOn(buffers, recordTime, detected, inKeyFrame, latch)
    ensures var n, latches := |buffers|, b.elapsed == recordTime;
      if !latches && detected && inKeyFrame != b.sync then RecordingEndsAt(buffers + [b], recordTime, n)
      else if latches then RecordingGoesOn(buffers + [b], recordTime, true, b.sync, n)
      else RecordingGoesOn(buffers + [b], recordTime, detected, inKeyFrame, latch)
  {
    var n, after := |buffers|, buffers + [b];
    forall i: nat | i < n ensures !RecordingMayEnd(after, recordTime, i) {
      MayEndLater(buffers, b, recordTime, i);
    }
    if detected && b.elapsed != recordTime {
      assert LastInSecond(after, recordTime, latch, n);
    }
    forall l: nat | LastInSecond(after, recordTime, l, n) ensures detected && l == latch {
      assert buffers[l] == after[l];
      assert detected ==> after[latch].elapsed == recordTime;
    }
  }

  lemma TestKeepsOn(c: Config, w: World, m: Move)
    requires GoesOn(c, w) && w.hand.channel == H.Encoder && m.action.Decide? && Enabled(c, w, m)
    ensures var v := Do(c, w, m);
      if m.action.quit then EndsAt(c, v.hand.current, v.seen, |v.seen| - 1) else GoesOn(c, v)
  {
    hide StreamGoesOn, RecordingGoesOn, StreamEndsAt, RecordingEndsAt;
    var b := EncodedOf(w.hand.buffer, m);
    if w.hand.current == H.Stream {
      StreamStep(w.seen, b, w.detected, w.inKeyFrame, w.latch);
    } else {
      RecordingStep(w.seen, b, c.recordTime, w.detected, w.inKeyFrame, w.latch);
    }
  }

  lemma MoreBuffers(seen: seq<EncodedBuffer>, completed: seq<H.OmxBuffer>, more: seq<H.OmxBuffer>, start: nat)
    requires AreBuffers(seen, completed, start) && completed <= more
    ensures AreBuffers(seen, more, start)
  {
  }

  lemma OneMoreSeen(seen: seq<EncodedBuffer>, completed: seq<H.OmxBuffer>, start: nat, b: EncodedBuffer)
    requires AreBuffers(seen, completed, start) && start + |seen| < |completed|
    requires IsBuffer(b, completed[start + |seen|])
    ensures AreBuffers(seen + [b], completed, start)
  {
  }

  /** What a move does to the buffers tested so far. */
  lemma SeenAfter(c: Config, w: World, m: Move)
    requires w.hand.channel == H.Encoder && Enabled(c, w, m)
    ensures Do(c, w, m).hand == H.Do(w.hand, m.action)
    ensures Do(c, w, m).seen == if m.action.Start? then []
                                else if m.action.Decide? then w.seen + [EncodedOf(w.hand.buffer, m)] else w.seen
  {
    hide H.Do, Quits, Latches;
  }

  lemma SeenKept(c: Config, w: World, m: Move)
    requires H.Inv(w.hand) && w.hand.channel == H.Encoder && SeenAreCompleted(w) && Enabled(c, w, m)
    ensures SeenAreCompleted(Do(c, w, m))
  {
    H.InvMeansUsed(w.hand);
    H.TestedStep(w.hand, m.action);
    SeenAfter(c, w, m);
    if m.action.Decide? {
      OneMoreSeen(w.seen, w.hand.completed, w.hand.callStart, EncodedOf(w.hand.buffer, m));
    }
    hide *;
    var v := Do(c, w, m);
    if m.action.Start? {
      NothingSeen(v);
    } else {
      MoreBuffers(v.seen, w.hand.completed, v.hand.completed, w.hand.callStart);
    }
  }

  lemma NothingSeen(w: World)
    requires w.seen == [] && w.hand.callStart <= |w.hand.completed|
    ensures AreBuffers(w.seen, w.hand.completed, w.hand.callStart)
  {
  }

  lemma EncoderInvKept(c: Config, w: World, m: Move)
    requires EncoderInv(c, w) && Enabled(c, w, m)
    ensures EncoderInv(c, Do(c, w, m))
  {
    hide GoesOn, Do, EndsAt, SeenAreCompleted, Latches, Quits, H.Inv, H.Do, H.InLoop, H.Enabled;
    H.InvKept(w.hand, m.action);
    H.LoopStep(w.hand, m.action);
    SeenKept(c, w, m);
    SeenAfter(c, w, m);
    if m.action.Decide? {
      TestKeepsOn(c, w, m);
    } else {
      GoesOnAfter(c, w, m);
    }
  }

  /** Between two tests nothing about them changes. */
  lemma GoesOnAfter(c: Config, w: World, m: Move)
    requires w.hand.channel == H.Encoder && Enabled(c, w, m) && !m.action.Decide?
    ensures m.action.Start? ==> GoesOn(c, Do(c, w, m))
    ensures !m.action.Start? && GoesOn(c, w) ==> GoesOn(c, Do(c, w, m))
  {
    H.LoopStep(w.hand, m.action);
    hide H.Do;
    if !m.action.Start? {
      hide StreamGoesOn, RecordingGoesOn;
    }
  }

  lemma {:induction false} EncoderInvAlways(c: Config, w: World, run: seq<Move>)
    requires EncoderInv(c, w) && IsRun(c, w, run)
    ensures EncoderInv(c, After(c, w, run))
    decreases |run|
  {
    if run != [] {
      hide EncoderInv, Do, Enabled;
      EncoderInvKept(c, w, run[0]);
      EncoderInvAlways(c, Do(c, w, run[0]), run[1..]);
    }
  }

  /** As long as a loop goes on, none of its buffers was the one to end at. */
  lemma GoesOnMeans(c: Config, w: World, e: nat)
    requires GoesOn(c, w)
    ensures !EndsAt(c, w.hand.current, w.seen, e)
  {
    if w.hand.current == H.Stream {
      forall d: nat | StopLatchedAt(w.seen, d)
        ensures !FirstSyncChange(w.seen, d, e)
      {
        assert w.detected && d == w.latch;
      }
    }
  }

  /**
   In every interleaving, and whatever the clock and is_end are when they are read: as long as a stream
   or a recording goes on, no buffer completed in it was its end; and when it is over, it has used
   exactly the buffers completed since its start that come before its end.
   */
  lemma EncoderCallsEndExactly(c: Config, run: seq<Move>)
    requires IsRun(c, Start(c, H.Encoder), run)
    ensures var w := After(c, Start(c, H.Encoder), run);
      && SeenAreCompleted(w)
      && (H.InLoop(w.hand) ==> forall e: nat :: !EndsAt(c, w.hand.current, w.seen, e))
      && (CallOver(w.hand) ==>
            && H.CallUsedAllButTheLast(w.hand) && |w.hand.completed| == w.hand.callStart + |w.seen|
            && EndsAt(c, w.hand.current, w.seen, |w.seen| - 1))
  {
    hide GoesOn, EndsAt;
    EncoderInvAlways(c, Start(c, H.Encoder), run);
    var w := After(c, Start(c, H.Encoder), run);
    H.InvMeansUsed(w.hand);
    hide H.Inv;
    if H.InLoop(w.hand) {
      forall e: nat ensures !EndsAt(c, w.hand.current, w.seen, e) {
        GoesOnMeans(c, w, e);
      }
    }
  }
}
