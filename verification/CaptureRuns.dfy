/**
 The calls of CaptureCalls do happen: every frame can be captured, and every stream and every recording
 can come to its end.
 */
module CaptureRuns {
  import opened Bytes
  import opened FrameUnpack
  import opened FrameRoundTrip
  import opened KeyFrameCutoff
  import opened CaptureCalls
  import H = BufferHandshake
  import R = HandshakeRuns

  // ---- building runs ------------------------------------------------------------------------

  /** The moves of a run of the hand-over in which every reading is the same. */
  function Moves(actions: seq<H.Action>, isEnd: bool, elapsed: int): seq<Move> {
    seq(|actions|, i requires 0 <= i < |actions| => Move(actions[i], isEnd, elapsed))
  }

  lemma RunCons(c: Config, w: World, m: Move, rest: seq<Move>)
    requires Enabled(c, w, m) && IsRun(c, Do(c, w, m), rest)
    ensures IsRun(c, w, [m] + rest) && After(c, w, [m] + rest) == After(c, Do(c, w, m), rest)
  {
    hide Enabled, Do;
    assert ([m] + rest)[0] == m && ([m] + rest)[1..] == rest;
  }

  lemma NoMoves(c: Config, w: World)
    ensures IsRun(c, w, []) && After(c, w, []) == w
  {
  }

  lemma RunHead(c: Config, w: World, run: seq<Move>)
    requires run != [] && IsRun(c, w, run)
    ensures Enabled(c, w, run[0]) && IsRun(c, Do(c, w, run[0]), run[1..])
    ensures After(c, w, run) == After(c, Do(c, w, run[0]), run[1..])
  {
    hide Enabled, Do;
  }

  lemma {:induction false} RunConcat(c: Config, w: World, a: seq<Move>, b: seq<Move>)
    requires IsRun(c, w, a) && IsRun(c, After(c, w, a), b)
    ensures IsRun(c, w, a + b) && After(c, w, a + b) == After(c, After(c, w, a), b)
    decreases |a|
  {
    hide *;
    if a == [] {
      NoMoves(c, w);
      assert a + b == b;
    } else {
      RunHead(c, w, a);
      RunConcat(c, Do(c, w, a[0]), a[1..], b);
      RunCons(c, w, a[0], a[1..] + b);
      assert a + b == [a[0]] + (a[1..] + b);
    }
  }

  lemma RunOne(c: Config, w: World, m: Move)
    requires Enabled(c, w, m)
    ensures IsRun(c, w, [m]) && After(c, w, [m]) == Do(c, w, m)
  {
    assert [m][1..] == [];
    assert After(c, Do(c, w, m), []) == Do(c, w, m);
  }

  // ---- captures -----------------------------------------------------------------------------

  lemma CameraMove(c: Config, w: World, m: Move)
    requires w.hand.channel == H.Camera && H.Enabled(w.hand, m.action)
    ensures Enabled(c, w, m) && Do(c, w, m).hand == H.Do(w.hand, m.action)
    ensures Do(c, w, m).hand.channel == H.Camera
  {
    CaptureAfter(c, w, m);
    H.FatesStep(w.hand, m.action);
  }

  /** On the camera channel the loop has no choice, so every run of the hand-over is one of the loop. */
  lemma {:induction false} CameraRun(c: Config, w: World, actions: seq<H.Action>, isEnd: bool, elapsed: int)
    requires w.hand.channel == H.Camera && H.IsRun(w.hand, actions)
    ensures IsRun(c, w, Moves(actions, isEnd, elapsed))
    ensures After(c, w, Moves(actions, isEnd, elapsed)).hand == H.After(w.hand, actions)
    decreases |actions|
  {
    if actions != [] {
      hide Enabled, Do, H.Enabled, H.Do;
      var m := Move(actions[0], isEnd, elapsed);
      CameraMove(c, w, m);
      CameraRun(c, Do(c, w, m), actions[1..], isEnd, elapsed);
      assert Moves(actions, isEnd, elapsed)[0] == m;
      assert Moves(actions, isEnd, elapsed)[1..] == Moves(actions[1..], isEnd, elapsed);
    }
  }

  function BuffersOf(fragments: seq<Fragment>): seq<H.OmxBuffer> {
    seq(|fragments|, i requires 0 <= i < |fragments| => H.OmxBuffer(fragments[i].data, fragments[i].endOfFrame, false))
  }

  /** A capture that uses the given fragments and sees the end of the stream at the next buffer. */
  function CaptureMoves(fragments: seq<Fragment>): seq<Move> {
    Moves(R.CallOf(H.Capture, BuffersOf(fragments), H.NoBuffer), false, 0)
  }

  lemma CaptureHappens(c: Config, fragments: seq<Fragment>)
    ensures IsRun(c, Start(c, H.Camera), CaptureMoves(fragments))
    ensures var w := After(c, Start(c, H.Camera), CaptureMoves(fragments));
      CallOver(w.hand) && w.capture == CaptureRun(c.g.info, c.g.buf, fragments)
  {
    var bs := BuffersOf(fragments);
    assert H.Inv(H.Init(H.Camera));
    hide H.IsRun, H.After, H.Inv, R.CallOf, IsRun, After, CaptureRun;
    R.CallHappens(H.Init(H.Camera), H.Capture, bs, H.NoBuffer);
    CameraRun(c, Start(c, H.Camera), R.CallOf(H.Capture, bs, H.NoBuffer), false, 0);
    CaptureOfEveryRun(c, CaptureMoves(fragments));
    var s := After(c, Start(c, H.Camera), CaptureMoves(fragments)).hand;
    assert s.completed == bs + [H.NoBuffer];
    assert s.completed[0..|s.completed| - 1] == bs;
    assert Fragments(bs) == fragments;
  }

  /** Every frame can be captured: some run gives it back from every one of its cuts. */
  lemma EveryFrameIsCaptured(c: Config, picture: seq<byte>, fragments: seq<Fragment>)
    requires c.g.Sound() && |picture| == FrameSize(c.g.info) && IsCut(c.g, picture, fragments)
    ensures IsRun(c, Start(c, H.Camera), CaptureMoves(fragments))
    ensures var w := After(c, Start(c, H.Camera), CaptureMoves(fragments));
      CallOver(w.hand) && w.capture.Running? && w.capture.output == picture
  {
    hide IsCut, CaptureRun, CaptureMoves, IsRun, After;
    CaptureHappens(c, fragments);
    CaptureRoundTrip(c.g, picture, fragments);
  }

  // ---- streams and recordings ---------------------------------------------------------------

  predicate IsQuiet(a: H.Action) {
    !a.Start? && !a.Decide?
  }

  lemma QuietMove(c: Config, w: World, m: Move)
    requires w.hand.channel == H.Encoder && H.Enabled(w.hand, m.action) && IsQuiet(m.action)
    ensures Enabled(c, w, m) && Do(c, w, m) == w.(hand := H.Do(w.hand, m.action))
    ensures Do(c, w, m).hand.channel == H.Encoder
  {
    H.LoopStep(w.hand, m.action);
    hide H.Do;
  }

  /** Between the tests the encoder loops have no choice either. */
  lemma {:induction false} QuietRun(c: Config, w: World, actions: seq<H.Action>)
    requires w.hand.channel == H.Encoder && H.IsRun(w.hand, actions)
    requires forall i :: 0 <= i < |actions| ==> IsQuiet(actions[i])
    ensures IsRun(c, w, Moves(actions, false, 0))
    ensures After(c, w, Moves(actions, false, 0)) == w.(hand := H.After(w.hand, actions))
    decreases |actions|
  {
    if actions != [] {
      hide Enabled, Do, H.Enabled, H.Do;
      var m := Move(actions[0], false, 0);
      QuietMove(c, w, m);
      QuietRun(c, Do(c, w, m), actions[1..]);
      assert Moves(actions, false, 0)[0] == m;
      assert Moves(actions, false, 0)[1..] == Moves(actions[1..], false, 0);
    }
  }

  function BufferOf(e: EncodedBuffer): H.OmxBuffer {
    H.OmxBuffer(e.data, false, e.sync)
  }

  function OmxBuffers(buffers: seq<EncodedBuffer>): seq<H.OmxBuffer> {
    seq(|buffers|, i requires 0 <= i < |buffers| => BufferOf(buffers[i]))
  }

  /** The loop has used the given buffers, goes on, and waits for the next. */
  ghost predicate WaitsAfter(c: Config, w: World, l: H.Loop, buffers: seq<EncodedBuffer>) {
    && R.Waits(w.hand, l) && w.hand.channel == H.Encoder && GoesOn(c, w) && w.seen == buffers
    && w.hand.callStart == 0 && w.hand.completed == OmxBuffers(buffers)
    && w.hand.fates == R.UsedAll(OmxBuffers(buffers))
  }

  /** The loop has the last of the buffers in its hands, and has tested all others. */
  ghost predicate TestsLast(c: Config, w: World, l: H.Loop, buffers: seq<EncodedBuffer>) {
    && buffers != [] && R.Holds(w.hand, l, BufferOf(buffers[|buffers| - 1])) && w.hand.channel == H.Encoder
    && GoesOn(c, w) && w.seen == buffers[..|buffers| - 1] && w.hand.callStart == 0
    && w.hand.completed == OmxBuffers(buffers)
    && w.hand.fates == R.UsedAll(OmxBuffers(buffers[..|buffers| - 1]))
  }

  lemma EntryHappens(c: Config, l: H.Loop) returns (run: seq<Move>)
    requires l != H.Capture
    ensures IsRun(c, Start(c, H.Encoder), run) && WaitsAfter(c, After(c, Start(c, H.Encoder), run), l, [])
  {
    var w, m := Start(c, H.Encoder), Move(H.Start(l), false, 0);
    RunOne(c, w, m);
    var w1 := Do(c, w, m);
    R.AskWorks(w1.hand, l);
    QuietRun(c, w1, R.Ask);
    RunConcat(c, w, [m], Moves(R.Ask, false, 0));
    run := [m] + Moves(R.Ask, false, 0);
  }

  lemma BufferArrives(c: Config, w: World, l: H.Loop, before: seq<EncodedBuffer>, b: EncodedBuffer)
      returns (run: seq<Move>)
    requires WaitsAfter(c, w, l, before) && l != H.Capture
    ensures IsRun(c, w, run) && TestsLast(c, After(c, w, run), l, before + [b])
  {
    R.HandWorks(w.hand, l, BufferOf(b));
    hide H.IsRun, H.After, IsRun, After, StreamGoesOn, RecordingGoesOn;
    QuietRun(c, w, R.Hand(l, BufferOf(b)));
    run := Moves(R.Hand(l, BufferOf(b)), false, 0);
    assert OmxBuffers(before + [b]) == OmxBuffers(before) + [BufferOf(b)];
    assert (before + [b])[..|before|] == before;
  }

  lemma TestPossible(c: Config, w: World, l: H.Loop, buffers: seq<EncodedBuffer>) returns (m: Move)
    requires TestsLast(c, w, l, buffers) && l != H.Capture
    ensures m.action.Decide? && Enabled(c, w, m) && Do(c, w, m).seen == buffers
    ensures m.action.quit ==> EndsAt(c, l, buffers, |buffers| - 1)
    ensures !m.action.quit ==> GoesOn(c, Do(c, w, m))
    ensures Do(c, w, m).hand == H.Do(w.hand, m.action)
  {
    var b := buffers[|buffers| - 1];
    hide GoesOn, EndsAt, Latches;
    m := Move(H.Decide(Quits(c, w, Move(H.Decide(true), b.isEnd, b.elapsed))), b.isEnd, b.elapsed);
    TestUnaffected(c, w, m, Move(H.Decide(true), b.isEnd, b.elapsed));
    H.LoopStep(w.hand, m.action);
    SeenAfter(c, w, m);
    TestKeepsOn(c, w, m);
    assert buffers[..|buffers| - 1] + [b] == buffers;
    assert EncodedOf(w.hand.buffer, m) == b;
  }

  /** The test looks at the readings only. */
  lemma TestUnaffected(c: Config, w: World, m: Move, n: Move)
    requires m.isEnd == n.isEnd && m.elapsed == n.elapsed
    ensures Quits(c, w, m) <==> Quits(c, w, n)
  {
  }

  lemma LoopGoesOn(c: Config, w: World, l: H.Loop, buffers: seq<EncodedBuffer>, m: Move) returns (run: seq<Move>)
    requires TestsLast(c, w, l, buffers) && l != H.Capture && m.action == H.Decide(false) && Enabled(c, w, m)
    requires Do(c, w, m).hand == H.Do(w.hand, m.action) && Do(c, w, m).seen == buffers && GoesOn(c, Do(c, w, m))
    ensures IsRun(c, w, run) && WaitsAfter(c, After(c, w, run), l, buffers)
  {
    var n := |buffers| - 1;
    var b := BufferOf(buffers[n]);
    var w1 := Do(c, w, m);
    RunOne(c, w, m);
    assert w1.hand == w.hand.(pc := H.Reading);
    hide IsRun, After, Do, Enabled, StreamGoesOn, RecordingGoesOn;
    R.ReuseWorks(w1.hand, l, b);
    hide H.IsRun, H.After;
    QuietRun(c, w1, R.Reuse);
    RunConcat(c, w, [m], Moves(R.Reuse, false, 0));
    run := [m] + Moves(R.Reuse, false, 0);
    assert OmxBuffers(buffers) == OmxBuffers(buffers[..n]) + [b];
    assert R.UsedAll(OmxBuffers(buffers)) == R.UsedAll(OmxBuffers(buffers[..n])) + [H.Used(b)];
  }

  /** The call is over, has seen all buffers, and has used all but the last. */
  predicate OverAfter(w: World, l: H.Loop, buffers: seq<EncodedBuffer>) {
    && CallOver(w.hand) && w.hand.current == l && w.seen == buffers && buffers != []
    && w.hand.completed == OmxBuffers(buffers)
    && w.hand.fates == R.UsedAll(OmxBuffers(buffers[..|buffers| - 1])) + [H.AtExit(BufferOf(buffers[|buffers| - 1]))]
  }

  lemma LoopEnds(c: Config, w: World, l: H.Loop, buffers: seq<EncodedBuffer>, m: Move) returns (run: seq<Move>)
    requires TestsLast(c, w, l, buffers) && l != H.Capture && m.action == H.Decide(true) && Enabled(c, w, m)
    requires Do(c, w, m).hand == H.Do(w.hand, m.action) && Do(c, w, m).seen == buffers
    ensures IsRun(c, w, run) && OverAfter(After(c, w, run), l, buffers)
  {
    var w1 := Do(c, w, m);
    RunOne(c, w, m);
    var leave := Move(H.Leave, false, 0);
    QuietMove(c, w1, leave);
    RunOne(c, w1, leave);
    hide IsRun, After, Do, Enabled, GoesOn;
    RunConcat(c, w, [m], [leave]);
    run := [m] + [leave];
  }

  /** No buffer before the last is the end. */
  lemma EndIsLast(c: Config, l: H.Loop, buffers: seq<EncodedBuffer>, n: nat)
    requires n < |buffers| && EndsAt(c, l, buffers, |buffers| - 1) && EndsAt(c, l, buffers[..n + 1], n)
    ensures n == |buffers| - 1
  {
    if l == H.Stream {
      EndOfPrefix(buffers, n);
      StreamEndIsUnique(buffers, n, |buffers| - 1);
    } else if n < |buffers| - 1 {
      MayEndInPrefix(buffers, c.recordTime, n);
    }
  }

  lemma EndOfPrefix(buffers: seq<EncodedBuffer>, n: nat)
    requires n < |buffers| && StreamEndsAt(buffers[..n + 1], n)
    ensures StreamEndsAt(buffers, n)
  {
    var d: nat :| StopLatchedAt(buffers[..n + 1], d) && FirstSyncChange(buffers[..n + 1], d, n);
    assert forall i :: 0 <= i <= n ==> buffers[..n + 1][i] == buffers[i];
    assert StopLatchedAt(buffers, d) && FirstSyncChange(buffers, d, n);
  }

  lemma MayEndInPrefix(buffers: seq<EncodedBuffer>, recordTime: int, n: nat)
    requires n < |buffers| && RecordingMayEnd(buffers[..n + 1], recordTime, n)
    ensures RecordingMayEnd(buffers, recordTime, n)
  {
    var prefix := buffers[..n + 1];
    var l: nat :| LastInSecond(prefix, recordTime, l, n) && prefix[n].sync != prefix[l].sync;
    assert forall i :: 0 <= i <= n ==> prefix[i] == buffers[i];
    assert LastInSecond(buffers, recordTime, l, n);
  }

  lemma {:induction false} LoopGetsTo(c: Config, l: H.Loop, buffers: seq<EncodedBuffer>, n: nat)
      returns (run: seq<Move>)
    requires l != H.Capture && n < |buffers| && EndsAt(c, l, buffers, |buffers| - 1)
    ensures IsRun(c, Start(c, H.Encoder), run)
    ensures TestsLast(c, After(c, Start(c, H.Encoder), run), l, buffers[..n + 1])
  {
    hide IsRun, After, Do, Enabled, GoesOn, EndsAt, Start, WaitsAfter, TestsLast;
    var w := Start(c, H.Encoder);
    var waiting: seq<Move>;
    if n == 0 {
      waiting := EntryHappens(c, l);
      assert buffers[..0] == [];
    } else {
      var before := LoopGetsTo(c, l, buffers, n - 1);
      var m := TestPossible(c, After(c, w, before), l, buffers[..n]);
      if m.action.quit {
        EndIsLast(c, l, buffers, n - 1);
      }
      var on := LoopGoesOn(c, After(c, w, before), l, buffers[..n], m);
      RunConcat(c, w, before, on);
      waiting := before + on;
    }
    var arrival := BufferArrives(c, After(c, w, waiting), l, buffers[..n], buffers[n]);
    RunConcat(c, w, waiting, arrival);
    run := waiting + arrival;
    assert buffers[..n] + [buffers[n]] == buffers[..n + 1];
  }

  /**
   Every stream and every recording can end: whatever buffers the encoder completes and whatever is read
   with them, if the last one is the end, some run of the loop is over having used exactly those before it.
   */
  lemma EveryEndIsReached(c: Config, l: H.Loop, buffers: seq<EncodedBuffer>) returns (run: seq<Move>)
    requires l != H.Capture && buffers != [] && EndsAt(c, l, buffers, |buffers| - 1)
    ensures IsRun(c, Start(c, H.Encoder), run)
    ensures OverAfter(After(c, Start(c, H.Encoder), run), l, buffers)
  {
    var n := |buffers| - 1;
    var before := LoopGetsTo(c, l, buffers, n);
    assert buffers[..n + 1] == buffers;
    var w := After(c, Start(c, H.Encoder), before);
    var m := TestPossible(c, w, l, buffers);
    if !m.action.quit {
      CurrentOfTest(c, w, l, buffers, m);
      GoesOnMeans(c, Do(c, w, m), n);
    }
    hide IsRun, After, Do, Enabled, GoesOn, EndsAt, Start, TestsLast;
    var end := LoopEnds(c, w, l, buffers, m);
    RunConcat(c, Start(c, H.Encoder), before, end);
    run := before + end;
  }

  lemma CurrentOfTest(c: Config, w: World, l: H.Loop, buffers: seq<EncodedBuffer>, m: Move)
    requires TestsLast(c, w, l, buffers) && m.action.Decide? && Enabled(c, w, m)
    ensures Do(c, w, m).hand.current == l
  {
    SeenAfter(c, w, m);
    H.LoopStep(w.hand, m.action);
  }
}
