/**
 The hand-over of one output buffer between a client loop of OpenMAX and the component that fills
 it, through the flags camera_output_buffer_available / encoder_output_buffer_available and the
 fill-done callbacks. Every step below is one statement of the client loop or one action of the
 component, and a run is any interleaving of them.
 */
module BufferHandshake {
  import opened Bytes

  /** What the component leaves in the buffer: pBuffer from nOffset on, and the nFlags that the loops test. */
  datatype OmxBuffer = OmxBuffer(data: seq<byte>, endOfFrame: bool, sync: bool)

  const NoBuffer := OmxBuffer([], false, false)

  /** The loops of OMXCaptureFrame / OMXCaptureImage, VideoEncode and StartStreaming. */
  datatype Loop = Capture | Record | Stream

  datatype Channel = Camera | Encoder

  function ChannelOf(l: Loop): Channel {
    if l == Capture then Camera else Encoder
  }

  /** Where the client is: outside its loop, or in front of one of the statements of the loop. */
  datatype Pc = Idle | Polling | Taking | Deciding | Reading | Refilling | Clearing | Submitting | Leaving

  /** What became of a completed buffer: read by the loop, or present when the loop was left. */
  datatype Fate = Used(buffer: OmxBuffer) | AtExit(buffer: OmxBuffer)

  datatype State = State(
    channel: Channel, current: Loop, pc: Pc,
    need: bool, available: bool, eos: bool,
    outstanding: nat, filled: bool, buffer: OmxBuffer,
    completed: seq<OmxBuffer>, fates: seq<Fate>, callStart: nat)

  datatype Action =
    | Start(l: Loop)    // enter a loop: need_next_buffer_to_be_filled = 1, the encoder loops clear the flag
    | Poll              // if (output_buffer_available)
    | Take              // the capture loop clears the flag before it reads
    | Decide(quit: bool)// the test for leaving the loop
    | Read              // use the buffer, need_next_buffer_to_be_filled = 1
    | Refill            // if (need_next_buffer_to_be_filled)
    | Clear             // output_buffer_available = 0
    | Submit            // OMX_FillThisBuffer
    | Leave             // the statements behind the loop
    | Fill(buffer: OmxBuffer) // the component writes into the buffer
    | Done              // its callback: output_buffer_available = 1
    | EndOfStream       // a buffer-flag event, at any time: buff_eos = true
    | Flush(flag: bool) // SwitchBufferFlush between two calls; its callback may leave the flag set

  function Init(channel: Channel): State {
    State(channel, if channel == Camera then Capture else Record, Idle,
          false, false, false, 0, false, NoBuffer, [], [], 0)
  }

  predicate Enabled(s: State, a: Action) {
    match a
    case Start(l) => s.pc == Idle && ChannelOf(l) == s.channel
    case Poll => s.pc == Polling
    case Take => s.pc == Taking
    case Decide(quit) => s.pc == Deciding && (s.channel == Camera ==> quit == s.eos)
    case Read => s.pc == Reading
    case Refill => s.pc == Refilling
    case Clear => s.pc == Clearing
    case Submit => s.pc == Submitting
    case Leave => s.pc == Leaving
    case Fill(_) => s.outstanding > 0 && !s.filled
    case Done => s.outstanding > 0 && s.filled
    case EndOfStream => s.channel == Camera
    case Flush(_) => s.pc == Idle && s.channel == Encoder
  }

  function Do(s: State, a: Action): State
    requires Enabled(s, a)
  {
    match a
    case Start(l) =>
      s.(current := l, pc := Polling, need := true, callStart := |s.fates|,
         available := if l == Capture then s.available else false)
    case Poll =>
      if !s.available then s.(pc := Refilling)
      else s.(pc := if s.current == Capture then Taking else Deciding)
    case Take => s.(pc := Deciding, available := false)
    case Decide(quit) =>
      if quit then s.(pc := Leaving, fates := s.fates + [AtExit(s.buffer)]) else s.(pc := Reading)
    case Read => s.(pc := Refilling, need := true, fates := s.fates + [Used(s.buffer)])
    case Refill => if s.need then s.(pc := Clearing, need := false) else s.(pc := Polling)
    case Clear => s.(pc := Submitting, available := false)
    case Submit => s.(pc := Polling, outstanding := s.outstanding + 1)
    case Leave =>
      s.(pc := Idle,
         available := if s.current == Stream then false else s.available,
         eos := if s.current == Capture then false else s.eos)
    case Fill(buffer) => s.(buffer := buffer, filled := true)
    case Done =>
      s.(filled := false, outstanding := s.outstanding - 1, available := true, completed := s.completed + [s.buffer])
    case EndOfStream => s.(eos := true)
    case Flush(flag) => s.(available := flag)
  }

  /** A run from a state: every action is possible when its turn comes. */
  predicate IsRun(s: State, run: seq<Action>)
    decreases |run|
  {
    run == [] || (Enabled(s, run[0]) && IsRun(Do(s, run[0]), run[1..]))
  }

  function After(s: State, run: seq<Action>): State
    requires IsRun(s, run)
    decreases |run|
  {
    if run == [] then s else After(Do(s, run[0]), run[1..])
  }

  // ---- the invariant ------------------------------------------------------------------------

  function BuffersOf(fates: seq<Fate>): seq<OmxBuffer> {
    seq(|fates|, i requires 0 <= i < |fates| => fates[i].buffer)
  }

  predicate InLoop(s: State) {
    s.pc != Idle && s.pc != Leaving
  }

  /** A completed buffer waits for the client or is in its hands. */
  predicate Pending(s: State) {
    || s.pc == Taking || s.pc == Deciding || s.pc == Reading
    || ((s.pc == Polling || s.pc == Refilling) && !s.need && s.available)
  }

  /** Nobody else may touch the buffer while the client has it. */
  predicate ClientOwns(s: State) {
    s.outstanding == 0
  }

  predicate Ownership(s: State) {
    && s.outstanding <= 1
    && (s.filled ==> s.outstanding == 1)
    && (s.outstanding == 1 ==> (s.pc == Polling || s.pc == Refilling) && !s.need && !s.available)
    && ChannelOf(s.current) == s.channel
    && (s.channel == Camera && s.available ==> !s.need && s.pc in {Polling, Refilling, Taking})
    && (s.pc == Submitting ==> !s.available)
    && (s.channel == Encoder && s.pc in {Deciding, Reading, Leaving} ==> s.available)
    && (s.pc == Polling && s.need ==> !s.available)
    && (s.pc in {Polling, Refilling} && !s.need && !s.available ==> s.outstanding == 1)
    && (s.pc == Clearing || s.pc == Submitting ==> !s.need)
    && (s.pc == Taking ==> s.current == Capture)
    && (s.channel == Encoder ==> !s.eos)
  }

  predicate Accounting(s: State) {
    && s.completed == BuffersOf(s.fates) + (if Pending(s) then [s.buffer] else [])
    && s.callStart <= |s.fates|
    && (InLoop(s) ==> forall i :: s.callStart <= i < |s.fates| ==> s.fates[i].Used?)
    && (s.pc == Leaving ==> s.callStart < |s.fates|)
    && (!InLoop(s) && s.callStart < |s.fates| ==>
          s.fates[|s.fates| - 1].AtExit? && forall i :: s.callStart <= i < |s.fates| - 1 ==> s.fates[i].Used?)
  }

  predicate Inv(s: State) {
    Ownership(s) && Accounting(s)
  }

  lemma OwnershipKept(s: State, a: Action)
    requires Ownership(s) && Enabled(s, a)
    ensures Ownership(Do(s, a))
  {
  }

  lemma AccountingKept(s: State, a: Action)
    requires Inv(s) && Enabled(s, a)
    ensures Accounting(Do(s, a))
  {
    var t := Do(s, a);
    if a.Decide? && a.quit {
      assert BuffersOf(t.fates) == BuffersOf(s.fates) + [s.buffer];
    } else if a.Read? {
      assert BuffersOf(t.fates) == BuffersOf(s.fates) + [s.buffer];
    }
  }

  lemma InvKept(s: State, a: Action)
    requires Inv(s) && Enabled(s, a)
    ensures Inv(Do(s, a))
  {
    OwnershipKept(s, a);
    AccountingKept(s, a);
  }

  lemma {:induction false} InvAlways(s: State, run: seq<Action>)
    requires Inv(s) && IsRun(s, run)
    ensures Inv(After(s, run))
    decreases |run|
  {
    if run != [] {
      InvKept(s, run[0]);
      InvAlways(Do(s, run[0]), run[1..]);
    }
  }

  // ---- what it means for every run ----------------------------------------------------------

  /**
   Safety over all interleavings: at most one fill request is outstanding; the loop decides and reads
   only while it owns the buffer, and then the buffer holds the last completed data; nobody waits for
   a request that was not made.
   */
  lemma HandshakeIsSafe(channel: Channel, run: seq<Action>)
    requires IsRun(Init(channel), run)
    ensures var s := After(Init(channel), run);
      && s.outstanding <= 1
      && (s.pc == Deciding || s.pc == Reading ==>
            ClientOwns(s) && !s.filled && |s.completed| > 0 && s.buffer == s.completed[|s.completed| - 1])
      && (s.pc == Submitting ==> ClientOwns(s))
      && (s.pc == Polling && !s.need && !s.available ==> !ClientOwns(s))
  {
    InvAlways(Init(channel), run);
  }

  /**
   Nothing is lost, repeated or reordered: what the loops did with the buffers is, in order, what
   the component completed, short of at most one buffer that waits for its turn.
   */
  lemma EveryBufferOnce(channel: Channel, run: seq<Action>)
    requires IsRun(Init(channel), run)
    ensures var s := After(Init(channel), run);
      && BuffersOf(s.fates) <= s.completed && |s.completed| <= |s.fates| + 1
      && (|s.completed| == |s.fates| + 1 <==> Pending(s))
      && (s.pc == Idle ==> s.completed == BuffersOf(s.fates))
  {
    InvAlways(Init(channel), run);
  }

  /** What the loop did with the buffers completed since it was entered, once it is left. */
  predicate CallUsedAllButTheLast(s: State) {
    && 0 <= s.callStart < |s.fates| == |s.completed|
    && s.fates[|s.fates| - 1] == AtExit(s.completed[|s.completed| - 1])
    && forall i :: s.callStart <= i < |s.fates| - 1 ==> s.fates[i] == Used(s.completed[i])
  }

  /** How many buffers the current call has tested for the end. */
  function Tested(s: State): int {
    |s.fates| - s.callStart + (if s.pc == Reading then 1 else 0)
  }

  /** Only Start and Decide change that number, and completed buffers stay. */
  lemma TestedStep(s: State, a: Action)
    requires Enabled(s, a)
    ensures var t := Do(s, a);
      && s.completed <= t.completed
      && Tested(t) == (if a.Start? then 0 else Tested(s) + (if a.Decide? then 1 else 0))
      && t.callStart == (if a.Start? then |s.fates| else s.callStart)
  {
  }

  /** Only Decide and Read say what became of the buffer. */
  lemma FatesStep(s: State, a: Action)
    requires Enabled(s, a)
    ensures Do(s, a).channel == s.channel && Do(s, a).callStart == (if a.Start? then |s.fates| else s.callStart)
    ensures Do(s, a).fates == s.fates + (if a.Read? then [Used(s.buffer)]
                                         else if a.Decide? && a.quit then [AtExit(s.buffer)] else [])
  {
  }

  /** Only Start enters a loop, and only Decide leaves it. */
  lemma LoopStep(s: State, a: Action)
    requires Enabled(s, a)
    ensures var t := Do(s, a);
      && t.channel == s.channel && (a.Start? || t.current == s.current)
      && (a.Start? ==> InLoop(t) && t.current == a.l)
      && (a.Decide? ==> InLoop(s) && (InLoop(t) <==> !a.quit))
      && (!a.Start? && !a.Decide? ==>
            (InLoop(t) <==> InLoop(s)) && (!InLoop(s) ==> t.fates == s.fates && t.callStart == s.callStart))
  {
  }

  lemma InvMeansUsed(s: State)
    requires Inv(s)
    ensures s.callStart <= |s.fates| <= |s.completed|
    ensures s.pc == Deciding ==> |s.completed| == |s.fates| + 1 && s.completed[|s.fates|] == s.buffer
    ensures s.pc == Idle && s.callStart < |s.fates| ==> CallUsedAllButTheLast(s)
  {
  }

  /** A loop that was left has used every buffer completed since its start but the one it left at. */
  lemma CallUsesAllButTheLast(channel: Channel, run: seq<Action>)
    requires IsRun(Init(channel), run)
    ensures var s := After(Init(channel), run);
      s.callStart <= |s.fates| && (s.pc == Idle && s.callStart < |s.fates| ==> CallUsedAllButTheLast(s))
  {
    InvAlways(Init(channel), run);
    InvMeansUsed(After(Init(channel), run));
  }

  /** The logs only grow, so what holds of them once stays true. */
  lemma {:induction false} LogsGrow(s: State, run: seq<Action>)
    requires IsRun(s, run)
    ensures s.completed <= After(s, run).completed && s.fates <= After(s, run).fates
    decreases |run|
  {
    if run != [] {
      LogsGrow(Do(s, run[0]), run[1..]);
    }
  }

  /** An end-of-stream event came when the loop had been left already. */
  predicate LateEvent(run: seq<Action>) {
    exists k :: 0 <= k < |run| && run[k] == EndOfStream && Leave !in run[k..]
  }

  lemma LateEventStep(run: seq<Action>)
    requires run != []
    ensures LateEvent(run) <==> LateEvent(run[1..]) || (run[0] == EndOfStream && Leave !in run)
  {
    if LateEvent(run) {
      var k :| 0 <= k < |run| && run[k] == EndOfStream && Leave !in run[k..];
      if k > 0 {
        assert run[1..][k - 1] == EndOfStream && run[1..][k - 1..] == run[k..];
      } else {
        assert run[0..] == run;
      }
    }
    if LateEvent(run[1..]) {
      var k :| 0 <= k < |run[1..]| && run[1..][k] == EndOfStream && Leave !in run[1..][k..];
      assert run[k + 1] == EndOfStream && run[k + 1..] == run[1..][k..];
    }
    if run[0] == EndOfStream && Leave !in run {
      assert run[0..] == run;
    }
  }

  lemma {:induction false} EosIsLastEvent(s: State, run: seq<Action>)
    requires Inv(s) && s.channel == Camera && IsRun(s, run)
    ensures After(s, run).eos <==> LateEvent(run) || (s.eos && Leave !in run)
    decreases |run|
  {
    if run != [] {
      InvKept(s, run[0]);
      EosIsLastEvent(Do(s, run[0]), run[1..]);
      LateEventStep(run);
      assert Leave in run <==> run[0] == Leave || Leave in run[1..];
    }
  }

  /**
   Between two capture calls the camera flag is clear and no request is out. The end-of-stream flag
   is clear as well, unless an event came after the loop had been left.
   */
  lemma CameraIdleBetweenCalls(run: seq<Action>)
    requires IsRun(Init(Camera), run)
    ensures var s := After(Init(Camera), run);
      s.pc == Idle ==> !s.available && ClientOwns(s) && (s.eos <==> LateEvent(run))
  {
    InvAlways(Init(Camera), run);
    ChannelIsFixed(Init(Camera), run);
    EosIsLastEvent(Init(Camera), run);
  }

  /** Then the next call uses no buffer at all: as long as its loop is not left behind, nothing is read. */
  lemma {:induction false} LateEventEmptiesCall(s: State, run: seq<Action>)
    requires Inv(s) && s.channel == Camera && s.eos && s.pc != Reading
    requires IsRun(s, run) && Leave !in run
    ensures After(s, run).eos && s.fates <= After(s, run).fates
    ensures forall i :: |s.fates| <= i < |After(s, run).fates| ==> After(s, run).fates[i].AtExit?
    decreases |run|
  {
    if run != [] {
      InvKept(s, run[0]);
      LateEventEmptiesCall(Do(s, run[0]), run[1..]);
    }
  }

  lemma {:induction false} ChannelIsFixed(s: State, run: seq<Action>)
    requires IsRun(s, run)
    ensures After(s, run).channel == s.channel
    decreases |run|
  {
    if run != [] {
      ChannelIsFixed(Do(s, run[0]), run[1..]);
    }
  }

  /**
   The encoder flag is not: a recording leaves it set and a stream clears it. The clearing at the
   start of the next loop is what keeps that loop from reading a stale buffer.
   */
  lemma EncoderFlagBetweenCalls(run: seq<Action>, l: Loop)
    requires IsRun(Init(Encoder), run) && l != Capture
    ensures var s := After(Init(Encoder), run);
      && (s.pc == Leaving ==> (Do(s, Leave).available <==> s.current == Record))
      && (s.pc == Idle ==>
            ClientOwns(s) && Enabled(s, Start(l)) && !Do(s, Start(l)).available && !Pending(Do(s, Start(l))))
  {
    InvAlways(Init(Encoder), run);
    ChannelIsFixed(Init(Encoder), run);
  }
}
