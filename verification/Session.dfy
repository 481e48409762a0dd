/**
 The threads that share the camera pipeline: StreamManager and EventManager under
 mutex_EventManager, CommunicationService reading flag_stream, and the start-up before them. Every
 action below is one statement or one call of a thread, and a run is any interleaving.
 */
module Session {
  import opened Bytes

  // ---- the pipeline -------------------------------------------------------------------------

  datatype ComponentState = Unloaded | Loaded | Idle | Executing

  /**
   The OMX components, their ports, how often each of the three client buffers is allocated, and the
   camera ports on which capturing is switched on.
   */
  datatype Pipeline = Pipeline(
    state: ComponentState, ports: bool, in73: nat, out72: nat, out201: nat, capturing: set<int>)

  const VIDEO_PORT := 71
  const IMAGE_PORT := 72

  predicate Allocated(p: Pipeline, n: nat) {
    p.in73 == n && p.out72 == n && p.out201 == n
  }

  /** Executing, ports enabled, each buffer allocated exactly once. */
  predicate Ready(p: Pipeline) {
    p.state == Executing && p.ports && Allocated(p, 1)
  }

  // ---- the statements of the threads --------------------------------------------------------

  datatype Op =
    // calls on OpenMAX
    | BufferFlush | DisablePorts | FreeBuffers | Configure | SwitchIdle | EnablePorts
    | AllocateBuffers | SwitchExecuting | CapturePort(port: int, on: bool)
    | SwitchLoaded | InitComponent | LoadDriver | SetupPorts
    | CaptureFrame | RecordVideo
    // statements of StreamManager::Run
    | SetFlag | SendStart | StreamBegin | StreamEnd | SendStop | ClearFlag

  /** The rest of a thread's locked section. */
  datatype Program = End | Then(op: Op, rest: Program)

  /** What the threads share; the two logs are ghosts of what happened. */
  datatype Shared = Shared(
    pipe: Pipeline, flagStream: bool, isEnd: bool, flagMotor: int, interCmd: int,
    commands: seq<int>, allocations: seq<bool>)

  const FIRST_START := 0xa1
  const RESTART := 0xa2
  const STOP := 0xa3

  /** What OpenMAX IL and the protocol of the node require of a statement. */
  predicate Legal(s: Shared, op: Op) {
    match op
    case BufferFlush => s.pipe.state == Executing && Allocated(s.pipe, 1)
    case DisablePorts => s.pipe.ports
    case FreeBuffers => Allocated(s.pipe, 1) && !s.pipe.ports
    case Configure => Allocated(s.pipe, 0) && !s.pipe.ports && s.pipe.state != Unloaded
    case SwitchIdle => Allocated(s.pipe, 0) && (s.pipe.state == Executing || s.pipe.state == Loaded)
    case EnablePorts => s.pipe.state == Idle && !s.pipe.ports
    case AllocateBuffers => s.pipe.state == Idle && s.pipe.ports && Allocated(s.pipe, 0)
    case SwitchExecuting => s.pipe.state == Idle && s.pipe.ports && Allocated(s.pipe, 1)
    case CapturePort(_, _) => Ready(s.pipe)
    case SwitchLoaded => s.pipe.state == Idle && Allocated(s.pipe, 0) && !s.pipe.ports
    case InitComponent => s.pipe.state == Unloaded && Allocated(s.pipe, 0)
    case LoadDriver => s.pipe.state == Loaded
    case SetupPorts => s.pipe.state == Loaded && !s.pipe.ports
    case CaptureFrame => Ready(s.pipe) && !s.flagStream && IMAGE_PORT in s.pipe.capturing
    case RecordVideo => Ready(s.pipe) && !s.flagStream && VIDEO_PORT in s.pipe.capturing
    case SetFlag => Ready(s.pipe) && !s.flagStream
    case SendStart => s.flagStream && (s.flagMotor == 0 || s.flagMotor == 2)
    case StreamBegin => Ready(s.pipe) && s.flagStream && s.flagMotor == 1 && VIDEO_PORT in s.pipe.capturing
    case StreamEnd => Ready(s.pipe) && s.flagStream && VIDEO_PORT in s.pipe.capturing
    case SendStop => s.flagStream && s.flagMotor == 1
    case ClearFlag => s.flagStream && s.flagMotor == 2
  }

  function Execute(s: Shared, op: Op): Shared {
    match op
    case DisablePorts => s.(pipe := s.pipe.(ports := false))
    case FreeBuffers =>
      if s.pipe.in73 == 0 || s.pipe.out72 == 0 || s.pipe.out201 == 0 then s
      else s.(pipe := s.pipe.(in73 := s.pipe.in73 - 1, out72 := s.pipe.out72 - 1, out201 := s.pipe.out201 - 1),
              allocations := s.allocations + [false])
    case SwitchIdle => s.(pipe := s.pipe.(state := Idle))
    case EnablePorts => s.(pipe := s.pipe.(ports := true))
    case AllocateBuffers =>
      s.(pipe := s.pipe.(in73 := s.pipe.in73 + 1, out72 := s.pipe.out72 + 1, out201 := s.pipe.out201 + 1),
         allocations := s.allocations + [true])
    case SwitchExecuting => s.(pipe := s.pipe.(state := Executing))
    case SwitchLoaded => s.(pipe := s.pipe.(state := Unloaded))
    case CapturePort(port, on) =>
      s.(pipe := s.pipe.(capturing := if on then s.pipe.capturing + {port} else s.pipe.capturing - {port}))
    case InitComponent => s.(pipe := s.pipe.(state := Loaded, ports := false, capturing := {}))
    case SetFlag => s.(flagStream := true)
    case SendStart =>
      var cmd := if s.flagMotor == 0 then FIRST_START else if s.flagMotor == 2 then RESTART else s.interCmd;
      s.(interCmd := cmd, flagMotor := 1, commands := s.commands + [cmd])
    case StreamBegin => s.(isEnd := false)
    case SendStop => s.(interCmd := STOP, flagMotor := 2, commands := s.commands + [STOP])
    case ClearFlag => s.(flagStream := false)
    case _ => s
  }

  // ---- the programs, each followed by the rest of the section --------------------------------

  /** ResetConfigure(_, _, _, port). */
  function Reset(port: int, rest: Program): Program {
    Then(BufferFlush, Then(DisablePorts, Then(FreeBuffers, Then(Configure, BringBack(port, rest)))))
  }

  /** SwitchIdle to SwitchCapturePort, the common end of ResetConfigure and of a bring-up. */
  function BringBack(port: int, rest: Program): Program {
    Then(SwitchIdle,
      Then(EnablePorts, Then(AllocateBuffers, Then(SwitchExecuting, Then(CapturePort(port, true), rest)))))
  }

  /** From InitComponent on, as in CameraManager and at the end of EventManager::Run. */
  function BringUp(rest: Program): Program {
    Then(InitComponent, Then(LoadDriver, Then(Configure, Then(SetupPorts, BringBack(IMAGE_PORT, rest)))))
  }

  /** One capture between switching port 72 on and off. */
  function OneCapture(rest: Program): Program {
    Then(CapturePort(IMAGE_PORT, true), Then(CaptureFrame, Then(CapturePort(IMAGE_PORT, false), rest)))
  }

  function TearDown(rest: Program): Program {
    Then(CapturePort(VIDEO_PORT, false), Then(BufferFlush, Then(DisablePorts, Then(FreeBuffers,
    Then(SwitchIdle, Then(SwitchLoaded, rest))))))
  }

  const Boot: Program := BringUp(OneCapture(End))

  const Detect: Program := OneCapture(OneCapture(End))

  const Recording: Program := Reset(VIDEO_PORT, Then(RecordVideo, TearDown(BringUp(End))))

  /** A session of StreamManager, in four parts. */
  const AfterStop: Program := Then(ClearFlag, Reset(IMAGE_PORT, End))

  const AfterStream: Program := Then(CapturePort(IMAGE_PORT, false), Then(SendStop, AfterStop))

  const AfterStart: Program := Then(StreamBegin, Then(StreamEnd, AfterStream))

  const Streaming: Program := Reset(VIDEO_PORT, Then(SetFlag, Then(SendStart, AfterStart)))

  // ---- the threads --------------------------------------------------------------------------

  datatype Thread = StreamThread | EventThread

  datatype StreamPc = Waiting | WantLock | Draining | InSession(todo: Program)

  datatype EventPc = Outside | Detecting(todo: Program) | Deciding | InRecording(todo: Program) | Finished

  /**
   booting holds the rest of the start-up; the threads start when it is done. history is a ghost: every
   statement executed so far.
   */
  datatype State = State(
    booting: Option<Program>, owner: Option<Thread>, shared: Shared, stream: StreamPc, event: EventPc,
    history: seq<Op>)

  const Initial := State(
    Some(Boot), None, Shared(Pipeline(Unloaded, false, 0, 0, 0, {}), false, false, 0, 0, [], []),
    Waiting, Outside, [])

  datatype Action =
    | BootStep
    | StreamWake          // pthread_cond_wait returns
    | StreamLock          // pthread_mutex_lock(&mutex_EventManager)
    | StreamRequest       // a message for this camera
    | StreamStep          // the next statement of the session
    | StreamUnlock        // no message left
    | EventLock
    | EventStep
    | EventDecide(moved: bool)
    | EventUnlock
    | StopRequest         // RECV_STREAM_STOP && flag_stream: SignalEnd

  /** The next statement can run: only the end of the stream has to wait, for is_end. */
  predicate Unblocked(s: Shared, todo: Program) {
    todo.Then? && (todo.op == StreamEnd ==> s.isEnd)
  }

  predicate Enabled(s: State, a: Action) {
    match a
    case BootStep => s.booting.Some?
    case StreamWake => s.booting.None? && s.stream == Waiting
    case StreamLock => s.booting.None? && s.stream == WantLock && s.owner == None
    case StreamRequest => s.stream == Draining
    case StreamStep => s.stream.InSession? && (s.stream.todo == End || Unblocked(s.shared, s.stream.todo))
    case StreamUnlock => s.stream == Draining
    case EventLock => s.booting.None? && s.event == Outside && s.owner == None
    case EventStep => s.event.Detecting? || s.event.InRecording?
    case EventDecide(_) => s.event == Deciding
    case EventUnlock => s.event == Finished
    case StopRequest => s.booting.None? && s.shared.flagStream
  }

  function Do(s: State, a: Action): State
    requires Enabled(s, a)
  {
    match a
    case BootStep =>
      if s.booting.value == End then s.(booting := None)
      else
        var op := s.booting.value.op;
        s.(booting := Some(s.booting.value.rest), shared := Execute(s.shared, op), history := s.history + [op])
    case StreamWake => s.(stream := WantLock)
    case StreamLock => s.(stream := Draining, owner := Some(StreamThread))
    case StreamRequest => s.(stream := InSession(Streaming))
    case StreamStep =>
      if s.stream.todo == End then s.(stream := Draining)
      else
        var op := s.stream.todo.op;
        s.(stream := InSession(s.stream.todo.rest), shared := Execute(s.shared, op), history := s.history + [op])
    case StreamUnlock => s.(stream := Waiting, owner := None)
    case EventLock => s.(event := Detecting(Detect), owner := Some(EventThread))
    case EventStep =>
      if s.event.todo == End then s.(event := if s.event.Detecting? then Deciding else Finished)
      else
        var op, rest := s.event.todo.op, s.event.todo.rest;
        s.(event := if s.event.Detecting? then Detecting(rest) else InRecording(rest),
           shared := Execute(s.shared, op), history := s.history + [op])
    case EventDecide(moved) =>
      s.(event := if moved && !s.shared.flagStream then InRecording(Recording) else Finished)
    case EventUnlock => s.(event := Outside, owner := None)
    case StopRequest => s.(shared := s.shared.(isEnd := true))
  }

  predicate IsRun(s: State, run: seq<Action>)
    decreases |run|
  {
    run == [] || (Enabled(s, run[0]) && IsRun(Do(s, run[0]), run[1..]))
  }

  function After(s: State, run: seq<Action>): State
    requires IsRun(s, run)
    decreases |run|
  {
    if run == [] then s else After(Do(s, run[0]), run[1..])
  }

  // ---- invariants ---------------------------------------------------------------------------

  /** The motor commands so far: FIRST_START STOP (RESTART STOP)*, or a prefix of it. */
  predicate MotorPattern(commands: seq<int>) {
    forall i :: 0 <= i < |commands| ==>
      commands[i] == if i % 2 == 1 then STOP else if i == 0 then FIRST_START else RESTART
  }

  /** Allocations and frees take turns, starting with an allocation. */
  predicate Alternating(log: seq<bool>) {
    forall i :: 0 <= i < |log| ==> (log[i] <==> i % 2 == 0)
  }

  /** flag_motor says where in the pattern the commands stand. */
  predicate MotorInStep(s: Shared) {
    && MotorPattern(s.commands)
    && (s.flagMotor == 0 <==> s.commands == [])
    && (s.flagMotor == 1 <==> |s.commands| % 2 == 1)
    && (s.flagMotor == 2 <==> s.commands != [] && |s.commands| % 2 == 0)
  }

  /** The three buffers are allocated together, and as often as the log says. */
  predicate BuffersInStep(s: Shared) {
    Alternating(s.allocations) && Allocated(s.pipe, |s.allocations| % 2)
  }

  predicate Consistent(s: Shared) {
    MotorInStep(s) && BuffersInStep(s)
  }

  /** Between two locked sections: the pipeline is ready and no stream is on. */
  predicate Rested(s: Shared) {
    Ready(s.pipe) && !s.flagStream && s.flagMotor != 1
  }

  /** All statements left can be executed legally, one after the other, and lead to rest. */
  predicate LeadsToRest(s: Shared, todo: Program)
    decreases todo
  {
    match todo
    case End => Rested(s)
    case Then(op, rest) => Legal(s, op) && LeadsToRest(Execute(s, op), rest)
  }

  lemma LegalKeepsConsistent(s: Shared, op: Op)
    requires Consistent(s) && Legal(s, op)
    ensures Consistent(Execute(s, op))
  {
  }

  // ---- every program leads back to rest -----------------------------------------------------

  /** The part of the shared state that a call on the pipeline leaves alone. */
  predicate SameSession(s: Shared, t: Shared) {
    s.flagStream == t.flagStream && s.flagMotor == t.flagMotor
  }

  /** From every ready state of the same session in which these ports capture, the rest can be run. */
  ghost predicate Resumes(s: Shared, open: set<int>, rest: Program) {
    forall t: Shared :: Ready(t.pipe) && SameSession(s, t) && open <= t.pipe.capturing ==> LeadsToRest(t, rest)
  }

  lemma OneMoreStep(s: Shared, op: Op, rest: Program)
    requires Legal(s, op) && LeadsToRest(Execute(s, op), rest)
    ensures LeadsToRest(s, Then(op, rest))
  {
    hide Legal, Execute;
  }

  lemma BringBackLeadsToRest(s: Shared, port: int, rest: Program)
    requires s.pipe.state == Executing || s.pipe.state == Loaded
    requires !s.pipe.ports && Allocated(s.pipe, 0) && Resumes(s, {port}, rest)
    ensures LeadsToRest(s, BringBack(port, rest))
  {
    var s1 := Execute(s, SwitchIdle);
    var s2 := Execute(s1, EnablePorts);
    var s3 := Execute(s2, AllocateBuffers);
    var s4 := Execute(s3, SwitchExecuting);
    var s5 := Execute(s4, CapturePort(port, true));
    assert Ready(s5.pipe) && SameSession(s, s5) && {port} <= s5.pipe.capturing;
    assert LeadsToRest(s4, Then(CapturePort(port, true), rest));
    assert LeadsToRest(s3, Then(SwitchExecuting, Then(CapturePort(port, true), rest)));
    assert LeadsToRest(s2, Then(AllocateBuffers, Then(SwitchExecuting, Then(CapturePort(port, true), rest))));
    assert LeadsToRest(s1,
      Then(EnablePorts, Then(AllocateBuffers, Then(SwitchExecuting, Then(CapturePort(port, true), rest)))));
  }

  lemma ResetLeadsToRest(s: Shared, port: int, rest: Program)
    requires Ready(s.pipe) && Resumes(s, {port}, rest)
    ensures LeadsToRest(s, Reset(port, rest))
  {
    hide BringBack;
    var s1 := Execute(s, BufferFlush);
    var s2 := Execute(s1, DisablePorts);
    var s3 := Execute(s2, FreeBuffers);
    var s4 := Execute(s3, Configure);
    BringBackLeadsToRest(s4, port, rest);
    assert LeadsToRest(s3, Then(Configure, BringBack(port, rest)));
    assert LeadsToRest(s2, Then(FreeBuffers, Then(Configure, BringBack(port, rest))));
    assert LeadsToRest(s1, Then(DisablePorts, Then(FreeBuffers, Then(Configure, BringBack(port, rest)))));
  }

  lemma BringUpLeadsToRest(s: Shared, rest: Program)
    requires s.pipe.state == Unloaded && Allocated(s.pipe, 0) && Resumes(s, {IMAGE_PORT}, rest)
    ensures LeadsToRest(s, BringUp(rest))
  {
    hide BringBack;
    var s1 := Execute(s, InitComponent);
    var s2 := Execute(s1, LoadDriver);
    var s3 := Execute(s2, Configure);
    var s4 := Execute(s3, SetupPorts);
    BringBackLeadsToRest(s4, 72, rest);
    assert LeadsToRest(s3, Then(SetupPorts, BringBack(IMAGE_PORT, rest)));
    assert LeadsToRest(s2, Then(Configure, Then(SetupPorts, BringBack(IMAGE_PORT, rest))));
    assert LeadsToRest(s1, Then(LoadDriver, Then(Configure, Then(SetupPorts, BringBack(IMAGE_PORT, rest)))));
  }

  lemma OneCaptureLeadsToRest(s: Shared, rest: Program)
    requires Ready(s.pipe) && !s.flagStream && Resumes(s, {}, rest)
    ensures LeadsToRest(s, OneCapture(rest))
  {
    var s1 := Execute(s, CapturePort(IMAGE_PORT, true));
    var s2 := Execute(s1, CaptureFrame);
    assert LeadsToRest(s2, Then(CapturePort(IMAGE_PORT, false), rest));
    assert LeadsToRest(s1, Then(CaptureFrame, Then(CapturePort(IMAGE_PORT, false), rest)));
  }

  lemma TearDownLeadsToRest(s: Shared)
    requires Ready(s.pipe) && Resumes(s, {}, End)
    ensures LeadsToRest(s, TearDown(BringUp(End)))
  {
    hide BringUp, LeadsToRest;
    var rest := BringUp(End);
    var s1 := Execute(s, CapturePort(VIDEO_PORT, false));
    var s2 := Execute(s1, BufferFlush);
    var s3 := Execute(s2, DisablePorts);
    var s4 := Execute(s3, FreeBuffers);
    var s5 := Execute(s4, SwitchIdle);
    var s6 := Execute(s5, SwitchLoaded);
    BringUpLeadsToRest(s6, End);
    OneMoreStep(s5, SwitchLoaded, rest);
    OneMoreStep(s4, SwitchIdle, Then(SwitchLoaded, rest));
    OneMoreStep(s3, FreeBuffers, Then(SwitchIdle, Then(SwitchLoaded, rest)));
    OneMoreStep(s2, DisablePorts, Then(FreeBuffers, Then(SwitchIdle, Then(SwitchLoaded, rest))));
    OneMoreStep(s1, BufferFlush, Then(DisablePorts, Then(FreeBuffers, Then(SwitchIdle, Then(SwitchLoaded, rest)))));
    OneMoreStep(s, CapturePort(VIDEO_PORT, false),
      Then(BufferFlush, Then(DisablePorts, Then(FreeBuffers, Then(SwitchIdle, Then(SwitchLoaded, rest))))));
  }

  lemma BootLeadsToRest()
    ensures LeadsToRest(Initial.shared, Boot)
  {
    hide OneCapture, BringUp;
    var s := Initial.shared;
    forall t: Shared | Ready(t.pipe) && SameSession(s, t) ensures LeadsToRest(t, OneCapture(End)) {
      OneCaptureLeadsToRest(t, End);
    }
    BringUpLeadsToRest(s, OneCapture(End));
  }

  lemma DetectLeadsToRest(s: Shared)
    requires Rested(s)
    ensures LeadsToRest(s, Detect)
  {
    hide OneCapture;
    forall t: Shared | Ready(t.pipe) && SameSession(s, t) ensures LeadsToRest(t, OneCapture(End)) {
      OneCaptureLeadsToRest(t, End);
    }
    OneCaptureLeadsToRest(s, OneCapture(End));
  }

  lemma RecordingLeadsToRest(s: Shared)
    requires Rested(s)
    ensures LeadsToRest(s, Recording)
  {
    hide Reset, TearDown, BringUp;
    var rest := Then(RecordVideo, TearDown(BringUp(End)));
    forall t: Shared | Ready(t.pipe) && SameSession(s, t) && {VIDEO_PORT} <= t.pipe.capturing
      ensures LeadsToRest(t, rest)
    {
      assert VIDEO_PORT in t.pipe.capturing;
      TearDownLeadsToRest(Execute(t, RecordVideo));
    }
    ResetLeadsToRest(s, 71, rest);
  }

  lemma AfterStopLeadsToRest(s: Shared)
    requires Ready(s.pipe) && s.flagStream && s.flagMotor == 2
    ensures LeadsToRest(s, AfterStop)
  {
    hide Reset;
    ResetLeadsToRest(Execute(s, ClearFlag), 72, End);
  }

  lemma AfterStreamLeadsToRest(s: Shared)
    requires Ready(s.pipe) && s.flagStream && s.flagMotor == 1
    ensures LeadsToRest(s, AfterStream)
  {
    hide AfterStop;
    var t := Execute(s, CapturePort(IMAGE_PORT, false));
    AfterStopLeadsToRest(Execute(t, SendStop));
    assert LeadsToRest(t, Then(SendStop, AfterStop));
  }

  lemma AfterStartLeadsToRest(s: Shared)
    requires Ready(s.pipe) && s.flagStream && s.flagMotor == 1 && VIDEO_PORT in s.pipe.capturing
    ensures LeadsToRest(s, AfterStart)
  {
    hide AfterStream;
    var t := Execute(s, StreamBegin);
    AfterStreamLeadsToRest(Execute(t, StreamEnd));
    assert LeadsToRest(t, Then(StreamEnd, AfterStream));
  }

  lemma StreamingLeadsToRest(s: Shared)
    requires Rested(s) && (s.flagMotor == 0 || s.flagMotor == 2)
    ensures LeadsToRest(s, Streaming)
  {
    hide Reset, AfterStart;
    forall t: Shared | Ready(t.pipe) && SameSession(s, t) && {VIDEO_PORT} <= t.pipe.capturing
      ensures LeadsToRest(t, Then(SetFlag, Then(SendStart, AfterStart)))
    {
      assert VIDEO_PORT in t.pipe.capturing;
      var t1 := Execute(t, SetFlag);
      AfterStartLeadsToRest(Execute(t1, SendStart));
      assert LeadsToRest(t1, Then(SendStart, AfterStart));
    }
    ResetLeadsToRest(s, 71, Then(SetFlag, Then(SendStart, AfterStart)));
  }

  // ---- the invariant of the node ------------------------------------------------------------

  /** The statements of EventManager and of the start-up: none touches the stream or the motor. */
  predicate PipelineOnly(todo: Program)
    decreases todo
  {
    todo.Then? ==>
      todo.op !in {SetFlag, SendStart, StreamBegin, StreamEnd, SendStop, ClearFlag} && PipelineOnly(todo.rest)
  }

  predicate EventIdle(e: EventPc) {
    e == Outside
  }

  predicate StreamIdle(p: StreamPc) {
    p == Waiting || p == WantLock
  }

  predicate StreamWorks(s: Shared, p: StreamPc) {
    match p
    case Draining => Rested(s)
    case InSession(todo) => LeadsToRest(s, todo)
    case _ => false
  }

  predicate EventWorks(s: Shared, e: EventPc) {
    !s.flagStream &&
    match e
    case Detecting(todo) => LeadsToRest(s, todo) && PipelineOnly(todo)
    case InRecording(todo) => LeadsToRest(s, todo) && PipelineOnly(todo)
    case Deciding => Rested(s)
    case Finished => Rested(s)
    case Outside => false
  }

  predicate Inv(s: State) {
    && Consistent(s.shared)
    && match s.booting
       case Some(todo) =>
         s.owner == None && s.stream == Waiting && EventIdle(s.event)
         && LeadsToRest(s.shared, todo) && PipelineOnly(todo) && !s.shared.flagStream
       case None =>
         match s.owner
         case None => StreamIdle(s.stream) && EventIdle(s.event) && Rested(s.shared)
         case Some(StreamThread) => EventIdle(s.event) && StreamWorks(s.shared, s.stream)
         case Some(EventThread) => StreamIdle(s.stream) && EventWorks(s.shared, s.event)
  }

  lemma {:induction false} EndFlagIrrelevant(s: Shared, todo: Program)
    requires LeadsToRest(s, todo)
    ensures LeadsToRest(s.(isEnd := true), todo)
    decreases todo
  {
    if todo.Then? {
      var t := Execute(s, todo.op);
      if todo.op == StreamBegin {
        assert Execute(s.(isEnd := true), todo.op) == t;
      } else {
        EndFlagIrrelevant(t, todo.rest);
        assert Execute(s.(isEnd := true), todo.op) == t.(isEnd := true);
      }
    }
  }

  lemma ProgramsAreLegal()
    ensures PipelineOnly(Boot) && PipelineOnly(Detect) && PipelineOnly(Recording)
  {
    assert PipelineOnly(OneCapture(End));
    assert PipelineOnly(Detect);
    assert PipelineOnly(BringBack(IMAGE_PORT, End));
    assert PipelineOnly(BringUp(End));
    BringUpPipelineOnly(OneCapture(End));
    var r := BringUp(End);
    assert PipelineOnly(Then(FreeBuffers, Then(SwitchIdle, Then(SwitchLoaded, r))));
    assert PipelineOnly(TearDown(r));
    BringBackPipelineOnly(71, Then(RecordVideo, TearDown(r)));
    assert PipelineOnly(Then(FreeBuffers, Then(Configure, BringBack(71, Then(RecordVideo, TearDown(r))))));
  }

  lemma BringBackPipelineOnly(port: int, rest: Program)
    requires PipelineOnly(rest)
    ensures PipelineOnly(BringBack(port, rest))
  {
    assert PipelineOnly(Then(CapturePort(port, true), rest));
    assert PipelineOnly(Then(SwitchExecuting, Then(CapturePort(port, true), rest)));
    assert PipelineOnly(Then(AllocateBuffers, Then(SwitchExecuting, Then(CapturePort(port, true), rest))));
  }

  lemma BringUpPipelineOnly(rest: Program)
    requires PipelineOnly(rest)
    ensures PipelineOnly(BringUp(rest))
  {
    BringBackPipelineOnly(72, rest);
    assert PipelineOnly(Then(Configure, Then(SetupPorts, BringBack(IMAGE_PORT, rest))));
  }

  lemma InitialInv()
    ensures Inv(Initial)
  {
    hide Boot, Detect, Recording;
    BootLeadsToRest();
    ProgramsAreLegal();
  }

  lemma InvKept(s: State, a: Action)
    requires Inv(s) && Enabled(s, a)
    ensures Inv(Do(s, a))
  {
    hide Boot, Detect, Recording, Streaming;
    match a {
      case BootStep =>
        if s.booting.value.Then? {
          LegalKeepsConsistent(s.shared, s.booting.value.op);
        }
      case StreamRequest =>
        StreamingLeadsToRest(s.shared);
      case StreamStep =>
        if s.stream.todo.Then? {
          LegalKeepsConsistent(s.shared, s.stream.todo.op);
        }
      case EventLock =>
        DetectLeadsToRest(s.shared);
        ProgramsAreLegal();
      case EventStep =>
        if s.event.todo.Then? {
          LegalKeepsConsistent(s.shared, s.event.todo.op);
        }
      case EventDecide(moved) =>
        RecordingLeadsToRest(s.shared);
        ProgramsAreLegal();
      case StopRequest =>
        if s.stream.InSession? {
          EndFlagIrrelevant(s.shared, s.stream.todo);
        }
      case StreamWake =>
      case StreamLock =>
      case StreamUnlock =>
      case EventUnlock =>
    }
  }

  lemma {:induction false} InvAlways(s: State, run: seq<Action>)
    requires Inv(s) && IsRun(s, run)
    ensures Inv(After(s, run))
    decreases |run|
  {
    if run != [] {
      hide Inv, Enabled, Do;
      InvKept(s, run[0]);
      InvAlways(Do(s, run[0]), run[1..]);
    }
  }

  // ---- what it means for every run ----------------------------------------------------------

  /**
   Safety over all interleavings: flag_stream is set only while StreamManager holds the mutex, so no
   recording or detection runs during a stream; whenever the mutex is free after start-up the
   pipeline is ready and no stream is on; buffers are allocated and freed in turns; and the motor gets
   FIRST_START STOP (RESTART STOP)*.
   */
  lemma NodeIsSafe(run: seq<Action>)
    requires IsRun(Initial, run)
    ensures var s := After(Initial, run);
      && (s.shared.flagStream ==> s.owner == Some(StreamThread) && s.stream.InSession?)
      && (s.event.Detecting? || s.event.InRecording? ==> s.owner == Some(EventThread) && !s.shared.flagStream)
      && (s.booting == None && s.owner == None ==> Rested(s.shared))
      && Alternating(s.shared.allocations)
      && MotorPattern(s.shared.commands)
  {
    hide MotorPattern, Alternating, Streaming, Boot, Detect, Recording;
    InitialInv();
    InvAlways(Initial, run);
  }

  /** The thread whose turn it is, if any, is never about to do something illegal. */
  lemma EveryStatementIsLegal(run: seq<Action>)
    requires IsRun(Initial, run)
    ensures var s := After(Initial, run);
      && (s.booting.Some? && s.booting.value.Then? ==> Legal(s.shared, s.booting.value.op))
      && (s.stream.InSession? && s.stream.todo.Then? ==> Legal(s.shared, s.stream.todo.op))
      && (s.event.Detecting? && s.event.todo.Then? ==> Legal(s.shared, s.event.todo.op))
      && (s.event.InRecording? && s.event.todo.Then? ==> Legal(s.shared, s.event.todo.op))
  {
    hide Legal, Consistent, Boot, Detect, Recording, Streaming;
    InitialInv();
    InvAlways(Initial, run);
  }
}
