/**
 What the pipeline is told in every run of Session: the start-up, then whole sections of the two threads
 one after the other; and every sequence of sections happens.
 */
module SessionRuns {
  import opened Bytes
  import opened Session

  /** A locked section: a detection that finds nothing, one that records, or a streaming session. */
  datatype Section = Still | Motion | Streamed

  // ---- the statements of the source, in order -----------------------------------------------

  function BootOps(): seq<Op> {
    [InitComponent, LoadDriver, Configure, SetupPorts,
     SwitchIdle, EnablePorts, AllocateBuffers, SwitchExecuting, CapturePort(72, true),
     CapturePort(72, true), CaptureFrame, CapturePort(72, false)]
  }

  function DetectOps(): seq<Op> {
    [CapturePort(72, true), CaptureFrame, CapturePort(72, false),
     CapturePort(72, true), CaptureFrame, CapturePort(72, false)]
  }

  function RecordOps(): seq<Op> {
    [BufferFlush, DisablePorts, FreeBuffers, Configure,
     SwitchIdle, EnablePorts, AllocateBuffers, SwitchExecuting, CapturePort(71, true),
     RecordVideo,
     CapturePort(71, false), BufferFlush, DisablePorts, FreeBuffers, SwitchIdle, SwitchLoaded,
     InitComponent, LoadDriver, Configure, SetupPorts,
     SwitchIdle, EnablePorts, AllocateBuffers, SwitchExecuting, CapturePort(72, true)]
  }

  function StreamOps(): seq<Op> {
    [BufferFlush, DisablePorts, FreeBuffers, Configure,
     SwitchIdle, EnablePorts, AllocateBuffers, SwitchExecuting, CapturePort(71, true),
     SetFlag, SendStart, StreamBegin, StreamEnd,
     CapturePort(72, false), SendStop, ClearFlag,
     BufferFlush, DisablePorts, FreeBuffers, Configure,
     SwitchIdle, EnablePorts, AllocateBuffers, SwitchExecuting, CapturePort(72, true)]
  }

  function SectionOps(s: Section): seq<Op> {
    match s
    case Still => DetectOps()
    case Motion => DetectOps() + RecordOps()
    case Streamed => StreamOps()
  }

  function AllOps(sections: seq<Section>): seq<Op>
    decreases |sections|
  {
    if sections == [] then [] else AllOps(sections[..|sections| - 1]) + SectionOps(sections[|sections| - 1])
  }

  function OpsOf(todo: Program): seq<Op>
    decreases todo
  {
    match todo
    case End => []
    case Then(op, rest) => [op] + OpsOf(rest)
  }

  // ---- the programs are these statements ----------------------------------------------------

  lemma OpsOfBringBack(port: int, rest: Program)
    ensures OpsOf(BringBack(port, rest))
         == [SwitchIdle, EnablePorts, AllocateBuffers, SwitchExecuting, CapturePort(port, true)] + OpsOf(rest)
  {
    var p1 := Then(CapturePort(port, true), rest);
    var p2 := Then(AllocateBuffers, Then(SwitchExecuting, p1));
    assert OpsOf(p1) == [CapturePort(port, true)] + OpsOf(rest);
    assert OpsOf(p2) == [AllocateBuffers, SwitchExecuting, CapturePort(port, true)] + OpsOf(rest);
  }

  lemma OpsOfReset(port: int, rest: Program)
    ensures OpsOf(Reset(port, rest))
         == [BufferFlush, DisablePorts, FreeBuffers, Configure,
             SwitchIdle, EnablePorts, AllocateBuffers, SwitchExecuting, CapturePort(port, true)] + OpsOf(rest)
  {
    OpsOfBringBack(port, rest);
    hide BringBack;
    var p := Then(FreeBuffers, Then(Configure, BringBack(port, rest)));
    assert OpsOf(p) == [FreeBuffers, Configure] + OpsOf(BringBack(port, rest));
  }

  lemma OpsOfBringUp(rest: Program)
    ensures OpsOf(BringUp(rest))
         == [InitComponent, LoadDriver, Configure, SetupPorts,
             SwitchIdle, EnablePorts, AllocateBuffers, SwitchExecuting, CapturePort(72, true)] + OpsOf(rest)
  {
    OpsOfBringBack(72, rest);
    hide BringBack;
    var p := Then(Configure, Then(SetupPorts, BringBack(72, rest)));
    assert OpsOf(p) == [Configure, SetupPorts] + OpsOf(BringBack(72, rest));
  }

  lemma OpsOfCapture(rest: Program)
    ensures OpsOf(OneCapture(rest)) == [CapturePort(72, true), CaptureFrame, CapturePort(72, false)] + OpsOf(rest)
  {
    assert OpsOf(Then(CapturePort(72, false), rest)) == [CapturePort(72, false)] + OpsOf(rest);
  }

  lemma OpsOfTearDown(rest: Program)
    ensures OpsOf(TearDown(rest))
         == [CapturePort(71, false), BufferFlush, DisablePorts, FreeBuffers, SwitchIdle, SwitchLoaded] + OpsOf(rest)
  {
    var p1 := Then(SwitchIdle, Then(SwitchLoaded, rest));
    var p2 := Then(DisablePorts, Then(FreeBuffers, p1));
    assert OpsOf(p1) == [SwitchIdle, SwitchLoaded] + OpsOf(rest);
    assert OpsOf(p2) == [DisablePorts, FreeBuffers, SwitchIdle, SwitchLoaded] + OpsOf(rest);
  }

  lemma BootStatements()
    ensures OpsOf(Boot) == BootOps()
  {
    OpsOfCapture(End);
    OpsOfBringUp(OneCapture(End));
    hide BringUp, OneCapture;
    assert OpsOf(End) == [];
  }

  lemma DetectStatements()
    ensures OpsOf(Detect) == DetectOps()
  {
    OpsOfCapture(End);
    OpsOfCapture(OneCapture(End));
    hide OneCapture;
    assert OpsOf(End) == [];
  }

  lemma RecordStatements()
    ensures OpsOf(Recording) == RecordOps()
  {
    var tail := TearDown(BringUp(End));
    OpsOfBringUp(End);
    OpsOfTearDown(BringUp(End));
    OpsOfReset(71, Then(RecordVideo, tail));
    hide Reset, TearDown, BringUp;
    assert OpsOf(End) == [];
    assert OpsOf(Then(RecordVideo, tail)) == [RecordVideo] + OpsOf(tail);
  }

  lemma StreamStatements()
    ensures OpsOf(Streaming) == StreamOps()
  {
    var start := Then(SetFlag, Then(SendStart, AfterStart));
    OpsOfReset(72, End);
    OpsOfReset(71, start);
    hide Reset;
    assert OpsOf(End) == [];
    assert OpsOf(AfterStop) == [ClearFlag] + OpsOf(Reset(72, End));
    assert OpsOf(AfterStream) == [CapturePort(72, false), SendStop] + OpsOf(AfterStop);
    assert OpsOf(AfterStart) == [StreamBegin, StreamEnd] + OpsOf(AfterStream);
    assert OpsOf(start) == [SetFlag, SendStart] + OpsOf(AfterStart);
  }

  lemma ProgramsAreTheirStatements()
    ensures OpsOf(Boot) == BootOps() && OpsOf(Detect) == DetectOps()
    ensures OpsOf(Recording) == RecordOps() && OpsOf(Streaming) == StreamOps()
  {
    BootStatements();
    DetectStatements();
    RecordStatements();
    StreamStatements();
  }

  // ---- every run is made of sections --------------------------------------------------------

  /** The sections that a run decides on: what a detection answers, and what StreamManager is asked for. */
  function SectionOf(a: Action): seq<Section> {
    match a
    case EventDecide(moved) => if moved then [Motion] else [Still]
    case StreamRequest => [Streamed]
    case _ => []
  }

  function SectionsOf(run: seq<Action>): seq<Section>
    decreases |run|
  {
    if run == [] then [] else SectionOf(run[0]) + SectionsOf(run[1..])
  }

  /** The statements that the start-up or the section under way has still to execute. */
  function Remaining(s: State): seq<Op> {
    if s.booting.Some? then OpsOf(s.booting.value)
    else if s.stream.InSession? then OpsOf(s.stream.todo)
    else if s.event.Detecting? || s.event.InRecording? then OpsOf(s.event.todo)
    else []
  }

  /** A detection under way is not decided yet. */
  function Undecided(s: State): seq<Op> {
    if s.event.Detecting? || s.event == Deciding then DetectOps() else []
  }

  predicate InSections(s: State, sections: seq<Section>) {
    s.history + Remaining(s) == BootOps() + AllOps(sections) + Undecided(s)
  }

  lemma AllOpsOne(sections: seq<Section>, x: Section)
    ensures AllOps(sections + [x]) == AllOps(sections) + SectionOps(x)
  {
    hide SectionOps;
    assert (sections + [x])[..|sections|] == sections;
  }

  lemma OneActive(s: State)
    requires Inv(s)
    ensures s.booting.Some? ==> !s.stream.InSession? && s.event == Outside
    ensures s.stream.InSession? || s.stream == Draining ==> s.booting.None? && s.event == Outside
    ensures s.event != Outside ==> s.booting.None? && !s.stream.InSession? && !s.shared.flagStream
  {
    hide Consistent, LeadsToRest, PipelineOnly, Rested;
  }

  lemma OwnersOnly(s: State)
    requires Inv(s) && s.booting.None? && s.owner == None
    ensures !s.stream.InSession? && s.event == Outside
  {
  }

  lemma NextOp(history: seq<Op>, todo: Program)
    ensures todo.Then? ==> history + [todo.op] + OpsOf(todo.rest) == history + OpsOf(todo)
    ensures todo == End ==> history + [] == history + OpsOf(todo)
  {
  }

  /** A statement moves from what remains to the history. */
  lemma StepMovesOp(s: State, a: Action)
    requires Inv(s) && Enabled(s, a) && (a == BootStep || a == StreamStep || a == EventStep)
    ensures Do(s, a).history + Remaining(Do(s, a)) == s.history + Remaining(s)
    ensures Undecided(Do(s, a)) == Undecided(s)
  {
    OneActive(s);
    hide Inv, Execute, OpsOf, DetectOps;
    match a {
      case BootStep => NextOp(s.history, s.booting.value);
      case StreamStep => NextOp(s.history, s.stream.todo);
      case EventStep => NextOp(s.history, s.event.todo);
    }
  }

  /** A detection starts with its statements to execute, and ends with none. */
  lemma DetectionStarts(s: State)
    requires Inv(s) && Enabled(s, EventLock)
    ensures Do(s, EventLock).history == s.history && Remaining(s) == Undecided(s) == []
    ensures Remaining(Do(s, EventLock)) == Undecided(Do(s, EventLock)) == DetectOps()
  {
    OwnersOnly(s);
    DetectStatements();
    hide Inv, Detect, OpsOf, DetectOps;
  }

  lemma DetectionDecides(s: State, moved: bool)
    requires Inv(s) && Enabled(s, EventDecide(moved))
    ensures Do(s, EventDecide(moved)).history == s.history && Undecided(Do(s, EventDecide(moved))) == []
    ensures Remaining(s) == [] && Undecided(s) == DetectOps()
    ensures Remaining(Do(s, EventDecide(moved))) == if moved then RecordOps() else []
  {
    OneActive(s);
    RecordStatements();
    hide Inv, Recording, OpsOf, DetectOps, RecordOps;
  }

  lemma SessionStarts(s: State)
    requires Inv(s) && Enabled(s, StreamRequest)
    ensures Do(s, StreamRequest).history == s.history && Undecided(s) == Undecided(Do(s, StreamRequest)) == []
    ensures Remaining(s) == [] && Remaining(Do(s, StreamRequest)) == StreamOps()
  {
    OneActive(s);
    StreamStatements();
    hide Inv, Streaming, OpsOf, DetectOps, StreamOps;
  }

  /** All other actions change nothing of it. */
  lemma OthersKeepOps(s: State, a: Action)
    requires Inv(s) && Enabled(s, a)
    requires a == StreamWake || a == StreamLock || a == StreamUnlock || a == EventUnlock || a == StopRequest
    ensures Do(s, a).history == s.history
    ensures Remaining(Do(s, a)) == Remaining(s) && Undecided(Do(s, a)) == Undecided(s)
  {
    OneActive(s);
    hide Inv, OpsOf, DetectOps;
  }

  lemma Regroup(a: seq<Op>, b: seq<Op>, c: seq<Op>, d: seq<Op>)
    ensures a + b + c + d == a + (b + (c + d)) + []
    ensures c == [] ==> a + b + d == a + (b + d) + []
    ensures d == [] ==> a + b + c == a + (b + c) + []
  {
  }

  lemma SectionsKept(s: State, a: Action, sections: seq<Section>)
    requires Inv(s) && Enabled(s, a) && InSections(s, sections)
    ensures InSections(Do(s, a), sections + SectionOf(a))
  {
    hide Inv, Enabled, Do, Remaining, Undecided, AllOps, BootOps, DetectOps, RecordOps, StreamOps;
    assert sections + [] == sections;
    match a {
      case BootStep => StepMovesOp(s, a);
      case StreamStep => StepMovesOp(s, a);
      case EventStep => StepMovesOp(s, a);
      case EventLock =>
        DetectionStarts(s);
        assert s.history + [] == s.history;
      case EventDecide(moved) =>
        DetectionDecides(s, moved);
        AllOpsOne(sections, if moved then Motion else Still);
        assert s.history + [] == s.history;
        Regroup(BootOps(), AllOps(sections), DetectOps(), if moved then RecordOps() else []);
      case StreamRequest =>
        SessionStarts(s);
        assert s.history + [] == s.history;
        AllOpsOne(sections, Streamed);
        Regroup(BootOps(), AllOps(sections), [], StreamOps());
      case _ => OthersKeepOps(s, a);
    }
  }

  lemma RunHead(s: State, run: seq<Action>)
    requires run != [] && IsRun(s, run)
    ensures Enabled(s, run[0]) && IsRun(Do(s, run[0]), run[1..])
    ensures After(s, run) == After(Do(s, run[0]), run[1..])
  {
    hide Enabled, Do;
  }

  lemma SectionsOfHead(sections: seq<Section>, run: seq<Action>)
    requires run != []
    ensures (sections + SectionOf(run[0])) + SectionsOf(run[1..]) == sections + SectionsOf(run)
  {
    hide SectionOf;
  }

  lemma {:induction false} SectionsAlways(s: State, run: seq<Action>, sections: seq<Section>)
    requires Inv(s) && IsRun(s, run) && InSections(s, sections)
    ensures Inv(After(s, run)) && InSections(After(s, run), sections + SectionsOf(run))
    decreases |run|
  {
    if run == [] {
      NoSections(s, run, sections);
    } else {
      hide *;
      RunHead(s, run);
      InvKept(s, run[0]);
      SectionsKept(s, run[0], sections);
      SectionsAlways(Do(s, run[0]), run[1..], sections + SectionOf(run[0]));
      SectionsOfHead(sections, run);
    }
  }

  lemma NoSections(s: State, run: seq<Action>, sections: seq<Section>)
    requires run == []
    ensures IsRun(s, run) && After(s, run) == s && sections + SectionsOf(run) == sections
  {
  }

  /**
   In every interleaving, the pipeline is told the start-up and then whole sections, in the order in which
   detections answered and streams were asked for: a detection that answered "moved" is followed by one
   recording, any other by nothing. Both captures are over before a detection answers.
   */
  lemma HistoryIsSections(run: seq<Action>)
    requires IsRun(Initial, run)
    ensures var s := After(Initial, run);
      && InSections(s, SectionsOf(run))
      && (s.event == Deciding ==> s.history == BootOps() + AllOps(SectionsOf(run)) + DetectOps())
      && (s.booting.None? && (s.owner == None || s.event == Finished || s.stream == Draining) ==>
            s.history == BootOps() + AllOps(SectionsOf(run)))
  {
    hide *;
    InitialInSections();
    SectionsAlways(Initial, run, []);
    assert [] + SectionsOf(run) == SectionsOf(run);
    HistoryMeans(After(Initial, run), SectionsOf(run));
  }

  lemma HistoryMeans(s: State, sections: seq<Section>)
    requires Inv(s) && InSections(s, sections)
    ensures s.event == Deciding ==> s.history == BootOps() + AllOps(sections) + DetectOps()
    ensures s.booting.None? && (s.owner == None || s.event == Finished || s.stream == Draining) ==>
      s.history == BootOps() + AllOps(sections)
  {
    OneActive(s);
    if s.booting.None? && s.owner == None {
      OwnersOnly(s);
    }
    hide Inv, AllOps, BootOps, DetectOps, OpsOf;
    assert s.history + [] == s.history;
  }

  lemma InitialInSections()
    ensures Inv(Initial) && InSections(Initial, [])
  {
    InitialInv();
    BootStatements();
    hide Inv, Boot, BootOps, OpsOf;
  }

  /** A recording runs exactly when the detection of its section answered "moved". */
  lemma RecordsExactlyWhenMoved(s: State, moved: bool)
    requires Inv(s) && Enabled(s, EventDecide(moved))
    ensures var t := Do(s, EventDecide(moved));
      && (moved <==> t.event.InRecording?) && (!moved <==> t.event == Finished)
      && (moved ==> OpsOf(t.event.todo) == RecordOps())
  {
    OneActive(s);
    RecordStatements();
    hide Inv, Recording, RecordOps, OpsOf;
  }

  // ---- the ports that capture ---------------------------------------------------------------

  /** Capturing is switched on or off port by port; new components start with all off. */
  function PortsStep(open: set<int>, op: Op): set<int> {
    if op.CapturePort? then (if op.on then open + {op.port} else open - {op.port})
    else if op == InitComponent then {}
    else open
  }

  /** The ports on which capturing is on after some statements. */
  function PortsAfter(open: set<int>, ops: seq<Op>): set<int>
    decreases |ops|
  {
    if ops == [] then open else PortsStep(PortsAfter(open, ops[..|ops| - 1]), ops[|ops| - 1])
  }

  lemma {:induction false} PortsConcat(open: set<int>, a: seq<Op>, b: seq<Op>)
    ensures PortsAfter(open, a + b) == PortsAfter(PortsAfter(open, a), b)
    decreases |b|
  {
    if b == [] {
      assert a + b == a;
    } else {
      var n := |b| - 1;
      PortsConcat(open, a, b[..n]);
      assert (a + b)[..|a + b| - 1] == a + b[..n];
    }
  }

  lemma PortsOne(open: set<int>, op: Op)
    ensures PortsAfter(open, [op]) == PortsStep(open, op)
  {
    assert [op][..0] == [];
  }

  lemma {:induction false} OtherOpsKeepPorts(open: set<int>, ops: seq<Op>)
    requires forall i :: 0 <= i < |ops| ==> !ops[i].CapturePort? && ops[i] != InitComponent
    ensures PortsAfter(open, ops) == open
    decreases |ops|
  {
    if ops != [] {
      OtherOpsKeepPorts(open, ops[..|ops| - 1]);
    }
  }

  /** Some other statements, and then one on a port. */
  lemma PortsPart(open: set<int>, ops: seq<Op>, op: Op)
    requires forall i :: 0 <= i < |ops| ==> !ops[i].CapturePort? && ops[i] != InitComponent
    ensures PortsAfter(open, ops + [op]) == PortsAfter(open, [op])
  {
    OtherOpsKeepPorts(open, ops);
    PortsConcat(open, ops, [op]);
  }

  function PlainReset(): seq<Op> {
    [BufferFlush, DisablePorts, FreeBuffers, Configure, SwitchIdle, EnablePorts, AllocateBuffers, SwitchExecuting]
  }

  lemma PortsOfCapture(open: set<int>)
    ensures PortsAfter(open, [CapturePort(72, true), CaptureFrame, CapturePort(72, false)]) == open - {72}
  {
    var a, b := [CapturePort(72, true)], [CaptureFrame] + [CapturePort(72, false)];
    assert [CapturePort(72, true), CaptureFrame, CapturePort(72, false)] == a + b;
    PortsConcat(open, a, b);
    PortsOne(open, CapturePort(72, true));
    PortsPart(open + {72}, [CaptureFrame], CapturePort(72, false));
    PortsOne(open + {72}, CapturePort(72, false));
  }

  lemma PortsOfDetect(open: set<int>)
    ensures PortsAfter(open, DetectOps()) == open - {72}
  {
    var a := [CapturePort(72, true), CaptureFrame, CapturePort(72, false)];
    assert DetectOps() == a + a;
    hide DetectOps, PortsAfter;
    PortsConcat(open, a, a);
    PortsOfCapture(open);
    PortsOfCapture(open - {72});
  }

  lemma PortsOfBoot()
    ensures PortsAfter({}, BootOps()) == {}
  {
    var a := [InitComponent];
    var b := [LoadDriver, Configure, SetupPorts, SwitchIdle, EnablePorts, AllocateBuffers, SwitchExecuting];
    var on := [CapturePort(72, true)];
    var c := [CapturePort(72, true), CaptureFrame, CapturePort(72, false)];
    assert BootOps() == a + (b + on) + c;
    hide BootOps, PortsAfter;
    PortsConcat({}, a + (b + on), c);
    PortsConcat({}, a, b + on);
    PortsOne({}, InitComponent);
    PortsPart({}, b, CapturePort(72, true));
    PortsOne({}, CapturePort(72, true));
    PortsOfCapture({72});
    assert {} + {72} == {72} && {72} - {72} == {};
  }

  lemma PortsOfRecord(open: set<int>)
    ensures PortsAfter(open, RecordOps()) == {72}
  {
    var a := PlainReset() + [CapturePort(71, true)] + [RecordVideo, CapturePort(71, false)]
           + [BufferFlush, DisablePorts, FreeBuffers, SwitchIdle, SwitchLoaded];
    var b := [LoadDriver, Configure, SetupPorts, SwitchIdle, EnablePorts, AllocateBuffers, SwitchExecuting];
    assert RecordOps() == a + [InitComponent] + (b + [CapturePort(72, true)]);
    hide RecordOps, PortsAfter;
    var p := PortsAfter(open, a);
    PortsConcat(open, a, [InitComponent]);
    PortsConcat(open, a + [InitComponent], b + [CapturePort(72, true)]);
    PortsOne(p, InitComponent);
    PortsPart({}, b, CapturePort(72, true));
    PortsOne({}, CapturePort(72, true));
  }

  lemma PartsOfStream()
    ensures StreamOps()
         == PlainReset() + [CapturePort(71, true)]
            + ([SetFlag, SendStart, StreamBegin, StreamEnd] + [CapturePort(72, false)])
            + (([SendStop, ClearFlag] + PlainReset()) + [CapturePort(72, true)])
    ensures forall i :: 0 <= i < |PlainReset()| ==>
      !PlainReset()[i].CapturePort? && PlainReset()[i] != InitComponent
  {
  }

  lemma PortsOfStream(open: set<int>)
    ensures PortsAfter(open, StreamOps()) == open + {71, 72}
  {
    var a := PlainReset() + [CapturePort(71, true)];
    var b := [SetFlag, SendStart, StreamBegin, StreamEnd] + [CapturePort(72, false)];
    var c := ([SendStop, ClearFlag] + PlainReset()) + [CapturePort(72, true)];
    PartsOfStream();
    hide StreamOps, PortsAfter, PlainReset;
    PortsConcat(open, a + b, c);
    PortsConcat(open, a, b);
    PortsPart(open, PlainReset(), CapturePort(71, true));
    PortsOne(open, CapturePort(71, true));
    PortsPart(open + {71}, [SetFlag, SendStart, StreamBegin, StreamEnd], CapturePort(72, false));
    PortsOne(open + {71}, CapturePort(72, false));
    PortsPart(open + {71} - {72}, [SendStop, ClearFlag] + PlainReset(), CapturePort(72, true));
    PortsOne(open + {71} - {72}, CapturePort(72, true));
    assert open + {71} - {72} + {72} == open + {71, 72};
  }

  /** The ports that capture between two sections. */
  function OpenAtRest(sections: seq<Section>): set<int>
    decreases |sections|
  {
    if sections == [] then {}
    else
      var before := OpenAtRest(sections[..|sections| - 1]);
      match sections[|sections| - 1]
      case Still => before - {72}
      case Motion => {72}
      case Streamed => before + {71, 72}
  }

  lemma {:induction false} PortsOfSections(sections: seq<Section>)
    ensures PortsAfter({}, BootOps() + AllOps(sections)) == OpenAtRest(sections)
    decreases |sections|
  {
    if sections == [] {
      PortsOfBoot();
      assert BootOps() + [] == BootOps();
    } else {
      var before, x := sections[..|sections| - 1], sections[|sections| - 1];
      var all, open := BootOps() + AllOps(before), OpenAtRest(before);
      assert BootOps() + AllOps(sections) == all + SectionOps(x);
      hide BootOps, AllOps, PortsAfter, DetectOps, RecordOps, StreamOps;
      PortsOfSections(before);
      PortsConcat({}, all, SectionOps(x));
      match x {
        case Still => PortsOfDetect(open);
        case Motion =>
          PortsConcat(open, DetectOps(), RecordOps());
          PortsOfRecord(PortsAfter(open, DetectOps()));
        case Streamed => PortsOfStream(open);
      }
    }
  }

  predicate PortsInStep(s: State) {
    s.shared.pipe.capturing == PortsAfter({}, s.history)
  }

  lemma ExecuteSwitchesPorts(s: Shared, op: Op)
    ensures Execute(s, op).pipe.capturing == PortsStep(s.pipe.capturing, op)
  {
  }

  /** Every action executes one statement and logs it, or none. */
  lemma StepsAreLogged(s: State, a: Action)
    requires Enabled(s, a)
    ensures var t := Do(s, a);
      || (t.history == s.history && t.shared.pipe == s.shared.pipe)
      || (t.history != [] && t.history[..|t.history| - 1] == s.history
          && t.shared == Execute(s.shared, t.history[|t.history| - 1]))
  {
    hide Execute;
    var t := Do(s, a);
    if a == BootStep && s.booting.value.Then? {
      assert t.history == s.history + [s.booting.value.op];
    } else if a == StreamStep && s.stream.todo.Then? {
      assert t.history == s.history + [s.stream.todo.op];
    } else if a == EventStep && s.event.todo.Then? {
      assert t.history == s.history + [s.event.todo.op];
    }
  }

  lemma PortsKept(s: State, a: Action)
    requires Enabled(s, a) && PortsInStep(s)
    ensures PortsInStep(Do(s, a))
  {
    StepsAreLogged(s, a);
    var t := Do(s, a);
    hide Do, Enabled, Execute, PortsStep;
    if t.history != s.history {
      ExecuteSwitchesPorts(s.shared, t.history[|t.history| - 1]);
    }
  }

  lemma {:induction false} PortsAlways(s: State, run: seq<Action>)
    requires IsRun(s, run) && PortsInStep(s)
    ensures PortsInStep(After(s, run))
    decreases |run|
  {
    if run != [] {
      hide *;
      RunHead(s, run);
      PortsKept(s, run[0]);
      PortsAlways(Do(s, run[0]), run[1..]);
    } else {
      NoSections(s, run, []);
    }
  }

  /** A session that no recording has followed. */
  predicate StreamedLast(sections: seq<Section>) {
    exists i :: 0 <= i < |sections| && sections[i] == Streamed && Motion !in sections[i..]
  }

  lemma {:induction false} VideoPortAtRest(sections: seq<Section>)
    ensures 71 in OpenAtRest(sections) <==> StreamedLast(sections)
    decreases |sections|
  {
    if sections != [] {
      var n := |sections| - 1;
      var before := sections[..n];
      VideoPortAtRest(before);
      if StreamedLast(sections) && sections[n] == Still {
        var i :| 0 <= i < |sections| && sections[i] == Streamed && Motion !in sections[i..];
        assert before[i] == Streamed && before[i..] == sections[i..n];
        assert forall x :: x in before[i..] ==> x in sections[i..];
      }
      if StreamedLast(before) && sections[n] == Still {
        var i :| 0 <= i < |before| && before[i] == Streamed && Motion !in before[i..];
        assert sections[i..] == before[i..] + [Still];
      }
      if sections[n] == Streamed {
        assert sections[n..] == [Streamed];
      }
      if sections[n] == Motion {
        forall i | 0 <= i < |sections| ensures Motion in sections[i..] {
          assert sections[i..][n - i] == Motion;
        }
      }
    }
  }

  lemma LegalMeansPorts(s: Shared, op: Op)
    requires Legal(s, op)
    ensures op == StreamBegin || op == StreamEnd || op == RecordVideo ==> 71 in s.pipe.capturing
    ensures op == CaptureFrame ==> 72 in s.pipe.capturing
  {
  }

  /**
   In every interleaving, port 71 captures whenever a stream or a recording runs, and port 72 whenever
   a frame is captured.
   */
  lemma PortsCaptureWhenUsed(run: seq<Action>)
    requires IsRun(Initial, run)
    ensures var s := After(Initial, run);
      var open := s.shared.pipe.capturing;
      && (s.stream.InSession? && s.stream.todo.Then? && s.stream.todo.op in {StreamBegin, StreamEnd} ==> 71 in open)
      && (s.event.InRecording? && s.event.todo.Then? && s.event.todo.op == RecordVideo ==> 71 in open)
      && (s.event.Detecting? && s.event.todo.Then? && s.event.todo.op == CaptureFrame ==> 72 in open)
      && (s.booting.Some? && s.booting.value.Then? && s.booting.value.op == CaptureFrame ==> 72 in open)
  {
    hide Legal, IsRun, After;
    EveryStatementIsLegal(run);
    var s := After(Initial, run);
    if s.stream.InSession? && s.stream.todo.Then? {
      LegalMeansPorts(s.shared, s.stream.todo.op);
    }
    if (s.event.InRecording? || s.event.Detecting?) && s.event.todo.Then? {
      LegalMeansPorts(s.shared, s.event.todo.op);
    }
    if s.booting.Some? && s.booting.value.Then? {
      LegalMeansPorts(s.shared, s.booting.value.op);
    }
  }

  /**
   In every interleaving, the ports that capture between two sections are those the sections left on. Port 71
   is among them exactly if a session was not followed by a recording: at its end a session switches
   off port 72, which is not the one it uses.
   */
  lemma PortsBetweenSections(run: seq<Action>)
    requires IsRun(Initial, run)
    ensures var s := After(Initial, run);
      s.booting.None? && s.owner == None ==>
        && s.shared.pipe.capturing == OpenAtRest(SectionsOf(run))
        && (71 in s.shared.pipe.capturing <==> StreamedLast(SectionsOf(run)))
  {
    assert PortsInStep(Initial);
    HistoryIsSections(run);
    PortsAlways(Initial, run);
    var s := After(Initial, run);
    assert s.shared.pipe.capturing == PortsAfter({}, s.history);
    hide *;
    PortsOfSections(SectionsOf(run));
    VideoPortAtRest(SectionsOf(run));
  }
}
