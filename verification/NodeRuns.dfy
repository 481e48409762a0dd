/** Every sequence of sections happens: some interleaving of the threads of Session is made of exactly them. */
module NodeRuns {
  import opened Bytes
  import opened Session
  import opened SessionRuns

  lemma RunCons(s: State, a: Action, rest: seq<Action>)
    requires Enabled(s, a) && IsRun(Do(s, a), rest)
    ensures IsRun(s, [a] + rest) && After(s, [a] + rest) == After(Do(s, a), rest)
  {
    hide Enabled, Do;
    assert ([a] + rest)[0] == a && ([a] + rest)[1..] == rest;
  }

  lemma {:induction false} RunConcat(s: State, a: seq<Action>, b: seq<Action>)
    requires IsRun(s, a) && IsRun(After(s, a), b)
    ensures IsRun(s, a + b) && After(s, a + b) == After(After(s, a), b)
    decreases |a|
  {
    if a == [] {
      assert a + b == b;
    } else {
      hide *;
      RunHead(s, a);
      RunConcat(Do(s, a[0]), a[1..], b);
      RunCons(s, a[0], a[1..] + b);
      assert a + b == [a[0]] + (a[1..] + b);
    }
  }

  lemma {:induction false} SectionsConcat(a: seq<Action>, b: seq<Action>)
    ensures SectionsOf(a + b) == SectionsOf(a) + SectionsOf(b)
    decreases |a|
  {
    hide SectionOf;
    if a == [] {
      assert a + b == b;
    } else {
      SectionsConcat(a[1..], b);
      assert (a + b)[0] == a[0] && (a + b)[1..] == a[1..] + b;
    }
  }

  lemma SectionsOfOne(a: Action)
    ensures SectionsOf([a]) == SectionOf(a)
  {
    assert SectionsOf([a][1..]) == [];
  }

  /** A run from s to t that decides on the given sections. */
  predicate Goes(s: State, run: seq<Action>, t: State, sections: seq<Section>) {
    Inv(s) && IsRun(s, run) && After(s, run) == t && SectionsOf(run) == sections
  }

  lemma GoesOne(s: State, a: Action)
    requires Inv(s) && Enabled(s, a)
    ensures Goes(s, [a], Do(s, a), SectionOf(a)) && Inv(Do(s, a))
  {
    InvKept(s, a);
    SectionsOfOne(a);
    RunCons(s, a, []);
    hide Enabled, Do, SectionOf, Inv;
    assert [a] + [] == [a];
  }

  lemma GoesOn(s: State, a: seq<Action>, t: State, x: seq<Section>, b: seq<Action>, u: State, y: seq<Section>)
    requires Goes(s, a, t, x) && Goes(t, b, u, y)
    ensures Goes(s, a + b, u, x + y)
  {
    hide Inv;
    RunConcat(s, a, b);
    SectionsConcat(a, b);
  }

  /** Between two sections. */
  predicate AtRest(s: State) {
    Inv(s) && s.booting.None? && s.owner == None && s.stream == Waiting && s.event == Outside
  }

  // ---- the start-up -------------------------------------------------------------------------

  lemma {:induction false} BootGoes(s: State, todo: Program) returns (run: seq<Action>, t: State)
    requires Inv(s) && s.booting == Some(todo) && s.stream == Waiting && s.event == Outside && s.owner == None
    ensures Goes(s, run, t, []) && AtRest(t)
    decreases todo
  {
    var s1 := Do(s, BootStep);
    GoesOne(s, BootStep);
    hide Inv, Execute, Goes;
    if todo == End {
      run, t := [BootStep], s1;
    } else {
      var rest;
      rest, t := BootGoes(s1, todo.rest);
      run := [BootStep] + rest;
      GoesOn(s, [BootStep], s1, [], rest, t, []);
    }
  }

  lemma StartUpGoes() returns (run: seq<Action>, t: State)
    ensures Goes(Initial, run, t, []) && AtRest(t)
  {
    hide Boot, Inv, Goes, AtRest;
    InitialInv();
    run, t := BootGoes(Initial, Boot);
  }

  // ---- sections of EventManager -------------------------------------------------------------

  lemma {:induction false} DetectionGoes(s: State, todo: Program) returns (run: seq<Action>, t: State)
    requires Inv(s) && s.event == Detecting(todo) && s.stream == Waiting
    ensures Goes(s, run, t, []) && Inv(t) && t.event == Deciding && t.stream == Waiting
    decreases todo
  {
    var s1 := Do(s, EventStep);
    GoesOne(s, EventStep);
    hide Inv, Execute, Goes;
    if todo == End {
      run, t := [EventStep], s1;
    } else {
      var rest;
      rest, t := DetectionGoes(s1, todo.rest);
      run := [EventStep] + rest;
      GoesOn(s, [EventStep], s1, [], rest, t, []);
    }
  }

  lemma {:induction false} RecordingGoes(s: State, todo: Program) returns (run: seq<Action>, t: State)
    requires Inv(s) && s.event == InRecording(todo) && s.stream == Waiting
    ensures Goes(s, run, t, []) && Inv(t) && t.event == Finished && t.stream == Waiting
    decreases todo
  {
    var s1 := Do(s, EventStep);
    GoesOne(s, EventStep);
    hide Inv, Execute, Goes;
    if todo == End {
      run, t := [EventStep], s1;
    } else {
      var rest;
      rest, t := RecordingGoes(s1, todo.rest);
      run := [EventStep] + rest;
      GoesOn(s, [EventStep], s1, [], rest, t, []);
    }
  }

  /** The lock is given back at the end. */
  lemma UnlockGoes(s: State) returns (t: State)
    requires Inv(s) && s.event == Finished && s.stream == Waiting
    ensures Goes(s, [EventUnlock], t, []) && AtRest(t)
  {
    t := Do(s, EventUnlock);
    OneActive(s);
    GoesOne(s, EventUnlock);
    hide Inv, Goes;
  }

  lemma DecisionGoes(s: State, moved: bool) returns (run: seq<Action>, t: State)
    requires Inv(s) && s.event == Deciding && s.stream == Waiting
    ensures Goes(s, run, t, if moved then [Motion] else [Still]) && Inv(t) && t.event == Finished && t.stream == Waiting
  {
    var decide := EventDecide(moved);
    var s1 := Do(s, decide);
    OneActive(s);
    GoesOne(s, decide);
    hide Inv, Goes, Recording;
    run, t := [decide], s1;
    if moved {
      var rest;
      rest, t := RecordingGoes(s1, s1.event.todo);
      run := [decide] + rest;
      GoesOn(s, [decide], s1, [Motion], rest, t, []);
      assert [Motion] + [] == [Motion];
    }
  }

  lemma EventSectionGoes(s: State, moved: bool) returns (run: seq<Action>, t: State)
    requires AtRest(s)
    ensures Goes(s, run, t, if moved then [Motion] else [Still]) && AtRest(t)
  {
    var s1 := Do(s, EventLock);
    GoesOne(s, EventLock);
    hide Inv, Goes, Detect, AtRest;
    var detect, s2 := DetectionGoes(s1, s1.event.todo);
    var decide, s3 := DecisionGoes(s2, moved);
    t := UnlockGoes(s3);
    var x := if moved then [Motion] else [Still];
    GoesOn(s, [EventLock], s1, [], detect, s2, []);
    GoesOn(s, [EventLock] + detect, s2, [] + [], decide, s3, x);
    GoesOn(s, [EventLock] + detect + decide, s3, [] + [] + x, [EventUnlock], t, []);
    run := [EventLock] + detect + decide + [EventUnlock];
    assert [] + [] + x + [] == x;
  }

  // ---- sections of StreamManager ------------------------------------------------------------

  /** From here on the session does not wait for the end of the stream any more. */
  predicate NeverWaits(todo: Program)
    decreases todo
  {
    todo.Then? ==> todo.op != StreamEnd && NeverWaits(todo.rest)
  }

  lemma {:induction false} SessionEnds(s: State, todo: Program) returns (run: seq<Action>, t: State)
    requires Inv(s) && s.stream == InSession(todo) && NeverWaits(todo)
    ensures Goes(s, run, t, []) && Inv(t) && t.stream == Draining
    decreases todo
  {
    var s1 := Do(s, StreamStep);
    GoesOne(s, StreamStep);
    hide Inv, Execute, Goes;
    if todo == End {
      run, t := [StreamStep], s1;
    } else {
      var rest;
      rest, t := SessionEnds(s1, todo.rest);
      run := [StreamStep] + rest;
      GoesOn(s, [StreamStep], s1, [], rest, t, []);
    }
  }

  /** The session comes to the statement that waits for is_end, and nothing behind it waits. */
  predicate ComesToWait(todo: Program)
    decreases todo
  {
    todo.Then? && if todo.op == StreamEnd then NeverWaits(todo.rest) else ComesToWait(todo.rest)
  }

  /** While it waits the flag is set, so a STREAM_STOP ends it. */
  lemma StopGoes(s: State, todo: Program) returns (run: seq<Action>, t: State)
    requires Inv(s) && s.stream == InSession(todo) && todo.Then? && todo.op == StreamEnd && NeverWaits(todo.rest)
    ensures Goes(s, run, t, []) && Inv(t) && t.stream == Draining
  {
    OneActive(s);
    assert s.shared.flagStream by {
      assert Legal(s.shared, StreamEnd);
    }
    var s1 := Do(s, StopRequest);
    GoesOne(s, StopRequest);
    var s2 := Do(s1, StreamStep);
    GoesOne(s1, StreamStep);
    hide Inv, Goes, Execute;
    var rest;
    rest, t := SessionEnds(s2, todo.rest);
    GoesOn(s, [StopRequest], s1, [], [StreamStep], s2, []);
    GoesOn(s, [StopRequest] + [StreamStep], s2, [] + [], rest, t, []);
    run := [StopRequest] + [StreamStep] + rest;
  }

  lemma {:induction false} SessionGoes(s: State, todo: Program) returns (run: seq<Action>, t: State)
    requires Inv(s) && s.stream == InSession(todo) && ComesToWait(todo)
    ensures Goes(s, run, t, []) && Inv(t) && t.stream == Draining
    decreases todo
  {
    if todo.op == StreamEnd {
      run, t := StopGoes(s, todo);
    } else {
      var s1 := Do(s, StreamStep);
      GoesOne(s, StreamStep);
      hide Inv, Execute, Goes;
      var rest;
      rest, t := SessionGoes(s1, todo.rest);
      run := [StreamStep] + rest;
      GoesOn(s, [StreamStep], s1, [], rest, t, []);
    }
  }

  lemma ResetNeverWaits(port: int, rest: Program)
    ensures NeverWaits(rest) ==> NeverWaits(Reset(port, rest))
    ensures ComesToWait(rest) ==> ComesToWait(Reset(port, rest))
  {
    var p1 := Then(CapturePort(port, true), rest);
    var p2 := Then(AllocateBuffers, Then(SwitchExecuting, p1));
    var p3 := Then(SwitchIdle, Then(EnablePorts, p2));
    var p4 := Then(FreeBuffers, Then(Configure, p3));
    assert NeverWaits(rest) ==> NeverWaits(p1) && NeverWaits(p2) && NeverWaits(p3) && NeverWaits(p4);
    assert ComesToWait(rest) ==> ComesToWait(p1) && ComesToWait(p2) && ComesToWait(p3) && ComesToWait(p4);
  }

  lemma StreamingComesToWait()
    ensures ComesToWait(Streaming)
  {
    hide Reset;
    ResetNeverWaits(72, End);
    assert NeverWaits(AfterStop);
    assert NeverWaits(AfterStream);
    assert ComesToWait(AfterStart);
    var start := Then(SetFlag, Then(SendStart, AfterStart));
    assert ComesToWait(start);
    ResetNeverWaits(71, start);
  }

  lemma StreamSectionGoes(s: State) returns (run: seq<Action>, t: State)
    requires AtRest(s)
    ensures Goes(s, run, t, [Streamed]) && AtRest(t)
  {
    var s1 := Do(s, StreamWake);
    GoesOne(s, StreamWake);
    var s2 := Do(s1, StreamLock);
    GoesOne(s1, StreamLock);
    var s3 := Do(s2, StreamRequest);
    GoesOne(s2, StreamRequest);
    StreamingComesToWait();
    hide Goes, Inv, Streaming;
    var session, s4 := SessionGoes(s3, s3.stream.todo);
    t := DrainedGoes(s4);
    var lock := [StreamWake] + [StreamLock];
    GoesOn(s, [StreamWake], s1, [], [StreamLock], s2, []);
    GoesOn(s, lock, s2, [] + [], [StreamRequest], s3, [Streamed]);
    GoesOn(s, lock + [StreamRequest], s3, [] + [] + [Streamed], session, s4, []);
    GoesOn(s, lock + [StreamRequest] + session, s4, [] + [] + [Streamed] + [], [StreamUnlock], t, []);
    run := lock + [StreamRequest] + session + [StreamUnlock];
    assert [] + [] + [Streamed] + [] + [] == [Streamed];
  }

  lemma DrainedGoes(s: State) returns (t: State)
    requires Inv(s) && s.stream == Draining
    ensures Goes(s, [StreamUnlock], t, []) && AtRest(t)
  {
    OneActive(s);
    t := Do(s, StreamUnlock);
    GoesOne(s, StreamUnlock);
    hide Inv, Goes;
  }

  /** Nothing happens to a stream that waits but a STREAM_STOP. */
  lemma OnlyStopMoves(s: State, a: Action)
    requires Inv(s) && s.stream.InSession? && s.stream.todo.Then? && s.stream.todo.op == StreamEnd
    requires !s.shared.isEnd && Enabled(s, a)
    ensures a == StopRequest
  {
    OneActive(s);
    assert s.owner == Some(StreamThread);
    hide Consistent, LeadsToRest;
  }

  /**
   A stream goes on until it is stopped, whatever was requested before: StartStreaming clears is_end, and
   as long as no STREAM_STOP comes after that, the session waits. So a stop that comes between the setting
   of flag_stream and that moment is lost.
   */
  lemma StreamWaitsForStop(s: State, run: seq<Action>)
    requires Inv(s) && s.stream.InSession? && s.stream.todo.Then? && s.stream.todo.op == StreamBegin
    requires s.stream.todo.rest.Then? && s.stream.todo.rest.op == StreamEnd
    requires IsRun(s, [StreamStep] + run) && StopRequest !in run
    ensures var t := After(s, [StreamStep] + run);
      t.stream == InSession(s.stream.todo.rest) && !t.shared.isEnd && t.shared.flagStream
  {
    var s1 := Do(s, StreamStep);
    RunHead(s, [StreamStep] + run);
    assert ([StreamStep] + run)[1..] == run;
    InvKept(s, StreamStep);
    OneActive(s1);
    assert s1.shared.flagStream by {
      assert Legal(s1.shared, StreamEnd);
    }
    if run != [] {
      RunHead(s1, run);
      assert run[0] in run;
      OnlyStopMoves(s1, run[0]);
      assert false;
    }
  }

  // ---- all sections -------------------------------------------------------------------------

  lemma SectionGoes(s: State, x: Section) returns (run: seq<Action>, t: State)
    requires AtRest(s)
    ensures Goes(s, run, t, [x]) && AtRest(t)
  {
    hide *;
    if x == Streamed {
      run, t := StreamSectionGoes(s);
    } else {
      run, t := EventSectionGoes(s, x == Motion);
    }
  }

  lemma {:induction false} SectionsGo(sections: seq<Section>) returns (run: seq<Action>, t: State)
    ensures Goes(Initial, run, t, sections) && AtRest(t)
    decreases |sections|
  {
    hide *;
    if sections == [] {
      run, t := StartUpGoes();
    } else {
      var before, x := sections[..|sections| - 1], sections[|sections| - 1];
      var first, s := SectionsGo(before);
      var section;
      section, t := SectionGoes(s, x);
      run := first + section;
      GoesOn(Initial, first, s, before, section, t, [x]);
      assert before + [x] == sections;
    }
  }

  /**
   For every sequence of sections some interleaving of the threads, from the start of the node, consists of
   the start-up and exactly these sections, and leaves the mutex free.
   */
  lemma EverySequenceHappens(sections: seq<Section>) returns (run: seq<Action>)
    ensures IsRun(Initial, run) && SectionsOf(run) == sections && AtRest(After(Initial, run))
    ensures After(Initial, run).history == BootOps() + AllOps(sections)
  {
    var t;
    run, t := SectionsGo(sections);
    assert AtRest(t) ==> t.booting.None? && t.owner == None;
    hide *;
    GoesMeans(Initial, run, t, sections);
    HistoryIsSections(run);
  }

  lemma GoesMeans(s: State, run: seq<Action>, t: State, sections: seq<Section>)
    requires Goes(s, run, t, sections)
    ensures IsRun(s, run) && After(s, run) == t && SectionsOf(run) == sections
  {
  }
}
