/**
 The calls of BufferHandshake do happen: from every idle state there is a run of one call that uses any
 given buffers and is left at any given one.
 */
module HandshakeRuns {
  import opened BufferHandshake

  // ---- building runs ------------------------------------------------------------------------

  lemma {:induction false} RunConcat(s: State, a: seq<Action>, b: seq<Action>)
    requires IsRun(s, a) && IsRun(After(s, a), b)
    ensures IsRun(s, a + b) && After(s, a + b) == After(After(s, a), b)
    decreases |a|
  {
    if a == [] {
      assert a + b == b;
    } else {
      hide Enabled, Do;
      RunConcat(Do(s, a[0]), a[1..], b);
      assert (a + b)[0] == a[0] && (a + b)[1..] == a[1..] + b;
    }
  }

  /** The states that some actions lead through. */
  predicate Leads(states: seq<State>, actions: seq<Action>) {
    && |states| == |actions| + 1
    && forall i :: 0 <= i < |actions| ==>
         Enabled(states[i], actions[i]) && states[i + 1] == Do(states[i], actions[i])
  }

  lemma {:induction false} LeadsIsRun(states: seq<State>, actions: seq<Action>)
    requires Leads(states, actions)
    ensures IsRun(states[0], actions) && After(states[0], actions) == states[|actions|]
    decreases |actions|
  {
    if actions != [] {
      hide Enabled, Do;
      LeadsIsRun(states[1..], actions[1..]);
    }
  }

  // ---- the parts of a call ------------------------------------------------------------------

  /** The loop waits for the buffer it has asked for. */
  predicate Waits(s: State, l: Loop) {
    && s.pc == Polling && s.current == l && s.channel == ChannelOf(l)
    && !s.need && !s.available && s.outstanding == 1 && !s.filled
  }

  /** The loop is about to test whether to leave, with buffer b in its hands. */
  predicate Holds(s: State, l: Loop, b: OmxBuffer) {
    && s.pc == Deciding && s.current == l && s.channel == ChannelOf(l)
    && !s.need && (s.available <==> l != Capture) && s.outstanding == 0 && !s.filled && s.buffer == b
  }

  const Ask: seq<Action> := [Poll, Refill, Clear, Submit]

  const Reuse: seq<Action> := [Read, Refill, Clear, Submit]

  function Hand(l: Loop, b: OmxBuffer): seq<Action> {
    if l == Capture then [Fill(b), Done, Poll, Take] else [Fill(b), Done, Poll]
  }

  /** The first request of a loop. */
  lemma AskWorks(s: State, l: Loop)
    requires s.pc == Polling && s.current == l && s.channel == ChannelOf(l)
    requires s.need && !s.available && s.outstanding == 0 && !s.filled
    ensures IsRun(s, Ask) && Waits(After(s, Ask), l)
    ensures After(s, Ask) == s.(need := false, outstanding := 1)
  {
    var s1 := s.(pc := Refilling);
    var s2 := s.(pc := Clearing, need := false);
    var s3 := s.(pc := Submitting, need := false);
    var s4 := s.(need := false, outstanding := 1);
    LeadsIsRun([s, s1, s2, s3, s4], Ask);
  }

  /** The component fills the buffer, and the loop takes it at its next test of the flag. */
  lemma HandWorks(s: State, l: Loop, b: OmxBuffer)
    requires Waits(s, l)
    ensures IsRun(s, Hand(l, b)) && Holds(After(s, Hand(l, b)), l, b)
    ensures After(s, Hand(l, b))
         == s.(pc := Deciding, available := l != Capture, outstanding := 0, buffer := b, completed := s.completed + [b])
  {
    var s1 := s.(buffer := b, filled := true);
    var s2 := s.(buffer := b, outstanding := 0, available := true, completed := s.completed + [b]);
    var s3 := s2.(pc := if l == Capture then Taking else Deciding);
    if l == Capture {
      LeadsIsRun([s, s1, s2, s3, s3.(pc := Deciding, available := false)], Hand(l, b));
    } else {
      LeadsIsRun([s, s1, s2, s3], Hand(l, b));
    }
  }

  /** The loop uses the buffer and asks for the next one. */
  lemma ReuseWorks(s: State, l: Loop, b: OmxBuffer)
    requires s.pc == Reading && Holds(s.(pc := Deciding), l, b)
    ensures IsRun(s, Reuse) && Waits(After(s, Reuse), l)
    ensures After(s, Reuse) == s.(pc := Polling, available := false, outstanding := 1, fates := s.fates + [Used(b)])
  {
    var s1 := s.(pc := Refilling, need := true, fates := s.fates + [Used(b)]);
    var s2 := s1.(pc := Clearing, need := false);
    var s3 := s2.(pc := Submitting, available := false);
    var s4 := s3.(pc := Polling, outstanding := 1);
    LeadsIsRun([s, s1, s2, s3, s4], Reuse);
  }

  // ---- whole calls --------------------------------------------------------------------------

  function UsedAll(bs: seq<OmxBuffer>): seq<Fate> {
    seq(|bs|, i requires 0 <= i < |bs| => Used(bs[i]))
  }

  /** What changed: more was completed, and more was dealt with. */
  predicate Grown(s: State, t: State, completed: seq<OmxBuffer>, fates: seq<Fate>) {
    && t.completed == s.completed + completed && t.fates == s.fates + fates
    && t.callStart == s.callStart && t.eos == s.eos
  }

  function UseOne(l: Loop, b: OmxBuffer): seq<Action> {
    Hand(l, b) + [Decide(false)] + Reuse
  }

  lemma UseOneWorks(s: State, l: Loop, b: OmxBuffer)
    requires Waits(s, l) && (l == Capture ==> !s.eos)
    ensures IsRun(s, UseOne(l, b))
    ensures Waits(After(s, UseOne(l, b)), l) && Grown(s, After(s, UseOne(l, b)), [b], [Used(b)])
  {
    HandWorks(s, l, b);
    var s1 := After(s, Hand(l, b));
    var s2 := s1.(pc := Reading);
    LeadsIsRun([s1, s2], [Decide(false)]);
    ReuseWorks(s2, l, b);
    hide IsRun, After, Hand;
    RunConcat(s1, [Decide(false)], Reuse);
    RunConcat(s, Hand(l, b), [Decide(false)] + Reuse);
    assert Hand(l, b) + [Decide(false)] + Reuse == Hand(l, b) + ([Decide(false)] + Reuse);
  }

  function UseMany(l: Loop, bs: seq<OmxBuffer>): seq<Action>
    decreases |bs|
  {
    if bs == [] then [] else UseMany(l, bs[..|bs| - 1]) + UseOne(l, bs[|bs| - 1])
  }

  lemma {:induction false} UseManyWorks(s: State, l: Loop, bs: seq<OmxBuffer>)
    requires Waits(s, l) && (l == Capture ==> !s.eos)
    ensures IsRun(s, UseMany(l, bs))
    ensures Waits(After(s, UseMany(l, bs)), l) && Grown(s, After(s, UseMany(l, bs)), bs, UsedAll(bs))
    decreases |bs|
  {
    if bs != [] {
      hide IsRun, After, UseOne, Waits;
      var before, b := bs[..|bs| - 1], bs[|bs| - 1];
      UseManyWorks(s, l, before);
      UseOneWorks(After(s, UseMany(l, before)), l, b);
      RunConcat(s, UseMany(l, before), UseOne(l, b));
      assert bs == before + [b] && UsedAll(bs) == UsedAll(before) + [Used(b)];
    }
  }

  function LeaveAt(l: Loop, b: OmxBuffer): seq<Action> {
    (if l == Capture then [EndOfStream] else []) + Hand(l, b) + [Decide(true), Leave]
  }

  lemma LeaveAtWorks(s: State, l: Loop, b: OmxBuffer)
    requires Waits(s, l)
    ensures IsRun(s, LeaveAt(l, b))
    ensures var t := After(s, LeaveAt(l, b));
      && t.pc == Idle && t.callStart == s.callStart
      && t.completed == s.completed + [b] && t.fates == s.fates + [AtExit(b)]
  {
    var event: seq<Action> := if l == Capture then [EndOfStream] else [];
    var s1 := if l == Capture then s.(eos := true) else s;
    if l == Capture {
      LeadsIsRun([s, s1], event);
    }
    HandWorks(s1, l, b);
    var s2 := After(s1, Hand(l, b));
    var s3 := s2.(pc := Leaving, fates := s2.fates + [AtExit(b)]);
    var s4 := Do(s3, Leave);
    LeadsIsRun([s2, s3, s4], [Decide(true), Leave]);
    assert event == [] ==> IsRun(s, event) && After(s, event) == s;
    hide IsRun, After, Hand;
    RunConcat(s1, Hand(l, b), [Decide(true), Leave]);
    RunConcat(s, event, Hand(l, b) + [Decide(true), Leave]);
    assert event + Hand(l, b) + [Decide(true), Leave] == event + (Hand(l, b) + [Decide(true), Leave]);
  }

  function Enter(l: Loop): seq<Action> {
    [Start(l)] + Ask
  }

  lemma EnterWorks(s: State, l: Loop)
    requires Inv(s) && s.pc == Idle && s.channel == ChannelOf(l)
    ensures IsRun(s, Enter(l)) && Waits(After(s, Enter(l)), l)
    ensures var t := After(s, Enter(l));
      t.completed == s.completed && t.fates == s.fates && t.callStart == |s.fates| && t.eos == s.eos
  {
    var s1 := Do(s, Start(l));
    LeadsIsRun([s, s1], [Start(l)]);
    AskWorks(s1, l);
    hide IsRun, After, Inv;
    RunConcat(s, [Start(l)], Ask);
  }

  /** One call that uses the buffers bs and is left at b. */
  function CallOf(l: Loop, bs: seq<OmxBuffer>, b: OmxBuffer): seq<Action> {
    Enter(l) + UseMany(l, bs) + LeaveAt(l, b)
  }

  /**
   Every call happens: from every idle state, and for all buffers bs and b, some run is one call of the loop
   that completes exactly these buffers, uses bs in order, and is over at b. A capture must
   find the end-of-stream flag clear.
   */
  lemma CallHappens(s: State, l: Loop, bs: seq<OmxBuffer>, b: OmxBuffer)
    requires Inv(s) && s.pc == Idle && s.channel == ChannelOf(l) && (l == Capture ==> !s.eos)
    ensures IsRun(s, CallOf(l, bs, b))
    ensures var t := After(s, CallOf(l, bs, b));
      && t.pc == Idle && t.callStart == |s.fates|
      && t.completed == s.completed + bs + [b]
      && t.fates == s.fates + UsedAll(bs) + [AtExit(b)]
  {
    hide IsRun, After, Enter, UseMany, LeaveAt, Inv, Waits, UsedAll;
    EnterWorks(s, l);
    var s1 := After(s, Enter(l));
    UseManyWorks(s1, l, bs);
    var s2 := After(s1, UseMany(l, bs));
    LeaveAtWorks(s2, l, b);
    RunConcat(s, Enter(l), UseMany(l, bs));
    RunConcat(s, Enter(l) + UseMany(l, bs), LeaveAt(l, b));
  }

  /**
   In every reachable state in which the loop comes to its test and a completed buffer waits, the test
   puts that buffer into its hands: the next statements of the loop are the test for leaving and its use.
   */
  lemma WaitingBufferIsTaken(channel: Channel, run: seq<Action>)
    requires IsRun(Init(channel), run)
    ensures var s := After(Init(channel), run);
      s.pc == Polling && s.available ==>
        && Enabled(s, Poll) && |s.completed| == |s.fates| + 1
        && var t := if s.current == Capture then Do(Do(s, Poll), Take) else Do(s, Poll);
           t.pc == Deciding && t.buffer == s.completed[|s.fates|] && (t.available <==> s.current != Capture)
  {
    InvAlways(Init(channel), run);
  }
}
