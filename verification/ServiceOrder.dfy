/**
 "The smaller number is served first": when the service deque keeps that promise. It is no sorted
 queue, since a message that is not smaller than the head goes behind everything else.
 */
module ServiceOrder {
  import opened Bytes
  import opened MessageBus

  /** The smallest numbers first. */
  predicate Ascending(queue: seq<Message>) {
    forall j, k :: 0 <= j < k < |queue| ==> queue[j].priority <= queue[k].priority
  }

  /** The next message to be served has the smallest number of all that wait. */
  predicate ServesSmallest(queue: seq<Message>) {
    queue != [] && forall k :: 0 <= k < |queue| ==> queue[0].priority <= queue[k].priority
  }

  // ---- any run ------------------------------------------------------------------------------

  /** The message is smaller than the head, or not smaller than the last. */
  predicate Fits(queue: seq<Message>, m: Message) {
    queue == [] || m.priority < queue[0].priority || queue[|queue| - 1].priority <= m.priority
  }

  lemma SendKeepsAscending(queue: seq<Message>, m: Message)
    requires Ascending(queue)
    ensures Ascending(Enqueued(queue, m)) <==> Fits(queue, m)
  {
    if queue != [] {
      var after := Enqueued(queue, m);
      if queue[0].priority > m.priority {
        forall k | 0 <= k < |queue| ensures queue[0].priority <= queue[k].priority {
        }
      } else {
        assert after[|queue| - 1] == queue[|queue| - 1] && after[|queue|] == m;
      }
    }
  }

  lemma OthersKeepAscending(n: Net, step: Step)
    requires n.Valid() && Ascending(n.bus.service) && !step.Send?
    ensures Ascending(Do(n, step).bus.service)
  {
  }

  predicate AscendingAt(tasks: seq<int>, run: seq<Step>, k: nat)
    requires k <= |run|
  {
    Ascending(After(Init(tasks), run[..k]).bus.service)
  }

  ghost predicate AscendingThroughout(tasks: seq<int>, run: seq<Step>) {
    forall k :: 0 <= k <= |run| ==> AscendingAt(tasks, run, k)
  }

  predicate SendFits(tasks: seq<int>, run: seq<Step>, k: nat)
    requires k < |run|
  {
    run[k].Send? ==> Fits(After(Init(tasks), run[..k]).bus.service, run[k].m)
  }

  ghost predicate SendsFit(tasks: seq<int>, run: seq<Step>) {
    forall k :: 0 <= k < |run| ==> SendFits(tasks, run, k)
  }

  lemma MomentOfPrefix(tasks: seq<int>, run: seq<Step>, n: nat, k: nat)
    requires k <= n <= |run|
    ensures AscendingAt(tasks, run[..n], k) <==> AscendingAt(tasks, run, k)
    ensures k < n ==> (SendFits(tasks, run[..n], k) <==> SendFits(tasks, run, k))
  {
    assert run[..n][..k] == run[..k];
    hide Ascending, Fits, After, Init;
  }

  lemma AscendingAtEnd(tasks: seq<int>, run: seq<Step>)
    ensures AscendingAt(tasks, run, |run|) <==> Ascending(After(Init(tasks), run).bus.service)
  {
    assert run[..|run|] == run;
  }

  lemma AscendingLast(tasks: seq<int>, run: seq<Step>)
    requires run != []
    ensures AscendingThroughout(tasks, run)
       <==> AscendingThroughout(tasks, run[..|run| - 1]) && AscendingAt(tasks, run, |run|)
  {
    hide AscendingAt;
    var before := run[..|run| - 1];
    forall k | 0 <= k < |run| ensures AscendingAt(tasks, before, k) <==> AscendingAt(tasks, run, k) {
      MomentOfPrefix(tasks, run, |run| - 1, k);
    }
  }

  lemma SendsFitLast(tasks: seq<int>, run: seq<Step>)
    requires run != []
    ensures SendsFit(tasks, run) <==> SendsFit(tasks, run[..|run| - 1]) && SendFits(tasks, run, |run| - 1)
  {
    hide SendFits;
    var before := run[..|run| - 1];
    forall k | 0 <= k < |run| - 1 ensures SendFits(tasks, before, k) <==> SendFits(tasks, run, k) {
      MomentOfPrefix(tasks, run, |run| - 1, k);
    }
  }

  /**
   Over whole runs: the deque is in the order of its numbers at every moment if and only if every
   message is sent when it is smaller than the head or not smaller than the last.
   */
  lemma {:induction false} AscendingExactly(tasks: seq<int>, run: seq<Step>)
    ensures AscendingThroughout(tasks, run) <==> SendsFit(tasks, run)
    ensures AscendingThroughout(tasks, run) ==> Ascending(After(Init(tasks), run).bus.service)
    decreases |run|
  {
    if run == [] {
      assert run[..0] == [];
    } else {
      var before, step := run[..|run| - 1], run[|run| - 1];
      AscendingExactly(tasks, before);
      AscendingLast(tasks, run);
      AscendingAtEnd(tasks, run);
      SendsFitLast(tasks, run);
      var n := After(Init(tasks), before);
      if step.Send? {
        hide Ascending, AscendingThroughout, SendsFit, Fits;
        if AscendingThroughout(tasks, before) {
          SendKeepsAscending(n.bus.service, step.m);
        }
      } else {
        hide Ascending, AscendingThroughout, SendsFit, Do;
        if AscendingThroughout(tasks, before) {
          OthersKeepAscending(n, step);
        }
      }
    }
  }

  // ---- a burst ------------------------------------------------------------------------------

  function Sends(messages: seq<Message>): seq<Step> {
    seq(|messages|, i requires 0 <= i < |messages| => Send(messages[i]))
  }

  /** Send all messages, then service some. */
  function BurstRun(messages: seq<Message>, services: nat): seq<Step> {
    Sends(messages) + seq(services, _ => Service)
  }

  lemma {:induction false} BurstIsRun(tasks: seq<int>, messages: seq<Message>)
    ensures After(Init(tasks), Sends(messages)).bus.service == Burst(messages)
    decreases |messages|
  {
    if messages != [] {
      var n := |messages| - 1;
      BurstIsRun(tasks, messages[..n]);
      assert Sends(messages) == Sends(messages[..n]) + [Send(messages[n])];
      AfterOne(Init(tasks), Sends(messages[..n]), Send(messages[n]));
    }
  }

  lemma {:induction false} BurstLength(messages: seq<Message>)
    ensures |Burst(messages)| == |messages|
    decreases |messages|
  {
    if messages != [] {
      BurstLength(messages[..|messages| - 1]);
    }
  }

  lemma {:induction false} ServicesDrop(tasks: seq<int>, messages: seq<Message>, services: nat)
    requires services <= |messages|
    ensures |Burst(messages)| == |messages|
    ensures After(Init(tasks), BurstRun(messages, services)).bus.service == Burst(messages)[services..]
    decreases services
  {
    BurstLength(messages);
    if services == 0 {
      BurstIsRun(tasks, messages);
      assert BurstRun(messages, 0) == Sends(messages);
    } else {
      ServicesDrop(tasks, messages, services - 1);
      assert BurstRun(messages, services) == BurstRun(messages, services - 1) + [Service];
      AfterOne(Init(tasks), BurstRun(messages, services - 1), Service);
    }
  }

  /** The minima fall from the first message on. */
  predicate Falling(minima: seq<Message>) {
    forall j, k :: 0 <= j < k < |minima| ==> minima[j].priority > minima[k].priority
  }

  lemma {:induction false} MinimaFall(messages: seq<Message>)
    requires messages != []
    ensures Falling(Minima(messages)) && Minima(messages) != [] && Minima(messages)[0] == messages[0]
    decreases |messages|
  {
    var n := |messages| - 1;
    if n == 0 {
      assert IsRunningMinimum(messages, 0);
      assert messages[..0] == [];
    } else {
      MinimaFall(messages[..n]);
      MinimaAreMembers(messages[..n]);
      var before := Minima(messages[..n]);
      if IsRunningMinimum(messages, n) {
        forall j | 0 <= j < |before| ensures before[j].priority > messages[n].priority {
          assert before[j] in messages[..n];
        }
      }
    }
  }

  lemma {:induction false} ReversedAt(s: seq<Message>, k: nat)
    requires k < |s|
    ensures |Reversed(s)| == |s| && Reversed(s)[k] == s[|s| - 1 - k]
    decreases |s|
  {
    if |s| > 1 {
      ReversedAt(s[..|s| - 1], if k > 0 then k - 1 else 0);
    }
  }

  lemma ReversedAscends(minima: seq<Message>)
    requires minima != [] && Falling(minima)
    ensures var up := Reversed(minima); |up| == |minima| && Ascending(up) && up[|up| - 1] == minima[0]
  {
    hide Reversed;
    forall k: nat | k < |minima|
      ensures |Reversed(minima)| == |minima| && Reversed(minima)[k] == minima[|minima| - 1 - k]
    {
      ReversedAt(minima, k);
    }
    assert |Reversed(minima)| == |minima| && Reversed(minima)[|minima| - 1] == minima[0] by {
      ReversedAt(minima, |minima| - 1);
    }
  }

  lemma AscendingConcat(a: seq<Message>, b: seq<Message>)
    requires a != [] && Ascending(a)
    ensures Ascending(a + b) <==> Ascending(b) && (b != [] ==> a[|a| - 1].priority <= b[0].priority)
  {
    var n := |a|;
    if Ascending(a + b) {
      forall j, k | 0 <= j < k < |b| ensures b[j].priority <= b[k].priority {
        assert (a + b)[n + j] == b[j] && (a + b)[n + k] == b[k];
      }
      if b != [] {
        assert (a + b)[n - 1] == a[n - 1] && (a + b)[n] == b[0];
      }
    }
  }

  lemma ServesSmallestExactly(queue: seq<Message>)
    ensures (forall j :: 0 <= j < |queue| ==> ServesSmallest(queue[j..])) <==> Ascending(queue)
  {
    if forall j :: 0 <= j < |queue| ==> ServesSmallest(queue[j..]) {
      forall j, k | 0 <= j < k < |queue| ensures queue[j].priority <= queue[k].priority {
        assert ServesSmallest(queue[j..]);
        assert queue[j..][0] == queue[j] && queue[j..][k - j] == queue[k];
      }
    } else {
      var j :| 0 <= j < |queue| && !ServesSmallest(queue[j..]);
    }
  }

  /** Every service of a burst takes a message of the smallest number that is left. */
  ghost predicate ServedSmallestFirst(tasks: seq<int>, messages: seq<Message>) {
    forall j :: 0 <= j < |messages| ==> ServesSmallest(After(Init(tasks), BurstRun(messages, j)).bus.service)
  }

  /**
   The promise for a burst, exactly: the smaller numbers are served first if and only if the messages
   that are no strict running minimum are sent in ascending order, and none of them is smaller
   than the first message.
   */
  lemma BurstServedSmallestFirstExactly(tasks: seq<int>, messages: seq<Message>)
    requires messages != []
    ensures ServedSmallestFirst(tasks, messages)
       <==> Ascending(Others(messages))
            && (Others(messages) != [] ==> messages[0].priority <= Others(messages)[0].priority)
  {
    var queue := Burst(messages);
    BurstShape(messages);
    BurstLength(messages);
    MinimaFall(messages);
    ReversedAscends(Minima(messages));
    AscendingConcat(Reversed(Minima(messages)), Others(messages));
    ServesSmallestExactly(queue);
    hide *;
    forall j | 0 <= j < |messages|
      ensures After(Init(tasks), BurstRun(messages, j)).bus.service == queue[j..]
    {
      ServicesDrop(tasks, messages, j);
    }
    BurstMeans(tasks, messages, queue);
  }

  lemma BurstMeans(tasks: seq<int>, messages: seq<Message>, queue: seq<Message>)
    requires |queue| == |messages|
    requires forall j :: 0 <= j < |messages| ==> After(Init(tasks), BurstRun(messages, j)).bus.service == queue[j..]
    ensures ServedSmallestFirst(tasks, messages) <==> forall j :: 0 <= j < |queue| ==> ServesSmallest(queue[j..])
  {
    hide After, Init, BurstRun, ServesSmallest;
  }

  function Numbered(dest: int, priority: int): Message {
    Message(dest, 0, priority, 0, [])
  }

  /** For instance, after 1, 3, 2 and a service the next message is the one with number 3. */
  lemma HeadAfterServiceNotMinimal(d: int)
    ensures var burst := [Numbered(d, 1), Numbered(d, 3), Numbered(d, 2)];
      After(Init([d]), BurstRun(burst, 1)).bus.service == [Numbered(d, 3), Numbered(d, 2)]
  {
    var a, b, c := Numbered(d, 1), Numbered(d, 3), Numbered(d, 2);
    assert [a, b, c][..2] == [a, b] && [a, b][..1] == [a] && [a][..0] == [];
    assert Burst([a]) == [a];
    assert Burst([a, b]) == [a, b];
    ServicesDrop([d], [a, b, c], 1);
  }
}
