/**
 The message bus between the managers: the service deque of QueueManager, the receive queues, and
 what holds of them in every run of sends, services and receives.
 */
module MessageBus {
  import opened Bytes

  datatype Message = Message(dest: int, prov: int, priority: int, cmd: int, data: seq<byte>)

  /** The default message; its priority 0 marks an empty queue. */
  const NoMessage := Message(0, 0, 0, 0, [])

  /** The service deque and the receive queues in the order of their registration. */
  datatype Bus = Bus(service: seq<Message>, tasks: seq<int>, inboxes: seq<seq<Message>>) {
    predicate Valid() { |tasks| == |inboxes| }
  }

  /** QueueManager::SendMessage; reading front() of an empty deque does not matter, both pushes agree. */
  function Enqueued(queue: seq<Message>, m: Message): seq<Message> {
    if queue != [] && queue[0].priority > m.priority then [m] + queue else queue + [m]
  }

  /** QueueManager::getReceiveQueue: the first queue registered for the destination. */
  function Lookup(tasks: seq<int>, dest: int): (r: Option<nat>)
    ensures r.Some? ==> r.value < |tasks| && tasks[r.value] == dest && dest !in tasks[..r.value]
    ensures r.None? <==> dest !in tasks
  {
    if tasks == [] then None
    else if tasks[0] == dest then Some(0)
    else
      match Lookup(tasks[1..], dest)
      case None => None
      case Some(i) => assert tasks[..i + 1] == [tasks[0]] + tasks[1..][..i]; Some(i + 1)
  }

  /** QueueManager::SendServiceMessage. */
  function Serviced(bus: Bus): (r: Bus)
    requires bus.Valid()
    ensures r.Valid() && r.tasks == bus.tasks
  {
    if bus.service == [] then bus
    else
      var m := bus.service[0];
      match Lookup(bus.tasks, m.dest)
      case None => bus.(service := bus.service[1..])
      case Some(i) => bus.(service := bus.service[1..], inboxes := bus.inboxes[i := bus.inboxes[i] + [m]])
  }

  // ---- runs ---------------------------------------------------------------------------------

  datatype Step = Send(m: Message) | Service | Receive(task: nat)

  /** A bus with the logs of what was sent, received per queue, and dropped for want of a receiver. */
  datatype Net = Net(bus: Bus, sent: seq<Message>, received: seq<seq<Message>>, dropped: seq<Message>) {
    predicate Valid() { bus.Valid() && |received| == |bus.tasks| }
  }

  function Init(tasks: seq<int>): (n: Net)
    ensures n.Valid()
  {
    Net(Bus([], tasks, seq(|tasks|, _ => [])), [], seq(|tasks|, _ => []), [])
  }

  function Do(n: Net, step: Step): (r: Net)
    requires n.Valid()
    ensures r.Valid() && r.bus.tasks == n.bus.tasks
  {
    match step
    case Send(m) => n.(bus := n.bus.(service := Enqueued(n.bus.service, m)), sent := n.sent + [m])
    case Service =>
      if n.bus.service != [] && n.bus.service[0].dest !in n.bus.tasks
      then n.(bus := Serviced(n.bus), dropped := n.dropped + [n.bus.service[0]])
      else n.(bus := Serviced(n.bus))
    case Receive(i) =>
      if i >= |n.bus.tasks| || n.bus.inboxes[i] == [] then n
      else n.(bus := n.bus.(inboxes := n.bus.inboxes[i := n.bus.inboxes[i][1..]]),
              received := n.received[i := n.received[i] + [n.bus.inboxes[i][0]]])
  }

  function After(n: Net, run: seq<Step>): (r: Net)
    requires n.Valid()
    ensures r.Valid() && r.bus.tasks == n.bus.tasks
    decreases |run|
  {
    if run == [] then n else Do(After(n, run[..|run| - 1]), run[|run| - 1])
  }

  lemma AfterOne(n: Net, run: seq<Step>, step: Step)
    requires n.Valid()
    ensures After(n, run + [step]) == Do(After(n, run), step)
  {
    assert (run + [step])[..|run|] == run;
  }

  // ---- the order of a class of messages -----------------------------------------------------

  /** The messages of one priority for one destination, in the order of the queue. */
  function Only(queue: seq<Message>, priority: int, dest: int): seq<Message>
    decreases |queue|
  {
    if queue == [] then []
    else
      var rest, m := Only(queue[..|queue| - 1], priority, dest), queue[|queue| - 1];
      if m.priority == priority && m.dest == dest then rest + [m] else rest
  }

  lemma {:induction false} OnlyConcat(a: seq<Message>, b: seq<Message>, priority: int, dest: int)
    ensures Only(a + b, priority, dest) == Only(a, priority, dest) + Only(b, priority, dest)
    decreases |b|
  {
    if b == [] {
      assert a + b == a;
    } else {
      var n := |b| - 1;
      OnlyConcat(a, b[..n], priority, dest);
      assert (a + b)[..|a + b| - 1] == a + b[..n];
    }
  }

  lemma OnlyOne(m: Message, priority: int, dest: int)
    ensures Only([m], priority, dest) == if m.priority == priority && m.dest == dest then [m] else []
  {
    assert [m][..0] == [];
  }

  lemma OnlySplit(queue: seq<Message>, priority: int, dest: int)
    requires queue != []
    ensures Only(queue, priority, dest) == Only([queue[0]], priority, dest) + Only(queue[1..], priority, dest)
  {
    assert queue == [queue[0]] + queue[1..];
    OnlyConcat([queue[0]], queue[1..], priority, dest);
  }

  predicate AtMost(queue: seq<Message>, p: int) {
    forall i :: 0 <= i < |queue| ==> queue[i].priority <= p
  }

  /** The messages of class (p, dest) on their way through queue i, in order, with those received first. */
  function InOrder(n: Net, i: nat, p: int, dest: int): seq<Message>
    requires n.Valid() && i < |n.bus.tasks|
  {
    Only(n.received[i], p, dest) + Only(n.bus.inboxes[i], p, dest) + Only(n.bus.service, p, dest)
  }

  /** The messages of the class are where they are in the order in which they were sent. */
  predicate InSendingOrder(n: Net, i: nat, p: int, dest: int) {
    n.Valid() && i < |n.bus.tasks| && InOrder(n, i, p, dest) == Only(n.sent, p, dest)
  }

  predicate FifoInv(n: Net, i: nat, p: int, dest: int) {
    AtMost(n.bus.service, p) && InSendingOrder(n, i, p, dest)
  }

  /**
   What a send must meet to keep the order of its own class: nothing with a larger number is at the
   head, or everything of the class in the deque is equal to it anyway.
   */
  predicate KeepsPlace(queue: seq<Message>, m: Message) {
    queue == [] || queue[0].priority <= m.priority || forall x :: x in Only(queue, m.priority, m.dest) ==> x == m
  }

  /**
   For smaller numbers the order can break, and exactly when: a message is put in front of another
   message of its own class because something with a larger number is at the head.
   */
  lemma SendKeepsOrderExactly(queue: seq<Message>, m: Message)
    ensures Only(Enqueued(queue, m), m.priority, m.dest) == Only(queue, m.priority, m.dest) + [m]
       <==> KeepsPlace(queue, m)
  {
    var s := Only(queue, m.priority, m.dest);
    OnlyOne(m, m.priority, m.dest);
    if queue != [] && queue[0].priority > m.priority {
      OnlyConcat([m], queue, m.priority, m.dest);
      ShiftedEqual(s, m);
    } else {
      OnlyConcat(queue, [m], m.priority, m.dest);
    }
  }

  lemma {:induction false} ShiftedEqual(s: seq<Message>, m: Message)
    ensures [m] + s == s + [m] <==> forall x :: x in s ==> x == m
    decreases |s|
  {
    if forall x :: x in s ==> x == m {
      assert forall k :: 0 <= k < |s| ==> s[k] in s;
      assert forall k :: 0 <= k < |s| ==> s[k] == m;
    } else if [m] + s == s + [m] {
      assert ([m] + s)[0] == (s + [m])[0];
      assert [m] + s[1..] == s == ([m] + s)[1..] == (s + [m])[1..] == s[1..] + [m];
      ShiftedEqual(s[1..], m);
    }
  }

  lemma EnqueuedOther(queue: seq<Message>, m: Message, p: int, dest: int)
    requires m.priority != p || m.dest != dest
    ensures Only(Enqueued(queue, m), p, dest) == Only(queue, p, dest)
  {
    hide Only;
    OnlyOne(m, p, dest);
    OnlyConcat(queue, [m], p, dest);
    OnlyConcat([m], queue, p, dest);
  }

  lemma SamePrefix(a: seq<Message>, b: seq<Message>, c: seq<Message>)
    ensures a + b == a + c <==> b == c
  {
    assert (a + b)[|a|..] == b && (a + c)[|a|..] == c;
  }

  /** A send keeps the order of class (p, dest) exactly when it is of another class or keeps its place. */
  lemma SendKeepsSendingOrder(n: Net, m: Message, i: nat, p: int, dest: int)
    requires InSendingOrder(n, i, p, dest)
    ensures InSendingOrder(Do(n, Send(m)), i, p, dest)
       <==> (m.priority == p && m.dest == dest ==> KeepsPlace(n.bus.service, m))
  {
    hide Only, Enqueued, KeepsPlace;
    var before := Only(n.received[i], p, dest) + Only(n.bus.inboxes[i], p, dest);
    OnlyOne(m, p, dest);
    OnlyConcat(n.sent, [m], p, dest);
    if m.priority == p && m.dest == dest {
      SendKeepsOrderExactly(n.bus.service, m);
      assert before + Only(n.bus.service, p, dest) + [m] == before + (Only(n.bus.service, p, dest) + [m]);
      SamePrefix(before, Only(Enqueued(n.bus.service, m), p, dest), Only(n.bus.service, p, dest) + [m]);
    } else {
      EnqueuedOther(n.bus.service, m, p, dest);
    }
  }

  /** A message that is serviced moves from the head of the deque to the end of its receive queue. */
  lemma ServicedOnly(bus: Bus, i: nat, p: int, dest: int)
    requires bus.Valid() && bus.service != [] && Lookup(bus.tasks, dest) == Some(i)
    ensures var x, after := Only([bus.service[0]], p, dest), Serviced(bus);
      && Only(bus.service, p, dest) == x + Only(after.service, p, dest)
      && Only(after.inboxes[i], p, dest) == Only(bus.inboxes[i], p, dest) + x
  {
    hide Only;
    var m := bus.service[0];
    OnlyOne(m, p, dest);
    OnlySplit(bus.service, p, dest);
    OnlyConcat(bus.inboxes[i], [m], p, dest);
  }

  lemma ServiceKeepsSendingOrder(n: Net, i: nat, p: int, dest: int)
    requires InSendingOrder(n, i, p, dest) && Lookup(n.bus.tasks, dest) == Some(i)
    ensures InSendingOrder(Do(n, Service), i, p, dest)
  {
    hide Only;
    if n.bus.service != [] {
      ServicedOnly(n.bus, i, p, dest);
      hide Lookup;
      var x, after := Only([n.bus.service[0]], p, dest), Serviced(n.bus);
      assert after.service == n.bus.service[1..];
      assert Only(n.received[i], p, dest) + (Only(n.bus.inboxes[i], p, dest) + x) + Only(after.service, p, dest)
          == Only(n.received[i], p, dest) + Only(n.bus.inboxes[i], p, dest) + (x + Only(after.service, p, dest));
    }
  }

  lemma ReceiveKeepsSendingOrder(n: Net, task: nat, i: nat, p: int, dest: int)
    requires InSendingOrder(n, i, p, dest)
    ensures InSendingOrder(Do(n, Receive(task)), i, p, dest)
  {
    hide Only;
    if task == i && n.bus.inboxes[i] != [] {
      var m := n.bus.inboxes[i][0];
      OnlySplit(n.bus.inboxes[i], p, dest);
      OnlyConcat(n.received[i], [m], p, dest);
      assert Only(n.received[i], p, dest) + Only([m], p, dest) + Only(n.bus.inboxes[i][1..], p, dest)
          == Only(n.received[i], p, dest) + (Only([m], p, dest) + Only(n.bus.inboxes[i][1..], p, dest));
    }
  }

  predicate OrderAt(tasks: seq<int>, run: seq<Step>, k: nat, i: nat, p: int, dest: int)
    requires k <= |run|
  {
    InSendingOrder(After(Init(tasks), run[..k]), i, p, dest)
  }

  /** The order holds at every moment of a run. */
  ghost predicate OrderThroughout(tasks: seq<int>, run: seq<Step>, i: nat, p: int, dest: int) {
    forall k :: 0 <= k <= |run| ==> OrderAt(tasks, run, k, i, p, dest)
  }

  /** Step k, if it sends a message of the class, keeps its place in the deque of that moment. */
  predicate PlaceKept(tasks: seq<int>, run: seq<Step>, k: nat, p: int, dest: int)
    requires k < |run|
  {
    run[k].Send? && run[k].m.priority == p && run[k].m.dest == dest ==>
      KeepsPlace(After(Init(tasks), run[..k]).bus.service, run[k].m)
  }

  ghost predicate PlacesKept(tasks: seq<int>, run: seq<Step>, p: int, dest: int) {
    forall k :: 0 <= k < |run| ==> PlaceKept(tasks, run, k, p, dest)
  }

  /** What holds at a moment of a run holds at that moment of its prefixes. */
  lemma MomentOfPrefix(tasks: seq<int>, run: seq<Step>, n: nat, k: nat, i: nat, p: int, dest: int)
    requires k <= n <= |run|
    ensures OrderAt(tasks, run[..n], k, i, p, dest) <==> OrderAt(tasks, run, k, i, p, dest)
    ensures k < n ==> (PlaceKept(tasks, run[..n], k, p, dest) <==> PlaceKept(tasks, run, k, p, dest))
  {
    assert run[..n][..k] == run[..k];
    hide InSendingOrder, KeepsPlace, After, Init;
  }

  lemma OrderAtEnd(tasks: seq<int>, run: seq<Step>, i: nat, p: int, dest: int)
    ensures OrderAt(tasks, run, |run|, i, p, dest) <==> InSendingOrder(After(Init(tasks), run), i, p, dest)
  {
    assert run[..|run|] == run;
  }

  lemma OrderThroughoutLast(tasks: seq<int>, run: seq<Step>, i: nat, p: int, dest: int)
    requires run != []
    ensures OrderThroughout(tasks, run, i, p, dest)
       <==> OrderThroughout(tasks, run[..|run| - 1], i, p, dest) && OrderAt(tasks, run, |run|, i, p, dest)
  {
    hide OrderAt;
    var before := run[..|run| - 1];
    forall k | 0 <= k < |run|
      ensures OrderAt(tasks, before, k, i, p, dest) <==> OrderAt(tasks, run, k, i, p, dest)
    {
      MomentOfPrefix(tasks, run, |run| - 1, k, i, p, dest);
    }
  }

  lemma PlacesKeptLast(tasks: seq<int>, run: seq<Step>, p: int, dest: int)
    requires run != []
    ensures PlacesKept(tasks, run, p, dest)
       <==> PlacesKept(tasks, run[..|run| - 1], p, dest) && PlaceKept(tasks, run, |run| - 1, p, dest)
  {
    hide PlaceKept;
    var before := run[..|run| - 1];
    forall k | 0 <= k < |run| - 1
      ensures PlaceKept(tasks, before, k, p, dest) <==> PlaceKept(tasks, run, k, p, dest)
    {
      MomentOfPrefix(tasks, run, |run| - 1, k, 0, p, dest);
    }
  }

  /**
   First in, first out, exactly: at every moment of a run the messages of a class are in the order in
   which they were sent, from the receiver back to the deque, if and only if every send of that class
   kept its place.
   */
  lemma {:induction false} OrderKeptExactly(tasks: seq<int>, run: seq<Step>, i: nat, p: int, dest: int)
    requires Lookup(tasks, dest) == Some(i)
    ensures OrderThroughout(tasks, run, i, p, dest) <==> PlacesKept(tasks, run, p, dest)
    ensures OrderThroughout(tasks, run, i, p, dest) ==> InSendingOrder(After(Init(tasks), run), i, p, dest)
    decreases |run|
  {
    if run == [] {
      assert run[..0] == [];
    } else {
      var before, step := run[..|run| - 1], run[|run| - 1];
      OrderKeptExactly(tasks, before, i, p, dest);
      OrderThroughoutLast(tasks, run, i, p, dest);
      OrderAtEnd(tasks, run, i, p, dest);
      PlacesKeptLast(tasks, run, p, dest);
      var n := After(Init(tasks), before);
      hide InSendingOrder, Do, KeepsPlace, OrderThroughout, PlacesKept, OrderAt;
      if OrderThroughout(tasks, before, i, p, dest) {
        match step {
          case Send(m) => SendKeepsSendingOrder(n, m, i, p, dest);
          case Service => ServiceKeepsSendingOrder(n, i, p, dest);
          case Receive(t) => ReceiveKeepsSendingOrder(n, t, i, p, dest);
        }
      }
    }
  }

  predicate SendsAtMost(run: seq<Step>, p: int) {
    forall k :: 0 <= k < |run| && run[k].Send? ==> run[k].m.priority <= p
  }

  lemma {:induction false} QueueAtMost(tasks: seq<int>, run: seq<Step>, p: int)
    requires SendsAtMost(run, p)
    ensures AtMost(After(Init(tasks), run).bus.service, p)
    decreases |run|
  {
    if run != [] {
      QueueAtMost(tasks, run[..|run| - 1], p);
    }
  }

  /**
   FIFO for the largest priority number, over whole runs: if nothing is sent with a number above p,
   the messages with number p for a registered destination stay in the order in which they were sent,
   all the way to the receiver.
   */
  lemma LargestPriorityIsFifo(tasks: seq<int>, run: seq<Step>, i: nat, p: int, dest: int)
    requires SendsAtMost(run, p) && Lookup(tasks, dest) == Some(i)
    ensures FifoInv(After(Init(tasks), run), i, p, dest)
  {
    forall k | 0 <= k < |run| ensures PlaceKept(tasks, run, k, p, dest) {
      QueueAtMost(tasks, run[..k], p);
    }
    OrderKeptExactly(tasks, run, i, p, dest);
    QueueAtMost(tasks, run, p);
  }

  /** What the receiver has got of class (p, dest) is a prefix of what was sent. */
  lemma ReceivedInOrder(tasks: seq<int>, run: seq<Step>, i: nat, p: int, dest: int)
    requires SendsAtMost(run, p) && Lookup(tasks, dest) == Some(i)
    ensures var n := After(Init(tasks), run);
      Only(n.received[i], p, dest) <= Only(n.sent, p, dest)
  {
    LargestPriorityIsFifo(tasks, run, i, p, dest);
  }

  // ---- bursts -------------------------------------------------------------------------------

  /** The deque after messages were sent into an empty one. */
  function Burst(messages: seq<Message>): seq<Message>
    decreases |messages|
  {
    if messages == [] then [] else Enqueued(Burst(messages[..|messages| - 1]), messages[|messages| - 1])
  }

  /** Message k has a smaller number than all before it. */
  predicate IsRunningMinimum(messages: seq<Message>, k: nat)
    requires k < |messages|
  {
    forall j :: 0 <= j < k ==> messages[j].priority > messages[k].priority
  }

  function Minima(messages: seq<Message>): seq<Message>
    decreases |messages|
  {
    if messages == [] then []
    else
      var n := |messages| - 1;
      if IsRunningMinimum(messages, n) then Minima(messages[..n]) + [messages[n]] else Minima(messages[..n])
  }

  function Others(messages: seq<Message>): seq<Message>
    decreases |messages|
  {
    if messages == [] then []
    else
      var n := |messages| - 1;
      if IsRunningMinimum(messages, n) then Others(messages[..n]) else Others(messages[..n]) + [messages[n]]
  }

  function Reversed(messages: seq<Message>): seq<Message>
    decreases |messages|
  {
    if messages == [] then [] else [messages[|messages| - 1]] + Reversed(messages[..|messages| - 1])
  }

  /** The deque, the minima and the others after some sends, and the head the deque must have. */
  predicate BurstForm(queue: seq<Message>, minima: seq<Message>, others: seq<Message>) {
    && queue == Reversed(minima) + others
    && minima != [] && queue != [] && queue[0] == minima[|minima| - 1]
  }

  lemma BurstFormKept(queue: seq<Message>, minima: seq<Message>, others: seq<Message>, m: Message)
    requires BurstForm(queue, minima, others)
    ensures if queue[0].priority > m.priority then BurstForm(Enqueued(queue, m), minima + [m], others)
            else BurstForm(Enqueued(queue, m), minima, others + [m])
  {
    assert (minima + [m])[..|minima|] == minima;
    assert Reversed(minima) + others + [m] == Reversed(minima) + (others + [m]);
    assert [m] + (Reversed(minima) + others) == [m] + Reversed(minima) + others;
  }

  /**
   The shape of a burst: the strict running minima in reverse, then all other messages in sending
   order. So the head is a message of the smallest number.
   */
  lemma {:induction false} BurstShape(messages: seq<Message>)
    requires messages != []
    ensures Burst(messages) == Reversed(Minima(messages)) + Others(messages)
    ensures BurstForm(Burst(messages), Minima(messages), Others(messages))
    ensures forall k :: 0 <= k < |messages| ==> Burst(messages)[0].priority <= messages[k].priority
    decreases |messages|
  {
    var n := |messages| - 1;
    var before, m := messages[..n], messages[n];
    if n == 0 {
      assert messages == [m];
      hide *;
      BurstOfOne(m);
    } else {
      hide Reversed, IsRunningMinimum, Enqueued, BurstForm;
      BurstShape(before);
      BurstFormKept(Burst(before), Minima(before), Others(before), m);
      BurstFormMeans(Burst(before), Minima(before), Others(before));
      HeadDecides(messages, n);
      EnqueuedHead(Burst(before), m);
      BurstFormMeans(Burst(messages), Minima(messages), Others(messages));
    }
  }

  lemma EnqueuedHead(queue: seq<Message>, m: Message)
    requires queue != []
    ensures Enqueued(queue, m)[0].priority == if queue[0].priority > m.priority then m.priority else queue[0].priority
  {
  }

  lemma BurstFormMeans(queue: seq<Message>, minima: seq<Message>, others: seq<Message>)
    requires BurstForm(queue, minima, others)
    ensures queue == Reversed(minima) + others && minima != [] && queue != [] && queue[0] == minima[|minima| - 1]
  {
    hide Reversed;
  }

  lemma BurstOfOne(m: Message)
    ensures BurstForm(Burst([m]), Minima([m]), Others([m]))
    ensures Burst([m]) == [m] && Burst([m]) == Reversed(Minima([m])) + Others([m])
  {
    assert [m][..0] == [];
    assert IsRunningMinimum([m], 0);
  }

  /** A message goes to the front exactly when it is a new strict minimum. */
  lemma HeadDecides(messages: seq<Message>, n: nat)
    requires 0 < n < |messages| && Burst(messages[..n]) != []
    requires Minima(messages[..n]) != []
    requires Burst(messages[..n])[0] == Minima(messages[..n])[|Minima(messages[..n])| - 1]
    requires forall k :: 0 <= k < n ==> Burst(messages[..n])[0].priority <= messages[k].priority
    ensures IsRunningMinimum(messages, n) <==> Burst(messages[..n])[0].priority > messages[n].priority
  {
    MinimaAreMembers(messages[..n]);
    assert Burst(messages[..n])[0] in messages[..n];
  }

  lemma {:induction false} MinimaAreMembers(messages: seq<Message>)
    ensures forall x :: x in Minima(messages) ==> x in messages
    decreases |messages|
  {
    if messages != [] {
      MinimaAreMembers(messages[..|messages| - 1]);
    }
  }

  // ---- conservation and routing -------------------------------------------------------------

  function Flat(queues: seq<seq<Message>>): multiset<Message>
    decreases |queues|
  {
    if queues == [] then multiset{} else Flat(queues[..|queues| - 1]) + multiset(queues[|queues| - 1])
  }

  lemma {:induction false} FlatOfEmpty(n: nat)
    ensures Flat(seq(n, _ => [])) == multiset{}
    decreases n
  {
    var empty: seq<seq<Message>> := seq(n, _ => []);
    if n > 0 {
      FlatOfEmpty(n - 1);
      assert empty[..n - 1] == seq(n - 1, _ => []);
    }
  }

  lemma {:induction false} FlatUpdate(queues: seq<seq<Message>>, i: nat, q: seq<Message>, x: Message)
    requires i < |queues|
    ensures Flat(queues[i := q])[x] + multiset(queues[i])[x] == Flat(queues)[x] + multiset(q)[x]
    decreases |queues|
  {
    var n := |queues| - 1;
    if i == n {
      assert queues[i := q][..n] == queues[..n];
    } else {
      FlatUpdate(queues[..n], i, q, x);
      assert queues[i := q][..n] == queues[..n][i := q];
    }
  }

  /** Message x was sent as often as it is now found, in the deque, the queues, received or dropped. */
  predicate ConservedFor(n: Net, x: Message)
    requires n.Valid()
  {
    multiset(n.sent)[x]
      == multiset(n.bus.service)[x] + Flat(n.bus.inboxes)[x] + Flat(n.received)[x] + multiset(n.dropped)[x]
  }

  /** Messages are where they were addressed to, and only those without a receiver are dropped. */
  predicate Routed(n: Net)
    requires n.Valid()
  {
    && (forall i, m :: 0 <= i < |n.bus.tasks| && m in n.bus.inboxes[i] ==> m.dest == n.bus.tasks[i])
    && (forall i, m :: 0 <= i < |n.bus.tasks| && m in n.received[i] ==> m.dest == n.bus.tasks[i])
    && (forall m :: m in n.dropped ==> m.dest !in n.bus.tasks)
  }

  lemma HeadAndTail(q: seq<Message>, x: Message)
    requires q != []
    ensures multiset(q)[x] == multiset(q[1..])[x] + if x == q[0] then 1 else 0
  {
    assert q == [q[0]] + q[1..];
  }

  lemma Added(q: seq<Message>, m: Message, x: Message)
    ensures multiset(q + [m])[x] == multiset(q)[x] + if x == m then 1 else 0
    ensures multiset([m] + q)[x] == multiset(q)[x] + if x == m then 1 else 0
  {
  }

  lemma SendConserves(n: Net, m: Message, x: Message)
    requires n.Valid() && ConservedFor(n, x)
    ensures ConservedFor(Do(n, Send(m)), x)
  {
    Added(n.sent, m, x);
    Added(n.bus.service, m, x);
  }

  lemma ServiceConserves(n: Net, x: Message)
    requires n.Valid() && ConservedFor(n, x)
    ensures ConservedFor(Do(n, Service), x)
  {
    if n.bus.service != [] {
      var m := n.bus.service[0];
      HeadAndTail(n.bus.service, x);
      match Lookup(n.bus.tasks, m.dest) {
        case None => Added(n.dropped, m, x);
        case Some(i) =>
          Added(n.bus.inboxes[i], m, x);
          FlatUpdate(n.bus.inboxes, i, n.bus.inboxes[i] + [m], x);
      }
    }
  }

  lemma ReceiveConserves(n: Net, i: nat, x: Message)
    requires n.Valid() && ConservedFor(n, x)
    ensures ConservedFor(Do(n, Receive(i)), x)
  {
    if i < |n.bus.tasks| && n.bus.inboxes[i] != [] {
      var m := n.bus.inboxes[i][0];
      HeadAndTail(n.bus.inboxes[i], x);
      Added(n.received[i], m, x);
      FlatUpdate(n.bus.inboxes, i, n.bus.inboxes[i][1..], x);
      FlatUpdate(n.received, i, n.received[i] + [m], x);
    }
  }

  lemma RoutingKept(n: Net, step: Step)
    requires n.Valid() && Routed(n)
    ensures Routed(Do(n, step))
  {
  }

  lemma {:induction false} CountsConserved(tasks: seq<int>, run: seq<Step>, x: Message)
    ensures ConservedFor(After(Init(tasks), run), x)
    decreases |run|
  {
    if run == [] {
      FlatOfEmpty(|tasks|);
    } else {
      hide ConservedFor, Do;
      var before, step := run[..|run| - 1], run[|run| - 1];
      CountsConserved(tasks, before, x);
      var n := After(Init(tasks), before);
      match step {
        case Send(m) => SendConserves(n, m, x);
        case Service => ServiceConserves(n, x);
        case Receive(i) => ReceiveConserves(n, i, x);
      }
    }
  }

  /** In every run, every message ever sent is in exactly one place. */
  lemma Conservation(tasks: seq<int>, run: seq<Step>)
    ensures var n := After(Init(tasks), run);
      multiset(n.sent) == multiset(n.bus.service) + Flat(n.bus.inboxes) + Flat(n.received) + multiset(n.dropped)
  {
    var n := After(Init(tasks), run);
    hide After, Flat;
    forall x: Message ensures multiset(n.sent)[x]
        == (multiset(n.bus.service) + Flat(n.bus.inboxes) + Flat(n.received) + multiset(n.dropped))[x]
    {
      CountsConserved(tasks, run, x);
    }
  }

  /** In every run, messages are only where they were addressed to. */
  lemma {:induction false} Routing(tasks: seq<int>, run: seq<Step>)
    ensures Routed(After(Init(tasks), run))
    decreases |run|
  {
    if run != [] {
      hide Routed, Do;
      Routing(tasks, run[..|run| - 1]);
      RoutingKept(After(Init(tasks), run[..|run| - 1]), run[|run| - 1]);
    }
  }
}
