/**
 The objects of the message bus: ReceiveQueue, QueueManager, TaskManager and the dispatch of
 CommunicationService. Every method is a step of the runs of module MessageBus, or a registration,
 so what is proved there of all runs holds of every sequence of calls.
 */
module Managers {
  import opened Bytes
  import opened MessageBus

  const COMMUNICATIONSERVICE := 3
  const STREAMMANAGER := 5
  const MOTORMANAGER := 6

  class ReceiveQueue {
    var queue: seq<Message>

    constructor ()
      ensures queue == []
    {
      queue := [];
    }

    method IsEmpty() returns (empty: bool)
      ensures empty <==> queue == []
    {
      empty := queue == [];
    }

    /** Takes the oldest message out. */
    method Front() returns (m: Message)
      requires queue != []
      modifies this
      ensures [m] + queue == old(queue)
    {
      m := queue[0];
      queue := queue[1..];
    }

    method Push(m: Message)
      modifies this
      ensures queue == old(queue) + [m]
    {
      queue := queue + [m];
    }
  }

  datatype ReceiveQueueData = ReceiveQueueData(queueList: ReceiveQueue, task: int)

  class QueueManager {
    var serviceQueue: seq<Message>
    var queueList: seq<ReceiveQueueData>

    ghost function Queues(): set<object>
      reads this
    {
      set k | 0 <= k < |queueList| :: queueList[k].queueList
    }

    /** Every TaskManager registers a receive queue of its own. */
    ghost predicate Valid()
      reads this
    {
      forall i, j :: 0 <= i < j < |queueList| ==> queueList[i].queueList != queueList[j].queueList
    }

    ghost function Tasks(): (r: seq<int>)
      reads this
    {
      seq(|queueList|, i requires 0 <= i < |queueList| reads this => queueList[i].task)
    }

    ghost function Inboxes(): (r: seq<seq<Message>>)
      reads this, Queues()
    {
      seq(|queueList|, i requires 0 <= i < |queueList| reads this, Queues() => queueList[i].queueList.queue)
    }

    ghost function View(): (r: Bus)
      reads this, Queues()
      ensures r.Valid()
    {
      Bus(serviceQueue, Tasks(), Inboxes())
    }

    /** The objects are where a run has got to. */
    ghost predicate At(n: Net)
      reads this, Queues()
    {
      n.Valid() && n.bus == View()
    }

    constructor ()
      ensures Valid() && At(Init([]))
    {
      serviceQueue, queueList := [], [];
    }

    /** The queues stay distinct if this one is new, as those of initManager are. */
    method RegisterReceiveMessageQueue(q: ReceiveQueue, task: int)
      modifies this
      ensures old(Valid()) && q !in old(Queues()) ==> Valid()
      ensures queueList == old(queueList) + [ReceiveQueueData(q, task)] && Queues() == old(Queues()) + {q}
      ensures View() == Bus(old(View()).service, old(View()).tasks + [task], old(View()).inboxes + [q.queue])
    {
      queueList := queueList + [ReceiveQueueData(q, task)];
      assert Tasks() == old(Tasks()) + [task];
      assert Inboxes() == old(Inboxes()) + [q.queue];
      assert queueList[|queueList| - 1].queueList == q;
      assert forall k :: 0 <= k < |queueList| - 1 ==> queueList[k] == old(queueList)[k];
      assert Queues() == old(Queues()) + {q};
    }

    method SendMessage(m: Message, ghost n: Net)
      requires Valid() && At(n)
      modifies this`serviceQueue
      ensures Valid() && At(Do(n, Send(m)))
    {
      if serviceQueue != [] && serviceQueue[0].priority > m.priority {
        serviceQueue := [m] + serviceQueue;
      } else {
        serviceQueue := serviceQueue + [m];
      }
      assert Tasks() == old(Tasks()) && Inboxes() == old(Inboxes());
    }

    /** The first queue registered for the destination, or null. */
    method GetReceiveQueue(dest: int) returns (q: ReceiveQueue?)
      ensures match Lookup(Tasks(), dest)
              case None => q == null
              case Some(i) => i < |queueList| && q == queueList[i].queueList
    {
      ghost var tasks := Tasks();
      for i := 0 to |queueList|
        invariant dest !in tasks[..i]
      {
        if queueList[i].task == dest {
          assert tasks[i] == dest;
          FirstIsLookup(tasks, dest, i);
          return queueList[i].queueList;
        }
      }
      assert tasks[..|queueList|] == tasks;
      return null;
    }

    /** Delivers the head of the service queue; returns its destination, or 0 if nothing was delivered. */
    method SendServiceMessage(ghost n: Net) returns (r: int)
      requires Valid() && At(n)
      modifies this`serviceQueue, Queues()
      ensures Valid() && queueList == old(queueList)
      ensures At(Do(n, Service))
      ensures r == if n.bus.service != [] && n.bus.service[0].dest in n.bus.tasks then n.bus.service[0].dest else 0
    {
      hide Lookup;
      r := 0;
      ghost var before := View();
      if serviceQueue != [] {
        var m := serviceQueue[0];
        serviceQueue := serviceQueue[1..];
        assert Tasks() == before.tasks && Inboxes() == before.inboxes;
        var q := GetReceiveQueue(m.dest);
        assert Tasks() == before.tasks && Inboxes() == before.inboxes;
        if q != null {
          ghost var i := Lookup(Tasks(), m.dest).value;
          assert Lookup(before.tasks, m.dest) == Some(i);
          Deliver(q, m);
          assert Tasks() == before.tasks;
          r := m.dest;
        } else {
          assert Lookup(before.tasks, m.dest) == None;
        }
      }
    }

    method Deliver(q: ReceiveQueue, m: Message)
      requires Valid()
      requires Lookup(Tasks(), m.dest).Some?
      requires Lookup(Tasks(), m.dest).value < |queueList| && q == queueList[Lookup(Tasks(), m.dest).value].queueList
      modifies q
      ensures Valid() && queueList == old(queueList) && serviceQueue == old(serviceQueue) && Tasks() == old(Tasks())
      ensures var i := Lookup(old(Tasks()), m.dest).value;
        |Inboxes()| == |old(Inboxes())| && i < |Inboxes()| && Inboxes() == old(Inboxes())[i := old(Inboxes())[i] + [m]]
    {
      ghost var i := Lookup(Tasks(), m.dest).value;
      q.Push(m);
      assert Tasks() == old(Tasks());
      forall k | 0 <= k < |queueList|
        ensures Inboxes()[k] == if k == i then old(Inboxes())[i] + [m] else old(Inboxes())[k]
      {
        assert k != i ==> queueList[k].queueList != q;
      }
    }
  }

  lemma {:induction false} FirstIsLookup(tasks: seq<int>, dest: int, i: nat)
    requires i < |tasks| && tasks[i] == dest && dest !in tasks[..i]
    ensures Lookup(tasks, dest) == Some(i)
  {
    if i > 0 {
      assert tasks[..i][0] == tasks[0] && tasks[1..][..i - 1] == tasks[..i][1..];
      FirstIsLookup(tasks[1..], dest, i - 1);
    }
  }

  /** A run in which one more queue is registered. */
  function Registered(n: Net, task: int): (r: Net)
    requires n.Valid()
    ensures r.Valid()
  {
    n.(bus := Bus(n.bus.service, n.bus.tasks + [task], n.bus.inboxes + [[]]), received := n.received + [[]])
  }

  /** Registration at start-up gives the starting point of the runs. */
  lemma RegisteredAtStart(tasks: seq<int>, task: int)
    ensures Registered(Init(tasks), task) == Init(tasks + [task])
  {
    assert Init(tasks).bus.inboxes + [[]] == Init(tasks + [task]).bus.inboxes;
    assert Init(tasks).received + [[]] == Init(tasks + [task]).received;
  }

  class TaskManager {
    var task: int
    var qManager: QueueManager
    var receiveQueue: ReceiveQueue
    /** The place of its queue among those registered. */
    ghost var index: nat

    ghost predicate Valid()
      reads this, qManager
    {
      && qManager.Valid() && index < |qManager.queueList|
      && qManager.queueList[index] == ReceiveQueueData(receiveQueue, task)
    }

    /** initManager: create the receive queue and register it under its task number. */
    constructor (qm: QueueManager, number: int, ghost n: Net)
      requires qm.Valid() && qm.At(n)
      modifies qm
      ensures Valid() && fresh(receiveQueue) && task == number && qManager == qm
      ensures index == |n.bus.tasks| && qm.At(Registered(n, number))
      ensures qm.queueList == old(qm.queueList) + [ReceiveQueueData(receiveQueue, number)]
    {
      task, qManager, index := number, qm, |n.bus.tasks|;
      receiveQueue := new ReceiveQueue();
      new;
      qm.RegisterReceiveMessageQueue(receiveQueue, number);
    }

    /** The oldest message, or the one of priority 0 when there is none. */
    method ReceiveMessage(ghost n: Net) returns (m: Message)
      requires Valid() && qManager.At(n)
      modifies receiveQueue
      ensures Valid() && qManager.At(Do(n, Receive(index)))
      ensures if n.bus.inboxes[index] == [] then m == NoMessage && Do(n, Receive(index)) == n
              else Do(n, Receive(index)).received[index] == n.received[index] + [m]
    {
      m := NoMessage;
      assert qManager.Inboxes()[index] == receiveQueue.queue;
      var empty := receiveQueue.IsEmpty();
      if !empty {
        m := receiveQueue.Front();
        assert m == n.bus.inboxes[index][0] && receiveQueue.queue == n.bus.inboxes[index][1..];
        InboxTaken(n);
      }
    }

    /** Taking a message out changes no other queue. */
    twostate lemma InboxTaken(n: Net)
      requires old(Valid()) && old(qManager.At(n)) && index < |n.bus.inboxes| && n.bus.inboxes[index] != []
      requires unchanged(this) && unchanged(qManager) && receiveQueue.queue == n.bus.inboxes[index][1..]
      requires forall q :: q in qManager.Queues() && q != receiveQueue ==> unchanged(q)
      ensures qManager.At(Do(n, Receive(index)))
    {
      assert qManager.Tasks() == n.bus.tasks;
      var after := n.bus.inboxes[index := n.bus.inboxes[index][1..]];
      forall k | 0 <= k < |qManager.queueList|
        ensures qManager.Inboxes()[k] == after[k]
      {
        assert old(qManager.Inboxes())[k] == n.bus.inboxes[k];
        if k != index {
          assert qManager.queueList[k].queueList in qManager.Queues();
          assert qManager.queueList[k].queueList != receiveQueue;
        }
      }
      assert qManager.Inboxes() == after;
    }

    method SendMessage(m: Message, ghost n: Net)
      requires Valid() && qManager.At(n)
      modifies qManager`serviceQueue
      ensures Valid() && qManager.At(Do(n, Send(m)))
    {
      qManager.SendMessage(m, n);
    }
  }

  // ---- CommunicationService -----------------------------------------------------------------

  const RECV_MOTOR := 0x2001
  const RECV_STREAM := 0x2002
  const RECV_STREAM_STOP := 0x2003
  const SIZE_MOTOR: nat := 28
  const SIZE_STREAM: nat := 8

  datatype Command = ToBus(m: Message) | SignalEnd | Ignore

  /** ParsingMessage: what a packet from the server (head and bytes) leads to, given flag_stream. */
  function Parsed(head: int, pkg: seq<byte>, flagStream: bool): Command
    requires |pkg| >= SIZE_MOTOR
  {
    if head == RECV_MOTOR then ToBus(Message(MOTORMANAGER, COMMUNICATIONSERVICE, 2, 0, pkg[..SIZE_MOTOR]))
    else if head == RECV_STREAM && !flagStream
    then ToBus(Message(STREAMMANAGER, COMMUNICATIONSERVICE, 2, 0, pkg[..SIZE_STREAM]))
    else if head == RECV_STREAM_STOP && flagStream then SignalEnd
    else Ignore
  }

  /** In plain numbers: which packet goes where, and when the end of the stream is signalled. */
  lemma PacketsInNumbers(head: int, pkg: seq<byte>, flagStream: bool)
    requires |pkg| >= SIZE_MOTOR
    ensures head == 0x2001 <==> Parsed(head, pkg, flagStream) == ToBus(Message(6, 3, 2, 0, pkg[..28]))
    ensures head == 0x2002 && !flagStream <==> Parsed(head, pkg, flagStream) == ToBus(Message(5, 3, 2, 0, pkg[..8]))
    ensures head == 0x2003 && flagStream <==> Parsed(head, pkg, flagStream) == SignalEnd
    ensures Parsed(head, pkg, flagStream) == Ignore
       <==> !(head == 0x2001 || (head == 0x2002 && !flagStream) || (head == 0x2003 && flagStream))
  {
  }

  function Services(k: nat): seq<Step> {
    seq(k, _ => Service)
  }

  lemma OneService(n: Net, m: Message, i: nat)
    requires n.Valid() && Lookup(n.bus.tasks, m.dest) == Some(i) && n.bus.service != []
    ensures var t := Do(n, Service);
      && t.bus.service == n.bus.service[1..] && t.bus.tasks == n.bus.tasks
      && (m == n.bus.service[0] || m in n.bus.inboxes[i] ==> m in t.bus.inboxes[i])
  {
  }

  lemma AfterFirst(n: Net, step: Step, rest: seq<Step>)
    requires n.Valid()
    ensures After(n, [step] + rest) == After(Do(n, step), rest)
    decreases |rest|
  {
    if rest == [] {
      assert [step] + [] == [] + [step];
      AfterOne(n, [], step);
    } else {
      var before, last := rest[..|rest| - 1], rest[|rest| - 1];
      AfterFirst(n, step, before);
      AfterOne(n, [step] + before, last);
      AfterOne(Do(n, step), before, last);
      assert [step] + rest == [step] + before + [last] && rest == before + [last];
    }
  }

  /** As many services as messages wait bring every message to the queue of its destination. */
  lemma {:induction false} EveryMessageIsServiced(n: Net, m: Message, i: nat)
    requires n.Valid() && Lookup(n.bus.tasks, m.dest) == Some(i)
    requires m in n.bus.service || m in n.bus.inboxes[i]
    ensures var t := After(n, Services(|n.bus.service|));
      t.bus.tasks == n.bus.tasks && t.bus.service == [] && m in t.bus.inboxes[i]
    decreases |n.bus.service|
  {
    hide Lookup, Do;
    var k := |n.bus.service|;
    if k == 0 {
      assert Services(0) == [] && After(n, []) == n;
    } else {
      OneService(n, m, i);
      EveryMessageIsServiced(Do(n, Service), m, i);
      AfterFirst(n, Service, Services(k - 1));
      assert Services(k) == [Service] + Services(k - 1);
    }
  }

  /**
   A motor packet reaches the queue of manager 6, and a stream packet outside a stream that of manager 5,
   whatever waits on the bus already.
   */
  lemma PacketReachesItsManager(n: Net, head: int, pkg: seq<byte>, flagStream: bool, i: nat)
    requires n.Valid() && |pkg| >= SIZE_MOTOR && (head == 0x2001 || (head == 0x2002 && !flagStream))
    requires Lookup(n.bus.tasks, if head == 0x2001 then 6 else 5) == Some(i)
    ensures var m := Message(if head == 0x2001 then 6 else 5, 3, 2, 0, if head == 0x2001 then pkg[..28] else pkg[..8]);
      && Parsed(head, pkg, flagStream) == ToBus(m)
      && m in After(Do(n, Send(m)), Services(|n.bus.service| + 1)).bus.inboxes[i]
  {
    PacketsInNumbers(head, pkg, flagStream);
    var m := Message(if head == 0x2001 then 6 else 5, 3, 2, 0, if head == 0x2001 then pkg[..28] else pkg[..8]);
    var t := Do(n, Send(m));
    assert t.bus.service == [m] + n.bus.service || t.bus.service == n.bus.service + [m];
    assert m in t.bus.service;
    EveryMessageIsServiced(t, m, i);
  }

  class CommunicationService {
    var manager: TaskManager
    /** is_end of OpenMAX. */
    var isEnd: bool

    constructor (m: TaskManager)
      ensures manager == m && !isEnd
    {
      manager, isEnd := m, false;
    }

    method ParsingMessage(head: int, pkg: seq<byte>, flagStream: bool, ghost n: Net)
      requires manager.Valid() && manager.qManager.At(n) && |pkg| >= SIZE_MOTOR
      modifies manager.qManager`serviceQueue, this`isEnd
      ensures manager.Valid()
      ensures match Parsed(head, pkg, flagStream)
              case ToBus(m) => manager.qManager.At(Do(n, Send(m))) && isEnd == old(isEnd)
              case SignalEnd => manager.qManager.At(n) && isEnd
              case Ignore => manager.qManager.At(n) && isEnd == old(isEnd)
    {
      if head == RECV_MOTOR {
        SendMessageToMotorManager(NoMessage.(data := pkg[..SIZE_MOTOR]), 2, n);
      } else if head == RECV_STREAM && !flagStream {
        SendMessageToStreamManager(NoMessage.(data := pkg[..SIZE_STREAM]), 2, n);
      } else if head == RECV_STREAM_STOP && flagStream {
        isEnd := true;
      }
    }

    method SendMessageToStreamManager(message: Message, priority: int, ghost n: Net)
      requires manager.Valid() && manager.qManager.At(n)
      modifies manager.qManager`serviceQueue
      ensures manager.Valid()
      ensures manager.qManager.At(Do(n, Send(
        message.(dest := STREAMMANAGER, prov := COMMUNICATIONSERVICE, priority := priority))))
    {
      manager.SendMessage(message.(dest := STREAMMANAGER, prov := COMMUNICATIONSERVICE, priority := priority), n);
    }

    method SendMessageToMotorManager(message: Message, priority: int, ghost n: Net)
      requires manager.Valid() && manager.qManager.At(n)
      modifies manager.qManager`serviceQueue
      ensures manager.Valid()
      ensures manager.qManager.At(Do(n, Send(
        message.(dest := MOTORMANAGER, prov := COMMUNICATIONSERVICE, priority := priority))))
    {
      manager.SendMessage(message.(dest := MOTORMANAGER, prov := COMMUNICATIONSERVICE, priority := priority), n);
    }
  }

  // ---- the traffic of the whole node --------------------------------------------------------

  /** What StreamManager sends: a command for the motor with priority 1. */
  function MotorCommand(cmd: int): Message {
    Message(MOTORMANAGER, 0, 1, cmd, [])
  }

  /** What CommunicationService makes of a packet of the server. */
  ghost predicate IsServerPacket(m: Message) {
    exists head, pkg, flagStream :: |pkg| >= SIZE_MOTOR && Parsed(head, pkg, flagStream) == ToBus(m)
  }

  ghost predicate IsNodeTraffic(m: Message) {
    m == MotorCommand(m.cmd) || IsServerPacket(m)
  }

  /** Every packet that is put on the bus has priority 2. */
  lemma ParsedIsNodeTraffic(m: Message)
    requires IsServerPacket(m)
    ensures IsNodeTraffic(m)
    ensures m.priority == 2 && m.prov == COMMUNICATIONSERVICE && m.dest in {MOTORMANAGER, STREAMMANAGER}
  {
  }

  /** Nothing else is ever sent. */
  ghost predicate NodeRun(run: seq<Step>) {
    forall k :: 0 <= k < |run| && run[k].Send? ==> IsNodeTraffic(run[k].m)
  }

  lemma NodeSendsAtMostTwo(run: seq<Step>)
    requires NodeRun(run)
    ensures SendsAtMost(run, 2)
  {
    forall k | 0 <= k < |run| && run[k].Send? ensures run[k].m.priority <= 2 {
      hide IsServerPacket;
      if IsServerPacket(run[k].m) {
        ParsedIsNodeTraffic(run[k].m);
      }
    }
  }

  /** All server packets reach their manager in the order in which they came, whatever happens in between. */
  lemma ServerPacketsInOrder(tasks: seq<int>, run: seq<Step>, i: nat, dest: int)
    requires NodeRun(run) && Lookup(tasks, dest) == Some(i)
    ensures var n := After(Init(tasks), run);
      && Only(n.received[i], 2, dest) <= Only(n.sent, 2, dest)
      && InOrder(n, i, 2, dest) == Only(n.sent, 2, dest)
  {
    NodeSendsAtMostTwo(run);
    LargestPriorityIsFifo(tasks, run, i, 2, dest);
    ReceivedInOrder(tasks, run, i, 2, dest);
  }

  // ---- motor commands -----------------------------------------------------------------------

  /**
   The command sent in step k, if there is one, finds no server packet at the head of the deque, or no
   other command in the deque.
   */
  predicate CommandKeepsPlace(tasks: seq<int>, run: seq<Step>, k: nat)
    requires k < |run|
  {
    var queue := After(Init(tasks), run[..k]).bus.service;
    run[k].Send? && run[k].m.priority == 1 && run[k].m.dest == MOTORMANAGER ==>
      queue == [] || queue[0].prov != COMMUNICATIONSERVICE
      || forall x :: x in Only(queue, 1, MOTORMANAGER) ==> x == run[k].m
  }

  /** What waits in the deque has been sent. */
  lemma {:induction false} WaitingIsTraffic(tasks: seq<int>, run: seq<Step>)
    requires NodeRun(run)
    ensures forall m :: m in After(Init(tasks), run).bus.service ==> IsNodeTraffic(m)
    decreases |run|
  {
    if run != [] {
      hide IsNodeTraffic;
      WaitingIsTraffic(tasks, run[..|run| - 1]);
    }
  }

  lemma CommandPlace(tasks: seq<int>, run: seq<Step>, k: nat)
    requires NodeRun(run) && k < |run|
    ensures PlaceKept(tasks, run, k, 1, MOTORMANAGER) <==> CommandKeepsPlace(tasks, run, k)
  {
    var queue := After(Init(tasks), run[..k]).bus.service;
    WaitingIsTraffic(tasks, run[..k]);
    hide After, Init, IsServerPacket;
    if queue != [] {
      assert IsNodeTraffic(queue[0]);
      if IsServerPacket(queue[0]) {
        ParsedIsNodeTraffic(queue[0]);
      }
    }
  }

  /**
   The commands for the motor have no such guarantee. They are in order at every moment of a run if and
   only if none is sent while a server packet is at the head of the deque and a different
   command waits behind it.
   */
  lemma MotorCommandsInOrderExactly(tasks: seq<int>, run: seq<Step>, i: nat)
    requires NodeRun(run) && Lookup(tasks, MOTORMANAGER) == Some(i)
    ensures OrderThroughout(tasks, run, i, 1, MOTORMANAGER)
       <==> forall k :: 0 <= k < |run| ==> CommandKeepsPlace(tasks, run, k)
  {
    OrderKeptExactly(tasks, run, i, 1, MOTORMANAGER);
    hide OrderThroughout, NodeRun, CommandKeepsPlace, PlaceKept;
    forall k | 0 <= k < |run|
      ensures PlaceKept(tasks, run, k, 1, MOTORMANAGER) <==> CommandKeepsPlace(tasks, run, k)
    {
      CommandPlace(tasks, run, k);
    }
  }

  /**
   For instance, after START (a) and STOP (c) with a packet (b) sent between them, a RESTART (d) sent as
   soon as START is delivered overtakes STOP.
   */
  lemma MotorCommandsCanOvertake(a: Message, b: Message, c: Message, d: Message)
    requires a.priority == c.priority == d.priority == 1 && b.priority == 2
    requires a.dest == b.dest == c.dest == d.dest == MOTORMANAGER
    ensures var n := After(Init([MOTORMANAGER]), [Send(a), Send(b), Send(c), Service, Send(d)]);
      n.bus.service == [d, b, c] && n.bus.inboxes == [[a]]
  {
    var n0 := Init([MOTORMANAGER]);
    assert n0.bus.inboxes == [[]];
    assert After(n0, []) == n0;
    var r1: seq<Step> := [] + [Send(a)];
    var r2 := r1 + [Send(b)];
    var r3 := r2 + [Send(c)];
    var r4 := r3 + [Service];
    hide After, Do, Init;
    SendAt(n0, [], Send(a), [], [[]]);
    SendAt(n0, r1, Send(b), [a], [[]]);
    SendAt(n0, r2, Send(c), [a, b], [[]]);
    ServiceAt(n0, r3, [a, b, c], [[]]);
    SendAt(n0, r4, Send(d), [b, c], [[a]]);
    assert r4 + [Send(d)] == [Send(a), Send(b), Send(c), Service, Send(d)];
    assert [a, b, c][1..] == [b, c] && [] + [a] == [a];
    assert [a] + [b] == [a, b] && [a, b] + [c] == [a, b, c] && [d] + [b, c] == [d, b, c];
  }

  predicate At(n: Net, service: seq<Message>, inboxes: seq<seq<Message>>) {
    n.Valid() && n.bus == Bus(service, [MOTORMANAGER], inboxes)
  }

  lemma SendAt(n: Net, run: seq<Step>, step: Step, service: seq<Message>, inboxes: seq<seq<Message>>)
    requires n.Valid() && At(After(n, run), service, inboxes) && step.Send?
    ensures At(After(n, run + [step]), Enqueued(service, step.m), inboxes)
  {
    hide After;
    AfterOne(n, run, step);
  }

  lemma ServiceAt(n: Net, run: seq<Step>, service: seq<Message>, inboxes: seq<seq<Message>>)
    requires n.Valid() && At(After(n, run), service, inboxes) && service != [] && service[0].dest == MOTORMANAGER
    ensures |inboxes| == 1 && At(After(n, run + [Service]), service[1..], [inboxes[0] + [service[0]]])
  {
    AfterOne(n, run, Service);
    hide After;
    FirstIsLookup([MOTORMANAGER], MOTORMANAGER, 0);
  }
}
