/**
 The three file senders of ClientSocket. They share the counter `sended`, which each must leave at 0
 for the next one; the socket is a log of packets.
 */
module FileTransfer {
  import opened Bytes

  const PACK_MAX_SIZE: nat := 8000

  /** send_file, send_stream and send_current_pic. */
  datatype Sender = SendFile | SendStream | SendCurrentPic

  /** A start packet announces the size; a data packet has a payload of which in_data_size bytes count. */
  datatype Packet =
    | StartPacket(sender: Sender, totalSize: nat)
    | DataPacket(sender: Sender, inDataSize: nat, payload: seq<byte>)

  predicate WellFormed(p: Packet) {
    p.DataPacket? ==> |p.payload| == PACK_MAX_SIZE && p.inDataSize <= PACK_MAX_SIZE
  }

  /** The bytes of a data packet that belong to the file. */
  function Carried(p: Packet): seq<byte>
    requires p.DataPacket? && WellFormed(p)
  {
    p.payload[..p.inDataSize]
  }

  // ---- what a transfer of a file looks like --------------------------------------------------

  /** Number of data packets for n bytes: ceil(n / 8000). */
  function PacketCount(n: nat): nat {
    (n + PACK_MAX_SIZE - 1) / PACK_MAX_SIZE
  }

  /** Packet k of a transfer: full but for the last one, and carrying its part of the file. */
  predicate IsChunk(p: Packet, sender: Sender, content: seq<byte>, k: nat) {
    && p.DataPacket? && p.sender == sender && WellFormed(p)
    && k * PACK_MAX_SIZE + p.inDataSize <= |content|
    && p.inDataSize
         == (if |content| - k * PACK_MAX_SIZE < PACK_MAX_SIZE then |content| - k * PACK_MAX_SIZE else PACK_MAX_SIZE)
    && Carried(p) == content[k * PACK_MAX_SIZE..k * PACK_MAX_SIZE + p.inDataSize]
  }

  predicate AreChunks(packets: seq<Packet>, sender: Sender, content: seq<byte>) {
    && |packets| == PacketCount(|content|)
    && forall k :: 0 <= k < |packets| ==> IsChunk(packets[k], sender, content, k)
  }

  /** The log of one transfer: the announcement and the chunks. */
  predicate IsTransfer(packets: seq<Packet>, sender: Sender, content: seq<byte>) {
    packets != [] && packets[0] == StartPacket(sender, |content|) && AreChunks(packets[1..], sender, content)
  }

  predicate AllData(packets: seq<Packet>) {
    forall k :: 0 <= k < |packets| ==> packets[k].DataPacket? && WellFormed(packets[k])
  }

  function Joined(packets: seq<Packet>): seq<byte>
    requires AllData(packets)
    decreases |packets|
  {
    if packets == [] then [] else Joined(packets[..|packets| - 1]) + Carried(packets[|packets| - 1])
  }

  lemma {:induction false} ChunksJoinUpTo(packets: seq<Packet>, sender: Sender, content: seq<byte>, n: nat)
    requires n <= |packets| && n <= PacketCount(|content|)
    requires forall k :: 0 <= k < n ==> IsChunk(packets[k], sender, content, k)
    ensures AllData(packets[..n])
    ensures Joined(packets[..n]) == content[..if n * PACK_MAX_SIZE <= |content| then n * PACK_MAX_SIZE else |content|]
  {
    forall k | 0 <= k < n ensures packets[k].DataPacket? && WellFormed(packets[k]) {
      assert IsChunk(packets[k], sender, content, k);
    }
    if n > 0 {
      ChunksJoinUpTo(packets, sender, content, n - 1);
      assert packets[..n][..n - 1] == packets[..n - 1];
      assert IsChunk(packets[n - 1], sender, content, n - 1);
    }
  }

  /** The first in_data_size bytes of the data packets, put together, are the file. */
  lemma ChunksJoinToFile(packets: seq<Packet>, sender: Sender, content: seq<byte>)
    requires AreChunks(packets, sender, content)
    ensures AllData(packets) && Joined(packets) == content
    ensures forall k :: 0 <= k < |packets| - 1 ==> packets[k].inDataSize == 8000
    ensures packets != [] ==> 0 < packets[|packets| - 1].inDataSize <= 8000
  {
    ChunksJoinUpTo(packets, sender, content, |packets|);
    assert packets[..|packets|] == packets;
    forall k | 0 <= k < |packets| - 1 ensures packets[k].inDataSize == PACK_MAX_SIZE {
      assert IsChunk(packets[k], sender, content, k);
    }
    if packets != [] {
      assert IsChunk(packets[|packets| - 1], sender, content, |packets| - 1);
    }
  }

  // ---- the class ----------------------------------------------------------------------------

  /** A file that can be opened and read in full, or none. */
  type File = Option<seq<byte>>

  class ClientSocket {
    var sended: nat
    var entireSize: nat
    var log: seq<Packet>
    const filePayload: array<byte>
    const streamPayload: array<byte>
    const picPayload: array<byte>

    ghost predicate Valid()
      reads this
    {
      && sended == 0
      && filePayload.Length == streamPayload.Length == picPayload.Length == PACK_MAX_SIZE
    }

    constructor ()
      ensures Valid() && log == []
    {
      sended, entireSize, log := 0, 0, [];
      filePayload := new byte[PACK_MAX_SIZE](_ => 0);
      streamPayload := new byte[PACK_MAX_SIZE](_ => 0);
      picPayload := new byte[PACK_MAX_SIZE](_ => 0);
    }

    /** The loop that the three senders have in common, on the packet buffer of one of them. */
    method SendChunks(sender: Sender, content: seq<byte>, payload: array<byte>)
      requires sended == 0 && entireSize == |content| && payload.Length == PACK_MAX_SIZE
      modifies this`sended, this`log, payload
      ensures sended == |content|
      ensures old(log) <= log && AreChunks(log[|old(log)|..], sender, content)
    {
      hide IsChunk;
      ghost var n := 0;
      ghost var sent: seq<Packet> := [];
      while sended < entireSize
        invariant sended <= |content|
        invariant sended == if n * PACK_MAX_SIZE <= |content| then n * PACK_MAX_SIZE else |content|
        invariant n == PacketCount(sended) && |sent| == n
        invariant log == old(log) + sent
        invariant forall k :: 0 <= k < n ==> IsChunk(sent[k], sender, content, k)
      {
        var inDataSize := if entireSize - sended < PACK_MAX_SIZE then entireSize - sended else PACK_MAX_SIZE;
        var packet := FillPacket(sender, content, payload, inDataSize, n);
        sended := sended + inDataSize;
        log := log + [packet];
        sent := sent + [packet];
        n := n + 1;
        forall i | 0 <= i < PACK_MAX_SIZE {
          payload[i] := 0;
        }
      }
      assert log[|old(log)|..] == sent;
    }

    /** Read the next part of the file into the packet buffer. */
    method FillPacket(sender: Sender, content: seq<byte>, payload: array<byte>, inDataSize: nat, ghost k: nat)
        returns (p: Packet)
      requires payload.Length == PACK_MAX_SIZE && sended == k * PACK_MAX_SIZE < |content|
      requires inDataSize == if |content| - sended < PACK_MAX_SIZE then |content| - sended else PACK_MAX_SIZE
      modifies payload
      ensures p.DataPacket? && p.inDataSize == inDataSize && IsChunk(p, sender, content, k)
    {
      MemCpy(payload, 0, content, sended, inDataSize);
      p := DataPacket(sender, inDataSize, payload[..]);
      assert Carried(p) == content[sended..sended + inDataSize];
    }

    method Transfer(sender: Sender, file: File, payload: array<byte>)
      requires Valid() && payload.Length == PACK_MAX_SIZE
      modifies this`sended, this`entireSize, this`log, payload
      ensures Valid() && old(log) <= log
      ensures file.None? ==> log == old(log)
      ensures file.Some? ==> IsTransfer(log[|old(log)|..], sender, file.value)
    {
      if file == None {
        return;
      }
      entireSize := |file.value|;
      log := log + [StartPacket(sender, entireSize)];
      SendChunks(sender, file.value, payload);
      sended := 0;
      assert log[|old(log)|..][1..] == log[|old(log)| + 1..];
    }

    method SendFile(file: File)
      requires Valid()
      modifies this`sended, this`entireSize, this`log, filePayload
      ensures Valid() && old(log) <= log
      ensures file.None? ==> log == old(log)
      ensures file.Some? ==> IsTransfer(log[|old(log)|..], Sender.SendFile, file.value)
    {
      Transfer(Sender.SendFile, file, filePayload);
    }

    method SendStream(file: File)
      requires Valid()
      modifies this`sended, this`entireSize, this`log, streamPayload
      ensures Valid() && old(log) <= log
      ensures file.None? ==> log == old(log)
      ensures file.Some? ==> IsTransfer(log[|old(log)|..], Sender.SendStream, file.value)
    {
      Transfer(Sender.SendStream, file, streamPayload);
    }

    method SendCurrentPic(file: File)
      requires Valid()
      modifies this`sended, this`entireSize, this`log, picPayload
      ensures Valid() && old(log) <= log
      ensures file.None? ==> log == old(log)
      ensures file.Some? ==> IsTransfer(log[|old(log)|..], Sender.SendCurrentPic, file.value)
    {
      Transfer(Sender.SendCurrentPic, file, picPayload);
    }
  }

  // ---- any sequence of calls, read back -----------------------------------------------------

  datatype Call = Call(sender: Sender, file: File)

  datatype Received = Received(sender: Sender, content: seq<byte>)

  /** The log after some calls: the transfers of the files that could be opened, one after the other. */
  predicate IsLogOf(log: seq<Packet>, calls: seq<Call>)
    decreases |calls|
  {
    if calls == [] then log == []
    else if calls[0].file == None then IsLogOf(log, calls[1..])
    else
      var n := 1 + PacketCount(|calls[0].file.value|);
      && n <= |log| && IsTransfer(log[..n], calls[0].sender, calls[0].file.value)
      && IsLogOf(log[n..], calls[1..])
  }

  function Opened(calls: seq<Call>): seq<Received>
    decreases |calls|
  {
    if calls == [] then []
    else if calls[0].file == None then Opened(calls[1..])
    else [Received(calls[0].sender, calls[0].file.value)] + Opened(calls[1..])
  }

  /** A receiver: take a start packet, collect as many data packets as its size needs, and so on. */
  function Read(log: seq<Packet>): seq<Received>
    decreases |log|
  {
    if log == [] || !log[0].StartPacket? then []
    else
      var n := 1 + PacketCount(log[0].totalSize);
      if n > |log| || !AllData(log[1..n]) then []
      else [Received(log[0].sender, Joined(log[1..n]))] + Read(log[n..])
  }

  /** Whatever calls are made, in any mixture, the receiver gets every opened file back, in order. */
  lemma {:induction false} ReceiverReadsFilesBack(log: seq<Packet>, calls: seq<Call>)
    requires IsLogOf(log, calls)
    ensures Read(log) == Opened(calls)
    decreases |calls|
  {
    if calls != [] {
      if calls[0].file == None {
        ReceiverReadsFilesBack(log, calls[1..]);
      } else {
        var content := calls[0].file.value;
        var n := 1 + PacketCount(|content|);
        assert log[..n][1..] == log[1..n];
        ChunksJoinToFile(log[1..n], calls[0].sender, content);
        ReceiverReadsFilesBack(log[n..], calls[1..]);
      }
    }
  }

  /** The class produces such logs: a call extends a log of calls by one. */
  lemma {:induction false} CallExtendsLog(log: seq<Packet>, calls: seq<Call>, more: seq<Packet>, call: Call)
    requires IsLogOf(log, calls)
    requires if call.file == None then more == [] else IsTransfer(more, call.sender, call.file.value)
    ensures IsLogOf(log + more, calls + [call])
    decreases |calls|
  {
    if calls == [] {
      assert calls + [call] == [call] && [call][1..] == [];
      assert log + more == more;
      if call.file != None {
        var n := 1 + PacketCount(|call.file.value|);
        assert more[..n] == more && more[n..] == [];
      }
    } else {
      assert (calls + [call])[1..] == calls[1..] + [call];
      if calls[0].file == None {
        CallExtendsLog(log, calls[1..], more, call);
      } else {
        var n := 1 + PacketCount(|calls[0].file.value|);
        CallExtendsLog(log[n..], calls[1..], more, call);
        assert (log + more)[..n] == log[..n] && (log + more)[n..] == log[n..] + more;
      }
    }
  }
}
