/**
 PI_MEMORY_BUFFER: chunks of an H.264 byte stream (Annex B of ITU-T H.264) are assembled into NAL
 unit bodies and published through a slot that holds the latest one; parameter sets are kept aside.
 */
module NalMailbox {
  import opened Bytes

  const RTSP_INPUT_BUFFER_MAX: nat := 300000
  const PARAMETER_SET_MAX: nat := 64

  /**
   What push_frame_data gets: the memory of the encoder buffer and data_len. The memory is larger
   than data_len, and the test for a start code looks at its first five bytes whatever data_len is.
   */
  datatype Chunk = Chunk(mem: seq<byte>, len: nat)

  datatype Kind = TooBig | Sps | Pps | SliceStart | Trailing

  predicate StartsNal(c: Chunk) {
    |c.mem| >= 5 && c.mem[0] == 0 && c.mem[1] == 0 && c.mem[2] == 0 && c.mem[3] == 1
  }

  function KindOf(c: Chunk): Kind {
    if c.len > RTSP_INPUT_BUFFER_MAX then TooBig
    else if !StartsNal(c) then Trailing
    else if c.mem[4] == 0x27 then Sps
    else if c.mem[4] == 0x28 then Pps
    else SliceStart
  }

  /** What the memcpy calls need: the lengths stay inside the memory and inside sps and pps. */
  predicate WellSized(c: Chunk) {
    && |c.mem| >= 5 && c.len <= |c.mem|
    && (c.len <= RTSP_INPUT_BUFFER_MAX && StartsNal(c) ==>
          c.len >= 4 && (c.mem[4] == 0x27 || c.mem[4] == 0x28 ==> c.len - 4 <= PARAMETER_SET_MAX))
  }

  /** The bytes behind the start code, or all bytes of a trailing chunk. */
  function Payload(c: Chunk): seq<byte>
    requires WellSized(c)
  {
    if KindOf(c) == Trailing then c.mem[..c.len]
    else if KindOf(c) == TooBig then []
    else c.mem[4..c.len]
  }

  /**
   The abstract state: temp is being assembled, frame is the published slot ([] when taken), and a
   parameter set is None before its first arrival (its length is uninitialised in the source).
   */
  datatype Mailbox = Mailbox(temp: seq<byte>, frame: seq<byte>, sps: Option<seq<byte>>, pps: Option<seq<byte>>)

  const EmptyMailbox := Mailbox([], [], None, None)

  // ---- the steps of the two threads, each under one lock or on private data ------------------

  function Flushed(m: Mailbox): Mailbox {
    if |m.temp| > 0 then m.(frame := m.temp) else m
  }

  function Loaded(m: Mailbox, body: seq<byte>): Mailbox {
    m.(temp := body)
  }

  function Appended(m: Mailbox, data: seq<byte>): Mailbox {
    if |m.temp| + |data| > RTSP_INPUT_BUFFER_MAX then m else m.(temp := m.temp + data)
  }

  function Pushed(m: Mailbox, c: Chunk): Mailbox
    requires WellSized(c)
  {
    match KindOf(c)
    case TooBig => m
    case Sps => m.(sps := Some(Payload(c)))
    case Pps => m.(pps := Some(Payload(c)))
    case SliceStart => Loaded(Flushed(m), Payload(c))
    case Trailing => Appended(m, Payload(c))
  }

  /**
   A push in bytes: behind the start code 0 0 0 1, the fifth byte 0x27 stands for an SPS and 0x28 for a PPS,
   which replace those saved before; with any other fifth byte a slice begins, which publishes what was
   assembled. Other chunks are appended if they fit. Chunks of more than 300000 bytes are ignored.
   */
  lemma PushInBytes(m: Mailbox, c: Chunk)
    requires WellSized(c)
    ensures c.len > 300000 ==> Pushed(m, c) == m
    ensures c.len <= 300000 && c.mem[..4] == [0, 0, 0, 1] ==>
      && c.len >= 4
      && (c.mem[4] == 0x27 ==> Pushed(m, c) == m.(sps := Some(c.mem[4..c.len])))
      && (c.mem[4] == 0x28 ==> Pushed(m, c) == m.(pps := Some(c.mem[4..c.len])))
      && (c.mem[4] != 0x27 && c.mem[4] != 0x28 ==>
            Pushed(m, c) == Mailbox(c.mem[4..c.len], if m.temp == [] then m.frame else m.temp, m.sps, m.pps))
    ensures c.len <= 300000 && c.mem[..4] != [0, 0, 0, 1] ==>
      Pushed(m, c) == if |m.temp| + c.len <= 300000 then m.(temp := m.temp + c.mem[..c.len]) else m
  {
  }

  // ---- the class ----------------------------------------------------------------------------

  class PiMemoryBuffer {
    const sps: array<byte>
    var spsLen: nat
    const pps: array<byte>
    var ppsLen: nat
    const tempData: array<byte>
    var tempDataLen: nat
    const frameData: array<byte>
    var frameDataLen: nat
    ghost var spsSaved: bool
    ghost var ppsSaved: bool

    ghost predicate Valid()
      reads this
    {
      && sps.Length == pps.Length == PARAMETER_SET_MAX
      && tempData.Length == frameData.Length == RTSP_INPUT_BUFFER_MAX
      && sps != pps && sps != tempData && sps != frameData
      && pps != tempData && pps != frameData && tempData != frameData
      && tempDataLen <= RTSP_INPUT_BUFFER_MAX && frameDataLen <= RTSP_INPUT_BUFFER_MAX
      && (spsSaved ==> spsLen <= PARAMETER_SET_MAX) && (ppsSaved ==> ppsLen <= PARAMETER_SET_MAX)
    }

    ghost function View(): Mailbox
      requires Valid()
      reads this, sps, pps, tempData, frameData
    {
      Mailbox(tempData[..tempDataLen], frameData[..frameDataLen],
              if spsSaved then Some(sps[..spsLen]) else None,
              if ppsSaved then Some(pps[..ppsLen]) else None)
    }

    constructor ()
      ensures Valid() && View() == EmptyMailbox
      ensures fresh(sps) && fresh(pps) && fresh(tempData) && fresh(frameData)
    {
      sps := new byte[PARAMETER_SET_MAX](_ => 0);
      pps := new byte[PARAMETER_SET_MAX](_ => 0);
      tempData := new byte[RTSP_INPUT_BUFFER_MAX](_ => 0);
      frameData := new byte[RTSP_INPUT_BUFFER_MAX](_ => 0);
      tempDataLen, frameDataLen := 0, 0;
      spsLen, ppsLen := *, *;
      spsSaved, ppsSaved := false, false;
    }

    method FlushFrameData()
      requires Valid()
      modifies this`frameDataLen, frameData
      ensures Valid() && View() == Flushed(old(View()))
    {
      if tempDataLen > 0 {
        MemCpy(frameData, 0, tempData[..tempDataLen], 0, tempDataLen);
        frameDataLen := tempDataLen;
      }
    }

    method SaveSpsData(data: seq<byte>)
      requires Valid() && |data| <= PARAMETER_SET_MAX
      modifies this`spsLen, this`spsSaved, sps
      ensures Valid() && View() == old(View()).(sps := Some(data))
    {
      MemCpy(sps, 0, data, 0, |data|);
      spsLen, spsSaved := |data|, true;
      assert sps[..spsLen] == data;
    }

    method SavePpsData(data: seq<byte>)
      requires Valid() && |data| <= PARAMETER_SET_MAX
      modifies this`ppsLen, this`ppsSaved, pps
      ensures Valid() && View() == old(View()).(pps := Some(data))
    {
      MemCpy(pps, 0, data, 0, |data|);
      ppsLen, ppsSaved := |data|, true;
      assert pps[..ppsLen] == data;
    }

    /** Start assembling a new slice. */
    method LoadTempData(data: seq<byte>)
      requires Valid() && |data| <= RTSP_INPUT_BUFFER_MAX
      modifies this`tempDataLen, tempData
      ensures Valid() && View() == Loaded(old(View()), data)
    {
      MemCpy(tempData, 0, data, 0, |data|);
      tempDataLen := |data|;
      assert tempData[..tempDataLen] == data;
    }

    /** Trailing data; what does not fit is dropped. */
    method AppendTempData(data: seq<byte>)
      requires Valid()
      modifies this`tempDataLen, tempData
      ensures Valid() && View() == Appended(old(View()), data)
    {
      if tempDataLen + |data| > RTSP_INPUT_BUFFER_MAX {
        return;
      }
      MemCpy(tempData, tempDataLen, data, 0, |data|);
      tempDataLen := tempDataLen + |data|;
      assert tempData[..tempDataLen] == old(tempData[..tempDataLen]) + data;
    }

    method PushFrameData(c: Chunk)
      requires Valid() && WellSized(c)
      modifies this, sps, pps, tempData, frameData
      ensures Valid() && View() == Pushed(old(View()), c)
    {
      if c.len > RTSP_INPUT_BUFFER_MAX {
        return;
      }
      if c.mem[0] == 0 && c.mem[1] == 0 && c.mem[2] == 0 && c.mem[3] == 1 {
        if c.mem[4] == 0x27 {
          SaveSpsData(c.mem[4..c.len]);
        } else if c.mem[4] == 0x28 {
          SavePpsData(c.mem[4..c.len]);
        } else {
          FlushFrameData();
          LoadTempData(c.mem[4..c.len]);
        }
      } else {
        AppendTempData(c.mem[..c.len]);
      }
    }

    /** 0 when the slot is empty; otherwise the slot is copied out and emptied. */
    method ReadFrameData(fTo: array<byte>) returns (ret: nat)
      requires Valid() && fTo !in {sps, pps, tempData, frameData} && fTo.Length >= RTSP_INPUT_BUFFER_MAX
      modifies this`frameDataLen, fTo
      ensures Valid() && View() == old(View()).(frame := [])
      ensures ret <= fTo.Length && ret == |old(View()).frame| && fTo[..ret] == old(View()).frame
    {
      ret := 0;
      if frameDataLen > 0 {
        MemCpy(fTo, 0, frameData[..frameDataLen], 0, frameDataLen);
        ret := frameDataLen;
        frameDataLen := 0;
      }
    }

    /** Whatever was saved or not, the length must be one that memcpy can take. */
    method ReadFrameSps(fTo: array<byte>) returns (readLen: nat)
      requires Valid() && spsLen <= PARAMETER_SET_MAX
      requires fTo !in {sps, pps, tempData, frameData} && fTo.Length >= PARAMETER_SET_MAX
      modifies fTo
      ensures Valid() && View() == old(View())
      ensures readLen == spsLen <= fTo.Length && fTo[..readLen] == sps[..spsLen]
      ensures View().sps.Some? ==> fTo[..readLen] == View().sps.value
    {
      MemCpy(fTo, 0, sps[..spsLen], 0, spsLen);
      readLen := spsLen;
    }

    method ReadFramePps(fTo: array<byte>) returns (readLen: nat)
      requires Valid() && ppsLen <= PARAMETER_SET_MAX
      requires fTo !in {sps, pps, tempData, frameData} && fTo.Length >= PARAMETER_SET_MAX
      modifies fTo
      ensures Valid() && View() == old(View())
      ensures readLen == ppsLen <= fTo.Length && fTo[..readLen] == pps[..ppsLen]
      ensures View().pps.Some? ==> fTo[..readLen] == View().pps.value
    {
      MemCpy(fTo, 0, pps[..ppsLen], 0, ppsLen);
      readLen := ppsLen;
    }
  }
}
