/**
 Reassembly of one planar I420 frame from the slices that the camera component delivers: the
 unpack loops of OpenMAX::OMXCaptureFrame and OpenMAX::OMXCaptureImage.
 */
module FrameUnpack {
  import opened Bytes
  import opened I420Layout

  /** A filled OMX buffer: its bytes from pBuffer + nOffset on, and OMX_BUFFERFLAG_ENDOFFRAME. */
  datatype Fragment = Fragment(data: seq<byte>, endOfFrame: bool)

  // ---- the span arithmetic of one fragment --------------------------------------------------

  function MaxSpans(buf: FrameInfo, plane: int): int {
    if plane == 0 then buf.height else buf.height / 2
  }

  function ValidSpans(info: FrameInfo, buf: FrameInfo, endOfFrame: bool, plane: int): int {
    var luma := buf.height - (if endOfFrame then info.bufExtraPadding else 0);
    if plane == 0 then luma else luma / 2
  }

  function DstOffset(info: FrameInfo, buf: FrameInfo, bufNum: nat, plane: int): int {
    info.Offset(plane) + bufNum * (info.Stride(plane) * MaxSpans(buf, plane))
  }

  function SpanSize(info: FrameInfo, buf: FrameInfo, endOfFrame: bool, plane: int): int {
    info.Stride(plane) * ValidSpans(info, buf, endOfFrame, plane)
  }

  /** The bytes that the three memcpy calls for one fragment copy. */
  function BytesCopied(info: FrameInfo, buf: FrameInfo, endOfFrame: bool): int {
    SpanSize(info, buf, endOfFrame, 0) + SpanSize(info, buf, endOfFrame, 1) + SpanSize(info, buf, endOfFrame, 2)
  }

  predicate InSpan(info: FrameInfo, buf: FrameInfo, bufNum: nat, endOfFrame: bool, plane: int, index: int) {
    var start := DstOffset(info, buf, bufNum, plane);
    start <= index < start + SpanSize(info, buf, endOfFrame, plane)
  }

  /** The memcpy of this plane stays inside the frame and inside the fragment. */
  predicate PlaneFits(info: FrameInfo, buf: FrameInfo, bufNum: nat, fragment: Fragment, frameSize: nat, plane: int) {
    var size := SpanSize(info, buf, fragment.endOfFrame, plane);
    && 0 <= size
    && 0 <= DstOffset(info, buf, bufNum, plane) && DstOffset(info, buf, bufNum, plane) + size <= frameSize
    && 0 <= buf.Offset(plane) && buf.Offset(plane) + size <= |fragment.data|
  }

  predicate FragmentFits(info: FrameInfo, buf: FrameInfo, bufNum: nat, fragment: Fragment, frameSize: nat) {
    && PlaneFits(info, buf, bufNum, fragment, frameSize, 0)
    && PlaneFits(info, buf, bufNum, fragment, frameSize, 1)
    && PlaneFits(info, buf, bufNum, fragment, frameSize, 2)
  }

  /** The frame after the first `planes` planes of a fragment have been copied into it. */
  function Unpacked(frame: seq<byte>, info: FrameInfo, buf: FrameInfo, bufNum: nat, fragment: Fragment, planes: nat)
      : (r: seq<byte>)
    requires planes <= 3
    requires FragmentFits(info, buf, bufNum, fragment, |frame|)
    ensures |r| == |frame|
  {
    if planes == 0 then frame
    else
      Spliced(Unpacked(frame, info, buf, bufNum, fragment, planes - 1),
              DstOffset(info, buf, bufNum, planes - 1), fragment.data, buf.Offset(planes - 1),
              SpanSize(info, buf, fragment.endOfFrame, planes - 1))
  }

  // ---- the capture loop ---------------------------------------------------------------------

  /**
   Running holds what the loop keeps between two buffers; Died is the exit taken when the byte count
   does not match; Overrun stands for a memcpy that left its buffers, where C++ promises nothing.
   */
  datatype CaptureState =
    | Running(frame: seq<byte>, output: seq<byte>, bufNum: nat, frameBytes: int, offset: nat)
    | Died
    | Overrun

  function Zeros(n: nat): seq<byte> {
    seq(n, _ => 0)
  }

  function FrameSize(info: FrameInfo): nat {
    if info.size >= 0 then info.size else 0
  }

  function CaptureInit(info: FrameInfo): CaptureState {
    Running(Zeros(FrameSize(info)), Zeros(FrameSize(info)), 0, 0, 0)
  }

  function CaptureStep(info: FrameInfo, buf: FrameInfo, s: CaptureState, fragment: Fragment): CaptureState {
    if !s.Running? then s
    else if !FragmentFits(info, buf, s.bufNum, fragment, |s.frame|) then Overrun
    else
      var frame := Unpacked(s.frame, info, buf, s.bufNum, fragment, 3);
      var frameBytes := s.frameBytes + BytesCopied(info, buf, fragment.endOfFrame);
      if !fragment.endOfFrame then Running(frame, s.output, s.bufNum + 1, frameBytes, s.offset)
      else if frameBytes != info.size then Died
      else if s.offset + |frame| > |s.output| then Overrun
      else Running(Zeros(|frame|), Spliced(s.output, s.offset, frame, 0, |frame|), 0, 0, s.offset + |frame|)
  }

  function CaptureRun(info: FrameInfo, buf: FrameInfo, fragments: seq<Fragment>): CaptureState {
    if fragments == [] then CaptureInit(info)
    else CaptureStep(info, buf, CaptureRun(info, buf, fragments[..|fragments| - 1]), fragments[|fragments| - 1])
  }

  lemma RunOfPrefix(info: FrameInfo, buf: FrameInfo, fragments: seq<Fragment>, k: nat)
    requires k < |fragments|
    ensures CaptureRun(info, buf, fragments[..k + 1])
         == CaptureStep(info, buf, CaptureRun(info, buf, fragments[..k]), fragments[k])
  {
    assert fragments[..k + 1][..k] == fragments[..k];
  }

  /** Once the loop has left through die or overrun its memory, later buffers change nothing. */
  lemma {:induction false} StoppedStaysStopped(info: FrameInfo, buf: FrameInfo, fragments: seq<Fragment>,
                                               k: nat, s: CaptureState)
    requires k <= |fragments| && s == CaptureRun(info, buf, fragments[..k])
    ensures !s.Running? ==> CaptureRun(info, buf, fragments) == s
    decreases |fragments| - k
  {
    if k == |fragments| {
      assert fragments[..k] == fragments;
    } else if !s.Running? {
      RunOfPrefix(info, buf, fragments, k);
      StoppedStaysStopped(info, buf, fragments, k + 1, s);
    }
  }

  /** The frame buffer keeps its size through the loop. */
  lemma {:induction false} OutputKeepsSize(info: FrameInfo, buf: FrameInfo, fragments: seq<Fragment>)
    ensures var st := CaptureRun(info, buf, fragments);
      st.Running? ==> |st.output| == |st.frame| == FrameSize(info)
  {
    if fragments != [] {
      OutputKeepsSize(info, buf, fragments[..|fragments| - 1]);
    }
  }

  /** The inner loop: copy the Y, U and V spans of one fragment into the frame. */
  method UnpackFragment(frame: array<byte>, info: FrameInfo, buf: FrameInfo, bufNum: nat, fragment: Fragment)
      returns (copied: int)
    requires FragmentFits(info, buf, bufNum, fragment, frame.Length)
    modifies frame
    ensures frame[..] == Unpacked(old(frame[..]), info, buf, bufNum, fragment, 3)
    ensures copied == BytesCopied(info, buf, fragment.endOfFrame)
  {
    copied := 0;
    for plane := 0 to 3
      invariant frame[..] == Unpacked(old(frame[..]), info, buf, bufNum, fragment, plane)
      invariant copied == (if plane > 0 then SpanSize(info, buf, fragment.endOfFrame, 0) else 0)
                        + (if plane > 1 then SpanSize(info, buf, fragment.endOfFrame, 1) else 0)
                        + (if plane > 2 then SpanSize(info, buf, fragment.endOfFrame, 2) else 0)
    {
      assert PlaneFits(info, buf, bufNum, fragment, frame.Length, plane);
      var size := SpanSize(info, buf, fragment.endOfFrame, plane);
      MemCpy(frame, DstOffset(info, buf, bufNum, plane), fragment.data, buf.Offset(plane), size);
      copied := copied + size;
    }
  }

  /** The body of the capture loop for one filled buffer; died is the exit through die. */
  method TakeFragment(frame: array<byte>, frameBuffer: array<byte>, info: FrameInfo, buf: FrameInfo,
                      bufNum: nat, frameBytes: int, offset: nat, fragment: Fragment)
      returns (bufNum': nat, frameBytes': int, offset': nat, died: bool)
    requires frame != frameBuffer
    requires !CaptureStep(info, buf, Running(frame[..], frameBuffer[..], bufNum, frameBytes, offset), fragment).Overrun?
    modifies frame, frameBuffer
    ensures CaptureStep(info, buf, old(Running(frame[..], frameBuffer[..], bufNum, frameBytes, offset)), fragment)
         == if died then Died else Running(frame[..], frameBuffer[..], bufNum', frameBytes', offset')
  {
    var copied := UnpackFragment(frame, info, buf, bufNum, fragment);
    bufNum', frameBytes', offset', died := bufNum + 1, frameBytes + copied, offset, false;
    if fragment.endOfFrame {
      if frameBytes' != info.size {
        died := true;
        return;
      }
      MemCpy(frameBuffer, offset, frame[..], 0, frame.Length);
      offset' := offset + frame.Length;
      bufNum', frameBytes' := 0, 0;
      forall i | 0 <= i < frame.Length {
        frame[i] := 0;
      }
      assert frame[..] == Zeros(frame.Length);
    }
  }

  /**
   The capture loop over the buffers that arrive before the end-of-stream event. None is the exit
   through die; the precondition is the one memcpy has.
   */
  method CaptureFrame(info: FrameInfo, buf: FrameInfo, fragments: seq<Fragment>) returns (r: Option<seq<byte>>)
    requires !CaptureRun(info, buf, fragments).Overrun?
    ensures r == match CaptureRun(info, buf, fragments)
                 case Running(_, output, _, _, _) => Some(output)
                 case _ => None
  {
    var frame := new byte[FrameSize(info)](_ => 0);
    var frameBuffer := new byte[FrameSize(info)](_ => 0);
    assert frame[..] == frameBuffer[..] == Zeros(FrameSize(info));
    var offset, bufNum, frameBytes := 0, 0, 0;
    for k := 0 to |fragments|
      invariant fresh(frame) && fresh(frameBuffer)
      invariant bufNum >= 0 && offset >= 0
      invariant CaptureRun(info, buf, fragments[..k]) == Running(frame[..], frameBuffer[..], bufNum, frameBytes, offset)
    {
      RunOfPrefix(info, buf, fragments, k);
      StoppedStaysStopped(info, buf, fragments, k + 1, CaptureRun(info, buf, fragments[..k + 1]));
      var died;
      bufNum, frameBytes, offset, died :=
        TakeFragment(frame, frameBuffer, info, buf, bufNum, frameBytes, offset, fragments[k]);
      if died {
        return None;
      }
    }
    assert fragments[..|fragments|] == fragments;
    r := Some(frameBuffer[..]);
  }
}
