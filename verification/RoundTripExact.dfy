/** For which sizes, slice heights and strides the capture loop gives every frame back. */
module RoundTripExact {
  import opened Bytes
  import opened I420Layout
  import opened FrameUnpack
  import opened FrameRoundTrip
  import opened Planes
  import opened SizeCheck

  /** The loop rebuilds every frame from every one of its cuts. */
  ghost predicate RebuildsEveryFrame(g: Setup) {
    forall picture, fragments :: |picture| == FrameSize(g.info) && IsCut(g, picture, fragments) ==>
      Rebuilds(g, picture, fragments)
  }

  predicate Rebuilds(g: Setup, picture: seq<byte>, fragments: seq<Fragment>) {
    CaptureRun(g.info, g.buf, fragments) == Running(Zeros(|picture|), picture, 0, 0, |picture|)
  }

  /** A frame that is black but for one byte, or all black. */
  function Dotted(size: nat, dot: int): seq<byte> {
    seq(size, k => if k == dot then 1 else 0)
  }

  /** Slices of black but for one byte of the first. */
  function DottedSlices(g: Setup, dot: int): seq<Fragment>
    requires g.slices > 0
  {
    seq(g.slices, j requires 0 <= j =>
      Fragment(Dotted(FrameSize(g.buf), if j == 0 then dot else -1), j == g.slices - 1))
  }

  lemma BlackIsCut(g: Setup)
    requires g.slices > 0
    ensures IsCut(g, Dotted(FrameSize(g.info), -1), DottedSlices(g, -1))
  {
    DottedAt(FrameSize(g.info), -1);
    DottedAt(FrameSize(g.buf), -1);
    hide FrameIndex, BufferIndex, Dotted;
    forall j: nat | j < g.slices
      ensures HoldsSlice(g, Dotted(FrameSize(g.info), -1), j, DottedSlices(g, -1)[j].data)
    {
      assert DottedSlices(g, -1)[j].data == Dotted(FrameSize(g.buf), -1);
    }
  }

  // ---- different strides --------------------------------------------------------------------

  /** At least two rows of luma in the first slice, and strides that differ. */
  predicate StridesDiffer(g: Setup) {
    && g.info.pStride0 > 0 && g.buf.pStride0 > 0 && g.info.pStride0 != g.buf.pStride0
    && g.info.pStride1 > 0 && g.buf.pStride1 > 0
    && g.slices > 0 && g.info.height >= 2 && g.buf.height >= 2
    && g.info.pOffset1 >= 2 * g.info.pStride0 && g.info.pOffset2 >= g.info.pOffset1
    && g.info.size >= g.info.pOffset2
    && g.buf.pOffset1 >= 2 * g.buf.pStride0 && g.buf.pOffset2 >= g.buf.pOffset1 && g.buf.size >= g.buf.pOffset2
  }

  /** Only the first pixel of the second row of a plane is one stride behind the start of the luma plane. */
  lemma SecondRow(stride: int, offset: int, row: int, col: int)
    requires stride > 0 && offset >= 0 && row >= 0 && 0 <= col < stride
    ensures offset + row * stride + col == stride && offset == 0 <==> offset == 0 && row == 1 && col == 0
  {
    if row > 1 {
      MulLe(2, row, stride);
    }
  }

  lemma DotInSlice(g: Setup, j: nat, plane: int, row: int, col: int)
    requires StridesDiffer(g) && 0 <= plane < 3 && j < g.slices
    requires 0 <= row < g.Max(plane) && 0 <= col < g.info.Stride(plane) && col < g.buf.Stride(plane)
    ensures BufferIndex(g, plane, row, col) == g.buf.pStride0 <==> plane == 0 && row == 1 && col == 0
    ensures FrameIndex(g, plane, j * g.Max(plane) + row, col) == g.info.pStride0
       <==> plane == 0 && j == 0 && row == 1 && col == 0
  {
    MulLe(0, row, g.buf.Stride(plane));
    var r := j * g.Max(plane) + row;
    MulLe(0, j, g.Max(plane));
    MulLe(0, r, g.info.Stride(plane));
    if plane == 0 {
      SecondRow(g.buf.pStride0, 0, row, col);
      SecondRow(g.info.pStride0, 0, r, col);
      if j > 0 {
        MulLe(1, j, g.Max(plane));
      }
    }
  }

  lemma DotHolds(g: Setup, j: nat)
    requires StridesDiffer(g) && j < g.slices
    ensures HoldsSlice(g, Dotted(FrameSize(g.info), g.info.pStride0), j,
                       Dotted(FrameSize(g.buf), if j == 0 then g.buf.pStride0 else -1))
  {
    var picture := Dotted(FrameSize(g.info), g.info.pStride0);
    var data := Dotted(FrameSize(g.buf), if j == 0 then g.buf.pStride0 else -1);
    DottedAt(FrameSize(g.info), g.info.pStride0);
    DottedAt(FrameSize(g.buf), if j == 0 then g.buf.pStride0 else -1);
    hide FrameIndex, BufferIndex, Dotted, StridesDiffer;
    forall plane, row, col | 0 <= plane < 3 && 0 <= row < g.Max(plane)
      && 0 <= col < g.info.Stride(plane) && col < g.buf.Stride(plane)
      && 0 <= BufferIndex(g, plane, row, col) < |data|
      && 0 <= FrameIndex(g, plane, j * g.Max(plane) + row, col) < |picture|
      ensures data[BufferIndex(g, plane, row, col)] == picture[FrameIndex(g, plane, j * g.Max(plane) + row, col)]
    {
      DotInSlice(g, j, plane, row, col);
    }
  }

  /** The frame with one bright pixel, at the start of its second row, and its slices. */
  lemma DotIsCut(g: Setup)
    requires StridesDiffer(g)
    ensures IsCut(g, Dotted(FrameSize(g.info), g.info.pStride0), DottedSlices(g, g.buf.pStride0))
  {
    DottedAt(FrameSize(g.info), g.info.pStride0);
    hide HoldsSlice, Dotted;
    forall j: nat | j < g.slices
      ensures HoldsSlice(g, Dotted(FrameSize(g.info), g.info.pStride0), j, DottedSlices(g, g.buf.pStride0)[j].data)
    {
      DotHolds(g, j);
    }
  }

  /** The loop looks for the second row at its own stride, where the buffer is black. */
  lemma DotIsMissed(g: Setup, frame: seq<byte>, j: nat, fragment: Fragment)
    requires StridesDiffer(g) && j < g.slices && FragmentFits(g.info, g.buf, j, fragment, |frame|)
    requires fragment.data == Dotted(FrameSize(g.buf), if j == 0 then g.buf.pStride0 else -1)
    requires g.info.pStride0 < |frame| && frame[g.info.pStride0] == 0
    ensures Unpacked(frame, g.info, g.buf, j, fragment, 3)[g.info.pStride0] == 0
  {
    var x := g.info.pStride0;
    assert x > 0;
    DottedAt(FrameSize(g.buf), if j == 0 then g.buf.pStride0 else -1);
    NothingUnpacked(g, frame, j, fragment);
    DotIsMissedBy(g, frame, j, fragment, 0);
    DotIsMissedBy(g, frame, j, fragment, 1);
    DotIsMissedBy(g, frame, j, fragment, 2);
  }

  lemma DotIsMissedBy(g: Setup, frame: seq<byte>, j: nat, fragment: Fragment, plane: nat)
    requires StridesDiffer(g) && j < g.slices && FragmentFits(g.info, g.buf, j, fragment, |frame|) && plane < 3
    requires forall k :: 0 <= k < |fragment.data| ==> fragment.data[k] == if j == 0 && k == g.buf.pStride0 then 1 else 0
    requires g.info.pStride0 < |frame| && Unpacked(frame, g.info, g.buf, j, fragment, plane)[g.info.pStride0] == 0
    ensures Unpacked(frame, g.info, g.buf, j, fragment, plane + 1)[g.info.pStride0] == 0
  {
    var x := g.info.pStride0;
    if InSpan(g.info, g.buf, j, fragment.endOfFrame, plane, x) {
      if j == 0 {
        SourceIsBlack(g, j, plane, fragment.endOfFrame);
      }
      hide StridesDiffer, DstOffset;
    }
    hide Unpacked;
    UnpackedByPlane(g, frame, j, fragment, x, plane);
  }

  lemma DottedAt(size: nat, dot: int)
    ensures |Dotted(size, dot)| == size
    ensures forall k :: 0 <= k < size ==> Dotted(size, dot)[k] == if k == dot then 1 else 0
  {
  }

  lemma SourceIsBlack(g: Setup, j: nat, plane: int, endOfFrame: bool)
    requires StridesDiffer(g) && 0 <= plane < 3 && InSpan(g.info, g.buf, j, endOfFrame, plane, g.info.pStride0)
    requires j == 0
    ensures g.buf.Offset(plane) + (g.info.pStride0 - DstOffset(g.info, g.buf, j, plane)) != g.buf.pStride0
  {
  }

  predicate DotMissing(g: Setup, st: CaptureState) {
    st.Running? ==> 0 <= g.info.pStride0 < |st.frame| && st.frame[g.info.pStride0] == 0
  }

  lemma DotMissedByStep(g: Setup, st: CaptureState, j: nat, fragment: Fragment, x: int)
    requires StridesDiffer(g) && j < g.slices && !fragment.endOfFrame
    requires fragment.data == Dotted(FrameSize(g.buf), if j == 0 then g.buf.pStride0 else -1)
    requires DotMissing(g, st) && Counted(st, FrameSize(g.info), j, x)
    ensures DotMissing(g, CaptureStep(g.info, g.buf, st, fragment))
  {
    hide FragmentFits, Unpacked, Dotted, BytesCopied, StridesDiffer;
    if st.Running? && FragmentFits(g.info, g.buf, j, fragment, |st.frame|) {
      DotIsMissed(g, st.frame, j, fragment);
    }
  }

  lemma {:induction false} DotStaysMissing(g: Setup, fragments: seq<Fragment>, k: nat)
    requires StridesDiffer(g) && fragments == DottedSlices(g, g.buf.pStride0) && k < g.slices
    ensures DotMissing(g, CaptureRun(g.info, g.buf, fragments[..k]))
  {
    if k > 0 {
      assert fragments[k - 1]
          == Fragment(Dotted(FrameSize(g.buf), if k - 1 == 0 then g.buf.pStride0 else -1), k - 1 == g.slices - 1);
      hide *;
      DotStaysMissing(g, fragments, k - 1);
      RunOfPrefix(g.info, g.buf, fragments, k - 1);
      BytesAccumulate(g, fragments, k - 1, BytesCopied(g.info, g.buf, false));
      DotMissedByStep(g, CaptureRun(g.info, g.buf, fragments[..k - 1]), k - 1, fragments[k - 1],
                      BytesCopied(g.info, g.buf, false));
    } else {
      FrameHasSecondRow(g);
    }
  }

  lemma FrameHasSecondRow(g: Setup)
    requires StridesDiffer(g)
    ensures 0 < g.info.pStride0 < FrameSize(g.info)
  {
  }

  lemma DotIsNotRebuilt(g: Setup)
    requires StridesDiffer(g)
    ensures !Rebuilds(g, Dotted(FrameSize(g.info), g.info.pStride0), DottedSlices(g, g.buf.pStride0))
  {
    var picture, fragments := Dotted(FrameSize(g.info), g.info.pStride0), DottedSlices(g, g.buf.pStride0);
    var last, x := g.slices - 1, g.info.pStride0;
    FrameHasSecondRow(g);
    DottedAt(FrameSize(g.info), x);
    hide FragmentFits, Unpacked, Dotted, BytesCopied;
    DotStaysMissing(g, fragments, last);
    BytesAccumulate(g, fragments, last, BytesCopied(g.info, g.buf, false));
    RunOfPrefix(g.info, g.buf, fragments, last);
    assert fragments[..last + 1] == fragments;
    var st := CaptureRun(g.info, g.buf, fragments[..last]);
    if st.Running? && FragmentFits(g.info, g.buf, last, fragments[last], |st.frame|) {
      DotIsMissed(g, st.frame, last, fragments[last]);
    }
    assert picture[x] == 1;
  }

  lemma SetupStridesDiffer(w: int, h: int, s: int, bs: int)
    requires w > 0 && bs > 0 && h >= 2 && s >= 2 && LumaStride(bs) != LumaStride(w)
    ensures StridesDiffer(SetupFor(w, h, s, bs))
  {
    hide LumaStride, ChromaStride, ExtraPadding;
    StridesPositive(w);
    StridesPositive(bs);
    PlaneSizesCover(w, h);
    PlaneSizesCover(bs, s);
    MulLe(2, h, LumaStride(w));
    MulLe(2, s, LumaStride(bs));
    MulLe(0, h / 2, ChromaStride(w));
    MulLe(0, s / 2, ChromaStride(bs));
  }

  // ---- the exact condition ------------------------------------------------------------------

  lemma SoundRebuilds(g: Setup)
    requires g.Sound()
    ensures RebuildsEveryFrame(g)
  {
    hide g.Sound, IsCut, CaptureRun;
    forall picture, fragments | |picture| == FrameSize(g.info) && IsCut(g, picture, fragments)
      ensures Rebuilds(g, picture, fragments)
    {
      CaptureRoundTrip(g, picture, fragments);
    }
  }

  lemma OneFrameNotRebuilt(g: Setup, picture: seq<byte>, fragments: seq<Fragment>)
    requires |picture| == FrameSize(g.info) && IsCut(g, picture, fragments) && !Rebuilds(g, picture, fragments)
    ensures !RebuildsEveryFrame(g)
  {
  }

  lemma OtherStridesDoNotRebuild(g: Setup)
    requires g.slices > 0 && StridesDiffer(g)
    ensures !RebuildsEveryFrame(g)
  {
    hide *;
    DottedAt(FrameSize(g.info), g.info.pStride0);
    DotIsCut(g);
    DotIsNotRebuilt(g);
    OneFrameNotRebuilt(g, Dotted(FrameSize(g.info), g.info.pStride0), DottedSlices(g, g.buf.pStride0));
  }

  lemma OtherSizesDoNotRebuild(g: Setup)
    requires g.slices > 0 && FrameBytesAfter(g.info, g.buf, g.slices) != g.info.size
    ensures !RebuildsEveryFrame(g)
  {
    var picture, fragments := Dotted(FrameSize(g.info), -1), DottedSlices(g, -1);
    BlackIsCut(g);
    CutIsOneFrame(g, picture, fragments);
    WrongSizeIsNotCaptured(g, fragments);
    hide CaptureRun, IsCut;
    OneFrameNotRebuilt(g, picture, fragments);
  }

  lemma CutIsOneFrame(g: Setup, picture: seq<byte>, fragments: seq<Fragment>)
    requires |picture| == FrameSize(g.info) && IsCut(g, picture, fragments)
    ensures OneFrame(fragments) && |fragments| == g.slices
  {
  }

  /**
   The round trip, exactly: the loop rebuilds every frame from its slices if and only if the height is
   even, the slice height is even or larger than the frame, and the rows of the buffer are as far apart as
   those of the frame.
   */
  lemma RebuildsEveryFrameExactly(w: int, h: int, s: int, bs: int)
    requires w > 0 && h > 0 && s > 0 && bs > 0
    ensures RebuildsEveryFrame(SetupFor(w, h, s, bs))
       <==> h % 2 == 0 && (s % 2 == 0 || s > h) && LumaStride(bs) == LumaStride(w)
  {
    hide *;
    var g := SetupFor(w, h, s, bs);
    SetupIsMeasured(w, h, s, bs);
    MeasuredHasSlices(g);
    if !(h % 2 == 0 && (s % 2 == 0 || s > h)) {
      CompleteFrameSize(w, h, s, bs);
      OtherSizesDoNotRebuild(g);
    } else if LumaStride(bs) != LumaStride(w) {
      SetupStridesDiffer(w, h, s, bs);
      OtherStridesDoNotRebuild(g);
    } else {
      SetupIsSound(w, h, s, bs);
      SoundRebuilds(g);
    }
  }

  lemma MeasuredHasSlices(g: Setup)
    requires Measured(g)
    ensures g.slices > 0
  {
  }

  lemma CompleteFrameSize(w: int, h: int, s: int, bs: int)
    requires w > 0 && h > 0 && s > 0 && !(h % 2 == 0 && (s % 2 == 0 || s > h))
    ensures var g := SetupFor(w, h, s, bs); FrameBytesAfter(g.info, g.buf, g.slices) != g.info.size
  {
    hide FrameBytesAfter;
    SetupIsMeasured(w, h, s, bs);
    CompleteFramePassesExactly(SetupFor(w, h, s, bs));
  }
}
