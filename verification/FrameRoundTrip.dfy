/**
 What the unpack loop promises: the copies of all slices tile the frame, the size check recognises
 complete frames, and cutting a frame into slices and capturing them gives the frame back.
 */
module FrameRoundTrip {
  import opened Bytes
  import opened I420Layout
  import opened FrameUnpack
  import opened Planes

  /** The two layouts the loop works with, and the number of slices a frame arrives in. */
  datatype Setup = Setup(info: FrameInfo, buf: FrameInfo, slices: int) {
    function Rows(plane: int): int {
      if plane == 0 then info.height else info.height / 2
    }

    function Max(plane: int): int {
      MaxSpans(buf, plane)
    }

    function Block(plane: int): int {
      info.Stride(plane) * Max(plane)
    }

    /** Bytes of one plane in the frame. */
    function PlaneSize(plane: int): int {
      info.Stride(plane) * Rows(plane)
    }

    predicate SameStrides() {
      buf.pStride0 == info.pStride0 && buf.pStride1 == info.pStride1
    }

    predicate IsLast(j: int) {
      j == slices - 1
    }

    /** The rows of slice j that belong to the frame. */
    function SliceRows(j: int, plane: int): int {
      ValidSpans(info, buf, IsLast(j), plane)
    }

    /** Planes follow each other without a gap in the frame, and have room in a buffer. */
    predicate Adjacent() {
      && info.pOffset1 == PlaneSize(0)
      && info.pOffset2 == info.pOffset1 + PlaneSize(1)
      && info.size == info.pOffset2 + PlaneSize(2)
      && buf.pOffset1 >= Block(0)
      && buf.pOffset2 >= buf.pOffset1 + Block(1)
      && buf.size >= buf.pOffset2 + Block(2)
    }

    /**
     The numbers the loop relies on: equal positive strides, an even height, ceil(height / slice height)
     slices, and an even slice height unless one slice holds the whole frame.
     */
    predicate Sound() {
      && info.pStride0 > 0 && info.pStride1 > 0 && SameStrides()
      && info.height > 0 && info.height % 2 == 0 && buf.height > 0 && (buf.height % 2 == 0 || slices == 1)
      && slices > 0 && (slices - 1) * buf.height < info.height <= slices * buf.height
      && info.bufExtraPadding == slices * buf.height - info.height
      && Adjacent()
    }
  }

  /** The set-up of OMXCaptureFrame for a w x h frame in slices of s rows and buffers of stride bs. */
  function SetupFor(w: int, h: int, s: int, bs: int): Setup
    requires h > 0 && s > 0
  {
    Setup(GetFrameInfo(w, h, bs, s), GetFrameInfo(bs, s, -1, -1), SliceCount(h, s))
  }

  /**
   It is sound when the strides are equal, the height is even, and the slice height is even or larger
   than the frame.
   */
  lemma SetupIsSound(w: int, h: int, s: int, bs: int)
    requires w > 0 && h > 0 && s > 0 && h % 2 == 0 && (s % 2 == 0 || s > h)
    requires LumaStride(bs) == LumaStride(w)
    ensures SetupFor(w, h, s, bs).Sound()
  {
    hide LumaStride, ChromaStride, ExtraPadding;
    ChromaStrideFollowsLuma(bs, w);
    PaddingFillsLastSlice(h, s);
    StridesPositive(w);
    PlaneSizesOfEven(w, h);
    PlaneSizesCover(bs, s);
    if s > h {
      OneSlice(h, s);
    }
  }

  lemma OnlySlice(h: int, s: int, n: int)
    requires 0 < h < s && 0 < n && (n - 1) * s < h
    ensures n == 1
  {
    if n > 1 {
      MulLe(1, n - 1, s);
    }
  }

  lemma OneSlice(h: int, s: int)
    requires 0 < h < s
    ensures SliceCount(h, s) == 1
  {
    OnlySlice(h, s, SliceCount(h, s));
  }

  /** The planes of a buffer are at least as large as the rows that the loop counts on. */
  lemma PlaneSizesCover(w: int, h: int)
    requires LumaStride(w) > 0 && ChromaStride(w) > 0 && h > 0
    ensures LumaSize(w, h) >= LumaStride(w) * h && ChromaSize(w, h) >= ChromaStride(w) * (h / 2)
  {
    hide LumaStride, ChromaStride;
    MulLe(h, RoundUp2(h), LumaStride(w));
    MulLe(h / 2, RoundUp2(h) / 2, ChromaStride(w));
  }

  lemma StridesPositive(w: int)
    requires w > 0
    ensures LumaStride(w) > 0 && ChromaStride(w) > 0
  {
  }

  lemma PlaneSizesOfEven(w: int, h: int)
    requires h % 2 == 0
    ensures LumaSize(w, h) == LumaStride(w) * h && ChromaSize(w, h) == ChromaStride(w) * (h / 2)
  {
    hide LumaStride, ChromaStride;
    assert RoundUp2(h) == h;
  }

  // ---- one plane ----------------------------------------------------------------------------

  lemma HalfSlices(n: int, h: int, s: int)
    requires h % 2 == 0 && (s % 2 == 0 || n == 1) && (n - 1) * s < h <= n * s
    ensures (n - 1) * (s / 2) < h / 2 <= n * (s / 2)
    ensures (s - (n * s - h)) / 2 == h / 2 - (n - 1) * (s / 2)
  {
    if n > 1 || s % 2 == 0 {
      var t := s / 2;
      assert s == 2 * t;
      assert (n - 1) * s == 2 * ((n - 1) * t) && n * s == 2 * (n * t) && n * t == (n - 1) * t + t;
    }
  }

  /** The slice heights of each plane, all but the last full. */
  lemma PlaneShape(g: Setup, plane: int)
    requires g.Sound() && 0 <= plane < 3
    ensures g.info.Stride(plane) > 0 && g.Max(plane) > 0 && g.Rows(plane) > 0
    ensures (g.slices - 1) * g.Max(plane) < g.Rows(plane) <= g.slices * g.Max(plane)
    ensures g.SliceRows(g.slices - 1, plane) == g.Rows(plane) - (g.slices - 1) * g.Max(plane)
    ensures forall j :: j != g.slices - 1 ==> g.SliceRows(j, plane) == g.Max(plane)
  {
    HalfSlices(g.slices, g.info.height, g.buf.height);
    assert g.slices * g.buf.height == (g.slices - 1) * g.buf.height + g.buf.height;
  }

  lemma QuotientBounds(q: int, block: int, j: int)
    requires block > 0
    ensures q / block == j <==> j * block <= q < j * block + block
  {
    var d := q / block - j;
    assert q - j * block == d * block + q % block;
    if d > 0 {
      MulLe(1, d, block);
    } else if d < 0 {
      MulLe(d, -1, block);
    }
  }

  lemma QuotientBelow(q: int, block: int, n: int)
    requires block > 0 && 0 <= q < n * block
    ensures 0 <= q / block < n
  {
    assert q == (q / block) * block + q % block;
    if q / block >= n {
      MulLe(n, q / block, block);
    }
  }

  /** The rows of a plane in bytes, counted in blocks of max rows. */
  lemma BytesInBlocks(stride: int, max: int, rows: int, n: int)
    requires stride > 0 && rows <= n * max
    ensures stride * rows <= n * (stride * max)
    ensures stride * (rows - (n - 1) * max) == stride * rows - (n - 1) * (stride * max)
  {
    MulLe(rows, n * max, stride);
    assert stride * (n * max) == n * (stride * max);
    assert stride * ((n - 1) * max) == (n - 1) * (stride * max);
  }

  /** One plane: blocks of max rows, the last one cut off where the rows end. */
  lemma PlaneTiling(stride: int, max: int, rows: int, n: int, j: int, valid: int, q: int)
    requires stride > 0 && max > 0 && rows > 0 && (n - 1) * max < rows <= n * max
    requires 0 <= j < n && valid == (if j == n - 1 then rows - (n - 1) * max else max)
    requires 0 <= q < stride * rows
    ensures 0 < stride * max && 0 <= q / (stride * max) < n
    ensures j * (stride * max) <= q < j * (stride * max) + stride * valid <==> q / (stride * max) == j
  {
    assert 0 < stride * max;
    BytesInBlocks(stride, max, rows, n);
    TilingOfBlocks(stride * max, stride * rows, n, j, stride * valid, q);
  }

  lemma TilingOfBlocks(block: int, total: int, n: int, j: int, size: int, q: int)
    requires block > 0 && total <= n * block && 0 <= j < n && 0 <= q < total
    requires size == if j == n - 1 then total - (n - 1) * block else block
    ensures 0 <= q / block < n
    ensures j * block <= q < j * block + size <==> q / block == j
  {
    QuotientBounds(q, block, j);
    QuotientBelow(q, block, n);
  }

  // ---- tiling -------------------------------------------------------------------------------

  function PlaneOf(g: Setup, index: int): int {
    if index < g.info.pOffset1 then 0 else if index < g.info.pOffset2 then 1 else 2
  }

  /** The slice that carries a byte of the frame. */
  function SliceOf(g: Setup, index: int): int {
    var block := g.Block(PlaneOf(g, index));
    if block > 0 then (index - g.info.Offset(PlaneOf(g, index))) / block else 0
  }

  /** The span of one plane in slice j lies inside that plane of the frame. */
  lemma SpanInPlane(g: Setup, j: nat, plane: int)
    requires g.Sound() && 0 <= plane < 3 && j < g.slices
    ensures 0 <= SpanSize(g.info, g.buf, g.IsLast(j), plane) <= g.Block(plane)
    ensures g.info.Offset(plane) <= DstOffset(g.info, g.buf, j, plane)
    ensures DstOffset(g.info, g.buf, j, plane) + SpanSize(g.info, g.buf, g.IsLast(j), plane)
         <= g.info.Offset(plane) + g.PlaneSize(plane)
  {
    PlaneShape(g, plane);
    BlockInPlane(g.info.Stride(plane), g.Max(plane), g.Rows(plane), g.slices, j, g.SliceRows(j, plane));
  }

  lemma BlockInPlane(stride: int, max: int, rows: int, n: int, j: int, valid: int)
    requires stride > 0 && max > 0 && rows > 0 && (n - 1) * max < rows <= n * max
    requires 0 <= j < n && valid == (if j == n - 1 then rows - (n - 1) * max else max)
    ensures 0 <= stride * valid <= stride * max
    ensures 0 <= j * (stride * max)
    ensures j * (stride * max) + stride * valid <= stride * rows
  {
    SliceEndsInRows(max, rows, n, j, valid);
    MulLe(0, valid, stride);
    MulLe(valid, max, stride);
    MulLe(j * max + valid, rows, stride);
    assert stride * (j * max + valid) == j * (stride * max) + stride * valid;
  }

  /**
   Tiling: every byte of the frame is written by exactly one copy, the one of the plane it lies in
   and of the slice it belongs to.
   */
  lemma CopiesTileTheFrame(g: Setup, index: int, j: nat, plane: int)
    requires g.Sound() && 0 <= plane < 3 && j < g.slices
    requires 0 <= index < g.info.size
    ensures 0 <= SliceOf(g, index) < g.slices
    ensures InSpan(g.info, g.buf, j, g.IsLast(j), plane, index)
       <==> plane == PlaneOf(g, index) && j == SliceOf(g, index)
  {
    var own := PlaneOf(g, index);
    PlaneShape(g, own);
    PlaneTiling(g.info.Stride(own), g.Max(own), g.Rows(own), g.slices, j, g.SliceRows(j, own),
                index - g.info.Offset(own));
    if plane != own {
      SpanInPlane(g, j, plane);
      PlaneSizesPositive(g);
    }
  }

  lemma PlaneSizesPositive(g: Setup)
    requires g.Sound()
    ensures forall plane :: 0 <= plane < 3 ==> g.PlaneSize(plane) > 0 && g.Block(plane) > 0
  {
    PlaneShape(g, 0);
    PlaneShape(g, 1);
  }

  /** Tiling, the other half: no copy leaves the frame or a buffer of buf_info.size bytes. */
  lemma SlicesFit(g: Setup, j: nat, fragment: Fragment)
    requires g.Sound() && j < g.slices
    requires fragment.endOfFrame == g.IsLast(j) && |fragment.data| >= g.buf.size
    ensures FragmentFits(g.info, g.buf, j, fragment, FrameSize(g.info))
  {
    PlaneSizesPositive(g);
    SpanInPlane(g, j, 0);
    SpanInPlane(g, j, 1);
    SpanInPlane(g, j, 2);
  }

  // ---- the size check -----------------------------------------------------------------------

  /** frame_bytes when the k-th buffer of a frame carries the end-of-frame flag and none before it did. */
  function FrameBytesAfter(info: FrameInfo, buf: FrameInfo, k: int): int {
    (k - 1) * BytesCopied(info, buf, false) + BytesCopied(info, buf, true)
  }

  /** The bytes of `rows` luma rows with their chroma rows. */
  function RowBytes(a: int, b: int, rows: int): int {
    a * rows + 2 * (b * (rows / 2))
  }

  lemma RowBytesInjective(a: int, b: int, l: int, m: int)
    requires a > 0 && b > 0
    ensures RowBytes(a, b, l) == RowBytes(a, b, m) <==> l == m
  {
    if l < m {
      assert a * l < a * m;
      MulLe(l / 2, m / 2, b);
    } else if m < l {
      assert a * m < a * l;
      MulLe(m / 2, l / 2, b);
    }
  }

  lemma RowBytesOfSlices(a: int, b: int, s: int, k: int, last: int)
    requires s % 2 == 0
    ensures (k - 1) * RowBytes(a, b, s) + RowBytes(a, b, last) == RowBytes(a, b, (k - 1) * s + last)
  {
    var t := s / 2;
    assert s == 2 * t;
    assert (k - 1) * s == 2 * ((k - 1) * t);
    assert ((k - 1) * s + last) / 2 == (k - 1) * t + last / 2;
    calc {
      (k - 1) * RowBytes(a, b, s);
      (k - 1) * (a * s) + 2 * ((k - 1) * (b * t));
      a * ((k - 1) * s) + 2 * (b * ((k - 1) * t));
    }
  }

  /** The frame a set-up describes: any number of rows, padded up to whole slices of any height. */
  predicate Measured(g: Setup) {
    && g.info.pStride0 > 0 && g.info.pStride1 > 0
    && g.info.height > 0 && g.buf.height > 0
    && g.slices > 0 && (g.slices - 1) * g.buf.height < g.info.height <= g.slices * g.buf.height
    && g.info.bufExtraPadding == g.slices * g.buf.height - g.info.height
    && g.info.size == RowBytes(g.info.pStride0, g.info.pStride1, RoundUp2(g.info.height))
  }

  /** No slice but the last ends within a pair of rows that share their chroma row. */
  predicate Countable(g: Setup) {
    Measured(g) && (g.buf.height % 2 == 0 || g.buf.height > g.info.height)
  }

  lemma SetupIsMeasured(w: int, h: int, s: int, bs: int)
    requires w > 0 && h > 0 && s > 0
    ensures Measured(SetupFor(w, h, s, bs))
  {
    hide LumaStride, ChromaStride, ExtraPadding;
    PaddingFillsLastSlice(h, s);
    StridesPositive(w);
  }

  /** Every set-up with even slices, or with one larger than the frame, is countable, whatever its strides. */
  lemma SetupIsCountable(w: int, h: int, s: int, bs: int)
    requires w > 0 && h > 0 && s > 0 && (s % 2 == 0 || s > h)
    ensures Countable(SetupFor(w, h, s, bs))
  {
    hide Measured;
    SetupIsMeasured(w, h, s, bs);
  }

  /** The luma rows that k buffers bring are the rows of the frame exactly for k == n and even heights. */
  lemma RowsOfSlices(h: int, s: int, n: int, k: int)
    requires s > 0 && s % 2 == 0
    ensures (k - 1) * s + (s - (n * s - h)) == RoundUp2(h) <==> h % 2 == 0 && k == n
  {
    var t, d := s / 2, k - n;
    assert (k - 1) * s + (s - (n * s - h)) == d * s + h;
    assert d * s == 2 * (d * t);
    if d > 0 {
      MulLe(1, d, t);
    } else if d < 0 {
      MulLe(d, -1, t);
    }
  }

  lemma BytesAreRowBytes(info: FrameInfo, buf: FrameInfo, endOfFrame: bool)
    ensures BytesCopied(info, buf, endOfFrame)
         == RowBytes(info.pStride0, info.pStride1, buf.height - if endOfFrame then info.bufExtraPadding else 0)
  {
  }

  /**
   The size check passes exactly for frames with an even number of rows of which no slice is
   missing and none arrived twice.
   */
  lemma SizeCheckExact(g: Setup, k: int)
    requires Countable(g)
    ensures FrameBytesAfter(g.info, g.buf, k) == g.info.size <==> g.info.height % 2 == 0 && k == g.slices
  {
    hide RowBytes, BytesCopied, RoundUp2;
    var a, b, h, s := g.info.pStride0, g.info.pStride1, g.info.height, g.buf.height;
    var last := s - g.info.bufExtraPadding;
    BytesAreRowBytes(g.info, g.buf, false);
    BytesAreRowBytes(g.info, g.buf, true);
    if s % 2 == 0 {
      RowBytesOfSlices(a, b, s, k, last);
      RowBytesInjective(a, b, (k - 1) * s + last, RoundUp2(h));
      RowsOfSlices(h, s, g.slices, k);
    } else {
      OnlySlice(h, s, g.slices);
      OneSliceBytes(a, b, h, s, k);
    }
  }

  /** A slice larger than the frame: the bytes of k of them are those of the frame for k == 1 only. */
  lemma OneSliceBytes(a: int, b: int, h: int, s: int, k: int)
    requires a > 0 && b > 0 && 0 < h < s
    ensures (k - 1) * RowBytes(a, b, s) + RowBytes(a, b, h) == RowBytes(a, b, RoundUp2(h)) <==> h % 2 == 0 && k == 1
  {
    RowBytesInjective(a, b, h, RoundUp2(h));
    RowBytesGrows(a, b, 0, h);
    RowBytesGrows(a, b, h, RoundUp2(h));
    RowBytesGrows(a, b, RoundUp2(h), s);
    hide RowBytes, RoundUp2;
    if k > 1 {
      MulLe(1, k - 1, RowBytes(a, b, s));
    } else if k < 1 {
      MulLe(k - 1, -1, RowBytes(a, b, s));
    }
  }

  lemma RowBytesGrows(a: int, b: int, l: int, m: int)
    requires a > 0 && b > 0 && l <= m
    ensures RowBytes(a, b, l) <= RowBytes(a, b, m)
    ensures l < m ==> RowBytes(a, b, l) < RowBytes(a, b, m)
    ensures RowBytes(a, b, 0) == 0
  {
    MulLe(l, m, a);
    MulLe(l / 2, m / 2, b);
    if l < m {
      MulLe(l + 1, m, a);
    }
  }

  /** A delivery of one frame: the end-of-frame flag is on the last buffer only. */
  predicate OneFrame(fragments: seq<Fragment>) {
    && |fragments| > 0
    && forall j :: 0 <= j < |fragments| ==> (fragments[j].endOfFrame <==> j == |fragments| - 1)
  }

  /** The counters of the loop in the middle of a frame, after k buffers of x bytes each. */
  predicate Counted(st: CaptureState, frameSize: nat, k: nat, x: int) {
    st.Overrun? || (st.Running? && st.bufNum == k && st.frameBytes == k * x
                    && st.offset == 0 && |st.output| == |st.frame| == frameSize)
  }

  lemma StepCounts(info: FrameInfo, buf: FrameInfo, st: CaptureState, fragment: Fragment,
                   frameSize: nat, k: nat, x: int)
    requires Counted(st, frameSize, k, x) && !fragment.endOfFrame && x == BytesCopied(info, buf, false)
    ensures Counted(CaptureStep(info, buf, st, fragment), frameSize, k + 1, x)
  {
    assert (k + 1) * x == k * x + x;
  }

  lemma {:induction false} BytesAccumulate(g: Setup, fragments: seq<Fragment>, k: nat, x: int)
    requires k <= |fragments| && x == BytesCopied(g.info, g.buf, false)
    requires forall j :: 0 <= j < k ==> !fragments[j].endOfFrame
    ensures Counted(CaptureRun(g.info, g.buf, fragments[..k]), FrameSize(g.info), k, x)
  {
    if k > 0 {
      BytesAccumulate(g, fragments, k - 1, x);
      RunOfPrefix(g.info, g.buf, fragments, k - 1);
      StepCounts(g.info, g.buf, CaptureRun(g.info, g.buf, fragments[..k - 1]), fragments[k - 1],
                 FrameSize(g.info), k - 1, x);
    }
  }

  /** What a delivery of one frame leads to, whatever its contents, if no copy leaves its buffers. */
  lemma OneFrameOutcome(g: Setup, fragments: seq<Fragment>)
    requires Countable(g) && OneFrame(fragments)
    ensures var st := CaptureRun(g.info, g.buf, fragments);
      !st.Overrun? ==> (st.Running? <==> g.info.height % 2 == 0 && |fragments| == g.slices)
  {
    hide BytesCopied, FragmentFits, Unpacked, Countable, CaptureRun;
    var last := |fragments| - 1;
    BytesAccumulate(g, fragments, last, BytesCopied(g.info, g.buf, false));
    RunOfPrefix(g.info, g.buf, fragments, last);
    assert fragments[..last + 1] == fragments;
    SizeCheckExact(g, |fragments|);
  }

  /** An early end-of-frame flag makes a copy shorter, so it still fits. */
  lemma EarlyFlagFits(g: Setup, j: nat, fragment: Fragment)
    requires g.Sound() && j < g.slices - 1 && |fragment.data| >= g.buf.size
    ensures FragmentFits(g.info, g.buf, j, fragment, FrameSize(g.info))
  {
    PlaneSizesPositive(g);
    forall plane | 0 <= plane < 3
      ensures 0 <= SpanSize(g.info, g.buf, fragment.endOfFrame, plane) <= g.Block(plane)
    {
      PlaneShape(g, plane);
      MulLe(ValidSpans(g.info, g.buf, fragment.endOfFrame, plane), g.Max(plane), g.info.Stride(plane));
      MulLe(0, ValidSpans(g.info, g.buf, fragment.endOfFrame, plane), g.info.Stride(plane));
    }
    SpanInPlane(g, j, 0);
    SpanInPlane(g, j, 1);
    SpanInPlane(g, j, 2);
  }

  /** The slice after the last one would be copied behind the frame. */
  lemma ExtraSliceDoesNotFit(g: Setup, fragment: Fragment)
    requires g.Sound()
    ensures !FragmentFits(g.info, g.buf, g.slices, fragment, FrameSize(g.info))
  {
    PlaneShape(g, 2);
    PlaneSizesPositive(g);
    BytesInBlocks(g.info.Stride(2), g.Max(2), g.Rows(2), g.slices);
    MulLe(1, ValidSpans(g.info, g.buf, fragment.endOfFrame, 2), g.info.Stride(2));
    assert DstOffset(g.info, g.buf, g.slices, 2) >= g.info.size;
  }

  lemma {:induction false} SlicesFitSoFar(g: Setup, fragments: seq<Fragment>, k: nat)
    requires g.Sound() && OneFrame(fragments) && k < |fragments| && k < g.slices
    requires forall j :: 0 <= j < |fragments| ==> |fragments[j].data| >= g.buf.size
    ensures !CaptureRun(g.info, g.buf, fragments[..k]).Overrun?
  {
    if k > 0 {
      SlicesFitSoFar(g, fragments, k - 1);
      BytesAccumulate(g, fragments, k - 1, BytesCopied(g.info, g.buf, false));
      RunOfPrefix(g.info, g.buf, fragments, k - 1);
      EarlyFlagFits(g, k - 1, fragments[k - 1]);
    }
  }

  /**
   The size check in its loop: a frame that misses slices ends in die, a complete one is returned,
   and one with a slice too many has run over its memory before the check is reached.
   */
  lemma OneFrameOutcomeExact(g: Setup, fragments: seq<Fragment>)
    requires g.Sound() && OneFrame(fragments)
    requires forall j :: 0 <= j < |fragments| ==> |fragments[j].data| >= g.buf.size
    ensures var st := CaptureRun(g.info, g.buf, fragments);
      && (st.Died? <==> |fragments| < g.slices)
      && (st.Running? <==> |fragments| == g.slices)
      && (st.Overrun? <==> |fragments| > g.slices)
  {
    hide BytesCopied, FragmentFits, Unpacked, Countable, CaptureRun;
    var x := BytesCopied(g.info, g.buf, false);
    if |fragments| > g.slices {
      var st := CaptureRun(g.info, g.buf, fragments[..g.slices]);
      BytesAccumulate(g, fragments, g.slices, x);
      RunOfPrefix(g.info, g.buf, fragments, g.slices);
      ExtraSliceDoesNotFit(g, fragments[g.slices]);
      StoppedStaysStopped(g.info, g.buf, fragments, g.slices + 1, CaptureRun(g.info, g.buf, fragments[..g.slices + 1]));
    } else {
      var last := |fragments| - 1;
      SlicesFitSoFar(g, fragments, last);
      BytesAccumulate(g, fragments, last, x);
      RunOfPrefix(g.info, g.buf, fragments, last);
      assert fragments[..last + 1] == fragments;
      if last == g.slices - 1 {
        SlicesFit(g, last, fragments[last]);
      } else {
        EarlyFlagFits(g, last, fragments[last]);
      }
      SoundIsCountable(g);
      OneFrameOutcome(g, fragments);
    }
  }

  // ---- the round trip -----------------------------------------------------------------------

  /** Index of the byte at (row, col) of a plane, in a frame and in a buffer. */
  function FrameIndex(g: Setup, plane: int, row: int, col: int): int {
    g.info.Offset(plane) + row * g.info.Stride(plane) + col
  }

  function BufferIndex(g: Setup, plane: int, row: int, col: int): int {
    g.buf.Offset(plane) + row * g.buf.Stride(plane) + col
  }

  /**
   The camera puts rows j * max, j * max + 1, ... of every plane into buffer j, one stride of the buffer
   apart; the space of rows and columns that the frame does not have holds anything.
   */
  predicate HoldsSlice(g: Setup, picture: seq<byte>, j: nat, data: seq<byte>)
    requires |picture| == FrameSize(g.info)
  {
    && |data| >= g.buf.size
    && forall plane, row, col | 0 <= plane < 3 && 0 <= row < g.Max(plane) && 0 <= col < g.info.Stride(plane)
         && col < g.buf.Stride(plane) && j * g.Max(plane) + row < g.Rows(plane)
         && 0 <= BufferIndex(g, plane, row, col) < |data|
         && 0 <= FrameIndex(g, plane, j * g.Max(plane) + row, col) < |picture| ::
         data[BufferIndex(g, plane, row, col)] == picture[FrameIndex(g, plane, j * g.Max(plane) + row, col)]
  }

  /** The frame, cut into slices and delivered in order. */
  predicate IsCut(g: Setup, picture: seq<byte>, fragments: seq<Fragment>)
    requires |picture| == FrameSize(g.info)
  {
    && OneFrame(fragments) && |fragments| == g.slices
    && forall j :: 0 <= j < |fragments| ==> HoldsSlice(g, picture, j, fragments[j].data)
  }

  /** Where the copy of slice j takes a byte of its span from, the buffer holds the byte of the frame. */
  lemma SourceByte(g: Setup, picture: seq<byte>, j: nat, data: seq<byte>, plane: int, index: int)
    requires g.Sound() && 0 <= plane < 3 && j < g.slices
    requires |picture| == FrameSize(g.info) && HoldsSlice(g, picture, j, data)
    requires InSpan(g.info, g.buf, j, g.IsLast(j), plane, index)
    ensures 0 <= index < |picture|
    ensures var source := g.buf.Offset(plane) + (index - DstOffset(g.info, g.buf, j, plane));
      0 <= source < |data| && data[source] == picture[index]
  {
    var stride, max := g.info.Stride(plane), g.Max(plane);
    var q := index - DstOffset(g.info, g.buf, j, plane);
    var row, col := q / stride, q % stride;
    PlaneShape(g, plane);
    PlaneSizesPositive(g);
    SpanInPlane(g, j, plane);
    RowOfSpan(stride, max, g.Rows(plane), g.slices, j, g.SliceRows(j, plane), q);
    assert BufferIndex(g, plane, row, col) == g.buf.Offset(plane) + q;
    assert FrameIndex(g, plane, j * max + row, col) == index;
    assert 0 <= index < |picture|;
  }

  lemma RowOfSpan(stride: int, max: int, rows: int, n: int, j: int, valid: int, q: int)
    requires stride > 0 && max > 0 && rows > 0 && (n - 1) * max < rows <= n * max
    requires 0 <= j < n && valid == (if j == n - 1 then rows - (n - 1) * max else max)
    requires 0 <= q < stride * valid
    ensures var row, col := q / stride, q % stride;
      && 0 <= row < max && 0 <= col < stride && j * max + row < rows
      && row * stride + col == q
      && (j * max + row) * stride + col == j * (stride * max) + q
  {
    var row, col := q / stride, q % stride;
    assert q == row * stride + col;
    QuotientBelow(q, stride, valid);
    SliceEndsInRows(max, rows, n, j, valid);
    RowsInBytes(stride, max, j, row);
  }

  lemma RowsInBytes(stride: int, max: int, j: int, row: int)
    ensures (j * max + row) * stride == j * (stride * max) + row * stride
  {
  }

  lemma SliceEndsInRows(max: int, rows: int, n: int, j: int, valid: int)
    requires max > 0 && (n - 1) * max < rows <= n * max
    requires 0 <= j < n && valid == (if j == n - 1 then rows - (n - 1) * max else max)
    ensures valid <= max && j * max + valid <= rows
  {
    assert n * max == (n - 1) * max + max;
    if j < n - 1 {
      MulLe(j + 1, n - 1, max);
    }
  }

  /** Unpacking slice j sets exactly the bytes of slice j. */
  lemma UnpackedAt(g: Setup, picture: seq<byte>, frame: seq<byte>, j: nat, fragment: Fragment, index: int)
    requires g.Sound() && j < g.slices && fragment.endOfFrame == g.IsLast(j)
    requires |frame| == |picture| == FrameSize(g.info) && HoldsSlice(g, picture, j, fragment.data)
    requires 0 <= index < g.info.size
    ensures FragmentFits(g.info, g.buf, j, fragment, |frame|)
    ensures Unpacked(frame, g.info, g.buf, j, fragment, 3)[index]
         == if SliceOf(g, index) == j then picture[index] else frame[index]
  {
    hide InSpan, SliceOf, FragmentFits, DstOffset, SpanSize, HoldsSlice, Unpacked;
    HeldDataSize(g, picture, j, fragment.data);
    var own := PlaneOf(g, index);
    SlicesFit(g, j, fragment);
    CopiesTileTheFrame(g, index, j, 0);
    CopiesTileTheFrame(g, index, j, 1);
    CopiesTileTheFrame(g, index, j, 2);
    if SliceOf(g, index) == j {
      SourceByte(g, picture, j, fragment.data, own, index);
    }
    NothingUnpacked(g, frame, j, fragment);
    UnpackedByPlane(g, frame, j, fragment, index, 0);
    UnpackedByPlane(g, frame, j, fragment, index, 1);
    UnpackedByPlane(g, frame, j, fragment, index, 2);
  }

  lemma HeldDataSize(g: Setup, picture: seq<byte>, j: nat, data: seq<byte>)
    requires |picture| == FrameSize(g.info) && HoldsSlice(g, picture, j, data)
    ensures |data| >= g.buf.size
  {
  }

  lemma NothingUnpacked(g: Setup, frame: seq<byte>, j: nat, fragment: Fragment)
    requires FragmentFits(g.info, g.buf, j, fragment, |frame|)
    ensures Unpacked(frame, g.info, g.buf, j, fragment, 0) == frame
  {
  }

  lemma UnpackedByPlane(g: Setup, frame: seq<byte>, j: nat, fragment: Fragment, index: int, plane: nat)
    requires plane < 3 && FragmentFits(g.info, g.buf, j, fragment, |frame|) && 0 <= index < |frame|
    ensures Unpacked(frame, g.info, g.buf, j, fragment, plane + 1)[index]
         == if InSpan(g.info, g.buf, j, fragment.endOfFrame, plane, index)
            then fragment.data[g.buf.Offset(plane) + (index - DstOffset(g.info, g.buf, j, plane))]
            else Unpacked(frame, g.info, g.buf, j, fragment, plane)[index]
  {
  }

  /** The bytes of the first j slices are in place. */
  predicate Rebuilt(g: Setup, picture: seq<byte>, frame: seq<byte>, j: nat) {
    && |frame| == |picture| == FrameSize(g.info)
    && forall index :: 0 <= index < |picture| && SliceOf(g, index) < j ==> frame[index] == picture[index]
  }

  lemma UnpackExtendsRebuilt(g: Setup, picture: seq<byte>, frame: seq<byte>, j: nat, fragment: Fragment)
    requires g.Sound() && j < g.slices && fragment.endOfFrame == g.IsLast(j)
    requires Rebuilt(g, picture, frame, j) && HoldsSlice(g, picture, j, fragment.data)
    ensures FragmentFits(g.info, g.buf, j, fragment, |frame|)
    ensures Rebuilt(g, picture, Unpacked(frame, g.info, g.buf, j, fragment, 3), j + 1)
  {
    SlicesFit(g, j, fragment);
    var next := Unpacked(frame, g.info, g.buf, j, fragment, 3);
    forall index | 0 <= index < |picture| && SliceOf(g, index) < j + 1
      ensures next[index] == picture[index]
    {
      UnpackedAt(g, picture, frame, j, fragment, index);
    }
  }

  lemma {:induction false} SlicesRebuild(g: Setup, picture: seq<byte>, fragments: seq<Fragment>, k: nat)
    requires g.Sound() && |picture| == FrameSize(g.info) && IsCut(g, picture, fragments)
    requires k < g.slices
    ensures var st := CaptureRun(g.info, g.buf, fragments[..k]);
      && st.Running? && st.bufNum == k && st.offset == 0
      && st.output == Zeros(|picture|) && Rebuilt(g, picture, st.frame, k)
  {
    if k == 0 {
      PlaneSizesPositive(g);
      forall index | 0 <= index < |picture|
        ensures SliceOf(g, index) >= 0
      {
        CopiesTileTheFrame(g, index, 0, 0);
      }
    } else {
      SlicesRebuild(g, picture, fragments, k - 1);
      var st := CaptureRun(g.info, g.buf, fragments[..k - 1]);
      RunOfPrefix(g.info, g.buf, fragments, k - 1);
      UnpackExtendsRebuilt(g, picture, st.frame, k - 1, fragments[k - 1]);
    }
  }

  /** All slices together are the whole frame. */
  lemma RebuiltIsWhole(g: Setup, picture: seq<byte>, frame: seq<byte>)
    requires g.Sound() && Rebuilt(g, picture, frame, g.slices)
    ensures frame == picture
  {
    PlaneSizesPositive(g);
    forall index | 0 <= index < |picture|
      ensures frame[index] == picture[index]
    {
      CopiesTileTheFrame(g, index, 0, 0);
    }
  }

  /**
   The round trip: cut a frame into slices, deliver them in order with the end-of-frame flag on
   the last, and the capture loop returns the frame, ready for the next one.
   */
  lemma CaptureRoundTrip(g: Setup, picture: seq<byte>, fragments: seq<Fragment>)
    requires g.Sound() && |picture| == FrameSize(g.info) && IsCut(g, picture, fragments)
    ensures CaptureRun(g.info, g.buf, fragments) == Running(Zeros(|picture|), picture, 0, 0, |picture|)
  {
    var last := g.slices - 1;
    SlicesRebuild(g, picture, fragments, last);
    var st := CaptureRun(g.info, g.buf, fragments[..last]);
    RunOfPrefix(g.info, g.buf, fragments, last);
    assert fragments[..last + 1] == fragments;
    UnpackExtendsRebuilt(g, picture, st.frame, last, fragments[last]);
    var frame := Unpacked(st.frame, g.info, g.buf, last, fragments[last], 3);
    RebuiltIsWhole(g, picture, frame);
    SoundIsCountable(g);
    OneFrameOutcome(g, fragments);
    assert Spliced(st.output, 0, frame, 0, |frame|) == picture;
  }

  lemma SoundIsCountable(g: Setup)
    requires g.Sound()
    ensures Countable(g)
  {
    var a, b, h := g.info.pStride0, g.info.pStride1, g.info.height;
    assert RowBytes(a, b, h) == a * h + 2 * (b * (h / 2));
  }

  // ---- cutting is always possible -----------------------------------------------------------

  /** A slice of the frame with zeros where the frame has no rows. */
  function SliceData(g: Setup, picture: seq<byte>, j: nat): seq<byte> {
    seq(FrameSize(g.buf), (k: nat) =>
      var plane := if k < g.buf.pOffset1 then 0 else if k < g.buf.pOffset2 then 1 else 2;
      var source := g.info.Offset(plane) + j * g.Block(plane) + (k - g.buf.Offset(plane));
      if 0 <= source < |picture| then picture[source] else 0)
  }

  lemma CellOfSlice(stride: int, max: int, j: int, row: int, col: int)
    requires 0 <= row < max && 0 <= col < stride
    ensures 0 <= row * stride + col < stride * max
    ensures (j * max + row) * stride + col == j * (stride * max) + (row * stride + col)
  {
    MulLe(row + 1, max, stride);
    assert stride * (row + 1) == row * stride + stride;
    assert (j * max + row) * stride == j * (stride * max) + row * stride;
  }

  lemma SliceDataAt(g: Setup, picture: seq<byte>, j: nat, plane: int, row: int, col: int)
    requires g.Sound() && 0 <= plane < 3 && 0 <= row < g.Max(plane) && 0 <= col < g.info.Stride(plane)
    requires 0 <= FrameIndex(g, plane, j * g.Max(plane) + row, col) < |picture|
    ensures 0 <= BufferIndex(g, plane, row, col) < FrameSize(g.buf)
    ensures SliceData(g, picture, j)[BufferIndex(g, plane, row, col)]
         == picture[FrameIndex(g, plane, j * g.Max(plane) + row, col)]
  {
    CellOfSlice(g.info.Stride(plane), g.Max(plane), j, row, col);
    PlaneSizesPositive(g);
    var k := BufferIndex(g, plane, row, col);
    assert g.buf.Offset(plane) <= k < g.buf.Offset(plane) + g.Block(plane);
    assert FrameIndex(g, plane, j * g.Max(plane) + row, col)
        == g.info.Offset(plane) + j * g.Block(plane) + (k - g.buf.Offset(plane));
  }

  /** Every frame has a cut, so the round trip speaks about all frames. */
  lemma EveryFrameHasACut(g: Setup, picture: seq<byte>)
    requires g.Sound() && |picture| == FrameSize(g.info)
    ensures IsCut(g, picture, seq(g.slices, j requires 0 <= j => Fragment(SliceData(g, picture, j), j == g.slices - 1)))
  {
    PlaneSizesPositive(g);
    forall j: nat, plane, row, col | 0 <= plane < 3 && 0 <= row < g.Max(plane) && 0 <= col < g.info.Stride(plane)
      && 0 <= FrameIndex(g, plane, j * g.Max(plane) + row, col) < |picture|
      ensures 0 <= BufferIndex(g, plane, row, col) < FrameSize(g.buf)
      ensures SliceData(g, picture, j)[BufferIndex(g, plane, row, col)]
           == picture[FrameIndex(g, plane, j * g.Max(plane) + row, col)]
    {
      SliceDataAt(g, picture, j, plane, row, col);
    }
  }
}
