/**
 The size check of the capture loop for slices of any height: when it is right, and what it lets
 pass when it is not. The slice height is whatever the camera component reports.
 */
module SizeCheck {
  import opened Bytes
  import opened I420Layout
  import opened FrameUnpack
  import opened FrameRoundTrip
  import opened Planes

  /** The planes of the frame follow each other, and a buffer has room for a whole slice. */
  predicate Roomy(g: Setup) {
    && g.info.pOffset1 == g.info.pStride0 * RoundUp2(g.info.height)
    && g.info.pOffset2 == g.info.pOffset1 + g.info.pStride1 * (RoundUp2(g.info.height) / 2)
    && g.buf.pOffset1 >= g.Block(0)
    && g.buf.pOffset2 >= g.buf.pOffset1 + g.Block(1)
    && g.buf.size >= g.buf.pOffset2 + g.Block(2)
  }

  lemma SetupIsRoomy(w: int, h: int, s: int, bs: int)
    requires w > 0 && h > 0 && s > 0 && LumaStride(bs) == LumaStride(w)
    ensures Roomy(SetupFor(w, h, s, bs))
  {
    hide LumaStride, ChromaStride, ExtraPadding;
    ChromaStrideFollowsLuma(bs, w);
    StridesPositive(w);
    PlaneSizesCover(bs, s);
  }

  // ---- the rows that arrive -----------------------------------------------------------------

  /** Luma and chroma rows copied from k buffers, the last of which has `last` luma rows. */
  function LumaRows(s: int, last: int, k: int): int {
    (k - 1) * s + last
  }

  function ChromaRows(s: int, last: int, k: int): int {
    (k - 1) * (s / 2) + last / 2
  }

  lemma BytesOfRows(a: int, b: int, s: int, last: int, k: int)
    ensures (k - 1) * RowBytes(a, b, s) + RowBytes(a, b, last)
         == a * LumaRows(s, last, k) + 2 * (b * ChromaRows(s, last, k))
  {
    calc {
      (k - 1) * RowBytes(a, b, s);
      (k - 1) * (a * s) + 2 * ((k - 1) * (b * (s / 2)));
      a * ((k - 1) * s) + 2 * (b * ((k - 1) * (s / 2)));
    }
    assert a * LumaRows(s, last, k) == a * ((k - 1) * s) + a * last;
    assert b * ChromaRows(s, last, k) == b * ((k - 1) * (s / 2)) + b * (last / 2);
  }

  /** Every slice of odd height costs half a chroma row. */
  lemma ChromaRowsLost(s: int, last: int, k: int)
    requires s > 0 && last > 0 && k >= 1
    ensures 0 <= 2 * ChromaRows(s, last, k) <= LumaRows(s, last, k)
    ensures s % 2 == 1 ==> 2 * ChromaRows(s, last, k) <= LumaRows(s, last, k) - (k - 1)
  {
    var t := s / 2;
    MulLe(0, k - 1, t);
    assert s == 2 * t + s % 2;
    assert (k - 1) * s == 2 * ((k - 1) * t) + (k - 1) * (s % 2);
    MulLe(0, s % 2, k - 1);
  }

  /** The byte count of k buffers, in rows. */
  lemma FrameBytesInRows(g: Setup, k: int)
    requires Measured(g)
    ensures var a, b, s, last := g.info.pStride0, g.info.pStride1, g.buf.height, g.buf.height - g.info.bufExtraPadding;
      FrameBytesAfter(g.info, g.buf, k) == a * LumaRows(s, last, k) + 2 * (b * ChromaRows(s, last, k))
  {
    hide RowBytes, BytesCopied, LumaRows, ChromaRows;
    BytesAreRowBytes(g.info, g.buf, false);
    BytesAreRowBytes(g.info, g.buf, true);
    BytesOfRows(g.info.pStride0, g.info.pStride1, g.buf.height, g.buf.height - g.info.bufExtraPadding, k);
  }

  lemma LastRows(g: Setup)
    requires Measured(g)
    ensures var last := g.buf.height - g.info.bufExtraPadding;
      0 < last <= g.buf.height && last <= g.info.height && LumaRows(g.buf.height, last, g.slices) == g.info.height
  {
    assert g.slices * g.buf.height == (g.slices - 1) * g.buf.height + g.buf.height;
    MulLe(0, g.slices - 1, g.buf.height);
  }

  /** Fewer luma rows, or as many and fewer chroma rows, are fewer bytes. */
  lemma FewerBytes(a: int, b: int, l: int, c: int, m: int, d: int)
    requires a > 0 && b > 0 && l <= m && c <= d && (l < m || c < d)
    ensures a * l + 2 * (b * c) < a * m + 2 * (b * d)
  {
    MulLe(l, m, a);
    MulLe(c, d, b);
    if l < m {
      MulLe(l + 1, m, a);
    } else {
      MulLe(c + 1, d, b);
    }
  }

  // ---- when the check is right --------------------------------------------------------------

  /**
   A complete frame passes exactly when its height is even and its slices have an even height or are
   larger than the frame. Otherwise the capture of every complete frame ends in die.
   */
  lemma CompleteFramePassesExactly(g: Setup)
    requires Measured(g)
    ensures FrameBytesAfter(g.info, g.buf, g.slices) == g.info.size
       <==> g.info.height % 2 == 0 && (g.buf.height % 2 == 0 || g.buf.height > g.info.height)
  {
    var h, s := g.info.height, g.buf.height;
    hide FrameBytesAfter;
    if s % 2 == 0 || s > h {
      hide Measured;
      SizeCheckExact(g, g.slices);
    } else {
      LastRows(g);
      FrameBytesInRows(g, g.slices);
      var last := s - g.info.bufExtraPadding;
      ChromaRowsLost(s, last, g.slices);
      hide LumaRows, ChromaRows;
      assert h == s ==> RoundUp2(h) == h + 1;
      FewerBytes(g.info.pStride0, g.info.pStride1, h, ChromaRows(s, last, g.slices), RoundUp2(h), RoundUp2(h) / 2);
    }
  }

  /**
   The check tells complete frames from all others exactly under the same condition: an even height, and
   slices that have an even height or are larger than the frame.
   */
  lemma SizeCheckRightExactly(w: int, h: int, s: int, bs: int)
    requires w > 0 && h > 0 && s > 0
    ensures var g := SetupFor(w, h, s, bs);
      (forall k :: k >= 1 ==> (FrameBytesAfter(g.info, g.buf, k) == g.info.size <==> k == SliceCount(h, s)))
      <==> h % 2 == 0 && (s % 2 == 0 || s > h)
  {
    var g := SetupFor(w, h, s, bs);
    SetupIsMeasured(w, h, s, bs);
    hide FrameBytesAfter, Measured;
    CompleteFramePassesExactly(g);
    if h % 2 == 0 && (s % 2 == 0 || s > h) {
      forall k | k >= 1
        ensures FrameBytesAfter(g.info, g.buf, k) == g.info.size <==> k == SliceCount(h, s)
      {
        SizeCheckExact(g, k);
      }
    } else {
      assert g.slices >= 1 && FrameBytesAfter(g.info, g.buf, g.slices) != g.info.size;
    }
  }

  /** Some number of slices other than the right one adds up to the size of the frame. */
  ghost predicate WrongCountPasses(g: Setup) {
    exists k :: k >= 1 && k != g.slices && FrameBytesAfter(g.info, g.buf, k) == g.info.size
  }

  /**
   When the check is not right, a wrong number of slices passes exactly when the bytes missing from one
   last slice are a multiple of those of a whole slice.
   */
  lemma WrongCountPassesExactly(g: Setup)
    requires Measured(g)
    ensures BytesCopied(g.info, g.buf, false) > 0
    ensures WrongCountPasses(g)
       <==> !(g.info.height % 2 == 0 && (g.buf.height % 2 == 0 || g.buf.height > g.info.height))
            && (g.info.size - BytesCopied(g.info, g.buf, true)) % BytesCopied(g.info, g.buf, false) == 0
  {
    SliceBytes(g);
    CompleteFramePassesExactly(g);
    hide Measured, BytesCopied, FrameBytesAfter;
    if g.info.height % 2 == 0 && (g.buf.height % 2 == 0 || g.buf.height > g.info.height) {
      forall k ensures FrameBytesAfter(g.info, g.buf, k) == g.info.size ==> k == g.slices {
        CountableOf(g);
        SizeCheckExact(g, k);
      }
    } else if WrongCountPasses(g) {
      var k :| k >= 1 && k != g.slices && FrameBytesAfter(g.info, g.buf, k) == g.info.size;
      CountIsQuotient(g, k);
    } else {
      var k := (g.info.size - BytesCopied(g.info, g.buf, true)) / BytesCopied(g.info, g.buf, false) + 1;
      CountIsQuotient(g, k);
    }
  }

  lemma CountIsQuotient(g: Setup, k: int)
    requires BytesCopied(g.info, g.buf, false) > 0 && BytesCopied(g.info, g.buf, true) <= g.info.size
    ensures var rest, whole := g.info.size - BytesCopied(g.info, g.buf, true), BytesCopied(g.info, g.buf, false);
      && rest / whole >= 0
      && (FrameBytesAfter(g.info, g.buf, k) == g.info.size <==> k == rest / whole + 1 && rest % whole == 0)
  {
    hide BytesCopied;
    Quotient(g.info.size - BytesCopied(g.info, g.buf, true), BytesCopied(g.info, g.buf, false), k - 1);
  }

  lemma Quotient(rest: int, whole: int, q: int)
    requires rest >= 0 && whole > 0
    ensures rest / whole >= 0
    ensures q * whole == rest <==> q == rest / whole && rest % whole == 0
  {
    QuotientBounds(rest, whole, q);
    assert rest == whole * (rest / whole) + rest % whole;
  }

  lemma CountableOf(g: Setup)
    requires Measured(g) && (g.buf.height % 2 == 0 || g.buf.height > g.info.height)
    ensures Countable(g)
  {
  }

  lemma SliceBytes(g: Setup)
    requires Measured(g)
    ensures BytesCopied(g.info, g.buf, false) > 0
    ensures 0 < BytesCopied(g.info, g.buf, true) <= g.info.size
  {
    var a, b, s, last := g.info.pStride0, g.info.pStride1, g.buf.height, g.buf.height - g.info.bufExtraPadding;
    LastRows(g);
    BytesAreRowBytes(g.info, g.buf, false);
    BytesAreRowBytes(g.info, g.buf, true);
    RowBytesGrows(a, b, 0, s);
    RowBytesGrows(a, b, 0, last);
    RowBytesGrows(a, b, last, RoundUp2(g.info.height));
  }

  // ---- the check in its loop ----------------------------------------------------------------

  /** If k buffers bring the bytes of the frame, they bring no more chroma rows than it has. */
  lemma ChromaRowsFit(a: int, b: int, l: int, c: int, r: int)
    requires a > 0 && b > 0 && 0 <= 2 * c <= l && r >= 0 && r % 2 == 0
    requires a * l + 2 * (b * c) == a * r + 2 * (b * (r / 2))
    ensures c <= r / 2
  {
    if c > r / 2 {
      FewerBytes(a, b, r, r / 2, l, c);
    }
  }

  /** The rows of k slices have room in the frame. */
  predicate RowsFit(g: Setup, k: int) {
    var s, last, r := g.buf.height, g.buf.height - g.info.bufExtraPadding, RoundUp2(g.info.height);
    g.info.pStride0 * LumaRows(s, last, k) <= g.info.size && 0 <= ChromaRows(s, last, k) <= r / 2
  }

  lemma RowsFitBySize(g: Setup, k: int)
    requires Measured(g) && k >= 1 && FrameBytesAfter(g.info, g.buf, k) == g.info.size
    ensures RowsFit(g, k)
  {
    var a, b, s, last := g.info.pStride0, g.info.pStride1, g.buf.height, g.buf.height - g.info.bufExtraPadding;
    LastRows(g);
    FrameBytesInRows(g, k);
    ChromaRowsLost(s, last, k);
    ChromaRowsFit(a, b, LumaRows(s, last, k), ChromaRows(s, last, k), RoundUp2(g.info.height));
    hide LumaRows, ChromaRows, FrameBytesAfter;
    MulLe(0, ChromaRows(s, last, k), b);
  }

  /** The rows of a complete frame have room whatever the slice height is. */
  lemma RowsFitWhenComplete(g: Setup)
    requires Measured(g)
    ensures RowsFit(g, g.slices)
  {
    var s, last, r := g.buf.height, g.buf.height - g.info.bufExtraPadding, RoundUp2(g.info.height);
    LastRows(g);
    ChromaRowsLost(s, last, g.slices);
    hide LumaRows, ChromaRows;
    MulLe(g.info.height, r, g.info.pStride0);
    MulLe(0, r / 2, g.info.pStride1);
  }

  /** Slice j of k fits when the rows of all k do. */
  lemma SliceFitsByRows(g: Setup, k: nat, j: nat, fragment: Fragment)
    requires Measured(g) && Roomy(g) && j < k && RowsFit(g, k)
    requires |fragment.data| >= g.buf.size && fragment.endOfFrame == (j == k - 1)
    ensures FragmentFits(g.info, g.buf, j, fragment, FrameSize(g.info))
  {
    var a, b, s, last := g.info.pStride0, g.info.pStride1, g.buf.height, g.buf.height - g.info.bufExtraPadding;
    var l, c, r := LumaRows(s, last, k), ChromaRows(s, last, k), RoundUp2(g.info.height);
    var valid := if j == k - 1 then last else s;
    LastRows(g);
    RowsEnd(s, last, j, k);
    RowsEnd(s / 2, last / 2, j, k);
    SpanFits(a, s, valid, j, l);
    SpanFits(b, s / 2, valid / 2, j, c);
    MulLe(c, r / 2, b);
    MulLe(0, c, b);
    PlanesFit(g, j, fragment, valid, a * l, b * c);
  }

  /** Slice j ends within the rows of all k slices. */
  lemma RowsEnd(s: int, last: int, j: nat, k: nat)
    requires s >= 0 && last >= 0 && j < k
    ensures j * s + (if j == k - 1 then last else s) <= (k - 1) * s + last
  {
    if j < k - 1 {
      MulLe(j + 1, k - 1, s);
    }
  }

  lemma SpanFits(stride: int, s: int, valid: int, j: nat, rows: int)
    requires stride > 0 && 0 <= valid <= s && j * s + valid <= rows
    ensures 0 <= stride * valid <= stride * s
    ensures 0 <= j * (stride * s)
    ensures j * (stride * s) + stride * valid <= stride * rows
  {
    MulLe(0, valid, stride);
    MulLe(valid, s, stride);
    MulLe(j * s + valid, rows, stride);
    assert stride * (j * s + valid) == j * (stride * s) + stride * valid;
  }

  lemma PlanesFit(g: Setup, j: nat, fragment: Fragment, valid: int, luma: int, chroma: int)
    requires Roomy(g) && |fragment.data| >= g.buf.size
    requires valid == g.buf.height - (if fragment.endOfFrame then g.info.bufExtraPadding else 0)
    requires var a, b, s := g.info.pStride0, g.info.pStride1, g.buf.height;
      && 0 <= a * valid <= a * s && 0 <= j * (a * s) && j * (a * s) + a * valid <= luma <= g.info.size
      && 0 <= b * (valid / 2) <= b * (s / 2) && 0 <= j * (b * (s / 2))
      && j * (b * (s / 2)) + b * (valid / 2) <= chroma
    requires 0 <= g.info.pOffset1 && 0 <= chroma <= g.info.pStride1 * (RoundUp2(g.info.height) / 2)
    requires g.info.size == g.info.pOffset2 + g.info.pStride1 * (RoundUp2(g.info.height) / 2)
    ensures FragmentFits(g.info, g.buf, j, fragment, FrameSize(g.info))
  {
    hide RoundUp2;
  }

  lemma {:induction false} FitsSoFar(g: Setup, fragments: seq<Fragment>, k: nat)
    requires Measured(g) && Roomy(g) && OneFrame(fragments) && k < |fragments| && RowsFit(g, |fragments|)
    requires forall j :: 0 <= j < |fragments| ==> |fragments[j].data| >= g.buf.size
    ensures !CaptureRun(g.info, g.buf, fragments[..k]).Overrun?
  {
    hide BytesCopied, FragmentFits, Unpacked, Measured, Roomy, RowsFit;
    if k > 0 {
      FitsSoFar(g, fragments, k - 1);
      BytesAccumulate(g, fragments, k - 1, BytesCopied(g.info, g.buf, false));
      RunOfPrefix(g.info, g.buf, fragments, k - 1);
      SliceFitsByRows(g, |fragments|, k - 1, fragments[k - 1]);
    }
  }

  /** Whether the byte count is right decides between success and die, if the rows fit. */
  lemma OutcomeBySize(g: Setup, fragments: seq<Fragment>)
    requires Measured(g) && Roomy(g) && OneFrame(fragments) && RowsFit(g, |fragments|)
    requires forall j :: 0 <= j < |fragments| ==> |fragments[j].data| >= g.buf.size
    ensures var st := CaptureRun(g.info, g.buf, fragments);
      if FrameBytesAfter(g.info, g.buf, |fragments|) == g.info.size then st.Running? else st.Died?
  {
    hide BytesCopied, FragmentFits, Unpacked, Measured, Roomy, CaptureRun, RowsFit;
    var last := |fragments| - 1;
    FitsSoFar(g, fragments, last);
    BytesAccumulate(g, fragments, last, BytesCopied(g.info, g.buf, false));
    RunOfPrefix(g.info, g.buf, fragments, last);
    assert fragments[..last + 1] == fragments;
    SliceFitsByRows(g, |fragments|, last, fragments[last]);
  }

  lemma WrongSizeIsNotCaptured(g: Setup, fragments: seq<Fragment>)
    requires OneFrame(fragments) && FrameBytesAfter(g.info, g.buf, |fragments|) != g.info.size
    ensures !CaptureRun(g.info, g.buf, fragments).Running?
  {
    hide BytesCopied, FragmentFits, Unpacked;
    var last := |fragments| - 1;
    BytesAccumulate(g, fragments, last, BytesCopied(g.info, g.buf, false));
    RunOfPrefix(g.info, g.buf, fragments, last);
    assert fragments[..last + 1] == fragments;
  }

  /**
   The size check in its loop, for slices of any height: a delivery of one frame is accepted, whatever
   it contains, if and only if its buffers bring the bytes of the frame.
   */
  lemma AcceptedBySizeExactly(g: Setup, fragments: seq<Fragment>)
    requires Measured(g) && Roomy(g) && OneFrame(fragments)
    requires forall j :: 0 <= j < |fragments| ==> |fragments[j].data| >= g.buf.size
    ensures CaptureRun(g.info, g.buf, fragments).Running?
       <==> FrameBytesAfter(g.info, g.buf, |fragments|) == g.info.size
  {
    hide Measured, Roomy, CaptureRun, FrameBytesAfter, RowsFit;
    if FrameBytesAfter(g.info, g.buf, |fragments|) == g.info.size {
      RowsFitBySize(g, |fragments|);
      OutcomeBySize(g, fragments);
    } else {
      WrongSizeIsNotCaptured(g, fragments);
    }
  }

  /** So a complete frame is captured exactly under that condition, and otherwise ends in die. */
  lemma CompleteFrameOutcomeExact(w: int, h: int, s: int, bs: int, fragments: seq<Fragment>)
    requires w > 0 && h > 0 && s > 0 && LumaStride(bs) == LumaStride(w)
    requires OneFrame(fragments) && |fragments| == SliceCount(h, s)
    requires forall j :: 0 <= j < |fragments| ==> |fragments[j].data| >= SetupFor(w, h, s, bs).buf.size
    ensures var g := SetupFor(w, h, s, bs);
      var st := CaptureRun(g.info, g.buf, fragments);
      if h % 2 == 0 && (s % 2 == 0 || s > h) then st.Running? else st.Died?
  {
    var g := SetupFor(w, h, s, bs);
    SetupIsMeasured(w, h, s, bs);
    SetupIsRoomy(w, h, s, bs);
    hide Measured, Roomy, CaptureRun, FrameBytesAfter, RowsFit;
    RowsFitWhenComplete(g);
    OutcomeBySize(g, fragments);
    CompleteFramePassesExactly(g);
  }

  // ---- a frame that passes by mistake -------------------------------------------------------

  /** The set-up of a two-row frame in slices of one row: two slices. */
  function OneRowSlices(): Setup {
    Setup(FrameInfo(8, 2, 24, 8, 1, 0, 16, 20, 8, 4), FrameInfo(8, 1, 24, -1, -1, -1, 16, 20, 8, 4), 2)
  }

  /** Three of the two slices are accepted. */
  lemma OddSlicesDefeatTheSizeCheck(fragments: seq<Fragment>)
    requires OneFrame(fragments) && |fragments| == 3
    requires forall j :: 0 <= j < 3 ==> |fragments[j].data| >= OneRowSlices().buf.size
    ensures CaptureRun(OneRowSlices().info, OneRowSlices().buf, fragments).Running?
  {
    hide CaptureRun;
    AcceptedBySizeExactly(OneRowSlices(), fragments);
  }

  /** Its numbers are those that the source computes for an 8 x 2 frame. */
  lemma OneRowSetup()
    ensures SetupFor(8, 2, 1, 8) == OneRowSlices()
  {
    hide LumaStride, ChromaStride, LumaSize, ChromaSize, ExtraPadding, SliceCount;
    OneRowStrides();
    PlaneSizesOfEven(8, 2);
    OneRowSizes();
    OneRowCounts();
  }

  lemma OneRowStrides()
    ensures LumaStride(8) == 8 && ChromaStride(8) == 4
  {
    hide *;
    StridesOf(8, 2);
  }

  lemma OneRowSizes()
    ensures LumaSize(8, 1) == 16 && ChromaSize(8, 1) == 4
  {
    hide LumaStride, ChromaStride;
    OneRowStrides();
    assert RoundUp2(1) == 2;
  }

  lemma OneRowCounts()
    ensures ExtraPadding(2, 1) == 0 && ExtraPadding(1, -1) == -1 && SliceCount(2, 1) == 2
  {
    hide SliceCount;
    var n := SliceCount(2, 1);
    assert (n - 1) * 1 < 2 <= n * 1;
  }
}
