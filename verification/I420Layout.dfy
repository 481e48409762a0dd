/**
 The I420 frame layout computed by OpenMAX::get_i420_frame_info, and when it is the tightly packed
 layout that OpenMAX::yuv420_to_rgb assumes. All quantities are ints in the source; the model uses
 unbounded integers.
 */
module I420Layout {
  import opened Planes

  /** ROUND_UP_2 and ROUND_UP_4: masking with ~1 and ~3 rounds towards minus infinity. */
  function RoundUp2(n: int): (r: int)
    ensures n <= r < n + 2 && r % 2 == 0
  {
    (n + 1) / 2 * 2
  }

  function RoundUp4(n: int): (r: int)
    ensures n <= r < n + 4 && r % 4 == 0
  {
    (n + 3) / 4 * 4
  }

  /** The % of C++: the remainder takes the sign of the dividend. */
  function TruncRem(a: int, b: int): int
    requires b > 0
  {
    if a >= 0 then a % b else -((-a) % b)
  }

  datatype FrameInfo = FrameInfo(
    width: int, height: int, size: int,
    bufStride: int, bufSliceHeight: int, bufExtraPadding: int,
    pOffset1: int, pOffset2: int, pStride0: int, pStride1: int)
  {
    function Offset(plane: int): int {
      if plane == 0 then 0 else if plane == 1 then pOffset1 else pOffset2
    }

    function Stride(plane: int): int {
      if plane == 0 then pStride0 else pStride1
    }
  }

  function LumaStride(width: int): int {
    RoundUp4(width)
  }

  function ChromaStride(width: int): int {
    RoundUp4(RoundUp2(width) / 2)
  }

  function LumaSize(width: int, height: int): int {
    LumaStride(width) * RoundUp2(height)
  }

  function ChromaSize(width: int, height: int): int {
    ChromaStride(width) * (RoundUp2(height) / 2)
  }

  function ExtraPadding(height: int, sliceHeight: int): int {
    if sliceHeight < 0 then -1
    else if sliceHeight > 0 && TruncRem(height, sliceHeight) != 0
    then sliceHeight - TruncRem(height, sliceHeight)
    else 0
  }

  /** get_i420_frame_info: planes 1 and 2 share one stride, plane 0 starts at 0. */
  function GetFrameInfo(width: int, height: int, bufStride: int, bufSliceHeight: int): FrameInfo {
    var offset1 := LumaSize(width, height);
    var offset2 := offset1 + ChromaSize(width, height);
    FrameInfo(width, height, offset2 + ChromaSize(width, height),
              bufStride, bufSliceHeight, ExtraPadding(height, bufSliceHeight),
              offset1, offset2, LumaStride(width), ChromaStride(width))
  }

  /** The chroma stride is half the luma stride, rounded up to a multiple of 4. */
  lemma ChromaStrideFromLuma(w: int)
    ensures ChromaStride(w) == RoundUp4(LumaStride(w) / 2)
  {
    var m := (w + 3) / 4;
    assert w == 4 * m || w == 4 * m - 1 || w == 4 * m - 2 || w == 4 * m - 3;
    assert RoundUp2(w) / 2 == 2 * m || RoundUp2(w) / 2 == 2 * m - 1;
  }

  /** Two widths with the same luma stride also have the same chroma stride. */
  lemma ChromaStrideFollowsLuma(w: int, v: int)
    requires LumaStride(w) == LumaStride(v)
    ensures ChromaStride(w) == ChromaStride(v)
  {
    hide *;
    ChromaStrideFromLuma(w);
    ChromaStrideFromLuma(v);
  }

  /** Number of slices of s rows that a frame of h rows is cut into: ceil(h / s). */
  function SliceCount(h: int, s: int): (n: int)
    requires h > 0 && s > 0
    ensures n > 0 && (n - 1) * s < h <= n * s
  {
    assert h == s * (h / s) + h % s;
    assert h / s >= 0;
    if h % s == 0 then h / s else h / s + 1
  }

  /** The padding of the last slice fills it up to a whole slice. */
  lemma PaddingFillsLastSlice(h: int, s: int)
    requires h > 0 && s > 0
    ensures 0 <= ExtraPadding(h, s) < s
    ensures ExtraPadding(h, s) == SliceCount(h, s) * s - h
  {
    var q, m := h / s, h % s;
    assert h == q * s + m;
    assert (q + 1) * s == q * s + s;
  }

  lemma ProductsEqual(a: int, b: int, w: int, h: int)
    requires a >= w > 0 && b >= h > 0
    ensures a * b == w * h <==> a == w && b == h
  {
    MulLe(w, a, b);
    MulLe(h, b, w);
    if a > w {
      MulLe(w + 1, a, b);
    } else if b > h {
      MulLe(h + 1, b, w);
    }
  }

  lemma QuarterOfArea(w: int, h: int)
    requires w % 2 == 0 && h % 2 == 0
    ensures w * h / 4 == (w / 2) * (h / 2)
  {
    var a, b := w / 2, h / 2;
    calc {
      w * h;
      (2 * a) * (2 * b);
      4 * (a * b);
    }
  }

  /** The strides and the rounded height, for each of the three kinds of width. */
  lemma StridesOf(w: int, h: int)
    requires w > 0 && h > 0
    ensures LumaStride(w) >= w && RoundUp2(h) >= h
    ensures LumaStride(w) == w <==> w % 4 == 0
    ensures RoundUp2(h) == h <==> h % 2 == 0
    ensures w % 8 == 0 ==> ChromaStride(w) == w / 2
    ensures w % 8 == 4 ==> ChromaStride(w) == w / 2 + 2
  {
    hide RoundUp2, RoundUp4;
    assert w % 2 == 0 ==> RoundUp2(w) == w;
  }

  /** The luma plane is w * h bytes for widths divisible by 4 and even heights only. */
  lemma LumaTightExactly(w: int, h: int)
    requires w > 0 && h > 0
    ensures LumaSize(w, h) == w * h <==> w % 4 == 0 && h % 2 == 0
  {
    hide LumaStride, RoundUp2;
    StridesOf(w, h);
    ProductsEqual(LumaStride(w), RoundUp2(h), w, h);
  }

  /** Then the chroma planes are w * h / 4 bytes each for widths divisible by 8, and larger otherwise. */
  lemma ChromaTightExactly(w: int, h: int)
    requires w > 0 && h > 0 && w % 4 == 0 && h % 2 == 0
    ensures ChromaSize(w, h) == w * h / 4 <==> w % 8 == 0
  {
    hide ChromaStride, RoundUp2;
    StridesOf(w, h);
    QuarterOfArea(w, h);
    WiderPlane(w / 2, h / 2);
  }

  lemma WiderPlane(a: int, b: int)
    requires b > 0
    ensures (a + 2) * b > a * b
  {
  }

  /**
   The two layouts, written independently in the source, put the planes at the same places
   exactly for widths divisible by 8 and even heights.
   */
  lemma LayoutsAgreeExactly(w: int, h: int, bufStride: int, s: int)
    requires w > 0 && h > 0
    ensures (forall plane :: 0 <= plane < 3 ==>
               GetFrameInfo(w, h, bufStride, s).Offset(plane) == TightStart(w, h, plane))
      <==> w % 8 == 0 && h % 2 == 0
  {
    hide LumaSize, ChromaSize, ExtraPadding, LumaStride, ChromaStride;
    var info := GetFrameInfo(w, h, bufStride, s);
    LumaTightExactly(w, h);
    if w % 4 == 0 && h % 2 == 0 {
      ChromaTightExactly(w, h);
    }
    assert info.Offset(1) == LumaSize(w, h) && info.Offset(2) == LumaSize(w, h) + ChromaSize(w, h);
    assert TightStart(w, h, 1) == w * h && TightStart(w, h, 2) == w * h + w * h / 4;
  }

  /** For these frames the strides and the total size agree as well. */
  lemma TightFrame(w: int, h: int, bufStride: int, s: int)
    requires w > 0 && h > 0 && w % 8 == 0 && h % 2 == 0
    ensures var info := GetFrameInfo(w, h, bufStride, s);
      info.size == InputSize(w, h) && info.Stride(0) == w && info.Stride(1) == info.Stride(2) == w / 2
  {
    hide LumaSize, ChromaSize, ExtraPadding, LumaStride, ChromaStride;
    StridesOf(w, h);
    LumaTightExactly(w, h);
    ChromaTightExactly(w, h);
  }
}
