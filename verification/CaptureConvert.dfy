/** OpenMAX::OMXCaptureImage up to the JPEG encoder: capture a frame, then convert it to RGB. */
module CaptureConvert {
  import opened Bytes
  import opened I420Layout
  import opened FrameUnpack
  import opened FrameRoundTrip
  import opened Planes
  import opened YuvToRgb

  /** The captured frame is never smaller than what the conversion reads. */
  lemma FrameCoversInput(w: int, h: int, bs: int, s: int)
    requires w > 0 && h > 0
    ensures FrameSize(GetFrameInfo(w, h, bs, s)) >= InputSize(w, h)
  {
    hide ExtraPadding;
    LumaCovers(w, h);
    ChromaCovers(w, h);
  }

  lemma SetupCoversInput(w: int, h: int, s: int, bs: int)
    requires w > 0 && h > 0 && s > 0
    ensures FrameSize(SetupFor(w, h, s, bs).info) >= InputSize(w, h)
  {
    hide FrameSize, InputSize, GetFrameInfo;
    FrameCoversInput(w, h, bs, s);
  }

  lemma LumaCovers(w: int, h: int)
    requires w > 0 && h > 0
    ensures LumaSize(w, h) >= ImgSize(w, h)
  {
    MulLe(h, RoundUp2(h), w);
    MulLe(w, RoundUp4(w), RoundUp2(h));
  }

  lemma ChromaCovers(w: int, h: int)
    requires w > 0 && h > 0
    ensures ChromaSize(w, h) >= UvSize(w, h)
  {
    var a, b := ChromaStride(w), RoundUp2(h) / 2;
    assert 2 * a >= w && 2 * b >= h;
    MulLe(h, 2 * b, w);
    MulLe(w, 2 * a, 2 * b);
    assert (2 * b) * (2 * a) == 4 * (a * b);
  }

  /**
   Capture, then convert. The layouts come from the port definition, the size of the picture from
   omx_width and omx_height; the conversion needs a frame that is large enough for that size.
   */
  method CaptureImage(info: FrameInfo, buf: FrameInfo, fragments: seq<Fragment>, w: nat, h: nat)
      returns (rgb: Option<seq<byte>>)
    requires FrameSize(info) >= InputSize(w, h)
    requires !CaptureRun(info, buf, fragments).Overrun?
    ensures var st := CaptureRun(info, buf, fragments);
      && rgb.Some? == st.Running?
      && (rgb.Some? ==>
            && |rgb.value| == 3 * ImgSize(w, h) && |st.output| >= InputSize(w, h)
            && forall k :: 0 <= k < |rgb.value| && Covered(w, h, k) ==> rgb.value[k] == Converted(st.output, w, h, k))
  {
    hide *;
    OutputKeepsSize(info, buf, fragments);
    var frame := CaptureFrame(info, buf, fragments);
    if frame == None {
      return None;
    }
    var input := new byte[|frame.value|](i requires 0 <= i < |frame.value| => frame.value[i]);
    assert input[..] == frame.value;
    var output := new byte[3 * ImgSize(w, h)];
    Yuv420ToRgb(input, output, w, h);
    assert input[..] == frame.value;
    rgb := Some(output[..]);
  }

  /**
   Capture, then convert: for widths divisible by 8 and even heights, the RGB pixel at (row, col)
   comes from that pixel of the frame that was cut into slices, although the conversion has its own
   idea of where the planes are.
   */
  lemma CapturedPixels(w: nat, h: nat, s: int, bs: int, g: Setup, picture: seq<byte>, fragments: seq<Fragment>,
                       row: nat, col: nat, channel: nat)
    requires w > 0 && h > 0 && w % 8 == 0 && h % 2 == 0 && s > 0 && (s % 2 == 0 || s > h)
    requires LumaStride(bs) == LumaStride(w)
    requires g == SetupFor(w, h, s, bs)
    requires |picture| == FrameSize(g.info) && IsCut(g, picture, fragments)
    requires row < h && col < w && channel < 3
    ensures CaptureRun(g.info, g.buf, fragments) == Running(Zeros(|picture|), picture, 0, 0, |picture|)
    ensures MadeFrom(picture, w, h, row, col, channel, FrameIndex(g, 0, row, col),
                     FrameIndex(g, 2, row / 2, col / 2), FrameIndex(g, 1, row / 2, col / 2))
  {
    hide *;
    SetupIsSound(w, h, s, bs);
    CaptureRoundTrip(g, picture, fragments);
    SetupCoversInput(w, h, s, bs);
    TightIndices(w, h, s, bs, row, col);
    EvenSizesConvertByIndex(picture, w, h, row, col, channel);
  }

  lemma TightIndices(w: nat, h: nat, s: int, bs: int, row: nat, col: nat)
    requires w > 0 && h > 0 && w % 8 == 0 && h % 2 == 0 && s > 0
    ensures var g := SetupFor(w, h, s, bs);
      && FrameIndex(g, 0, row, col) == row * w + col
      && FrameIndex(g, 1, row / 2, col / 2) == ImgSize(w, h) + (row / 2 * (w / 2) + col / 2)
      && FrameIndex(g, 2, row / 2, col / 2) == ImgSize(w, h) + UvSize(w, h) + (row / 2 * (w / 2) + col / 2)
  {
    LayoutsAgreeExactly(w, h, bs, s);
    TightFrame(w, h, bs, s);
    var info := SetupFor(w, h, s, bs).info;
    assert info == GetFrameInfo(w, h, bs, s);
    hide GetFrameInfo;
    assert info.Offset(1) == TightStart(w, h, 1) && info.Offset(2) == TightStart(w, h, 2);
  }
}
