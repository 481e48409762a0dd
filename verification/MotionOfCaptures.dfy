/**
 EventManager::BackgroundSubtraction: capture two frames and compare them. The comparison steps through
 the luma plane with the width, while the rows of a captured frame are LumaStride apart.
 */
module MotionOfCaptures {
  import opened Bytes
  import opened I420Layout
  import opened FrameUnpack
  import opened FrameRoundTrip
  import opened MotionDetect
  import opened Planes

  /** Where pixel n, counted row by row, is when rows of w pixels are stride bytes apart. */
  function InRows(stride: nat, w: nat, n: nat): nat
    requires w > 0
  {
    n / w * stride + n % w
  }

  /** Where pixel n is in a captured frame. */
  function PixelIndex(w: nat, n: nat): nat
    requires w > 0
  {
    LumaStrideAtLeast(w);
    InRows(LumaStride(w), w, n)
  }

  lemma LumaStrideAtLeast(w: int)
    ensures w <= LumaStride(w) && (w % 4 != 0 ==> w < LumaStride(w)) && (w % 4 == 0 ==> LumaStride(w) == w)
  {
  }

  predicate HasPixels(frame: seq<byte>, w: nat, h: nat)
    requires w > 0
  {
    forall n: nat :: n < w * h ==> PixelIndex(w, n) < |frame|
  }

  /** The pixels of the pictures that differ by more than the threshold. */
  function PixelsDiffering(frame1: seq<byte>, frame2: seq<byte>, w: nat, h: nat, threshold: int): set<nat>
    requires w > 0 && HasPixels(frame1, w, h) && HasPixels(frame2, w, h)
  {
    set n: nat | n < w * h && AbsDiff(frame1[PixelIndex(w, n)], frame2[PixelIndex(w, n)]) > threshold
  }

  // ---- the whole method ---------------------------------------------------------------------

  method ArrayOf(s: seq<byte>) returns (a: array<byte>)
    ensures fresh(a) && a[..] == s
  {
    a := new byte[|s|](i requires 0 <= i < |s| => s[i]);
  }

  /** None is the exit through die in one of the captures. */
  method BackgroundSubtraction(info: FrameInfo, buf: FrameInfo, first: seq<Fragment>, second: seq<Fragment>,
                               width: nat, height: nat) returns (moved: Option<int>)
    requires FrameSize(info) >= width * height
    requires !CaptureRun(info, buf, first).Overrun? && !CaptureRun(info, buf, second).Overrun?
    ensures var st1, st2 := CaptureRun(info, buf, first), CaptureRun(info, buf, second);
      && (moved.Some? <==> st1.Running? && st2.Running?)
      && (moved.Some? ==>
            && |st1.output| >= width * height && |st2.output| >= width * height
            && moved.value
                 == if |Differing(st2.output, st1.output, width * height, THRESHOLD1)| > THRESHOLD2 then 1 else 0)
  {
    hide *;
    OutputKeepsSize(info, buf, first);
    OutputKeepsSize(info, buf, second);
    var frame1 := CaptureFrame(info, buf, first);
    if frame1 == None {
      return None;
    }
    var temp := ArrayOf(frame1.value);
    var frame2 := CaptureFrame(info, buf, second);
    if frame2 == None {
      return None;
    }
    var image := ArrayOf(frame2.value);
    var r := CompareInPlace(temp, image, width, height);
    moved := Some(r);
  }

  // ---- the answer for the pictures ----------------------------------------------------------

  lemma PixelsInFrame(w: nat, h: nat, bs: int, s: int, frame: seq<byte>)
    requires w > 0 && h > 0 && |frame| == FrameSize(GetFrameInfo(w, h, bs, s))
    ensures HasPixels(frame, w, h) && w * h <= |frame|
  {
    FrameHasLuma(w, h, bs, s);
    LumaStrideAtLeast(w);
    MulLe(w, LumaStride(w), h);
    hide *;
    PixelsInLuma(w, h, frame);
  }

  lemma FrameHasLuma(w: nat, h: nat, bs: int, s: int)
    requires w > 0 && h > 0
    ensures LumaStride(w) * h <= FrameSize(GetFrameInfo(w, h, bs, s))
  {
    hide LumaStride, ChromaStride, LumaSize, ChromaSize, ExtraPadding;
    StridesPositive(w);
    PlaneSizesCover(w, h);
    MulLe(0, h / 2, ChromaStride(w));
  }

  lemma PixelsInLuma(w: nat, h: nat, frame: seq<byte>)
    requires w > 0 && LumaStride(w) * h <= |frame|
    ensures HasPixels(frame, w, h)
  {
    forall n: nat | n < w * h ensures PixelIndex(w, n) < |frame| {
      PixelInRow(w, h, n);
    }
  }

  lemma PixelInRow(w: nat, h: nat, n: nat)
    requires w > 0 && n < w * h
    ensures PixelIndex(w, n) < LumaStride(w) * h
  {
    hide LumaStride;
    LumaStrideAtLeast(w);
    QuotientBelow(n, w, h);
    MulLe(n / w + 1, h, LumaStride(w));
    assert (n / w + 1) * LumaStride(w) == n / w * LumaStride(w) + LumaStride(w);
  }

  lemma TightRows(w: nat, n: nat)
    requires w > 0
    ensures InRows(w, w, n) == n
  {
    assert n == n / w * w + n % w;
  }

  lemma FirstRow(stride: nat, w: nat, n: nat)
    requires n < w
    ensures InRows(stride, w, n) == n
  {
    assert n / w == 0;
  }

  /** Then the two ways of counting are one. */
  lemma SamePositions(w: nat, h: nat, n: nat)
    requires w > 0 && n < w * h && (w % 4 == 0 || h == 1)
    ensures PixelIndex(w, n) == n
  {
    LumaStrideAtLeast(w);
    hide LumaStride, InRows;
    if h == 1 {
      FirstRow(LumaStride(w), w, n);
    } else {
      TightRows(w, n);
    }
  }

  lemma {:induction false} BelowSize(s: set<nat>, n: nat)
    requires forall k :: k in s ==> k < n
    ensures |s| <= n
  {
    if n > 0 {
      BelowSize(s - {n - 1}, n - 1);
    } else {
      assert s == {};
    }
  }

  predicate SameAnswer(frame1: seq<byte>, frame2: seq<byte>, w: nat, h: nat)
    requires w > 0 && HasPixels(frame1, w, h) && HasPixels(frame2, w, h) && w * h <= |frame1| && w * h <= |frame2|
  {
    |Differing(frame1, frame2, w * h, THRESHOLD1)| > THRESHOLD2
    <==> |PixelsDiffering(frame1, frame2, w, h, THRESHOLD1)| > THRESHOLD2
  }

  /** The answer of the comparison: more than 300 bytes of the part it looks at differ by more than 40. */
  predicate Reported(image: seq<byte>, temp: seq<byte>, w: nat, h: nat) {
    w * h <= |image| && w * h <= |temp| && |Differing(image, temp, w * h, THRESHOLD1)| > THRESHOLD2
  }

  lemma SameAnswerReported(frame1: seq<byte>, frame2: seq<byte>, w: nat, h: nat)
    requires w > 0 && HasPixels(frame1, w, h) && HasPixels(frame2, w, h) && w * h <= |frame1| && w * h <= |frame2|
    requires SameAnswer(frame1, frame2, w, h)
    ensures Reported(frame1, frame2, w, h) <==> |PixelsDiffering(frame1, frame2, w, h, THRESHOLD1)| > THRESHOLD2
  {
  }

  lemma AnswerIsRight(frame1: seq<byte>, frame2: seq<byte>, w: nat, h: nat)
    requires w > 0 && HasPixels(frame1, w, h) && HasPixels(frame2, w, h) && w * h <= |frame1| && w * h <= |frame2|
    requires w % 4 == 0 || h == 1 || w * h <= THRESHOLD2
    ensures SameAnswer(frame1, frame2, w, h)
  {
    if w % 4 == 0 || h == 1 {
      forall n: nat | n < w * h ensures PixelIndex(w, n) == n {
        SamePositions(w, h, n);
      }
      hide PixelIndex;
      assert Differing(frame1, frame2, w * h, THRESHOLD1) == PixelsDiffering(frame1, frame2, w, h, THRESHOLD1);
    } else {
      BelowSize(Differing(frame1, frame2, w * h, THRESHOLD1), w * h);
      BelowSize(PixelsDiffering(frame1, frame2, w, h, THRESHOLD1), w * h);
    }
  }

  // ---- pictures with a wrong answer ---------------------------------------------------------

  /** The first 300 pixels and the last one. */
  predicate Bright(w: nat, h: nat, n: nat) {
    n < THRESHOLD2 || n == w * h - 1
  }

  /** The pixel at index k of a frame, if there is one. */
  function PixelAt(w: nat, k: nat): nat
    requires w > 0
  {
    k / LumaStride(w) * w + k % LumaStride(w)
  }

  function BrightFrame(w: nat, h: nat, size: nat): (frame: seq<byte>)
    requires w > 0
    ensures |frame| == size
  {
    seq(size, (k: nat) => if k % LumaStride(w) < w && Bright(w, h, PixelAt(w, k)) then 255 else 0)
  }

  lemma PixelThere(w: nat, n: nat)
    requires w > 0
    ensures PixelAt(w, PixelIndex(w, n)) == n && PixelIndex(w, n) % LumaStride(w) < w
  {
    var stride := LumaStride(w);
    hide LumaStride;
    LumaStrideAtLeast(w);
    QuotientBounds(PixelIndex(w, n), stride, n / w);
    assert PixelIndex(w, n) == PixelIndex(w, n) / stride * stride + PixelIndex(w, n) % stride;
    assert n == n / w * w + n % w;
  }

  lemma PixelBack(w: nat, k: nat)
    requires w > 0 && k % LumaStride(w) < w
    ensures PixelIndex(w, PixelAt(w, k)) == k
  {
    var stride := LumaStride(w);
    hide LumaStride;
    LumaStrideAtLeast(w);
    var n := PixelAt(w, k);
    QuotientBounds(n, w, k / stride);
    assert n == n / w * w + n % w;
    assert k == k / stride * stride + k % stride;
  }

  /** The last pixel is behind the part of the frame that the comparison looks at. */
  lemma LastPixelMissed(w: nat, h: nat)
    requires w > 0 && w % 4 != 0 && h >= 2
    ensures PixelIndex(w, w * h - 1) >= w * h
  {
    var stride := LumaStride(w);
    hide LumaStride;
    LumaStrideAtLeast(w);
    var n := w * h - 1;
    assert n == (h - 1) * w + (w - 1);
    QuotientBounds(n, w, h - 1);
    assert n == n / w * w + n % w;
    MulLe(w + 1, stride, h - 1);
    assert (h - 1) * (w + 1) == (h - 1) * w + (h - 1);
  }

  function Image(w: nat, m: nat): set<nat>
    requires w > 0
  {
    set n: nat | n < m :: PixelIndex(w, n)
  }

  lemma {:induction false} ImageSize(w: nat, m: nat)
    requires w > 0
    ensures |Image(w, m)| <= m
  {
    hide PixelIndex;
    if m > 0 {
      ImageSize(w, m - 1);
      assert Image(w, m) == Image(w, m - 1) + {PixelIndex(w, m - 1)};
    } else {
      assert Image(w, 0) == {};
    }
  }

  function Below(n: nat): (s: set<nat>)
    ensures |s| == n && forall k :: k in s <==> 0 <= k < n
  {
    if n == 0 then {} else Below(n - 1) + {n - 1}
  }

  lemma BrightAt(w: nat, h: nat, size: nat, n: nat)
    requires w > 0 && PixelIndex(w, n) < size
    ensures BrightFrame(w, h, size)[PixelIndex(w, n)] == if Bright(w, h, n) then 255 else 0
  {
    PixelThere(w, n);
    hide PixelIndex, PixelAt, LumaStride, Bright;
  }

  lemma BrightHasPixels(w: nat, h: nat, size: nat)
    requires w > 0 && HasPixels(Zeros(size), w, h)
    ensures HasPixels(BrightFrame(w, h, size), w, h)
  {
    hide PixelIndex, BrightFrame;
  }

  lemma BrightDiffers(w: nat, h: nat, size: nat, n: nat)
    requires w > 0 && HasPixels(Zeros(size), w, h) && HasPixels(BrightFrame(w, h, size), w, h)
    requires n < w * h && (n < THRESHOLD2 || n == w * h - 1)
    ensures n in PixelsDiffering(Zeros(size), BrightFrame(w, h, size), w, h, THRESHOLD1)
  {
    hide PixelIndex, BrightFrame;
    BrightAt(w, h, size, n);
  }

  lemma BrightPixels(w: nat, h: nat, size: nat)
    requires w > 0 && w * h > THRESHOLD2 && HasPixels(Zeros(size), w, h)
    ensures HasPixels(BrightFrame(w, h, size), w, h)
    ensures |PixelsDiffering(Zeros(size), BrightFrame(w, h, size), w, h, THRESHOLD1)| > THRESHOLD2
  {
    hide *;
    BrightHasPixels(w, h, size);
    var pixels := PixelsDiffering(Zeros(size), BrightFrame(w, h, size), w, h, THRESHOLD1);
    forall n: nat | n < THRESHOLD2 || n == w * h - 1 ensures n in pixels {
      BrightDiffers(w, h, size, n);
    }
    var expected := Below(THRESHOLD2) + {w * h - 1};
    assert expected <= pixels;
    SubsetSize(expected, pixels);
  }

  lemma SubsetSize(a: set<nat>, b: set<nat>)
    requires a <= b
    ensures |a| <= |b|
  {
    assert b == a + (b - a);
  }

  lemma BrightMissed(w: nat, h: nat, size: nat)
    requires w > 0 && w % 4 != 0 && h >= 2 && w * h <= size
    ensures |Differing(Zeros(size), BrightFrame(w, h, size), w * h, THRESHOLD1)| <= THRESHOLD2
  {
    var bright := BrightFrame(w, h, size);
    LastPixelMissed(w, h);
    var differing := Differing(Zeros(size), bright, w * h, THRESHOLD1);
    forall k | k in differing ensures k in Image(w, THRESHOLD2) {
      PixelBack(w, k);
      var n := PixelAt(w, k);
      assert Bright(w, h, n) && n != w * h - 1;
    }
    SubsetSize(differing, Image(w, THRESHOLD2));
    ImageSize(w, THRESHOLD2);
  }

  ghost predicate AlwaysRight(w: nat, h: nat, size: nat)
    requires w > 0
  {
    forall frame1, frame2 :: |frame1| == |frame2| == size ==>
      HasPixels(frame1, w, h) && HasPixels(frame2, w, h) && w * h <= size && SameAnswer(frame1, frame2, w, h)
  }

  /**
   Motion detection answers for the pictures exactly when the width is a multiple of 4, the picture has one
   row, or it is too small for any motion to be reported. For any other size two pictures get the
   wrong answer.
   */
  lemma MotionIsRightExactly(w: nat, h: nat, bs: int, s: int)
    requires w > 0 && h > 0
    ensures AlwaysRight(w, h, FrameSize(GetFrameInfo(w, h, bs, s)))
       <==> w % 4 == 0 || h == 1 || w * h <= THRESHOLD2
  {
    var size := FrameSize(GetFrameInfo(w, h, bs, s));
    hide HasPixels, SameAnswer;
    forall frame: seq<byte> | |frame| == size ensures HasPixels(frame, w, h) && w * h <= |frame| {
      PixelsInFrame(w, h, bs, s, frame);
    }
    if w % 4 == 0 || h == 1 || w * h <= THRESHOLD2 {
      forall frame1, frame2: seq<byte> | |frame1| == |frame2| == size
        ensures SameAnswer(frame1, frame2, w, h)
      {
        AnswerIsRight(frame1, frame2, w, h);
      }
    } else {
      assert |Zeros(size)| == size;
      BrightPixels(w, h, size);
      BrightMissed(w, h, size);
      WrongAnswer(Zeros(size), BrightFrame(w, h, size), w, h);
    }
  }

  lemma WrongAnswer(frame1: seq<byte>, frame2: seq<byte>, w: nat, h: nat)
    requires w > 0 && HasPixels(frame1, w, h) && HasPixels(frame2, w, h) && w * h <= |frame1| && w * h <= |frame2|
    requires |Differing(frame1, frame2, w * h, THRESHOLD1)| <= THRESHOLD2
    requires |PixelsDiffering(frame1, frame2, w, h, THRESHOLD1)| > THRESHOLD2
    ensures !SameAnswer(frame1, frame2, w, h)
  {
  }

  // ---- rows and columns ---------------------------------------------------------------------

  /** Byte k of the two frames differs by more than 40 either way. */
  predicate FarApart(a: seq<byte>, b: seq<byte>, k: int) {
    0 <= k < |a| && k < |b| && (a[k] as int - b[k] as int > 40 || b[k] as int - a[k] as int > 40)
  }

  /** The pixels of two pictures, by row and column, that are far apart. */
  function MovedPixels(g: Setup, a: seq<byte>, b: seq<byte>, w: nat, h: nat): set<(nat, nat)> {
    set row: nat, col: nat | row < h && col < w && FarApart(a, b, FrameIndex(g, 0, row, col)) :: (row, col)
  }

  /** Row and column of pixel n, and back. */
  function Place(w: nat, n: nat): (nat, nat)
    requires w > 0
  {
    (n / w, n % w)
  }

  function Number(w: nat, p: (nat, nat)): nat {
    p.0 * w + p.1
  }

  function Places(s: set<nat>, w: nat): set<(nat, nat)>
    requires w > 0
  {
    set n | n in s :: Place(w, n)
  }

  lemma NumberOfPlace(w: nat, n: nat)
    requires w > 0
    ensures Number(w, Place(w, n)) == n
  {
    assert n == n / w * w + n % w;
  }

  lemma PlaceOfNumber(w: nat, h: nat, p: (nat, nat))
    requires p.0 < h && p.1 < w
    ensures Number(w, p) < w * h && Place(w, Number(w, p)) == p
  {
    var n := Number(w, p);
    QuotientBounds(n, w, p.0);
    assert n == n / w * w + n % w;
    MulLe(p.0 + 1, h, w);
  }

  lemma {:induction false} PlacesCount(s: set<nat>, w: nat)
    requires w > 0
    ensures |Places(s, w)| == |s|
    decreases |s|
  {
    hide Place, Number;
    if s == {} {
      assert Places(s, w) == {};
    } else {
      var n :| n in s;
      var rest := s - {n};
      PlacesCount(rest, w);
      NumberOfPlace(w, n);
      if Place(w, n) in Places(rest, w) {
        var m :| m in rest && Place(w, m) == Place(w, n);
        NumberOfPlace(w, m);
        assert false;
      }
      assert Places(s, w) == Places(rest, w) + {Place(w, n)};
    }
  }

  lemma FrameIndexOfPlace(w: nat, h: nat, s: int, bs: int, n: nat)
    requires w > 0 && h > 0 && s > 0 && n < w * h
    ensures var p := Place(w, n);
      p.0 < h && p.1 < w && FrameIndex(SetupFor(w, h, s, bs), 0, p.0, p.1) == PixelIndex(w, n)
  {
    QuotientBelow(n, w, h);
    hide LumaStride, ChromaStride, LumaSize, ChromaSize, ExtraPadding;
  }

  lemma NumberedPixels(a: seq<byte>, b: seq<byte>, w: nat, h: nat, n: nat)
    requires w > 0 && HasPixels(a, w, h) && HasPixels(b, w, h)
    ensures n in PixelsDiffering(a, b, w, h, THRESHOLD1) <==> n < w * h && FarApart(a, b, PixelIndex(w, n))
  {
    hide PixelIndex;
  }

  lemma IsMovedPixel(g: Setup, a: seq<byte>, b: seq<byte>, w: nat, h: nat, p: (nat, nat))
    ensures p in MovedPixels(g, a, b, w, h)
       <==> p.0 < h && p.1 < w && FarApart(a, b, FrameIndex(g, 0, p.0, p.1))
  {
    hide FarApart, FrameIndex;
  }

  /** Counting by number and by row and column is the same. */
  lemma MovedPixelsCount(w: nat, h: nat, s: int, bs: int, a: seq<byte>, b: seq<byte>)
    requires w > 0 && h > 0 && s > 0 && HasPixels(a, w, h) && HasPixels(b, w, h)
    ensures |MovedPixels(SetupFor(w, h, s, bs), a, b, w, h)| == |PixelsDiffering(a, b, w, h, THRESHOLD1)|
  {
    hide *;
    var g := SetupFor(w, h, s, bs);
    var numbered := PixelsDiffering(a, b, w, h, THRESHOLD1);
    PlacesCount(numbered, w);
    forall p ensures p in MovedPixels(g, a, b, w, h) <==> p in Places(numbered, w) {
      SamePixel(w, h, s, bs, a, b, p);
    }
    assert MovedPixels(g, a, b, w, h) == Places(numbered, w);
  }

  lemma SamePixel(w: nat, h: nat, s: int, bs: int, a: seq<byte>, b: seq<byte>, p: (nat, nat))
    requires w > 0 && h > 0 && s > 0 && HasPixels(a, w, h) && HasPixels(b, w, h)
    ensures p in MovedPixels(SetupFor(w, h, s, bs), a, b, w, h)
       <==> p in Places(PixelsDiffering(a, b, w, h, THRESHOLD1), w)
  {
    var g := SetupFor(w, h, s, bs);
    var numbered := PixelsDiffering(a, b, w, h, THRESHOLD1);
    hide SetupFor, FrameIndex, PixelIndex, HasPixels, FarApart, PixelsDiffering, MovedPixels, Place, Number;
    IsMovedPixel(g, a, b, w, h, p);
    if p in Places(numbered, w) {
      var n :| n in numbered && Place(w, n) == p;
      NumberedPixels(a, b, w, h, n);
      FrameIndexOfPlace(w, h, s, bs, n);
    } else if p.0 < h && p.1 < w {
      var n := Number(w, p);
      PlaceOfNumber(w, h, p);
      NumberedPixels(a, b, w, h, n);
      FrameIndexOfPlace(w, h, s, bs, n);
    }
  }

  /**
   From the camera to the answer: for widths divisible by 4, cutting two pictures into slices, capturing
   both and comparing them tells whether more than 300 of their pixels differ by more than 40.
   */
  lemma MotionOfPictures(w: nat, h: nat, s: int, bs: int, g: Setup,
                         picture1: seq<byte>, first: seq<Fragment>, picture2: seq<byte>, second: seq<Fragment>)
    requires w > 0 && h > 0 && s > 0 && w % 4 == 0 && h % 2 == 0 && (s % 2 == 0 || s > h)
    requires LumaStride(bs) == LumaStride(w) && g == SetupFor(w, h, s, bs)
    requires |picture1| == |picture2| == FrameSize(g.info)
    requires IsCut(g, picture1, first) && IsCut(g, picture2, second)
    ensures var st1, st2 := CaptureRun(g.info, g.buf, first), CaptureRun(g.info, g.buf, second);
      st1.Running? && st1.output == picture1 && st2.Running? && st2.output == picture2
    ensures Reported(picture2, picture1, w, h) <==> |MovedPixels(g, picture2, picture1, w, h)| > 300
  {
    SetupIsSound(w, h, s, bs);
    PixelsInFrame(w, h, bs, s, picture1);
    PixelsInFrame(w, h, bs, s, picture2);
    AnswerIsRight(picture2, picture1, w, h);
    MovedPixelsCount(w, h, s, bs, picture2, picture1);
    SameAnswerReported(picture2, picture1, w, h);
    assert THRESHOLD2 == 300;
    hide *;
    CaptureRoundTrip(g, picture1, first);
    CaptureRoundTrip(g, picture2, second);
  }
}
