/**
 OpenMAX::yuv420_to_rgb: three pointers walk over the planes of an I420 frame while two rows of
 pixels are written per step. The model keeps the walk and proves which samples every pixel gets.
 */
module YuvToRgb {
  import opened Bytes
  import opened Planes

  // ---- the colour tables --------------------------------------------------------------------

  /** The clamp and cast to int of YUV_lookup_table, on values in thousandths. */
  function Clamped(thousandths: int): byte {
    if thousandths > 255000 then 255 else if thousandths < 0 then 0 else thousandths / 1000
  }

  /** YUV_B[y][u], YUV_G[y][u][v] and YUV_R[y][v], in the order in which they are stored. */
  function Channel(y: byte, u: byte, v: byte, channel: int): byte {
    var luma := 1164 * (y - 16);
    if channel == 0 then Clamped(luma + 2018 * (u - 128))
    else if channel == 1 then Clamped(luma - (391 * (u - 128) + 831 * (v - 128)))
    else Clamped(luma + 1596 * (v - 128))
  }

  /** The value that the table computes before it clamps and truncates, in exact arithmetic. */
  function Unclamped(y: byte, u: byte, v: byte, channel: int): real {
    var luma := 1.164 * (y as real - 16.0);
    if channel == 0 then luma + 2.018 * (u as real - 128.0)
    else if channel == 1 then luma - (0.391 * (u as real - 128.0) + 0.831 * (v as real - 128.0))
    else luma + 1.596 * (v as real - 128.0)
  }

  /** Each entry is that value, truncated, and kept within 0 to 255. */
  lemma TablesClampAndTruncate(y: byte, u: byte, v: byte, channel: int)
    ensures var x, r := Unclamped(y, u, v, channel), Channel(y, u, v, channel);
      if x < 0.0 then r == 0 else if x > 255.0 then r == 255 else r as real <= x < r as real + 1.0
  {
    var luma := 1164 * (y - 16);
    var t := if channel == 0 then luma + 2018 * (u - 128)
             else if channel == 1 then luma - (391 * (u - 128) + 831 * (v - 128))
             else luma + 1596 * (v - 128);
    assert Unclamped(y, u, v, channel) == t as real / 1000.0;
  }

  // ---- the indexed form ---------------------------------------------------------------------

  function Row(w: nat, k: nat): nat
    requires w > 0
  {
    k / 3 / w
  }

  function Col(w: nat, k: nat): nat
    requires w > 0
  {
    k / 3 % w
  }

  /** Where the luma pointer is when it serves pixel (row, col): it moves 2 per block and w per row pair. */
  function LumaWalk(w: nat, row: nat, col: nat): nat {
    row / 2 * (2 * (w / 2) + w) + row % 2 * w + col
  }

  function ChromaWalk(w: nat, row: nat, col: nat): nat {
    row / 2 * (w / 2) + col / 2
  }

  /** Pixels that belong to a 2 x 2 block; the last row or column of an odd size does not. */
  predicate Covered(w: nat, h: nat, k: nat) {
    w > 0 && Row(w, k) < h / 2 * 2 && Col(w, k) < w / 2 * 2
  }

  lemma LumaBound(w: nat, h: nat, r: nat, step: nat, odd: nat, col: nat)
    requires 2 * r + 2 <= h && step <= 2 * w && odd < 2 && col < w
    ensures r * step + odd * w + col < w * h
  {
    MulLe(step, 2 * w, r);
    MulLe(odd, 1, w);
    MulLe(2 * r + 2, h, w);
    assert (2 * r + 2) * w == r * (2 * w) + 2 * w;
  }

  lemma ChromaBound(w: nat, h: nat, r: nat, a: nat, c: nat)
    requires 2 * r + 2 <= h && 2 * a <= w && c < a
    ensures r * a + c < w * h / 4
  {
    MulLe(2 * a, w, 2 * r + 2);
    MulLe(2 * r + 2, h, w);
    assert (2 * a) * (2 * r + 2) == 4 * (r * a) + 4 * a;
  }

  /** The walking pointers stay inside the three planes. */
  lemma LumaWalkInBounds(w: nat, h: nat, row: nat, col: nat)
    requires row < h / 2 * 2 && col < w / 2 * 2
    ensures LumaWalk(w, row, col) < ImgSize(w, h)
  {
    LumaBound(w, h, row / 2, 2 * (w / 2) + w, row % 2, col);
  }

  lemma ChromaWalkInBounds(w: nat, h: nat, row: nat, col: nat)
    requires row < h / 2 * 2 && col < w / 2 * 2
    ensures ChromaWalk(w, row, col) < UvSize(w, h)
  {
    ChromaBound(w, h, row / 2, w / 2, col / 2);
  }

  /** One channel of the pixel at (row, col): the samples at the walked positions. */
  function ConvertedPixel(input: seq<byte>, w: nat, h: nat, row: nat, col: nat, channel: int): byte
    requires |input| >= InputSize(w, h) && row < h / 2 * 2 && col < w / 2 * 2
  {
    LumaWalkInBounds(w, h, row, col);
    ChromaWalkInBounds(w, h, row, col);
    Channel(input[LumaWalk(w, row, col)],
            input[ImgSize(w, h) + UvSize(w, h) + ChromaWalk(w, row, col)],
            input[ImgSize(w, h) + ChromaWalk(w, row, col)],
            channel)
  }

  /** The byte that the conversion puts at k. */
  function Converted(input: seq<byte>, w: nat, h: nat, k: nat): byte
    requires |input| >= InputSize(w, h) && Covered(w, h, k)
  {
    ConvertedPixel(input, w, h, Row(w, k), Col(w, k), k % 3)
  }

  // ---- blocks -------------------------------------------------------------------------------

  /** Byte k is one of the twelve bytes of the block whose upper left pixel is (y, x). */
  predicate InBlock(w: nat, y: nat, x: nat, k: nat) {
    var p := 3 * (w * y + x);
    p <= k < p + 6 || p + 3 * w <= k < p + 3 * w + 6
  }

  lemma PixelOf(w: nat, row: nat, col: nat, k: nat)
    requires col < w
    ensures Row(w, k) == row && Col(w, k) == col <==> 3 * (w * row + col) <= k < 3 * (w * row + col) + 3
  {
    var q := k / 3;
    DivMod(q, w);
    if q == w * row + col {
      UniqueQuotient(w, q / w, q % w, row, col);
    }
  }

  lemma DivMod(q: nat, w: nat)
    requires w > 0
    ensures q == w * (q / w) + q % w
  {
  }

  lemma UniqueQuotient(w: nat, a: nat, b: nat, c: nat, d: nat)
    requires b < w && d < w && w * a + b == w * c + d
    ensures a == c && b == d
  {
    if a < c {
      MulLe(a + 1, c, w);
    } else if c < a {
      MulLe(c + 1, a, w);
    }
  }

  lemma OutputPosition(w: nat, y: nat, x: nat, dy: nat, dx: nat)
    requires dy < 2
    ensures 3 * (w * (y + dy) + (x + dx)) == 3 * (w * y + x) + 3 * Down(w, dy) + 3 * dx
  {
    assert w * (y + 1) == w * y + w;
  }

  /** The offset of row dy of a block, in samples. */
  function Down(w: nat, dy: nat): nat {
    if dy == 0 then 0 else w
  }

  lemma BlockOutputBound(w: nat, h: nat, y: nat, x: nat)
    requires y + 2 <= h && x + 2 <= w
    ensures 3 * (w * y + x) + 3 * w + 6 <= 3 * ImgSize(w, h)
  {
    MulLe(y + 2, h, w);
    assert (y + 2) * w == w * y + 2 * w;
  }

  /** Every covered byte lies in exactly one block, so it is written exactly once. */
  lemma BlocksTileTheImage(w: nat, h: nat, y: nat, x: nat, k: nat)
    requires w > 0 && y % 2 == 0 && x % 2 == 0 && y < h / 2 * 2 && x < w / 2 * 2
    ensures InBlock(w, y, x, k) <==> Row(w, k) / 2 * 2 == y && Col(w, k) / 2 * 2 == x
    ensures InBlock(w, y, x, k) ==> Covered(w, h, k) && k < 3 * ImgSize(w, h)
  {
    hide Row, Col, ImgSize;
    PixelOf(w, y, x, k);
    PixelOf(w, y, x + 1, k);
    PixelOf(w, y + 1, x, k);
    PixelOf(w, y + 1, x + 1, k);
    OutputPosition(w, y, x, 0, 1);
    OutputPosition(w, y, x, 1, 0);
    OutputPosition(w, y, x, 1, 1);
    BlockOutputBound(w, h, y, x);
  }

  method PutPixel(output: array<byte>, p: nat, y: byte, u: byte, v: byte)
    requires p + 3 <= output.Length
    modifies output
    ensures forall k :: 0 <= k < output.Length ==>
      output[k] == if p <= k < p + 3 then Channel(y, u, v, k - p) else old(output[k])
  {
    output[p] := Channel(y, u, v, 0);
    output[p + 1] := Channel(y, u, v, 1);
    output[p + 2] := Channel(y, u, v, 2);
  }

  /** The byte at k after a block at output position p has been converted. */
  function BlockByte(input: seq<byte>, before: byte, w: nat, p: nat, pY: nat, pU: nat, pV: nat, k: nat): byte
    requires pY + w + 1 < |input| && pU < |input| && pV < |input|
  {
    if p <= k < p + 3 then Channel(input[pY], input[pU], input[pV], k - p)
    else if p + 3 <= k < p + 6 then Channel(input[pY + 1], input[pU], input[pV], k - p - 3)
    else if p + 3 * w <= k < p + 3 * w + 3 then Channel(input[pY + w], input[pU], input[pV], k - p - 3 * w)
    else if p + 3 * w + 3 <= k < p + 3 * w + 6 then Channel(input[pY + w + 1], input[pU], input[pV], k - p - 3 * w - 3)
    else before
  }

  predicate BlockConverted(input: seq<byte>, before: seq<byte>, after: seq<byte>, w: nat,
                           p: nat, pY: nat, pU: nat, pV: nat)
  {
    && pY + w + 1 < |input| && pU < |input| && pV < |input| && |after| == |before|
    && forall k :: 0 <= k < |after| ==> after[k] == BlockByte(input, before[k], w, p, pY, pU, pV, k)
  }

  /** One step of the inner loop: the four pixels of a block share one pair of chroma samples. */
  method ConvertBlock(input: array<byte>, output: array<byte>, w: nat, p: nat, pY: nat, pU: nat, pV: nat)
    requires input != output && w >= 2
    requires p + 3 * w + 6 <= output.Length
    requires pY + w + 1 < input.Length && pU < input.Length && pV < input.Length
    modifies output
    ensures BlockConverted(input[..], old(output[..]), output[..], w, p, pY, pU, pV)
  {
    var u, v := input[pU], input[pV];
    var y00, y01, y10, y11 := input[pY], input[pY + 1], input[pY + w], input[pY + w + 1];
    PutPixel(output, p, y00, u, v);
    PutPixel(output, p + 3, y01, u, v);
    PutPixel(output, p + 3 * w, y10, u, v);
    PutPixel(output, p + 3 * w + 3, y11, u, v);
  }

  // ---- the walk -----------------------------------------------------------------------------

  /** Byte k has been converted when the loops stand at block (y, x). */
  predicate Done(w: nat, h: nat, y: nat, x: nat, k: nat) {
    Covered(w, h, k) && (Row(w, k) < y || (Row(w, k) < y + 2 && Col(w, k) < x))
  }

  predicate DoneSoFar(input: seq<byte>, before: seq<byte>, after: seq<byte>, w: nat, h: nat, y: nat, x: nat) {
    && |before| == |after| && |input| >= InputSize(w, h)
    && forall k :: 0 <= k < |after| ==> after[k] == if Done(w, h, y, x, k) then Converted(input, w, h, k) else before[k]
  }

  /** Inside a block the walked positions follow from those of its upper left pixel. */
  lemma WalkInBlock(w: nat, y: nat, x: nat, dy: nat, dx: nat)
    requires y % 2 == 0 && x % 2 == 0 && dy < 2 && dx < 2
    ensures LumaWalk(w, y + dy, x + dx) == LumaWalk(w, y, x) + Down(w, dy) + dx
    ensures ChromaWalk(w, y + dy, x + dx) == ChromaWalk(w, y, x)
  {
    assert (y + dy) / 2 == y / 2 && (x + dx) / 2 == x / 2 && (y + dy) % 2 == dy;
  }

  /** In every pair of rows the walk loses one sample if the width is odd. */
  lemma LumaWalkDrifts(w: nat, row: nat, col: nat)
    ensures LumaWalk(w, row, col) == row * w + col - w % 2 * (row / 2)
  {
    var r, a := row / 2, w / 2;
    assert row == 2 * r + row % 2 && w == 2 * a + w % 2;
    assert row * w == 2 * (r * w) + row % 2 * w;
    assert r * (2 * a + w) == 2 * (r * w) - r * (w % 2);
  }

  /** The pixel at (dy, dx) of block (y, x) is converted from the samples the block reads for it. */
  lemma PixelOfBlock(input: seq<byte>, w: nat, h: nat, y: nat, x: nat, dy: nat, dx: nat, channel: int)
    requires |input| >= InputSize(w, h)
    requires y % 2 == 0 && x % 2 == 0 && dy < 2 && dx < 2 && y < h / 2 * 2 && x < w / 2 * 2
    ensures var pY, pV := LumaWalk(w, y, x) + Down(w, dy) + dx, ImgSize(w, h) + ChromaWalk(w, y, x);
      && pY < ImgSize(w, h) && pV + UvSize(w, h) < |input| && y + dy < h / 2 * 2 && x + dx < w / 2 * 2
      && ConvertedPixel(input, w, h, y + dy, x + dx, channel)
         == Channel(input[pY], input[pV + UvSize(w, h)], input[pV], channel)
  {
    hide LumaWalk, ChromaWalk, Channel, ImgSize, UvSize;
    assert y + dy < h / 2 * 2 && x + dx < w / 2 * 2;
    WalkInBlock(w, y, x, dy, dx);
    LumaWalkInBounds(w, h, y + dy, x + dx);
    ChromaWalkInBounds(w, h, y, x);
  }

  lemma ChannelOf(q: nat, k: nat)
    requires 3 * q <= k < 3 * q + 3
    ensures k % 3 == k - 3 * q
  {
  }

  lemma PixelConverted(input: seq<byte>, w: nat, h: nat, row: nat, col: nat, k: nat)
    requires |input| >= InputSize(w, h) && row < h / 2 * 2 && col < w / 2 * 2
    requires 3 * (w * row + col) <= k < 3 * (w * row + col) + 3
    ensures Covered(w, h, k)
    ensures Converted(input, w, h, k) == ConvertedPixel(input, w, h, row, col, k - 3 * (w * row + col))
  {
    hide ConvertedPixel, Row, Col, ImgSize, UvSize;
    PixelOf(w, row, col, k);
    ChannelOf(w * row + col, k);
  }

  /** Three bytes at p, the output position of pixel (dy, dx) of block (y, x). */
  lemma BytesOfBlock(input: seq<byte>, w: nat, h: nat, y: nat, x: nat, dy: nat, dx: nat, p: nat, k: nat)
    requires |input| >= InputSize(w, h)
    requires y % 2 == 0 && x % 2 == 0 && dy < 2 && dx < 2 && y < h / 2 * 2 && x < w / 2 * 2
    requires p == 3 * (w * (y + dy) + (x + dx)) && p <= k < p + 3
    ensures Covered(w, h, k)
    ensures var pY, pV := LumaWalk(w, y, x) + Down(w, dy) + dx, ImgSize(w, h) + ChromaWalk(w, y, x);
      && pY < ImgSize(w, h) && pV + UvSize(w, h) < |input|
      && Converted(input, w, h, k) == Channel(input[pY], input[pV + UvSize(w, h)], input[pV], k - p)
  {
    hide LumaWalk, ChromaWalk, Channel, ConvertedPixel, Converted, Covered, ImgSize, UvSize;
    PixelOfBlock(input, w, h, y, x, dy, dx, k - p);
    PixelConverted(input, w, h, y + dy, x + dx, k);
  }

  /** The part of the input that a block reads, and the part of the output that it writes. */
  lemma BlockInBounds(w: nat, h: nat, y: nat, x: nat)
    requires y % 2 == 0 && x % 2 == 0 && y < h / 2 * 2 && x < w / 2 * 2
    ensures LumaWalk(w, y, x) + w + 1 < ImgSize(w, h)
    ensures ChromaWalk(w, y, x) < UvSize(w, h)
    ensures 3 * (w * y + x) + 3 * w + 6 <= 3 * ImgSize(w, h)
  {
    hide LumaWalk, ChromaWalk, ImgSize;
    WalkInBlock(w, y, x, 1, 1);
    LumaWalkInBounds(w, h, y + 1, x + 1);
    ChromaWalkInBounds(w, h, y, x);
    BlockOutputBound(w, h, y, x);
  }

  /** The four pixels of block (y, x), one after the other. */
  lemma BlockByteOfPixel(input: seq<byte>, before: byte, w: nat, h: nat,
                         y: nat, x: nat, dy: nat, dx: nat, p: nat, k: nat)
    requires |input| >= InputSize(w, h)
    requires y % 2 == 0 && x % 2 == 0 && dy < 2 && dx < 2 && y < h / 2 * 2 && x < w / 2 * 2
    requires p == 3 * (w * y + x)
    requires var q := p + 3 * Down(w, dy) + 3 * dx; q <= k < q + 3
    ensures Covered(w, h, k)
    ensures var pY, pV := LumaWalk(w, y, x), ImgSize(w, h) + ChromaWalk(w, y, x);
      && pY + w + 1 < |input| && pV + UvSize(w, h) < |input|
      && BlockByte(input, before, w, p, pY, pV + UvSize(w, h), pV, k) == Converted(input, w, h, k)
  {
    hide LumaWalk, ChromaWalk, Channel, Converted, Covered, ImgSize, UvSize;
    BlockInBounds(w, h, y, x);
    OutputPosition(w, y, x, dy, dx);
    BytesOfBlock(input, w, h, y, x, dy, dx, 3 * (w * (y + dy) + (x + dx)), k);
  }

  /** A byte of block (y, x) is converted by that step, any other byte is left alone by it. */
  lemma BlockByteIsConverted(input: seq<byte>, before: byte, w: nat, h: nat, y: nat, x: nat, p: nat, k: nat)
    requires |input| >= InputSize(w, h)
    requires y % 2 == 0 && x % 2 == 0 && y < h / 2 * 2 && x < w / 2 * 2
    requires p == 3 * (w * y + x)
    ensures var pY, pV := LumaWalk(w, y, x), ImgSize(w, h) + ChromaWalk(w, y, x);
      && pY + w + 1 < |input| && pV + UvSize(w, h) < |input|
      && (InBlock(w, y, x, k) ==> Covered(w, h, k))
      && BlockByte(input, before, w, p, pY, pV + UvSize(w, h), pV, k)
         == if InBlock(w, y, x, k) then Converted(input, w, h, k) else before
  {
    hide LumaWalk, ChromaWalk, Channel, Converted, Covered, ImgSize, UvSize;
    BlockInBounds(w, h, y, x);
    if p <= k < p + 3 {
      BlockByteOfPixel(input, before, w, h, y, x, 0, 0, p, k);
    } else if p + 3 <= k < p + 6 {
      BlockByteOfPixel(input, before, w, h, y, x, 0, 1, p, k);
    } else if p + 3 * w <= k < p + 3 * w + 3 {
      BlockByteOfPixel(input, before, w, h, y, x, 1, 0, p, k);
    } else if p + 3 * w + 3 <= k < p + 3 * w + 6 {
      BlockByteOfPixel(input, before, w, h, y, x, 1, 1, p, k);
    }
  }

  lemma BlockEndsDone(w: nat, h: nat, y: nat, x: nat, k: nat)
    requires y % 2 == 0 && x % 2 == 0 && y < h / 2 * 2 && x < w / 2 * 2
    ensures Done(w, h, y, x, k) || InBlock(w, y, x, k) ==> Covered(w, h, k)
    ensures Done(w, h, y, x + 2, k) <==> Done(w, h, y, x, k) || InBlock(w, y, x, k)
  {
    hide Row, Col, InBlock;
    BlocksTileTheImage(w, h, y, x, k);
  }

  /** The pointers when the walk stands at block (y, x). */
  predicate AtBlock(w: nat, h: nat, y: nat, x: nat, pY: nat, pU: nat, pV: nat) {
    && y % 2 == 0 && x % 2 == 0 && y < h / 2 * 2 && x < w / 2 * 2
    && pY == LumaWalk(w, y, x) && pV == ImgSize(w, h) + ChromaWalk(w, y, x) && pU == pV + UvSize(w, h)
  }

  /** Converting block (y, x) moves the finished part on by one block. */
  lemma BlockExtendsDone(input: seq<byte>, before: seq<byte>, middle: seq<byte>, after: seq<byte>,
                         w: nat, h: nat, y: nat, x: nat, p: nat, pY: nat, pU: nat, pV: nat)
    requires DoneSoFar(input, before, middle, w, h, y, x)
    requires AtBlock(w, h, y, x, pY, pU, pV)
    requires p == 3 * (w * y + x)
    requires BlockConverted(input, middle, after, w, p, pY, pU, pV)
    ensures DoneSoFar(input, before, after, w, h, y, x + 2)
  {
    hide LumaWalk, ChromaWalk, InBlock, Converted, Covered, BlockByte, Done, ImgSize, UvSize;
    forall k | 0 <= k < |after|
      ensures Done(w, h, y, x + 2, k) ==> Covered(w, h, k)
      ensures after[k] == if Done(w, h, y, x + 2, k) then Converted(input, w, h, k) else before[k]
    {
      BlockByteIsConverted(input, middle[k], w, h, y, x, p, k);
      BlockEndsDone(w, h, y, x, k);
    }
  }

  lemma WalkRight(w: nat, y: nat, x: nat)
    requires x % 2 == 0
    ensures LumaWalk(w, y, x + 2) == LumaWalk(w, y, x) + 2
    ensures ChromaWalk(w, y, x + 2) == ChromaWalk(w, y, x) + 1
  {
  }

  lemma WalkDown(w: nat, y: nat, x: nat)
    requires y % 2 == 0 && x == w / 2 * 2
    ensures LumaWalk(w, y + 2, 0) == LumaWalk(w, y, x) + w
    ensures ChromaWalk(w, y + 2, 0) == ChromaWalk(w, y, x)
  {
    var r, step := y / 2, 2 * (w / 2) + w;
    assert (r + 1) * step == r * step + step && (r + 1) * (w / 2) == r * (w / 2) + w / 2;
    assert (y + 2) / 2 == r + 1;
  }

  lemma RowPairDone(input: seq<byte>, before: seq<byte>, after: seq<byte>, w: nat, h: nat, y: nat, x: nat)
    requires x + 2 > w && x % 2 == 0 && DoneSoFar(input, before, after, w, h, y, x)
    ensures DoneSoFar(input, before, after, w, h, y + 2, 0)
  {
    hide Row, Col, Converted, ImgSize, UvSize;
  }

  lemma DoneSoFarSizes(input: seq<byte>, before: seq<byte>, after: seq<byte>, w: nat, h: nat, y: nat, x: nat)
    requires DoneSoFar(input, before, after, w, h, y, x)
    ensures |before| == |after| && |input| >= InputSize(w, h)
  {
    hide Done, Covered, Converted, InputSize;
  }

  method ConvertNextBlock(input: array<byte>, output: array<byte>, w: nat, h: nat, y: nat, x: nat,
                          pY: nat, pU: nat, pV: nat, ghost before: seq<byte>)
    requires input != output && output.Length >= 3 * ImgSize(w, h)
    requires y % 2 == 0 && x % 2 == 0 && y < h / 2 * 2 && x < w / 2 * 2
    requires pY == LumaWalk(w, y, x) && pV == ImgSize(w, h) + ChromaWalk(w, y, x) && pU == pV + UvSize(w, h)
    requires DoneSoFar(input[..], before, output[..], w, h, y, x)
    modifies output
    ensures DoneSoFar(input[..], before, output[..], w, h, y, x + 2)
  {
    hide LumaWalk, ChromaWalk, DoneSoFar, ImgSize, UvSize, BlockByte, BlockConverted;
    ghost var middle := output[..];
    BlockInBounds(w, h, y, x);
    DoneSoFarSizes(input[..], before, middle, w, h, y, x);
    assert 3 * w * y + x * 3 == 3 * (w * y + x);
    ConvertBlock(input, output, w, 3 * w * y + x * 3, pY, pU, pV);
    BlockExtendsDone(input[..], before, middle, output[..], w, h, y, x, 3 * w * y + x * 3, pY, pU, pV);
  }

  /** The inner loop: convert two rows of pixels. */
  method ConvertRowPair(input: array<byte>, output: array<byte>, w: nat, h: nat, y: nat, pY: nat, pU: nat, pV: nat,
                        ghost before: seq<byte>)
      returns (pY': nat, pU': nat, pV': nat)
    requires input != output && y % 2 == 0 && y < h / 2 * 2
    requires output.Length >= 3 * ImgSize(w, h)
    requires pY == LumaWalk(w, y, 0) && pV == ImgSize(w, h) + ChromaWalk(w, y, 0) && pU == pV + UvSize(w, h)
    requires DoneSoFar(input[..], before, output[..], w, h, y, 0)
    modifies output
    ensures pY' == LumaWalk(w, y, w / 2 * 2)
    ensures pV' == ImgSize(w, h) + ChromaWalk(w, y, w / 2 * 2) && pU' == pV' + UvSize(w, h)
    ensures DoneSoFar(input[..], before, output[..], w, h, y, w / 2 * 2)
  {
    hide *;
    pY', pU', pV' := pY, pU, pV;
    var x := 0;
    while x <= w - 2
      invariant x % 2 == 0 && 0 <= x <= w / 2 * 2
      invariant pY' == LumaWalk(w, y, x) && pV' == ImgSize(w, h) + ChromaWalk(w, y, x) && pU' == pV' + UvSize(w, h)
      invariant DoneSoFar(input[..], before, output[..], w, h, y, x)
    {
      BlockInBounds(w, h, y, x);
      WalkRight(w, y, x);
      ConvertNextBlock(input, output, w, h, y, x, pY', pU', pV', before);
      pU' := pU' + 1;
      pV' := pV' + 1;
      pY' := pY' + 2;
      x := x + 2;
    }
  }

  /** The conversion, pointers and all; the second plane is called V and the third U. */
  method Yuv420ToRgb(input: array<byte>, output: array<byte>, w: nat, h: nat)
    requires input != output
    requires input.Length >= InputSize(w, h) && output.Length >= 3 * ImgSize(w, h)
    modifies output
    ensures forall k :: 0 <= k < output.Length ==>
      output[k] == if Covered(w, h, k) then Converted(input[..], w, h, k) else old(output[k])
  {
    hide *;
    var imgSize, uvSize := ImgSize(w, h), UvSize(w, h);
    var pY, pV, pU := 0, imgSize, imgSize + uvSize;
    var y := 0;
    ghost var before := output[..];
    NothingDone(input[..], before, w, h);
    WalkStart(w);
    while y <= h - 2
      invariant y % 2 == 0 && 0 <= y <= h / 2 * 2
      invariant pY == LumaWalk(w, y, 0) && pV == ImgSize(w, h) + ChromaWalk(w, y, 0) && pU == pV + uvSize
      invariant DoneSoFar(input[..], before, output[..], w, h, y, 0)
    {
      pY, pU, pV := ConvertRowPair(input, output, w, h, y, pY, pU, pV, before);
      WalkDown(w, y, w / 2 * 2);
      RowPairDone(input[..], before, output[..], w, h, y, w / 2 * 2);
      pY := pY + w;
      y := y + 2;
    }
    AllDone(input[..], before, output[..], w, h, y);
  }

  lemma WalkStart(w: nat)
    ensures LumaWalk(w, 0, 0) == 0 && ChromaWalk(w, 0, 0) == 0
  {
  }

  lemma NothingDone(input: seq<byte>, before: seq<byte>, w: nat, h: nat)
    requires |input| >= InputSize(w, h)
    ensures DoneSoFar(input, before, before, w, h, 0, 0)
  {
    hide Row, Col, Converted, InputSize;
  }

  lemma AllDone(input: seq<byte>, before: seq<byte>, after: seq<byte>, w: nat, h: nat, y: nat)
    requires y == h / 2 * 2 && DoneSoFar(input, before, after, w, h, y, 0)
    ensures forall k :: 0 <= k < |after| ==>
      after[k] == if Covered(w, h, k) then Converted(input, w, h, k) else before[k]
  {
    hide Row, Col, Converted, InputSize;
  }

  // ---- what the walk means ------------------------------------------------------------------

  lemma EvenWalk(w: nat, row: nat, col: nat)
    requires w % 2 == 0
    ensures LumaWalk(w, row, col) == row * w + col
  {
    assert row == 2 * (row / 2) + row % 2;
    assert row / 2 * (2 * w) == 2 * (row / 2) * w;
  }

  lemma FirstRowsWalk(w: nat, row: nat, col: nat)
    requires row < 2
    ensures LumaWalk(w, row, col) == row * w + col
  {
  }

  /** With an odd width the luma pointer falls one sample behind per row pair. */
  lemma OddWalkDrifts(w: nat)
    requires w % 2 == 1
    ensures LumaWalk(w, 2, 0) == 2 * w - 1
  {
  }

  /**
   The walk visits the luma samples in row-major order exactly when the width is even, or so
   small or the frame so low that there is no second row pair to drift in.
   */
  lemma LumaWalkIsRowMajorExactly(w: nat, h: nat)
    ensures (forall row: nat, col: nat :: row < h / 2 * 2 && col < w / 2 * 2 ==> LumaWalk(w, row, col) == row * w + col)
       <==> w % 2 == 0 || w < 2 || h < 4
  {
    hide LumaWalk;
    if w % 2 == 0 {
      forall row: nat, col: nat ensures LumaWalk(w, row, col) == row * w + col {
        EvenWalk(w, row, col);
      }
    } else if h < 4 {
      forall row: nat, col: nat | row < h / 2 * 2 ensures LumaWalk(w, row, col) == row * w + col {
        FirstRowsWalk(w, row, col);
      }
    } else if w >= 2 {
      OddWalkDrifts(w);
      assert LumaWalk(w, 2, 0) != 2 * w + 0;
    }
  }

  /** Channel `channel` of the output pixel at (row, col) is made from the input samples at y, u and v. */
  predicate MadeFrom(input: seq<byte>, w: nat, h: nat, row: nat, col: nat, channel: nat, y: int, u: int, v: int) {
    var k := OutputIndex(w, row, col, channel);
    && |input| >= InputSize(w, h)
    && 0 <= y < |input| && 0 <= u < |input| && 0 <= v < |input|
    && k < 3 * ImgSize(w, h) && Covered(w, h, k)
    && Converted(input, w, h, k) == Channel(input[y], input[u], input[v], channel)
  }

  function OutputIndex(w: nat, row: nat, col: nat, channel: nat): nat {
    3 * (w * row + col) + channel
  }

  /**
   For even sizes the pixel at (row, col) takes luma sample row * w + col and chroma sample
   row / 2 * (w / 2) + col / 2 of the third and the second plane.
   */
  lemma EvenSizesConvertByIndex(input: seq<byte>, w: nat, h: nat, row: nat, col: nat, channel: nat)
    requires w % 2 == 0 && h % 2 == 0 && row < h && col < w && channel < 3
    requires |input| >= InputSize(w, h)
    ensures MadeFrom(input, w, h, row, col, channel, row * w + col,
                     ImgSize(w, h) + UvSize(w, h) + (row / 2 * (w / 2) + col / 2),
                     ImgSize(w, h) + (row / 2 * (w / 2) + col / 2))
  {
    EvenWalk(w, row, col);
    LumaWalkInBounds(w, h, row, col);
    ChromaWalkInBounds(w, h, row, col);
    assert ChromaWalk(w, row, col) == row / 2 * (w / 2) + col / 2;
    hide LumaWalk, ChromaWalk, Channel, Converted, Covered, UvSize, ImgSize;
    RowMajorBound(w, h, row, col);
    PixelConverted(input, w, h, row, col, OutputIndex(w, row, col, channel));
  }

  lemma RowMajorBound(w: nat, h: nat, row: nat, col: nat)
    requires row < h && col < w
    ensures w * row + col < ImgSize(w, h)
  {
    MulLe(row + 1, h, w);
    assert (row + 1) * w == w * row + w;
  }

  /** What the 2 x 2 blocks leave out: the last row of an odd height and the last column of an odd width. */
  lemma CoveredExactly(w: nat, h: nat, k: nat)
    requires w > 0
    ensures Covered(w, h, k) <==> k / 3 / w < h - h % 2 && k / 3 % w < w - w % 2
  {
  }

  /** For even sizes nothing of the output is left out. */
  lemma EvenSizesAreCovered(w: nat, h: nat, k: nat)
    requires w % 2 == 0 && h % 2 == 0 && k < 3 * ImgSize(w, h)
    ensures Covered(w, h, k)
  {
    var q := k / 3;
    assert w > 0;
    DivMod(q, w);
    if q / w >= h {
      MulLe(h, q / w, w);
      assert h * w == w * h;
    }
  }
}
