/**
 EventManager::Subtraction: compare the luma planes of two frames, count the pixels that differ
 and paint the difference. BackgroundSubtraction passes a dst that shares its pixels with img2.
 */
module MotionDetect {
  import opened Bytes

  const THRESHOLD1: nat := 40
  const THRESHOLD2: nat := 300

  /** abs of the difference. */
  function AbsDiff(a: byte, b: byte): (d: nat)
    ensures (d == a - b || d == b - a) && d >= a - b && d >= b - a
  {
    if a >= b then a - b else b - a
  }

  /** The pixels among the first n whose luma differs by more than the threshold. */
  function Differing(image1: seq<byte>, image2: seq<byte>, n: nat, threshold: int): set<nat>
    requires n <= |image1| && n <= |image2|
  {
    set k: nat | k < n && AbsDiff(image1[k], image2[k]) > threshold
  }

  lemma DifferingStep(image1: seq<byte>, image2: seq<byte>, n: nat, threshold: int)
    requires n < |image1| && n < |image2|
    ensures |Differing(image1, image2, n + 1, threshold)|
         == |Differing(image1, image2, n, threshold)| + if AbsDiff(image1[n], image2[n]) > threshold then 1 else 0
  {
    var before, after := Differing(image1, image2, n, threshold), Differing(image1, image2, n + 1, threshold);
    if AbsDiff(image1[n], image2[n]) > threshold {
      assert after == before + {n};
    } else {
      assert after == before;
    }
  }

  /** An output pixel: the new luma where the frames differ, black elsewhere. */
  function Painted(a: byte, b: byte, threshold: int): byte {
    if AbsDiff(a, b) > threshold then a else 16
  }

  /** In plain numbers: the pixels that differ by more than 40 either way, and what is painted. */
  lemma DifferingInNumbers(a: seq<byte>, b: seq<byte>, n: nat)
    requires n <= |a| && n <= |b|
    ensures Differing(a, b, n, THRESHOLD1)
         == set k: nat | k < n && (a[k] as int - b[k] as int > 40 || b[k] as int - a[k] as int > 40)
    ensures forall k: nat :: k < n ==>
      Painted(a[k], b[k], THRESHOLD1)
        == if a[k] as int - b[k] as int > 40 || b[k] as int - a[k] as int > 40 then a[k] else 16
  {
  }

  /** What the loops have done when the first n pixels are through; a, b and d are the arrays on entry. */
  predicate Subtracted(a: seq<byte>, b: seq<byte>, d: seq<byte>,
                       image1: array<byte>, image2: array<byte>, dst: array<byte>, n: nat, cnt: int, threshold: int)
    reads image1, image2, dst
  {
    && |a| == image1.Length && |b| == image2.Length && |d| == dst.Length
    && n <= |a| && n <= |b| && n <= |d|
    && cnt == |Differing(a, b, n, threshold)|
    && (forall k :: 0 <= k < n ==> dst[k] == Painted(a[k], b[k], threshold))
    && (forall k :: n <= k < |d| ==> dst[k] == d[k])
    && (forall k :: n <= k < |a| ==> image1[k] == a[k])
    && (forall k :: n <= k < |b| ==> image2[k] == b[k])
  }

  /** The body of the inner loop, for the pixel at index k. */
  method SubtractPixel(ghost a: seq<byte>, ghost b: seq<byte>, ghost d: seq<byte>,
                       image1: array<byte>, image2: array<byte>, dst: array<byte>, k: nat, cnt: int) returns (cnt': int)
    requires k < image1.Length && k < image2.Length && k < dst.Length
    requires Subtracted(a, b, d, image1, image2, dst, k, cnt, THRESHOLD1)
    modifies dst
    ensures Subtracted(a, b, d, image1, image2, dst, k + 1, cnt', THRESHOLD1)
  {
    DifferingStep(a, b, k, THRESHOLD1);
    hide Differing;
    cnt' := cnt;
    var value := AbsDiff(image1[k], image2[k]);
    if value > THRESHOLD1 {
      dst[k] := image1[k];
      cnt' := cnt' + 1;
    } else {
      dst[k] := 16;
    }
  }

  /** The inner loop, over the pixels of one row that starts at index `start`. */
  method SubtractRow(ghost a: seq<byte>, ghost b: seq<byte>, ghost d: seq<byte>,
                     image1: array<byte>, image2: array<byte>, dst: array<byte>, start: nat, width: nat, cnt: int)
      returns (cnt': int)
    requires start + width <= image1.Length && start + width <= image2.Length && start + width <= dst.Length
    requires Subtracted(a, b, d, image1, image2, dst, start, cnt, THRESHOLD1)
    modifies dst
    ensures Subtracted(a, b, d, image1, image2, dst, start + width, cnt', THRESHOLD1)
  {
    hide *;
    cnt' := cnt;
    for y := 0 to width
      invariant Subtracted(a, b, d, image1, image2, dst, start + y, cnt', THRESHOLD1)
    {
      cnt' := SubtractPixel(a, b, d, image1, image2, dst, start + y, cnt');
    }
  }

  lemma NothingSubtracted(image1: array<byte>, image2: array<byte>, dst: array<byte>)
    ensures Subtracted(image1[..], image2[..], dst[..], image1, image2, dst, 0, 0, THRESHOLD1)
  {
    assert Differing(image1[..], image2[..], 0, THRESHOLD1) == {};
  }

  /**
   Subtraction. The three pixel arrays may be the same or different ones: every pixel is read
   before it is written, so the answer and the picture are those of the frames as they came in.
   */
  method Subtraction(image1: array<byte>, image2: array<byte>, dst: array<byte>, width: nat, height: nat)
      returns (moved: int)
    requires width * height <= image1.Length && width * height <= image2.Length && width * height <= dst.Length
    modifies dst
    ensures moved == 1 || moved == 0
    ensures var a, b := old(image1[..]), old(image2[..]);
      && (moved == 1 <==>
            |set k: nat | k < width * height
               && (a[k] as int - b[k] as int > 40 || b[k] as int - a[k] as int > 40)| > 300)
      && forall k :: 0 <= k < width * height ==>
           dst[k] == if a[k] as int - b[k] as int > 40 || b[k] as int - a[k] as int > 40 then a[k] else 16
    ensures forall k :: width * height <= k < dst.Length ==> dst[k] == old(dst[k])
  {
    assert THRESHOLD2 == 300;
    hide *;
    var cnt := 0;
    ghost var a, b, d := image1[..], image2[..], dst[..];
    NothingSubtracted(image1, image2, dst);
    for x := 0 to height
      invariant Subtracted(a, b, d, image1, image2, dst, x * width, cnt, THRESHOLD1)
    {
      RowEnds(width, height, x);
      cnt := SubtractRow(a, b, d, image1, image2, dst, x * width, width, cnt);
    }
    assert height * width == width * height;
    SubtractedMeans(a, b, d, image1, image2, dst, width * height, cnt, THRESHOLD1);
    DifferingInNumbers(a, b, width * height);
    if cnt > THRESHOLD2 {
      return 1;
    }
    return 0;
  }

  lemma SubtractedMeans(a: seq<byte>, b: seq<byte>, d: seq<byte>,
                        image1: array<byte>, image2: array<byte>, dst: array<byte>, n: nat, cnt: int, threshold: int)
    requires Subtracted(a, b, d, image1, image2, dst, n, cnt, threshold)
    ensures |a| >= n && |b| >= n && |d| == dst.Length && cnt == |Differing(a, b, n, threshold)|
    ensures forall k :: 0 <= k < n ==> dst[k] == Painted(a[k], b[k], threshold)
    ensures forall k :: n <= k < dst.Length ==> dst[k] == d[k]
  {
  }

  lemma RowEnds(width: nat, height: nat, x: nat)
    requires x < height
    ensures x * width + width == (x + 1) * width <= width * height
  {
    assert (x + 1) * width <= height * width;
  }

  /** The comparison in BackgroundSubtraction: the second frame against the first, painted over the first. */
  method CompareInPlace(temp: array<byte>, image: array<byte>, width: nat, height: nat) returns (moved: int)
    requires width * height <= temp.Length && width * height <= image.Length
    modifies temp
    ensures moved == 1 <==> |Differing(old(image[..]), old(temp[..]), width * height, THRESHOLD1)| > THRESHOLD2
    ensures moved == 1 || moved == 0
  {
    var dest := temp;
    ghost var a, b := image[..], temp[..];
    moved := Subtraction(image, temp, dest, width, height);
    DifferingInNumbers(a, b, width * height);
  }
}
