/** The sizes of the planes of a tightly packed w x h frame, and the fact about products behind all bounds. */
module Planes {
  lemma MulLe(m: int, n: int, c: int)
    requires m <= n && c >= 0
    ensures m * c <= n * c
  {
  }

  /** imgsize and uvsize of yuv420_to_rgb; the int cast of imgsize / 4.0 rounds down. */
  function ImgSize(w: nat, h: nat): nat {
    w * h
  }

  function UvSize(w: nat, h: nat): nat {
    w * h / 4
  }

  function InputSize(w: nat, h: nat): nat {
    ImgSize(w, h) + UvSize(w, h) + UvSize(w, h)
  }

  /** Where yuv420_to_rgb expects the planes. */
  function TightStart(w: nat, h: nat, plane: int): nat {
    if plane == 0 then 0 else if plane == 1 then ImgSize(w, h) else ImgSize(w, h) + UvSize(w, h)
  }
}
