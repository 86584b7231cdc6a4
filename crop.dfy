/** The hand crop of the word detector (WordsDetection/app_word.py): the
    bounding box reported for the hand is enlarged by a margin on every side,
    clamped to the image, and used to slice the image. */
module Crop {

  /** `offset`: the margin, in pixels, added around the bounding box. */
  const Offset: int := 20

  /** Rows `yStart` up to `yEnd` and columns `xStart` up to `xEnd`, as the
      slice bounds `img[y_start:y_end, x_start:x_end]`. */
  datatype Box = Box(yStart: int, yEnd: int, xStart: int, xEnd: int)

  function Max(a: int, b: int): int { if a >= b then a else b }

  function Min(a: int, b: int): int { if a <= b then a else b }

  /** `lo <= i < hi`. */
  predicate InSpan(lo: int, hi: int, i: int)
  {
    lo <= i < hi
  }

  /** The clamped crop bounds for a hand box at (x, y) of size w by h in an
      image of `height` rows and `width` columns. Every start is at least 0,
      every end at most the image's extent, and a pixel of the image lies
      inside the bounds exactly when it lies inside the enlarged hand box. */
  function CropBox(x: int, y: int, w: int, h: int, height: nat, width: nat): (b: Box)
    ensures 0 <= b.yStart && b.yEnd <= height
    ensures 0 <= b.xStart && b.xEnd <= width
    ensures forall r :: 0 <= r < height ==>
      (InSpan(b.yStart, b.yEnd, r) <==> InSpan(y - Offset, y + h + Offset, r))
    ensures forall c :: 0 <= c < width ==>
      (InSpan(b.xStart, b.xEnd, c) <==> InSpan(x - Offset, x + w + Offset, c))
  {
    Box(Max(0, y - Offset), Min(height, y + h + Offset),
        Max(0, x - Offset), Min(width, x + w + Offset))
  }

  /** How Python resolves one slice bound against an axis of length n: a
      negative bound counts from the end, and both ends are clipped. */
  function SliceBound(i: int, n: nat): (k: nat)
    ensures k <= n
  {
    if i < 0 then Max(i + n, 0) else Min(i, n)
  }

  /** The length of `a[start:stop]` for an axis of length n. */
  function SliceLen(start: int, stop: int, n: nat): (len: nat)
    ensures len <= n
    ensures 0 <= start <= stop <= n ==> len == stop - start
    ensures 0 <= stop <= start ==> len == 0
  {
    var lo := SliceBound(start, n);
    var hi := SliceBound(stop, n);
    if hi > lo then hi - lo else 0
  }

  /** `imgCrop.size == 0`: the slice of a three-channel image has no
      elements, which happens when it has no rows or no columns. */
  predicate CropEmpty(b: Box, height: nat, width: nat)
    ensures CropEmpty(b, height, width) <==>
      SliceLen(b.yStart, b.yEnd, height) * SliceLen(b.xStart, b.xEnd, width) * 3 == 0
  {
    SliceLen(b.yStart, b.yEnd, height) == 0 || SliceLen(b.xStart, b.xEnd, width) == 0
  }

  /** Length of the intersection of [lo1, hi1) and [lo2, hi2). */
  function Overlap(lo1: int, hi1: int, lo2: int, hi2: int): nat
  {
    var lo := Max(lo1, lo2);
    var hi := Min(hi1, hi2);
    if hi > lo then hi - lo else 0
  }

  /** When the enlarged box does not end above or left of the image's
      origin, the crop has as many rows and columns as the enlarged box
      shares with the image; so the crop is empty exactly when the enlarged
      box misses the image. */
  lemma CropMatchesOverlap(x: int, y: int, w: int, h: int, height: nat, width: nat)
    requires y + h + Offset >= 0 && x + w + Offset >= 0
    ensures var b := CropBox(x, y, w, h, height, width);
      && SliceLen(b.yStart, b.yEnd, height) == Overlap(y - Offset, y + h + Offset, 0, height)
      && SliceLen(b.xStart, b.xEnd, width) == Overlap(x - Offset, x + w + Offset, 0, width)
      && (CropEmpty(b, height, width) <==>
          Overlap(y - Offset, y + h + Offset, 0, height) == 0 ||
          Overlap(x - Offset, x + w + Offset, 0, width) == 0)
  {
  }

  /** A box whose enlarged bottom edge lies above the image, but by less
      than the image's height, gives a negative `y_end`, which Python reads
      as counting from the bottom: the crop then takes the image's top
      `height + y_end` rows although the enlarged box misses the image. (A
      box further up gives a `y_end` that clips to 0, and an empty crop.) */
  lemma NegativeEndWrapsAround(x: int, y: int, w: int, h: int, height: nat, width: nat)
    requires w >= 0 && h >= 0
    requires -(height as int) < y + h + Offset < 0
    requires x + w + Offset > 0 && x - Offset < width && width > 0
    ensures var b := CropBox(x, y, w, h, height, width);
      && b.yEnd < 0
      && Overlap(y - Offset, y + h + Offset, 0, height) == 0
      && SliceLen(b.yStart, b.yEnd, height) == height + y + h + Offset
      && !CropEmpty(b, height, width)
  {
  }

  /** For example, a box 10 rows high at y = -100 in a 480 by 640 image
      yields a crop of 410 rows. */
  lemma NegativeEndExample()
    ensures var b := CropBox(0, -100, 50, 10, 480, 640);
      && b.yEnd == -70
      && SliceLen(b.yStart, b.yEnd, 480) == 410
      && !CropEmpty(b, 480, 640)
  {
    NegativeEndWrapsAround(0, -100, 50, 10, 480, 640);
  }
}
