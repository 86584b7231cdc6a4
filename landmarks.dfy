/** `pre_process_landmark` (AlphabetDetection/app.py): turns the hand's
    landmark pixels into the classifier's input vector. The coordinates are
    re-based on the wrist (landmark 0), flattened to x0, y0, x1, y1, ... and
    divided by the largest absolute value among them (or by 1 when they are
    all 0). Division is over exact reals. */
module Landmarks {

  /** One landmark in integer pixel coordinates. */
  datatype Point = Point(x: int, y: int)

  function Abs(n: int): nat
  {
    if n < 0 then -n else n
  }

  /** Every point taken relative to `base`. */
  function Rebase(points: seq<Point>, base: Point): (r: seq<Point>)
    ensures |r| == |points|
    ensures forall k :: 0 <= k < |points| ==> r[k] == Point(points[k].x - base.x, points[k].y - base.y)
  {
    seq(|points|, k requires 0 <= k < |points| => Point(points[k].x - base.x, points[k].y - base.y))
  }

  /** `itertools.chain.from_iterable`: x0, y0, x1, y1, ... */
  function Flatten(points: seq<Point>): (r: seq<int>)
    ensures |r| == 2 * |points|
    ensures forall k :: 0 <= k < |points| ==> r[2 * k] == points[k].x && r[2 * k + 1] == points[k].y
  {
    if points == [] then [] else [points[0].x, points[0].y] + Flatten(points[1..])
  }

  /** `max(map(abs, values))`, and 0 for no values. */
  function MaxAbs(values: seq<int>): (m: nat)
    ensures forall i :: 0 <= i < |values| ==> Abs(values[i]) <= m
    ensures values == [] ==> m == 0
    ensures values != [] ==> exists i :: 0 <= i < |values| && Abs(values[i]) == m
  {
    if values == [] then 0
    else
      var rest := MaxAbs(values[1..]);
      if Abs(values[0]) >= rest then Abs(values[0]) else rest
  }

  /** `max(...) or 1`: the divisor, never 0. */
  function Divisor(values: seq<int>): (d: real)
    ensures d >= 1.0
    ensures forall i :: 0 <= i < |values| ==> Abs(values[i]) as real <= d
  {
    if MaxAbs(values) == 0 then 1.0 else MaxAbs(values) as real
  }

  /** The re-based, flattened coordinates of a hand. */
  function Offsets(landmarks: seq<Point>): seq<int>
    requires |landmarks| > 0
  {
    Flatten(Rebase(landmarks, landmarks[0]))
  }

  /** The vector `pre_process_landmark` returns. */
  function Normalized(landmarks: seq<Point>): (r: seq<real>)
    requires |landmarks| > 0
    ensures |r| == 2 * |landmarks|
  {
    var offsets := Offsets(landmarks);
    seq(|offsets|, i requires 0 <= i < |offsets| => offsets[i] as real / Divisor(offsets))
  }

  /** `pre_process_landmark`: copies the landmarks, re-bases the copy in
      place, flattens it and scales it. */
  method PreProcessLandmark(landmarks: seq<Point>) returns (r: seq<real>)
    requires |landmarks| > 0
    ensures r == Normalized(landmarks)
  {
    var temp := new Point[|landmarks|](k requires 0 <= k < |landmarks| => landmarks[k]);
    var base := temp[0];
    var i := 0;
    while i < temp.Length
      invariant 0 <= i <= temp.Length
      invariant forall k :: 0 <= k < i ==> temp[k] == Point(landmarks[k].x - base.x, landmarks[k].y - base.y)
      invariant forall k :: i <= k < temp.Length ==> temp[k] == landmarks[k]
    {
      temp[i] := Point(temp[i].x - base.x, temp[i].y - base.y);
      i := i + 1;
    }
    assert temp[..] == Rebase(landmarks, landmarks[0]);
    var flat := Flatten(temp[..]);
    var divisor := Divisor(flat);
    r := seq(|flat|, j requires 0 <= j < |flat| => flat[j] as real / divisor);
  }

  /** The vector holds two entries per landmark, and the first landmark,
      the base, becomes (0, 0). */
  lemma NormalizedShape(landmarks: seq<Point>)
    requires |landmarks| > 0
    ensures |Normalized(landmarks)| == 2 * |landmarks|
    ensures Normalized(landmarks)[0] == 0.0 && Normalized(landmarks)[1] == 0.0
  {
    var offsets := Offsets(landmarks);
    var rebased := Rebase(landmarks, landmarks[0]);
    assert rebased[0] == Point(0, 0);
    assert offsets[2 * 0] == 0 && offsets[2 * 0 + 1] == 0;
    assert Normalized(landmarks)[0] == offsets[0] as real / Divisor(offsets);
    assert Normalized(landmarks)[1] == offsets[1] as real / Divisor(offsets);
  }

  lemma QuotientBounded(v: int, m: nat)
    requires Abs(v) <= m && m > 0
    ensures -1.0 <= v as real / m as real <= 1.0
  {
    var q := v as real / m as real;
    assert q * m as real == v as real;
  }

  /** Every entry lies in [-1, 1]. */
  lemma NormalizedBounded(landmarks: seq<Point>)
    requires |landmarks| > 0
    ensures forall i :: 0 <= i < |Normalized(landmarks)| ==> -1.0 <= Normalized(landmarks)[i] <= 1.0
  {
    var offsets := Offsets(landmarks);
    var m := MaxAbs(offsets);
    var n := Normalized(landmarks);
    forall i | 0 <= i < |n|
      ensures -1.0 <= n[i] <= 1.0
    {
      assert n[i] == offsets[i] as real / Divisor(offsets);
      if m == 0 {
        assert offsets[i] == 0;
        assert n[i] == 0.0;
      } else {
        assert Divisor(offsets) == m as real;
        QuotientBounded(offsets[i], m);
      }
    }
  }

  lemma UnitQuotient(v: int, m: nat)
    requires Abs(v) == m && m > 0
    ensures v as real / m as real == 1.0 || v as real / m as real == -1.0
  {
    if v >= 0 {
      assert v as real == m as real;
    } else {
      assert v as real == -(m as real);
    }
  }

  /** A landmark away from the base makes some offset non-zero. */
  lemma OffsetsNonZero(landmarks: seq<Point>, k: nat)
    requires k < |landmarks| && landmarks[k] != landmarks[0]
    ensures MaxAbs(Offsets(landmarks)) > 0
  {
    var offsets := Offsets(landmarks);
    var rebased := Rebase(landmarks, landmarks[0]);
    assert offsets[2 * k] == rebased[k].x && offsets[2 * k + 1] == rebased[k].y;
  }

  /** Unless every landmark sits on the base, the scaling is tight: some
      entry is exactly 1 or -1. */
  lemma NormalizedTight(landmarks: seq<Point>, k: nat)
    requires k < |landmarks| && landmarks[k] != landmarks[0]
    ensures exists i :: (0 <= i < |Normalized(landmarks)| &&
      (Normalized(landmarks)[i] == 1.0 || Normalized(landmarks)[i] == -1.0))
  {
    OffsetsNonZero(landmarks, k);
    var offsets := Offsets(landmarks);
    var m := MaxAbs(offsets);
    var i :| 0 <= i < |offsets| && Abs(offsets[i]) == m;
    UnitQuotient(offsets[i], m);
    assert Divisor(offsets) == m as real;
    var n := Normalized(landmarks);
    assert |n| == |offsets|;
    assert n[i] == offsets[i] as real / m as real;
  }

  /** Moving the whole hand within the image does not change the vector:
      only positions relative to the wrist matter. */
  lemma NormalizedTranslationInvariant(landmarks: seq<Point>, dx: int, dy: int)
    requires |landmarks| > 0
    ensures Normalized(Rebase(landmarks, Point(-dx, -dy))) == Normalized(landmarks)
  {
    var moved := Rebase(landmarks, Point(-dx, -dy));
    assert Rebase(moved, moved[0]) == Rebase(landmarks, landmarks[0]);
  }
}
