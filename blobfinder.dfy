/**
 * The integer side of the blob finder (virtualreality/util/blobfinder.py):
 * the HSV mask bounds on truncated integers, the crop window kept inside
 * the image, the scan for the first and last marked pixel of a mask row,
 * and the bookkeeping of the last position found. The image work itself
 * (cvtColor, inRange, resize, argwhere) stays outside.
 */
module BlobFinder {
  import opened Wrappers
  import opened ColorCalibration

  /** Python's int() of a float: truncation toward zero. */
  function Trunc(x: real): (r: int)
    ensures x >= 0.0 ==> r as real <= x < r as real + 1.0
    ensures x < 0.0 ==> r as real - 1.0 < x <= r as real
  {
    if x >= 0.0 then x.Floor else -((-x).Floor)
  }

  /** Truncation leaves a whole number as it is. */
  lemma TruncWhole(n: int)
    ensures Trunc(n as real) == n
  {
  }

  /** The mask bounds of mask_for_hsv_range: centre -/+ range, each cut to an integer. */
  function TruncLows(cr: ColorRange): (r: seq<real>)
    ensures |r| == 3 && forall c :: 0 <= c < 3 ==> r[c] == Trunc(Lows(cr)[c]) as real
  {
    [Trunc(Lows(cr)[0]) as real, Trunc(Lows(cr)[1]) as real, Trunc(Lows(cr)[2]) as real]
  }

  function TruncHighs(cr: ColorRange): (r: seq<real>)
    ensures |r| == 3 && forall c :: 0 <= c < 3 ==> r[c] == Trunc(Highs(cr)[c]) as real
  {
    [Trunc(Highs(cr)[0]) as real, Trunc(Highs(cr)[1]) as real, Trunc(Highs(cr)[2]) as real]
  }

  /**
   * mask_for_hsv_range: the same wrap rule as get_color_mask, applied to the
   * truncated bounds. A value passes exactly when it lies in the truncated
   * band, wrapped around the channel's ends.
   */
  method MaskForHsvRange(colormask: ColorRange) returns (b: Bands)
    ensures ThreeChannels(b)
    ensures forall c :: 0 <= c < 3 ==> ChannelOf(b, c) == WrapChannel(TruncLows(colormask)[c], TruncHighs(colormask)[c], ChannelMax(c))
    ensures forall c, x :: 0 <= c < 3 && 0.0 <= x <= ChannelMax(c) ==>
      (InBands(b, c, x) <==> InWrapped(TruncLows(colormask)[c], TruncHighs(colormask)[c], ChannelMax(c), x))
  {
    b := WrapBands(TruncLows(colormask), TruncHighs(colormask));
  }

  /** A colour range with whole bounds, such as CalibrationData makes. */
  predicate WholeBounds(cr: ColorRange)
  {
    forall c :: 0 <= c < 3 ==> Lows(cr)[c] == Lows(cr)[c].Floor as real && Highs(cr)[c] == Highs(cr)[c].Floor as real
  }

  /**
   * For whole bounds the truncation changes nothing, so mask_for_hsv_range
   * and get_color_mask build the same bands.
   */
  lemma WholeBoundsAgree(cr: ColorRange)
    requires WholeBounds(cr)
    ensures TruncLows(cr) == Lows(cr) && TruncHighs(cr) == Highs(cr)
  {
    forall c | 0 <= c < 3
      ensures TruncLows(cr)[c] == Lows(cr)[c] && TruncHighs(cr)[c] == Highs(cr)[c]
    {
      TruncWhole(Lows(cr)[c].Floor);
      TruncWhole(Highs(cr)[c].Floor);
    }
  }

  /** Every range of an even calibration has whole bounds. */
  lemma EvenRangeWhole(i: nat, n: int)
    requires n > 0
    ensures WholeBounds(EvenRange(i, n))
  {
    var r := EvenRange(i, n);
    var d := Spacing(n);
    assert Lows(r)[0] == (i * d - d) as real && Highs(r)[0] == (i * d + d) as real;
  }

  function Min(a: real, b: real): real { if a <= b then a else b }

  function Max(a: real, b: real): real { if a >= b then a else b }

  /**
   * One axis of _get_crop_ends: the start is centre - radius kept within
   * 0 .. size - 2, the end centre + radius + 1 kept within start + 1 .. size - 1,
   * both truncated to integers.
   */
  function CropSpan(size: int, center: real, radius: real): (r: (int, int))
    ensures size >= 2 ==> 0 <= r.0 <= size - 2 && r.0 < r.1 <= size - 1
  {
    var lo := Trunc(Min(Max(0.0, center - radius), (size - 2) as real));
    var hi := Trunc(Min(Max(lo as real + 1.0, center + radius + 1.0), (size - 1) as real));
    (lo, hi)
  }

  /** _get_crop_ends: the crop window (w_min, w_max, h_min, h_max) around a centre. */
  function CropEnds(shape0: int, shape1: int, center: (real, real), radius: real): (r: (int, int, int, int))
    ensures shape0 >= 2 ==> 0 <= r.0 <= shape0 - 2 && r.0 < r.1 <= shape0 - 1
    ensures shape1 >= 2 ==> 0 <= r.2 <= shape1 - 2 && r.2 < r.3 <= shape1 - 1
  {
    var w := CropSpan(shape0, center.0, radius);
    var h := CropSpan(shape1, center.1, radius);
    (w.0, w.1, h.0, h.1)
  }

  /**
   * A blob well inside the image is cropped whole: the window starts at the
   * whole pixel holding centre - radius and ends past centre + radius.
   */
  lemma CropHoldsBlob(size: int, center: real, radius: real)
    requires radius >= 0.0 && 0.0 <= center - radius && center + radius + 1.0 <= (size - 1) as real
    ensures var r := CropSpan(size, center, radius);
      r.0 as real <= center - radius < r.0 as real + 1.0 && center + radius < r.1 as real
  {
  }

  /** Python's enumerate(l): each index with its element. */
  function Enumerate<T>(l: seq<T>): (r: seq<(int, T)>)
    ensures |r| == |l| && forall k :: 0 <= k < |l| ==> r[k] == (k, l[k])
  {
    seq(|l|, k requires 0 <= k < |l| => (k, l[k]))
  }

  /**
   * reversed_enumerate as written: zip(range(len(l) - 1, 0, -1), reversed(l)).
   * The range stops before 0, so the pairs run from the last index down to
   * index 1, each with its own element, and index 0 never comes.
   */
  function ReversedEnumerate<T>(l: seq<T>): (r: seq<(int, T)>)
    ensures |r| == (if |l| == 0 then 0 else |l| - 1)
    ensures forall k :: 0 <= k < |r| ==> r[k] == (|l| - 1 - k, l[|l| - 1 - k])
    ensures forall k :: 0 <= k < |r| ==> r[k].0 != 0
  {
    if |l| <= 1 then [] else [(|l| - 1, l[|l| - 1])] + ReversedEnumerate(l[..|l| - 1])
  }

  /** reversed_enumerate as the name promises: every index, last first, with zip(range(len(l) - 1, -1, -1), reversed(l)). */
  function ReversedEnumerateAll<T>(l: seq<T>): (r: seq<(int, T)>)
    ensures |r| == |l|
    ensures forall k :: 0 <= k < |r| ==> r[k] == (|l| - 1 - k, l[|l| - 1 - k])
  {
    if |l| == 0 then [] else [(|l| - 1, l[|l| - 1])] + ReversedEnumerateAll(l[..|l| - 1])
  }

  /** Pair k is marked and no pair before it is. */
  predicate FirstMarkAt(pairs: seq<(int, int)>, k: int)
  {
    0 <= k < |pairs| && pairs[k].1 != 0 && forall j :: 0 <= j < k ==> pairs[j].1 == 0
  }

  /** `next((i for i, x in pairs if x != 0), None)`: the index of the first marked pair. */
  function FirstNonzero(pairs: seq<(int, int)>): (r: Option<int>)
    ensures r.None? <==> forall k :: 0 <= k < |pairs| ==> pairs[k].1 == 0
    ensures r.Some? ==> exists k :: FirstMarkAt(pairs, k) && pairs[k].0 == r.value
  {
    if |pairs| == 0 then None
    else if pairs[0].1 != 0 then Some(pairs[0].0)
    else
      var r := FirstNonzero(pairs[1..]);
      assert forall k :: 1 <= k < |pairs| ==> pairs[k] == pairs[1..][k - 1];
      r
  }

  /** The first marked pixel of a mask row (blobh_locs_l): a pixel of the row that is marked. */
  function FirstMarked(m: seq<int>): (r: Option<int>)
    ensures r.Some? ==> 0 <= r.value < |m| && m[r.value] != 0
  {
    var e := Enumerate(m);
    var r := FirstNonzero(e);
    assert r.Some? ==> exists k :: FirstMarkAt(e, k) && e[k] == (r.value, m[r.value]);
    r
  }

  /**
   * The last marked pixel as the source finds it (blobh_locs_r), through
   * reversed_enumerate: a marked pixel of the row, and never pixel 0.
   */
  function LastMarkedAsWritten(m: seq<int>): (r: Option<int>)
    ensures r.Some? ==> 0 < r.value < |m| && m[r.value] != 0
  {
    var e := ReversedEnumerate(m);
    var r := FirstNonzero(e);
    assert r.Some? ==> exists k :: FirstMarkAt(e, k) && e[k] == (r.value, m[r.value]);
    r
  }

  /** The last marked pixel, scanning every index from the end: a pixel of the row that is marked. */
  function LastMarked(m: seq<int>): (r: Option<int>)
    ensures r.Some? ==> 0 <= r.value < |m| && m[r.value] != 0
  {
    var e := ReversedEnumerateAll(m);
    var r := FirstNonzero(e);
    assert r.Some? ==> exists k :: FirstMarkAt(e, k) && e[k] == (r.value, m[r.value]);
    r
  }

  /** The first scan finds the lowest marked index, and nothing when no pixel is marked. */
  lemma FirstMarkedIsFirst(m: seq<int>)
    ensures FirstMarked(m).None? <==> forall j :: 0 <= j < |m| ==> m[j] == 0
    ensures FirstMarked(m).Some? ==> var i := FirstMarked(m).value;
      0 <= i < |m| && m[i] != 0 && forall j :: 0 <= j < i ==> m[j] == 0
  {
    var e := Enumerate(m);
    assert forall j :: 0 <= j < |m| ==> e[j].1 == m[j];
  }

  /** The corrected scan finds the highest marked index, and nothing when no pixel is marked. */
  lemma LastMarkedIsLast(m: seq<int>)
    ensures LastMarked(m).None? <==> forall j :: 0 <= j < |m| ==> m[j] == 0
    ensures LastMarked(m).Some? ==> var i := LastMarked(m).value;
      0 <= i < |m| && m[i] != 0 && forall j :: i < j < |m| ==> m[j] == 0
  {
    var e := ReversedEnumerateAll(m);
    if LastMarked(m).Some? {
      var i := LastMarked(m).value;
      var k :| FirstMarkAt(e, k) && e[k].0 == i;
      assert i == |m| - 1 - k && m[i] == e[k].1;
      forall j | i < j < |m|
        ensures m[j] == 0
      {
        assert e[|m| - 1 - j] == (j, m[j]);
      }
    } else {
      forall j | 0 <= j < |m|
        ensures m[j] == 0
      {
        assert e[|m| - 1 - j] == (j, m[j]);
      }
    }
  }

  /** Both corrected scans find a mark or both find none, and the first is not after the last. */
  lemma MarkedAgree(m: seq<int>)
    ensures FirstMarked(m).Some? <==> LastMarked(m).Some?
    ensures FirstMarked(m).Some? ==> FirstMarked(m).value <= LastMarked(m).value
  {
    FirstMarkedIsFirst(m);
    LastMarkedIsLast(m);
  }

  /**
   * The scan as written agrees with the corrected one except when the only
   * marked pixel is pixel 0: then it finds nothing.
   */
  lemma LastMarkedAsWrittenMissesZero(m: seq<int>)
    ensures LastMarkedAsWritten(m) == if LastMarked(m) == Some(0) then None else LastMarked(m)
  {
    LastMarkedIsLast(m);
    var e := ReversedEnumerate(m);
    assert forall j :: 1 <= j < |m| ==> e[|m| - 1 - j] == (j, m[j]);
    if LastMarkedAsWritten(m).Some? {
      var i := LastMarkedAsWritten(m).value;
      var k :| FirstMarkAt(e, k) && e[k].0 == i;
      forall j | i < j < |m|
        ensures m[j] == 0
      {
        assert e[|m| - 1 - j].1 == 0;
      }
    }
  }

  /**
   * The edges of a blob in the horizontal and vertical mask rows of the
   * crop: the first and last marked pixel of each, or None when a scan
   * finds nothing (the cropped search then gives up).
   */
  function BlobEdges(mh: seq<int>, mv: seq<int>): (r: Option<(int, int, int, int)>)
    ensures r.Some? <==> FirstMarked(mh).Some? && FirstMarked(mv).Some?
  {
    MarkedAgree(mh);
    MarkedAgree(mv);
    match (FirstMarked(mh), LastMarked(mh), FirstMarked(mv), LastMarked(mv))
    case (Some(hl), Some(hr), Some(vl), Some(vr)) => Some((hl, hr, vl, vr))
    case _ => None
  }

  /**
   * The same edges with the last marks found as written: whatever it finds
   * is what the corrected scans find, but it never reports a right or
   * bottom edge at pixel 0.
   */
  function BlobEdgesAsWritten(mh: seq<int>, mv: seq<int>): (r: Option<(int, int, int, int)>)
    ensures r.Some? ==> r == BlobEdges(mh, mv) && r.value.1 > 0 && r.value.3 > 0
  {
    LastMarkedAsWrittenMissesZero(mh);
    LastMarkedAsWrittenMissesZero(mv);
    match (FirstMarked(mh), LastMarkedAsWritten(mh), FirstMarked(mv), LastMarkedAsWritten(mv))
    case (Some(hl), Some(hr), Some(vl), Some(vr)) => Some((hl, hr, vl, vr))
    case _ => None
  }

  /**
   * A blob one pixel wide at the start of the crop: both rows are marked,
   * so the corrected edges are found, but the scans as written miss the
   * last marks and report no blob.
   */
  lemma BlobAtCropStartLost()
    ensures BlobEdges([1, 0], [1, 0]) == Some((0, 0, 0, 0))
    ensures BlobEdgesAsWritten([1, 0], [1, 0]).None?
  {
    LastMarkedAsWrittenMissesZero([1, 0]);
    LastMarkedIsLast([1, 0]);
    FirstMarkedIsFirst([1, 0]);
  }

  /** A position in the image and a radius, as find_blob returns them. */
  datatype Find = Find(center: (real, real), radius: real)

  /** BlobFinder: the colour it looks for, and where it last found it. */
  class BlobFinder {
    const colorRange: ColorRange
    const drawFind: bool
    var lastPos: Option<(real, real)>
    var lastRad: Option<real>

    /** The last position and radius are set together and cleared together. */
    predicate Valid()
      reads this
    {
      lastPos.Some? <==> lastRad.Some?
    }

    constructor(colorRange: ColorRange, drawFind: bool)
      ensures Valid() && lastPos == None && lastRad == None
      ensures this.colorRange == colorRange && this.drawFind == drawFind
    {
      this.colorRange := colorRange;
      this.drawFind := drawFind;
      lastPos := None;
      lastRad := None;
    }

    /**
     * find_blob's bookkeeping. With a last position, the search cropped
     * around it (`tracked`) is tried first, and its find is kept and
     * returned; when it fails, or with no last position, the last position
     * is forgotten and the search over the image pyramid (`searched`)
     * decides. Whatever is returned becomes the last position; no find
     * clears it.
     */
    method FindBlob(tracked: Option<Find>, searched: Option<Find>) returns (r: Option<Find>)
      requires Valid()
      modifies this
      ensures Valid()
      ensures r == if old(lastPos).Some? && tracked.Some? then tracked else searched
      ensures r.Some? ==> lastPos == Some(r.value.center) && lastRad == Some(r.value.radius)
      ensures r.None? ==> lastPos == None && lastRad == None
    {
      if lastPos.Some? && lastRad.Some? {
        if tracked.Some? {
          lastPos := Some(tracked.value.center);
          lastRad := Some(tracked.value.radius);
          return tracked;
        } else {
          lastPos := None;
          lastRad := None;
        }
      }
      if searched.Some? {
        lastPos := Some(searched.value.center);
        lastRad := Some(searched.value.radius);
        r := searched;
      } else {
        lastPos := None;
        lastRad := None;
        r := None;
      }
    }
  }
}
