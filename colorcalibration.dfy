/**
 * The colour masks of the manual colour calibration
 * (virtualreality/calibration/manual_color_mask_calibration.py). A colour
 * range gives each HSV channel a band centre - range .. centre + range; the
 * part of a band that runs past 0 or past the channel's maximum is wrapped
 * around into a second band at the other end, and the mask is the union of
 * the two bands. The pixel test itself (cv2.inRange) is left to InBands.
 */
module ColorCalibration {
  import opened Wrappers

  /** ColorRange: a colour number, and a centre and a half-width for hue, saturation and value. */
  datatype ColorRange = ColorRange(
    colorNum: int,
    hueCenter: real, hueRange: real,
    satCenter: real, satRange: real,
    valCenter: real, valRange: real)

  /** The four bound lists of a mask: [low, high] and [lowNeg, highNeg], one entry per channel. */
  datatype Bands = Bands(low: seq<real>, high: seq<real>, lowNeg: seq<real>, highNeg: seq<real>)

  /** The bounds of one channel: the main band and the wrapped band. */
  datatype Band = Band(low: real, high: real, lowNeg: real, highNeg: real)

  /** Hue runs up to 180, saturation and value up to 255. */
  function ChannelMax(c: nat): (m: real)
    ensures m == 180.0 || m == 255.0
  {
    if c == 0 then 180.0 else 255.0
  }

  /** centre - range for hue, saturation and value. */
  function Lows(cr: ColorRange): (r: seq<real>)
    ensures |r| == 3
  {
    [cr.hueCenter - cr.hueRange, cr.satCenter - cr.satRange, cr.valCenter - cr.valRange]
  }

  /** centre + range for hue, saturation and value. */
  function Highs(cr: ColorRange): (r: seq<real>)
    ensures |r| == 3
  {
    [cr.hueCenter + cr.hueRange, cr.satCenter + cr.satRange, cr.valCenter + cr.valRange]
  }

  /**
   * x lies in low..high once the part of that band below 0 is moved up by
   * max and the part above max is moved down by max.
   */
  predicate InWrapped(low: real, high: real, max: real, x: real)
  {
    (low <= x <= high) || (low < 0.0 && max + low <= x) || (high > max && x <= high - max)
  }

  /** x passes a channel's mask: it lies in the main band or in the wrapped one. */
  predicate InBand(b: Band, x: real)
  {
    (b.low <= x <= b.high) || (b.lowNeg <= x <= b.highNeg)
  }

  /** The two lists have an entry for every channel. */
  predicate ThreeChannels(b: Bands)
  {
    |b.low| == 3 && |b.high| == 3 && |b.lowNeg| == 3 && |b.highNeg| == 3
  }

  function ChannelOf(b: Bands, c: nat): Band
    requires ThreeChannels(b) && c < 3
  {
    Band(b.low[c], b.high[c], b.lowNeg[c], b.highNeg[c])
  }

  /** x passes the mask on channel c. */
  predicate InBands(b: Bands, c: nat, x: real)
    requires ThreeChannels(b) && c < 3
  {
    InBand(ChannelOf(b, c), x)
  }

  /**
   * The wrap rule for one channel: a band starting below 0 is cut at 0 and
   * its overhang becomes [max + low, max]; otherwise a band ending above max
   * is cut at max and its overhang becomes [0, high - max]; otherwise the
   * wrapped band repeats the main one. For every value of the channel, the
   * two bands together accept exactly the wrapped range.
   */
  function WrapChannel(low: real, high: real, max: real): (b: Band)
    requires max > 0.0
    ensures forall x :: 0.0 <= x <= max ==> (InBand(b, x) <==> InWrapped(low, high, max, x))
    ensures low < 0.0 ==> b.low == 0.0 && b.lowNeg == max + low && b.highNeg == max
    ensures low >= 0.0 && high > max ==> b.high == max && b.lowNeg == 0.0 && b.highNeg == high - max
  {
    if low < 0.0 then Band(0.0, high, max + low, max)
    else if high > max then Band(low, max, 0.0, high - max)
    else Band(low, high, low, high)
  }

  /**
   * The loop of get_color_mask and mask_for_hsv_range: the bounds are copied
   * into the wrapped lists, then each channel in turn gets the wrap rule.
   */
  method WrapBands(lows: seq<real>, highs: seq<real>) returns (b: Bands)
    requires |lows| == 3 && |highs| == 3
    ensures ThreeChannels(b)
    ensures forall c :: 0 <= c < 3 ==> ChannelOf(b, c) == WrapChannel(lows[c], highs[c], ChannelMax(c))
  {
    var low, high := lows, highs;
    var lowNeg, highNeg := lows, highs;
    for c := 0 to 3
      invariant |low| == 3 && |high| == 3 && |lowNeg| == 3 && |highNeg| == 3
      invariant forall d :: 0 <= d < c ==>
        Band(low[d], high[d], lowNeg[d], highNeg[d]) == WrapChannel(lows[d], highs[d], ChannelMax(d))
      invariant forall d :: c <= d < 3 ==>
        low[d] == lows[d] && high[d] == highs[d] && lowNeg[d] == lows[d] && highNeg[d] == highs[d]
    {
      var cMax := if c == 0 then 180.0 else 255.0;
      if lowNeg[c] < 0.0 {
        lowNeg := lowNeg[c := cMax + lowNeg[c]];
        highNeg := highNeg[c := cMax];
        low := low[c := 0.0];
      } else if highNeg[c] > cMax {
        lowNeg := lowNeg[c := 0.0];
        highNeg := highNeg[c := highNeg[c] - cMax];
        high := high[c := cMax];
      }
    }
    b := Bands(low, high, lowNeg, highNeg);
  }

  /**
   * get_color_mask: the bounds of a colour range's mask. On every channel a
   * value passes exactly when it lies in centre - range .. centre + range,
   * wrapped around the channel's ends.
   */
  method GetColorMask(colorRange: ColorRange) returns (b: Bands)
    ensures ThreeChannels(b)
    ensures forall c, x :: 0 <= c < 3 && 0.0 <= x <= ChannelMax(c) ==>
      (InBands(b, c, x) <==> InWrapped(Lows(colorRange)[c], Highs(colorRange)[c], ChannelMax(c), x))
  {
    b := WrapBands(Lows(colorRange), Highs(colorRange));
  }

  /** CalibrationData's attributes; auto_exposure is a parameter that is not kept. */
  datatype CalibrationData = CalibrationData(
    width: int, height: int, exposure: real, saturation: real,
    numColors: int, colorRanges: seq<ColorRange>)

  /** `180 // num_colors` raises ZeroDivisionError for no colours. */
  datatype CalibrationError = ZeroDivision

  /** The hue spacing of n colours, `180 // n` (n positive). */
  function Spacing(n: int): (d: nat)
    requires n > 0
    ensures d * n <= 180 < (d + 1) * n
  {
    180 / n
  }

  /** The range of colour i of n: centre i * spacing and range spacing on every channel. */
  function EvenRange(i: nat, n: int): (r: ColorRange)
    requires n > 0
    ensures r.colorNum == i && r.hueCenter == r.satCenter == r.valCenter
    ensures r.hueRange == r.satRange == r.valRange == Spacing(n) as real
    ensures r.hueCenter == (i * Spacing(n)) as real
  {
    var d := Spacing(n);
    ColorRange(i, (i * d) as real, d as real, (i * d) as real, d as real, (i * d) as real, d as real)
  }

  /**
   * CalibrationData.__init__: num_colors ranges, colour i centred at
   * i * (180 // num_colors) on every channel with that spacing as its range;
   * no colours fails with a division by zero, a negative count gives none.
   */
  method NewCalibrationData(width: int, height: int, exposure: real, saturation: real, numColors: int)
    returns (r: Result<CalibrationData, CalibrationError>)
    ensures r.Err? <==> numColors == 0
    ensures r.Ok? ==> r.value.width == width && r.value.height == height
    ensures r.Ok? ==> r.value.exposure == exposure && r.value.saturation == saturation && r.value.numColors == numColors
    ensures r.Ok? ==> |r.value.colorRanges| == (if numColors < 0 then 0 else numColors)
    ensures r.Ok? ==> forall i :: 0 <= i < |r.value.colorRanges| ==> r.value.colorRanges[i] == EvenRange(i, numColors)
  {
    if numColors == 0 {
      return Err(ZeroDivision);
    }
    var ranges: seq<ColorRange> := [];
    if numColors > 0 {
      var colorDist := 180 / numColors;
      for color := 0 to numColors
        invariant |ranges| == color
        invariant forall i :: 0 <= i < color ==> ranges[i] == EvenRange(i, numColors)
      {
        ranges := ranges + [ColorRange(color, (color * colorDist) as real, colorDist as real,
          (color * colorDist) as real, colorDist as real, (color * colorDist) as real, colorDist as real)];
      }
    }
    r := Ok(CalibrationData(width, height, exposure, saturation, numColors, ranges));
  }

  /**
   * With at most 180 colours the hue centres climb by the spacing, stay
   * below 180, and each colour's band reaches its neighbours' centres.
   */
  lemma EvenRangesSpread(n: int, i: nat)
    requires 0 < n <= 180 && i < n
    ensures Spacing(n) >= 1
    ensures 0.0 <= EvenRange(i, n).hueCenter < 180.0
    ensures i + 1 < n ==> EvenRange(i + 1, n).hueCenter - EvenRange(i, n).hueCenter == EvenRange(i, n).hueRange
  {
    var d := Spacing(n);
    assert i * d <= (n - 1) * d by {
      MulMono(i, n - 1, d);
    }
    assert (i + 1) * d == i * d + d;
  }

  lemma MulMono(a: nat, b: nat, d: nat)
    requires a <= b
    ensures a * d <= b * d
  {
  }

  /**
   * Every whole hue from 0 up to n * spacing passes the hue mask of some
   * colour of an even calibration.
   */
  lemma EvenHuesCovered(n: int, h: int)
    requires 0 < n <= 180 && 0 <= h <= n * Spacing(n)
    ensures exists i :: 0 <= i < n && InWrapped(Lows(EvenRange(i, n))[0], Highs(EvenRange(i, n))[0], 180.0, h as real)
  {
    var d := Spacing(n);
    var i := CoveringIndex(n, d, h);
    var r := EvenRange(i, n);
    assert Lows(r)[0] <= h as real <= Highs(r)[0];
  }

  /** The colour whose hue band holds h: h / d, or the last colour for h == n * d. */
  lemma CoveringIndex(n: nat, d: nat, h: nat) returns (i: nat)
    requires 0 < n && 0 < d && h <= n * d
    ensures i < n && i * d <= h <= i * d + d
  {
    var q := h / d;
    assert h == q * d + h % d;
    if q < n {
      i := q;
    } else {
      MulMono(n, q, d);
      i := n - 1;
      assert i * d + d == n * d;
    }
  }
}
