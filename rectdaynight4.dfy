/** `RectDayNight4.py`: a day/night map that depends on longitude only, lit
    wherever the cosine of the angle from a moving subsolar meridian is
    positive, rebuilt every minute. */
module RectDayNight4 {
  import opened Numeric
  import opened Solar
  import opened Raster

  /** `SCREEN_SIZE`. */
  const SCREEN_W: nat := 800
  const SCREEN_H: nat := 480

  /** `sun_position_fraction_utc`: the fraction of the UTC day elapsed. */
  function SunPositionFraction(now: UtcTime): real
  {
    (now.hour as real + now.minute as real / 60.0 + now.second as real / 3600.0) / 24.0
  }

  /** The fraction lies in [0, 1). */
  lemma SunPositionFractionRange(now: UtcTime)
    requires ValidTime(now)
    ensures 0.0 <= SunPositionFraction(now) < 1.0
  {
    FracHourRange(now);
  }

  /** `(x / width - 0.5) * 360`: the longitude of column x. */
  function MaskLon(x: int, width: int): real
    requires 0 < width
  {
    (x as real / width as real - 0.5) * 360.0
  }

  /** It is the same longitude the other scripts compute as
      `(x / w) * 360 - 180`, so it lies in [-180, 180) on the picture. */
  lemma MaskLonIsColLon(x: int, width: int)
    requires 0 <= x < width
    ensures MaskLon(x, width) == ColLon(x, width)
    ensures -180.0 <= MaskLon(x, width) < 180.0
  {
    GridRanges(x, 0, width, 1);
  }

  /** `(lon - frac * 360) * math.pi / 180`. */
  function Angle(lon: real, frac: real): real
  {
    (lon - frac * 360.0) * PI / 180.0
  }

  /** The angle is the hour angle from a subsolar meridian at
      `frac * 360` degrees, which is the eastward subsolar longitude of the
      other scripts turned half a circle. */
  lemma AngleIsHourAngle(lon: real, now: UtcTime)
    ensures Angle(lon, SunPositionFraction(now)) == HourAngle(lon, SubsolarLonEast(FracHour(now)) + 180.0)
  {
    assert SunPositionFraction(now) * 360.0 == SubsolarLonEast(FracHour(now)) + 180.0;
  }

  /** The value the `if math.cos(angle) > 0` writes at column x. */
  function MaskBit(trig: Trig, frac: real, width: int, x: int): int
    requires 0 < width
  {
    if trig.cos(Angle(MaskLon(x, width), frac)) > 0.0 then 1 else 0
  }

  /** `generate_terminator_mask`: every pixel of the width x height mask is
      written once, in row order, with 1 exactly where the cosine of the
      column's angle is positive. The row's `lat` and `subsolar_x` are
      computed and never used, so every row is the same. */
  method GenerateTerminatorMask(width: nat, height: nat, trig: Trig, now: UtcTime)
    returns (mask: array2<int>, ghost writes: seq<(int, int)>)
    ensures fresh(mask) && mask.Length0 == width && mask.Length1 == height
    ensures writes == Scan(width, height)
    ensures forall x, y :: 0 <= x < width && 0 <= y < height ==>
      (mask[x, y] == 1 <==> trig.cos(Angle(MaskLon(x, width), SunPositionFraction(now))) > 0.0)
      && (mask[x, y] == 0 <==> trig.cos(Angle(MaskLon(x, width), SunPositionFraction(now))) <= 0.0)
    ensures forall x, y, y' :: 0 <= x < width && 0 <= y < height && 0 <= y' < height ==>
      mask[x, y] == mask[x, y']
  {
    var frac := SunPositionFraction(now);
    mask, writes := FillMask(width, height,
      (x, y) requires 0 <= x < width && 0 <= y < height => MaskBit(trig, frac, width, x));
    assert forall x, y :: 0 <= x < width && 0 <= y < height ==> mask[x, y] == MaskBit(trig, frac, width, x);
  }

  /** The body of the `while True` loop before the minute's sleep: the mask
      of SCREEN_SIZE composites day over night and the result is blitted at
      (0, 0). */
  method ShowMap(screen: array2<Rgb>, day: seq<seq<Rgb>>, night: seq<seq<Rgb>>, trig: Trig, now: UtcTime)
    requires screen.Length0 == SCREEN_W && screen.Length1 == SCREEN_H
    requires IsGrid(day, SCREEN_W, SCREEN_H) && IsGrid(night, SCREEN_W, SCREEN_H)
    modifies screen
    ensures forall x, y :: 0 <= x < SCREEN_W && 0 <= y < SCREEN_H ==>
      screen[x, y] == if trig.cos(Angle(MaskLon(x, SCREEN_W), SunPositionFraction(now))) > 0.0
                      then day[y][x] else night[y][x]
  {
    var mask, _ := GenerateTerminatorMask(SCREEN_W, SCREEN_H, trig, now);
    var terminatorImg := Composite(day, night, Cells(mask), SCREEN_W, SCREEN_H);
    Blit(screen, terminatorImg, SCREEN_W, SCREEN_H, 0, 0);
  }
}
