/** `RectDayNight5.py`: a hard day/night map of an 800 x 480 screen, the
    subsolar longitude moving east as the hour grows, rebuilt every
    minute. */
module RectDayNight5 {
  import opened Numeric
  import opened Solar
  import opened Raster

  /** `SCREEN_SIZE`. */
  const SCREEN_W: nat := 800
  const SCREEN_H: nat := 480

  /** The cosine of the solar zenith angle `is_day` computes, with the
      subsolar longitude `(frac_hour / 24) * 360 - 180`. */
  function CosZenithEast(trig: Trig, latDeg: real, lonDeg: real, now: UtcTime): real
  {
    var decl := SolarDeclination(trig, now.yday);
    CosZenith(trig, Radians(latDeg), decl, HourAngle(lonDeg, SubsolarLonEast(FracHour(now))))
  }

  /** `is_day`: the sun is above the horizon. */
  predicate IsDay(trig: Trig, latDeg: real, lonDeg: real, now: UtcTime)
  {
    CosZenithEast(trig, latDeg, lonDeg, now) > 0.0
  }

  /** The point straight under the sun of this convention is in daylight. */
  lemma DayUnderTheSun(trig: Trig, now: UtcTime)
    requires Pythagorean(trig)
    ensures IsDay(trig, Degrees(SolarDeclination(trig, now.yday)), SubsolarLonEast(FracHour(now)), now)
  {
    var decl := SolarDeclination(trig, now.yday);
    RadiansOfDegrees(decl);
    CosZenithAtSubsolarPoint(trig, decl);
  }

  /** The value the `if is_day(...)` writes at (x, y). */
  function MaskBit(trig: Trig, now: UtcTime, width: int, height: int, x: int, y: int): int
    requires 0 < width && 0 < height
  {
    if IsDay(trig, RowLat(y, height), ColLon(x, width), now) then 1 else 0
  }

  /** `generate_terminator_mask`: a new width x height mask whose every
      pixel is written once, in row order, with 1 exactly where the sun is up
      at the pixel's latitude and longitude, all at one `now`. */
  method GenerateTerminatorMask(width: nat, height: nat, trig: Trig, now: UtcTime)
    returns (mask: array2<int>, ghost writes: seq<(int, int)>)
    ensures fresh(mask) && mask.Length0 == width && mask.Length1 == height
    ensures writes == Scan(width, height)
    ensures forall x, y :: 0 <= x < width && 0 <= y < height ==>
      (mask[x, y] == 1 <==> IsDay(trig, RowLat(y, height), ColLon(x, width), now))
      && (mask[x, y] == 0 <==> !IsDay(trig, RowLat(y, height), ColLon(x, width), now))
  {
    mask, writes := FillMask(width, height,
      (x, y) requires 0 <= x < width && 0 <= y < height => MaskBit(trig, now, width, height, x, y));
  }

  /** The body of the `while True` loop before the minute's sleep: the map
      for `now` blitted at (0, 0) over the whole screen. */
  method ShowMap(screen: array2<Rgb>, day: seq<seq<Rgb>>, night: seq<seq<Rgb>>, trig: Trig, now: UtcTime)
    requires screen.Length0 == SCREEN_W && screen.Length1 == SCREEN_H
    requires IsGrid(day, SCREEN_W, SCREEN_H) && IsGrid(night, SCREEN_W, SCREEN_H)
    modifies screen
    ensures forall x, y :: 0 <= x < SCREEN_W && 0 <= y < SCREEN_H ==>
      screen[x, y] == if IsDay(trig, RowLat(y, SCREEN_H), ColLon(x, SCREEN_W), now) then day[y][x] else night[y][x]
  {
    var mask, _ := GenerateTerminatorMask(SCREEN_W, SCREEN_H, trig, now);
    var terminatorImg := Composite(day, night, Cells(mask), SCREEN_W, SCREEN_H);
    Blit(screen, terminatorImg, SCREEN_W, SCREEN_H, 0, 0);
  }
}
