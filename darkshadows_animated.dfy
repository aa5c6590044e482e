/** `DarkShadowsAnimated.py`: a hard day/night map redrawn every frame, the
    subsolar longitude moving west as the hour grows, red city crosses on
    the map, and the map centred on the screen at its own size. */
module DarkShadowsAnimated {
  import opened Numeric
  import opened Solar
  import opened Raster

  /** The default `size` of `draw_cross`. */
  const CROSS_SIZE: int := 5

  /** `CITIES`, in dictionary order. */
  const CITIES: seq<(real, real)> := [
    (0.0, 0.0), (35.6895, 139.6917), (59.3293, 18.0686), (21.3069, -157.8583),
    (40.7128, -74.0060), (34.0522, -118.2437), (-54.8019, -68.3029), (-33.8688, 151.2093)
  ]

  /** The cosine of the solar zenith angle `is_day` computes, with the
      subsolar longitude `-(frac_hour / 24) * 360 - 180`. */
  function CosZenithWest(trig: Trig, latDeg: real, lonDeg: real, now: UtcTime): real
  {
    var decl := SolarDeclination(trig, now.yday);
    CosZenith(trig, Radians(latDeg), decl, HourAngle(lonDeg, SubsolarLonWest(FracHour(now))))
  }

  /** `is_day`: the sun is above the horizon. */
  predicate IsDay(trig: Trig, latDeg: real, lonDeg: real, now: UtcTime)
  {
    CosZenithWest(trig, latDeg, lonDeg, now) > 0.0
  }

  /** The point straight under the sun of this convention is in daylight. */
  lemma DayUnderTheSun(trig: Trig, now: UtcTime)
    requires Pythagorean(trig)
    ensures IsDay(trig, Degrees(SolarDeclination(trig, now.yday)), SubsolarLonWest(FracHour(now)), now)
  {
    var decl := SolarDeclination(trig, now.yday);
    RadiansOfDegrees(decl);
    CosZenithAtSubsolarPoint(trig, decl);
  }

  /** The "1" mask value `putpixel` writes at (x, y). */
  function MaskBit(trig: Trig, now: UtcTime, w: int, h: int, x: int, y: int): int
    requires 0 < w && 0 < h
  {
    if IsDay(trig, RowLat(y, h), ColLon(x, w), now) then 1 else 0
  }

  /** `generate_terminator_surface`: every pixel of the w x h mask is written
      once, in row order, with one shared `now`; the composite takes the day
      pixel where the sun is up at the pixel's latitude and longitude and the
      night pixel elsewhere. */
  method GenerateTerminatorSurface(day: seq<seq<Rgb>>, night: seq<seq<Rgb>>, w: nat, h: nat,
                                   trig: Trig, now: UtcTime)
    returns (comp: seq<seq<Rgb>>, ghost writes: seq<(int, int)>)
    requires IsGrid(day, w, h) && IsGrid(night, w, h)
    ensures writes == Scan(w, h)
    ensures IsGrid(comp, w, h)
    ensures forall x, y :: 0 <= x < w && 0 <= y < h ==>
      comp[y][x] == if IsDay(trig, RowLat(y, h), ColLon(x, w), now) then day[y][x] else night[y][x]
  {
    var mask, ws := FillMask(w, h, (x, y) requires 0 <= x < w && 0 <= y < h => MaskBit(trig, now, w, h, x, y));
    writes := ws;
    comp := Composite(day, night, Cells(mask), w, h);
  }

  /** One pass of the main loop after event handling: the map for `now` is
      marked with the red crosses at the map's own size and shown at
      `((SCREEN_W - IMG_W) // 2, (SCREEN_H - IMG_H) // 2)` over black. */
  method ShowFrame(screen: array2<Rgb>, day: seq<seq<Rgb>>, night: seq<seq<Rgb>>, w: nat, h: nat,
                   trig: Trig, now: UtcTime)
    requires IsGrid(day, w, h) && IsGrid(night, w, h)
    modifies screen
    ensures var ox, oy := CenterOffset(screen.Length0, w), CenterOffset(screen.Length1, h);
      forall x, y :: 0 <= x < screen.Length0 && 0 <= y < screen.Length1 ==>
        screen[x, y] == if Under(ox, oy, w, h, x, y)
          then Painted(CityMarkers(CITIES, w, h), CROSS_SIZE,
                       if IsDay(trig, RowLat(y - oy, h), ColLon(x - ox, w), now)
                       then day[y - oy][x - ox] else night[y - oy][x - ox],
                       x - ox, y - oy)
          else Black
  {
    var comp, _ := GenerateTerminatorSurface(day, night, w, h, trig, now);
    var surf := ToSurface(comp, w, h);
    DrawMarkers(surf, CityMarkers(CITIES, w, h), CROSS_SIZE);
    Present(screen, Cells(surf), w, h, CenterOffset(screen.Length0, w), CenterOffset(screen.Length1, h));
  }
}
