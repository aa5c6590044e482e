/** `DarkShadowsTwilight.py`: a smooth-twilight map computed from a
    declination approximation, with the subsolar longitude moving west as
    the hour grows, red city crosses, and the map scaled to fit the screen
    and centred. */
module DarkShadowsTwilight {
  import opened Numeric
  import opened Solar
  import opened Raster

  /** `TWILIGHT_WIDTH`: the Gaussian blur radius applied to the mask. */
  const TWILIGHT_WIDTH: int := 5

  /** The default `size` of `draw_cross`. */
  const CROSS_SIZE: int := 5

  /** `CITIES`, in dictionary order. */
  const CITIES: seq<(real, real)> := [
    (0.0, 0.0), (35.6895, 139.6917), (59.3293, 18.0686), (21.3069, -157.8583),
    (40.7128, -74.0060), (34.0522, -118.2437), (-54.8019, -68.3029), (-33.8688, 151.2093)
  ]

  /** `is_day`: despite its name, the cosine of the solar zenith angle at
      the point, with the subsolar longitude `-(frac_hour / 24) * 360 - 180`. */
  function IsDay(trig: Trig, latDeg: real, lonDeg: real, now: UtcTime): real
  {
    var decl := SolarDeclination(trig, now.yday);
    var subsolarLon := SubsolarLonWest(FracHour(now));
    CosZenith(trig, Radians(latDeg), decl, HourAngle(lonDeg, subsolarLon))
  }

  /** The value is 1 exactly under the sun of this convention: at the
      declination's latitude and the westward subsolar longitude. */
  lemma IsDayOverhead(trig: Trig, now: UtcTime)
    requires Pythagorean(trig)
    ensures IsDay(trig, Degrees(SolarDeclination(trig, now.yday)), SubsolarLonWest(FracHour(now)), now) == 1.0
  {
    var decl := SolarDeclination(trig, now.yday);
    RadiansOfDegrees(decl);
    CosZenithAtSubsolarPoint(trig, decl);
  }

  /** The ramp of `generate_terminator_surface`: 255 from +0.01 up, 0 from
      -0.01 down, and `int((cos_zen + 0.01) / 0.02 * 255)` between, which
      never reaches 255. */
  function Ramp(cz: real): (v: Byte)
    ensures cz >= 0.01 ==> v == 255
    ensures cz <= -0.01 ==> v == 0
    ensures -0.01 < cz < 0.01 ==> v <= 254 && v == Trunc((cz + 0.01) / 0.02 * 255.0)
  {
    if cz >= 0.01 then 255
    else if cz <= -0.01 then 0
    else
      var t := (cz + 0.01) / 0.02 * 255.0;
      assert 0.0 < t < 255.0;
      Trunc(t)
  }

  /** A higher sun never gives a darker mask value. */
  lemma RampMonotone(a: real, b: real)
    requires a <= b
    ensures Ramp(a) <= Ramp(b)
  {
    if -0.01 < a < 0.01 && -0.01 < b < 0.01 {
      TruncMonotone((a + 0.01) / 0.02 * 255.0, (b + 0.01) / 0.02 * 255.0);
    }
  }

  /** The mask value `putpixel` writes at (x, y): the ramp at the row's
      latitude and the column's longitude. */
  function MaskValue(trig: Trig, now: UtcTime, w: int, h: int, x: int, y: int): Byte
    requires 0 < w && 0 < h
  {
    Ramp(IsDay(trig, RowLat(y, h), ColLon(x, w), now))
  }

  /** The whole unblurred mask, row by row, as the loop leaves it. */
  function TwilightMask(trig: Trig, now: UtcTime, w: nat, h: nat): (m: seq<seq<Byte>>)
    ensures IsGrid(m, w, h)
  {
    seq(h, y requires 0 <= y < h => seq(w, x requires 0 <= x < w => MaskValue(trig, now, w, h, x, y)))
  }

  /** `generate_terminator_surface`: every pixel of the w x h mask is written
      once, in row order, with the ramp at its own latitude and longitude and
      one shared `now`; the blurred mask then blends day over night. */
  method GenerateTerminatorSurface(day: seq<seq<Rgb>>, night: seq<seq<Rgb>>, w: nat, h: nat,
                                   trig: Trig, now: UtcTime,
                                   gaussianBlur: seq<seq<Byte>> -> seq<seq<Byte>>)
    returns (comp: seq<seq<Rgb>>, ghost writes: seq<(int, int)>)
    requires IsGrid(day, w, h) && IsGrid(night, w, h) && KeepsSize(gaussianBlur, w, h)
    ensures writes == Scan(w, h)
    ensures IsGrid(comp, w, h)
    ensures comp == CompositeL(day, night, gaussianBlur(TwilightMask(trig, now, w, h)), w, h)
  {
    var mask, ws := FillMask(w, h, (x, y) requires 0 <= x < w && 0 <= y < h => MaskValue(trig, now, w, h, x, y));
    writes := ws;
    var m := Cells(mask);
    forall y | 0 <= y < h
      ensures m[y] == TwilightMask(trig, now, w, h)[y]
    {
    }
    assert m == TwilightMask(trig, now, w, h);
    comp := CompositeL(day, night, gaussianBlur(m), w, h);
  }

  /** Before blurring, the mask is full day wherever the sun stands at least
      0.01 above the horizon (in cosine) and full night wherever it is 0.01
      below. */
  lemma TwilightMaskBands(trig: Trig, now: UtcTime, w: nat, h: nat, x: int, y: int)
    requires 0 <= x < w && 0 <= y < h
    ensures var cz := IsDay(trig, RowLat(y, h), ColLon(x, w), now);
      && (cz >= 0.01 ==> TwilightMask(trig, now, w, h)[y][x] == 255)
      && (cz <= -0.01 ==> TwilightMask(trig, now, w, h)[y][x] == 0)
  {
  }

  /** The city crosses at the positions `latlon_to_xy` gives for a map of
      the resized size. */
  function Markers(nw: int, nh: int): (ms: seq<Marker>)
    ensures |ms| == |CITIES|
    ensures forall i :: 0 <= i < |ms| ==>
      ms[i] == Marker(LatLonToXY(CITIES[i].0, CITIES[i].1, nw, nh).0,
                      LatLonToXY(CITIES[i].0, CITIES[i].1, nw, nh).1, Red)
  {
    CityMarkers(CITIES, nw, nh)
  }

  /** The main loop's drawing: the composite is scaled by
      `min(SCREEN_W / comp_w, SCREEN_H / comp_h)`, the red crosses are drawn
      on the scaled picture at its own size, and the screen shows it at the
      centring offsets over black. When a scaled side truncates to 0,
      `comp.resize` raises `ValueError`, the script stops and the screen is
      left as it was. */
  method ShowFrame(screen: array2<Rgb>, comp: seq<seq<Rgb>>, cw: nat, ch: nat,
                   resize: (seq<seq<Rgb>>, int, int) -> seq<seq<Rgb>>)
    returns (raised: bool)
    requires 0 < cw && 0 < ch && IsGrid(comp, cw, ch) && Resizes(resize)
    modifies screen
    ensures var (nw, nh) := FitSize(screen.Length0, screen.Length1, cw, ch);
      raised <==> nw == 0 || nh == 0
    ensures raised ==> unchanged(screen)
    ensures !raised ==> var (nw, nh) := FitSize(screen.Length0, screen.Length1, cw, ch);
      var ox, oy := CenterOffset(screen.Length0, nw), CenterOffset(screen.Length1, nh);
      forall x, y :: 0 <= x < screen.Length0 && 0 <= y < screen.Length1 ==>
        screen[x, y] == if Under(ox, oy, nw, nh, x, y)
          then Painted(Markers(nw, nh), CROSS_SIZE, resize(comp, nw, nh)[y - oy][x - ox], x - ox, y - oy)
          else Black
  {
    FitSizeFits(screen.Length0, screen.Length1, cw, ch);
    var (nw, nh) := FitSize(screen.Length0, screen.Length1, cw, ch);
    if nw == 0 || nh == 0 {
      return true;
    }
    raised := false;
    var resized := resize(comp, nw, nh);
    var surface := ToSurface(resized, nw, nh);
    var xOff := CenterOffset(screen.Length0, nw);
    var yOff := CenterOffset(screen.Length1, nh);
    DrawMarkers(surface, Markers(nw, nh), CROSS_SIZE);
    Present(screen, Cells(surface), nw, nh, xOff, yOff);
  }

  /** The scaled map lies wholly on the screen, so no part of it is clipped,
      and its width and height are scaled by the same factor. */
  lemma FrameOnScreen(sw: nat, sh: nat, cw: int, ch: int)
    requires 0 < cw && 0 < ch
    ensures var (nw, nh) := FitSize(sw, sh, cw, ch);
      && 0 <= nw <= sw && 0 <= nh <= sh
      && 0 <= CenterOffset(sw, nw) && CenterOffset(sw, nw) + nw <= sw
      && 0 <= CenterOffset(sh, nh) && CenterOffset(sh, nh) + nh <= sh
      && -(ch as real) < ch as real * nw as real - cw as real * nh as real < cw as real
  {
    FitSizeFits(sw, sh, cw, ch);
    FitCentred(sw, sh, cw, ch);
    FitKeepsShape(sw, sh, cw, ch);
  }
}
