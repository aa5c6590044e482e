/** HyperPixelRect/DarkShadows.py: the vectorised terminator with a
    +/-0.02 twilight ramp, a blurred 8-bit mask and a floating-point blend;
    red city crosses, a yellow subsolar and a cyan sublunar cross; and the
    worker loop that recomputes the map at most ten times a second (or, in
    animation mode, one simulated day per pass).

    `ephem` is not modelled: the Sun's and Moon's declination and right
    ascension, the sidereal time and the Julian date of an instant are a
    `Sky` value the caller supplies. */
module DarkShadows {
  import opened Numeric
  import opened Wrappers
  import opened Solar
  import opened Raster

  const UPDATE_FPS: int := 10
  const TWILIGHT_BLUR_RADIUS: int := 4
  const NORMAL_OPS: bool := true
  /** `timedelta(days=1)`, in seconds. */
  const ANIMATION_INTERVAL: real := 86400.0
  /** The half-length of a marker's bars in `draw_markers_on_pil`. */
  const MARKER_SIZE: int := 6

  /** The landmarks, (latitude, longitude), in dictionary order. */
  const CITIES: seq<(real, real)> := [
    (0.0, 0.0), (42.2012, -85.5800), (35.6895, 139.6917), (59.3293, 18.0686),
    (21.3069, -157.8583), (40.7128, -74.0060), (34.0522, -118.2437),
    (-54.8019, -68.3029), (-33.8688, 151.2093), (-7.115, -34.86306),
    (-33.917419, 18.386274)]

  /** Declination and right ascension of a body, in radians. */
  datatype Body = Body(dec: real, ra: real)

  /** What `ephem` reports for one instant: the Sun, the Moon, Greenwich
      sidereal time (radians) and the Julian date. */
  datatype Sky = Sky(sun: Body, moon: Body, sidereal: real, jd: real)

  // ---------------------------------------------------------------------
  // Sub-body points

  lemma WholeShift(q: real)
    requires IsWhole(q)
    ensures IsWhole(q - 1.0)
  {
    assert (q - 1.0).Floor == q.Floor - 1;
  }

  /** `(ra_deg - gmst_deg + 540.0) % 360.0 - 180.0`: a longitude in
      [-180, 180) that differs from ra - gmst by whole turns. */
  function NormalizeLon(raDeg: real, gmstDeg: real): (lon: real)
    ensures -180.0 <= lon < 180.0
    ensures IsWhole((raDeg - gmstDeg - lon) / 360.0)
  {
    var a := raDeg - gmstDeg;
    var r := FMod(a + 540.0, 360.0);
    assert (a - (r - 180.0)) / 360.0 == (a + 540.0 - r) / 360.0 - 1.0;
    WholeShift((a + 540.0 - r) / 360.0);
    r - 180.0
  }

  /** A difference already in [-180, 180) comes back unchanged. */
  lemma NormalizeLonKeepsInRange(a: real)
    requires -180.0 <= a < 180.0
    ensures NormalizeLon(a, 0.0) == a
  {
    var q := (a - 0.0 + 540.0) / 360.0;
    assert 1.0 <= q < 2.0;
    assert q.Floor == 1;
  }

  /** Two worked values: 370 wraps to 10 and -190 wraps to 170. */
  lemma NormalizeLonExamples()
    ensures NormalizeLon(370.0, 0.0) == 10.0
    ensures NormalizeLon(-190.0, 0.0) == 170.0
  {
    assert (910.0 / 360.0).Floor == 2;
    assert (350.0 / 360.0).Floor == 0;
  }

  /** `subsolar_point` (with the Sun) and `sublunar_point` (with the Moon):
      the latitude is the body's declination and the longitude its right
      ascension minus sidereal time, folded into [-180, 180). */
  function SubPoint(body: Body, sidereal: real): (p: (real, real))
    ensures p.0 == Degrees(body.dec)
    ensures -180.0 <= p.1 < 180.0
    ensures IsWhole((Degrees(body.ra) - Degrees(sidereal) - p.1) / 360.0)
  {
    (Degrees(body.dec), NormalizeLon(Degrees(body.ra), Degrees(sidereal)))
  }

  // ---------------------------------------------------------------------
  // The terminator map

  /** `(280.46061837 + 360.98564736629 * (jd - 2451545.0)) % 360`, the two
      leading terms of the mean sidereal time at Greenwich in degrees. */
  function GmstDegrees(jd: real): (g: real)
    ensures 0.0 <= g < 360.0
    ensures IsWhole((280.46061837 + 360.98564736629 * (jd - 2451545.0) - g) / 360.0)
  {
    FMod(280.46061837 + 360.98564736629 * (jd - 2451545.0), 360.0)
  }

  /** Element i of `np.linspace(start, stop, num)`: start plus i steps of
      (stop - start) / (num - 1), the last element set to stop itself; a
      single element is start. */
  function LinspaceAt(start: real, stop: real, num: int, i: int): real
  {
    if num > 1 && i == num - 1 then stop
    else if num > 1 then start + i as real * ((stop - start) / (num - 1) as real)
    else start
  }

  /** Every element lies between the two ends, and the ends are exact:
      column 0 is -180 and column w - 1 is +180; row 0 is +90 and row h - 1
      is -90. */
  lemma {:induction false} LinspaceWithin(start: real, stop: real, num: int, i: int)
    requires 0 <= i < num
    ensures var v := LinspaceAt(start, stop, num, i);
      (start <= stop ==> start <= v <= stop) && (stop <= start ==> stop <= v <= start)
    ensures LinspaceAt(start, stop, num, 0) == start
    ensures num > 1 ==> LinspaceAt(start, stop, num, num - 1) == stop
  {
    if num > 1 && i < num - 1 {
      var n := (num - 1) as real;
      var step := (stop - start) / n;
      assert n * step == stop - start;
      if start <= stop {
        assert 0.0 <= step;
        MulLeftMonotone(step, 0.0, i as real);
        MulLeftMonotone(step, i as real, n);
      } else {
        assert step <= 0.0;
        MulLeftMonotone(-step, 0.0, i as real);
        MulLeftMonotone(-step, i as real, n);
      }
    }
  }

  function Clip01(v: real): real
  {
    if v < 0.0 then 0.0 else if v > 1.0 then 1.0 else v
  }

  /** `(np.clip((cos_zenith + 0.02) / 0.04, 0.0, 1.0) * 255).astype(np.uint8)`:
      full night at or below -0.02, full day at or above +0.02. */
  function Ramp(cz: real): (v: int)
    ensures 0 <= v <= 255
    ensures cz <= -0.02 ==> v == 0
    ensures cz >= 0.02 ==> v == 255
  {
    var c := Clip01((cz + 0.02) / 0.04);
    MulLeftMonotone(255.0, 0.0, c);
    MulLeftMonotone(255.0, c, 1.0);
    TruncMonotone(c * 255.0, 255.0);
    assert Trunc(255.0) == 255;
    Trunc(c * 255.0)
  }

  /** A higher sun never gives a darker mask value. */
  lemma RampMonotone(a: real, b: real)
    requires a <= b
    ensures Ramp(a) <= Ramp(b)
  {
    var ca := Clip01((a + 0.02) / 0.04);
    var cb := Clip01((b + 0.02) / 0.04);
    assert ca <= cb;
    MulLeftMonotone(255.0, ca, cb);
    TruncMonotone(ca * 255.0, cb * 255.0);
  }

  /** The cosine of the solar zenith angle at grid pixel (x, y) of a w x h
      map: latitude and longitude from the two linspace grids, hour angle
      `lon_rad - (ra_rad - gmst_rad)`. */
  function CosZenithAt(trig: Trig, sun: Body, jd: real, w: int, h: int, x: int, y: int): real
  {
    var lat := Radians(LinspaceAt(90.0, -90.0, h, y));
    var lon := Radians(LinspaceAt(-180.0, 180.0, w, x));
    var subsolarLon := sun.ra - Radians(GmstDegrees(jd));
    CosZenith(trig, lat, sun.dec, lon - subsolarLon)
  }

  /** `mask_array`: the ramp applied at every pixel. */
  function MaskArray(trig: Trig, sun: Body, jd: real, w: nat, h: nat): (m: seq<seq<Byte>>)
    ensures IsGrid(m, w, h)
    ensures forall x, y :: 0 <= x < w && 0 <= y < h ==> m[y][x] == Ramp(CosZenithAt(trig, sun, jd, w, h, x, y))
  {
    seq(h, y requires 0 <= y < h =>
      seq(w, x requires 0 <= x < w => Ramp(CosZenithAt(trig, sun, jd, w, h, x, y)) as Byte))
  }

  /** day * m + night * (1 - m) lies between the two channel values for m
      in [0, 1]. */
  lemma MixBetween(day: real, night: real, m: real, lo: real, hi: real)
    requires 0.0 <= m <= 1.0 && lo <= day <= hi && lo <= night <= hi
    ensures lo <= day * m + night * (1.0 - m) <= hi
  {
    var v := day * m + night * (1.0 - m);
    MulNonneg(m, day - lo);
    MulNonneg(1.0 - m, night - lo);
    MulNonneg(m, hi - day);
    MulNonneg(1.0 - m, hi - night);
    SumNonneg(v - lo, m * (day - lo), (1.0 - m) * (night - lo));
    SumNonneg(hi - v, m * (hi - day), (1.0 - m) * (hi - night));
  }

  /** `(day * m + night * (1 - m)).astype(np.uint8)` with `m = mask / 255`:
      the day value at 255, the night value at 0, and between the two
      otherwise. */
  function BlendChannel(day: Byte, night: Byte, mask: Byte): (v: Byte)
    ensures mask == 255 ==> v == day
    ensures mask == 0 ==> v == night
    ensures (day <= night ==> day <= v <= night) && (night <= day ==> night <= v <= day)
  {
    var m := mask as real / 255.0;
    var r := day as real * m + night as real * (1.0 - m);
    var lo := if day <= night then day else night;
    var hi := if day <= night then night else day;
    MixBetween(day as real, night as real, m, lo as real, hi as real);
    TruncMonotone(lo as real, r);
    TruncMonotone(r, hi as real);
    assert Trunc(lo as real) == lo && Trunc(hi as real) == hi;
    assert mask == 255 ==> r == day as real;
    assert mask == 0 ==> r == night as real;
    assert Trunc(day as real) == day && Trunc(night as real) == night;
    Trunc(r)
  }

  function BlendPixel(day: Rgb, night: Rgb, mask: Byte): Rgb
  {
    Rgb(BlendChannel(day.r, night.r, mask), BlendChannel(day.g, night.g, mask),
      BlendChannel(day.b, night.b, mask))
  }

  /** Each channel of a blended pixel lies between the day and night
      channels. */
  predicate Between(v: Rgb, day: Rgb, night: Rgb)
  {
    (day.r <= v.r <= night.r || night.r <= v.r <= day.r)
    && (day.g <= v.g <= night.g || night.g <= v.g <= day.g)
    && (day.b <= v.b <= night.b || night.b <= v.b <= day.b)
  }

  /** `generate_terminator_pil`: the mask, blurred by `gaussianBlur` when the
      radius is positive, blends the day and night pictures pixel by pixel.
      Every pixel lies between its day and night values; with no blur, a
      pixel where the sun stands at least 0.02 above the horizon (in cosine)
      is the day pixel and one at least 0.02 below is the night pixel. */
  function GenerateTerminatorPil(day: seq<seq<Rgb>>, night: seq<seq<Rgb>>, w: nat, h: nat,
                                 trig: Trig, sun: Body, jd: real, twilightBlur: int,
                                 gaussianBlur: seq<seq<Byte>> -> seq<seq<Byte>>): (img: seq<seq<Rgb>>)
    requires IsGrid(day, w, h) && IsGrid(night, w, h) && KeepsSize(gaussianBlur, w, h)
    ensures IsGrid(img, w, h)
    ensures forall x, y :: 0 <= x < w && 0 <= y < h ==> Between(img[y][x], day[y][x], night[y][x])
    ensures twilightBlur <= 0 ==> forall x, y :: 0 <= x < w && 0 <= y < h ==>
      (CosZenithAt(trig, sun, jd, w, h, x, y) >= 0.02 ==> img[y][x] == day[y][x])
      && (CosZenithAt(trig, sun, jd, w, h, x, y) <= -0.02 ==> img[y][x] == night[y][x])
  {
    var raw := MaskArray(trig, sun, jd, w, h);
    var m := if twilightBlur > 0 then gaussianBlur(raw) else raw;
    seq(h, y requires 0 <= y < h =>
      seq(w, x requires 0 <= x < w => BlendPixel(day[y][x], night[y][x], m[y][x])))
  }

  // ---------------------------------------------------------------------
  // Markers

  /** Everything drawn on the map, in drawing order: cities, then the
      subsolar point in yellow, then the sublunar point in cyan. */
  function MapMarkers(sky: Sky, w: int, h: int): seq<Marker>
  {
    var sun := SubPoint(sky.sun, sky.sidereal);
    var moon := SubPoint(sky.moon, sky.sidereal);
    CityMarkers(CITIES, w, h) + [MarkerAt(sun.0, sun.1, w, h, Yellow), MarkerAt(moon.0, moon.1, w, h, Cyan)]
  }

  /** The sublunar cross is drawn last, so it is never hidden; the subsolar
      cross is hidden only where the sublunar cross lies on it; a city cross
      shows only where neither lies on it. */
  lemma MapMarkersOrder(sky: Sky, w: int, h: int, base: Rgb, x: int, y: int)
    ensures var ms := MapMarkers(sky, w, h);
      OnCross(ms[|ms| - 1], MARKER_SIZE, x, y) ==> Painted(ms, MARKER_SIZE, base, x, y) == Cyan
    ensures var ms := MapMarkers(sky, w, h);
      OnCross(ms[|ms| - 2], MARKER_SIZE, x, y) && !OnCross(ms[|ms| - 1], MARKER_SIZE, x, y) ==>
        Painted(ms, MARKER_SIZE, base, x, y) == Yellow
    ensures var ms := MapMarkers(sky, w, h);
      (forall i :: 0 <= i < |ms| ==> !OnCross(ms[i], MARKER_SIZE, x, y)) ==>
        Painted(ms, MARKER_SIZE, base, x, y) == base
  {
    var ms := MapMarkers(sky, w, h);
    var n := |ms|;
    if OnCross(ms[n - 1], MARKER_SIZE, x, y) {
      PaintedLastWins(ms, n - 1, MARKER_SIZE, base, x, y);
    }
    if OnCross(ms[n - 2], MARKER_SIZE, x, y) && !OnCross(ms[n - 1], MARKER_SIZE, x, y) {
      PaintedLastWins(ms, n - 2, MARKER_SIZE, base, x, y);
    }
    if forall i :: 0 <= i < n ==> !OnCross(ms[i], MARKER_SIZE, x, y) {
      PaintedUncovered(ms, MARKER_SIZE, base, x, y);
    }
  }

  /** `draw_markers_on_pil(pil_img, lat, lon, color)`. */
  method DrawMarkersOnPil(img: array2<Rgb>, lat: real, lon: real, color: Rgb)
    modifies img
    ensures forall x, y :: 0 <= x < img.Length0 && 0 <= y < img.Length1 ==>
      img[x, y] == Painted([MarkerAt(lat, lon, img.Length0, img.Length1, color)], MARKER_SIZE, old(img[x, y]), x, y)
  {
    DrawCross(img, MarkerAt(lat, lon, img.Length0, img.Length1, color), MARKER_SIZE);
  }

  /** `draw_city_crosses_on_pil`: one red cross per city, in order. */
  method DrawCityCrossesOnPil(img: array2<Rgb>, cities: seq<(real, real)>)
    modifies img
    ensures forall x, y :: 0 <= x < img.Length0 && 0 <= y < img.Length1 ==>
      img[x, y] == Painted(CityMarkers(cities, img.Length0, img.Length1), MARKER_SIZE, old(img[x, y]), x, y)
  {
    DrawMarkers(img, CityMarkers(cities, img.Length0, img.Length1), MARKER_SIZE);
  }

  /** `draw_subsolar_point_on_pil`: the `color` argument is ignored and the
      cross is always yellow. */
  method DrawSubsolarPointOnPil(img: array2<Rgb>, sky: Sky, color: Rgb)
    modifies img
    ensures forall x, y :: 0 <= x < img.Length0 && 0 <= y < img.Length1 ==>
      var p := SubPoint(sky.sun, sky.sidereal);
      img[x, y] == Painted([MarkerAt(p.0, p.1, img.Length0, img.Length1, Yellow)], MARKER_SIZE, old(img[x, y]), x, y)
  {
    var p := SubPoint(sky.sun, sky.sidereal);
    DrawMarkersOnPil(img, p.0, p.1, Yellow);
  }

  /** `draw_sublunar_point_on_pil`: the `color` argument is ignored and the
      cross is always cyan. */
  method DrawSublunarPointOnPil(img: array2<Rgb>, sky: Sky, color: Rgb)
    modifies img
    ensures forall x, y :: 0 <= x < img.Length0 && 0 <= y < img.Length1 ==>
      var p := SubPoint(sky.moon, sky.sidereal);
      img[x, y] == Painted([MarkerAt(p.0, p.1, img.Length0, img.Length1, Cyan)], MARKER_SIZE, old(img[x, y]), x, y)
  {
    var p := SubPoint(sky.moon, sky.sidereal);
    DrawMarkersOnPil(img, p.0, p.1, Cyan);
  }

  /** The three drawing calls of `update_terminator`, in their order. */
  method DecorateMap(img: array2<Rgb>, sky: Sky)
    modifies img
    ensures forall x, y :: 0 <= x < img.Length0 && 0 <= y < img.Length1 ==>
      img[x, y] == Painted(MapMarkers(sky, img.Length0, img.Length1), MARKER_SIZE, old(img[x, y]), x, y)
  {
    var w, h := img.Length0, img.Length1;
    var cities := CityMarkers(CITIES, w, h);
    var sun := SubPoint(sky.sun, sky.sidereal);
    var moon := SubPoint(sky.moon, sky.sidereal);
    var s := MarkerAt(sun.0, sun.1, w, h, Yellow);
    var l := MarkerAt(moon.0, moon.1, w, h, Cyan);
    ghost var c0 := Cells(img);
    DrawCityCrossesOnPil(img, CITIES);
    ghost var c1 := Cells(img);
    DrawSubsolarPointOnPil(img, sky, Yellow);
    ghost var c2 := Cells(img);
    DrawSublunarPointOnPil(img, sky, Cyan);
    forall x, y | 0 <= x < w && 0 <= y < h
      ensures img[x, y] == Painted(MapMarkers(sky, w, h), MARKER_SIZE, c0[y][x], x, y)
    {
      var b := c0[y][x];
      assert c1[y][x] == Painted(cities, MARKER_SIZE, b, x, y);
      PaintedOne(s, MARKER_SIZE, c1[y][x], x, y);
      PaintedOne(l, MARKER_SIZE, c2[y][x], x, y);
      PaintedSnoc(cities, s, MARKER_SIZE, b, x, y);
      PaintedSnoc(cities + [s], l, MARKER_SIZE, b, x, y);
      assert cities + [s] + [l] == MapMarkers(sky, w, h);
    }
  }

  // ---------------------------------------------------------------------
  // The refresh loop

  /** The throttle of `update_terminator`: recompute when there is no
      surface yet, no previous time, or at least 1 / UPDATE_FPS seconds have
      passed. */
  predicate Recompute(hasSurface: bool, lastDt: Option<real>, now: real)
  {
    !hasSurface || lastDt.None? || now - lastDt.value >= 1.0 / UPDATE_FPS as real
  }

  /** The finished map for one instant: the blend with its markers. */
  function Frame(day: seq<seq<Rgb>>, night: seq<seq<Rgb>>, w: nat, h: nat, trig: Trig, sky: Sky,
                 gaussianBlur: seq<seq<Byte>> -> seq<seq<Byte>>, x: int, y: int): Rgb
    requires IsGrid(day, w, h) && IsGrid(night, w, h) && KeepsSize(gaussianBlur, w, h)
    requires 0 <= x < w && 0 <= y < h
  {
    var blended := GenerateTerminatorPil(day, night, w, h, trig, sky.sun, sky.jd, TWILIGHT_BLUR_RADIUS, gaussianBlur);
    Painted(MapMarkers(sky, w, h), MARKER_SIZE, blended[y][x], x, y)
  }

  /** The worker thread's state: `now`, `last_dt`, the local `surface` and
      the shared `terminator_surface` it publishes. */
  class TerminatorUpdater {
    const normalOps: bool
    const day: seq<seq<Rgb>>
    const night: seq<seq<Rgb>>
    const w: nat
    const h: nat
    var now: Option<real>
    var lastDt: Option<real>
    var surface: Option<seq<seq<Rgb>>>
    var published: Option<seq<seq<Rgb>>>

    ghost predicate Valid()
      reads this
    {
      IsGrid(day, w, h) && IsGrid(night, w, h)
      && (surface.Some? ==> IsGrid(surface.value, w, h))
    }

    /** The thread starts with no time, no previous time and the `None`
        surface `main` passes in. */
    constructor (normalOps: bool, day: seq<seq<Rgb>>, night: seq<seq<Rgb>>, w: nat, h: nat)
      requires IsGrid(day, w, h) && IsGrid(night, w, h)
      ensures Valid()
      ensures this.normalOps == normalOps && this.day == day && this.night == night
      ensures this.w == w && this.h == h
      ensures now.None? && lastDt.None? && surface.None? && published.None?
    {
      this.normalOps := normalOps;
      this.day, this.night, this.w, this.h := day, night, w, h;
      now, lastDt, surface, published := None, None, None, None;
    }

    /** One pass of the `while running` loop. `clock` is what
        `datetime.now(timezone.utc)` returns, in seconds; `ephem` gives the
        sky at an instant. In normal mode `now` is the clock; in animation
        mode it is the clock the first time and one day later on every pass
        after. When the throttle allows, the map is regenerated, marked and
        published and `last_dt` becomes `now`; otherwise nothing else
        changes. */
    method Step(clock: real, ephem: real -> Sky, trig: Trig,
                gaussianBlur: seq<seq<Byte>> -> seq<seq<Byte>>)
      requires Valid() && KeepsSize(gaussianBlur, w, h)
      modifies this
      ensures Valid()
      ensures normalOps ==> now == Some(clock)
      ensures !normalOps && old(now).None? ==> now == Some(clock)
      ensures !normalOps && old(now).Some? ==> now == Some(old(now).value + ANIMATION_INTERVAL)
      ensures Recompute(old(surface).Some?, old(lastDt), now.value) ==>
        && lastDt == now && surface.Some? && published == surface
        && forall x, y :: 0 <= x < w && 0 <= y < h ==>
             surface.value[y][x] == Frame(day, night, w, h, trig, ephem(now.value), gaussianBlur, x, y)
      ensures !Recompute(old(surface).Some?, old(lastDt), now.value) ==>
        lastDt == old(lastDt) && surface == old(surface) && published == old(published)
    {
      if normalOps {
        now := Some(clock);
      } else if now.None? {
        now := Some(clock);
      } else {
        now := Some(now.value + ANIMATION_INTERVAL);
      }
      var t := now.value;
      if surface.None? || lastDt.None? || t - lastDt.value >= 1.0 / UPDATE_FPS as real {
        var sky := ephem(t);
        var blended := GenerateTerminatorPil(day, night, w, h, trig, sky.sun, sky.jd, TWILIGHT_BLUR_RADIUS, gaussianBlur);
        var pilForMap := ToSurface(blended, w, h);
        DecorateMap(pilForMap, sky);
        var frame := Cells(pilForMap);
        surface := Some(frame);
        lastDt := now;
        published := Some(frame);
      }
    }
  }
}
