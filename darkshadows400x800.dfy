/** `DarkShadows400x800.py`: a hard day/night map whose day test is the
    solar altitude `ephem` reports, redrawn on a timer, centred on the
    screen, with red city crosses drawn on the screen at the map's offset. */
module DarkShadows400x800 {
  import opened Numeric
  import opened Raster

  /** The default `size` of `draw_cross`. */
  const CROSS_SIZE: int := 5

  /** `UPDATE_INTERVAL`, in milliseconds. */
  const UPDATE_INTERVAL: int := 60000

  /** `CITIES`, in dictionary order. */
  const CITIES: seq<(real, real)> := [
    (0.0, 0.0), (35.6895, 139.6917), (59.3293, 18.0686), (21.3069, -157.8583),
    (40.7128, -74.0060), (34.0522, -118.2437), (-54.8019, -68.3029), (-33.8651, 151.2099)
  ]

  /** `is_day`: `sunAlt(lat, lon, now)` stands for `ephem.Sun(obs).alt` for
      an observer at that point and instant; the sun is up when it is above
      the horizon. */
  predicate IsDay(sunAlt: (real, real, real) -> real, lat: real, lon: real, now: real)
  {
    sunAlt(lat, lon, now) > 0.0
  }

  /** The "1" mask value `putpixel` writes at (x, y). */
  function MaskBit(sunAlt: (real, real, real) -> real, now: real, w: int, h: int, x: int, y: int): int
    requires 0 < w && 0 < h
  {
    if IsDay(sunAlt, RowLat(y, h), ColLon(x, w), now) then 1 else 0
  }

  /** The composite pixel for the map at `now`. */
  function MapPixel(day: seq<seq<Rgb>>, night: seq<seq<Rgb>>, w: nat, h: nat,
                    sunAlt: (real, real, real) -> real, now: real, x: int, y: int): Rgb
    requires IsGrid(day, w, h) && IsGrid(night, w, h) && 0 <= x < w && 0 <= y < h
  {
    if IsDay(sunAlt, RowLat(y, h), ColLon(x, w), now) then day[y][x] else night[y][x]
  }

  /** `generate_terminator_image`: every pixel of the w x h mask is written
      once, in row order, with one shared `now`; the composite takes the day
      pixel exactly where the sun's altitude at the pixel's latitude and
      longitude is positive. */
  method GenerateTerminatorImage(day: seq<seq<Rgb>>, night: seq<seq<Rgb>>, w: nat, h: nat,
                                 sunAlt: (real, real, real) -> real, now: real)
    returns (comp: seq<seq<Rgb>>, ghost writes: seq<(int, int)>)
    requires IsGrid(day, w, h) && IsGrid(night, w, h)
    ensures writes == Scan(w, h)
    ensures IsGrid(comp, w, h)
    ensures forall x, y :: 0 <= x < w && 0 <= y < h ==>
      (sunAlt(RowLat(y, h), ColLon(x, w), now) > 0.0 ==> comp[y][x] == day[y][x])
      && (sunAlt(RowLat(y, h), ColLon(x, w), now) <= 0.0 ==> comp[y][x] == night[y][x])
  {
    var mask, ws := FillMask(w, h, (x, y) requires 0 <= x < w && 0 <= y < h => MaskBit(sunAlt, now, w, h, x, y));
    writes := ws;
    comp := Composite(day, night, Cells(mask), w, h);
  }

  /** The crosses `overlay_city_markers` draws: each city's image pixel
      moved by the centring offsets onto the screen. */
  function ScreenMarkers(imgW: int, imgH: int, screenW: int, screenH: int): (ms: seq<Marker>)
    ensures |ms| == |CITIES|
  {
    var ox, oy := CenterOffset(screenW, imgW), CenterOffset(screenH, imgH);
    seq(|CITIES|, i requires 0 <= i < |CITIES| =>
      var (xi, yi) := LatLonToXY(CITIES[i].0, CITIES[i].1, imgW, imgH);
      Marker(xi + ox, yi + oy, Red))
  }

  /** Each cross is centred on the screen pixel under its city's image
      pixel, given the offsets the map is blitted at, and that screen pixel
      is red once the crosses are drawn, whatever lay beneath. */
  lemma MarkersLandOnImagePixel(imgW: nat, imgH: nat, screenW: int, screenH: int, i: int, base: Rgb)
    requires 0 <= i < |CITIES|
    ensures var m := ScreenMarkers(imgW, imgH, screenW, screenH)[i];
      var ox, oy := CenterOffset(screenW, imgW), CenterOffset(screenH, imgH);
      && (m.x - ox, m.y - oy) == LatLonToXY(CITIES[i].0, CITIES[i].1, imgW, imgH)
      && Painted(ScreenMarkers(imgW, imgH, screenW, screenH), CROSS_SIZE, base, m.x, m.y) == Red
  {
    var ms := ScreenMarkers(imgW, imgH, screenW, screenH);
    PaintedSameColour(ms, Red, i, CROSS_SIZE, base, ms[i].x, ms[i].y);
  }

  /** `draw_map`: black screen, the map blitted at
      `((SCREEN_W - img_w) // 2, (SCREEN_H - img_h) // 2)`, then the crosses
      drawn on the screen over it, clipped to the screen. */
  method DrawMap(screen: array2<Rgb>, day: seq<seq<Rgb>>, night: seq<seq<Rgb>>, w: nat, h: nat,
                 sunAlt: (real, real, real) -> real, now: real)
    requires IsGrid(day, w, h) && IsGrid(night, w, h)
    modifies screen
    ensures var ox, oy := CenterOffset(screen.Length0, w), CenterOffset(screen.Length1, h);
      forall x, y :: 0 <= x < screen.Length0 && 0 <= y < screen.Length1 ==>
        screen[x, y] == Painted(ScreenMarkers(w, h, screen.Length0, screen.Length1), CROSS_SIZE,
                                if Under(ox, oy, w, h, x, y)
                                then MapPixel(day, night, w, h, sunAlt, now, x - ox, y - oy)
                                else Black,
                                x, y)
  {
    var comp, _ := GenerateTerminatorImage(day, night, w, h, sunAlt, now);
    var ox := CenterOffset(screen.Length0, w);
    var oy := CenterOffset(screen.Length1, h);
    Present(screen, comp, w, h, ox, oy);
    DrawMarkers(screen, ScreenMarkers(w, h, screen.Length0, screen.Length1), CROSS_SIZE);
  }
}
