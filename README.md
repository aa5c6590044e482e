# HyperPixelDarkShadows in Dafny

The HyperPixelDarkShadows scripts drive a small Raspberry Pi display
(HyperPixel Rect, 800 x 480, and a 720 x 720 square panel). They do two
things:

- draw a day/night world map with the solar terminator, city crosses and
  the subsolar and sublunar points;
- show the album art of a Sonos zone.

This project models the logic under the pygame, PIL, `ephem` and Sonos
calls, one module per script:

| module | script |
|---|---|
| `DarkShadows` | `HyperPixelRect/DarkShadows.py` |
| `DarkShadowsTwilight` | `HyperPixelRect/DarkShadowsTwilight.py` |
| `DarkShadowsAnimated` | `HyperPixelRect/DarkShadowsAnimated.py` |
| `DarkShadows400x800` | `HyperPixelRect/DarkShadows400x800.py` |
| `RectDayNight1` … `RectDayNight6` | `HyperPixelRect/RectDayNight1.py` … `RectDayNight6.py` |
| `RectTest2` | `HyperPixelRect/RectTest2.py` |
| `RectSonos2` … `RectSonos5` | `HyperPixelRect/RectSonos2.py` … `RectSonos5.py` |

Each script is modelled as written. The near-duplicates are not merged. In
particular, the two opposite subsolar-longitude conventions stay separate:
`DarkShadowsTwilight` and `DarkShadowsAnimated` move the sun west, while
`RectDayNight5` and `RectDayNight6` move it east. The binary masks and the
ramp masks also stay separate.

Four shared modules hold what several scripts repeat:

- `Numeric`: Python's `int()` truncation, float `%`, floor division by two,
  and the aspect-preserving fit.
- `Solar`: the declination approximation, the zenith cosine, and the two
  subsolar-longitude formulas.
- `Raster`: the equirectangular grid, `Image.composite` with 1-bit and 8-bit
  masks, the nested `putpixel` loops, cross markers, fill and blit.
- `AlbumArt`: the two album-art URL rules, download outcomes, screen
  actions, and the exit keys.

How things are represented:

- **Surfaces changed in place** are `array2<Rgb>`, indexed `[x, y]` as the
  scripts address pixels.
- **Pictures that are only read** are `seq<seq<_>>` held row by row.
- **Mask loops** are nested `while` loops. A ghost log of their writes
  shows that each pixel is written exactly once, in scan order.
- **State updated by the loops** is held in classes:
  - `DarkShadows.TerminatorUpdater`
  - `RectDayNight6.Display`
  - `RectSonos4.Player`
  - `RectSonos5.Viewer`
  - `RectSonos3.Poller`

These are parameters of the model rather than part of it:

- sine and cosine (a `Trig` value, with `Bounded` and `Pythagorean` as
  hypotheses);
- the `ephem` Sun, Moon, sidereal time, Julian date and altitude;
- the clocks;
- the Gaussian blur and the resize;
- HTTP fetching and decoding;
- the Sonos and pygame events.

## Model

| member | source | states |
|---|---|---|
| Numeric.Trunc | HyperPixelRect/DarkShadowsTwilight.py:79 | `int()` truncates toward zero: for r >= 0 the result i has i <= r < i + 1, and for r <= 0 it has i - 1 < r <= i |
| Numeric.TruncMonotone | HyperPixelRect/DarkShadowsTwilight.py:89-90 | truncation preserves order |
| Numeric.FMod | HyperPixelRect/DarkShadows.py:128 | Python float `%` with a positive modulus lies in [0, m), and the argument minus the result is a whole multiple of m |
| Numeric.RadiansOfDegrees | HyperPixelRect/DarkShadows.py:76-80 | `math.radians` undoes `math.degrees` |
| Numeric.CenterOffset | HyperPixelRect/DarkShadowsAnimated.py:104-105 | `(outer - inner) // 2` is the floor of half the margin: 2o <= outer - inner <= 2o + 1 |
| Numeric.CenterOffsetFits | HyperPixelRect/DarkShadowsAnimated.py:104-105 | a picture no larger than the screen, placed at the centring offset, starts and ends on the screen; its two margins differ by at most one pixel |
| Numeric.FitSizeFits | HyperPixelRect/RectTest2.py:29-32 | with scale = min(max_w / w, max_h / h), the size (int(w·scale), int(h·scale)) fits in the box and fills it along at least one side |
| Numeric.FitCentred | HyperPixelRect/DarkShadowsTwilight.py:131-138 | the fitted picture, placed at the centring offsets, lies inside the screen (offsets >= 0, offset + size <= screen) |
| Numeric.FitKeepsShape | HyperPixelRect/RectTest2.py:31-32 | both sides use the one scale, so only truncation distorts the shape: -h < h·nw - w·nh < w |
| Numeric.FitSizeZeroSide | HyperPixelRect/RectTest2.py:29-32 | a fitted side truncates to 0 iff the picture is more than max_w times wider than tall or more than max_h times taller than wide; DarkShadowsTwilight.py:130-132 fits the same way |
| Solar.FracHourRange | HyperPixelRect/DarkShadowsTwilight.py:55 | `hour + minute/60 + second/3600` lies in [0, 24) for a valid time |
| Solar.DeclinationBound | HyperPixelRect/DarkShadowsTwilight.py:47-48 | given sin bounded by 1, the declination lies within ±radians(23.44); DarkShadowsAnimated.py:38-39, RectDayNight5.py:28-30 and RectDayNight6.py:26-28 use the same function |
| Solar.CosZenithAtSubsolarPoint | HyperPixelRect/DarkShadowsTwilight.py:58-59 | given sin² + cos² = 1 and cos 0 = 1, the zenith cosine at latitude = declination and hour angle 0 is exactly 1 |
| Solar.SubsolarLonWestRange | HyperPixelRect/DarkShadowsTwilight.py:55-56 | `-(frac_hour / 24) * 360 - 180` lies in (-540, -180] over a day |
| Solar.SubsolarLonEastRange | HyperPixelRect/RectDayNight6.py:35-36 | `(frac_hour / 24) * 360 - 180` lies in [-180, 180) over a day; RectDayNight5.py:42-45 is the same |
| Solar.ConventionsMirror | HyperPixelRect/DarkShadowsTwilight.py:56 | the westward longitude is the negated eastward one less 360, and per hour the first moves 15° west while the second (RectDayNight6.py:36) moves 15° east |
| Raster.Cells | HyperPixelRect/DarkShadowsAnimated.py:123 | the row-major picture of a surface (`tobytes`) has its size and holds pixel (x, y) at row y, column x |
| Raster.ToSurface | HyperPixelRect/DarkShadowsAnimated.py:123 | `fromstring` makes a fresh surface of the picture's size whose row-major picture is that picture |
| Raster.GridRanges | HyperPixelRect/DarkShadowsTwilight.py:69-71 | row y maps to latitude 90 - 180y/h in (-90, 90], row 0 being 90; column x maps to longitude 360x/w - 180 in [-180, 180), column 0 being -180 |
| Raster.LatLonToXYRange | HyperPixelRect/DarkShadowsTwilight.py:88-91 | `latlon_to_xy` puts every point of the globe on the picture or on its right/bottom edge |
| Raster.LatLonToXYInvertsGrid | HyperPixelRect/DarkShadowsAnimated.py:59-70 | mapping the latitude and longitude of a mask pixel back with `latlon_to_xy` gives that pixel |
| Raster.NullIslandCentre | HyperPixelRect/DarkShadows.py:172-173 | (0, 0) on an 800 x 400 image is pixel (400, 200) |
| Raster.Composite | HyperPixelRect/DarkShadowsAnimated.py:64 | `Image.composite` with a 1-bit mask takes the day pixel where the mask is set and the night pixel where it is clear |
| Raster.CompositeAllDay | HyperPixelRect/RectDayNight2.py:29 | an all-set mask reproduces the day picture |
| Raster.CompositeAllNight | HyperPixelRect/RectDayNight2.py:29 | an all-clear mask reproduces the night picture |
| Raster.Div255Exact | HyperPixelRect/DarkShadowsTwilight.py:83 | Pillow's rounding division by 255 gives back k from 255k |
| Raster.Div255Monotone | HyperPixelRect/DarkShadowsTwilight.py:83 | that division preserves order |
| Raster.BlendBounds | HyperPixelRect/DarkShadowsTwilight.py:83 | one channel of an 8-bit-mask composite is the day value at mask 255, the night value at mask 0, and between the two otherwise |
| Raster.BlendL | HyperPixelRect/DarkShadowsTwilight.py:83 | the same three facts for the channel function |
| Raster.CompositeL | HyperPixelRect/DarkShadowsTwilight.py:83 | `Image.composite` with an 8-bit mask takes the day pixel where the mask is 255 and the night pixel where it is 0 |
| Raster.ScanVisitsOnce | HyperPixelRect/DarkShadowsTwilight.py:68-70 | `for y in range(h): for x in range(w)` visits each pixel of the grid exactly once and nothing outside it |
| Raster.Paint | HyperPixelRect/RectDayNight1.py:26-31 | the nested loop writes pixels in scan order (so each exactly once) and leaves f(x, y) in every pixel |
| Raster.FillMask | HyperPixelRect/RectDayNight6.py:47-53 | `Image.new` and the `putpixel` loop give a fresh w x h mask written once per pixel in scan order, holding f(x, y) at (x, y) |
| Raster.PaintedUncovered | HyperPixelRect/DarkShadows.py:175-176 | a pixel no cross covers keeps its colour |
| Raster.PaintedLastWins | HyperPixelRect/DarkShadows.py:220-222 | a pixel covered by marker j and no later marker has marker j's colour: later crosses overwrite earlier ones |
| Raster.PaintedSameColour | HyperPixelRect/DarkShadowsAnimated.py:76-79 | when all crosses share one colour, every covered pixel has that colour |
| Raster.PaintedSnoc | HyperPixelRect/DarkShadows.py:220-222 | drawing one more cross changes exactly the pixels it covers |
| Raster.DrawCross | HyperPixelRect/DarkShadowsTwilight.py:94-96 | the two lines of a cross colour the row y over x ± arm and the column x over y ± arm, clipped to the surface; other pixels are unchanged |
| Raster.DrawMarkers | HyperPixelRect/DarkShadowsTwilight.py:99-102 | drawing crosses in order leaves each pixel with the colour of the last cross covering it, or its old colour |
| Raster.CityMarkers | HyperPixelRect/DarkShadowsAnimated.py:76-79 | one red cross per city, in dictionary order, at the pixel `latlon_to_xy` gives |
| Raster.Fill | HyperPixelRect/DarkShadowsAnimated.py:127 | `fill` sets every pixel to the colour |
| Raster.Blit | HyperPixelRect/RectTest2.py:40 | `blit`/`paste` copies the part of the picture that falls on the destination and leaves every other pixel unchanged |
| Raster.Present | HyperPixelRect/DarkShadowsAnimated.py:127-128 | fill black then blit: the picture where it falls, black elsewhere |
| AlbumArt.PrefixedShape | HyperPixelRect/RectSonos4.py:41-42 | the prefixed URL starts with "http://" + ip + ":1400" and ends with the URI |
| AlbumArt.ResolveRelative | HyperPixelRect/RectSonos4.py:41-42 | a URI starting with "/" becomes exactly `SpeakerBase(ip) + uri`; any other URI is unchanged (iff); the result always ends with the URI. RectSonos2.py:20-24 and RectSonos3.py:41-45 use the same rule |
| AlbumArt.ResolveHttp | HyperPixelRect/RectSonos5.py:47-50 | a URI starting with "http" is unchanged (iff); anything else becomes exactly `SpeakerBase(ip) + uri`; the result always starts with "http" |
| AlbumArt.ResolveRelativeIdempotent | HyperPixelRect/RectSonos4.py:41-42 | resolving a resolved URL changes nothing |
| AlbumArt.ResolveHttpIdempotent | HyperPixelRect/RectSonos5.py:47-50 | resolving a resolved URL changes nothing |
| AlbumArt.RulesAgree | HyperPixelRect/RectSonos5.py:47-50 | the two rules agree on speaker paths ("/…") and absolute http URLs |
| AlbumArt.RulesDisagree | HyperPixelRect/RectSonos4.py:41-42 | they disagree on a bare file name: the "/" rule keeps it, the "http" rule prefixes it |
| AlbumArt.Perform | HyperPixelRect/RectSonos4.py:49-54 | blit at (0, 0), nothing, or fill black, pixel by pixel as `AfterAction` says |
| AlbumArt.PollUi | HyperPixelRect/RectSonos4.py:73-79 | after the event loop, `running` holds iff it held before and no event was QUIT, Escape, or a key whose text is q or Q |
| DarkShadows.NormalizeLon | HyperPixelRect/DarkShadows.py:81 | `(ra - gmst + 540) % 360 - 180` lies in [-180, 180) and differs from ra - gmst by whole turns |
| DarkShadows.NormalizeLonKeepsInRange | HyperPixelRect/DarkShadows.py:81 | a difference already in [-180, 180) is returned unchanged |
| DarkShadows.NormalizeLonExamples | HyperPixelRect/DarkShadows.py:81 | 370 gives 10 and -190 gives 170 |
| DarkShadows.SubPoint | HyperPixelRect/DarkShadows.py:67-101 | `subsolar_point`/`sublunar_point`: latitude = degrees(dec), longitude in [-180, 180) congruent to degrees(ra) - degrees(gmst) modulo 360 |
| DarkShadows.GmstDegrees | HyperPixelRect/DarkShadows.py:128 | the GMST term lies in [0, 360) and differs from the linear expression by whole turns |
| DarkShadows.LinspaceWithin | HyperPixelRect/DarkShadows.py:115-117 | every `np.linspace` element lies between the ends; element 0 is the start and element num - 1 the stop (column 0 is -180, column w-1 is +180, row 0 is +90, row h-1 is -90) |
| DarkShadows.Ramp | HyperPixelRect/DarkShadows.py:140-141 | the mask value lies in [0, 255]: 0 at cosZ <= -0.02 and 255 at cosZ >= 0.02 |
| DarkShadows.RampMonotone | HyperPixelRect/DarkShadows.py:140-141 | the mask value never decreases as cosZ grows |
| DarkShadows.MaskArray | HyperPixelRect/DarkShadows.py:115-141 | the mask is h x w and holds the ramp of the zenith cosine at each pixel's linspace latitude and longitude |
| DarkShadows.MixBetween | HyperPixelRect/DarkShadows.py:154 | day·m + night·(1 - m) lies between the channel values for m in [0, 1] |
| DarkShadows.BlendChannel | HyperPixelRect/DarkShadows.py:152-154 | the blended channel is exactly day at mask 255, exactly night at mask 0, and always between the two |
| DarkShadows.GenerateTerminatorPil | HyperPixelRect/DarkShadows.py:103-158 | the blend has the pictures' size; each pixel lies channel-wise between its day and night pixels; without blur, it is the day pixel where cosZ >= 0.02 and the night pixel where cosZ <= -0.02 |
| DarkShadows.MapMarkersOrder | HyperPixelRect/DarkShadows.py:220-222 | cities red, then subsolar yellow, then sublunar cyan: a pixel on the cyan cross is cyan; on the yellow cross and not the cyan one it is yellow; on no cross it keeps its colour |
| DarkShadows.DrawMarkersOnPil | HyperPixelRect/DarkShadows.py:166-177 | one cross with arm 6 at the truncated lat/lon pixel, in the given colour |
| DarkShadows.DrawCityCrossesOnPil | HyperPixelRect/DarkShadows.py:179-184 | red crosses for the cities in order |
| DarkShadows.DrawSubsolarPointOnPil | HyperPixelRect/DarkShadows.py:186-191 | a yellow cross at the subsolar point, whatever `color` is passed |
| DarkShadows.DrawSublunarPointOnPil | HyperPixelRect/DarkShadows.py:193-198 | a cyan cross at the sublunar point, whatever `color` is passed |
| DarkShadows.DecorateMap | HyperPixelRect/DarkShadows.py:220-222 | the three drawing calls leave each pixel painted by the city, subsolar and sublunar crosses in that order |
| DarkShadows.TerminatorUpdater.constructor | HyperPixelRect/DarkShadows.py:200-203 | the worker starts with no `now`, no `last_dt` and no surface |
| DarkShadows.TerminatorUpdater.Step | HyperPixelRect/DarkShadows.py:205-229 | `now` is the clock in normal mode, and in animation mode the clock first and then exactly one day more per pass; the map is recomputed, marked and published iff there is no surface, no `last_dt`, or at least 1/UPDATE_FPS s have passed, and then `last_dt = now`; otherwise nothing else changes |
| DarkShadowsTwilight.IsDayOverhead | HyperPixelRect/DarkShadowsTwilight.py:51-60 | `is_day` returns the zenith cosine, which is 1 at the declination's latitude and the westward subsolar longitude |
| DarkShadowsTwilight.Ramp | HyperPixelRect/DarkShadowsTwilight.py:73-79 | 255 at cos_zen >= 0.01, 0 at cos_zen <= -0.01, and otherwise int((cos_zen + 0.01) / 0.02 · 255), which is at most 254 |
| DarkShadowsTwilight.RampMonotone | HyperPixelRect/DarkShadowsTwilight.py:73-79 | the ramp never decreases as cos_zen grows |
| DarkShadowsTwilight.TwilightMask | HyperPixelRect/DarkShadowsTwilight.py:66-80 | the unblurred mask is h rows of w values |
| DarkShadowsTwilight.GenerateTerminatorSurface | HyperPixelRect/DarkShadowsTwilight.py:63-84 | every mask pixel is written once in scan order with the ramp at its row's latitude and column's longitude for one shared `now`; the blurred mask composites day over night |
| DarkShadowsTwilight.TwilightMaskBands | HyperPixelRect/DarkShadowsTwilight.py:73-76 | before blurring, the mask is 255 where cos_zen >= 0.01 and 0 where cos_zen <= -0.01 |
| DarkShadowsTwilight.Markers | HyperPixelRect/DarkShadowsTwilight.py:99-102 | one red cross per city at `latlon_to_xy` of the resized size |
| DarkShadowsTwilight.ShowFrame | HyperPixelRect/DarkShadowsTwilight.py:130-143 | the resize raises (and the screen is left as it was) iff a fitted side is 0; otherwise the screen shows the resized map, with its crosses, at the centring offsets of the fitted size, and black elsewhere |
| DarkShadowsTwilight.FrameOnScreen | HyperPixelRect/DarkShadowsTwilight.py:131-138 | the fitted size fits the screen, the offsets are >= 0 and keep the map on the screen, and width and height are scaled alike up to truncation |
| DarkShadowsAnimated.DayUnderTheSun | HyperPixelRect/DarkShadowsAnimated.py:41-50 | `is_day` (cos_zenith > 0 with the westward subsolar longitude) holds straight under the sun |
| DarkShadowsAnimated.GenerateTerminatorSurface | HyperPixelRect/DarkShadowsAnimated.py:55-65 | every mask pixel is written once in scan order; the composite is the day pixel iff `is_day` at the row's latitude and column's longitude for one `now`, else the night pixel |
| DarkShadowsAnimated.ShowFrame | HyperPixelRect/DarkShadowsAnimated.py:104-128 | the screen shows the marked map at ((SW - IMG_W)//2, (SH - IMG_H)//2), with red arm-5 crosses placed in image space, and black elsewhere |
| DarkShadows400x800.GenerateTerminatorImage | HyperPixelRect/DarkShadows400x800.py:64-74 | every mask pixel is written once in scan order; the composite is the day pixel where the solar altitude at the pixel's latitude and longitude is > 0, else the night pixel |
| DarkShadows400x800.ScreenMarkers | HyperPixelRect/DarkShadows400x800.py:54-62 | one cross per city |
| DarkShadows400x800.MarkersLandOnImagePixel | HyperPixelRect/DarkShadows400x800.py:54-62 | a cross's screen position minus the blit offsets is its city's image pixel, and that screen pixel ends red whatever was under it |
| DarkShadows400x800.DrawMap | HyperPixelRect/DarkShadows400x800.py:97-107 | black screen, the map blitted at the centring offsets, then the crosses drawn on top |
| RectDayNight1.DrawDiagonal | HyperPixelRect/RectDayNight1.py:26-31 | each screen pixel is written once in scan order, from the day surface iff y > 480 - (480/800)·x, else from the night surface |
| RectDayNight1.DaySourceRegion | HyperPixelRect/RectDayNight1.py:28 | column 0 comes from the night surface, and the day region is closed under moving right or down |
| RectDayNight2.DayRegionClosed | HyperPixelRect/RectDayNight2.py:23 | the day region is closed under moving right or down |
| RectDayNight2.ColumnZeroNight | HyperPixelRect/RectDayNight2.py:23 | column 0 is night |
| RectDayNight2.BuildMask | HyperPixelRect/RectDayNight2.py:20-26 | an 800 x 480 mask written once per pixel, 1 iff y > 480 - (480/800)·x |
| RectDayNight2.ShowPicture | HyperPixelRect/RectDayNight2.py:29-33 | the screen shows the day pixel where the diagonal rule holds and the night pixel elsewhere |
| RectDayNight3.SubsolarXOnPicture | HyperPixelRect/RectDayNight3.py:28-32 | the day fraction lies in [0, 1), so `int(day_fraction * width)` lies in [0, width - 1] |
| RectDayNight3.GenerateMask | HyperPixelRect/RectDayNight3.py:23-41 | a width x height mask written once per pixel, 1 iff x <= subsolar_x |
| RectDayNight3.RowIsPrefix | HyperPixelRect/RectDayNight3.py:37-40 | every row is subsolar_x + 1 ones followed by zeros, so column 0 is always day |
| RectDayNight3.ShowMap | HyperPixelRect/RectDayNight3.py:43-50 | the screen shows day where x <= subsolar_x and night elsewhere |
| RectDayNight4.SunPositionFractionRange | HyperPixelRect/RectDayNight4.py:23-26 | the fraction of the day lies in [0, 1) |
| RectDayNight4.MaskLonIsColLon | HyperPixelRect/RectDayNight4.py:44 | `(x/width - 0.5) * 360` equals 360x/width - 180 and lies in [-180, 180) |
| RectDayNight4.AngleIsHourAngle | HyperPixelRect/RectDayNight4.py:46 | the angle is the hour angle to the eastward subsolar longitude turned by 180° |
| RectDayNight4.GenerateTerminatorMask | HyperPixelRect/RectDayNight4.py:28-51 | each pixel is written once; it is 1 iff cos of its angle > 0; it depends on x alone, so all rows are identical |
| RectDayNight4.ShowMap | HyperPixelRect/RectDayNight4.py:55-58 | the screen shows day where the cosine is positive, night elsewhere |
| RectDayNight5.DayUnderTheSun | HyperPixelRect/RectDayNight5.py:32-53 | `is_day` (cos_zenith > 0 with the eastward subsolar longitude) holds straight under the sun |
| RectDayNight5.GenerateTerminatorMask | HyperPixelRect/RectDayNight5.py:55-66 | each pixel is written once in scan order: 1 iff `is_day` at the pixel's latitude and longitude, 0 otherwise |
| RectDayNight5.ShowMap | HyperPixelRect/RectDayNight5.py:70-73 | the screen shows day where `is_day`, night elsewhere |
| RectDayNight6.DayUnderTheSun | HyperPixelRect/RectDayNight6.py:30-41 | `is_day` holds straight under the eastward sun |
| RectDayNight6.GenerateTerminatorSurface | HyperPixelRect/RectDayNight6.py:43-55 | each mask pixel is written once in scan order; the composite is day iff `is_day` |
| RectDayNight6.Schedule | HyperPixelRect/RectDayNight6.py:69-82 | over successive passes with clock readings `times`, a pass regenerates iff there is no surface yet or its clock has reached `next_update`; each regeneration moves `next_update` to that pass's time plus 60 |
| RectDayNight6.NotBeforeDue | HyperPixelRect/RectDayNight6.py:79-82 | once a surface exists, no pass regenerates before `next_update` |
| RectDayNight6.NoLaterThanDue | HyperPixelRect/RectDayNight6.py:79-82 | once a surface exists, some pass up to the first one whose clock reaches `next_update` regenerates |
| RectDayNight6.AtMostOncePerMinute | HyperPixelRect/RectDayNight6.py:78-82 | any two passes that regenerate are at least 60 s apart on the monotonic clock, across the whole run |
| RectDayNight6.AtLeastOncePerMinute | HyperPixelRect/RectDayNight6.py:78-82 | after a regeneration at pass i, a later pass up to j regenerates whenever the clock at j is 60 s or more past pass i |
| RectDayNight6.FirstPassRegenerates | HyperPixelRect/RectDayNight6.py:65-81 | the first pass always draws a map, since `current_surface` starts as None |
| RectDayNight6.Display.constructor | HyperPixelRect/RectDayNight6.py:65-66 | `next_update = 0.0`, `current_surface = None` |
| RectDayNight6.Display.Tick | HyperPixelRect/RectDayNight6.py:79-85 | regenerates iff there is no surface or the clock has reached `next_update`, then sets `next_update = now + 60`; otherwise both are unchanged; the screen shows the current surface |
| RectTest2.BlackImage | HyperPixelRect/RectTest2.py:34-35 | a missing file gives a black 720 x 720 image |
| RectTest2.LoadImage | HyperPixelRect/RectTest2.py:25-35 | a missing file gives the black image; for a file, the resize raises `ValueError` iff the fitted size has a zero side, and otherwise the image has the fitted size, is non-empty, fits the screen and fills it along one side |
| RectTest2.ThinPictureRaises | HyperPixelRect/RectTest2.py:29-33 | a 1000 x 1 file is fitted to (720, 0), so the resize raises |
| RectTest2.LoadedKeepsShape | HyperPixelRect/RectTest2.py:29-33 | a resized image keeps the original shape up to truncation |
| RectTest2.PastePositionOnCanvas | HyperPixelRect/RectTest2.py:39 | the paste position is >= 0 and the image ends on the canvas |
| RectTest2.Compose | HyperPixelRect/RectTest2.py:38-40 | a fresh 720 x 720 canvas, black except under the pasted image at `pos` |
| RectTest2.MissingFileBlackCanvas | HyperPixelRect/RectTest2.py:34-40 | with no file, every canvas pixel is black |
| RectSonos2.Run | HyperPixelRect/RectSonos2.py:8-54 | no zone raises; missing or empty art raises; an HTTP error escapes; a decode error gives a black screen; otherwise the art, resized to the 800 x 480 screen, is blitted; the action is never to keep the screen |
| RectSonos2.ShownScreenIsArtOrBlack | HyperPixelRect/RectSonos2.py:43-54 | when the script reaches the screen, every one of its 800 x 480 pixels is the art's or black, so the previous contents never remain |
| RectSonos3.PollAction | HyperPixelRect/RectSonos3.py:30-86 | not PLAYING gives black (iff); PLAYING draws the art iff there is some and it fetches (by the "/" rule) and decodes; otherwise the screen is kept |
| RectSonos3.LogoBranchUnreachable | HyperPixelRect/RectSonos3.py:33-71 | inside `state == 'PLAYING'` the STOPPED/PAUSED test is false, so the logo branch is dead |
| RectSonos3.Poller.Step | HyperPixelRect/RectSonos3.py:30-86 | one pass follows the script's branches, matches `PollAction`, and flips exactly once; art, resized to the screen, replaces every pixel |
| RectSonos3.PlayingNeverBlanks | HyperPixelRect/RectSonos3.py:59-70 | while PLAYING, a pass without a new picture leaves every pixel as it was |
| RectSonos4.FetchAlbumArt | HyperPixelRect/RectSonos4.py:35-47 | no art iff the URI is missing or empty; otherwise the "/" rule and the fetch give the picture, and any HTTP or decode error is raised |
| RectSonos4.React | HyperPixelRect/RectSonos4.py:85-101 | only a transport event changes `state`; a non-PLAYING transport state drops the surface and shows black; a fetched picture replaces the surface and is shown; `None` keeps the surface (shown again only on a transport event); a raised fetch ends the loop; anything else does nothing |
| RectSonos4.StoppedZoneIsBlack | HyperPixelRect/RectSonos4.py:93-95 | a transport event to any state but PLAYING leaves the whole screen black |
| RectSonos4.FetchedArtCoversScreen | HyperPixelRect/RectSonos4.py:46-52 | when every fetch is resized to the screen, art fetched for an event is shown on every screen pixel |
| RectSonos4.ShownSurfaceCoversScreen | HyperPixelRect/RectSonos4.py:50-55 | a shown surface of the screen's size covers every pixel, and no surface gives black, so after each flip the screen is exactly the current art or black |
| RectSonos4.Player.constructor | HyperPixelRect/RectSonos4.py:65-67 | the initial surface is the fetched art if PLAYING, else `None`, and it is shown once; a raised fetch ends the program before the loop; the surface has the screen's size |
| RectSonos4.Player.Show | HyperPixelRect/RectSonos4.py:49-55 | blits the surface or fills black, then flips once |
| RectSonos4.Player.Interrupt | HyperPixelRect/RectSonos4.py:29-32 | SIGINT sets `running` false |
| RectSonos4.Player.Step | HyperPixelRect/RectSonos4.py:71-106 | the UI events decide `running`; if still running, the Sonos event changes state, surface, screen and flips exactly as `React` says, and a raised fetch stops the loop; with no event or after an exit key, nothing else changes; the surface keeps the screen's size |
| RectSonos5.GetAlbumArtImage | HyperPixelRect/RectSonos5.py:43-61 | `None` iff the URI is empty or the fetch (by the "http" rule) or the decode fails; otherwise the fetched picture |
| RectSonos5.EventAction | HyperPixelRect/RectSonos5.py:71-82 | black iff the state is missing or neither PLAYING nor TRANSITIONING; the art is drawn iff playing and the image exists; otherwise the screen is kept |
| RectSonos5.FailedFetchKeepsPicture | HyperPixelRect/RectSonos5.py:73-78 | while playing, a failed fetch leaves the last picture on the screen |
| RectSonos5.Viewer.constructor | HyperPixelRect/RectSonos5.py:37-38 | running, with a redraw pending |
| RectSonos5.Viewer.Step | HyperPixelRect/RectSonos5.py:66-97 | the screen changes as `EventAction` says when an event arrives; `running` ends false iff an exit key or QUIT came; a flip happens iff a redraw was pending or an event arrived, and `need_redraw` is then clear; drawn art, resized to the screen, replaces every pixel |

## Left out

- Display I/O is not modelled beyond the pixels: windows, `display.flip` (counted, not modelled), `clock.tick`, `time.sleep` and `pygame.time.wait`.
- Signals are not modelled, except the Ctrl-C handler of RectSonos4 (`RectSonos4.Player.Interrupt`). Left out: the SIGTERM handlers of DarkShadows, DarkShadowsTwilight, DarkShadowsAnimated and RectDayNight6, and the stop handler of RectTest2, which fills black and exits.
- The key-event loops of DarkShadows, DarkShadowsTwilight, DarkShadowsAnimated, DarkShadows400x800 and RectDayNight6 are not modelled. Each only sets `running` false on QUIT, q or Escape. The Sonos loops' version of this check is modelled as `AlbumArt.PollUi`.
- The `pygame` timer event that makes DarkShadows400x800 redraw every 60 s is not modelled. One redraw is `DarkShadows400x800.DrawMap`.
- DarkShadows runs `update_terminator` in a thread, hands over the surface under a lock, and has a nested `_sigterm` that only assigns a local. None of this is modelled; the published surface is a field of `DarkShadows.TerminatorUpdater`.
- DarkShadows' main loop drawing (DarkShadows.py:256-261) is not modelled: when a surface has been published it fills the screen black and blits that surface at `offset_x, offset_y`, which is `Raster.Present` applied to `DarkShadows.TerminatorUpdater`'s surface.
- Sine, cosine, `ephem` (Sun and Moon position, sidereal time, Julian date, solar altitude) and the clocks are parameters. Each lemma assumes only what it needs (`Solar.Bounded`, `Solar.Pythagorean`).
- The Gaussian blur and the LANCZOS/ANTIALIAS resize are parameters. The model assumes only that they keep or produce the requested size (`Raster.KeepsSize`, `Raster.Resizes`, and for the Sonos scripts' `img.resize(screen.get_size())`, `AlbumArt.FitsScreen`); a resize to a zero side raises, as `RectTest2.LoadImage` and `DarkShadowsTwilight.ShowFrame` model.
- Image loading, decoding and mode conversion, and the HTTP requests, are not modelled. Their results are inputs (`AlbumArt.Download`, `Option<Pic>`).
- Floats are exact reals; IEEE and float32 rounding are not modelled. `math.pi` is the decimal literal of its double value.
- Lines are one pixel wide. The width-2 rasterisation of `draw.line` and `pygame.draw.line` is not modelled, so a cross is its two one-pixel bars.
- Pictures are assumed to have positive width and height where the scripts divide by them.
- `Numeric.FitSizeFits`, `Numeric.FitSizeZeroSide`, `RectTest2.LoadImage` and `DarkShadowsTwilight.ShowFrame`: that the fitted size fills the box along one side, and exactly when a fitted side is 0 and the resize raises, hold only in exact arithmetic. The scripts compute `int(w * scale)` in IEEE doubles, where a side can fall one pixel short (39 * (720 / 39) is just below 720, so a 39 x 39 picture becomes 719 x 719) or truncate to 0 at the boundary (49 * (720 / 35280) is just below 1, so a 35280 x 49 picture raises where the model loads it as 720 x 1).
- `Raster.Composite`, `Raster.CompositeL` and the terminator generators (`DarkShadows.GenerateTerminatorPil`, `DarkShadowsTwilight.GenerateTerminatorSurface`, `DarkShadowsAnimated.GenerateTerminatorSurface`, `DarkShadows400x800.GenerateTerminatorImage`) require the day and night pictures to have the same size. The DarkShadows-family scripts open both files without resizing and never check this. With different sizes the numpy blend of DarkShadows.py raises and `Image.composite` is used outside its documented precondition; the model does not cover that case.
- `DarkShadows.GenerateTerminatorPil`: with blur on, the contract does not say which pixels are full day or full night, because the blur is a parameter.
- `DarkShadowsTwilight.GenerateTerminatorSurface`: the blur is a parameter, so the contract states the unblurred mask and the composite of the blurred one. It does not state the blurred values.
- `RectDayNight1.py` uses `os` at line 3 before importing it at line 6, so the script stops at start-up. Only its pixel loop is modelled (`RectDayNight1.DrawDiagonal`).
- RectSonos3 never sets `running` false, so its loop is endless. The model has no `running` field, and `RectSonos3.Poller.Step` is one pass.
- soco always includes `album_art` in the track info. RectSonos5 reads it with `[]`, so the model takes the URI as a string there.
- In pygame a surface is truthy; the model treats any picture that is present as one to show.
- Zone discovery, subscriptions and unsubscribing are not modelled. RectSonos2's missing zone is an input (`RectSonos2.Run`).

Where the written description of the system and the code differ, the model
follows the code. For example, the sub-body longitude
`(ra - gmst + 540) % 360 - 180` lies in [-180, 180), not (-180, 180]
(`DarkShadows.NormalizeLon`).
