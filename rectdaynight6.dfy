/** `RectDayNight6.py`: a hard day/night map of the whole screen, the
    subsolar longitude moving east as the hour grows, regenerated at most
    once a minute and blitted every frame. */
module RectDayNight6 {
  import opened Wrappers
  import opened Numeric
  import opened Solar
  import opened Raster

  /** The refresh period, in seconds. */
  const REFRESH_PERIOD: real := 60.0

  /** The cosine of the solar zenith angle `is_day` computes, with the
      subsolar longitude `(frac_hour / 24) * 360 - 180`. */
  function CosZenithEast(trig: Trig, latDeg: real, lonDeg: real, now: UtcTime): real
  {
    var decl := SolarDeclination(trig, now.yday);
    CosZenith(trig, Radians(latDeg), decl, HourAngle(lonDeg, SubsolarLonEast(FracHour(now))))
  }

  /** `is_day`: the sun is above the horizon. */
  predicate IsDay(trig: Trig, latDeg: real, lonDeg: real, now: UtcTime)
  {
    CosZenithEast(trig, latDeg, lonDeg, now) > 0.0
  }

  /** The point straight under the sun of this convention is in daylight. */
  lemma DayUnderTheSun(trig: Trig, now: UtcTime)
    requires Pythagorean(trig)
    ensures IsDay(trig, Degrees(SolarDeclination(trig, now.yday)), SubsolarLonEast(FracHour(now)), now)
  {
    var decl := SolarDeclination(trig, now.yday);
    RadiansOfDegrees(decl);
    CosZenithAtSubsolarPoint(trig, decl);
  }

  /** The "1" mask value `putpixel` writes at (x, y). */
  function MaskBit(trig: Trig, now: UtcTime, w: int, h: int, x: int, y: int): int
    requires 0 < w && 0 < h
  {
    if IsDay(trig, RowLat(y, h), ColLon(x, w), now) then 1 else 0
  }

  /** `generate_terminator_surface`: every pixel of the SCREEN_SIZE mask is
      written once, in row order, with one shared `now`; the composite takes
      the day pixel exactly where the sun is up at the pixel's latitude and
      longitude. */
  method GenerateTerminatorSurface(day: seq<seq<Rgb>>, night: seq<seq<Rgb>>, w: nat, h: nat,
                                   trig: Trig, now: UtcTime)
    returns (comp: seq<seq<Rgb>>, ghost writes: seq<(int, int)>)
    requires IsGrid(day, w, h) && IsGrid(night, w, h)
    ensures writes == Scan(w, h)
    ensures IsGrid(comp, w, h)
    ensures forall x, y :: 0 <= x < w && 0 <= y < h ==>
      comp[y][x] == if IsDay(trig, RowLat(y, h), ColLon(x, w), now) then day[y][x] else night[y][x]
  {
    var mask, ws := FillMask(w, h, (x, y) requires 0 <= x < w && 0 <= y < h => MaskBit(trig, now, w, h, x, y));
    writes := ws;
    comp := Composite(day, night, Cells(mask), w, h);
  }

  /** The rule of step 2 of the main loop. */
  predicate Regenerate(hasSurface: bool, nowMono: real, nextUpdate: real)
  {
    !hasSurface || nowMono >= nextUpdate
  }

  /** Which passes of the main loop regenerate the map, for the monotonic
      clock readings `times` of successive passes, starting from whether a
      map exists and from `next_update`: each pass applies the rule of
      `Display.Tick`, which moves `next_update` to the pass's time plus a
      minute when it regenerates and keeps it otherwise. */
  function Schedule(hasSurface: bool, nextUpdate: real, times: seq<real>): (r: seq<bool>)
    decreases |times|
    ensures |r| == |times|
    ensures |times| > 0 ==> (r[0] <==> Regenerate(hasSurface, times[0], nextUpdate))
  {
    if times == [] then []
    else
      var regen := Regenerate(hasSurface, times[0], nextUpdate);
      [regen] + Schedule(true, if regen then times[0] + REFRESH_PERIOD else nextUpdate, times[1..])
  }

  /** Once a map exists, no pass regenerates it before `next_update`. */
  lemma {:induction false} NotBeforeDue(nextUpdate: real, times: seq<real>, j: int)
    requires 0 <= j < |times| && Schedule(true, nextUpdate, times)[j]
    ensures times[j] >= nextUpdate
    decreases |times|
  {
    if j > 0 {
      var regen := Regenerate(true, times[0], nextUpdate);
      var next := if regen then times[0] + REFRESH_PERIOD else nextUpdate;
      assert Schedule(true, nextUpdate, times)[j] == Schedule(true, next, times[1..])[j - 1];
      NotBeforeDue(next, times[1..], j - 1);
    }
  }

  /** Once a map exists, the first pass whose clock has reached
      `next_update` regenerates it, if no earlier one has. */
  lemma {:induction false} NoLaterThanDue(nextUpdate: real, times: seq<real>, j: int)
    requires 0 <= j < |times| && times[j] >= nextUpdate
    ensures exists k :: 0 <= k <= j && Schedule(true, nextUpdate, times)[k]
    decreases |times|
  {
    var r := Schedule(true, nextUpdate, times);
    if !r[0] {
      assert j > 0;
      var tail := Schedule(true, nextUpdate, times[1..]);
      assert forall k :: 0 <= k < |tail| ==> r[k + 1] == tail[k];
      NoLaterThanDue(nextUpdate, times[1..], j - 1);
      var k :| 0 <= k <= j - 1 && tail[k];
      assert r[k + 1];
    }
  }

  /** The map is regenerated at most once a minute: two passes that
      regenerate it are at least `REFRESH_PERIOD` seconds apart, whatever
      the clock readings. */
  lemma {:induction false} AtMostOncePerMinute(hasSurface: bool, nextUpdate: real, times: seq<real>, i: int, j: int)
    requires 0 <= i < j < |times|
    requires Schedule(hasSurface, nextUpdate, times)[i] && Schedule(hasSurface, nextUpdate, times)[j]
    ensures times[j] - times[i] >= REFRESH_PERIOD
    decreases |times|
  {
    var regen := Regenerate(hasSurface, times[0], nextUpdate);
    var next := if regen then times[0] + REFRESH_PERIOD else nextUpdate;
    var r := Schedule(hasSurface, nextUpdate, times);
    assert forall k :: 0 < k < |times| ==> r[k] == Schedule(true, next, times[1..])[k - 1];
    if i == 0 {
      NotBeforeDue(next, times[1..], j - 1);
    } else {
      AtMostOncePerMinute(true, next, times[1..], i - 1, j - 1);
    }
  }

  /** And no less often: after a regeneration at pass i, some pass up to j
      regenerates again as soon as the clock at j has moved on a minute. */
  lemma {:induction false} AtLeastOncePerMinute(hasSurface: bool, nextUpdate: real, times: seq<real>, i: int, j: int)
    requires 0 <= i < j < |times|
    requires Schedule(hasSurface, nextUpdate, times)[i]
    requires times[j] - times[i] >= REFRESH_PERIOD
    ensures exists k :: i < k <= j && Schedule(hasSurface, nextUpdate, times)[k]
    decreases |times|
  {
    var regen := Regenerate(hasSurface, times[0], nextUpdate);
    var next := if regen then times[0] + REFRESH_PERIOD else nextUpdate;
    var r := Schedule(hasSurface, nextUpdate, times);
    var tail := Schedule(true, next, times[1..]);
    assert forall k :: 0 < k < |times| ==> r[k] == tail[k - 1];
    if i == 0 {
      NoLaterThanDue(next, times[1..], j - 1);
      var k :| 0 <= k <= j - 1 && tail[k];
      assert r[k + 1];
    } else {
      AtLeastOncePerMinute(true, next, times[1..], i - 1, j - 1);
      var k :| i - 1 < k <= j - 1 && tail[k];
      assert r[k + 1];
    }
  }

  /** The first pass always draws a map, since none exists yet. */
  lemma FirstPassRegenerates(times: seq<real>)
    requires |times| > 0
    ensures Schedule(false, 0.0, times)[0]
  {
  }

  /** The main loop's state: `current_surface` and `next_update`, with the
      resized day and night pictures and the screen they are shown on. */
  class Display {
    const screen: array2<Rgb>
    const day: seq<seq<Rgb>>
    const night: seq<seq<Rgb>>
    var current: Option<seq<seq<Rgb>>>
    var nextUpdate: real

    ghost predicate Valid()
      reads this
    {
      IsGrid(day, screen.Length0, screen.Length1) && IsGrid(night, screen.Length0, screen.Length1)
      && (current.Some? ==> IsGrid(current.value, screen.Length0, screen.Length1))
    }

    /** `next_update = 0.0`, `current_surface = None`. */
    constructor (screen: array2<Rgb>, day: seq<seq<Rgb>>, night: seq<seq<Rgb>>)
      requires IsGrid(day, screen.Length0, screen.Length1) && IsGrid(night, screen.Length0, screen.Length1)
      ensures Valid()
      ensures this.screen == screen && this.day == day && this.night == night
      ensures current.None? && nextUpdate == 0.0
    {
      this.screen, this.day, this.night := screen, day, night;
      current, nextUpdate := None, 0.0;
    }

    /** Steps 2 and 3 of one pass: regenerate the map when there is none or
        the clock has reached `next_update`, and then set `next_update` a
        minute ahead; otherwise keep both. Then show the current map at
        (0, 0). */
    method Tick(nowMono: real, trig: Trig, now: UtcTime)
      requires Valid()
      modifies this, screen
      ensures Valid()
      ensures Regenerate(old(current).Some?, nowMono, old(nextUpdate)) ==>
        && nextUpdate == nowMono + REFRESH_PERIOD && current.Some?
        && forall x, y :: 0 <= x < screen.Length0 && 0 <= y < screen.Length1 ==>
             current.value[y][x] == if IsDay(trig, RowLat(y, screen.Length1), ColLon(x, screen.Length0), now)
                                    then day[y][x] else night[y][x]
      ensures !Regenerate(old(current).Some?, nowMono, old(nextUpdate)) ==>
        current == old(current) && nextUpdate == old(nextUpdate)
      ensures forall x, y :: 0 <= x < screen.Length0 && 0 <= y < screen.Length1 ==>
        screen[x, y] == current.value[y][x]
    {
      if current.None? || nowMono >= nextUpdate {
        var comp, _ := GenerateTerminatorSurface(day, night, screen.Length0, screen.Length1, trig, now);
        current := Some(comp);
        nextUpdate := nowMono + REFRESH_PERIOD;
      }
      var shown := current.value;
      Blit(screen, shown, screen.Length0, screen.Length1, 0, 0);
      assert forall x, y :: 0 <= x < screen.Length0 && 0 <= y < screen.Length1 ==> screen[x, y] == shown[y][x];
    }
  }
}
