/** The small solar model several scripts share: UTC time of day, the
    approximate declination, the cosine of the solar zenith angle and the two
    ways the scripts turn the hour of day into a subsolar longitude.

    `math.sin` and `math.cos` are not modelled; they are a `Trig` value that
    callers pass in, and each lemma assumes only the facts about it that it
    needs. */
module Solar {
  import opened Numeric

  /** The sine and cosine the scripts call. */
  datatype Trig = Trig(sin: real -> real, cos: real -> real)

  /** Sine and cosine stay within [-1, 1]. */
  ghost predicate Bounded(t: Trig)
  {
    forall a :: -1.0 <= t.sin(a) <= 1.0 && -1.0 <= t.cos(a) <= 1.0
  }

  /** sin^2 + cos^2 = 1 and cos 0 = 1. */
  ghost predicate Pythagorean(t: Trig)
  {
    t.cos(0.0) == 1.0 && forall a :: t.sin(a) * t.sin(a) + t.cos(a) * t.cos(a) == 1.0
  }

  /** The fields of a Python `datetime` the scripts read: `tm_yday`, `hour`,
      `minute` and `second`. */
  datatype UtcTime = UtcTime(yday: int, hour: int, minute: int, second: int)

  predicate ValidTime(t: UtcTime)
  {
    1 <= t.yday <= 366 && 0 <= t.hour < 24 && 0 <= t.minute < 60 && 0 <= t.second < 60
  }

  /** `hour + minute / 60 + second / 3600` (true division). */
  function FracHour(t: UtcTime): real
  {
    t.hour as real + t.minute as real / 60.0 + t.second as real / 3600.0
  }

  /** The fractional hour of a valid time lies in [0, 24). */
  lemma FracHourRange(t: UtcTime)
    requires ValidTime(t)
    ensures 0.0 <= FracHour(t) < 24.0
  {
    assert t.minute as real / 60.0 <= 59.0 / 60.0;
    assert t.second as real / 3600.0 <= 59.0 / 3600.0;
  }

  /** `math.radians(23.44) * math.sin(math.radians(360 * (284 + n) / 365))`,
      in radians. */
  function SolarDeclination(trig: Trig, dayOfYear: int): real
  {
    Radians(23.44) * trig.sin(Radians(360.0 * (284 + dayOfYear) as real / 365.0))
  }

  /** The declination never leaves the band of the tropics. */
  lemma DeclinationBound(trig: Trig, dayOfYear: int)
    requires Bounded(trig)
    ensures -Radians(23.44) <= SolarDeclination(trig, dayOfYear) <= Radians(23.44)
  {
    var s := trig.sin(Radians(360.0 * (284 + dayOfYear) as real / 365.0));
    assert -1.0 <= s <= 1.0;
    var k := Radians(23.44);
    assert 0.0 < k;
    MulLeftMonotone(k, -1.0, s);
    MulLeftMonotone(k, s, 1.0);
  }

  /** `sin(lat) sin(decl) + cos(lat) cos(decl) cos(H)`. */
  function CosZenith(trig: Trig, lat: real, decl: real, hourAngle: real): real
  {
    trig.sin(lat) * trig.sin(decl) + trig.cos(lat) * trig.cos(decl) * trig.cos(hourAngle)
  }

  /** Directly under the sun (latitude equal to the declination, hour angle
      zero) the sun is at the zenith. */
  lemma CosZenithAtSubsolarPoint(trig: Trig, decl: real)
    requires Pythagorean(trig)
    ensures CosZenith(trig, decl, decl, 0.0) == 1.0
  {
    assert trig.sin(decl) * trig.sin(decl) + trig.cos(decl) * trig.cos(decl) == 1.0;
  }

  /** `radians(lon) - radians(subsolar_lon)`. */
  function HourAngle(lonDeg: real, subsolarLonDeg: real): real
  {
    Radians(lonDeg) - Radians(subsolarLonDeg)
  }

  /** `-(frac_hour / 24.0) * 360 - 180`: the sun moves west as the hour
      grows. */
  function SubsolarLonWest(fracHour: real): (lon: real)
  {
    -(fracHour / 24.0) * 360.0 - 180.0
  }

  /** `(frac_hour / 24.0) * 360 - 180`: the sun moves east as the hour
      grows. */
  function SubsolarLonEast(fracHour: real): (lon: real)
  {
    (fracHour / 24.0) * 360.0 - 180.0
  }

  /** Over a day the westward formula sweeps (-540, -180]. */
  lemma SubsolarLonWestRange(t: UtcTime)
    requires ValidTime(t)
    ensures -540.0 < SubsolarLonWest(FracHour(t)) <= -180.0
  {
    FracHourRange(t);
  }

  /** Over a day the eastward formula sweeps [-180, 180). */
  lemma SubsolarLonEastRange(t: UtcTime)
    requires ValidTime(t)
    ensures -180.0 <= SubsolarLonEast(FracHour(t)) < 180.0
  {
    FracHourRange(t);
  }

  /** The two conventions are mirror images: the westward longitude is the
      negated eastward one less a full turn, and an hour later the first has
      moved 15 degrees west while the second has moved 15 degrees east. */
  lemma ConventionsMirror(fracHour: real)
    ensures SubsolarLonWest(fracHour) == -SubsolarLonEast(fracHour) - 360.0
    ensures SubsolarLonWest(fracHour + 1.0) == SubsolarLonWest(fracHour) - 15.0
    ensures SubsolarLonEast(fracHour + 1.0) == SubsolarLonEast(fracHour) + 15.0
  {
  }
}
