/** `RectDayNight3.py`: a day/night picture shown once, day to the left of
    a vertical line that moves right through the UTC day. */
module RectDayNight3 {
  import opened Numeric
  import opened Solar
  import opened Raster

  /** `SCREEN_SIZE`. */
  const SCREEN_W: nat := 800
  const SCREEN_H: nat := 480

  /** `day_fraction`: the fraction of the UTC day elapsed. */
  function DayFraction(now: UtcTime): real
  {
    (now.hour as real + now.minute as real / 60.0 + now.second as real / 3600.0) / 24.0
  }

  /** `int(day_fraction * width)`: the last day column. */
  function SubsolarX(frac: real, width: int): int
  {
    Trunc(frac * width as real)
  }

  /** The fraction lies in [0, 1), so the last day column lies on the
      picture: at least column 0 and at most column width - 1. */
  lemma SubsolarXOnPicture(now: UtcTime, width: int)
    requires ValidTime(now) && 0 < width
    ensures 0.0 <= DayFraction(now) < 1.0
    ensures 0 <= SubsolarX(DayFraction(now), width) <= width - 1
  {
    FracHourRange(now);
    var frac := DayFraction(now);
    MulLeftMonotone(width as real, 0.0, frac);
    MulLeftStrict(width as real, frac, 1.0);
    assert frac * width as real == width as real * frac;
    assert frac * width as real < width as real;
  }

  /** The value the `if x <= subsolar_x` writes at column x. */
  function MaskBit(subsolarX: int, x: int): int
  {
    if x <= subsolarX then 1 else 0
  }

  /** `generate_mask`: every pixel of the width x height mask is written
      once, in row order, with 1 exactly in the columns up to `subsolar_x`. */
  method GenerateMask(width: nat, height: nat, now: UtcTime)
    returns (mask: array2<int>, ghost writes: seq<(int, int)>)
    ensures fresh(mask) && mask.Length0 == width && mask.Length1 == height
    ensures writes == Scan(width, height)
    ensures forall x, y :: 0 <= x < width && 0 <= y < height ==>
      (mask[x, y] == 1 <==> x <= SubsolarX(DayFraction(now), width))
      && (mask[x, y] == 0 <==> x > SubsolarX(DayFraction(now), width))
  {
    var subsolarX := SubsolarX(DayFraction(now), width);
    mask, writes := FillMask(width, height, (x, y) => MaskBit(subsolarX, x));
  }

  /** Every row of the mask is the same prefix of `subsolar_x + 1` ones
      followed by zeros, so column 0 is always day. */
  lemma RowIsPrefix(now: UtcTime, width: nat)
    requires ValidTime(now) && 0 < width
    ensures var sx := SubsolarX(DayFraction(now), width);
      && 0 <= sx < width
      && seq(width, x => MaskBit(sx, x)) == seq(sx + 1, _ => 1) + seq(width - sx - 1, _ => 0)
      && MaskBit(sx, 0) == 1
  {
    SubsolarXOnPicture(now, width);
    var sx := SubsolarX(DayFraction(now), width);
    var row := seq(width, x => MaskBit(sx, x));
    var pre := seq(sx + 1, _ => 1) + seq(width - sx - 1, _ => 0);
    assert |row| == |pre|;
    forall i | 0 <= i < width
      ensures row[i] == pre[i]
    {
      if i <= sx {
        assert pre[i] == 1;
      } else {
        assert pre[i] == seq(width - sx - 1, _ => 0)[i - sx - 1];
      }
    }
  }

  /** The script: the mask of SCREEN_SIZE composites day over night and
      the result is blitted at (0, 0). */
  method ShowMap(screen: array2<Rgb>, day: seq<seq<Rgb>>, night: seq<seq<Rgb>>, now: UtcTime)
    requires screen.Length0 == SCREEN_W && screen.Length1 == SCREEN_H
    requires IsGrid(day, SCREEN_W, SCREEN_H) && IsGrid(night, SCREEN_W, SCREEN_H)
    modifies screen
    ensures forall x, y :: 0 <= x < SCREEN_W && 0 <= y < SCREEN_H ==>
      screen[x, y] == if x <= SubsolarX(DayFraction(now), SCREEN_W) then day[y][x] else night[y][x]
  {
    var mask, _ := GenerateMask(SCREEN_W, SCREEN_H, now);
    var terminatorImg := Composite(day, night, Cells(mask), SCREEN_W, SCREEN_H);
    Blit(screen, terminatorImg, SCREEN_W, SCREEN_H, 0, 0);
  }
}
