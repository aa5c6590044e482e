/** `RectDayNight2.py`: a placeholder day/night picture split along a
    diagonal of the screen, built as a mask and composited once. */
module RectDayNight2 {
  import opened Raster

  /** `SCREEN_SIZE`. */
  const SCREEN_W: nat := 800
  const SCREEN_H: nat := 480

  /** `y > SCREEN_SIZE[1] - (SCREEN_SIZE[1] / SCREEN_SIZE[0]) * x`, with true
      division. */
  predicate BelowDiagonal(x: int, y: int)
  {
    y as real > SCREEN_H as real - (SCREEN_H as real / SCREEN_W as real) * x as real
  }

  /** The day region is closed downward and rightward. */
  lemma DayRegionClosed(x: int, y: int)
    requires BelowDiagonal(x, y)
    ensures BelowDiagonal(x, y + 1) && BelowDiagonal(x + 1, y)
  {
  }

  /** Column 0 is night on every row of the screen. */
  lemma ColumnZeroNight(y: int)
    requires 0 <= y < SCREEN_H
    ensures !BelowDiagonal(0, y)
  {
  }

  /** The module-level loop: every pixel of the SCREEN_SIZE mask is written
      once, in row order, with 1 exactly below the diagonal. */
  method BuildMask() returns (mask: array2<int>, ghost writes: seq<(int, int)>)
    ensures fresh(mask) && mask.Length0 == SCREEN_W && mask.Length1 == SCREEN_H
    ensures writes == Scan(SCREEN_W, SCREEN_H)
    ensures forall x, y :: 0 <= x < SCREEN_W && 0 <= y < SCREEN_H ==>
      (mask[x, y] == 1 <==> BelowDiagonal(x, y)) && (mask[x, y] == 0 <==> !BelowDiagonal(x, y))
  {
    mask, writes := FillMask(SCREEN_W, SCREEN_H, (x, y) => if BelowDiagonal(x, y) then 1 else 0);
  }

  /** The script: the mask composites day over night and the result is
      blitted at (0, 0). */
  method ShowPicture(screen: array2<Rgb>, day: seq<seq<Rgb>>, night: seq<seq<Rgb>>)
    requires screen.Length0 == SCREEN_W && screen.Length1 == SCREEN_H
    requires IsGrid(day, SCREEN_W, SCREEN_H) && IsGrid(night, SCREEN_W, SCREEN_H)
    modifies screen
    ensures forall x, y :: 0 <= x < SCREEN_W && 0 <= y < SCREEN_H ==>
      screen[x, y] == if BelowDiagonal(x, y) then day[y][x] else night[y][x]
  {
    var mask, _ := BuildMask();
    var terminatorImg := Composite(day, night, Cells(mask), SCREEN_W, SCREEN_H);
    Blit(screen, terminatorImg, SCREEN_W, SCREEN_H, 0, 0);
  }
}
