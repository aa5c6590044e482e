/** `RectDayNight1.py`: the screen painted pixel by pixel from the day
    surface below a diagonal and from the night surface above it. */
module RectDayNight1 {
  import opened Raster

  /** `SCREEN_SIZE`. */
  const SCREEN_W: nat := 800
  const SCREEN_H: nat := 480

  /** `y > SCREEN_SIZE[1] - (SCREEN_SIZE[1] / SCREEN_SIZE[0]) * x`, with true
      division. */
  predicate BelowDiagonal(x: int, y: int)
  {
    y as real > SCREEN_H as real - (SCREEN_H as real / SCREEN_W as real) * x as real
  }

  /** The module-level loop: every screen pixel is set once, in row order,
      from the day surface below the diagonal and from the night surface
      elsewhere. */
  method DrawDiagonal(screen: array2<Rgb>, daySurf: seq<seq<Rgb>>, nightSurf: seq<seq<Rgb>>)
    returns (ghost writes: seq<(int, int)>)
    requires screen.Length0 == SCREEN_W && screen.Length1 == SCREEN_H
    requires IsGrid(daySurf, SCREEN_W, SCREEN_H) && IsGrid(nightSurf, SCREEN_W, SCREEN_H)
    modifies screen
    ensures writes == Scan(SCREEN_W, SCREEN_H)
    ensures forall x, y :: 0 <= x < SCREEN_W && 0 <= y < SCREEN_H ==>
      screen[x, y] == if BelowDiagonal(x, y) then daySurf[y][x] else nightSurf[y][x]
  {
    writes := Paint(screen, (x, y) requires 0 <= x < SCREEN_W && 0 <= y < SCREEN_H =>
      if BelowDiagonal(x, y) then daySurf[y][x] else nightSurf[y][x]);
  }

  /** Column 0 of the screen comes entirely from the night surface, and a
      pixel taken from the day surface has day-surface pixels below it and
      to its right. */
  lemma DaySourceRegion(x: int, y: int)
    ensures 0 <= y < SCREEN_H ==> !BelowDiagonal(0, y)
    ensures BelowDiagonal(x, y) ==> BelowDiagonal(x, y + 1) && BelowDiagonal(x + 1, y)
  {
  }
}
