/** Pixels, masks and surfaces as the scripts use them through PIL and
    pygame: the equirectangular pixel grid, `Image.composite` with a 1-bit or
    an 8-bit mask, per-pixel mask loops, cross markers drawn in order, and
    the fill-then-blit that centres a picture on the screen.

    A surface the scripts change in place (`putpixel`, `set_at`,
    `draw.line`, `fill`, `blit`, `paste`) is an `array2` indexed `[x, y]`, as
    the scripts address pixels. A picture that is only read is a value
    `seq<seq<_>>` held row by row, `g[y][x]`, as numpy and `tobytes` lay it
    out. */
module Raster {
  import opened Numeric

  type Byte = v: int | 0 <= v < 256

  datatype Rgb = Rgb(r: Byte, g: Byte, b: Byte)

  const Black: Rgb := Rgb(0, 0, 0)
  const Red: Rgb := Rgb(255, 0, 0)
  const Yellow: Rgb := Rgb(255, 255, 0)
  const Cyan: Rgb := Rgb(0, 255, 255)

  /** g holds h rows of w pixels each. */
  predicate IsGrid<T>(g: seq<seq<T>>, w: int, h: int)
  {
    |g| == h && forall y :: 0 <= y < h ==> |g[y]| == w
  }

  /** The picture a surface currently shows, row by row. */
  function Cells<T>(a: array2<T>): (g: seq<seq<T>>)
    reads a
    ensures IsGrid(g, a.Length0, a.Length1)
    ensures forall x, y :: 0 <= x < a.Length0 && 0 <= y < a.Length1 ==> g[y][x] == a[x, y]
  {
    seq(a.Length1, y requires 0 <= y < a.Length1 reads a =>
      seq(a.Length0, x requires 0 <= x < a.Length0 reads a => a[x, y]))
  }

  /** `pygame.image.fromstring(img.tobytes(), ...)` / `Image.fromarray`: a
      new surface holding the picture. */
  method ToSurface<T>(g: seq<seq<T>>, w: nat, h: nat) returns (a: array2<T>)
    requires IsGrid(g, w, h)
    ensures fresh(a) && a.Length0 == w && a.Length1 == h
    ensures Cells(a) == g
  {
    a := new T[w, h]((x, y) requires 0 <= x < w && 0 <= y < h => g[y][x]);
    assert forall y :: 0 <= y < h ==> Cells(a)[y] == g[y];
  }

  // ---------------------------------------------------------------------
  // The equirectangular grid

  /** `90 - (y / h) * 180.0`: the latitude of pixel row y. */
  function RowLat(y: int, h: int): real
    requires 0 < h
  {
    90.0 - (y as real / h as real) * 180.0
  }

  /** `(x / w) * 360.0 - 180.0`: the longitude of pixel column x. */
  function ColLon(x: int, w: int): real
    requires 0 < w
  {
    (x as real / w as real) * 360.0 - 180.0
  }

  /** Row 0 is the north pole and the rows stop short of the south pole;
      column 0 is the antimeridian at -180 and the columns stop short of
      +180. */
  lemma GridRanges(x: int, y: int, w: int, h: int)
    requires 0 <= x < w && 0 <= y < h
    ensures -90.0 < RowLat(y, h) <= 90.0 && RowLat(0, h) == 90.0
    ensures -180.0 <= ColLon(x, w) < 180.0 && ColLon(0, w) == -180.0
  {
    assert y as real / h as real < 1.0;
    assert x as real / w as real < 1.0;
  }

  /** `latlon_to_xy` / the marker placement:
      `(int((lon + 180) / 360 * w), int((90 - lat) / 180 * h))`. */
  function LatLonToXY(lat: real, lon: real, w: int, h: int): (int, int)
  {
    (Trunc((lon + 180.0) / 360.0 * w as real), Trunc((90.0 - lat) / 180.0 * h as real))
  }

  /** A point on the globe lands on the picture or on its right or bottom
      edge (only longitude +180 or latitude -90 reach the edge). */
  lemma LatLonToXYRange(lat: real, lon: real, w: int, h: int)
    requires -90.0 <= lat <= 90.0 && -180.0 <= lon <= 180.0 && 0 <= w && 0 <= h
    ensures var (x, y) := LatLonToXY(lat, lon, w, h); 0 <= x <= w && 0 <= y <= h
  {
    var tx := (lon + 180.0) / 360.0;
    var ty := (90.0 - lat) / 180.0;
    MulLeftMonotone(w as real, 0.0, tx);
    MulLeftMonotone(w as real, tx, 1.0);
    MulLeftMonotone(h as real, 0.0, ty);
    MulLeftMonotone(h as real, ty, 1.0);
    TruncMonotone(tx * w as real, w as real);
    TruncMonotone(ty * h as real, h as real);
  }

  /** Mapping the centre longitude and latitude of a pixel back gives the
      same pixel: the marker mapping inverts the mask grid. */
  lemma LatLonToXYInvertsGrid(x: int, y: int, w: int, h: int)
    requires 0 <= x < w && 0 <= y < h
    ensures LatLonToXY(RowLat(y, h), ColLon(x, w), w, h) == (x, y)
  {
    var fx := x as real / w as real;
    var fy := y as real / h as real;
    assert (ColLon(x, w) + 180.0) / 360.0 == fx;
    assert (90.0 - RowLat(y, h)) / 180.0 == fy;
    assert fx * w as real == x as real;
    assert fy * h as real == y as real;
    var lat, lon := RowLat(y, h), ColLon(x, w);
    assert LatLonToXY(lat, lon, w, h).0 == Trunc(fx * w as real);
    assert LatLonToXY(lat, lon, w, h).1 == Trunc(fy * h as real);
    assert Trunc(x as real) == x;
    assert Trunc(y as real) == y;
  }

  /** Null Island on an 800 x 400 map sits at the centre pixel. */
  lemma NullIslandCentre()
    ensures LatLonToXY(0.0, 0.0, 800, 400) == (400, 200)
  {
    assert (0.0 + 180.0) / 360.0 * 800.0 == 400.0;
    assert (90.0 - 0.0) / 180.0 * 400.0 == 200.0;
  }

  // ---------------------------------------------------------------------
  // Compositing

  /** `Image.composite(day, night, mask)` with a mode "1" mask: a set mask
      pixel takes the day pixel, a clear one the night pixel. */
  function Composite(day: seq<seq<Rgb>>, night: seq<seq<Rgb>>, mask: seq<seq<int>>, w: nat, h: nat)
    : (out: seq<seq<Rgb>>)
    requires IsGrid(day, w, h) && IsGrid(night, w, h) && IsGrid(mask, w, h)
    ensures IsGrid(out, w, h)
    ensures forall x, y :: 0 <= x < w && 0 <= y < h && mask[y][x] != 0 ==> out[y][x] == day[y][x]
    ensures forall x, y :: 0 <= x < w && 0 <= y < h && mask[y][x] == 0 ==> out[y][x] == night[y][x]
  {
    seq(h, y requires 0 <= y < h =>
      seq(w, x requires 0 <= x < w => if mask[y][x] != 0 then day[y][x] else night[y][x]))
  }

  /** A mask with every pixel set shows the day picture unchanged. */
  lemma CompositeAllDay(day: seq<seq<Rgb>>, night: seq<seq<Rgb>>, mask: seq<seq<int>>, w: nat, h: nat)
    requires IsGrid(day, w, h) && IsGrid(night, w, h) && IsGrid(mask, w, h)
    requires forall x, y :: 0 <= x < w && 0 <= y < h ==> mask[y][x] != 0
    ensures Composite(day, night, mask, w, h) == day
  {
    var out := Composite(day, night, mask, w, h);
    forall y | 0 <= y < h
      ensures out[y] == day[y]
    {
      assert forall x :: 0 <= x < w ==> out[y][x] == day[y][x];
    }
  }

  /** A mask with every pixel clear shows the night picture unchanged. */
  lemma CompositeAllNight(day: seq<seq<Rgb>>, night: seq<seq<Rgb>>, mask: seq<seq<int>>, w: nat, h: nat)
    requires IsGrid(day, w, h) && IsGrid(night, w, h) && IsGrid(mask, w, h)
    requires forall x, y :: 0 <= x < w && 0 <= y < h ==> mask[y][x] == 0
    ensures Composite(day, night, mask, w, h) == night
  {
    var out := Composite(day, night, mask, w, h);
    forall y | 0 <= y < h
      ensures out[y] == night[y]
    {
      assert forall x :: 0 <= x < w ==> out[y][x] == night[y][x];
    }
  }

  /** Pillow's rounding division by 255, `DIV255`:
      `t = a + 128; ((t >> 8) + t) >> 8`. */
  function Div255(a: int): int
    requires 0 <= a
  {
    ((a + 128) / 256 + a + 128) / 256
  }

  /** DIV255 gives back k from 255 k. */
  lemma Div255Exact(k: int)
    requires 0 <= k <= 255
    ensures Div255(255 * k) == k
  {
    var t := 255 * k + 128;
    if k <= 128 {
      assert t == 256 * k + (128 - k);
      assert t / 256 == k;
      assert t / 256 + t == 256 * k + 128;
    } else {
      assert t == 256 * (k - 1) + (384 - k);
      assert t / 256 == k - 1;
      assert t / 256 + t == 256 * k + 127;
    }
  }

  /** DIV255 never reverses the order of its arguments. */
  lemma Div255Monotone(a: int, b: int)
    requires 0 <= a <= b
    ensures Div255(a) <= Div255(b)
  {
    DivMonotone(a + 128, b + 128);
    DivMonotone((a + 128) / 256 + a + 128, (b + 128) / 256 + b + 128);
  }

  lemma DivMonotone(a: int, b: int)
    requires 0 <= a <= b
    ensures a / 256 <= b / 256
  {
  }

  /** The weighted sum `night * (255 - m) + day * m` lies between 255 times
      the smaller and 255 times the larger of the two channels. */
  lemma MixBounds(day: int, night: int, m: int, lo: int, hi: int)
    requires 0 <= m <= 255 && lo <= day <= hi && lo <= night <= hi
    ensures 255 * lo <= night * (255 - m) + day * m <= 255 * hi
  {
    IntMulMonotone(255 - m, lo, night);
    IntMulMonotone(m, lo, day);
    IntMulMonotone(255 - m, night, hi);
    IntMulMonotone(m, day, hi);
  }

  lemma IntMulMonotone(k: int, a: int, b: int)
    requires 0 <= k && a <= b
    ensures k * a <= k * b
  {
  }

  /** One channel of the mode "L" blend lands on the day value when the mask
      is 255, on the night value when it is 0, and between the two
      otherwise. */
  lemma BlendBounds(a: int, day: Byte, night: Byte, m: Byte)
    requires a == night * (255 - m) + day * m
    ensures 0 <= a
    ensures m == 255 ==> Div255(a) == day
    ensures m == 0 ==> Div255(a) == night
    ensures day <= night ==> day <= Div255(a) <= night
    ensures night <= day ==> night <= Div255(a) <= day
  {
    if day <= night {
      BlendBetween(a, day, night, m, day, night);
    } else {
      BlendBetween(a, day, night, m, night, day);
    }
    BlendEnds(a, day, night, m);
  }

  lemma BlendEnds(a: int, day: int, night: int, m: int)
    requires 0 <= day <= 255 && 0 <= night <= 255
    requires a == night * (255 - m) + day * m
    ensures m == 255 ==> 0 <= a && Div255(a) == day
    ensures m == 0 ==> 0 <= a && Div255(a) == night
  {
    if m == 255 {
      assert a == 255 * day;
      Div255Exact(day);
    } else if m == 0 {
      assert a == 255 * night;
      Div255Exact(night);
    }
  }

  lemma BlendBetween(a: int, day: int, night: int, m: int, lo: int, hi: int)
    requires 0 <= m <= 255 && 0 <= lo <= day <= hi <= 255 && lo <= night <= hi
    requires a == night * (255 - m) + day * m
    ensures 0 <= a && lo <= Div255(a) <= hi
  {
    MixBounds(day, night, m, lo, hi);
    Div255Monotone(255 * lo, a);
    Div255Monotone(a, 255 * hi);
    Div255Exact(lo);
    Div255Exact(hi);
  }

  /** `BLEND`: one channel of a mode "L" composite,
      `DIV255(night * (255 - m) + day * m)`. */
  function BlendL(day: Byte, night: Byte, m: Byte): (v: Byte)
    ensures m == 255 ==> v == day
    ensures m == 0 ==> v == night
    ensures (day <= night ==> day <= v <= night) && (night <= day ==> night <= v <= day)
  {
    var a := night * (255 - m) + day * m;
    BlendBounds(a, day, night, m);
    Div255(a)
  }

  /** `Image.composite(day, night, mask)` with a mode "L" mask, channel by
      channel. */
  function CompositeL(day: seq<seq<Rgb>>, night: seq<seq<Rgb>>, mask: seq<seq<Byte>>, w: nat, h: nat)
    : (out: seq<seq<Rgb>>)
    requires IsGrid(day, w, h) && IsGrid(night, w, h) && IsGrid(mask, w, h)
    ensures IsGrid(out, w, h)
    ensures forall x, y :: 0 <= x < w && 0 <= y < h && mask[y][x] == 255 ==> out[y][x] == day[y][x]
    ensures forall x, y :: 0 <= x < w && 0 <= y < h && mask[y][x] == 0 ==> out[y][x] == night[y][x]
  {
    seq(h, y requires 0 <= y < h =>
      seq(w, x requires 0 <= x < w =>
        var d, n, m := day[y][x], night[y][x], mask[y][x];
        Rgb(BlendL(d.r, n.r, m), BlendL(d.g, n.g, m), BlendL(d.b, n.b, m))))
  }

  // ---------------------------------------------------------------------
  // Pixel-by-pixel loops

  /** The pixels `for x in range(w)` visits in row y, in order. */
  function Row(w: nat, y: int): seq<(int, int)>
  {
    seq(w, x => (x, y))
  }

  /** The order `for y in range(h): for x in range(w):` visits the pixels. */
  function Scan(w: nat, h: nat): seq<(int, int)>
  {
    if h == 0 then [] else Scan(w, h - 1) + Row(w, h - 1)
  }

  lemma {:induction false} RowCount(w: nat, y: int, p: (int, int))
    ensures multiset(Row(w, y))[p] == if 0 <= p.0 < w && p.1 == y then 1 else 0
  {
    if w > 0 {
      assert Row(w, y) == Row(w - 1, y) + [(w - 1, y)];
      RowCount(w - 1, y, p);
    } else {
      assert Row(w, y) == [];
    }
  }

  /** A w x h scan visits every pixel of the grid exactly once and nothing
      outside it. */
  lemma {:induction false} ScanVisitsOnce(w: nat, h: nat, p: (int, int))
    ensures multiset(Scan(w, h))[p] == if 0 <= p.0 < w && 0 <= p.1 < h then 1 else 0
  {
    if h > 0 {
      ScanVisitsOnce(w, h - 1, p);
      RowCount(w, h - 1, p);
    }
  }

  /** The nested `for y` / `for x` loop that stores `f(x, y)` in every pixel
      of a: each pixel is written once, in scan order, and ends up holding
      its value. */
  method Paint<T>(a: array2<T>, f: (int, int) --> T) returns (ghost writes: seq<(int, int)>)
    requires forall x, y :: 0 <= x < a.Length0 && 0 <= y < a.Length1 ==> f.requires(x, y)
    modifies a
    ensures writes == Scan(a.Length0, a.Length1)
    ensures forall x, y :: 0 <= x < a.Length0 && 0 <= y < a.Length1 ==> a[x, y] == f(x, y)
  {
    writes := [];
    var y := 0;
    while y < a.Length1
      invariant 0 <= y <= a.Length1
      invariant writes == Scan(a.Length0, y)
      invariant forall i, j :: 0 <= i < a.Length0 && 0 <= j < y ==> a[i, j] == f(i, j)
    {
      var x := 0;
      while x < a.Length0
        invariant 0 <= x <= a.Length0
        invariant writes == Scan(a.Length0, y) + Row(x, y)
        invariant forall i, j :: 0 <= i < a.Length0 && 0 <= j < y ==> a[i, j] == f(i, j)
        invariant forall i :: 0 <= i < x ==> a[i, y] == f(i, y)
      {
        a[x, y] := f(x, y);
        writes := writes + [(x, y)];
        assert Row(x + 1, y) == Row(x, y) + [(x, y)];
        x := x + 1;
      }
      y := y + 1;
    }
  }

  /** `Image.new(mode, (w, h))` followed by the `putpixel` loop. */
  method FillMask<T(0)>(w: nat, h: nat, f: (int, int) --> T) returns (mask: array2<T>, ghost writes: seq<(int, int)>)
    requires forall x, y :: 0 <= x < w && 0 <= y < h ==> f.requires(x, y)
    ensures fresh(mask) && mask.Length0 == w && mask.Length1 == h
    ensures writes == Scan(w, h)
    ensures forall x, y :: 0 <= x < w && 0 <= y < h ==> mask[x, y] == f(x, y)
  {
    mask := new T[w, h];
    writes := Paint(mask, f);
  }

  // ---------------------------------------------------------------------
  // Cross markers

  /** A cross centred at (x, y) in one colour. */
  datatype Marker = Marker(x: int, y: int, color: Rgb)

  /** The cross is the horizontal bar from x - arm to x + arm on row y and the
      vertical bar from y - arm to y + arm on column x. */
  predicate OnCross(m: Marker, arm: int, x: int, y: int)
  {
    (y == m.y && m.x - arm <= x <= m.x + arm) || (x == m.x && m.y - arm <= y <= m.y + arm)
  }

  /** The colour pixel (x, y) ends with after the markers are drawn in order
      over base: the last cross covering it wins. */
  function Painted(ms: seq<Marker>, arm: int, base: Rgb, x: int, y: int): Rgb
  {
    if ms == [] then base
    else if OnCross(ms[|ms| - 1], arm, x, y) then ms[|ms| - 1].color
    else Painted(ms[..|ms| - 1], arm, base, x, y)
  }

  /** A pixel no cross covers keeps its colour. */
  lemma {:induction false} PaintedUncovered(ms: seq<Marker>, arm: int, base: Rgb, x: int, y: int)
    requires forall i :: 0 <= i < |ms| ==> !OnCross(ms[i], arm, x, y)
    ensures Painted(ms, arm, base, x, y) == base
  {
    if ms != [] {
      PaintedUncovered(ms[..|ms| - 1], arm, base, x, y);
    }
  }

  /** A pixel covered by marker j and by no later marker has marker j's
      colour, whatever came before. */
  lemma {:induction false} PaintedLastWins(ms: seq<Marker>, j: int, arm: int, base: Rgb, x: int, y: int)
    requires 0 <= j < |ms| && OnCross(ms[j], arm, x, y)
    requires forall i :: j < i < |ms| ==> !OnCross(ms[i], arm, x, y)
    ensures Painted(ms, arm, base, x, y) == ms[j].color
  {
    if j < |ms| - 1 {
      PaintedLastWins(ms[..|ms| - 1], j, arm, base, x, y);
    }
  }

  /** When every cross has colour c, any pixel some cross covers ends up c. */
  lemma {:induction false} PaintedSameColour(ms: seq<Marker>, c: Rgb, j: int, arm: int, base: Rgb, x: int, y: int)
    requires forall i :: 0 <= i < |ms| ==> ms[i].color == c
    requires 0 <= j < |ms| && OnCross(ms[j], arm, x, y)
    ensures Painted(ms, arm, base, x, y) == c
  {
    if !OnCross(ms[|ms| - 1], arm, x, y) {
      PaintedSameColour(ms[..|ms| - 1], c, j, arm, base, x, y);
    }
  }

  /** Drawing one more marker on top of a finished picture. */
  lemma PaintedSnoc(ms: seq<Marker>, m: Marker, arm: int, base: Rgb, x: int, y: int)
    ensures Painted(ms + [m], arm, base, x, y)
      == if OnCross(m, arm, x, y) then m.color else Painted(ms, arm, base, x, y)
  {
    assert (ms + [m])[..|ms|] == ms;
  }

  /** A single marker paints its cross and nothing else. */
  lemma PaintedOne(m: Marker, arm: int, base: Rgb, x: int, y: int)
    ensures Painted([m], arm, base, x, y) == if OnCross(m, arm, x, y) then m.color else base
  {
    assert [m][..0] == [];
  }

  /** The two `draw.line` calls of one cross (one pixel wide, clipped to the
      surface). */
  method DrawCross(s: array2<Rgb>, m: Marker, arm: int)
    modifies s
    ensures forall x, y :: 0 <= x < s.Length0 && 0 <= y < s.Length1 ==>
      s[x, y] == if OnCross(m, arm, x, y) then m.color else old(s[x, y])
  {
    forall x, y | 0 <= x < s.Length0 && 0 <= y < s.Length1 && OnCross(m, arm, x, y) {
      s[x, y] := m.color;
    }
  }

  /** Draws the markers one after another, in sequence order. */
  method DrawMarkers(s: array2<Rgb>, ms: seq<Marker>, arm: int)
    modifies s
    ensures forall x, y :: 0 <= x < s.Length0 && 0 <= y < s.Length1 ==>
      s[x, y] == Painted(ms, arm, old(s[x, y]), x, y)
  {
    var i := 0;
    while i < |ms|
      invariant 0 <= i <= |ms|
      invariant forall x, y :: 0 <= x < s.Length0 && 0 <= y < s.Length1 ==>
        s[x, y] == Painted(ms[..i], arm, old(s[x, y]), x, y)
    {
      DrawCross(s, ms[i], arm);
      forall x, y | 0 <= x < s.Length0 && 0 <= y < s.Length1
        ensures s[x, y] == Painted(ms[..i + 1], arm, old(s[x, y]), x, y)
      {
        assert ms[..i + 1] == ms[..i] + [ms[i]];
        PaintedSnoc(ms[..i], ms[i], arm, old(s[x, y]), x, y);
      }
      i := i + 1;
    }
    assert ms[..|ms|] == ms;
  }

  /** A cross at the pixel `latlon_to_xy` maps the point to. */
  function MarkerAt(lat: real, lon: real, w: int, h: int, color: Rgb): (m: Marker)
  {
    var (x, y) := LatLonToXY(lat, lon, w, h);
    Marker(x, y, color)
  }

  /** The red city crosses in dictionary order. */
  function CityMarkers(cities: seq<(real, real)>, w: int, h: int): (ms: seq<Marker>)
    ensures |ms| == |cities|
    ensures forall i :: 0 <= i < |cities| ==>
      ms[i] == MarkerAt(cities[i].0, cities[i].1, w, h, Red)
  {
    seq(|cities|, i requires 0 <= i < |cities| => MarkerAt(cities[i].0, cities[i].1, w, h, Red))
  }

  /** A filter that keeps the size of a w x h mask. */
  ghost predicate KeepsSize(filter: seq<seq<Byte>> -> seq<seq<Byte>>, w: int, h: int)
  {
    forall g :: IsGrid(g, w, h) ==> IsGrid(filter(g), w, h)
  }

  // ---------------------------------------------------------------------
  // Decoded and resized pictures

  /** A decoded picture with its size. */
  datatype Picture = Picture(pixels: seq<seq<Rgb>>, w: nat, h: nat)

  type Pic = p: Picture | IsGrid(p.pixels, p.w, p.h) witness Picture([], 0, 0)

  /** `resize(g, w, h)` with a positive width and height is a w x h
      picture; with a zero side Pillow raises `ValueError` instead, which
      the callers model. The resampling filter itself (LANCZOS, ANTIALIAS)
      is not modelled. */
  ghost predicate Resizes(resize: (seq<seq<Rgb>>, int, int) -> seq<seq<Rgb>>)
  {
    forall g, nw, nh :: 0 < nw && 0 < nh ==> IsGrid(resize(g, nw, nh), nw, nh)
  }

  // ---------------------------------------------------------------------
  // Filling and blitting

  /** `surface.fill(c)`. */
  method Fill(s: array2<Rgb>, c: Rgb)
    modifies s
    ensures forall x, y :: 0 <= x < s.Length0 && 0 <= y < s.Length1 ==> s[x, y] == c
  {
    forall x, y | 0 <= x < s.Length0 && 0 <= y < s.Length1 {
      s[x, y] := c;
    }
  }

  /** Pixel (x, y) of the destination lies under a w x h picture placed with
      its top-left corner at (ox, oy). */
  predicate Under(ox: int, oy: int, w: int, h: int, x: int, y: int)
  {
    ox <= x < ox + w && oy <= y < oy + h
  }

  /** `dst.blit(src, (ox, oy))` / `dst.paste(src, (ox, oy))`: the part of the
      picture that falls on the destination is copied, the rest is clipped,
      and every other pixel keeps its colour. */
  method Blit(dst: array2<Rgb>, src: seq<seq<Rgb>>, w: nat, h: nat, ox: int, oy: int)
    requires IsGrid(src, w, h)
    modifies dst
    ensures forall x, y :: 0 <= x < dst.Length0 && 0 <= y < dst.Length1 ==>
      dst[x, y] == if Under(ox, oy, w, h, x, y) then src[y - oy][x - ox] else old(dst[x, y])
  {
    forall x, y | 0 <= x < dst.Length0 && 0 <= y < dst.Length1 && Under(ox, oy, w, h, x, y) {
      dst[x, y] := src[y - oy][x - ox];
    }
  }

  /** `screen.fill((0, 0, 0))` then `screen.blit(src, (ox, oy))`: the
      picture where it falls and black everywhere else. */
  method Present(dst: array2<Rgb>, src: seq<seq<Rgb>>, w: nat, h: nat, ox: int, oy: int)
    requires IsGrid(src, w, h)
    modifies dst
    ensures forall x, y :: 0 <= x < dst.Length0 && 0 <= y < dst.Length1 ==>
      dst[x, y] == if Under(ox, oy, w, h, x, y) then src[y - oy][x - ox] else Black
  {
    Fill(dst, Black);
    Blit(dst, src, w, h, ox, oy);
  }
}
