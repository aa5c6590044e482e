/** `RectTest2.py`: one picture scaled to fit a 720 x 720 framebuffer
    without changing its shape, centred on a black canvas, or a black
    picture when the file is missing. */
module RectTest2 {
  import opened Wrappers
  import opened Numeric
  import opened Raster

  /** `SCREEN_SIZE`. */
  const SCREEN_W: nat := 720
  const SCREEN_H: nat := 720

  /** `Image.new("RGB", SCREEN_SIZE, "black")`. */
  function BlackImage(): (p: Pic)
    ensures p.w == SCREEN_W && p.h == SCREEN_H
    ensures forall x, y :: 0 <= x < SCREEN_W && 0 <= y < SCREEN_H ==> p.pixels[y][x] == Black
  {
    Picture(seq(SCREEN_H, _ => seq(SCREEN_W, _ => Black)), SCREEN_W, SCREEN_H)
  }

  /** What loading leaves the script with: a picture, or the `ValueError`
      that `img.resize` raises for a fitted size with a zero side, which
      stops the script before anything is drawn. */
  datatype Loaded = Loaded(img: Pic) | ResizeRaised

  /** The picture the script ends up with: the file, when it exists, resized
      to `(int(img_width * scale), int(img_height * scale))` with
      `scale = min(max_width / img_width, max_height / img_height)`;
      otherwise a black picture of exactly SCREEN_SIZE. A loaded picture fits
      the screen and fills it along one side; the resize raises exactly when
      the fitted size has a zero side. */
  function LoadImage(file: Option<Pic>, resize: (seq<seq<Rgb>>, int, int) -> seq<seq<Rgb>>): (r: Loaded)
    requires Resizes(resize)
    requires file.Some? ==> 0 < file.value.w && 0 < file.value.h
    ensures file.None? ==> r == Loaded(BlackImage())
    ensures file.Some? ==> var (nw, nh) := FitSize(SCREEN_W, SCREEN_H, file.value.w, file.value.h);
      r.ResizeRaised? <==> nw == 0 || nh == 0
    ensures r.Loaded? ==> 0 < r.img.w <= SCREEN_W && 0 < r.img.h <= SCREEN_H
    ensures file.Some? && r.Loaded? ==>
      (r.img.w, r.img.h) == FitSize(SCREEN_W, SCREEN_H, file.value.w, file.value.h)
    ensures file.Some? && r.Loaded? ==> r.img.w == SCREEN_W || r.img.h == SCREEN_H
  {
    match file
    case None => Loaded(BlackImage())
    case Some(src) =>
      FitSizeFits(SCREEN_W, SCREEN_H, src.w, src.h);
      var (nw, nh) := FitSize(SCREEN_W, SCREEN_H, src.w, src.h);
      if nw == 0 || nh == 0 then ResizeRaised
      else Loaded(Picture(resize(src.pixels, nw, nh), nw, nh))
  }

  /** A 1000 x 1 file: the scale is 0.72, the fitted size (720, 0), and the
      resize raises. */
  lemma ThinPictureRaises(resize: (seq<seq<Rgb>>, int, int) -> seq<seq<Rgb>>)
    requires Resizes(resize)
    ensures LoadImage(Some(Picture([seq(1000, _ => Black)], 1000, 1)), resize) == ResizeRaised
  {
    FitSizeZeroSide(SCREEN_W, SCREEN_H, 1000, 1);
  }

  /** Both sides of a loaded picture are scaled by the one factor, so its
      shape changes only by the truncation of each side. */
  lemma LoadedKeepsShape(file: Option<Pic>, resize: (seq<seq<Rgb>>, int, int) -> seq<seq<Rgb>>)
    requires Resizes(resize)
    requires file.Some? && 0 < file.value.w && 0 < file.value.h
    ensures var r := LoadImage(file, resize);
      var (w, h) := (file.value.w as real, file.value.h as real);
      r.Loaded? ==> -h < h * r.img.w as real - w * r.img.h as real < w
  {
    FitKeepsShape(SCREEN_W, SCREEN_H, file.value.w, file.value.h);
  }

  /** `pos`: the centring offsets of the picture. */
  function PastePosition(img: Pic): (int, int)
  {
    (CenterOffset(SCREEN_W, img.w), CenterOffset(SCREEN_H, img.h))
  }

  /** A picture no larger than the screen is pasted at a non-negative
      position and lies wholly on the canvas, with margins that differ by at
      most one pixel. */
  lemma PastePositionOnCanvas(img: Pic)
    requires img.w <= SCREEN_W && img.h <= SCREEN_H
    ensures var (px, py) := PastePosition(img);
      && 0 <= px && px + img.w <= SCREEN_W && px <= SCREEN_W - img.w - px <= px + 1
      && 0 <= py && py + img.h <= SCREEN_H && py <= SCREEN_H - img.h - py <= py + 1
  {
    CenterOffsetFits(SCREEN_W, img.w);
    CenterOffsetFits(SCREEN_H, img.h);
  }

  /** `bg = Image.new("RGB", SCREEN_SIZE, "black")` and
      `bg.paste(img, pos)`: the pasted rectangle holds the picture and every
      other pixel stays black. */
  method Compose(img: Pic) returns (bg: array2<Rgb>)
    ensures fresh(bg) && bg.Length0 == SCREEN_W && bg.Length1 == SCREEN_H
    ensures var (px, py) := PastePosition(img);
      forall x, y :: 0 <= x < SCREEN_W && 0 <= y < SCREEN_H ==>
        bg[x, y] == if Under(px, py, img.w, img.h, x, y) then img.pixels[y - py][x - px] else Black
  {
    bg := new Rgb[SCREEN_W, SCREEN_H]((x, y) => Black);
    var (px, py) := PastePosition(img);
    Blit(bg, img.pixels, img.w, img.h, px, py);
  }

  /** With the file missing the canvas is black all over. */
  lemma MissingFileBlackCanvas(resize: (seq<seq<Rgb>>, int, int) -> seq<seq<Rgb>>, x: int, y: int)
    requires Resizes(resize) && 0 <= x < SCREEN_W && 0 <= y < SCREEN_H
    ensures var img := LoadImage(None, resize).img;
      var (px, py) := PastePosition(img);
      Under(px, py, img.w, img.h, x, y) && img.pixels[y - py][x - px] == Black
  {
    var img := LoadImage(None, resize).img;
    assert PastePosition(img) == (0, 0);
  }
}
