/** `RectSonos2.py`: shows the album art of the "Basement" Sonos zone once.
    The script runs straight through; its result is what it leaves on the
    screen or the exception that stops it. */
module RectSonos2 {
  import opened Wrappers
  import opened Raster
  import opened AlbumArt

  /** The screen the script opens; the art is resized to its size. */
  const SCREEN_W: int := 800
  const SCREEN_H: int := 480

  /** The `RuntimeError`s the script raises itself, and the exception
      `raise_for_status` raises before the screen is opened. */
  datatype Failure = ZoneNotFound | NoAlbumArt | HttpFailed

  /** The script ends with an exception, or after one flip of the screen
      with the art blitted or the screen filled black. */
  datatype Outcome = Crashed(why: Failure) | Shown(action: ScreenAction)

  /** The script, given whether the zone was found, the track info's
      `album_art`, the speaker's address and the fetch. Only an error of the
      HTTP request escapes; a decoding error, inside the `try`, gives the
      black screen. The art is resized to the screen before it is shown. */
  function Run(zoneFound: bool, albumArt: Option<string>, ip: string, fetch: string -> Download): (o: Outcome)
    requires FitsScreen(fetch, SCREEN_W, SCREEN_H)
    ensures !zoneFound <==> o == Crashed(ZoneNotFound)
    ensures zoneFound && !HasArt(albumArt) <==> o == Crashed(NoAlbumArt)
    ensures o == Crashed(HttpFailed) <==>
      zoneFound && HasArt(albumArt) && fetch(ResolveRelative(albumArt.value, ip)) == HttpError
    ensures o == Shown(Blank) <==>
      zoneFound && HasArt(albumArt) && fetch(ResolveRelative(albumArt.value, ip)) == DecodeError
    ensures (o.Shown? && o.action.DrawArt?) <==>
      zoneFound && HasArt(albumArt) && fetch(ResolveRelative(albumArt.value, ip)).Fetched?
    ensures o.Shown? && o.action.DrawArt? ==> fetch(ResolveRelative(albumArt.value, ip)) == Fetched(o.action.pic)
    ensures o.Shown? && o.action.DrawArt? ==> o.action.pic.w == SCREEN_W && o.action.pic.h == SCREEN_H
    ensures o.Shown? ==> !o.action.Keep?
  {
    if !zoneFound then Crashed(ZoneNotFound)
    else if !HasArt(albumArt) then Crashed(NoAlbumArt)
    else match fetch(ResolveRelative(albumArt.value, ip))
      case HttpError => Crashed(HttpFailed)
      case DecodeError => Shown(Blank)
      case Fetched(p) => Shown(DrawArt(p))
  }

  /** Whenever the script gets as far as the screen, every pixel of the
      screen shows either the art or black: the previous contents never
      remain. */
  lemma ShownScreenIsArtOrBlack(zoneFound: bool, albumArt: Option<string>, ip: string,
                                fetch: string -> Download, before: Rgb, x: int, y: int)
    requires FitsScreen(fetch, SCREEN_W, SCREEN_H)
    requires Run(zoneFound, albumArt, ip, fetch).Shown?
    requires 0 <= x < SCREEN_W && 0 <= y < SCREEN_H
    ensures var a := Run(zoneFound, albumArt, ip, fetch).action;
      AfterAction(a, before, x, y) == if a.DrawArt? then a.pic.pixels[y][x] else Black
  {
  }
}
