/** `RectSonos3.py`: polls the "Basement" Sonos zone as fast as it can and
    shows the album art while it plays, black otherwise. */
module RectSonos3 {
  import opened Wrappers
  import opened Raster
  import opened AlbumArt

  const PLAYING: string := "PLAYING"

  /** The screen the script opens. */
  const SCREEN_W: int := 800
  const SCREEN_H: int := 480

  /** What one pass draws before its flip: while PLAYING, the art when there
      is some and it fetches and decodes, and nothing otherwise (the
      exception is swallowed); in any other state, black. */
  function PollAction(state: string, albumArt: Option<string>, ip: string,
                      fetch: string -> Download): (a: ScreenAction)
    ensures a.Blank? <==> state != PLAYING
    ensures a.DrawArt? <==> state == PLAYING && HasArt(albumArt)
                            && fetch(ResolveRelative(albumArt.value, ip)).Fetched?
    ensures a.DrawArt? ==> fetch(ResolveRelative(albumArt.value, ip)) == Fetched(a.pic)
  {
    if state != PLAYING then Blank
    else if !HasArt(albumArt) then Keep
    else match fetch(ResolveRelative(albumArt.value, ip))
      case Fetched(p) => DrawArt(p)
      case _ => Keep
  }

  /** The `elif state == 'STOPPED' or state == 'PAUSED'` branch hangs off
      `if album_art_uri` inside `if state == 'PLAYING'`, so the logo is never
      shown. */
  lemma LogoBranchUnreachable(state: string)
    requires state == PLAYING
    ensures !(state == "STOPPED" || state == "PAUSED")
  {
    assert state[0] == 'P' && state[1] == 'L';
    assert "STOPPED"[0] == 'S';
    assert "PAUSED"[1] == 'A';
  }

  /** The screen and the number of `display.flip` calls. `running` is never
      set false, so the loop runs until the program is killed. */
  class Poller {
    const screen: array2<Rgb>
    const ip: string
    var flips: nat

    constructor (screen: array2<Rgb>, ip: string)
      ensures this.screen == screen && this.ip == ip && flips == 0
    {
      this.screen, this.ip := screen, ip;
      flips := 0;
    }

    /** One pass of `while running`, given the transport state and the
        track info's `album_art` at that moment: the branches of the script,
        then one flip whatever happened. Fetched art has been resized to
        the screen, so drawing it replaces every pixel. */
    method Step(state: string, albumArt: Option<string>, fetch: string -> Download)
      requires FitsScreen(fetch, screen.Length0, screen.Length1)
      modifies screen, this`flips
      ensures flips == old(flips) + 1
      ensures forall x, y :: 0 <= x < screen.Length0 && 0 <= y < screen.Length1 ==>
        screen[x, y] == AfterAction(PollAction(state, albumArt, ip, fetch), old(screen[x, y]), x, y)
      ensures var a := PollAction(state, albumArt, ip, fetch);
        a.DrawArt? ==> forall x, y :: 0 <= x < screen.Length0 && 0 <= y < screen.Length1 ==>
          screen[x, y] == a.pic.pixels[y][x]
    {
      if state == PLAYING {
        LogoBranchUnreachable(state);
        if HasArt(albumArt) {
          var url := ResolveRelative(albumArt.value, ip);
          match fetch(url)
          case Fetched(surf) =>
            Perform(screen, DrawArt(surf));
          case _ =>
        } else if state == "STOPPED" || state == "PAUSED" {
          assert false;
        }
        flips := flips + 1;
      } else {
        Perform(screen, Blank);
        flips := flips + 1;
      }
    }
  }

  /** A failed fetch while playing keeps the previous picture: the screen is
      never blanked while the zone plays. */
  lemma PlayingNeverBlanks(state: string, albumArt: Option<string>, ip: string,
                           fetch: string -> Download, before: Rgb, x: int, y: int)
    requires state == PLAYING
    requires !PollAction(state, albumArt, ip, fetch).DrawArt?
    ensures AfterAction(PollAction(state, albumArt, ip, fetch), before, x, y) == before
  {
  }
}
