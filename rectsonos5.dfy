/** `RectSonos5.py`: album art of the "Basement" Sonos zone, driven by
    transport events, with fetch errors swallowed and the display flipped
    only after something was drawn. */
module RectSonos5 {
  import opened Wrappers
  import opened Raster
  import opened AlbumArt

  const TRANSPORT_STATE: string := "transport_state"

  /** `state in ("PLAYING", "TRANSITIONING")`; a missing state is `None`,
      which is neither. */
  predicate Playing(state: Option<string>)
  {
    state == Some("PLAYING") || state == Some("TRANSITIONING")
  }

  /** `get_album_art_image`: an empty URI gives `None`; otherwise the URI is
      resolved by the "http" rule and fetched, and every HTTP or decoding
      error gives `None` as well. */
  function GetAlbumArtImage(uri: string, ip: string, fetch: string -> Download): (r: Option<Pic>)
    ensures r.None? <==> uri == "" || !fetch(ResolveHttp(uri, ip)).Fetched?
    ensures r.Some? ==> fetch(ResolveHttp(uri, ip)) == Fetched(r.value)
  {
    if uri == "" then None
    else match fetch(ResolveHttp(uri, ip))
      case Fetched(p) => Some(p)
      case _ => None
  }

  /** What a Sonos event does to the screen: while playing or
      transitioning, the picture `image` (the result of
      `get_album_art_image`) is blitted when there is one and the screen is
      left alone otherwise; any other state, or none, blanks it. */
  function EventAction(vars: map<string, string>, image: Option<Pic>): (a: ScreenAction)
    ensures a.Blank? <==> !Playing(if TRANSPORT_STATE in vars then Some(vars[TRANSPORT_STATE]) else None)
    ensures a.DrawArt? <==> !a.Blank? && image.Some?
    ensures a.DrawArt? ==> a.pic == image.value
  {
    var state := if TRANSPORT_STATE in vars then Some(vars[TRANSPORT_STATE]) else None;
    if Playing(state) then
      if image.Some? then DrawArt(image.value) else Keep
    else Blank
  }

  /** While the zone plays, a failed fetch leaves the last picture on the
      screen rather than blanking it. */
  lemma FailedFetchKeepsPicture(vars: map<string, string>, uri: string, ip: string,
                                fetch: string -> Download, before: Rgb, x: int, y: int)
    requires TRANSPORT_STATE in vars && vars[TRANSPORT_STATE] in {"PLAYING", "TRANSITIONING"}
    requires uri == "" || !fetch(ResolveHttp(uri, ip)).Fetched?
    ensures AfterAction(EventAction(vars, GetAlbumArtImage(uri, ip, fetch)), before, x, y) == before
  {
  }

  /** `running`, `need_redraw` and the number of `display.flip` calls. */
  class Viewer {
    const screen: array2<Rgb>
    const ip: string
    var running: bool
    var needRedraw: bool
    var flips: nat

    /** The script's start: running, with a redraw pending. */
    constructor (screen: array2<Rgb>, ip: string)
      ensures this.screen == screen && this.ip == ip
      ensures running && needRedraw && flips == 0
    {
      this.screen, this.ip := screen, ip;
      running, needRedraw, flips := true, true, 0;
    }

    /** One pass of `while running`: at most one Sonos event (`None` when
        the queue stays empty for half a second), whose track info gives
        `albumArt`; then the pygame events; then a flip when something was
        drawn since the last one. The image has been resized to the screen,
        so drawing it replaces every pixel. */
    method Step(sonosEvent: Option<map<string, string>>, albumArt: string,
                fetch: string -> Download, events: seq<UiEvent>)
      requires running
      requires FitsScreen(fetch, screen.Length0, screen.Length1)
      modifies this, screen
      ensures running <==> forall i :: 0 <= i < |events| ==> !Exits(events[i])
      ensures !needRedraw
      ensures flips == old(flips) + (if old(needRedraw) || sonosEvent.Some? then 1 else 0)
      ensures sonosEvent.None? ==> unchanged(screen)
      ensures sonosEvent.Some? ==>
        var a := EventAction(sonosEvent.value, GetAlbumArtImage(albumArt, ip, fetch));
        forall x, y :: 0 <= x < screen.Length0 && 0 <= y < screen.Length1 ==>
          screen[x, y] == AfterAction(a, old(screen[x, y]), x, y)
      ensures sonosEvent.Some? ==>
        var a := EventAction(sonosEvent.value, GetAlbumArtImage(albumArt, ip, fetch));
        a.DrawArt? ==> forall x, y :: 0 <= x < screen.Length0 && 0 <= y < screen.Length1 ==>
          screen[x, y] == a.pic.pixels[y][x]
    {
      if sonosEvent.Some? {
        var vars := sonosEvent.value;
        var state := if TRANSPORT_STATE in vars then Some(vars[TRANSPORT_STATE]) else None;
        if Playing(state) {
          var image := GetAlbumArtImage(albumArt, ip, fetch);
          if image.Some? {
            Perform(screen, DrawArt(image.value));
          }
          needRedraw := true;
        } else {
          Perform(screen, Blank);
          needRedraw := true;
        }
      }
      running := PollUi(running, events);
      if needRedraw {
        flips := flips + 1;
        needRedraw := false;
      }
    }
  }
}
