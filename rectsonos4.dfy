/** `RectSonos4.py`: album art of the "Basement" Sonos zone, driven by
    transport events. The current picture is kept while the zone plays,
    dropped when it stops, and the loop ends on QUIT, Escape, q or Q,
    Ctrl-C, or an error while fetching. */
module RectSonos4 {
  import opened Wrappers
  import opened Raster
  import opened AlbumArt

  const PLAYING: string := "PLAYING"
  const TRANSPORT_STATE: string := "transport_state"
  const TRACK_META_DATA: string := "current_track_meta_data"

  /** What `fetch_album_art` gives back: `None`, a surface, or an exception
      from `requests` or PIL that leaves the function. */
  datatype Fetch = NoArt | Art(pic: Pic) | Raised

  /** `fetch_album_art`: no URI or an empty one gives `None`; otherwise the
      URI is resolved by the "/" rule and fetched, and any HTTP or decoding
      error propagates. A non-empty URI never gives `None`. */
  function FetchAlbumArt(albumArt: Option<string>, ip: string, fetch: string -> Download): (r: Fetch)
    ensures !HasArt(albumArt) <==> r == NoArt
    ensures r.Art? ==> fetch(ResolveRelative(albumArt.value, ip)) == Fetched(r.pic)
    ensures r == Raised <==> HasArt(albumArt) && !fetch(ResolveRelative(albumArt.value, ip)).Fetched?
  {
    if !HasArt(albumArt) then NoArt
    else match fetch(ResolveRelative(albumArt.value, ip))
      case Fetched(p) => Art(p)
      case _ => Raised
  }

  /** `show_album_art`: blit the surface, or fill black when there is
      none. */
  function ShowAction(surface: Option<Pic>): ScreenAction
  {
    if surface.Some? then DrawArt(surface.value) else Blank
  }

  /** The event makes the loop call `fetch_album_art`: a transport event
      to PLAYING, or a metadata event while the state is PLAYING. */
  predicate Fetches(state: string, vars: map<string, string>)
  {
    if TRANSPORT_STATE in vars then vars[TRANSPORT_STATE] == PLAYING
    else TRACK_META_DATA in vars && state == PLAYING
  }

  /** The effect of one Sonos event: the new state, the new current
      surface, whether `show_album_art` runs, and whether an exception
      leaves the loop. */
  datatype Reaction = Reaction(state: string, current: Option<Pic>, show: bool, raised: bool)

  /** The event handler, given what `fetch_album_art` returns if it is
      called. Only a transport event changes the state; a transport event
      to anything but PLAYING drops the surface and shows black; a fetch
      that gives a surface replaces the current one and shows it; a fetch
      that gives `None` keeps the current one, showing it again only on a
      transport event; a metadata event while not playing, or an event with
      neither key, does nothing. */
  function React(state: string, current: Option<Pic>, vars: map<string, string>, fetched: Fetch): (r: Reaction)
    ensures TRANSPORT_STATE in vars ==> r.state == vars[TRANSPORT_STATE]
    ensures TRANSPORT_STATE !in vars ==> r.state == state
    ensures r.raised <==> Fetches(state, vars) && fetched == Raised
    ensures r.raised ==> r.current == current && !r.show
    ensures TRANSPORT_STATE in vars && !Fetches(state, vars) ==> r.current == None && r.show
    ensures Fetches(state, vars) && fetched.Art? ==> r.current == Some(fetched.pic) && r.show
    ensures Fetches(state, vars) && fetched == NoArt ==> r.current == current && (r.show <==> TRANSPORT_STATE in vars)
    ensures TRANSPORT_STATE !in vars && !Fetches(state, vars) ==> r.current == current && !r.show
  {
    if TRANSPORT_STATE in vars then
      var s := vars[TRANSPORT_STATE];
      if s == PLAYING then
        match fetched
        case Raised => Reaction(s, current, false, true)
        case Art(p) => Reaction(s, Some(p), true, false)
        case NoArt => Reaction(s, current, true, false)
      else Reaction(s, None, true, false)
    else if TRACK_META_DATA in vars && state == PLAYING then
      match fetched
      case Raised => Reaction(state, current, false, true)
      case Art(p) => Reaction(state, Some(p), true, false)
      case NoArt => Reaction(state, current, false, false)
    else Reaction(state, current, false, false)
  }

  /** The start-up fetch: `fetch_album_art` is called only when the zone
      is PLAYING. */
  function StartFetch(state0: string, albumArt: Option<string>, ip: string, fetch: string -> Download): Fetch
  {
    if state0 == PLAYING then FetchAlbumArt(albumArt, ip, fetch) else NoArt
  }

  /** The surface the start-up leaves in `current_surface`. */
  function StartSurface(fetched: Fetch): Option<Pic>
  {
    if fetched.Art? then Some(fetched.pic) else None
  }

  /** A transport event to any state but PLAYING leaves the screen black. */
  lemma StoppedZoneIsBlack(state: string, current: Option<Pic>, vars: map<string, string>,
                           fetched: Fetch, before: Rgb, x: int, y: int)
    requires TRANSPORT_STATE in vars && vars[TRANSPORT_STATE] != PLAYING
    ensures var r := React(state, current, vars, fetched);
      r.show && AfterAction(ShowAction(r.current), before, x, y) == Black
  {
  }

  /** A fetched picture, resized to the sw x sh screen, covers every pixel
      of it. */
  lemma FetchedArtCoversScreen(state: string, current: Option<Pic>, vars: map<string, string>,
                               albumArt: Option<string>, ip: string, fetch: string -> Download,
                               sw: int, sh: int, before: Rgb, x: int, y: int)
    requires Fetches(state, vars) && FitsScreen(fetch, sw, sh)
    requires FetchAlbumArt(albumArt, ip, fetch).Art? && 0 <= x < sw && 0 <= y < sh
    ensures var fetched := FetchAlbumArt(albumArt, ip, fetch);
      var r := React(state, current, vars, fetched);
      r.show && AfterAction(ShowAction(r.current), before, x, y) == fetched.pic.pixels[y][x]
  {
    var fetched := FetchAlbumArt(albumArt, ip, fetch);
    assert fetch(ResolveRelative(albumArt.value, ip)) == Fetched(fetched.pic);
  }

  /** A surface of the screen's size, when shown, covers every pixel; with
      no surface the screen is black. With `Player.Valid`, this is what the
      screen holds after every flip. */
  lemma ShownSurfaceCoversScreen(surface: Option<Pic>, sw: int, sh: int, before: Rgb, x: int, y: int)
    requires surface.Some? ==> surface.value.w == sw && surface.value.h == sh
    requires 0 <= x < sw && 0 <= y < sh
    ensures AfterAction(ShowAction(surface), before, x, y)
      == if surface.Some? then surface.value.pixels[y][x] else Black
  {
  }

  /** The script's state: the zone's address, `running`, `state`,
      `current_surface`, the number of `display.flip` calls, and whether an
      exception ended the program. */
  class Player {
    const screen: array2<Rgb>
    const ip: string
    var running: bool
    var state: string
    var current: Option<Pic>
    var flips: nat
    var raised: bool

    /** The surface kept for redrawing has the screen's size, as every
        fetched picture is resized to it. */
    predicate Valid()
      reads this
    {
      current.Some? ==> current.value.w == screen.Length0 && current.value.h == screen.Length1
    }

    /** The start-up: the state is read, the art is fetched only when it is
        PLAYING, and the result is shown. An exception here happens before
        the loop and ends the program. */
    constructor (screen: array2<Rgb>, ip: string, state0: string, albumArt: Option<string>,
                 fetch: string -> Download)
      requires FitsScreen(fetch, screen.Length0, screen.Length1)
      modifies screen
      ensures Valid()
      ensures this.screen == screen && this.ip == ip && state == state0
      ensures raised <==> StartFetch(state0, albumArt, ip, fetch) == Raised
      ensures running == !raised
      ensures current == StartSurface(StartFetch(state0, albumArt, ip, fetch))
      ensures raised ==> flips == 0 && unchanged(screen)
      ensures !raised ==> flips == 1
      ensures !raised ==> forall x, y :: 0 <= x < screen.Length0 && 0 <= y < screen.Length1 ==>
        screen[x, y] == AfterAction(ShowAction(current), old(screen[x, y]), x, y)
    {
      this.screen, this.ip := screen, ip;
      state := state0;
      flips := 0;
      var fetched := StartFetch(state0, albumArt, ip, fetch);
      raised := fetched == Raised;
      running := fetched != Raised;
      current := StartSurface(fetched);
      new;
      if !raised {
        Show(current);
      }
    }

    /** `show_album_art` followed by `display.flip`. */
    method Show(surface: Option<Pic>)
      modifies screen, this`flips
      ensures flips == old(flips) + 1
      ensures forall x, y :: 0 <= x < screen.Length0 && 0 <= y < screen.Length1 ==>
        screen[x, y] == AfterAction(ShowAction(surface), old(screen[x, y]), x, y)
    {
      Perform(screen, ShowAction(surface));
      flips := flips + 1;
    }

    /** The Ctrl-C handler. */
    method Interrupt()
      modifies this`running
      ensures !running
    {
      running := false;
    }

    /** One pass of `while running`: the pygame events first; then, if still
        running, at most one Sonos event (`None` when the queue is empty),
        handled as `React` says with `albumArt` the track info's field at
        that moment. An exception ends the loop through `finally`. */
    method Step(events: seq<UiEvent>, sonosEvent: Option<map<string, string>>,
                albumArt: Option<string>, fetch: string -> Download)
      requires running && Valid()
      requires FitsScreen(fetch, screen.Length0, screen.Length1)
      modifies this, screen
      ensures Valid()
      ensures var keep := forall i :: 0 <= i < |events| ==> !Exits(events[i]);
        !keep || sonosEvent.None? ==>
          && running == keep && state == old(state) && current == old(current)
          && flips == old(flips) && raised == old(raised) && unchanged(screen)
      ensures var keep := forall i :: 0 <= i < |events| ==> !Exits(events[i]);
        keep && sonosEvent.Some? ==>
          var r := React(old(state), old(current), sonosEvent.value, FetchAlbumArt(albumArt, ip, fetch));
          && state == r.state && current == r.current
          && raised == (old(raised) || r.raised) && running == !r.raised
          && flips == old(flips) + (if r.show then 1 else 0)
          && forall x, y :: 0 <= x < screen.Length0 && 0 <= y < screen.Length1 ==>
               screen[x, y] == if r.show then AfterAction(ShowAction(current), old(screen[x, y]), x, y)
                               else old(screen[x, y])
    {
      running := PollUi(running, events);
      if running && sonosEvent.Some? {
        var vars := sonosEvent.value;
        if TRANSPORT_STATE in vars {
          state := vars[TRANSPORT_STATE];
          if state == PLAYING {
            var newSurface := FetchAlbumArt(albumArt, ip, fetch);
            if newSurface == Raised {
              raised, running := true, false;
              return;
            }
            if newSurface.Art? {
              current := Some(newSurface.pic);
            }
          } else {
            current := None;
          }
          Show(current);
        } else if TRACK_META_DATA in vars && state == PLAYING {
          var newSurface := FetchAlbumArt(albumArt, ip, fetch);
          if newSurface == Raised {
            raised, running := true, false;
            return;
          }
          if newSurface.Art? {
            current := Some(newSurface.pic);
            Show(current);
          }
        }
      }
    }
  }
}
