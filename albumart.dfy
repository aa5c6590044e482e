/** What the Sonos scripts share: the two rules that turn the `album_art`
    field of the track info into a URL, the outcome of fetching and decoding
    that URL, and the keys that end the event loops.

    Speaker discovery, the HTTP request and image decoding are not modelled:
    a fetch is a function from URL to outcome that the caller supplies. */
module AlbumArt {
  import opened Wrappers
  import opened Raster

  predicate StartsWith(s: string, p: string)
  {
    |p| <= |s| && s[..|p|] == p
  }

  predicate EndsWith(s: string, p: string)
  {
    |p| <= |s| && s[|s| - |p|..] == p
  }

  /** `f"http://{zone.ip_address}:1400"` */
  function SpeakerBase(ip: string): string
  {
    "http://" + ip + ":1400"
  }

  /** Python's truthiness of `info.get("album_art")`: missing or empty means
      no art. */
  predicate HasArt(uri: Option<string>)
  {
    uri.Some? && uri.value != ""
  }

  /** The speaker base URL followed by the path. */
  lemma PrefixedShape(uri: string, ip: string)
    ensures StartsWith(SpeakerBase(ip) + uri, "http://")
    ensures StartsWith(SpeakerBase(ip) + uri, SpeakerBase(ip))
    ensures EndsWith(SpeakerBase(ip) + uri, uri)
    ensures |SpeakerBase(ip) + uri| > |uri|
  {
    var b := SpeakerBase(ip);
    assert (b + uri)[..|b|] == b;
    assert (b + uri)[|b + uri| - |uri|..] == uri;
    assert b[..7] == "http://";
    assert (b + uri)[..7] == b[..7];
  }

  /** RectSonos2, RectSonos3 and RectSonos4: a URI that starts with "/" is a
      path on the speaker and gets the speaker's base URL in front; any other
      URI is used as it is. */
  function ResolveRelative(uri: string, ip: string): (url: string)
    ensures EndsWith(url, uri)
    ensures url == uri <==> !StartsWith(uri, "/")
    ensures StartsWith(uri, "/") ==> url == SpeakerBase(ip) + uri
    ensures StartsWith(uri, "/") ==> StartsWith(url, SpeakerBase(ip)) && StartsWith(url, "http://")
  {
    PrefixedShape(uri, ip);
    assert EndsWith(uri, uri) by { assert uri[|uri| - |uri|..] == uri; }
    if StartsWith(uri, "/") then SpeakerBase(ip) + uri else uri
  }

  /** RectSonos5: a URI that starts with "http" is used as it is; anything
      else gets the speaker's base URL in front. */
  function ResolveHttp(uri: string, ip: string): (url: string)
    ensures EndsWith(url, uri)
    ensures url == uri <==> StartsWith(uri, "http")
    ensures !StartsWith(uri, "http") ==> url == SpeakerBase(ip) + uri
    ensures StartsWith(url, "http")
  {
    PrefixedShape(uri, ip);
    assert EndsWith(uri, uri) by { assert uri[|uri| - |uri|..] == uri; }
    if StartsWith(uri, "http") then uri
    else
      var url := SpeakerBase(ip) + uri;
      assert url[..4] == url[..7][..4];
      url
  }

  /** Resolving a resolved URL changes nothing: the speaker base never starts
      with "/". */
  lemma ResolveRelativeIdempotent(uri: string, ip: string)
    ensures ResolveRelative(ResolveRelative(uri, ip), ip) == ResolveRelative(uri, ip)
  {
    var url := ResolveRelative(uri, ip);
    if StartsWith(uri, "/") {
      assert url[0] == 'h';
      assert !StartsWith(url, "/");
    }
  }

  /** Resolving a resolved URL changes nothing: every result starts with
      "http". */
  lemma ResolveHttpIdempotent(uri: string, ip: string)
    ensures ResolveHttp(ResolveHttp(uri, ip), ip) == ResolveHttp(uri, ip)
  {
  }

  /** The two rules agree on speaker paths and on absolute http URLs. */
  lemma RulesAgree(uri: string, ip: string)
    requires StartsWith(uri, "/") || StartsWith(uri, "http")
    ensures ResolveRelative(uri, ip) == ResolveHttp(uri, ip)
  {
    if StartsWith(uri, "/") {
      assert uri[0] == '/';
      assert !StartsWith(uri, "http");
    } else {
      assert uri[0] == 'h';
      assert !StartsWith(uri, "/");
    }
  }

  /** They disagree on anything else, such as a bare file name. */
  lemma RulesDisagree(ip: string)
    ensures ResolveRelative("art.jpg", ip) == "art.jpg"
    ensures ResolveHttp("art.jpg", ip) == SpeakerBase(ip) + "art.jpg"
  {
    assert "art.jpg"[0] == 'a';
    assert !StartsWith("art.jpg", "/") by { assert "art.jpg"[..1][0] == 'a'; }
    assert !StartsWith("art.jpg", "http") by { assert "art.jpg"[..4][0] == 'a'; }
  }

  /** What `requests.get` + `raise_for_status` + `Image.open` + `resize`
      give for one URL. */
  datatype Download = Fetched(pic: Pic) | HttpError | DecodeError

  /** Every picture the fetch delivers has been resized to w x h: each Sonos
      script calls `img.resize(screen.get_size())` before it blits. */
  ghost predicate FitsScreen(fetch: string -> Download, w: int, h: int)
  {
    forall u :: fetch(u).Fetched? ==> fetch(u).pic.w == w && fetch(u).pic.h == h
  }

  /** What a pass of a Sonos loop does to the screen before it flips: blit a
      picture at (0, 0), leave the screen as it is, or fill it black. */
  datatype ScreenAction = DrawArt(pic: Pic) | Keep | Blank

  /** The colour pixel (x, y) has after the action, given its colour
      before. */
  function AfterAction(a: ScreenAction, before: Rgb, x: int, y: int): Rgb
  {
    match a
    case DrawArt(p) => if Under(0, 0, p.w, p.h, x, y) then p.pixels[y][x] else before
    case Keep => before
    case Blank => Black
  }

  /** `screen.blit(surface, (0, 0))`, nothing, or `screen.fill(BLACK)`. */
  method Perform(screen: array2<Rgb>, a: ScreenAction)
    modifies screen
    ensures forall x, y :: 0 <= x < screen.Length0 && 0 <= y < screen.Length1 ==>
      screen[x, y] == AfterAction(a, old(screen[x, y]), x, y)
  {
    match a
    case DrawArt(p) => Blit(screen, p.pixels, p.w, p.h, 0, 0);
    case Keep =>
    case Blank => Fill(screen, Black);
  }

  /** The pygame events the loops look at. `unicode` is the text of a key
      press. */
  datatype Key = Escape | OtherKey
  datatype UiEvent = Quit | KeyDown(key: Key, unicode: string) | OtherEvent

  /** `event.unicode.lower() == 'q'` */
  predicate LowerIsQ(u: string)
  {
    u == "q" || u == "Q"
  }

  /** QUIT, Escape, or a key whose text is q or Q (RectSonos4, RectSonos5). */
  predicate Exits(e: UiEvent)
  {
    e.Quit? || (e.KeyDown? && (e.key == Escape || LowerIsQ(e.unicode)))
  }

  /** The `for event in pygame.event.get()` loop: `running` ends false when
      it was false already or any event asks to exit. */
  method PollUi(running: bool, events: seq<UiEvent>) returns (r: bool)
    ensures r <==> running && forall i :: 0 <= i < |events| ==> !Exits(events[i])
  {
    r := running;
    for i := 0 to |events|
      invariant r <==> running && forall j :: 0 <= j < i ==> !Exits(events[j])
    {
      var e := events[i];
      if e.Quit? {
        r := false;
      } else if e.KeyDown? {
        if e.key == Escape || LowerIsQ(e.unicode) {
          r := false;
        }
      }
    }
  }
}
