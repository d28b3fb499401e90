/**
 * The carousels of the newer front-end script: `SliderManager` (the
 * background slideshow, the per-gallery auto-slide interval, the manual
 * arrows and dots) and the `played` bookkeeping of `VideoGalleryManager`
 * for galleries that hold a video.
 *
 * A gallery's items are its `.gallery-image` and `.gallery-video` elements
 * in document order; `restartVideo` and the tick's pause step use the
 * gallery's first video. Timers are explicit: `GalleryTick` is one firing of
 * the live interval of a gallery. Media playback is asynchronous in the
 * browser; its outcome is an input (`PlayOutcome`) to `SettlePlay`.
 */
module Slider {
  import opened Ring
  import opened Flags
  import opened Site

  /** `CONFIG.sliderInterval`: the background and the photo galleries. */
  const SliderInterval: nat := 8000
  /** `CONFIG.galleryInterval`: the reviews carousel. */
  const GalleryInterval: nat := 5000

  /** The gallery whose rotation waits for its video. */
  const VideoGalleryId: string := "1"
  const ReviewsId: string := "reviews"

  datatype MediaKind = Image | Video

  /** One `[data-gallery]` carousel: its id, its items and their `active` flags. */
  class Gallery {
    const id: string
    const kinds: seq<MediaKind>
    const active: array<bool>
    /** The first video's `style.display` is not `'none'`. */
    var videoShown: bool

    predicate Valid() {
      active.Length == |kinds|
    }

    constructor (id: string, kinds: seq<MediaKind>, initial: seq<bool>)
      requires |initial| == |kinds|
      ensures this.id == id && this.kinds == kinds && active[..] == initial && videoShown
      ensures Valid() && fresh(active)
    {
      this.id := id;
      this.kinds := kinds;
      active := new bool[|kinds|](i requires 0 <= i < |kinds| => initial[i]);
      videoShown := true;
    }
  }

  /** The first item of kind `k` (`querySelector`), or -1. */
  function FirstOf(kinds: seq<MediaKind>, k: MediaKind): (i: int)
    ensures -1 <= i < |kinds|
    ensures 0 <= i ==> kinds[i] == k && forall j :: 0 <= j < i ==> kinds[j] != k
    ensures i == -1 <==> k !in kinds
  {
    if |kinds| == 0 then -1
    else if kinds[0] == k then 0
    else
      var i := FirstOf(kinds[1..], k);
      if i == -1 then -1 else i + 1
  }

  /** The interval period `startGalleryAutoSlide` picks. */
  function Period(id: string): nat {
    if id == ReviewsId then GalleryInterval else SliderInterval
  }

  /**
   * Gallery '1' does not rotate while its video state says the video has
   * not been played through.
   */
  predicate WaitsForVideo(id: string, videoStates: map<string, VideoState>) {
    id == VideoGalleryId && id in videoStates && !videoStates[id].played
  }

  // ---------------------------------------------------------------------
  // Specification functions: the new flags and maps each operation leaves.

  /** `startGalleryAutoSlide`: the intervals after a (re)start request. */
  function StartedTimers(intervals: map<string, Timer>, videoStates: map<string, VideoState>, id: string, n: nat): map<string, Timer>
  {
    if WaitsForVideo(id, videoStates) || n == 0 then intervals
    else intervals[id := Timer(Period(id), 0)]
  }

  function Restarted(s: VideoState): VideoState {
    s.(played := false, currentTime := 0.0)
  }

  /** `restartVideo`'s flags: the first video alone is active, when there is a video with a state. */
  function RestartFlags(kinds: seq<MediaKind>, a: seq<bool>, hasState: bool): seq<bool>
    requires |a| == |kinds|
  {
    if hasState && FirstOf(kinds, Video) >= 0 then OnlyAt(|kinds|, FirstOf(kinds, Video)) else a
  }

  /** `restartVideo`'s video states. */
  function RestartStates(videoStates: map<string, VideoState>, id: string, kinds: seq<MediaKind>): map<string, VideoState>
  {
    if id in videoStates && FirstOf(kinds, Video) >= 0 then videoStates[id := Restarted(videoStates[id])]
    else videoStates
  }

  /**
   * The flags after one firing of a gallery's interval with counter `c`:
   * slot `c` is cleared and the next slot shown; a video slot restarts the
   * video, an image slot becomes active and takes the `active` class away
   * from the first video.
   */
  function TickFlags(kinds: seq<MediaKind>, a: seq<bool>, c: nat, hasState: bool): (r: seq<bool>)
    requires |a| == |kinds| && c < |kinds|
    ensures |r| == |a|
    ensures kinds[Next(c, |a|)] == Image ==> r[Next(c, |a|)]
    ensures kinds[Next(c, |a|)] == Image && Next(c, |a|) != c ==> !r[c]
    ensures kinds[Next(c, |a|)] == Image ==>
      forall j :: 0 <= j < |a| && j != c && j != Next(c, |a|) && j != FirstOf(kinds, Video) ==> r[j] == a[j]
    ensures kinds[Next(c, |a|)] == Image && FirstOf(kinds, Video) >= 0 ==> !r[FirstOf(kinds, Video)]
    ensures kinds[Next(c, |a|)] == Video && hasState ==> r == OnlyAt(|a|, FirstOf(kinds, Video))
    ensures kinds[Next(c, |a|)] == Video && !hasState ==> r == a[c := false]
  {
    var to := Next(c, |a|);
    var b := a[c := false];
    if kinds[to] == Video then RestartFlags(kinds, b, hasState)
    else
      var v := FirstOf(kinds, Video);
      if v >= 0 then b[to := true][v := false] else b[to := true]
  }

  /** The slot `changeImage` leaves: the first active one, or 0 when none is. */
  function ChangeFrom(a: seq<bool>): (i: nat)
    requires |a| > 0
    ensures i < |a|
    ensures (exists j :: 0 <= j < |a| && a[j]) ==> a[i] && forall j :: 0 <= j < i ==> !a[j]
    ensures (forall j :: 0 <= j < |a| ==> !a[j]) ==> i == 0
  {
    var k := FirstActive(a);
    if k == -1 then 0 else k
  }

  /** The slot `changeImage` moves to: forwards for direction 1, backwards for anything else. */
  function ChangeTo(a: seq<bool>, direction: int): (i: nat)
    requires |a| > 0
    ensures i < |a|
  {
    if direction == 1 then Next(ChangeFrom(a), |a|) else Prev(ChangeFrom(a), |a|)
  }

  /** The flags `changeImage` leaves on a non-empty gallery. */
  function ChangeFlags(kinds: seq<MediaKind>, a: seq<bool>, direction: int, hasState: bool): (r: seq<bool>)
    requires |a| == |kinds| > 0
    ensures |r| == |a|
    ensures kinds[ChangeTo(a, direction)] == Image ==> r == a[ChangeFrom(a) := false][ChangeTo(a, direction) := true]
    ensures kinds[ChangeTo(a, direction)] == Video && hasState ==> r == OnlyAt(|a|, FirstOf(kinds, Video))
    ensures kinds[ChangeTo(a, direction)] == Video && !hasState ==> r == a[ChangeFrom(a) := false]
  {
    var b := a[ChangeFrom(a) := false];
    var to := ChangeTo(a, direction);
    if kinds[to] == Video then RestartFlags(kinds, b, hasState) else b[to := true]
  }

  /** The flags `goToImage` leaves on a non-empty gallery: an index out of range leaves none active. */
  function JumpFlags(kinds: seq<MediaKind>, index: int, hasState: bool): (r: seq<bool>)
    ensures |r| == |kinds|
    ensures !(0 <= index < |kinds|) ==> r == Cleared(|kinds|)
    ensures 0 <= index < |kinds| && kinds[index] == Image ==> r == OnlyAt(|kinds|, index)
    ensures 0 <= index < |kinds| && kinds[index] == Video && hasState ==> r == OnlyAt(|kinds|, FirstOf(kinds, Video))
    ensures 0 <= index < |kinds| && kinds[index] == Video && !hasState ==> r == Cleared(|kinds|)
  {
    var cleared := Cleared(|kinds|);
    if 0 <= index < |kinds| then
      if kinds[index] == Video then RestartFlags(kinds, cleared, hasState) else cleared[index := true]
    else cleared
  }

  // ---------------------------------------------------------------------
  // VideoGalleryManager

  /** The visible fraction of a gallery above which its video is started. */
  const PlayRatio: real := 0.3

  /** How a `play()` attempt of `forcePlayVideo` ends, including its muted retry in `fallbackAutoplay`. */
  datatype PlayOutcome =
    | NoPromise       // `play()` returned undefined: nothing is recorded
    | Played          // the first attempt resolved
    | FallbackPlayed  // it was rejected, and the muted retry resolved
    | FallbackFailed  // both were rejected: a play button is shown instead

  /** The video state after a play attempt settles. */
  function AfterPlay(s: VideoState, outcome: PlayOutcome): (t: VideoState)
    ensures t.played <==> s.played || outcome == Played || outcome == FallbackPlayed
    ensures t.currentTime == s.currentTime && t.isVisible == s.isVisible
  {
    if outcome == Played || outcome == FallbackPlayed then s.(played := true) else s
  }

  /** The video state after the `ended` event. */
  function AfterEnded(s: VideoState): VideoState {
    s.(played := true, currentTime := 0.0)
  }

  /**
   * How the `played` flag gates gallery '1': a restart makes the rotation
   * wait, a failed muted retry keeps it waiting, and the end of the video
   * or a successful play lets the next firing of the interval rotate.
   */
  lemma RotationGate(vs: map<string, VideoState>, s: VideoState)
    ensures WaitsForVideo(VideoGalleryId, vs[VideoGalleryId := Restarted(s)])
    ensures WaitsForVideo(VideoGalleryId, vs[VideoGalleryId := AfterPlay(Restarted(s), FallbackFailed)])
    ensures WaitsForVideo(VideoGalleryId, vs[VideoGalleryId := AfterPlay(Restarted(s), NoPromise)])
    ensures !WaitsForVideo(VideoGalleryId, vs[VideoGalleryId := AfterPlay(s, Played)])
    ensures !WaitsForVideo(VideoGalleryId, vs[VideoGalleryId := AfterPlay(s, FallbackPlayed)])
    ensures !WaitsForVideo(VideoGalleryId, vs[VideoGalleryId := AfterEnded(s)])
    ensures forall id :: id != VideoGalleryId ==> !WaitsForVideo(id, vs)
  {
  }

  /** `setupVideoObservers` for one gallery: a gallery with a video gets a fresh state. */
  method SetupVideoState(st: State, g: Gallery)
    modifies st`videoStates
    ensures Video in g.kinds ==> st.videoStates == old(st.videoStates)[g.id := VideoState(false, 0.0, false)]
    ensures Video !in g.kinds ==> st.videoStates == old(st.videoStates)
  {
    if FirstOf(g.kinds, Video) >= 0 {
      st.videoStates := st.videoStates[g.id := VideoState(false, 0.0, false)];
    }
  }

  /** `restartVideo`: the first video becomes the only active item and its state is reset. */
  method RestartVideo(st: State, g: Gallery)
    requires g.Valid()
    modifies st`videoStates, g.active
    ensures g.active[..] == RestartFlags(g.kinds, old(g.active[..]), g.id in old(st.videoStates))
    ensures st.videoStates == RestartStates(old(st.videoStates), g.id, g.kinds)
  {
    var v := FirstOf(g.kinds, Video);
    if v >= 0 && g.id in st.videoStates {
      st.videoStates := st.videoStates[g.id := Restarted(st.videoStates[g.id])];
      ClearAll(g.active);
      g.active[v] := true;
      assert g.active[..] == OnlyAt(|g.kinds|, v);
    }
  }

  /** The settling of `forcePlayVideo`: only a resolved attempt marks the video as played. */
  method SettlePlay(st: State, id: string, outcome: PlayOutcome)
    modifies st`videoStates
    ensures id in old(st.videoStates) ==> st.videoStates == old(st.videoStates)[id := AfterPlay(old(st.videoStates)[id], outcome)]
    ensures id !in old(st.videoStates) ==> st.videoStates == old(st.videoStates)
  {
    if id in st.videoStates && (outcome == Played || outcome == FallbackPlayed) {
      st.videoStates := st.videoStates[id := st.videoStates[id].(played := true)];
    }
  }

  /**
   * `handleGalleryVisible`: a gallery whose visible fraction `ratio` exceeds
   * `PlayRatio`, with an active video not yet played, starts playing;
   * `outcome` is how that attempt settles.
   */
  method HandleGalleryVisible(st: State, g: Gallery, ratio: real, outcome: PlayOutcome)
    requires g.Valid()
    modifies st`videoStates
    ensures var starts := g.id in old(st.videoStates) && !old(st.videoStates)[g.id].played && ratio > PlayRatio
                          && exists j :: 0 <= j < |g.kinds| && g.kinds[j] == Video && g.active[j];
      st.videoStates == if starts then old(st.videoStates)[g.id := AfterPlay(old(st.videoStates)[g.id], outcome)] else old(st.videoStates)
  {
    if g.id in st.videoStates && !st.videoStates[g.id].played && ratio > PlayRatio {
      var i := 0;
      var activeVideo := false;
      while i < g.active.Length && !activeVideo
        invariant 0 <= i <= g.active.Length
        invariant activeVideo <==> exists j :: 0 <= j < i && g.kinds[j] == Video && g.active[j]
      {
        activeVideo := g.kinds[i] == Video && g.active[i];
        i := i + 1;
      }
      if activeVideo {
        SettlePlay(st, g.id, outcome);
      }
    }
  }

  /** `handleGalleryHidden`: an inactive video is paused and its position remembered. */
  method HandleGalleryHidden(st: State, g: Gallery, position: real)
    requires g.Valid() && Video in g.kinds
    modifies st`videoStates
    ensures g.id in old(st.videoStates) && !g.active[FirstOf(g.kinds, Video)] ==>
      st.videoStates == old(st.videoStates)[g.id := old(st.videoStates)[g.id].(currentTime := position)]
    ensures !(g.id in old(st.videoStates) && !g.active[FirstOf(g.kinds, Video)]) ==> st.videoStates == old(st.videoStates)
  {
    if g.id in st.videoStates && !g.active[FirstOf(g.kinds, Video)] {
      st.videoStates := st.videoStates[g.id := st.videoStates[g.id].(currentTime := position)];
    }
  }

  /** `handleVideoEnded`: the video counts as played and rewinds. */
  method HandleVideoEnded(st: State, id: string)
    modifies st`videoStates
    ensures id in old(st.videoStates) ==> st.videoStates == old(st.videoStates)[id := AfterEnded(old(st.videoStates)[id])]
    ensures id !in old(st.videoStates) ==> st.videoStates == old(st.videoStates)
  {
    if id in st.videoStates {
      st.videoStates := st.videoStates[id := AfterEnded(st.videoStates[id])];
    }
  }

  /**
   * `fallbackToImages` after a video error: the video is hidden and the
   * first image made active (the video keeps its own flag), then the
   * auto-slide is asked to restart, which gallery '1' refuses while its
   * video has not been played.
   */
  method FallbackToImages(st: State, g: Gallery)
    requires g.Valid()
    modifies g`videoShown, g.active, st`galleryIntervals
    ensures Video in g.kinds && Image in g.kinds ==>
      !g.videoShown && g.active[..] == old(g.active[..])[FirstOf(g.kinds, Image) := true]
    ensures !(Video in g.kinds && Image in g.kinds) ==> g.videoShown == old(g.videoShown) && g.active[..] == old(g.active[..])
    ensures st.galleryIntervals == StartedTimers(old(st.galleryIntervals), st.videoStates, g.id, |g.kinds|)
  {
    if FirstOf(g.kinds, Video) >= 0 && FirstOf(g.kinds, Image) >= 0 {
      g.videoShown := false;
      g.active[FirstOf(g.kinds, Image)] := true;
    }
    StartGalleryAutoSlide(st, g);
  }

  // ---------------------------------------------------------------------
  // SliderManager

  /**
   * One firing of the background slideshow's interval. The older script's
   * `initBackgroundSlider` runs the same step, every 10 seconds instead of 8.
   */
  method BackgroundTick(st: State, slides: array<bool>)
    requires slides.Length > 0 && st.currentSlide < slides.Length
    modifies st`currentSlide, slides
    ensures st.currentSlide == Next(old(st.currentSlide), slides.Length)
    ensures slides[..] == old(slides[..])[old(st.currentSlide) := false][st.currentSlide := true]
  {
    slides[st.currentSlide] := false;
    st.currentSlide := Next(st.currentSlide, slides.Length);
    slides[st.currentSlide] := true;
  }

  /**
   * `startGalleryAutoSlide`: gallery '1' waiting for its video returns at
   * once and keeps whatever interval runs; an empty gallery gets none;
   * otherwise the old interval is replaced by one whose counter is 0.
   */
  method StartGalleryAutoSlide(st: State, g: Gallery)
    modifies st`galleryIntervals
    ensures st.galleryIntervals == StartedTimers(old(st.galleryIntervals), st.videoStates, g.id, |g.kinds|)
  {
    if WaitsForVideo(g.id, st.videoStates) {
      return;
    }
    if |g.kinds| == 0 {
      return;
    }
    st.galleryIntervals := st.galleryIntervals[g.id := Timer(Period(g.id), 0)];
  }

  /**
   * `initGallerySliders` and `initReviewsSlider` for one gallery: the
   * reviews carousel and every gallery without a video start rotating on
   * load; a gallery with a video waits.
   */
  method InitGallerySlider(st: State, g: Gallery)
    modifies st`galleryIntervals
    ensures g.id == ReviewsId || Video !in g.kinds ==>
      st.galleryIntervals == StartedTimers(old(st.galleryIntervals), st.videoStates, g.id, |g.kinds|)
    ensures g.id != ReviewsId && Video in g.kinds ==> st.galleryIntervals == old(st.galleryIntervals)
  {
    if g.id == ReviewsId || FirstOf(g.kinds, Video) == -1 {
      StartGalleryAutoSlide(st, g);
    }
  }

  /** One firing of a gallery's auto-slide interval. */
  method GalleryTick(st: State, g: Gallery)
    requires g.Valid() && g.id in st.galleryIntervals && st.galleryIntervals[g.id].counter < |g.kinds|
    modifies st`galleryIntervals, st`videoStates, g.active
    ensures WaitsForVideo(g.id, old(st.videoStates)) ==>
      st.galleryIntervals == old(st.galleryIntervals) && st.videoStates == old(st.videoStates)
      && g.active[..] == old(g.active[..])
    ensures !WaitsForVideo(g.id, old(st.videoStates)) ==>
      var c := old(st.galleryIntervals)[g.id].counter;
      var to := Next(c, |g.kinds|);
      && g.active[..] == TickFlags(g.kinds, old(g.active[..]), c, g.id in old(st.videoStates))
      && st.galleryIntervals == old(st.galleryIntervals)[g.id := old(st.galleryIntervals)[g.id].(counter := to)]
      && st.videoStates == if g.kinds[to] == Video then RestartStates(old(st.videoStates), g.id, g.kinds) else old(st.videoStates)
  {
    if WaitsForVideo(g.id, st.videoStates) {
      return;
    }
    var n := |g.kinds|;
    var timer := st.galleryIntervals[g.id];
    var c := timer.counter;
    ghost var a := g.active[..];
    g.active[c] := false;
    var to := Next(c, n);
    st.galleryIntervals := st.galleryIntervals[g.id := timer.(counter := to)];
    if g.kinds[to] == Video {
      RestartVideo(st, g);
    } else {
      g.active[to] := true;
      var v := FirstOf(g.kinds, Video);
      if v >= 0 && g.active[v] {
        g.active[v] := false;
      }
      assert v >= 0 && !a[c := false][to := true][v] ==> a[c := false][to := true][v := false] == a[c := false][to := true];
    }
  }

  /**
   * `changeImage`: on a non-empty gallery, moves from the first active item
   * (or item 0) one step in `direction`, then asks the auto-slide to restart.
   */
  method ChangeImage(st: State, g: Gallery, direction: int)
    requires g.Valid()
    modifies st`galleryIntervals, st`videoStates, g.active
    ensures |g.kinds| == 0 ==>
      st.galleryIntervals == old(st.galleryIntervals) && st.videoStates == old(st.videoStates) && g.active[..] == old(g.active[..])
    ensures |g.kinds| > 0 ==>
      var to := ChangeTo(old(g.active[..]), direction);
      && g.active[..] == ChangeFlags(g.kinds, old(g.active[..]), direction, g.id in old(st.videoStates))
      && st.videoStates == (if g.kinds[to] == Video then RestartStates(old(st.videoStates), g.id, g.kinds) else old(st.videoStates))
      && st.galleryIntervals == StartedTimers(old(st.galleryIntervals), st.videoStates, g.id, |g.kinds|)
  {
    var n := g.active.Length;
    if n == 0 {
      return;
    }
    ghost var a := g.active[..];
    var from := FirstActive(g.active[..]);
    if from == -1 {
      from := 0;
    }
    g.active[from] := false;
    var to;
    if direction == 1 {
      to := Next(from, n);
    } else {
      to := Prev(from, n);
    }
    assert from == ChangeFrom(a) && to == ChangeTo(a, direction);
    if g.kinds[to] == Video {
      RestartVideo(st, g);
    } else {
      g.active[to] := true;
    }
    StartGalleryAutoSlide(st, g);
  }

  /**
   * `goToImage`: on a non-empty gallery, clears every item and shows item
   * `index` when it exists. For the reviews carousel an index out of range
   * makes the emoji update throw, so the auto-slide is not restarted.
   */
  method GoToImage(st: State, g: Gallery, index: int)
    requires g.Valid()
    modifies st`galleryIntervals, st`videoStates, g.active
    ensures |g.kinds| == 0 ==>
      st.galleryIntervals == old(st.galleryIntervals) && st.videoStates == old(st.videoStates) && g.active[..] == old(g.active[..])
    ensures |g.kinds| > 0 ==>
      && g.active[..] == JumpFlags(g.kinds, index, g.id in old(st.videoStates))
      && st.videoStates == (if 0 <= index < |g.kinds| && g.kinds[index] == Video then RestartStates(old(st.videoStates), g.id, g.kinds) else old(st.videoStates))
      && st.galleryIntervals == if g.id == ReviewsId && !(0 <= index < |g.kinds|) then old(st.galleryIntervals)
                                else StartedTimers(old(st.galleryIntervals), st.videoStates, g.id, |g.kinds|)
  {
    var n := g.active.Length;
    if n == 0 {
      return;
    }
    ClearAll(g.active);
    if 0 <= index < n {
      if g.kinds[index] == Video {
        RestartVideo(st, g);
      } else {
        g.active[index] := true;
      }
    }
    if g.id == ReviewsId && !(0 <= index < n) {
      return;
    }
    StartGalleryAutoSlide(st, g);
  }

  // ---------------------------------------------------------------------
  // Properties of the specification functions.

  /** With one image active and images on both sides, a step forwards and a step back restore it. */
  lemma ChangeRoundTrip(kinds: seq<MediaKind>, i: nat, hasState: bool)
    requires i < |kinds| && kinds[i] == Image && kinds[Next(i, |kinds|)] == Image
    ensures ChangeFlags(kinds, ChangeFlags(kinds, OnlyAt(|kinds|, i), 1, hasState), -1, hasState) == OnlyAt(|kinds|, i)
  {
    var n := |kinds|;
    var a := OnlyAt(n, i);
    assert a[i];
    var j := Next(i, n);
    assert a[i := false][j := true] == OnlyAt(n, j);
    var b := OnlyAt(n, j);
    assert b[j];
    PrevNext(i, n);
    assert b[j := false][i := true] == a;
  }

  /** The wrap-around of the arrows: a step back from item 0 shows the last item. */
  lemma ChangeWraps(kinds: seq<MediaKind>, hasState: bool)
    requires |kinds| > 0 && kinds[|kinds| - 1] == Image
    ensures ChangeFlags(kinds, OnlyAt(|kinds|, 0), -1, hasState) == OnlyAt(|kinds|, |kinds| - 1)
  {
    var n := |kinds|;
    assert OnlyAt(n, 0)[0];
    assert OnlyAt(n, 0)[0 := false][n - 1 := true] == OnlyAt(n, n - 1);
  }

  /**
   * The counter of a restarted interval is 0 whatever item is showing, so a
   * jump to item 2 followed by one firing leaves items 1 and 2 both active:
   * more than one item can be active at a time.
   */
  lemma JumpThenTickShowsTwo(kinds: seq<MediaKind>, hasState: bool)
    requires |kinds| >= 3 && forall j :: 0 <= j < |kinds| ==> kinds[j] == Image
    ensures var r := TickFlags(kinds, JumpFlags(kinds, 2, hasState), 0, hasState);
      r[1] && r[2] && CountActive(r) >= 2
  {
    var r := TickFlags(kinds, JumpFlags(kinds, 2, hasState), 0, hasState);
    assert FirstOf(kinds, Video) == -1;
    TwoActiveCount(r, 1, 2);
  }

  /** A tick onto an image slot from a single active image leaves exactly that next image active. */
  lemma TickMovesSingleImage(kinds: seq<MediaKind>, c: nat, hasState: bool)
    requires c < |kinds| && forall j :: 0 <= j < |kinds| ==> kinds[j] == Image
    ensures TickFlags(kinds, OnlyAt(|kinds|, c), c, hasState) == OnlyAt(|kinds|, Next(c, |kinds|))
  {
    var n := |kinds|;
    assert FirstOf(kinds, Video) == -1;
    assert OnlyAt(n, c)[c := false][Next(c, n) := true] == OnlyAt(n, Next(c, n));
  }

  /** `k` firings of an interval whose counter starts at `c`, with nothing else happening in between. */
  function Ticks(kinds: seq<MediaKind>, a: seq<bool>, c: nat, k: nat, hasState: bool): seq<bool>
    requires |a| == |kinds| && c < |kinds|
    decreases k
  {
    if k == 0 then a else Ticks(kinds, TickFlags(kinds, a, c, hasState), Next(c, |kinds|), k - 1, hasState)
  }

  /** On a gallery of images, `k` firings from the counter's own image show the image `k` steps on. */
  lemma {:induction false} TicksFromSingle(kinds: seq<MediaKind>, c: nat, k: nat, hasState: bool)
    requires c < |kinds| && forall j :: 0 <= j < |kinds| ==> kinds[j] == Image
    ensures Ticks(kinds, OnlyAt(|kinds|, c), c, k, hasState) == OnlyAt(|kinds|, Advance(c, |kinds|, k))
    decreases k
  {
    var n := |kinds|;
    if k > 0 {
      TickMovesSingleImage(kinds, c, hasState);
      TicksFromSingle(kinds, Next(c, n), k - 1, hasState);
      AdvanceSplit(c, n, 1, k - 1);
    }
  }

  /**
   * Left alone, a gallery of `n` images that shows the image its counter
   * points at comes back to that image after `n` firings.
   */
  lemma RotationCycle(kinds: seq<MediaKind>, c: nat, hasState: bool)
    requires c < |kinds| && forall j :: 0 <= j < |kinds| ==> kinds[j] == Image
    ensures Ticks(kinds, OnlyAt(|kinds|, c), c, |kinds|, hasState) == OnlyAt(|kinds|, c)
  {
    TicksFromSingle(kinds, c, |kinds|, hasState);
    FullCycle(c, |kinds|);
  }
}
