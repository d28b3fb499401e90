/**
 * The carousels of the older front-end script (script.js): each
 * `[data-gallery]` holds images only, and every step moves the image's and
 * the dot's `active` class together. The dots are looked up separately,
 * among the gallery's parent's `.dot` elements, and their number is never
 * compared with the number of images.
 *
 * The older script guards nothing: an index with no image or no dot behind
 * it makes the step throw a `TypeError` part-way. A step that throws is
 * modelled as leaving the flags as they were at the throw and the rest of
 * the step undone. The reviews' random emoji is not modelled.
 */
module LegacySlider {
  import opened Ring
  import opened Flags
  import opened Site

  /** `CONFIG.sliderInterval` of the older script: the background and the photo galleries. */
  const SliderInterval: nat := 10000
  /** `CONFIG.galleryInterval` of the older script: the reviews carousel. */
  const GalleryInterval: nat := 3000

  const ReviewsId: string := "reviews"

  function Period(id: string): nat {
    if id == ReviewsId then GalleryInterval else SliderInterval
  }

  /** One carousel: the `active` flags of its images and of the dots beside it. */
  class Gallery {
    const id: string
    const images: array<bool>
    const dots: array<bool>

    /** The images and the dots are different elements. */
    predicate Valid()
      reads this
    {
      images != dots
    }

    /** One dot per image, and every dot is active exactly when its image is. */
    predicate InStep()
      reads this, images, dots
    {
      images[..] == dots[..]
    }

    constructor (id: string, initialImages: seq<bool>, initialDots: seq<bool>)
      ensures this.id == id && images[..] == initialImages && dots[..] == initialDots
      ensures Valid() && fresh(images) && fresh(dots)
    {
      this.id := id;
      images := new bool[|initialImages|](i requires 0 <= i < |initialImages| => initialImages[i]);
      dots := new bool[|initialDots|](i requires 0 <= i < |initialDots| => initialDots[i]);
    }
  }

  /** `startGalleryAutoSlide`: the gallery's interval is replaced by one whose counter is 0, without any guard. */
  method StartGalleryAutoSlide(st: State, g: Gallery)
    modifies st`galleryIntervals
    ensures st.galleryIntervals == old(st.galleryIntervals)[g.id := Timer(Period(g.id), 0)]
  {
    st.galleryIntervals := st.galleryIntervals[g.id := Timer(Period(g.id), 0)];
  }

  /**
   * One firing of a gallery's interval: image and dot `c` lose `active`, the
   * counter moves on and the next image and dot gain it. With no image at
   * the counter (an empty gallery) the first access throws; with no dot at
   * `c` the step throws once the image is cleared; with no dot at the next
   * index it throws once the counter has moved and the next image is shown.
   */
  method GalleryTick(st: State, g: Gallery)
    requires g.Valid() && g.id in st.galleryIntervals
    modifies st`galleryIntervals, g.images, g.dots
    ensures var c := old(st.galleryIntervals)[g.id].counter;
      c >= g.images.Length ==>
        st.galleryIntervals == old(st.galleryIntervals) && g.images[..] == old(g.images[..]) && g.dots[..] == old(g.dots[..])
    ensures var c := old(st.galleryIntervals)[g.id].counter;
      c < g.images.Length && c >= g.dots.Length ==>
        st.galleryIntervals == old(st.galleryIntervals) && g.images[..] == old(g.images[..])[c := false] && g.dots[..] == old(g.dots[..])
    ensures var c := old(st.galleryIntervals)[g.id].counter;
      c < g.images.Length && c < g.dots.Length ==>
        var to := Next(c, g.images.Length);
        && st.galleryIntervals == old(st.galleryIntervals)[g.id := old(st.galleryIntervals)[g.id].(counter := to)]
        && g.images[..] == old(g.images[..])[c := false][to := true]
        && (to < g.dots.Length ==> g.dots[..] == old(g.dots[..])[c := false][to := true])
        && (to >= g.dots.Length ==> g.dots[..] == old(g.dots[..])[c := false])
    ensures old(g.InStep()) ==> g.InStep()
  {
    var timer := st.galleryIntervals[g.id];
    var c := timer.counter;
    if c >= g.images.Length {
      return;
    }
    g.images[c] := false;
    if c >= g.dots.Length {
      return;
    }
    g.dots[c] := false;
    var to := Next(c, g.images.Length);
    st.galleryIntervals := st.galleryIntervals[g.id := timer.(counter := to)];
    g.images[to] := true;
    if to >= g.dots.Length {
      return;
    }
    g.dots[to] := true;
  }

  /**
   * `changeImage`: moves from the first active image one step in
   * `direction` (forwards for 1, backwards otherwise), dot included, and
   * restarts the interval. With no active image `findIndex` gives -1 and
   * the step throws before changing anything; a missing dot throws after
   * the image beside it has changed, before the restart.
   */
  method ChangeImage(st: State, g: Gallery, direction: int)
    requires g.Valid()
    modifies st`galleryIntervals, g.images, g.dots
    ensures FirstActive(old(g.images[..])) == -1 ==>
      st.galleryIntervals == old(st.galleryIntervals) && g.images[..] == old(g.images[..]) && g.dots[..] == old(g.dots[..])
    ensures FirstActive(old(g.images[..])) >= g.dots.Length ==>
      var from := FirstActive(old(g.images[..]));
      st.galleryIntervals == old(st.galleryIntervals) && g.images[..] == old(g.images[..])[from := false] && g.dots[..] == old(g.dots[..])
    ensures 0 <= FirstActive(old(g.images[..])) < g.dots.Length ==>
      var from := FirstActive(old(g.images[..]));
      var to := if direction == 1 then Next(from, g.images.Length) else Prev(from, g.images.Length);
      && g.images[..] == old(g.images[..])[from := false][to := true]
      && (to < g.dots.Length ==>
            g.dots[..] == old(g.dots[..])[from := false][to := true]
            && st.galleryIntervals == old(st.galleryIntervals)[g.id := Timer(Period(g.id), 0)])
      && (to >= g.dots.Length ==>
            g.dots[..] == old(g.dots[..])[from := false] && st.galleryIntervals == old(st.galleryIntervals))
    ensures old(g.InStep()) ==> g.InStep()
  {
    var from := FirstActive(g.images[..]);
    if from == -1 {
      return;
    }
    var n := g.images.Length;
    g.images[from] := false;
    if from >= g.dots.Length {
      return;
    }
    g.dots[from] := false;
    var to;
    if direction == 1 {
      to := Next(from, n);
    } else {
      to := Prev(from, n);
    }
    g.images[to] := true;
    if to >= g.dots.Length {
      return;
    }
    g.dots[to] := true;
    StartGalleryAutoSlide(st, g);
  }

  /**
   * `goToImage`: clears every image and dot, then shows image and dot
   * `index` and restarts the interval. An index with no image behind it
   * throws once everything is cleared; one with an image but no dot throws
   * once the image is shown.
   */
  method GoToImage(st: State, g: Gallery, index: int)
    requires g.Valid()
    modifies st`galleryIntervals, g.images, g.dots
    ensures 0 <= index < g.images.Length && index < g.dots.Length ==>
      && g.images[..] == OnlyAt(g.images.Length, index) && g.dots[..] == OnlyAt(g.dots.Length, index)
      && st.galleryIntervals == old(st.galleryIntervals)[g.id := Timer(Period(g.id), 0)]
    ensures 0 <= index < g.images.Length && index >= g.dots.Length ==>
      && g.images[..] == OnlyAt(g.images.Length, index) && g.dots[..] == Cleared(g.dots.Length)
      && st.galleryIntervals == old(st.galleryIntervals)
    ensures !(0 <= index < g.images.Length) ==>
      && g.images[..] == Cleared(g.images.Length) && g.dots[..] == Cleared(g.dots.Length)
      && st.galleryIntervals == old(st.galleryIntervals)
    ensures g.images.Length == g.dots.Length ==> g.InStep()
  {
    ClearAll(g.images);
    ClearAll(g.dots);
    if !(0 <= index < g.images.Length) {
      return;
    }
    g.images[index] := true;
    assert g.images[..] == OnlyAt(g.images.Length, index);
    if index >= g.dots.Length {
      return;
    }
    g.dots[index] := true;
    assert g.dots[..] == OnlyAt(g.dots.Length, index);
    StartGalleryAutoSlide(st, g);
  }

  /**
   * A step that starts from the single active image, as the interval's
   * firing does while its counter points at that image, leaves exactly one
   * image active.
   */
  lemma StepKeepsOneActive(n: nat, from: nat, to: nat)
    requires from < n && to < n
    ensures OnlyAt(n, from)[from := false][to := true] == OnlyAt(n, to)
    ensures CountActive(OnlyAt(n, from)[from := false][to := true]) == 1
  {
    assert OnlyAt(n, from)[from := false][to := true] == OnlyAt(n, to);
    OnlyAtCountsOne(n, to);
  }

  /** From a single active image, a step of the arrows forwards and one back restore it. */
  lemma ArrowsRoundTrip(n: nat, i: nat)
    requires i < n
    ensures var j := Next(i, n);
      OnlyAt(n, i)[i := false][j := true][j := false][Prev(j, n) := true] == OnlyAt(n, i)
    ensures FirstActive(OnlyAt(n, i)) == i
  {
    var j := Next(i, n);
    PrevNext(i, n);
    assert OnlyAt(n, i)[i := false][j := true] == OnlyAt(n, j);
    assert OnlyAt(n, j)[j := false][i := true] == OnlyAt(n, i);
    assert OnlyAt(n, i)[i];
  }

  /**
   * The restart resets the counter to 0 but not the images: after a jump
   * to image 2 the next firing clears image 0 and shows image 1, so images
   * 1 and 2 are both active, dots included.
   */
  lemma JumpThenTickShowsTwo(n: nat)
    requires n >= 3
    ensures var after := OnlyAt(n, 2)[0 := false][Next(0, n) := true];
      after[1] && after[2] && CountActive(after) >= 2
  {
    var after := OnlyAt(n, 2)[0 := false][Next(0, n) := true];
    TwoActiveCount(after, 1, 2);
  }
}
