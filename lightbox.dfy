/**
 * The photo gallery of the newer front-end script (`GalleryManager`): the
 * catalog loaded from `/gallery-data` into `STATE.galleryData`, and the
 * lightbox that shows one catalog entry at a time with a `i / n` counter.
 *
 * The request itself is asynchronous I/O; its outcome is the `Response`
 * input of `LoadGalleryData`. The grid's HTML (spinner, empty and error
 * notices, thumbnails) is not modelled, only the catalog kept in `STATE`.
 */
module Lightbox {
  import opened Text
  import opened Ring
  import opened Site
  import opened Wrappers

  /** One record of the server's `images` array. */
  datatype ImageRecord = ImageRecord(path: string, alt: string)

  /** How the request for `/gallery-data` ends. */
  datatype Response =
    | Failed                                            // network error or a body that is not JSON
    | Json(success: bool, images: Option<seq<ImageRecord>>)

  const StaticPrefix: string := "/static/"
  const DefaultAlt: string := "Фотография парка"

  /** The lightbox entry built from one record: a missing or empty `alt` falls back to the default. */
  function Entry(rec: ImageRecord): (e: GalleryItem)
    ensures |e.src| >= |StaticPrefix| && e.src[..|StaticPrefix|] == StaticPrefix && e.src[|StaticPrefix|..] == rec.path
    ensures e.alt != ""
    ensures rec.alt != "" ==> e.alt == rec.alt
    ensures rec.alt == "" ==> e.alt == DefaultAlt
  {
    GalleryItem(StaticPrefix + rec.path, if rec.alt == "" then DefaultAlt else rec.alt)
  }

  /** `renderGallery`'s catalog: no array, or an empty one, gives an empty catalog. */
  function Catalog(images: Option<seq<ImageRecord>>): (c: seq<GalleryItem>)
    ensures images.None? ==> c == []
    ensures images.Some? ==> |c| == |images.value| && forall i :: 0 <= i < |c| ==> c[i] == Entry(images.value[i])
  {
    match images
    case None => []
    case Some(recs) => seq(|recs|, i requires 0 <= i < |recs| => Entry(recs[i]))
  }

  /** The lightbox counter, `${index + 1} / ${length}`. */
  function CounterText(index: nat, length: nat): string {
    Decimal(index + 1) + " / " + Decimal(length)
  }

  /** A digit string followed by anything: its first space is after the digits. */
  lemma DigitsBeforeSpace(d: string, rest: string)
    requires forall i :: 0 <= i < |d| ==> IsDigit(d[i])
    ensures forall j :: 0 <= j < |d| ==> (d + rest)[j] != ' '
  {
  }

  /** The counter names the position: two positions show the same counter exactly when they are equal. */
  lemma CounterTextShowsPosition(i: nat, j: nat, n: nat)
    ensures CounterText(i, n) == CounterText(j, n) <==> i == j
  {
    var di, dj, tail := Decimal(i + 1), Decimal(j + 1), " / " + Decimal(n);
    DecimalRoundTrip(i + 1);
    DecimalRoundTrip(j + 1);
    assert CounterText(i, n) == di + tail && CounterText(j, n) == dj + tail;
    DigitsBeforeSpace(di, tail);
    DigitsBeforeSpace(dj, tail);
    assert (di + tail)[|di|] == ' ' && (dj + tail)[|dj|] == ' ';
    if di + tail == dj + tail {
      assert |di| == |dj|;
      assert (di + tail)[..|di|] == di && (dj + tail)[..|dj|] == dj;
      DecimalInjective(i + 1, j + 1);
    }
  }

  /** The keys the lightbox's `keydown` listener distinguishes. */
  datatype Key = Escape | ArrowRight | ArrowLeft | OtherKey

  // ---------------------------------------------------------------------
  // GalleryManager

  /** `renderGallery`: the catalog in `STATE` becomes the rendered records. */
  method RenderGallery(st: State, images: Option<seq<ImageRecord>>)
    modifies st`galleryData
    ensures st.galleryData == Catalog(images)
  {
    if images.None? || |images.value| == 0 {
      st.galleryData := [];
      return;
    }
    st.galleryData := Catalog(images);
  }

  /** `showError`: the catalog is emptied. */
  method ShowError(st: State)
    modifies st`galleryData
    ensures st.galleryData == []
  {
    st.galleryData := [];
  }

  /**
   * `loadGalleryData` once the request settles: a successful response with
   * an `images` array is rendered (an empty array too, since it is truthy);
   * anything else shows the error and empties the catalog.
   */
  method LoadGalleryData(st: State, response: Response)
    modifies st`galleryData
    ensures response.Json? && response.success && response.images.Some? ==> st.galleryData == Catalog(response.images)
    ensures !(response.Json? && response.success && response.images.Some?) ==> st.galleryData == []
  {
    if response.Json? && response.success && response.images.Some? {
      RenderGallery(st, response.images);
    } else {
      ShowError(st);
    }
  }

  /** The lightbox shows the selected catalog entry, its description and its `i / n` counter. */
  predicate ShowsSelected(st: State, page: Page)
    reads st, page
  {
    st.currentMediaIndex < |st.galleryData|
    && page.popupSrc == st.galleryData[st.currentMediaIndex].src
    && page.popupAlt == st.galleryData[st.currentMediaIndex].alt
    && page.popupCounter == CounterText(st.currentMediaIndex, |st.galleryData|)
  }

  /**
   * `updatePopupMedia`: shows the entry at `STATE.currentMediaIndex` and its
   * counter; with no entry there, nothing changes.
   */
  method UpdatePopupMedia(st: State, page: Page)
    modifies page`popupSrc, page`popupAlt, page`popupCounter
    ensures st.currentMediaIndex < |st.galleryData| ==>
      var e := st.galleryData[st.currentMediaIndex];
      page.popupSrc == e.src && page.popupAlt == e.alt
      && page.popupCounter == CounterText(st.currentMediaIndex, |st.galleryData|)
    ensures st.currentMediaIndex >= |st.galleryData| ==>
      page.popupSrc == old(page.popupSrc) && page.popupAlt == old(page.popupAlt) && page.popupCounter == old(page.popupCounter)
  {
    if st.currentMediaIndex >= |st.galleryData| {
      return;
    }
    var e := st.galleryData[st.currentMediaIndex];
    page.popupSrc := e.src;
    page.popupAlt := e.alt;
    page.popupCounter := CounterText(st.currentMediaIndex, |st.galleryData|);
  }

  /** `openMediaPopup`: with a non-empty catalog, selects `index`, shows it and locks the page's scrolling. */
  method OpenMediaPopup(st: State, page: Page, index: nat)
    modifies st`currentMediaIndex, page`popupSrc, page`popupAlt, page`popupCounter, page`popupShown, page`bodyOverflow
    ensures |st.galleryData| == 0 ==>
      st.currentMediaIndex == old(st.currentMediaIndex) && page.popupShown == old(page.popupShown)
      && page.bodyOverflow == old(page.bodyOverflow) && page.popupCounter == old(page.popupCounter)
      && page.popupSrc == old(page.popupSrc) && page.popupAlt == old(page.popupAlt)
    ensures |st.galleryData| > 0 ==> st.currentMediaIndex == index && page.popupShown && page.bodyOverflow == Hidden
    ensures 0 <= index < |st.galleryData| ==>
      page.popupSrc == st.galleryData[index].src && page.popupAlt == st.galleryData[index].alt
      && page.popupCounter == CounterText(index, |st.galleryData|)
    ensures index >= |st.galleryData| ==> unchanged(page`popupSrc, page`popupAlt, page`popupCounter)
  {
    if |st.galleryData| == 0 {
      return;
    }
    st.currentMediaIndex := index;
    UpdatePopupMedia(st, page);
    page.popupShown := true;
    page.bodyOverflow := Hidden;
  }

  /** `closeMediaPopup`: hides the lightbox and releases the page's scrolling. */
  method CloseMediaPopup(page: Page)
    modifies page`popupShown, page`bodyOverflow
    ensures !page.popupShown && page.bodyOverflow == Unset
  {
    page.popupShown := false;
    page.bodyOverflow := Unset;
  }

  /** `nextMedia`: one step forwards through the catalog, wrapping at the end. */
  method NextMedia(st: State, page: Page)
    modifies st`currentMediaIndex, page`popupSrc, page`popupAlt, page`popupCounter
    ensures |st.galleryData| == 0 ==>
      st.currentMediaIndex == old(st.currentMediaIndex) && unchanged(page`popupSrc, page`popupAlt, page`popupCounter)
    ensures |st.galleryData| > 0 ==>
      st.currentMediaIndex == Next(old(st.currentMediaIndex), |st.galleryData|) && ShowsSelected(st, page)
  {
    if |st.galleryData| == 0 {
      return;
    }
    st.currentMediaIndex := Next(st.currentMediaIndex, |st.galleryData|);
    UpdatePopupMedia(st, page);
  }

  /** `prevMedia`: one step backwards through the catalog, wrapping at the start. */
  method PrevMedia(st: State, page: Page)
    modifies st`currentMediaIndex, page`popupSrc, page`popupAlt, page`popupCounter
    ensures |st.galleryData| == 0 ==>
      st.currentMediaIndex == old(st.currentMediaIndex) && unchanged(page`popupSrc, page`popupAlt, page`popupCounter)
    ensures |st.galleryData| > 0 ==>
      st.currentMediaIndex == Prev(old(st.currentMediaIndex), |st.galleryData|) && ShowsSelected(st, page)
  {
    if |st.galleryData| == 0 {
      return;
    }
    st.currentMediaIndex := Prev(st.currentMediaIndex, |st.galleryData|);
    UpdatePopupMedia(st, page);
  }

  /** The lightbox's `keydown` listener: it acts only while the lightbox is shown. */
  method HandlePopupKey(st: State, page: Page, key: Key)
    modifies st`currentMediaIndex, page`popupSrc, page`popupAlt, page`popupCounter, page`popupShown, page`bodyOverflow
    ensures !(old(page.popupShown) && key == Escape) ==>
      page.popupShown == old(page.popupShown) && page.bodyOverflow == old(page.bodyOverflow)
    ensures old(page.popupShown) && key == Escape ==> !page.popupShown && page.bodyOverflow == Unset
    ensures !old(page.popupShown) || key == Escape || key == OtherKey || |st.galleryData| == 0 ==>
      st.currentMediaIndex == old(st.currentMediaIndex) && unchanged(page`popupSrc, page`popupAlt, page`popupCounter)
    ensures old(page.popupShown) && key == ArrowRight && |st.galleryData| > 0 ==>
      st.currentMediaIndex == Next(old(st.currentMediaIndex), |st.galleryData|) && ShowsSelected(st, page)
    ensures old(page.popupShown) && key == ArrowLeft && |st.galleryData| > 0 ==>
      st.currentMediaIndex == Prev(old(st.currentMediaIndex), |st.galleryData|) && ShowsSelected(st, page)
  {
    if !page.popupShown {
      return;
    }
    match key
    case Escape => CloseMediaPopup(page);
    case ArrowRight => NextMedia(st, page);
    case ArrowLeft => PrevMedia(st, page);
    case OtherKey =>
  }

  /**
   * Browsing the lightbox: the left arrow undoes the right arrow, and as
   * many right arrows as there are entries come back to the entry shown
   * first, with the same counter.
   */
  lemma BrowsingWrapsAround(index: nat, n: nat)
    requires index < n
    ensures Prev(Next(index, n), n) == index && Next(Prev(index, n), n) == index
    ensures Advance(index, n, n) == index
    ensures CounterText(Advance(index, n, n), n) == CounterText(index, n)
  {
    PrevNext(index, n);
    NextPrev(index, n);
    FullCycle(index, n);
  }

  /** Every step of the arrows shows a different counter, unless the catalog has a single entry. */
  lemma StepChangesCounter(index: nat, n: nat)
    requires index < n
    ensures CounterText(Next(index, n), n) == CounterText(index, n) <==> n == 1
  {
    CounterTextShowsPosition(Next(index, n), index, n);
  }
}
