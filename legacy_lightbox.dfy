/**
 * The photo gallery of the older front-end script (`GalleryManager` in
 * script.js): a fixed catalog of twelve photos written into the script, and
 * a lightbox over it. The manager keeps the lightbox position in its own
 * `currentMediaIndex` field; the lightbox elements are taken to exist.
 * The lightbox video element is only ever paused here (every entry is an
 * image), which the model leaves out.
 */
module LegacyLightbox {
  import opened Ring
  import opened Site
  import Lightbox

  const PathAlt: string := "Лесная тропа"

  /** The twelve photos, in the order the grid shows them. */
  const Catalog: seq<GalleryItem> := [
    GalleryItem("images/b_1.jpg", "Вид на водопад в парке"),
    GalleryItem("images/b_2.webp", PathAlt),
    GalleryItem("images/ecotropa-4.webp", PathAlt),
    GalleryItem("images/b_3.webp", PathAlt),
    GalleryItem("images/main-vodopad-8.jpg", PathAlt),
    GalleryItem("images/mel-1.webp", PathAlt),
    GalleryItem("images/olen-2.webp", PathAlt),
    GalleryItem("images/orig.jpeg", PathAlt),
    GalleryItem("images/saam-2.webp", PathAlt),
    GalleryItem("images/ecotropa-5.webp", PathAlt),
    GalleryItem("images/most_1.webp", PathAlt),
    GalleryItem("images/saamskaya-derevnya-i-olenya-ferma-1-1.jpg", PathAlt)
  ]

  const CatalogSize: nat := |Catalog|

  class GalleryManager {
    var currentMediaIndex: nat

    constructor ()
      ensures currentMediaIndex == 0
    {
      currentMediaIndex := 0;
    }

    /** The lightbox shows the selected photo, its description and its `i / 12` counter. */
    predicate Shows(page: Page)
      reads this, page
    {
      currentMediaIndex < |Catalog|
      && page.popupSrc == Catalog[currentMediaIndex].src && page.popupAlt == Catalog[currentMediaIndex].alt
      && page.popupCounter == Lightbox.CounterText(currentMediaIndex, CatalogSize)
    }

    /**
     * `updatePopupMedia`: shows the entry at the current index with its
     * counter. With no entry there it throws before changing anything,
     * which `ok` reports.
     */
    method UpdatePopupMedia(page: Page) returns (ok: bool)
      modifies page`popupSrc, page`popupAlt, page`popupCounter
      ensures ok <==> currentMediaIndex < |Catalog|
      ensures ok ==>
        page.popupSrc == Catalog[currentMediaIndex].src && page.popupAlt == Catalog[currentMediaIndex].alt
        && page.popupCounter == Lightbox.CounterText(currentMediaIndex, CatalogSize)
      ensures !ok ==>
        page.popupSrc == old(page.popupSrc) && page.popupAlt == old(page.popupAlt) && page.popupCounter == old(page.popupCounter)
    {
      if currentMediaIndex >= |Catalog| {
        return false;
      }
      var e := Catalog[currentMediaIndex];
      page.popupSrc := e.src;
      page.popupAlt := e.alt;
      page.popupCounter := Lightbox.CounterText(currentMediaIndex, |Catalog|);
      return true;
    }

    /**
     * `openMediaPopup`: stores `index` unchecked, then shows the entry and
     * the lightbox and locks scrolling; an index past the catalog is kept
     * but the lightbox stays as it was.
     */
    method OpenMediaPopup(page: Page, index: nat)
      modifies this, page`popupSrc, page`popupAlt, page`popupCounter, page`popupShown, page`bodyOverflow
      ensures currentMediaIndex == index
      ensures index < CatalogSize ==> page.popupShown && page.bodyOverflow == Hidden && Shows(page)
      ensures index >= CatalogSize ==>
        page.popupShown == old(page.popupShown) && page.bodyOverflow == old(page.bodyOverflow)
        && unchanged(page`popupSrc, page`popupAlt, page`popupCounter)
    {
      currentMediaIndex := index;
      var ok := UpdatePopupMedia(page);
      if !ok {
        return;
      }
      page.popupShown := true;
      page.bodyOverflow := Hidden;
    }

    /** `closeMediaPopup`: hides the lightbox and gives the page `overflow: auto`. */
    method CloseMediaPopup(page: Page)
      modifies page`popupShown, page`bodyOverflow
      ensures !page.popupShown && page.bodyOverflow == Auto
    {
      page.popupShown := false;
      page.bodyOverflow := Auto;
    }

    /** `nextMedia`: one step forwards, wrapping after the twelfth photo. */
    method NextMedia(page: Page)
      modifies this, page`popupSrc, page`popupAlt, page`popupCounter
      ensures currentMediaIndex == Next(old(currentMediaIndex), CatalogSize)
      ensures Shows(page)
    {
      currentMediaIndex := Next(currentMediaIndex, |Catalog|);
      var _ := UpdatePopupMedia(page);
    }

    /** `prevMedia`: one step backwards, wrapping before the first photo. */
    method PrevMedia(page: Page)
      modifies this, page`popupSrc, page`popupAlt, page`popupCounter
      ensures currentMediaIndex == Prev(old(currentMediaIndex), CatalogSize)
      ensures Shows(page)
    {
      currentMediaIndex := Prev(currentMediaIndex, |Catalog|);
      var _ := UpdatePopupMedia(page);
    }

    /** The lightbox's own `keydown` listener: it acts only while the lightbox is shown. */
    method HandlePopupKey(page: Page, key: Lightbox.Key)
      modifies this, page`popupSrc, page`popupAlt, page`popupCounter, page`popupShown, page`bodyOverflow
      ensures !(old(page.popupShown) && key == Lightbox.Escape) ==>
        page.popupShown == old(page.popupShown) && page.bodyOverflow == old(page.bodyOverflow)
      ensures old(page.popupShown) && key == Lightbox.Escape ==> !page.popupShown && page.bodyOverflow == Auto
      ensures !old(page.popupShown) || key == Lightbox.Escape || key == Lightbox.OtherKey ==>
        currentMediaIndex == old(currentMediaIndex) && unchanged(page`popupSrc, page`popupAlt, page`popupCounter)
      ensures old(page.popupShown) && key == Lightbox.ArrowRight ==>
        currentMediaIndex == Next(old(currentMediaIndex), CatalogSize) && Shows(page)
      ensures old(page.popupShown) && key == Lightbox.ArrowLeft ==>
        currentMediaIndex == Prev(old(currentMediaIndex), CatalogSize) && Shows(page)
    {
      if !page.popupShown {
        return;
      }
      match key
      case Escape => CloseMediaPopup(page);
      case ArrowRight => NextMedia(page);
      case ArrowLeft => PrevMedia(page);
      case OtherKey =>
    }
  }

  /**
   * Twelve steps either way through the lightbox come back to the photo
   * shown first, and each step shows a different counter.
   */
  lemma BrowsingCycles(i: nat)
    requires i < CatalogSize
    ensures Advance(i, CatalogSize, CatalogSize) == i
    ensures Prev(Next(i, CatalogSize), CatalogSize) == i
    ensures Lightbox.CounterText(Next(i, CatalogSize), CatalogSize) != Lightbox.CounterText(i, CatalogSize)
  {
    Lightbox.BrowsingWrapsAround(i, CatalogSize);
    Lightbox.StepChangesCounter(i, CatalogSize);
  }
}
