/**
 * The shared state of the front-end scripts: the `STATE` object of the newer
 * script (static/js/script.js), which its managers update in place, and the
 * handful of page elements whose visible state the managers of both scripts
 * switch.
 */
module Site {

  /** Per-gallery video bookkeeping kept in `STATE.videoStates`. */
  datatype VideoState = VideoState(played: bool, currentTime: real, isVisible: bool)

  /**
   * A live auto-slide interval, kept in `STATE.galleryIntervals`: its period
   * in milliseconds and the value of its closure's `currentMedia` counter.
   */
  datatype Timer = Timer(period: nat, counter: nat)

  /** One lightbox entry built by `renderGallery` (its `type` is always `'image'`). */
  datatype GalleryItem = GalleryItem(src: string, alt: string)

  /**
   * `document.body.style.overflow`: `'hidden'` while an overlay is open;
   * closing one writes `''` in the newer script and `'auto'` in the older.
   */
  datatype Overflow = Hidden | Unset | Auto

  /** The `STATE` object. Its unused `scrollPosition` is not modelled. */
  class State {
    var currentSlide: nat
    var galleryIntervals: map<string, Timer>
    var isModalOpen: bool
    var isMobileMenuOpen: bool
    var videoStates: map<string, VideoState>
    var currentMediaIndex: nat
    var galleryData: seq<GalleryItem>

    /** The initial `STATE`. */
    constructor ()
      ensures currentSlide == 0 && galleryIntervals == map[] && videoStates == map[]
      ensures !isModalOpen && !isMobileMenuOpen
      ensures currentMediaIndex == 0 && galleryData == []
    {
      currentSlide := 0;
      galleryIntervals := map[];
      isModalOpen := false;
      isMobileMenuOpen := false;
      videoStates := map[];
      currentMediaIndex := 0;
      galleryData := [];
    }
  }

  /**
   * The visible state of the page elements the managers switch: the two
   * modals and the lightbox (shown or not), the body's overflow, the
   * `active` class of the navigation and burger button (always switched
   * together), the text modal's title and body, the lightbox's image and
   * counter text.
   */
  class Page {
    var contactShown: bool
    var textShown: bool
    var popupShown: bool
    var bodyOverflow: Overflow
    var navActive: bool
    var textTitle: string
    var textBody: string
    var popupSrc: string
    var popupAlt: string
    var popupCounter: string

    /** The page as loaded: nothing open. */
    constructor ()
      ensures !contactShown && !textShown && !popupShown && !navActive
      ensures bodyOverflow == Unset && textTitle == "" && textBody == ""
      ensures popupSrc == "" && popupAlt == "" && popupCounter == ""
    {
      contactShown := false;
      textShown := false;
      popupShown := false;
      bodyOverflow := Unset;
      navActive := false;
      textTitle := "";
      textBody := "";
      popupSrc := "";
      popupAlt := "";
      popupCounter := "";
    }
  }
}
