/**
 * The overlays of the older front-end script (script.js): the two modals,
 * the mobile menu, the document's key and click listeners and the header's
 * scroll rule. Opening works as in the newer script; closing gives the page
 * `overflow: auto` instead of clearing it. There is no Escape handling for
 * the menu, and the global Escape only acts while a modal is open.
 */
module LegacyOverlays {
  import opened Site
  import Ring
  import Lightbox
  import Overlays
  import LegacyLightbox

  /** `closeModal`: hides the contact modal and clears the shared flag. */
  method CloseModal(st: State, page: Page)
    modifies st`isModalOpen, page`contactShown, page`bodyOverflow
    ensures !st.isModalOpen && !page.contactShown && page.bodyOverflow == Auto
  {
    page.contactShown := false;
    page.bodyOverflow := Auto;
    st.isModalOpen := false;
  }

  /** `closeTextModal`: hides the text modal and clears the shared flag. */
  method CloseTextModal(st: State, page: Page)
    modifies st`isModalOpen, page`textShown, page`bodyOverflow
    ensures !st.isModalOpen && !page.textShown && page.bodyOverflow == Auto
  {
    page.textShown := false;
    page.bodyOverflow := Auto;
    st.isModalOpen := false;
  }

  method CloseMobileMenu(st: State, page: Page)
    modifies st`isMobileMenuOpen, page`navActive, page`bodyOverflow
    ensures !st.isMobileMenuOpen && !page.navActive && page.bodyOverflow == Auto
  {
    page.navActive := false;
    page.bodyOverflow := Auto;
    st.isMobileMenuOpen := false;
  }

  /** The burger button: opens a closed menu and closes an open one. */
  method ToggleMobileMenu(st: State, page: Page)
    modifies st`isMobileMenuOpen, page`navActive, page`bodyOverflow
    ensures st.isMobileMenuOpen == !old(st.isMobileMenuOpen) && page.navActive == st.isMobileMenuOpen
    ensures page.bodyOverflow == if st.isMobileMenuOpen then Hidden else Auto
  {
    if st.isMobileMenuOpen {
      CloseMobileMenu(st, page);
    } else {
      Overlays.OpenMobileMenu(st, page);
    }
  }

  /**
   * A `keydown` on the document: the lightbox's listener, then the
   * application's, which on Escape closes both modals and the lightbox, but
   * only while a modal is open. The menu ignores keys.
   */
  method PressKey(st: State, page: Page, gm: LegacyLightbox.GalleryManager, key: Lightbox.Key)
    modifies st`isModalOpen, gm, page`contactShown, page`textShown, page`popupShown, page`bodyOverflow
    modifies page`popupSrc, page`popupAlt, page`popupCounter
    ensures key == Lightbox.Escape && old(st.isModalOpen) ==>
      !st.isModalOpen && !page.contactShown && !page.textShown && !page.popupShown && page.bodyOverflow == Auto
    ensures key == Lightbox.Escape && !old(st.isModalOpen) ==>
      !st.isModalOpen && page.contactShown == old(page.contactShown) && page.textShown == old(page.textShown)
      && !page.popupShown && page.bodyOverflow == (if old(page.popupShown) then Auto else old(page.bodyOverflow))
    ensures key != Lightbox.Escape ==>
      st.isModalOpen == old(st.isModalOpen) && page.contactShown == old(page.contactShown)
      && page.textShown == old(page.textShown) && page.popupShown == old(page.popupShown)
      && page.bodyOverflow == old(page.bodyOverflow)
    ensures st.isMobileMenuOpen == old(st.isMobileMenuOpen) && page.navActive == old(page.navActive)
    ensures key == Lightbox.Escape || key == Lightbox.OtherKey || !old(page.popupShown) ==>
      gm.currentMediaIndex == old(gm.currentMediaIndex) && unchanged(page`popupSrc, page`popupAlt, page`popupCounter)
    ensures key == Lightbox.ArrowRight && old(page.popupShown) ==>
      gm.currentMediaIndex == Ring.Next(old(gm.currentMediaIndex), LegacyLightbox.CatalogSize) && gm.Shows(page)
    ensures key == Lightbox.ArrowLeft && old(page.popupShown) ==>
      gm.currentMediaIndex == Ring.Prev(old(gm.currentMediaIndex), LegacyLightbox.CatalogSize) && gm.Shows(page)
  {
    gm.HandlePopupKey(page, key);
    if key == Lightbox.Escape && st.isModalOpen {
      CloseModal(st, page);
      CloseTextModal(st, page);
      gm.CloseMediaPopup(page);
    }
  }

  /**
   * A click that reaches the document; `onBurger` says it landed on the
   * burger button, whose own listener has toggled the menu already and
   * which, unlike in the newer script, lets the click through. A click on
   * the lightbox backdrop first reaches the lightbox's own listener, which
   * closes it; then the menu's listener closes an open
   * menu when the click is outside both the menu and the burger; then
   * `handleOutsideClick` closes the modal whose backdrop was hit. Its call
   * for the lightbox names a function the older script never defines, so
   * that call only throws.
   */
  method Click(st: State, page: Page, gm: LegacyLightbox.GalleryManager, target: Overlays.ClickTarget, onBurger: bool)
    modifies st`isModalOpen, st`isMobileMenuOpen, page`contactShown, page`textShown, page`popupShown, page`navActive, page`bodyOverflow
    ensures var closesMenu := old(st.isMobileMenuOpen) && target != Overlays.InsideMenu && !onBurger;
      && (closesMenu ==> !st.isMobileMenuOpen && !page.navActive)
      && (!closesMenu ==> st.isMobileMenuOpen == old(st.isMobileMenuOpen) && page.navActive == old(page.navActive))
      && (closesMenu || target in {Overlays.ContactBackdrop, Overlays.TextBackdrop, Overlays.PopupBackdrop} ==> page.bodyOverflow == Auto)
      && (!closesMenu && target !in {Overlays.ContactBackdrop, Overlays.TextBackdrop, Overlays.PopupBackdrop} ==>
            page.bodyOverflow == old(page.bodyOverflow))
    ensures page.contactShown == (old(page.contactShown) && target != Overlays.ContactBackdrop)
    ensures page.textShown == (old(page.textShown) && target != Overlays.TextBackdrop)
    ensures page.popupShown == (old(page.popupShown) && target != Overlays.PopupBackdrop)
    ensures st.isModalOpen == (old(st.isModalOpen) && target != Overlays.ContactBackdrop && target != Overlays.TextBackdrop)
  {
    if target == Overlays.PopupBackdrop {
      gm.CloseMediaPopup(page);
    }
    if st.isMobileMenuOpen && target != Overlays.InsideMenu && !onBurger {
      CloseMobileMenu(st, page);
    }
    if target == Overlays.ContactBackdrop {
      CloseModal(st, page);
    }
    if target == Overlays.TextBackdrop {
      CloseTextModal(st, page);
    }
  }

  /** The older header only hides: on a handled scroll event its `scrolled` class is left alone. */
  method OnScroll(h: Overlays.Header, top: int)
    modifies h
    ensures h.classes == old(h.classes).(hidden := Overlays.HeaderFor(old(h.lastScrollTop), top).hidden)
    ensures h.lastScrollTop == top
  {
    var hidden := top > h.lastScrollTop && top > Overlays.ScrollThreshold;
    h.classes := h.classes.(hidden := hidden);
    h.lastScrollTop := top;
  }
}
