/**
 * The overlays of the newer front-end script: the contact and text modals
 * (`ModalManager`), the mobile menu (`MobileMenuManager`), the document-wide
 * Escape key and click listeners that close them, and the header's scroll
 * classes (`NavigationManager.setupScrollHeader`).
 *
 * The page elements are taken to exist (the managers only wire their
 * listeners when they do). The two modals share one `STATE.isModalOpen`
 * flag, and every overlay writes the body's overflow on its own.
 */
module Overlays {
  import opened Site
  import Ring
  import Lightbox

  // ---------------------------------------------------------------------
  // ModalManager

  /** At most one modal is shown, and `STATE.isModalOpen` says whether one is. */
  predicate ModalsConsistent(st: State, page: Page)
    reads st, page
  {
    (st.isModalOpen <==> page.contactShown || page.textShown) && !(page.contactShown && page.textShown)
  }

  /** `openModal`: refused while any modal is open; otherwise shows the contact modal and locks scrolling. */
  method OpenModal(st: State, page: Page)
    modifies st`isModalOpen, page`contactShown, page`bodyOverflow
    ensures old(st.isModalOpen) ==> st.isModalOpen && page.contactShown == old(page.contactShown) && page.bodyOverflow == old(page.bodyOverflow)
    ensures !old(st.isModalOpen) ==> st.isModalOpen && page.contactShown && page.bodyOverflow == Hidden
    ensures old(ModalsConsistent(st, page)) ==> ModalsConsistent(st, page)
  {
    if st.isModalOpen {
      return;
    }
    page.contactShown := true;
    page.bodyOverflow := Hidden;
    st.isModalOpen := true;
  }

  /** `closeModal`: hides the contact modal, releases scrolling and clears the shared flag. */
  method CloseModal(st: State, page: Page)
    modifies st`isModalOpen, page`contactShown, page`bodyOverflow
    ensures !st.isModalOpen && !page.contactShown && page.bodyOverflow == Unset
  {
    page.contactShown := false;
    page.bodyOverflow := Unset;
    st.isModalOpen := false;
  }

  /** `openTextModal`: refused while any modal is open; otherwise fills and shows the text modal. */
  method OpenTextModal(st: State, page: Page, title: string, text: string)
    modifies st`isModalOpen, page`textShown, page`textTitle, page`textBody, page`bodyOverflow
    ensures old(st.isModalOpen) ==>
      st.isModalOpen && page.textShown == old(page.textShown) && page.bodyOverflow == old(page.bodyOverflow)
      && page.textTitle == old(page.textTitle) && page.textBody == old(page.textBody)
    ensures !old(st.isModalOpen) ==>
      st.isModalOpen && page.textShown && page.bodyOverflow == Hidden && page.textTitle == title && page.textBody == text
    ensures old(ModalsConsistent(st, page)) ==> ModalsConsistent(st, page)
  {
    if st.isModalOpen {
      return;
    }
    page.textTitle := title;
    page.textBody := text;
    page.textShown := true;
    page.bodyOverflow := Hidden;
    st.isModalOpen := true;
  }

  /** `closeTextModal`: hides the text modal, releases scrolling and clears the shared flag. */
  method CloseTextModal(st: State, page: Page)
    modifies st`isModalOpen, page`textShown, page`bodyOverflow
    ensures !st.isModalOpen && !page.textShown && page.bodyOverflow == Unset
  {
    page.textShown := false;
    page.bodyOverflow := Unset;
    st.isModalOpen := false;
  }

  // ---------------------------------------------------------------------
  // MobileMenuManager

  method OpenMobileMenu(st: State, page: Page)
    modifies st`isMobileMenuOpen, page`navActive, page`bodyOverflow
    ensures st.isMobileMenuOpen && page.navActive && page.bodyOverflow == Hidden
  {
    page.navActive := true;
    page.bodyOverflow := Hidden;
    st.isMobileMenuOpen := true;
  }

  method CloseMobileMenu(st: State, page: Page)
    modifies st`isMobileMenuOpen, page`navActive, page`bodyOverflow
    ensures !st.isMobileMenuOpen && !page.navActive && page.bodyOverflow == Unset
  {
    page.navActive := false;
    page.bodyOverflow := Unset;
    st.isMobileMenuOpen := false;
  }

  /** The burger button: opens a closed menu and closes an open one. */
  method ToggleMobileMenu(st: State, page: Page)
    modifies st`isMobileMenuOpen, page`navActive, page`bodyOverflow
    ensures st.isMobileMenuOpen == !old(st.isMobileMenuOpen) && page.navActive == st.isMobileMenuOpen
    ensures page.bodyOverflow == if st.isMobileMenuOpen then Hidden else Unset
  {
    if st.isMobileMenuOpen {
      CloseMobileMenu(st, page);
    } else {
      OpenMobileMenu(st, page);
    }
  }

  /** `closeAllModals`: both modals, the lightbox and the menu are closed. */
  method CloseAllModals(st: State, page: Page)
    modifies st`isModalOpen, st`isMobileMenuOpen, page`contactShown, page`textShown, page`popupShown, page`navActive, page`bodyOverflow
    ensures !st.isModalOpen && !st.isMobileMenuOpen
    ensures !page.contactShown && !page.textShown && !page.popupShown && !page.navActive && page.bodyOverflow == Unset
  {
    CloseModal(st, page);
    CloseTextModal(st, page);
    Lightbox.CloseMediaPopup(page);
    CloseMobileMenu(st, page);
  }

  // ---------------------------------------------------------------------
  // Document-wide listeners

  /**
   * A `keydown` on the document runs, in the order they were added, the
   * menu's listener (Escape closes an open menu), the modals' listener
   * (Escape closes everything) and the lightbox's listener.
   */
  method PressKey(st: State, page: Page, key: Lightbox.Key)
    modifies st`isModalOpen, st`isMobileMenuOpen, st`currentMediaIndex
    modifies page`contactShown, page`textShown, page`popupShown, page`navActive, page`bodyOverflow
    modifies page`popupSrc, page`popupAlt, page`popupCounter
    ensures key == Lightbox.Escape ==>
      !st.isModalOpen && !st.isMobileMenuOpen && !page.contactShown && !page.textShown && !page.popupShown
      && !page.navActive && page.bodyOverflow == Unset
    ensures key != Lightbox.Escape ==>
      st.isModalOpen == old(st.isModalOpen) && st.isMobileMenuOpen == old(st.isMobileMenuOpen)
      && page.contactShown == old(page.contactShown) && page.textShown == old(page.textShown)
      && page.popupShown == old(page.popupShown) && page.navActive == old(page.navActive)
      && page.bodyOverflow == old(page.bodyOverflow)
    ensures key == Lightbox.Escape || key == Lightbox.OtherKey || !old(page.popupShown) || |st.galleryData| == 0 ==>
      st.currentMediaIndex == old(st.currentMediaIndex) && unchanged(page`popupSrc, page`popupAlt, page`popupCounter)
    ensures key == Lightbox.ArrowRight && old(page.popupShown) && |st.galleryData| > 0 ==>
      st.currentMediaIndex == Ring.Next(old(st.currentMediaIndex), |st.galleryData|) && Lightbox.ShowsSelected(st, page)
    ensures key == Lightbox.ArrowLeft && old(page.popupShown) && |st.galleryData| > 0 ==>
      st.currentMediaIndex == Ring.Prev(old(st.currentMediaIndex), |st.galleryData|) && Lightbox.ShowsSelected(st, page)
  {
    if key == Lightbox.Escape && st.isMobileMenuOpen {
      CloseMobileMenu(st, page);
    }
    if key == Lightbox.Escape {
      CloseAllModals(st, page);
    }
    Lightbox.HandlePopupKey(st, page, key);
  }

  /** Where a click on the page lands, as the document's click listeners tell it apart. */
  datatype ClickTarget =
    | ContactBackdrop   // the contact modal's overlay itself
    | TextBackdrop      // the text modal's overlay itself
    | PopupBackdrop     // the lightbox's overlay itself
    | InsideMenu        // the navigation or anything inside it
    | Elsewhere

  /**
   * A click that reaches the document (the burger button stops its own).
   * A click on the lightbox backdrop first reaches the lightbox's own
   * listener, which closes it; then the menu's listener closes an open menu
   * when the click is outside it, and `handleOutsideClick` closes the
   * overlay whose backdrop was hit (the lightbox a second time).
   */
  method Click(st: State, page: Page, target: ClickTarget)
    modifies st`isModalOpen, st`isMobileMenuOpen, page`contactShown, page`textShown, page`popupShown, page`navActive, page`bodyOverflow
    ensures old(st.isMobileMenuOpen) && target != InsideMenu ==> !st.isMobileMenuOpen && !page.navActive
    ensures !(old(st.isMobileMenuOpen) && target != InsideMenu) ==>
      st.isMobileMenuOpen == old(st.isMobileMenuOpen) && page.navActive == old(page.navActive)
    ensures page.contactShown == (old(page.contactShown) && target != ContactBackdrop)
    ensures page.textShown == (old(page.textShown) && target != TextBackdrop)
    ensures page.popupShown == (old(page.popupShown) && target != PopupBackdrop)
    ensures st.isModalOpen == (old(st.isModalOpen) && target != ContactBackdrop && target != TextBackdrop)
    ensures (old(st.isMobileMenuOpen) && target != InsideMenu) || target == ContactBackdrop || target == TextBackdrop || target == PopupBackdrop ==>
      page.bodyOverflow == Unset
    ensures !(old(st.isMobileMenuOpen) && target != InsideMenu) && target != ContactBackdrop && target != TextBackdrop && target != PopupBackdrop ==>
      page.bodyOverflow == old(page.bodyOverflow)
    ensures (old(ModalsConsistent(st, page)) && (target == ContactBackdrop ==> old(page.contactShown))
             && (target == TextBackdrop ==> old(page.textShown))) ==> ModalsConsistent(st, page)
  {
    if st.isMobileMenuOpen && target != InsideMenu {
      CloseMobileMenu(st, page);
    }
    if target == ContactBackdrop {
      CloseModal(st, page);
    }
    if target == TextBackdrop {
      CloseTextModal(st, page);
    }
    if target == PopupBackdrop {
      Lightbox.CloseMediaPopup(page);
    }
  }

  // ---------------------------------------------------------------------
  // NavigationManager.setupScrollHeader

  /** The header's classes after a handled scroll event. */
  datatype HeaderClasses = HeaderClasses(scrolled: bool, hidden: bool)

  /** The scroll offset past which the header gets its background and may hide. */
  const ScrollThreshold: int := 100

  /**
   * The classes for a scroll to `top` from `last`: a background past the
   * threshold, and hidden only while moving down past it.
   */
  function HeaderFor(last: int, top: int): (h: HeaderClasses)
    ensures h.scrolled <==> top > ScrollThreshold
    ensures h.hidden <==> top > last && top > ScrollThreshold
    ensures h.hidden ==> h.scrolled
  {
    HeaderClasses(top > ScrollThreshold, top > last && top > ScrollThreshold)
  }

  /** The header and the `lastScrollTop` its scroll listener keeps. */
  class Header {
    var lastScrollTop: int
    var classes: HeaderClasses

    constructor ()
      ensures lastScrollTop == 0 && classes == HeaderClasses(false, false)
    {
      lastScrollTop := 0;
      classes := HeaderClasses(false, false);
    }

    /** One handled scroll event. */
    method OnScroll(top: int)
      modifies this
      ensures classes == HeaderFor(old(lastScrollTop), top) && lastScrollTop == top
    {
      var scrolled := top > ScrollThreshold;
      var hidden := top > lastScrollTop && top > ScrollThreshold;
      classes := HeaderClasses(scrolled, hidden);
      lastScrollTop := top;
    }
  }
}
