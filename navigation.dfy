/**
 * The fixed `Navbar`: a `scrolled` flag driven by the window's scroll position, a
 * mobile menu opened and closed by its button, and navigation links that close the
 * menu and scroll to their section.
 */
module Navigation {

  /** The page must be scrolled strictly further than this many pixels to restyle the bar. */
  const ScrollThreshold: real := 50.0

  /** What `handleScroll` stores for a given `window.scrollY`. */
  function ScrolledAt(offset: real): bool {
    if offset > ScrollThreshold then true else false
  }

  /**
   * The threshold is strict (50 itself is not "scrolled"), offsets past it are, and the
   * flag is monotone: scrolling further down never clears it.
   */
  lemma ScrolledThreshold(a: real, b: real)
    ensures !ScrolledAt(ScrollThreshold)
    ensures a <= ScrollThreshold ==> !ScrolledAt(a)
    ensures a > ScrollThreshold ==> ScrolledAt(a)
    ensures a <= b && ScrolledAt(a) ==> ScrolledAt(b)
  {
  }

  /** The navbar component's state slots and its scroll listener, as fields. */
  class Navbar {
    /** The `isMenuOpen` state slot. */
    var isMenuOpen: bool
    /** The `scrolled` state slot. */
    var scrolled: bool
    /** Whether the window scroll listener is registered. */
    var listening: bool

    /** Mount: menu closed, bar not scrolled, scroll listener registered. */
    constructor()
      ensures !isMenuOpen && !scrolled && listening
    {
      isMenuOpen := false;
      scrolled := false;
      listening := true;
    }

    /** `handleScroll` for the current `window.scrollY`; only `scrolled` changes. */
    method HandleScroll(offset: real)
      requires listening
      modifies this`scrolled
      ensures scrolled == ScrolledAt(offset)
    {
      if offset > ScrollThreshold {
        scrolled := true;
      } else {
        scrolled := false;
      }
    }

    /** The mobile menu button, `setIsMenuOpen(!isMenuOpen)`; only the menu changes. */
    method ToggleMenu()
      modifies this`isMenuOpen
      ensures isMenuOpen == !old(isMenuOpen)
    {
      isMenuOpen := !isMenuOpen;
    }

    /**
     * `scrollToSection(href)`. The menu is closed first, whether or not an element
     * matches `href`; `targetFound` says whether `document.querySelector(href)` found
     * one, and `scrollsIntoView` whether `scrollIntoView` is then called.
     */
    method ScrollToSection(targetFound: bool) returns (scrollsIntoView: bool)
      modifies this`isMenuOpen
      ensures !isMenuOpen
      ensures scrollsIntoView == targetFound
    {
      isMenuOpen := false;
      scrollsIntoView := targetFound;
    }

    /** Unmount: the effect's cleanup removes the scroll listener. */
    method Unmount()
      modifies this`listening
      ensures !listening
    {
      listening := false;
    }
  }

  /** Two presses of the menu button restore the menu. */
  method ToggleTwice(nav: Navbar)
    modifies nav`isMenuOpen
    ensures nav.isMenuOpen == old(nav.isMenuOpen)
  {
    nav.ToggleMenu();
    nav.ToggleMenu();
  }

  /** Scrolling to exactly 50 pixels leaves the bar transparent; a link closes an open menu. */
  method NavbarScenario()
  {
    var nav := new Navbar();
    nav.HandleScroll(120.0);
    assert nav.scrolled;
    nav.HandleScroll(50.0);
    assert !nav.scrolled;
    nav.ToggleMenu();
    assert nav.isMenuOpen && !nav.scrolled;
    var moved := nav.ScrollToSection(false);
    assert !nav.isMenuOpen && !moved;
    nav.Unmount();
  }
}
