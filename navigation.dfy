/** The navigation chrome of `App`: the bar that appears once the page is
    scrolled past the hero, the mobile menu toggle, and `scrollTo`, which
    jumps to a page section by its element id. */
module Navigation {

  /** Scroll offset, in CSS pixels, past which the navigation bar shows. */
  const ShowNavThreshold: real := 100.0

  /** The labels of the navigation buttons; each targets the section whose id
      is the label in lower case. */
  const NavLabels: seq<string> := ["Home", "About", "Gallery", "Contact"]

  /** The ids of the page sections rendered by `App`. */
  const SectionIds: set<string> := {"home", "about", "gallery", "contact"}

  /** The bar is shown exactly when the page is scrolled strictly past the threshold. */
  predicate NavVisible(scrollY: real) {
    scrollY > ShowNavThreshold
  }

  /** `toLowerCase` on one character, for the ASCII letters the labels use. */
  function LowerChar(ch: char): (r: char)
    ensures 'A' <= ch <= 'Z' ==> 'a' <= r <= 'z' && r as int - ch as int == 'a' as int - 'A' as int
    ensures !('A' <= ch <= 'Z') ==> r == ch
  {
    if 'A' <= ch <= 'Z' then (ch as int - 'A' as int + 'a' as int) as char else ch
  }

  /** `toLowerCase` on a string of ASCII characters. */
  function LowerAscii(s: string): (r: string)
    ensures |r| == |s|
    ensures forall i :: 0 <= i < |s| ==> r[i] == LowerChar(s[i])
  {
    if s == [] then [] else [LowerChar(s[0])] + LowerAscii(s[1..])
  }

  /** Every navigation button targets a section that exists on the page. */
  lemma NavTargetsExist()
    ensures forall k :: 0 <= k < |NavLabels| ==> LowerAscii(NavLabels[k]) in SectionIds
  {
    LowersTo("Home", "home");
    LowersTo("About", "about");
    LowersTo("Gallery", "gallery");
    LowersTo("Contact", "contact");
  }

  /** `text` lower-cases to `lower`, checked character by character. */
  lemma LowersTo(text: string, lower: string)
    requires |text| == |lower|
    requires forall i :: 0 <= i < |text| ==> LowerChar(text[i]) == lower[i]
    ensures LowerAscii(text) == lower
  {
  }

  /** The state `App` keeps for its chrome. `documentIds` stands for the ids of
      the elements present in the document, which `getElementById` looks up. */
  class App {
    const documentIds: set<string>
    var activeSection: string
    var menuOpen: bool
    var scrollY: real
    var showNav: bool

    ghost predicate Valid()
      reads this
    {
      && SectionIds <= documentIds
      && showNav == NavVisible(scrollY)
    }

    constructor (documentIds: set<string>)
      requires SectionIds <= documentIds
      ensures Valid()
      ensures this.documentIds == documentIds
      ensures activeSection == "home" && !menuOpen && scrollY == 0.0 && !showNav
    {
      this.documentIds := documentIds;
      activeSection := "home";
      menuOpen := false;
      scrollY := 0.0;
      showNav := false;
    }

    /** The window's scroll listener, called with the new `window.scrollY`. */
    method HandleScroll(y: real)
      requires Valid()
      modifies this
      ensures Valid()
      ensures scrollY == y && showNav == (y > ShowNavThreshold)
      ensures activeSection == old(activeSection) && menuOpen == old(menuOpen)
    {
      scrollY := y;
      showNav := y > ShowNavThreshold;
    }

    /** The mobile menu button flips the menu. The hidden bar takes no mouse
        clicks, but the button can still be reached from the keyboard, so the
        handler can run in any state. */
    method ToggleMenu()
      requires Valid()
      modifies this
      ensures Valid()
      ensures menuOpen == !old(menuOpen)
      ensures activeSection == old(activeSection) && scrollY == old(scrollY) && showNav == old(showNav)
    {
      menuOpen := !menuOpen;
    }

    /** `scrollTo(id)`: when an element with that id exists the page scrolls to
        it, it becomes the active section and the menu closes; otherwise
        nothing happens. */
    method ScrollTo(id: string)
      requires Valid()
      modifies this
      ensures Valid()
      ensures id in documentIds ==> activeSection == id && !menuOpen
      ensures id !in documentIds ==> activeSection == old(activeSection) && menuOpen == old(menuOpen)
      ensures scrollY == old(scrollY) && showNav == old(showNav)
    {
      if id in documentIds {
        activeSection := id;
        menuOpen := false;
      }
    }

    /** A navigation button, of the desktop bar or of the mobile overlay, was
        activated. These are focusable buttons, so they can be activated from
        the keyboard even while the bar is hidden or the overlay slid out. The
        button always reaches its section. */
    method ClickNavLabel(k: nat)
      requires Valid()
      requires k < |NavLabels|
      modifies this
      ensures Valid()
      ensures activeSection == LowerAscii(NavLabels[k]) && activeSection in SectionIds
      ensures !menuOpen
      ensures scrollY == old(scrollY) && showNav == old(showNav)
    {
      NavTargetsExist();
      ScrollTo(LowerAscii(NavLabels[k]));
    }

    /** The name in the bar was clicked. It is a plain element that cannot take
        keyboard focus, and the hidden bar takes no mouse clicks, so this is only
        possible while the bar is shown. It scrolls back to the hero section. */
    method ClickBrand()
      requires Valid() && showNav
      modifies this
      ensures Valid()
      ensures activeSection == "home" && !menuOpen
      ensures scrollY == old(scrollY) && showNav == old(showNav)
    {
      ScrollTo("home");
    }
  }
}
