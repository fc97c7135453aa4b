/**
  The navigation state of the page: `isScrolled`, recomputed from the scroll
  offset on every scroll event and read by both the compact navbar and the
  back-to-top button, and `isMobileMenuOpen`, flipped by the menu button and
  cleared by every jump to a section.
*/
module Navigation {

  /** Past this many pixels the page counts as scrolled. */
  const ScrollThreshold: real := 50.0

  /** `window.scrollY > 50`; the offset is a JavaScript number, so it may be fractional. */
  predicate IsScrolled(scrollY: real) {
    scrollY > ScrollThreshold
  }

  datatype NavState = NavState(isScrolled: bool, isMobileMenuOpen: bool)

  datatype NavEvent =
    | Scroll(scrollY: real)
    | ToggleMenu              // the mobile menu button
    | GoToSection(id: string) // any link that calls scrollToSection

  function Step(s: NavState, e: NavEvent): NavState {
    match e
    case Scroll(y) => s.(isScrolled := IsScrolled(y))
    case ToggleMenu => s.(isMobileMenuOpen := !s.isMobileMenuOpen)
    case GoToSection(_) => s.(isMobileMenuOpen := false)
  }

  function Run(s: NavState, events: seq<NavEvent>): NavState
    decreases |events|
  {
    if events == [] then s else Run(Step(s, events[0]), events[1..])
  }

  class NavBar {
    var isScrolled: bool
    var isMobileMenuOpen: bool

    function State(): NavState
      reads this
    {
      NavState(isScrolled, isMobileMenuOpen)
    }

    constructor ()
      ensures !isScrolled && !isMobileMenuOpen
    {
      isScrolled, isMobileMenuOpen := false, false;
    }

    /** The navbar's compact style. */
    function NavbarCompact(): bool
      reads this
    {
      isScrolled
    }

    /** The back-to-top button's visibility. */
    function BackToTopVisible(): bool
      reads this
    {
      isScrolled
    }

    /** The overlay menu is rendered. */
    function MobileMenuRendered(): bool
      reads this
    {
      isMobileMenuOpen
    }

    /** A scroll event: the flag becomes `scrollY > 50`, and the navbar and the
        back-to-top button agree with it. */
    method HandleScroll(scrollY: real)
      modifies this
      ensures State() == Step(old(State()), Scroll(scrollY))
      ensures isScrolled == (scrollY > ScrollThreshold)
      ensures NavbarCompact() == BackToTopVisible() == isScrolled
      ensures isMobileMenuOpen == old(isMobileMenuOpen)
    {
      isScrolled := IsScrolled(scrollY);
    }

    /** The mobile menu button. */
    method ToggleMobileMenu()
      modifies this
      ensures State() == Step(old(State()), ToggleMenu)
      ensures isMobileMenuOpen != old(isMobileMenuOpen)
      ensures isScrolled == old(isScrolled)
    {
      isMobileMenuOpen := !isMobileMenuOpen;
    }

    /** A jump to section `id`: the menu closes; the smooth scroll itself is not modelled. */
    method ScrollToSection(id: string)
      modifies this
      ensures State() == Step(old(State()), GoToSection(id))
      ensures !isMobileMenuOpen && !MobileMenuRendered()
      ensures isScrolled == old(isScrolled)
    {
      isMobileMenuOpen := false;
    }
  }

  /** The threshold is strict: 50 px is not scrolled, anything beyond is. */
  lemma ScrollBoundary()
    ensures !IsScrolled(50.0) && IsScrolled(50.5) && IsScrolled(51.0)
  {
  }

  /** The offset of the last scroll event among `events`, if any. */
  function LastScroll(events: seq<NavEvent>): (r: real)
    requires exists i | 0 <= i < |events| :: events[i].Scroll?
    ensures exists i | 0 <= i < |events| :: events[i] == Scroll(r) && forall j | i < j < |events| :: !events[j].Scroll?
    decreases |events|
  {
    var k := |events| - 1;
    if events[k].Scroll? then events[k].scrollY
    else
      var front := events[..k];
      assert exists i | 0 <= i < |front| :: front[i].Scroll? by {
        var i :| 0 <= i < |events| && events[i].Scroll?;
        assert i < k && front[i] == events[i];
      }
      LastScroll(front)
  }

  lemma {:induction false} RunAppend(s: NavState, a: seq<NavEvent>, b: seq<NavEvent>)
    ensures Run(s, a + b) == Run(Run(s, a), b)
    decreases |a|
  {
    if a == [] {
      assert a + b == b;
    } else {
      assert (a + b)[1..] == a[1..] + b;
      RunAppend(Step(s, a[0]), a[1..], b);
    }
  }

  /** Scroll events do not touch the menu, menu events do not touch the scroll flag. */
  lemma {:induction false} ScrollFlagKept(s: NavState, events: seq<NavEvent>)
    requires forall i | 0 <= i < |events| :: !events[i].Scroll?
    ensures Run(s, events).isScrolled == s.isScrolled
    decreases |events|
  {
    if events != [] {
      ScrollFlagKept(Step(s, events[0]), events[1..]);
    }
  }

  /** No hysteresis: after any events, the flag is `scrollY > 50` for the last
      scroll offset seen, or the initial flag if there was no scroll. */
  lemma {:induction false} FlagFollowsLastScroll(s: NavState, events: seq<NavEvent>)
    ensures Run(s, events).isScrolled ==
      if exists i | 0 <= i < |events| :: events[i].Scroll? then IsScrolled(LastScroll(events))
      else s.isScrolled
  {
    if exists i | 0 <= i < |events| :: events[i].Scroll? {
      var y := LastScroll(events);
      var i :| 0 <= i < |events| && events[i] == Scroll(y) && forall j | i < j < |events| :: !events[j].Scroll?;
      assert events == events[..i + 1] + events[i + 1..];
      RunAppend(s, events[..i + 1], events[i + 1..]);
      assert events[..i + 1] == events[..i] + [Scroll(y)];
      RunAppend(s, events[..i], [Scroll(y)]);
      ScrollFlagKept(Run(s, events[..i + 1]), events[i + 1..]);
    } else {
      ScrollFlagKept(s, events);
    }
  }

  function Toggles(events: seq<NavEvent>): nat
    decreases |events|
  {
    if events == [] then 0 else (if events[0] == ToggleMenu then 1 else 0) + Toggles(events[1..])
  }

  lemma {:induction false} MenuParity(s: NavState, events: seq<NavEvent>)
    requires forall i | 0 <= i < |events| :: !events[i].GoToSection?
    ensures Run(s, events).isMobileMenuOpen == (s.isMobileMenuOpen != (Toggles(events) % 2 == 1))
    decreases |events|
  {
    if events != [] {
      MenuParity(Step(s, events[0]), events[1..]);
    }
  }

  /** The menu is open exactly when an odd number of toggles followed the last
      jump to a section (or, with no jump, the start). */
  lemma MenuOpenAfter(s: NavState, events: seq<NavEvent>, k: nat)
    requires k < |events| && events[k].GoToSection?
    requires forall j | k < j < |events| :: !events[j].GoToSection?
    ensures Run(s, events).isMobileMenuOpen == (Toggles(events[k + 1..]) % 2 == 1)
  {
    assert events == events[..k + 1] + events[k + 1..];
    RunAppend(s, events[..k + 1], events[k + 1..]);
    assert events[..k + 1] == events[..k] + [events[k]];
    RunAppend(s, events[..k], [events[k]]);
    MenuParity(Run(s, events[..k + 1]), events[k + 1..]);
  }
}
