/**
 The mobile navigation menu of `NavigationManager`: a JavaScript flag, the
 navbar's `data-nav-open` attribute and the toggle button's
 `aria-expanded` attribute. The toggle button may be missing from the
 page; the navbar is taken to be present.
 */
module NavMenu {
  import opened Wrappers

  datatype Menu = Menu(hasToggle: bool, open: bool, navOpenAttr: bool, ariaExpanded: Option<string>)

  /** The initial state: the flag starts false; attributes are whatever the markup holds. */
  function Initial(hasToggle: bool, navOpenAttr: bool, ariaExpanded: Option<string>): Menu {
    Menu(hasToggle, false, navOpenAttr, ariaExpanded)
  }

  /** The flag agrees with both attributes. */
  predicate Consistent(m: Menu) {
    m.open <==> (m.navOpenAttr && m.ariaExpanded == Some("true"))
  }

  /** `openMobileMenu()`; it dereferences the toggle button, so the button must exist. */
  function OpenMenu(m: Menu): (r: Menu)
    requires m.hasToggle
    ensures r.open && Consistent(r)
    ensures r.hasToggle == m.hasToggle
  {
    m.(navOpenAttr := true, ariaExpanded := Some("true"), open := true)
  }

  /** `closeMobileMenu()`; `navToggle?.` skips the button when it is missing. */
  function CloseMenu(m: Menu): (r: Menu)
    ensures !r.open && !r.navOpenAttr && Consistent(r)
    ensures r.hasToggle == m.hasToggle
    ensures m.hasToggle ==> r.ariaExpanded == Some("false")
    ensures !m.hasToggle ==> r.ariaExpanded == m.ariaExpanded
  {
    m.(navOpenAttr := false, ariaExpanded := if m.hasToggle then Some("false") else m.ariaExpanded, open := false)
  }

  /** `toggleMobileMenu()`: flips the flag, and the attributes follow. */
  function ToggleMenu(m: Menu): (r: Menu)
    requires m.hasToggle
    ensures r.open == !m.open
    ensures Consistent(r)
  {
    if m.open then CloseMenu(m) else OpenMenu(m)
  }

  /** The document click listener: closes the menu only for a click outside the navbar while it is open. */
  function OutsideClick(m: Menu, insideNavbar: bool): (r: Menu)
    ensures !insideNavbar && m.open ==> r == CloseMenu(m)
    ensures insideNavbar || !m.open ==> r == m
  {
    if !insideNavbar && m.open then CloseMenu(m) else m
  }

  /**
   A click on a navigation link: `setupNavigation` always closes the menu,
   and `setupMobileMenu` adds a second closing listener when the toggle
   button exists.
   */
  function LinkClick(m: Menu): (r: Menu)
    ensures !r.open && !r.navOpenAttr && Consistent(r)
    ensures r.hasToggle == m.hasToggle
    ensures m.hasToggle ==> r.ariaExpanded == Some("false")
    ensures !m.hasToggle ==> r.ariaExpanded == m.ariaExpanded
  {
    if m.hasToggle then CloseMenu(CloseMenu(m)) else CloseMenu(m)
  }

  /** Closing is idempotent. */
  lemma CloseIdempotent(m: Menu)
    ensures CloseMenu(CloseMenu(m)) == CloseMenu(m)
  {
  }

  /** Two link listeners close exactly as one does. */
  lemma LinkClickCloses(m: Menu)
    ensures LinkClick(m) == CloseMenu(m)
  {
    CloseIdempotent(m);
  }

  /** Toggling twice from a closed menu returns to that closed menu. */
  lemma ToggleTwiceFromClosed(m: Menu)
    requires m.hasToggle
    ensures ToggleMenu(ToggleMenu(CloseMenu(m))) == CloseMenu(m)
  {
  }

  /** Toggling twice from an open menu returns to that open menu. */
  lemma ToggleTwiceFromOpen(m: Menu)
    requires m.hasToggle
    ensures ToggleMenu(ToggleMenu(OpenMenu(m))) == OpenMenu(m)
  {
  }

  /** Every event the menu reacts to. */
  datatype Event = Toggle | LinkClicked | DocumentClick(insideNavbar: bool)

  /** One event; toggle and outside-click listeners exist only when the toggle button does. */
  function Step(m: Menu, e: Event): (r: Menu)
    ensures r.hasToggle == m.hasToggle
    ensures e == LinkClicked ==> r == CloseMenu(m)
    ensures e == Toggle && m.hasToggle ==> r.open == !m.open
    ensures e.DocumentClick? && m.hasToggle ==> (r != m <==> !e.insideNavbar && m.open)
    ensures !m.hasToggle && e != LinkClicked ==> r == m
  {
    match e
    case Toggle => if m.hasToggle then ToggleMenu(m) else m
    case LinkClicked => LinkClick(m)
    case DocumentClick(inside) => if m.hasToggle then OutsideClick(m, inside) else m
  }

  /** A run of events, in order. */
  function Run(m: Menu, events: seq<Event>): Menu
    decreases |events|
  {
    if |events| == 0 then m else Run(Step(m, events[0]), events[1..])
  }

  /** Any run of events keeps the flag in step with both attributes, once they agree. */
  lemma {:induction false} EventsKeepConsistent(m: Menu, events: seq<Event>)
    requires Consistent(m)
    ensures Consistent(Run(m, events))
    decreases |events|
  {
    if |events| > 0 {
      EventsKeepConsistent(Step(m, events[0]), events[1..]);
    }
  }

  /**
   Whatever the markup held at load (the flag starts false, the attributes
   may say otherwise), from the first link click on the flag and both
   attributes agree.
   */
  lemma {:induction false} ConsistentAfterLinkClick(hasToggle: bool, navOpenAttr: bool, ariaExpanded: Option<string>,
                                                    events: seq<Event>)
    requires |events| > 0 && events[0] == LinkClicked
    ensures Consistent(Run(Initial(hasToggle, navOpenAttr, ariaExpanded), events))
  {
    var m := Initial(hasToggle, navOpenAttr, ariaExpanded);
    EventsKeepConsistent(Step(m, events[0]), events[1..]);
  }

  /** Loaded with the attribute set, the menu starts out of step with its flag. */
  lemma MarkupCanDisagree()
    ensures !Consistent(Initial(true, true, Some("true")))
  {
  }
}
