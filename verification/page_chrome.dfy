/**
 Derived page state in main.js: the body scroll lock, the active navigation link, the
 header's scrolled flag, and the mobile navigation menu that drives the lock.
 */
module PageChrome {
  import opened Wrappers

  /**
   `syncBodyLock`: the body is locked while the navigation menu or the lightbox is open.
   Each argument is None when that element does not exist on the page.
   */
  function BodyLocked(navOpen: Option<bool>, lightboxOpen: Option<bool>): (r: bool)
    ensures r <==> navOpen == Some(true) || lightboxOpen == Some(true)
  {
    navOpen.GetOr(false) || lightboxOpen.GetOr(false)
  }

  /** `setActiveNav`: a link is active exactly when its `data-nav` equals the body's `data-page`. */
  function ActiveLinks(links: seq<string>, page: Option<string>): (r: seq<bool>)
    ensures |r| == |links|
    ensures forall i | 0 <= i < |links| :: r[i] <==> page == Some(links[i])
    ensures page.None? ==> forall i | 0 <= i < |r| :: !r[i]
  {
    seq(|links|, i requires 0 <= i < |links| => page == Some(links[i]))
  }

  /** Distinct links: at most one is active. */
  lemma AtMostOneActive(links: seq<string>, page: Option<string>, i: int, j: int)
    requires forall a, b | 0 <= a < b < |links| :: links[a] != links[b]
    requires 0 <= i < |links| && 0 <= j < |links|
    requires ActiveLinks(links, page)[i] && ActiveLinks(links, page)[j]
    ensures i == j
  {
  }

  /** `handleScrollHeader`: None when the page has no header, else whether `scrollY > 8`. */
  function HeaderScrolled(hasHeader: bool, scrollY: real): (r: Option<bool>)
    ensures r.Some? <==> hasHeader
    ensures r.Some? ==> (r.value <==> scrollY > 8.0)
  {
    if hasHeader then Some(scrollY > 8.0) else None
  }

  /** Scrolling further down never clears the scrolled flag; scrolling back to the top clears it. */
  lemma ScrolledMonotone(y1: real, y2: real)
    requires y1 <= y2
    ensures HeaderScrolled(true, y1) == Some(true) ==> HeaderScrolled(true, y2) == Some(true)
    ensures HeaderScrolled(true, 0.0) == Some(false)
  {
  }

  /**
   The mobile navigation menu, wired only when both the toggle button and the link list
   exist: whether the list is open, the button's `aria-expanded`, the lightbox state
   (None before the lightbox is first created) and the body lock.
   */
  datatype Menu = Menu(open: bool, expanded: string, lightboxOpen: Option<bool>, locked: bool)

  /** Where a click lands, as the three click listeners tell it apart. */
  datatype Click = OnToggle | InLinkList(onLink: bool) | Elsewhere

  function Flag(b: bool): string {
    if b then "true" else "false"
  }

  /** The attribute and the lock reflect the menu and lightbox state. */
  predicate Consistent(m: Menu) {
    m.expanded == Flag(m.open) && m.locked == BodyLocked(Some(m.open), m.lightboxOpen)
  }

  /** The menu after a click; every branch that changes it ends with `syncBodyLock`. */
  function OnClick(m: Menu, c: Click): (r: Menu)
    ensures c == OnToggle ==> r.open == !m.open
    ensures c == Elsewhere || c == InLinkList(true) ==> !r.open
    ensures c == InLinkList(false) ==> r == m
    ensures r.lightboxOpen == m.lightboxOpen
    ensures Consistent(m) ==> Consistent(r)
    ensures c != InLinkList(false) ==> Consistent(r)
    ensures c != InLinkList(false) ==> (r.locked <==> r.open || m.lightboxOpen == Some(true))
  {
    match c
    case OnToggle =>
      var open := !m.open;
      Menu(open, Flag(open), m.lightboxOpen, BodyLocked(Some(open), m.lightboxOpen))
    case InLinkList(onLink) =>
      if onLink then Menu(false, "false", m.lightboxOpen, BodyLocked(Some(false), m.lightboxOpen))
      else m
    case Elsewhere =>
      Menu(false, "false", m.lightboxOpen, BodyLocked(Some(false), m.lightboxOpen))
  }

  /** Clicking the toggle twice restores the menu it started from, when that was consistent. */
  lemma ToggleTwiceRestores(m: Menu)
    requires Consistent(m)
    ensures OnClick(OnClick(m, OnToggle), OnToggle) == m
  {
  }
}
