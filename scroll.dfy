/** The scroll listeners: the header's `scrolled` mark, the back-to-top
    button's `visible` mark, and the navigation link marked `active` for the
    section the reader has reached. Scroll offsets are real numbers, as
    `window.pageYOffset` may be fractional. */
module Scroll {
  import opened Strings

  const SCROLLED := "scrolled"
  const VISIBLE := "visible"
  const ACTIVE := "active"
  const HEADER_THRESHOLD: real := 50.0
  const BACK_TO_TOP_THRESHOLD: real := 500.0
  const NAV_OFFSET: real := 200.0
  const HOME := "home"

  /** An element whose class list a listener changes. */
  class Element {
    var classes: set<string>

    constructor (classes: set<string>)
      ensures this.classes == classes
    {
      this.classes := classes;
    }
  }

  /** `classList.toggle(name, force)`: name is present exactly when force
      holds, and no other class changes. */
  function Toggle(classes: set<string>, name: string, force: bool): (r: set<string>)
    ensures name in r <==> force
    ensures forall c | c != name :: c in r <==> c in classes
  {
    if force then classes + {name} else classes - {name}
  }

  /** `handleHeaderScroll` at scroll offset y, without the progress bar. The
      two lookups may return the same element, which then gets both marks. */
  method HandleHeaderScroll(header: Element, backToTop: Element?, y: real)
    modifies header, backToTop
    ensures backToTop != header ==>
      header.classes == Toggle(old(header.classes), SCROLLED, y > HEADER_THRESHOLD)
    ensures backToTop != null && backToTop != header ==>
      backToTop.classes == Toggle(old(backToTop.classes), VISIBLE, y > BACK_TO_TOP_THRESHOLD)
    ensures backToTop == header ==>
      header.classes == Toggle(Toggle(old(header.classes), SCROLLED, y > HEADER_THRESHOLD),
                               VISIBLE, y > BACK_TO_TOP_THRESHOLD)
    ensures backToTop != null && VISIBLE in backToTop.classes ==> SCROLLED in header.classes
  {
    if y > HEADER_THRESHOLD {
      header.classes := header.classes + {SCROLLED};
    } else {
      header.classes := header.classes - {SCROLLED};
    }
    if backToTop != null {
      if y > BACK_TO_TOP_THRESHOLD {
        backToTop.classes := backToTop.classes + {VISIBLE};
      } else {
        backToTop.classes := backToTop.classes - {VISIBLE};
      }
    }
  }

  /** A `section[id]`: its id and its `offsetTop`. */
  datatype Section = Section(id: string, offsetTop: int)

  /** The last section, in document order, whose top is at or above pos. */
  function LastReached(sections: seq<Section>, pos: real): (r: Option<nat>)
    ensures r.Some? ==> (r.value < |sections| && sections[r.value].offsetTop as real <= pos &&
      forall k | r.value < k < |sections| :: sections[k].offsetTop as real > pos)
    ensures r.None? ==> forall k | 0 <= k < |sections| :: sections[k].offsetTop as real > pos
  {
    if |sections| == 0 then None
    else if sections[|sections| - 1].offsetTop as real <= pos then Some(|sections| - 1)
    else LastReached(sections[..|sections| - 1], pos)
  }

  /** The id of the section reached at pos, or `home` when none is. */
  function ActiveId(sections: seq<Section>, pos: real): string {
    match LastReached(sections, pos)
    case None => HOME
    case Some(k) => sections[k].id
  }

  /** Scrolling further down never selects an earlier section. */
  lemma {:induction false} LastReachedMonotone(sections: seq<Section>, p: real, q: real)
    requires p <= q
    ensures LastReached(sections, p).Some? ==>
      LastReached(sections, q).Some? && LastReached(sections, p).value <= LastReached(sections, q).value
  {
    if |sections| > 0 && sections[|sections| - 1].offsetTop as real > q {
      LastReachedMonotone(sections[..|sections| - 1], p, q);
    }
  }

  /** Above every section, the current id stays `home`. */
  lemma AboveAllIsHome(sections: seq<Section>, pos: real)
    requires forall k | 0 <= k < |sections| :: sections[k].offsetTop as real > pos
    ensures ActiveId(sections, pos) == HOME
  {
  }

  /** The loop over the sections at scroll offset y: each section reached
      replaces the current id. */
  method ActiveSection(sections: seq<Section>, y: real) returns (current: string)
    ensures current == ActiveId(sections, y + NAV_OFFSET)
  {
    var scrollPos := y + NAV_OFFSET;
    current := HOME;
    for i := 0 to |sections|
      invariant current == ActiveId(sections[..i], scrollPos)
    {
      if scrollPos >= sections[i].offsetTop as real {
        current := sections[i].id;
      }
      assert sections[..i + 1][..i] == sections[..i];
    }
    assert sections[..|sections|] == sections;
  }

  /** A `.nav-links a`: its `href` attribute, when it has one. */
  class NavLink {
    const href: Option<string>
    var classes: set<string>

    constructor (href: Option<string>, classes: set<string>)
      ensures this.href == href && this.classes == classes
    {
      this.href := href;
      this.classes := classes;
    }
  }

  /** `link.getAttribute('href') === '#' + current`. */
  predicate Targets(link: NavLink, current: string) {
    link.href == Some("#" + current)
  }

  /** `highlightNavLink` at scroll offset y: every link is marked `active`
      exactly when it points at the current section. */
  method HighlightNavLink(sections: seq<Section>, links: seq<NavLink>, y: real) returns (current: string)
    requires forall i, j | 0 <= i < j < |links| :: links[i] != links[j]
    modifies set l | l in links
    ensures current == ActiveId(sections, y + NAV_OFFSET)
    ensures forall i | 0 <= i < |links| ::
      links[i].classes == Toggle(old(links[i].classes), ACTIVE, Targets(links[i], current))
  {
    current := ActiveSection(sections, y);
    for i := 0 to |links|
      invariant forall k | 0 <= k < i ::
        links[k].classes == Toggle(old(links[k].classes), ACTIVE, Targets(links[k], current))
      invariant forall k | i <= k < |links| :: links[k].classes == old(links[k].classes)
    {
      var link := links[i];
      if Targets(link, current) {
        link.classes := link.classes + {ACTIVE};
      } else {
        link.classes := link.classes - {ACTIVE};
      }
    }
  }
}
