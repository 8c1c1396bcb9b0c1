/** The scroll handler `updateNavbar` in js/script.js.

    It does three things on every scroll: it gives the navbar either its
    "scrolled" look or its "at the top" look, it works out which section the
    reader is in, and it highlights the nav links that point at that section and
    un-highlights the others. The browser's inputs (the scroll offset, each
    section's id and top offset, each link's `href`) are parameters; class lists
    are sets of class names. */
module Navbar {
  import opened Wrappers
  import opened JsString

  /** Past this many pixels the navbar switches to its scrolled look. */
  const ScrollThreshold: int := 50
  /** A section counts as reached this many pixels before its top. */
  const SectionLead: int := 250

  /** The navbar's classes once the page is scrolled. */
  const ScrolledClasses: set<string> := {"bg-white/80", "dark:bg-slate-900/80", "backdrop-blur-md", "shadow-lg"}
  /** The navbar's classes at the top of the page. */
  const TopClasses: set<string> := {"bg-white", "dark:bg-slate-800", "shadow-md"}

  /** The class of a highlighted link. */
  const ActiveClass: string := "text-primary"
  /** The classes of a link that is not highlighted. */
  const IdleClasses: set<string> := {"text-gray-600", "dark:text-gray-300", "hover:text-black", "dark:hover:text-white"}
  /** The classes that show and hide a link's underline. */
  const ShownClass: string := "block"
  const HiddenClass: string := "hidden"

  /** A `<section>`: its `id` attribute (absent when the element has none) and its top offset. */
  datatype Section = Section(id: Option<string>, offsetTop: int)

  /** A `.nav-link`: its `href` attribute, its own classes, and the classes of its
      `.active-line` child when it has one. */
  datatype Link = Link(href: Option<string>, classes: set<string>, activeLine: Option<set<string>>)

  /** What the handler acts on: the navbar's classes and the nav links in document order. */
  datatype NavPage = NavPage(navbar: set<string>, links: seq<Link>)

  /** The links after the highlighting pass, and whether the pass stopped early
      because a link had no `href` (reading `substring` of `null` throws). */
  datatype LinkPass = LinkPass(links: seq<Link>, threw: bool)

  /** The page after the handler, and whether it stopped with an exception. */
  datatype NavUpdate = NavUpdate(page: NavPage, threw: bool)

  // ---------------------------------------------------------------- navbar look

  /** The navbar's classes after the scroll check: exactly one of the two looks,
      whole, and every other class left alone. */
  function NavbarClasses(classes: set<string>, scrollY: int): (r: set<string>)
    ensures scrollY > ScrollThreshold ==> ScrolledClasses <= r && r !! TopClasses
    ensures scrollY <= ScrollThreshold ==> TopClasses <= r && r !! ScrolledClasses
    ensures forall c :: c !in ScrolledClasses && c !in TopClasses ==> (c in r <==> c in classes)
  {
    if scrollY > ScrollThreshold then classes + ScrolledClasses - TopClasses
    else classes - ScrolledClasses + TopClasses
  }

  /** The navbar's look depends only on the latest scroll offset. */
  lemma NavbarClassesLatestWins(classes: set<string>, y1: int, y2: int)
    ensures NavbarClasses(NavbarClasses(classes, y1), y2) == NavbarClasses(classes, y2)
  {
  }

  // ------------------------------------------------------------ active section

  /** The handler's test for "the reader has reached this section". */
  predicate Reached(s: Section, scrollY: int)
  {
    scrollY >= s.offsetTop - SectionLead
  }

  /** Reference definition, read from the end: the index of the last reached
      section, if any. */
  function LastReached(sections: seq<Section>, scrollY: int): (r: Option<nat>)
    ensures r.Some? ==> r.value < |sections| && Reached(sections[r.value], scrollY)
    ensures r.Some? ==> forall j :: r.value < j < |sections| ==> !Reached(sections[j], scrollY)
    ensures r.None? ==> forall j :: 0 <= j < |sections| ==> !Reached(sections[j], scrollY)
    decreases |sections|
  {
    if |sections| == 0 then None
    else if Reached(sections[|sections| - 1], scrollY) then Some(|sections| - 1)
    else LastReached(sections[..|sections| - 1], scrollY)
  }

  /** The `forEach` over the sections, in document order, starting from the value
      `current` already holds: every reached section overwrites it with its id.
      The result is the id of the last reached section, or `current` if none. */
  function ScanSections(sections: seq<Section>, scrollY: int, current: Option<string>): (r: Option<string>)
    ensures r == match LastReached(sections, scrollY)
                 case None => current
                 case Some(i) => sections[i].id
    decreases |sections|
  {
    if |sections| == 0 then current
    else
      var rest := sections[1..];
      var r := ScanSections(rest, scrollY, if Reached(sections[0], scrollY) then sections[0].id else current);
      LastReachedOfTail(sections, scrollY);
      r
  }

  /** How the last reached index of a sequence relates to that of its tail. */
  lemma LastReachedOfTail(sections: seq<Section>, scrollY: int)
    requires |sections| > 0
    ensures LastReached(sections[1..], scrollY).Some? ==>
              LastReached(sections, scrollY) == Some(LastReached(sections[1..], scrollY).value + 1)
    ensures LastReached(sections[1..], scrollY).None? ==>
              LastReached(sections, scrollY) == if Reached(sections[0], scrollY) then Some(0) else None
  {
  }

  /** The id of the section the reader is in: that of the last section, in
      document order, whose top minus 250 pixels has been scrolled past, or the
      empty string when there is none. `None` is the `null` of a section without
      an `id` attribute. */
  function ActiveSection(sections: seq<Section>, scrollY: int): (r: Option<string>)
    ensures (forall i :: 0 <= i < |sections| ==> !Reached(sections[i], scrollY)) ==> r == Some("")
    ensures forall i :: 0 <= i < |sections| && Reached(sections[i], scrollY)
                        && (forall j :: i < j < |sections| ==> !Reached(sections[j], scrollY))
                        ==> r == sections[i].id
  {
    ScanSections(sections, scrollY, Some(""))
  }

  // ----------------------------------------------------------- link highlighting

  /** The section a link points at: its `href` without the first character (the `#`). */
  function LinkTarget(href: string): (r: string)
    ensures |href| > 0 ==> r == href[1..]
    ensures |href| == 0 ==> r == ""
  {
    SubstringFrom(href, 1)
  }

  /** Whether a link with this `href` is the active one. A `null` current id
      matches no link. */
  predicate Points(href: string, current: Option<string>)
  {
    current == Some(LinkTarget(href))
  }

  /** One link highlighted (`active`) or un-highlighted: the highlight class, the
      idle classes and the underline's visibility follow `active`, and nothing
      else about the link changes. */
  function HighlightLink(link: Link, active: bool): (r: Link)
    ensures r.href == link.href
    ensures ActiveClass in r.classes <==> active
    ensures active ==> r.classes !! IdleClasses
    ensures !active ==> IdleClasses <= r.classes
    ensures forall c :: c != ActiveClass && c !in IdleClasses ==> (c in r.classes <==> c in link.classes)
    ensures r.activeLine.Some? <==> link.activeLine.Some?
    ensures r.activeLine.Some? ==>
              (ShownClass in r.activeLine.value <==> active)
              && (HiddenClass in r.activeLine.value <==> !active)
              && forall c :: c != ShownClass && c != HiddenClass ==>
                   (c in r.activeLine.value <==> c in link.activeLine.value)
  {
    if active then
      Link(link.href, link.classes + {ActiveClass} - IdleClasses,
           match link.activeLine
           case None => None
           case Some(line) => Some(line - {HiddenClass} + {ShownClass}))
    else
      Link(link.href, link.classes - {ActiveClass} + IdleClasses,
           match link.activeLine
           case None => None
           case Some(line) => Some(line + {HiddenClass} - {ShownClass}))
  }

  /** Highlighting is decided afresh each time: the second call wins. */
  lemma HighlightLinkLatestWins(link: Link, a1: bool, a2: bool)
    ensures HighlightLink(HighlightLink(link, a1), a2) == HighlightLink(link, a2)
  {
    var once := HighlightLink(link, a1);
    assert HighlightLink(once, a2).classes == HighlightLink(link, a2).classes;
    if link.activeLine.Some? {
      assert HighlightLink(once, a2).activeLine.value == HighlightLink(link, a2).activeLine.value;
    }
  }

  /** Every link up to and including index `i` has an `href`. */
  predicate HrefsUpTo(links: seq<Link>, i: int)
  {
    forall j :: 0 <= j <= i && j < |links| ==> links[j].href.Some?
  }

  /** The `forEach` over the links. Each link that the pass reaches is highlighted
      iff it points at `current`; the first link without an `href` throws, and it
      and every later link are left as they were. */
  function UpdateLinks(links: seq<Link>, current: Option<string>): (r: LinkPass)
    ensures |r.links| == |links|
    ensures r.threw <==> exists i :: 0 <= i < |links| && links[i].href.None?
    ensures forall i :: 0 <= i < |links| ==>
              if HrefsUpTo(links, i)
              then r.links[i] == HighlightLink(links[i], Points(links[i].href.value, current))
              else r.links[i] == links[i]
    decreases |links|
  {
    if |links| == 0 then LinkPass([], false)
    else match links[0].href
      case None => LinkPass(links, true)
      case Some(href) =>
        var rest := UpdateLinks(links[1..], current);
        assert forall i :: 1 <= i < |links| ==> (HrefsUpTo(links, i) <==> HrefsUpTo(links[1..], i - 1));
        LinkPass([HighlightLink(links[0], Points(href, current))] + rest.links, rest.threw)
  }

  // ------------------------------------------------------------------- handler

  /** One call of `updateNavbar`. `scrollY` stands for both `window.scrollY` and
      `pageYOffset`, which the browser keeps equal. */
  function UpdateNavbar(page: NavPage, scrollY: int, sections: seq<Section>): (r: NavUpdate)
    ensures scrollY > ScrollThreshold ==> ScrolledClasses <= r.page.navbar && r.page.navbar !! TopClasses
    ensures scrollY <= ScrollThreshold ==> TopClasses <= r.page.navbar && r.page.navbar !! ScrolledClasses
    ensures |r.page.links| == |page.links|
    ensures r.threw <==> exists i :: 0 <= i < |page.links| && page.links[i].href.None?
    ensures forall i :: 0 <= i < |page.links| && HrefsUpTo(page.links, i) ==>
              (ActiveClass in r.page.links[i].classes
               <==> Points(page.links[i].href.value, ActiveSection(sections, scrollY)))
  {
    var current := ActiveSection(sections, scrollY);
    var pass := UpdateLinks(page.links, current);
    NavUpdate(NavPage(NavbarClasses(page.navbar, scrollY), pass.links), pass.threw)
  }

  /** Link passes are decided afresh: the second one wins. When some link has no
      `href`, both passes stop at that same link, so this holds for every list. */
  lemma {:induction false} UpdateLinksLatestWins(links: seq<Link>, c1: Option<string>, c2: Option<string>)
    ensures UpdateLinks(UpdateLinks(links, c1).links, c2) == UpdateLinks(links, c2)
    decreases |links|
  {
    if |links| > 0 && links[0].href.Some? {
      var first := UpdateLinks(links, c1);
      HighlightLinkLatestWins(links[0], Points(links[0].href.value, c1), Points(links[0].href.value, c2));
      UpdateLinksLatestWins(links[1..], c1, c2);
      assert first.links[1..] == UpdateLinks(links[1..], c1).links;
    }
  }

  /** The page after a scroll event depends only on the latest scroll offset and
      section layout, not on earlier events; when every link has an `href` the
      handler does not throw. */
  lemma UpdateNavbarLatestWins(page: NavPage, y1: int, s1: seq<Section>, y2: int, s2: seq<Section>)
    ensures (forall i :: 0 <= i < |page.links| ==> page.links[i].href.Some?) ==> !UpdateNavbar(page, y1, s1).threw
    ensures UpdateNavbar(UpdateNavbar(page, y1, s1).page, y2, s2) == UpdateNavbar(page, y2, s2)
  {
    UpdateLinksLatestWins(page.links, ActiveSection(s1, y1), ActiveSection(s2, y2));
    NavbarClassesLatestWins(page.navbar, y1, y2);
  }

  /** When no two links point at the same section, at most one link is highlighted. */
  lemma AtMostOneHighlighted(page: NavPage, scrollY: int, sections: seq<Section>)
    requires forall i :: 0 <= i < |page.links| ==> page.links[i].href.Some?
    requires forall i, j :: 0 <= i < j < |page.links| ==>
               LinkTarget(page.links[i].href.value) != LinkTarget(page.links[j].href.value)
    ensures var r := UpdateNavbar(page, scrollY, sections).page;
            forall i, j :: 0 <= i < j < |r.links| && ActiveClass in r.links[i].classes ==>
              ActiveClass !in r.links[j].classes
  {
  }

  /** Above every section the current id is the empty string, so a link whose
      `href` is just `#` is highlighted there. */
  lemma BareHashActiveAboveSections(page: NavPage, scrollY: int, sections: seq<Section>, i: nat)
    requires forall k :: 0 <= k < |sections| ==> scrollY < sections[k].offsetTop - SectionLead
    requires i < |page.links| && HrefsUpTo(page.links, i) && page.links[i].href == Some("#")
    ensures ActiveClass in UpdateNavbar(page, scrollY, sections).page.links[i].classes
  {
  }
}
