/**
 The scroll-spy of `NavigationManager`: on each animation frame after a
 scroll, the current section is the last one (in document order) whose
 top is at most 100 pixels below the scroll position, and exactly the
 navigation links pointing at it carry the `active` class. Positions are
 whole pixels here; the browser's `pageYOffset` may be fractional.
 */
module ScrollSpy {
  import opened Wrappers
  import opened ClassList

  datatype Section = Section(id: string, offsetTop: int)

  /** A navigation link: its `href` attribute (possibly missing) and its class list. */
  datatype Link = Link(href: Option<string>, classes: seq<string>)

  /** How far below the scroll position a section's top may be and still count as reached. */
  const ActivationOffset := 100

  const ActiveClass := "active"

  predicate Reached(s: Section, scroll: int) {
    s.offsetTop <= scroll + ActivationOffset
  }

  /** Section `i` is reached and no later section is. */
  ghost predicate LastReachedAt(sections: seq<Section>, scroll: int, i: int) {
    && 0 <= i < |sections|
    && Reached(sections[i], scroll)
    && forall j :: i < j < |sections| ==> !Reached(sections[j], scroll)
  }

  /** The current section's id, read from the end: the last reached section, or `""` when none is reached. */
  function LastReachedId(sections: seq<Section>, scroll: int): (r: string)
    ensures (forall i :: 0 <= i < |sections| ==> !Reached(sections[i], scroll)) ==> r == ""
    ensures forall i :: LastReachedAt(sections, scroll, i) ==> r == sections[i].id
    decreases |sections|
  {
    if |sections| == 0 then ""
    else if Reached(sections[|sections| - 1], scroll) then sections[|sections| - 1].id
    else
      var front := sections[..|sections| - 1];
      assert forall i :: LastReachedAt(sections, scroll, i) ==> LastReachedAt(front, scroll, i);
      LastReachedId(front, scroll)
  }

  /** The `sections.forEach` loop of `updateActiveLink`, scanning forwards and overwriting on every reached section. */
  method CurrentSection(sections: seq<Section>, scroll: int) returns (current: string)
    ensures current == LastReachedId(sections, scroll)
    ensures (forall i :: 0 <= i < |sections| ==> !Reached(sections[i], scroll)) ==> current == ""
    ensures forall i :: LastReachedAt(sections, scroll, i) ==> current == sections[i].id
  {
    current := "";
    var k := 0;
    while k < |sections|
      invariant 0 <= k <= |sections|
      invariant current == LastReachedId(sections[..k], scroll)
    {
      assert sections[..k + 1][..k] == sections[..k];
      if Reached(sections[k], scroll) {
        current := sections[k].id;
      }
      k := k + 1;
    }
    assert sections[..k] == sections;
  }

  /** The `href` that marks a link as pointing at the current section. */
  function Target(current: string): string {
    "#" + current
  }

  /** One link in the `navLinks.forEach` loop: drop `active`, add it back when the href targets the section. */
  function UpdateLink(link: Link, current: string): (r: Link)
    ensures r.href == link.href
    ensures ActiveClass in r.classes <==> link.href == Some(Target(current))
    ensures RemoveToken(r.classes, ActiveClass) == RemoveToken(link.classes, ActiveClass)
  {
    var cleared := RemoveToken(link.classes, ActiveClass);
    RemoveThenAdd(link.classes, ActiveClass);
    if link.href == Some(Target(current)) then Link(link.href, AddClass(cleared, ActiveClass))
    else Link(link.href, cleared)
  }

  /** The `navLinks.forEach` loop. */
  function UpdateLinks(links: seq<Link>, current: string): (r: seq<Link>)
    ensures |r| == |links|
    ensures forall i :: 0 <= i < |r| ==> r[i].href == links[i].href
    ensures forall i :: 0 <= i < |r| ==> (ActiveClass in r[i].classes <==> links[i].href == Some(Target(current)))
    ensures forall i :: 0 <= i < |r| ==>
              RemoveToken(r[i].classes, ActiveClass) == RemoveToken(links[i].classes, ActiveClass)
  {
    seq(|links|, i requires 0 <= i < |links| => UpdateLink(links[i], current))
  }

  /** `updateActiveLink()`: one frame of the scroll-spy. */
  method UpdateActiveLink(sections: seq<Section>, links: seq<Link>, scroll: int)
    returns (current: string, updated: seq<Link>)
    ensures (forall i :: 0 <= i < |sections| ==> !Reached(sections[i], scroll)) ==> current == ""
    ensures forall i :: LastReachedAt(sections, scroll, i) ==> current == sections[i].id
    ensures |updated| == |links|
    ensures forall i :: 0 <= i < |updated| ==>
              (ActiveClass in updated[i].classes <==> links[i].href == Some(Target(current)))
    ensures forall i :: 0 <= i < |updated| ==>
              RemoveToken(updated[i].classes, ActiveClass) == RemoveToken(links[i].classes, ActiveClass)
  {
    current := CurrentSection(sections, scroll);
    updated := UpdateLinks(links, current);
  }

  /** If some section is reached, exactly one is the last reached. */
  lemma {:induction false} SomeLastReached(sections: seq<Section>, scroll: int, i: int)
    requires 0 <= i < |sections| && Reached(sections[i], scroll)
    ensures exists k :: LastReachedAt(sections, scroll, k)
    decreases |sections| - i
  {
    if !LastReachedAt(sections, scroll, i) {
      var j :| i < j < |sections| && Reached(sections[j], scroll);
      SomeLastReached(sections, scroll, j);
    }
  }

  /** Above every section no link is active, except one whose href is the bare `#`. */
  lemma AboveAllSections(sections: seq<Section>, links: seq<Link>, scroll: int)
    requires forall i :: 0 <= i < |sections| ==> !Reached(sections[i], scroll)
    ensures LastReachedId(sections, scroll) == ""
    ensures forall i :: 0 <= i < |links| ==>
              (ActiveClass in UpdateLinks(links, LastReachedId(sections, scroll))[i].classes
               <==> links[i].href == Some("#"))
  {
    assert Target(LastReachedId(sections, scroll)) == "#";
  }
}
