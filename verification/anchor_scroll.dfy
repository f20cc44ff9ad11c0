/**
 * The click handler on in-page links (a[href^="#"]): which clicks it takes
 * over, and the destination it hands to window.scrollTo so that the target clears the fixed header.
 */
module AnchorScroll {
  import opened Wrappers

  /** Room left above the target for the fixed header, in pixels. */
  const HeaderOffset: int := 100

  /** The handler's effect on one click: whether default navigation is prevented, and the smooth-scroll destination if any. */
  datatype ClickResult = ClickResult(preventDefault: bool, scrollTo: Option<int>)

  /** The handler's guard on the link's href. Its test against "#" adds nothing: "#" is already too short. */
  function Intercepts(href: string): (r: bool)
    ensures r <==> |href| >= 2
  {
    href != "#" && |href| > 1
  }

  /**
   * One click on a link with the given href. `target` is the top of the
   * bounding rectangle of the element the href selects, None when the
   * lookup finds nothing; `pageYOffset` is the current scroll offset.
   */
  function OnClick(href: string, target: Option<int>, pageYOffset: nat): (r: ClickResult)
    ensures r.preventDefault <==> |href| >= 2
    ensures r.scrollTo.Some? <==> |href| >= 2 && target.Some?
    ensures r.scrollTo.Some? ==> target.value - (r.scrollTo.value - pageYOffset) == HeaderOffset
  {
    if Intercepts(href) then
      var scrollTo :=
        if target.Some? then Some(target.value + pageYOffset - HeaderOffset) else None;
      ClickResult(true, scrollTo)
    else
      ClickResult(false, None)
  }

  /** A link to "#section" whose target sits 640 px below the viewport top, at offset 1200, hands 1740 to scrollTo. */
  lemma SectionExample()
    ensures OnClick("#section", Some(640), 1200) == ClickResult(true, Some(1740))
    ensures OnClick("#", Some(640), 1200) == ClickResult(false, None)
    ensures OnClick("#missing", None, 1200) == ClickResult(true, None)
  {
  }
}
