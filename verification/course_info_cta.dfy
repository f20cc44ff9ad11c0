/**
 * The floating course-info call-to-action (handleCourseInfoCta): whether the
 * box carries "visible" and what inline display its "Explore the Course"
 * button has, decided from the hero's position, the scroll offset and the
 * viewport on every scroll tick.
 */
module CourseInfoCta {

  /** Widths up to this are the mobile layout. */
  const MobileMaxWidth: nat := 960

  /** How close to the end of the document counts as "at the bottom". */
  const BottomSlack: nat := 100

  const Visible := "visible"

  /** Which of the elements looked up at start-up exist on the page. */
  datatype Elements = Elements(hasBox: bool, hasHero: bool, hasButton: bool)

  /** The browser geometry one call reads. */
  datatype Viewport = Viewport(
    heroBottom: int,      // bottom of the hero's bounding rectangle
    scroll: nat,          // current vertical offset
    windowHeight: nat,
    documentHeight: nat,
    windowWidth: nat)

  /** The hero lies wholly above the top of the viewport. */
  predicate IsPastHero(v: Viewport) {
    v.heroBottom <= 0
  }

  /** The viewport's bottom edge is more than BottomSlack above the document's end. */
  predicate IsNotAtBottom(v: Viewport) {
    v.scroll + v.windowHeight < v.documentHeight - BottomSlack
  }

  predicate IsMobile(v: Viewport) {
    v.windowWidth <= MobileMaxWidth
  }

  /** The box's class list and the button's inline display. */
  datatype CtaState = CtaState(boxClasses: set<string>, buttonDisplay: string)

  /**
   * One call. With the box or the hero missing nothing happens. On mobile
   * the box is always visible and the button is shown ('') or hidden
   * ('none') by the scroll position. On desktop the box is visible exactly
   * when past the hero and not at the bottom; showing it also shows the
   * button, hiding it leaves the button's display as it was.
   */
  function Decide(els: Elements, st: CtaState, v: Viewport): (r: CtaState)
    ensures !els.hasBox || !els.hasHero ==> r == st
    ensures r.boxClasses - {Visible} == st.boxClasses - {Visible}
    ensures els.hasBox && els.hasHero && IsMobile(v) ==> Visible in r.boxClasses
    ensures els.hasBox && els.hasHero && !IsMobile(v) ==>
              (Visible in r.boxClasses <==> IsPastHero(v) && IsNotAtBottom(v))
    ensures els.hasBox && els.hasHero && els.hasButton && IsMobile(v) ==>
              (r.buttonDisplay == "" <==> IsPastHero(v) && IsNotAtBottom(v))
              && (r.buttonDisplay == "" || r.buttonDisplay == "none")
    ensures els.hasBox && els.hasHero && els.hasButton && !IsMobile(v) ==>
              r.buttonDisplay == (if IsPastHero(v) && IsNotAtBottom(v) then "" else st.buttonDisplay)
    ensures !els.hasButton ==> r.buttonDisplay == st.buttonDisplay
  {
    if !els.hasBox || !els.hasHero then st
    else if IsMobile(v) then
      CtaState(st.boxClasses + {Visible},
               if !els.hasButton then st.buttonDisplay
               else if IsPastHero(v) && IsNotAtBottom(v) then "" else "none")
    else if IsPastHero(v) && IsNotAtBottom(v) then
      CtaState(st.boxClasses + {Visible}, if els.hasButton then "" else st.buttonDisplay)
    else
      CtaState(st.boxClasses - {Visible}, st.buttonDisplay)
  }

  /** A second call with the same geometry changes nothing more. */
  lemma DecideIdempotent(els: Elements, st: CtaState, v: Viewport)
    ensures Decide(els, Decide(els, st, v), v) == Decide(els, st, v)
  {
  }

  /**
   * Whenever the box is shown on desktop, or the scroll position calls for
   * the button on mobile, the button ends up displayed, whatever it was
   * before: a 'none' left over from the mobile layout never survives a call
   * that shows the CTA.
   */
  lemma ShownMeansButtonShown(els: Elements, st: CtaState, v: Viewport)
    requires els.hasBox && els.hasHero && els.hasButton
    requires IsPastHero(v) && IsNotAtBottom(v)
    ensures Visible in Decide(els, st, v).boxClasses
    ensures Decide(els, st, v).buttonDisplay == ""
  {
  }

  /**
   * On desktop a hidden box keeps a stale button display: after a mobile call
   * that hid the button, a desktop call that hides the box leaves it 'none'.
   */
  lemma DesktopHideKeepsStaleDisplay(st: CtaState, mobile: Viewport, desktop: Viewport)
    requires IsMobile(mobile) && !(IsPastHero(mobile) && IsNotAtBottom(mobile))
    requires !IsMobile(desktop) && !(IsPastHero(desktop) && IsNotAtBottom(desktop))
    ensures var els := Elements(true, true, true);
            var r := Decide(els, Decide(els, st, mobile), desktop);
            Visible !in r.boxClasses && r.buttonDisplay == "none"
  {
  }

  /** The CTA box, its button and the hero as looked up once at start-up, with the state each call updates. */
  class Controller {
    const els: Elements
    var boxClasses: set<string>
    var buttonDisplay: string

    /** initCourseInfoCta: the lookups' results and the markup's initial state. */
    constructor (els: Elements, boxClasses: set<string>, buttonDisplay: string)
      ensures this.els == els && this.boxClasses == boxClasses && this.buttonDisplay == buttonDisplay
    {
      this.els := els;
      this.boxClasses := boxClasses;
      this.buttonDisplay := buttonDisplay;
    }

    function State(): CtaState
      reads this
    {
      CtaState(boxClasses, buttonDisplay)
    }

    /** handleCourseInfoCta with the current geometry v. */
    method Handle(v: Viewport)
      modifies this
      ensures State() == Decide(els, old(State()), v)
    {
      if !els.hasBox || !els.hasHero {
        return;
      }
      var isPastHero := v.heroBottom <= 0;
      var isNotAtBottom := v.scroll + v.windowHeight < v.documentHeight - BottomSlack;
      var isMobile := v.windowWidth <= MobileMaxWidth;
      if isMobile {
        boxClasses := boxClasses + {Visible};
        if els.hasButton {
          if isPastHero && isNotAtBottom {
            buttonDisplay := "";
          } else {
            buttonDisplay := "none";
          }
        }
      } else {
        if isPastHero && isNotAtBottom {
          boxClasses := boxClasses + {Visible};
          if els.hasButton {
            buttonDisplay := "";
          }
        } else {
          boxClasses := boxClasses - {Visible};
        }
      }
    }
  }
}
