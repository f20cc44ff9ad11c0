/**
 * The header's scroll state machine (handleScroll): the module-level
 * lastScroll and the header's class list, updated once per scroll tick
 * from the current vertical offset.
 */
module HeaderScroll {

  /** Offsets above this style the header as "scrolled". */
  const ScrollThreshold: nat := 50

  const Scrolled := "scrolled"
  const NavHidden := "nav-hidden"

  /** What one tick reads and writes: the last offset seen and the header's classes. */
  datatype HeaderState = HeaderState(lastScroll: nat, classes: set<string>)

  /**
   * One tick at offset s: first the "scrolled" styling, then the direction
   * rule for "nav-hidden", then lastScroll := s.
   */
  function Step(st: HeaderState, s: nat): (r: HeaderState)
    ensures r.lastScroll == s
    ensures s <= ScrollThreshold ==> Scrolled !in r.classes && NavHidden !in r.classes
    ensures s > ScrollThreshold ==> Scrolled in r.classes
    ensures s > ScrollThreshold ==> (NavHidden in r.classes <==> s > st.lastScroll)
    ensures r.classes - {Scrolled, NavHidden} == st.classes - {Scrolled, NavHidden}
  {
    var styled :=
      if s > ScrollThreshold then st.classes + {Scrolled}
      else st.classes - {Scrolled} - {NavHidden};
    var directed :=
      if s > ScrollThreshold then
        (if s > st.lastScroll then styled + {NavHidden} else styled - {NavHidden})
      else styled;
    HeaderState(s, directed)
  }

  /** The state after ticks at the given offsets, in order. */
  function Run(st: HeaderState, offsets: seq<nat>): HeaderState {
    if |offsets| == 0 then st
    else Step(Run(st, offsets[..|offsets| - 1]), offsets[|offsets| - 1])
  }

  /**
   * After any run of ticks the header depends only on the last two offsets:
   * "scrolled" iff the last is above the threshold, "nav-hidden" iff it is
   * also above the one before it (the initial lastScroll for a single tick);
   * the header's other classes are never touched.
   */
  lemma {:induction false} RunEndsOnLastTwo(st: HeaderState, offsets: seq<nat>)
    requires |offsets| > 0
    ensures var r := Run(st, offsets);
            var last := offsets[|offsets| - 1];
            var prev := if |offsets| == 1 then st.lastScroll else offsets[|offsets| - 2];
            && r.lastScroll == last
            && (Scrolled in r.classes <==> last > ScrollThreshold)
            && (NavHidden in r.classes <==> last > ScrollThreshold && last > prev)
            && r.classes - {Scrolled, NavHidden} == st.classes - {Scrolled, NavHidden}
  {
    var init := offsets[..|offsets| - 1];
    if |init| == 0 {
      assert Run(st, init) == st;
    } else {
      RunEndsOnLastTwo(st, init);
      assert init[|init| - 1] == offsets[|offsets| - 2];
    }
  }

  /** Scrolling down past the threshold hides the nav; the next tick upwards shows it again. */
  lemma DownThenUp(st: HeaderState, a: nat, b: nat, c: nat)
    requires ScrollThreshold < a < b && c < b && c > ScrollThreshold
    ensures NavHidden in Run(st, [a, b]).classes
    ensures NavHidden !in Run(st, [a, b, c]).classes
    ensures Scrolled in Run(st, [a, b, c]).classes
  {
    RunEndsOnLastTwo(st, [a, b]);
    RunEndsOnLastTwo(st, [a, b, c]);
  }

  /** The header element and the module's lastScroll, updated in place. */
  class Header {
    var lastScroll: nat
    var classes: set<string>

    /** lastScroll starts at 0; the classes are whatever the markup gives. */
    constructor (markup: set<string>)
      ensures lastScroll == 0 && classes == markup
    {
      lastScroll := 0;
      classes := markup;
    }

    function State(): HeaderState
      reads this
    {
      HeaderState(lastScroll, classes)
    }

    /** handleScroll at the current offset s. */
    method Tick(s: nat)
      modifies this
      ensures State() == Step(old(State()), s)
      ensures lastScroll == s
      ensures s <= ScrollThreshold ==> Scrolled !in classes && NavHidden !in classes
      ensures s > ScrollThreshold ==> Scrolled in classes && (NavHidden in classes <==> s > old(lastScroll))
    {
      if s > ScrollThreshold {
        classes := classes + {Scrolled};
      } else {
        classes := classes - {Scrolled};
        classes := classes - {NavHidden};
      }
      if s > ScrollThreshold {
        if s > lastScroll {
          classes := classes + {NavHidden};
        } else {
          classes := classes - {NavHidden};
        }
      }
      lastScroll := s;
    }
  }
}
