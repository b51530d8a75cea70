/**
 The carousel as an event-driven machine: each event is one handler of
 src/index.js, and a run applies them in order, collecting the host calls.
 */
module CarouselEvents {
  import opened Carousel

  datatype Event =
    | Drag(dx: int)               // onPanResponderMove
    | Lift(dx: int, dy: int)      // onPanResponderRelease / onPanResponderTerminate
    | SpringTick(value: int)      // the spring solver reached `value`: onSpringUpdate
    | NextArrow                   // the next-page arrow: _animateNextPage
    | PreviousArrow               // the previous-page arrow: _animatePreviousPage
    | AutoAdvance                 // the timer set in onSpringEndStateChange
    | FirstAdvance                // the timer set at mount

  /**
   What every state reached from the initial one satisfies: the displayed page
   belongs to the committed page offset, and a released panel's spring is aimed
   at that page. During a drag the spring's end follows the finger instead.
   */
  ghost predicate Consistent(c: Config, s: Panel)
  {
    Shown(c, s) && (s.released ==> Aimed(c, s))
  }

  /** One handler. A press on the disabled previous arrow does nothing. */
  function Apply(c: Config, s: Panel, e: Event): (r: Step)
    ensures Consistent(c, s) ==> Consistent(c, r.panel)
    ensures e.Lift? || e.NextArrow? || e.AutoAdvance? || e.FirstAdvance? ==> Committed(c, r.panel)
    ensures e.Drag? ==> r.panel.spring.end == r.panel.spring.current
    ensures e.Drag? ==> !r.panel.released
    ensures e.Lift? || e.FirstAdvance? ==> r.panel.released
    ensures e.SpringTick? || e.NextArrow? || e.PreviousArrow? || e.AutoAdvance? ==> r.panel.released == s.released
  {
    match e
    case Drag(dx) => Move(c, s, dx)
    case Lift(dx, dy) => Release(c, s, dx, dy)
    case SpringTick(value) => SpringUpdate(s, value)
    case NextArrow => NextPage(c, s)
    case PreviousArrow => if PreviousArrowEnabled(s) then PreviousPage(c, s) else Step(s, [])
    case AutoAdvance => NextPage(c, s)
    case FirstAdvance => FirstAutoAdvance(c, s)
  }

  /** The handlers for `events`, in order; the host calls are concatenated. */
  function Run(c: Config, s: Panel, events: seq<Event>): (r: Step)
    decreases |events|
  {
    if events == [] then Step(s, [])
    else
      var first := Apply(c, s, events[0]);
      var rest := Run(c, first.panel, events[1..]);
      Step(rest.panel, first.effects + rest.effects)
  }

  /** Every handler keeps the displayed page equal to the committed page's display
      and, once released, the spring aimed at the committed page, so any run does. */
  lemma {:induction false} RunKeepsConsistent(c: Config, s: Panel, events: seq<Event>)
    requires Consistent(c, s)
    ensures Consistent(c, Run(c, s, events).panel)
    decreases |events|
  {
    if events != [] {
      RunKeepsConsistent(c, Apply(c, s, events[0]).panel, events[1..]);
    }
  }

  /** The initial state is committed on the first slide, whatever the configuration. */
  lemma InitialIsCommitted(c: Config)
    ensures Committed(c, Initial())
  {
  }

  /** After any run from the initial state, a page that is committed inside the
      panel is displayed in `1..count`. */
  lemma {:induction false} RunShowsPageInRange(c: Config, events: seq<Event>)
    requires c.count > 0
    ensures var r := Run(c, Initial(), events).panel;
      r.previousPage <= 0 ==> 1 <= r.currentPage <= c.count
  {
    RunKeepsConsistent(c, Initial(), events);
  }

  /** A run that ends with a drag leaves `released` cleared; one that ends with a
      release leaves it set. */
  lemma {:induction false} RunReleasedFlag(c: Config, s: Panel, events: seq<Event>)
    requires |events| > 0
    ensures events[|events| - 1].Drag? ==> !Run(c, s, events).panel.released
    ensures events[|events| - 1].Lift? ==> Run(c, s, events).panel.released
    decreases |events|
  {
    if |events| > 1 {
      RunReleasedFlag(c, Apply(c, s, events[0]).panel, events[1..]);
    } else {
      assert Run(c, s, events).panel == Apply(c, s, events[0]).panel;
    }
  }
}
