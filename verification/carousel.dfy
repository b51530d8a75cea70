/**
 The page arithmetic of the carousel component (src/index.js).

 The component keeps three instance fields -- the resting scroll offset
 `previousLeft`, the committed page offset `previousPage` (0 for the first
 slide, -1 for the second, ..., -count for the clone of the first slide that
 is appended after the last one) and the `released` flag -- plus the
 displayed 1-based page in its React state and a rebound spring. Every
 gesture and timer handler is modelled here as a pure function from that
 state to a new state, with the host calls it makes (`setNativeProps`,
 `onPress`, `onChangePage`) recorded as a list of effects.
 */
module Carousel {
  import opened JsNum
  import opened Optional

  /** The measured container width; the model only considers a laid-out carousel. */
  type Width = w: int | w > 0 witness 1

  /** Release movements larger than this (in pixels) turn an unchanged page into a swipe. */
  const SwipeThreshold: int := 50

  /** Release movements smaller than this in both axes are taps. */
  const TapSlop: int := 10

  /** The page offset the automatic step resets to after passing the cloned first slide. */
  const ResetPage: int := -1

  /** What the component reads from its props and layout: the width, the number of
      children and whether the optional callbacks are supplied. */
  datatype Config = Config(width: Width, count: nat, hasOnPress: bool, hasOnChangePage: bool)

  /** The two values of the rebound spring that the component writes; the solver
      itself moves `current` toward `end` and is not modelled. */
  datatype Spring = Spring(current: int, end: int)

  datatype Panel = Panel(
    previousLeft: int,
    previousPage: int,
    released: bool,
    currentPage: int,
    spring: Spring)

  /** A call into the host made by a handler. */
  datatype Effect =
    | SetPanelLeft(left: int)              // scrollPanel.setNativeProps({style: {left}})
    | Press(page: int)                     // props.onPress(page)
    | ChangePage(page: int, manual: bool)  // props.onChangePage(page, manual)

  /** The state after a handler ran, and the host calls it made, in order. */
  datatype Step = Step(panel: Panel, effects: seq<Effect>)

  /** rebound's `setCurrentValue`: the spring jumps to `value` and is left at rest
      there, so its end value becomes `value` as well. */
  function SetCurrentValue(value: int): (r: Spring)
    ensures r.current == value && r.end == r.current
  {
    Spring(value, value)
  }

  /** The instance fields and React state a freshly constructed carousel starts with. */
  function Initial(): (s: Panel)
    ensures s.previousPage == 0 && s.currentPage == 1 && s.released
    ensures s.previousLeft == s.spring.current == s.spring.end == 0
  {
    Panel(0, 0, true, 1, Spring(0, 0))
  }

  /**
   `Math.floor((left + width / 2) / width)`: the page boundary nearest to the
   offset `left`. The result is the unique page `p` whose boundary `p * width`
   lies within half a page of `left`; an offset exactly half-way between two
   boundaries goes to the upper one.
   */
  function Snap(left: int, width: Width): (page: int)
    ensures -(width as int) <= 2 * (left - page * width) < width
  {
    var x := (left as real + width as real / 2.0) / width as real;
    SnapBounds(left, width, x);
    x.Floor
  }

  lemma SnapBounds(left: int, width: Width, x: real)
    requires x == (left as real + width as real / 2.0) / width as real
    ensures -(width as int) <= 2 * (left - x.Floor * width) < width
  {
    var p := x.Floor;
    var a := left as real + width as real / 2.0;
    FloorTimesWidth(a, width as real, x);
    CastMul(p, width);
    HalfPageBoundsToInt(p * width, left, width);
  }

  /** Multiplying `floor(a / w) <= a / w < floor(a / w) + 1` through by `w`. */
  lemma FloorTimesWidth(a: real, w: real, x: real)
    requires w > 0.0 && x == a / w
    ensures x.Floor as real * w <= a < x.Floor as real * w + w
  {
    var pr := x.Floor as real;
    assert pr <= x < pr + 1.0;
    DivMul(a, w);
    MulLe(pr, x, w);
    MulLt(x, pr + 1.0, w);
    assert (pr + 1.0) * w == pr * w + w;
  }

  /** The real bounds of the snap, restated on integers by doubling. */
  lemma HalfPageBoundsToInt(pw: int, left: int, width: Width)
    requires pw as real <= left as real + width as real / 2.0 < pw as real + width as real
    ensures 2 * pw <= 2 * left + width < 2 * pw + 2 * width
  {
  }

  /**
   The displayed 1-based page for a page offset, as `movePage` computes it:
   `1 - page`, except that a result past the last child (the cloned first
   slide, or anything beyond it) shows page 1.
   */
  function DisplayedPage(page: int, count: nat): (shown: int)
    ensures count > 0 ==> shown <= count
    ensures count > 0 ==> ((1 <= shown) <==> (page <= 0))
    ensures shown != 1 - page ==> shown == 1 && page <= -(count as int)
  {
    var shown := page * -1 + 1;
    if shown > count then 1 else shown
  }

  /**
   The page reported to `onPress`: `(1 - page) % (count + 1)` with JavaScript's
   truncating remainder, where a zero result is replaced by 1.
   */
  function TapPage(page: int, count: nat): (reported: int)
    ensures reported != 0
    ensures page <= 1 ==> 1 <= reported <= count || reported == 1
    ensures page > 1 ==> reported == 1 || -(count as int) <= reported < 0
  {
    var reported := Rem(page * -1 + 1, count + 1);
    if reported == 0 then 1 else reported
  }

  /**
   `onPanResponderMove`: the finger has moved `dx` pixels since the touch began.
   The panel is drawn at `dx + previousLeft`; a drag past the cloned last
   slide wraps to the first slide and a drag before the first slide wraps to
   the clone, so the drawn position never leaves `[-width * count, 0]`.
   */
  function Move(c: Config, s: Panel, dx: int): (r: Step)
    ensures var pos := dx + r.panel.previousLeft;
      && -(c.width * c.count) <= pos <= 0
      && (dx + s.previousLeft < -(c.width * c.count) ==> pos == 0)
      && (dx + s.previousLeft > 0 ==> pos == -(c.width * c.count))
      && (-(c.width * c.count) <= dx + s.previousLeft <= 0 ==> r.panel.previousLeft == s.previousLeft)
      && r.panel.spring.current == pos && r.panel.spring.end == pos
      && r.effects == [SetPanelLeft(pos)]
    ensures !r.panel.released
    ensures r.panel.previousPage == s.previousPage && r.panel.currentPage == s.currentPage
  {
    var left0 := s.previousLeft;
    var left1 := if dx + left0 < -1 * (c.width * c.count) then dx * -1 else left0;
    var left2 := if dx + left1 > 0 then c.width * -(c.count as int) - dx else left1;
    var pos := dx + left2;
    Step(s.(released := false, previousLeft := left2, spring := SetCurrentValue(pos)),
         [SetPanelLeft(pos)])
  }

  /** The page in React state is the displayed page of the committed page offset. */
  ghost predicate Shown(c: Config, s: Panel)
  {
    s.currentPage == DisplayedPage(s.previousPage, c.count)
  }

  /** The spring is aimed at the committed page's boundary. */
  ghost predicate Aimed(c: Config, s: Panel)
  {
    s.spring.end == s.previousPage * c.width
  }

  /** The offset and page fields `movePage` leaves consistent with each other. */
  ghost predicate Committed(c: Config, s: Panel)
  {
    Shown(c, s) && Aimed(c, s)
  }

  /** The `onChangePage` call a commit makes: present exactly when the prop is supplied. */
  ghost predicate Notified(c: Config, effects: seq<Effect>, page: int, manual: bool)
  {
    if c.hasOnChangePage then effects == [ChangePage(page, manual)] else effects == []
  }

  /**
   `movePage`: commits page offset `page`, aims the spring at its boundary and
   publishes the displayed page, both to React state and to `onChangePage`.
   */
  function MovePage(c: Config, s: Panel, page: int, manual: bool): (r: Step)
    ensures r.panel.previousPage == page
    ensures Committed(c, r.panel)
    ensures c.count > 0 && page <= 0 ==> 1 <= r.panel.currentPage <= c.count
    ensures Notified(c, r.effects, r.panel.currentPage, manual)
    ensures r.panel.previousLeft == s.previousLeft && r.panel.released == s.released
    ensures r.panel.spring.current == s.spring.current
  {
    var shown := DisplayedPage(page, c.count);
    var panel := s.(previousPage := page, spring := s.spring.(end := page * c.width), currentPage := shown);
    Step(panel, if c.hasOnChangePage then [ChangePage(shown, manual)] else [])
  }

  /** The page a release commits once the snapped page is known: a page change by
      position stands, an unchanged page is moved by a swipe past the threshold. */
  function SwipedPage(snapped: int, previousPage: int, dx: int): (page: int)
    ensures snapped != previousPage ==> page == snapped
    ensures page != snapped <==> snapped == previousPage && Abs(dx) > SwipeThreshold
    ensures page == snapped + 1 <==> snapped == previousPage && dx > SwipeThreshold
    ensures page == snapped - 1 <==> snapped == previousPage && dx < -SwipeThreshold
  {
    if snapped == previousPage then
      if dx > SwipeThreshold then snapped + 1
      else if dx < -SwipeThreshold then snapped - 1
      else snapped
    else snapped
  }

  /** Whether a release is reported as a tap: the page did not change and the
      finger moved less than `TapSlop` in both axes. */
  predicate IsTap(snapped: int, previousPage: int, dx: int, dy: int)
  {
    snapped == previousPage && Abs(dx) < TapSlop && Abs(dy) < TapSlop
  }

  /** The `onPress` call a release made, if any; it always comes first. */
  function Tapped(effects: seq<Effect>): (page: Option<int>)
    ensures page.Some? <==> |effects| > 0 && effects[0].Press?
  {
    if |effects| > 0 && effects[0].Press? then Some(effects[0].page) else None
  }

  /**
   `onPanResponderEnd` (release or termination of the gesture): the offset
   absorbs the final `dx`, is snapped to the nearest page, a short swipe is
   promoted to a page step, a tap is reported, and the page is committed.
   */
  function Release(c: Config, s: Panel, dx: int, dy: int): (r: Step)
    ensures r.panel.released
    ensures r.panel.previousLeft == s.previousLeft + dx
    ensures var snapped := Snap(s.previousLeft + dx, c.width);
      && r.panel.previousPage == SwipedPage(snapped, s.previousPage, dx)
      && (Tapped(r.effects).Some? <==> IsTap(snapped, s.previousPage, dx, dy) && c.hasOnPress)
      && (Tapped(r.effects).Some? ==> r.panel.previousPage == snapped && Tapped(r.effects).value == TapPage(snapped, c.count))
    ensures Committed(c, r.panel)
    ensures Notified(c, if Tapped(r.effects).Some? then r.effects[1..] else r.effects, r.panel.currentPage, true)
    ensures r.panel.spring.current == s.spring.current
  {
    var left := s.previousLeft + dx;
    var snapped := Snap(left, c.width);
    var page := SwipedPage(snapped, s.previousPage, dx);
    var pressed :=
      if snapped == s.previousPage && -SwipeThreshold <= dx <= SwipeThreshold
         && Abs(dx) < TapSlop && Abs(dy) < TapSlop && c.hasOnPress
      then [Press(TapPage(snapped, c.count))]
      else [];
    var committed := MovePage(c, s.(released := true, previousLeft := left), page, true);
    Step(committed.panel, pressed + committed.effects)
  }

  /**
   The automatic commit shared by the arrow buttons and the auto-advance timer:
   a page offset past the cloned first slide is reset to the second slide, with
   the spring jumped back to the first slide's boundary, then committed as a
   non-manual change.
   */
  function CommitAutomatic(c: Config, s: Panel, page: int): (r: Step)
    ensures page < -(c.count as int) ==> r.panel.previousPage == ResetPage && r.panel.spring.current == 0
    ensures page >= -(c.count as int) ==> r.panel.previousPage == page && r.panel.spring.current == s.spring.current
    ensures c.count > 0 ==> r.panel.previousPage >= -(c.count as int)
    ensures Committed(c, r.panel)
    ensures Notified(c, r.effects, r.panel.currentPage, false)
    ensures r.panel.previousLeft == s.previousLeft && r.panel.released == s.released
  {
    if page < c.count as int * -1 then
      MovePage(c, s.(spring := SetCurrentValue((ResetPage + 1) * c.width)), ResetPage, false)
    else
      MovePage(c, s, page, false)
  }

  /** `_animateNextPage`, and the step the auto-advance timer of
      `onSpringEndStateChange` takes: one page forward from the snapped offset. */
  function NextPage(c: Config, s: Panel): (r: Step)
    ensures var snapped := Snap(s.previousLeft, c.width);
      && (snapped - 1 >= -(c.count as int) ==> r.panel.previousPage == snapped - 1)
      && (snapped - 1 < -(c.count as int) ==> r.panel.previousPage == ResetPage && r.panel.spring.current == 0)
      && (snapped - 1 >= -(c.count as int) ==> r.panel.spring.current == s.spring.current)
      && (c.count > 0 && snapped <= 0 ==> -(c.count as int) <= r.panel.previousPage <= -1)
    ensures Committed(c, r.panel)
    ensures Notified(c, r.effects, r.panel.currentPage, false)
    ensures r.panel.previousLeft == s.previousLeft && r.panel.released == s.released
  {
    CommitAutomatic(c, s, Snap(s.previousLeft, c.width) - 1)
  }

  /** `_animatePreviousPage`: one page back from the snapped offset. */
  function PreviousPage(c: Config, s: Panel): (r: Step)
    ensures var snapped := Snap(s.previousLeft, c.width);
      && (snapped + 1 >= -(c.count as int) ==> r.panel.previousPage == snapped + 1)
      && (snapped + 1 >= -(c.count as int) ==> r.panel.spring.current == s.spring.current)
      && (snapped + 1 < -(c.count as int) ==> r.panel.previousPage == ResetPage && r.panel.spring.current == 0)
      && (c.count > 0 && -(c.count as int) <= snapped <= -1 ==> -(c.count as int) < r.panel.previousPage <= 0)
    ensures Committed(c, r.panel)
    ensures Notified(c, r.effects, r.panel.currentPage, false)
    ensures r.panel.previousLeft == s.previousLeft && r.panel.released == s.released
  {
    CommitAutomatic(c, s, Snap(s.previousLeft, c.width) + 1)
  }

  /** The previous-page arrow is disabled while the first slide is committed. */
  predicate PreviousArrowEnabled(s: Panel)
  {
    s.previousPage != 0
  }

  /** The first auto-advance step scheduled at mount: straight to the second slide. */
  function FirstAutoAdvance(c: Config, s: Panel): (r: Step)
    ensures r.panel.previousPage == ResetPage && r.panel.released && r.panel.spring.current == 0
    ensures c.count > 1 ==> r.panel.currentPage == 2
    ensures c.count <= 1 ==> r.panel.currentPage == 1
    ensures Committed(c, r.panel)
    ensures Notified(c, r.effects, r.panel.currentPage, false)
  {
    var page := -1;
    var s' := s.(spring := SetCurrentValue((page + 1) * c.width), released := true);
    MovePage(c, s', page, false)
  }

  /**
   `onSpringUpdate`: the spring solver has moved to `value`. Only a released
   panel follows the spring; during a drag the finger owns the position.
   */
  function SpringUpdate(s: Panel, value: int): (r: Step)
    ensures r.panel.spring == s.spring.(current := value)
    ensures s.released ==> r.panel.previousLeft == value && r.effects == [SetPanelLeft(value)]
    ensures !s.released ==> r.panel.previousLeft == s.previousLeft && r.effects == []
    ensures r.panel.released == s.released
    ensures r.panel.previousPage == s.previousPage && r.panel.currentPage == s.currentPage
  {
    var ticked := s.(spring := s.spring.(current := value));
    if ticked.released then
      Step(ticked.(previousLeft := ticked.spring.current), [SetPanelLeft(ticked.spring.current)])
    else
      Step(ticked, [])
  }
}
