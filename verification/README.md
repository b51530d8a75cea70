# Carousel page arithmetic

A Dafny model of the paging logic of a swipeable carousel component for React
Native (`src/index.js`) and of its page indicator (`src/PagerIndicator.js`).

Under the gesture, spring and React calls the carousel is a small state machine
over integers:

- `previousLeft`, the resting horizontal offset of the scroll panel;
- `previousPage`, the committed page offset: 0 for the first slide, -1 for the
  second, ..., `-count` for the copy of the first slide appended after the last
  one;
- `released`, false while a finger is down;
- `currentPage`, the 1-based page in React state;
- the two spring values the component writes, `current` and `end`.

Each handler is a pure function from that state (`Carousel.Panel`) to a new state
plus the host calls it makes (`setNativeProps`, `onPress`, `onChangePage`),
recorded in order as `Carousel.Effect`s. The container width is a positive
integer (`Carousel.Width`). The drag deltas `dx`, `dy` and the spring's value are
inputs. The page indicator is a pure function from the children and the props
to the dot styles and the container's `bottom`.

Files:

- `optional.dfy` — `Option`, used for absent props.
- `jsnum.dfy` — JavaScript's truncating `%`, `Math.abs`, and arithmetic facts
  about `Math.floor` reasoning.
- `carousel.dfy` — the state, the handlers and the snap and page arithmetic.
- `carousel_properties.dfy` — lemmas that relate handlers: snapping, tap
  versus display, drag then release, and cyclic next/previous steps.
- `carousel_events.dfy` — the handlers as events, runs of events, and the
  invariants every run keeps.
- `pager_indicator.dfy` — the page indicator.

## Model

| member | source | states |
|---|---|---|
| `Carousel.Initial` | src/index.js:69-80 | A new carousel rests on the first slide: offset 0, page offset 0, released, displayed page 1, spring at 0. |
| `Carousel.Snap` | src/index.js:179-180 | `Math.floor((left + width/2)/width)` gives the nearest page boundary: `left` lies within half a page of `page*width`. Half-way goes to the upper page. |
| `Carousel.DisplayedPage` | src/index.js:208-213 | With at least one child, the displayed page is never above `count`. It is at least 1 exactly when the page offset is `<= 0`. It differs from `1 - page` only at or past the clone, where it is 1. |
| `Carousel.TapPage` | src/index.js:188-191 | The page reported to `onPress` is never 0. For offsets up to 1 it lies in `1..max(count, 1)`. For larger offsets it is 1 or a negative JS remainder in `[-count, -1]`. |
| `Carousel.Move` | src/index.js:153-175 | After a drag the drawn position `dx + previousLeft` lies in `[-width*count, 0]`. Below the range it wraps to 0, above it wraps to `-width*count`, inside it `previousLeft` is unchanged. `setNativeProps` gets that position. The spring is set to it and left at rest there, so both its current and end values equal the position. `released` becomes false. |
| `Carousel.MovePage` | src/index.js:204-220 | Commits the page offset and aims the spring at `page*width`. State gets the displayed page, and for a page offset `<= 0` that page is in `1..count`. `onChangePage` gets the same page and the manual flag, and only when the prop is supplied. |
| `Carousel.SwipedPage` | src/index.js:182-187 | A changed snapped page stands. An unchanged one moves +1 exactly when `dx > 50` and -1 exactly when `dx < -50`. |
| `Carousel.Release` | src/index.js:177-202 | Release sets `released` and adds `dx` to the offset, then commits `SwipedPage` of the snapped page. `onPress` is called first, exactly when the page is unchanged, `abs(dx) < 10`, `abs(dy) < 10` and the prop exists. The tap carries `TapPage` of the unchanged page. |
| `Carousel.CommitAutomatic` | src/index.js:227-232 | An offset past the clone is reset to -1, with the spring's current value set to 0. Any other offset is committed as given. With at least one child the committed offset is `>= -count`. The change is non-manual. |
| `Carousel.NextPage` | src/index.js:222-233 | The next arrow and the auto-advance timer step to `snapped - 1`. Past the clone they reset to -1 with the spring's current value 0; otherwise the current value is kept. From a snapped page of the panel the result lies in `[-count, -1]`. `previousLeft` and `released` are unchanged. |
| `Carousel.PreviousPage` | src/index.js:235-245 | The previous arrow steps to `snapped + 1`, with the same reset to -1 and spring current value 0 past the clone. From a snapped page in `[-count, -1]` the result lies in `(-count, 0]`. `previousLeft` and `released` are unchanged. |
| `Carousel.PreviousArrowEnabled` | src/index.js:258 | The previous arrow is enabled exactly when the committed page offset is not 0, the first slide. |
| `Carousel.FirstAutoAdvance` | src/index.js:102-107 | The mount timer commits page offset -1 as released, with the spring's current value 0. It displays page 2, or page 1 for a single child. |
| `Carousel.SetCurrentValue` | src/index.js:174 | The spring jumps to the given value and rests there: current and end both equal the value. |
| `Carousel.SpringUpdate` | src/index.js:118-127 | A spring tick moves `previousLeft` and the drawn position to the spring's value only when released. During a drag it changes nothing but the spring. |
| `JsNum.Rem` | src/index.js:188 | JavaScript `%`: `a == b*trunc(a/b) + r` with `abs(r) < b` and `r` taking the dividend's sign. |
| `JsNum.Abs` | src/index.js:193 | `Math.abs`: a non-negative value equal to `x` or `-x`. |
| `CarouselProperties.SnapUnique` | src/index.js:180 | Any page whose boundary lies within half a page of the offset is the snapped page, so the nearest-boundary property characterises `Snap`. |
| `CarouselProperties.SnapOfBoundary` | src/index.js:180 | An offset on the boundary `k*width` snaps to page `k`. |
| `CarouselProperties.SnapInPanel` | src/index.js:160-180 | An offset in `[-width*count, 0]` snaps to a page offset in `[-count, 0]`. |
| `CarouselProperties.DisplayedPageOfOffset` | src/index.js:208-213 | Page `d` in `1..count` is displayed for page offset `1 - d`. |
| `CarouselProperties.OffsetOfDisplayedPage` | src/index.js:208-213 | On the real slides `1 - displayed` recovers the page offset. The clone shows page 1. |
| `CarouselProperties.SameDisplayedPage` | src/index.js:208-213 | Two offsets of the panel show the same page exactly when they are equal or are the first slide and its clone. |
| `CarouselProperties.TapPageIsDisplayedPage` | src/index.js:188-213 | For page offsets in `[-count, 0]` the page `onPress` reports equals the page `movePage` displays. It is in `1..count`. |
| `CarouselProperties.DragThenRelease` | src/index.js:153-202 | After a drag and its release, the snapped page is in `[-count, 0]` and the committed offset in `[-count-1, 1]`. A tap reports exactly the page then displayed, in `1..count`. |
| `CarouselProperties.DragSuppressesSpring` | src/index.js:118-158 | After a drag a spring tick leaves `previousLeft` alone and draws nothing. |
| `CarouselProperties.SpringRestSnapsToCommittedPage` | src/index.js:118-127 | When the spring of a committed, released panel reaches its end value, the offset is the page boundary and snaps back to the committed page. |
| `CarouselProperties.NextPageAdvancesCyclically` | src/index.js:222-233 | From rest on a page of the panel, the next step shows `currentPage % count + 1`: the cyclic successor, with `count` followed by 1. |
| `CarouselProperties.PreviousPageRetreatsCyclically` | src/index.js:235-258 | From rest with the previous arrow enabled, the previous step shows the cyclic predecessor, with 1 preceded by `count`. On the first slide, where the arrow is disabled, it would show 0. |
| `CarouselProperties.SwipeRightOnFirstSlideShowsPageZero` | src/index.js:182-213 | On the first slide, releasing a drag right of more than 50 px whose offset ends within half a page of the slide commits offset 1. That offset displays page 0 and aims the spring one page before the panel. |
| `CarouselProperties.SwipeLeftOnCloneLeavesPanel` | src/index.js:182-213 | On the clone, releasing a drag left of more than 50 px whose offset ends within half a page of the clone commits offset `-count-1`. Page 1 is displayed, but the spring aims one page past the clone. |
| `CarouselProperties.PageZeroIsReachable` | src/index.js:153-213 | From the initial state (width 300, three children), drag 60, drag 55, release at 55 reaches page 0. |
| `CarouselProperties.PastCloneIsReachable` | src/index.js:153-213 | From rest on the clone, drag -60, drag -55, release at -55 commits offset -4 with the spring aimed at -1200. |
| `CarouselEvents.Apply` | src/index.js:83-99 | Every handler keeps the invariant: the state's page is the displayed page of `previousPage`, and when released the spring's end is `previousPage*width`. A release, the next arrow and both timers leave the spring aimed at the committed page. A drag leaves the spring's end at the drawn position and clears `released`. A release or the mount timer sets `released`. |
| `CarouselEvents.RunKeepsConsistent` | src/index.js:204-215 | Any sequence of events from a state that satisfies the invariant ends in one that does. |
| `CarouselEvents.InitialIsCommitted` | src/index.js:69-80 | The initial state is committed on the first slide for every configuration: its page is shown and its spring is aimed. |
| `CarouselEvents.RunShowsPageInRange` | src/index.js:204-215 | After any run from the initial state, a committed page offset `<= 0` is displayed as a page in `1..count`. |
| `CarouselEvents.RunReleasedFlag` | src/index.js:153-179 | A run ending with a drag leaves `released` false. A run ending with a release leaves it true. |
| `PagerIndicator.WithDefaults` | src/PagerIndicator.js:62-66 | An absent `pagerOffset`, `pagerMargin` or `pagerSize` becomes 10, 2 or 10. A supplied value is kept, and the other props are untouched. |
| `PagerIndicator.IndicatorStyle` | src/PagerIndicator.js:13-23 | A dot is a circle: `width == height == pagerSize` and `borderRadius*2 == pagerSize`. It has `margin == pagerMargin`, the given colour, and a 1 px `#fff` border. |
| `PagerIndicator.DotsFrom` | src/PagerIndicator.js:34-42 | One dot per child, in order. Dot `i` gets the active colour when `first + i + 1` is the current page, and the pager colour otherwise. |
| `PagerIndicator.Render` | src/PagerIndicator.js:25-50 | Exactly one dot per child. Dot `i` is in `activePagerColor` iff `i + 1 == currentPage`, otherwise in `pagerColor`. Dots are sized by the defaulted props, and the container's `bottom` is the defaulted `pagerOffset`. |
| `PagerIndicator.CountDotsFrom` | src/PagerIndicator.js:34-42 | With distinct colours, the dots from index `first` have one active dot when the current page falls among their pages, and none otherwise. |
| `PagerIndicator.ExactlyOneActiveDot` | src/PagerIndicator.js:34-38 | With distinct colours, exactly one dot is active when `1 <= currentPage <= children.length`, and none otherwise. |

### Behaviour of note

The swipe threshold of `onPanResponderEnd` is applied on every slide, including
the two ends of the panel.

- On the first slide the snapped page is 0, so a right swipe commits page
  offset 1. `movePage` displays that as page 0, which matches no dot, and aims
  the spring at `+width`. A single gesture from rest reaches this state: drag
  right by 60, which wraps the panel to the clone, then ease back to 55, which
  wraps it back to the first slide, then release. `PageZeroIsReachable` gives
  that run. `SwipeRightOnFirstSlideShowsPageZero` states the general condition.
- On the clone the snapped page is `-count`, so a left swipe commits page offset
  `-count-1`. Page 1 is displayed, but the spring aims one page past the clone.
  The mirror-image gesture reaches it. `PastCloneIsReachable` gives the run, and
  `SwipeLeftOnCloneLeavesPanel` states the condition.

The model keeps the behaviour as written.

## Left out

- React rendering, the styled-components templates and the `render` and
  `renderArrows` markup (src/index.js:12-65, 252-307) are not modelled. They
  are markup without behaviour. The one exception is the previous arrow's
  `previousPage === 0` disabled guard, kept as `PreviousArrowEnabled`.
- The next arrow's hard-coded `previousPage === -4` guard (src/index.js:261) is
  not modelled. It holds only for five children.
- PanResponder registration and `onStartShouldSetPanResponder`
  (src/index.js:83-88, 145-151) are not modelled. They are the host's gesture
  protocol, and the drag deltas `dx` and `dy` are inputs instead.
- The rebound spring solver, tension and friction (src/index.js:90-99) are not
  modelled. Only the `current` and `end` values the component writes are kept.
  The solver's value arrives as the `SpringTick` event's parameter. Spring
  notifications are separate events, including any the rebound library sends
  from inside its setters. That library is not part of this model. Of its
  behaviour the model keeps one fact: `setCurrentValue` leaves the spring at
  rest on the new value (`SetCurrentValue`). Because of that, a drag aims the
  spring at the drawn position, and the spring is aimed at the committed page
  only while the panel is released.
- `setTimeout`, `clearTimeout`, the module-level `timer` and
  `componentWillUnmount` (src/index.js:66, 101-116, 130-143) are not modelled.
  Only the page steps the timers take are kept: `FirstAutoAdvance`, and
  `NextPage` for the auto-advance.
- `onLayout` (src/index.js:247-250) is not modelled. The width is a positive
  integer. Before layout the width is 0, and the division in the snap then
  yields non-finite JavaScript numbers, which the model does not represent.
- JavaScript numbers are doubles. Offsets, drag deltas, spring values, margins
  and sizes are modelled as unbounded integers, so fractional pixels and
  rounding are not modelled. The snap's division and floor are computed on reals.
- The `onPress` and `onChangePage` props are modelled only by whether they are
  present (`Config.hasOnPress`, `Config.hasOnChangePage`). Each call is recorded
  as an effect.
- The carousel forwards all its own props to the indicator after
  `currentPage` (src/index.js:301-304), so a `currentPage` prop on the carousel
  would override the state's page. That is not modelled: the indicator takes
  `currentPage` as given.
- The indicator container's constant `flexDirection` and `alignSelf` styles
  (src/PagerIndicator.js:6-11) are not modelled.
