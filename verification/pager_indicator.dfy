/**
 The page indicator (src/PagerIndicator.js): one round dot per child, the dot
 of the current page in the active colour and every other dot in the pager
 colour, in a row raised `pagerOffset` above the bottom.
 */
module PagerIndicator {
  import opened Optional

  /** A colour prop; the colour props have no default, so they may be absent. */
  type Color = Option<string>

  const DefaultPagerOffset: int := 10
  const DefaultPagerMargin: int := 2
  const DefaultPagerSize: int := 10

  /** The border every dot carries. */
  const DotBorderWidth: int := 1
  const DotBorderColor: string := "#fff"

  /** The props the indicator reads; absent numeric props take the defaults above. */
  datatype PagerProps = PagerProps(
    activePagerColor: Color,
    currentPage: int,
    pagerColor: Color,
    pagerMargin: Option<int>,
    pagerOffset: Option<int>,
    pagerSize: Option<int>)

  /** The style object of one dot. `borderRadius` is `pagerSize / 2` in JavaScript
      number division, so it is kept as a real. */
  datatype DotStyle = DotStyle(
    backgroundColor: Color,
    borderRadius: real,
    borderWidth: int,
    borderColor: string,
    height: int,
    margin: int,
    width: int)

  /** What the indicator renders: the container's `bottom` and the dots in order. */
  datatype PagerView = PagerView(bottom: int, dots: seq<DotStyle>)

  /** The props after React filled in `defaultProps`: a supplied value is kept,
      an absent one is replaced by its default. */
  function WithDefaults(p: PagerProps): (q: PagerProps)
    ensures q.pagerOffset.Some? && q.pagerMargin.Some? && q.pagerSize.Some?
    ensures p.pagerOffset.Some? ==> q.pagerOffset == p.pagerOffset
    ensures p.pagerMargin.Some? ==> q.pagerMargin == p.pagerMargin
    ensures p.pagerSize.Some? ==> q.pagerSize == p.pagerSize
    ensures p.pagerOffset.None? ==> q.pagerOffset == Some(DefaultPagerOffset)
    ensures p.pagerMargin.None? ==> q.pagerMargin == Some(DefaultPagerMargin)
    ensures p.pagerSize.None? ==> q.pagerSize == Some(DefaultPagerSize)
    ensures q.activePagerColor == p.activePagerColor && q.pagerColor == p.pagerColor
    ensures q.currentPage == p.currentPage
  {
    p.(pagerOffset := Some(p.pagerOffset.GetOr(DefaultPagerOffset)),
       pagerMargin := Some(p.pagerMargin.GetOr(DefaultPagerMargin)),
       pagerSize := Some(p.pagerSize.GetOr(DefaultPagerSize)))
  }

  /** `getPagerIndicatorStyle`: a circle of diameter `pagerSize` with a white
      one-pixel border, spaced by `pagerMargin`. */
  function IndicatorStyle(color: Color, pagerMargin: int, pagerSize: int): (r: DotStyle)
    ensures r.width == r.height == pagerSize
    ensures r.borderRadius * 2.0 == r.width as real
    ensures r.margin == pagerMargin
    ensures r.backgroundColor == color
    ensures r.borderWidth == DotBorderWidth && r.borderColor == DotBorderColor
  {
    DotStyle(color, pagerSize as real / 2.0, DotBorderWidth, DotBorderColor, pagerSize, pagerMargin, pagerSize)
  }

  /** The dots for `children`, the first of which has index `first`: the callback
      `children.map` runs, applied from index `first` on. */
  function DotsFrom<C>(children: seq<C>, first: int, p: PagerProps): (r: seq<DotStyle>)
    requires p.pagerMargin.Some? && p.pagerSize.Some?
    ensures |r| == |children|
    ensures forall i :: 0 <= i < |r| ==>
      r[i] == IndicatorStyle(if first + i + 1 == p.currentPage then p.activePagerColor else p.pagerColor,
                             p.pagerMargin.value, p.pagerSize.value)
    decreases |children|
  {
    if children == [] then []
    else
      var color := if first + 1 == p.currentPage then p.activePagerColor else p.pagerColor;
      [IndicatorStyle(color, p.pagerMargin.value, p.pagerSize.value)] + DotsFrom(children[1..], first + 1, p)
  }

  /** `PagerIndicator`: renders one dot per child, dot `i` active when `i + 1` is the
      current page, in a container raised `pagerOffset` from the bottom. */
  function Render<C>(children: seq<C>, props: PagerProps): (r: PagerView)
    ensures var q := WithDefaults(props);
      && |r.dots| == |children|
      && r.bottom == q.pagerOffset.value
      && (forall i :: 0 <= i < |r.dots| ==>
            && r.dots[i].backgroundColor == (if i + 1 == props.currentPage then props.activePagerColor else props.pagerColor)
            && r.dots[i].width == r.dots[i].height == q.pagerSize.value
            && r.dots[i].margin == q.pagerMargin.value)
  {
    var q := WithDefaults(props);
    PagerView(q.pagerOffset.value, DotsFrom(children, 0, q))
  }

  /** The number of dots drawn in `color`. */
  function CountColored(dots: seq<DotStyle>, color: Color): (k: nat)
    ensures k <= |dots|
  {
    if dots == [] then 0
    else (if dots[0].backgroundColor == color then 1 else 0) + CountColored(dots[1..], color)
  }

  lemma {:induction false} CountDotsFrom<C>(children: seq<C>, first: int, p: PagerProps)
    requires p.pagerMargin.Some? && p.pagerSize.Some?
    requires p.activePagerColor != p.pagerColor
    ensures CountColored(DotsFrom(children, first, p), p.activePagerColor)
         == if first < p.currentPage <= first + |children| then 1 else 0
    decreases |children|
  {
    if children != [] {
      var r := DotsFrom(children, first, p);
      assert r[1..] == DotsFrom(children[1..], first + 1, p);
      CountDotsFrom(children[1..], first + 1, p);
    }
  }

  /** With distinguishable colours, exactly one dot is active when the current
      page is one of the children's pages `1..|children|`, and none otherwise. */
  lemma ExactlyOneActiveDot<C>(children: seq<C>, props: PagerProps)
    requires props.activePagerColor != props.pagerColor
    ensures CountColored(Render(children, props).dots, props.activePagerColor)
         == if 1 <= props.currentPage <= |children| then 1 else 0
  {
    CountDotsFrom(children, 0, WithDefaults(props));
  }
}
