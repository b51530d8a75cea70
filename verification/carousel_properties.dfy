/**
 Facts about the carousel's page arithmetic that relate several handlers or
 characterise a handler's result independently of how it is computed.
 */
module CarouselProperties {
  import opened JsNum
  import opened Carousel
  import opened CarouselEvents

  /** The nearest-boundary property determines the snapped page: any page whose
      boundary lies within half a page of the offset is the one `Snap` returns. */
  lemma {:induction false} SnapUnique(left: int, width: Width, k: int)
    requires -(width as int) <= 2 * (left - k * width) < width
    ensures Snap(left, width) == k
  {
    var p := Snap(left, width);
    assert 2 * (left - k * width) - 2 * (left - p * width) == 2 * (width * (p - k));
    MulAwayFromZero(width, p - k);
  }

  /** A page boundary snaps to its own page. */
  lemma SnapOfBoundary(k: int, width: Width)
    ensures Snap(k * width, width) == k
  {
    SnapUnique(k * width, width, k);
  }

  /** An offset inside the panel, `[-width * count, 0]`, snaps to a page offset in
      `[-count, 0]`: a real slide or the clone of the first one. */
  lemma {:induction false} SnapInPanel(left: int, width: Width, count: nat)
    requires -(width * count) <= left <= 0
    ensures -(count as int) <= Snap(left, width) <= 0
  {
    var p := Snap(left, width);
    MulAwayFromZero(width, p);
    MulAwayFromZero(width, p + count);
    assert width * (p + count) == width * p + width * count;
  }

  /** Every page `1..count` is displayed for the page offset `1 - d`. */
  lemma DisplayedPageOfOffset(d: int, count: nat)
    requires 1 <= d <= count
    ensures DisplayedPage(1 - d, count) == d
  {
  }

  /** On the real slides, `(-count, 0]`, the displayed page determines the page
      offset again (`1 - shown`); the clone at `-count` shows page 1 like the first slide. */
  lemma OffsetOfDisplayedPage(p: int, count: nat)
    requires -(count as int) <= p <= 0
    ensures p > -(count as int) ==> 1 - DisplayedPage(p, count) == p
    ensures p == -(count as int) ==> DisplayedPage(p, count) == 1
  {
  }

  /** Two page offsets of the panel show the same page exactly when they are the
      same slide or one is the clone of the other. */
  lemma SameDisplayedPage(p: int, q: int, count: nat)
    requires -(count as int) <= p <= 0 && -(count as int) <= q <= 0
    ensures DisplayedPage(p, count) == DisplayedPage(q, count)
        <==> p == q || (p == 0 && q == -(count as int)) || (q == 0 && p == -(count as int))
  {
  }

  /** On the panel the page `onPress` reports is the page `movePage` displays,
      although one is computed with a remainder and the other with a comparison. */
  lemma {:induction false} TapPageIsDisplayedPage(p: int, count: nat)
    requires -(count as int) <= p <= 0
    ensures TapPage(p, count) == DisplayedPage(p, count)
    ensures count > 0 ==> 1 <= TapPage(p, count) <= count
  {
    if p == -(count as int) {
      RemSelf(count + 1);
    } else {
      RemSmall(1 - p, count + 1);
    }
  }

  /** A drag followed by its release (with the same final `dx`): the release
      snaps to a page of the panel, the swipe threshold moves it at most one
      further, and a tap reports exactly the page then displayed, in `1..count`. */
  lemma {:induction false} DragThenRelease(c: Config, s: Panel, dx: int, dy: int)
    requires c.count > 0
    ensures var dragged := Move(c, s, dx).panel;
      var r := Release(c, dragged, dx, dy);
      && -(c.count as int) <= Snap(dragged.previousLeft + dx, c.width) <= 0
      && -(c.count as int) - 1 <= r.panel.previousPage <= 1
      && (-(c.count as int) <= r.panel.previousPage <= 0 ==> 1 <= r.panel.currentPage <= c.count)
      && (Tapped(r.effects).Some? ==> Tapped(r.effects).value == r.panel.currentPage
                                      && 1 <= Tapped(r.effects).value <= c.count)
  {
    var dragged := Move(c, s, dx).panel;
    var snapped := Snap(dragged.previousLeft + dx, c.width);
    SnapInPanel(dragged.previousLeft + dx, c.width, c.count);
    TapPageIsDisplayedPage(snapped, c.count);
  }

  /** While a finger is down the spring cannot move the resting offset: a drag
      clears `released`, so a spring update leaves `previousLeft` alone and draws nothing. */
  lemma DragSuppressesSpring(c: Config, s: Panel, dx: int, value: int)
    ensures var dragged := Move(c, s, dx).panel;
      var r := SpringUpdate(dragged, value);
      r.panel.previousLeft == dragged.previousLeft && r.effects == []
  {
  }

  /** A released panel whose spring comes to rest on its target is at rest on the
      committed page: its offset is the page boundary and snaps back to that page. */
  lemma {:induction false} SpringRestSnapsToCommittedPage(c: Config, s: Panel)
    requires Committed(c, s) && s.released
    ensures var r := SpringUpdate(s, s.spring.end).panel;
      r.previousLeft == s.previousPage * c.width && Snap(r.previousLeft, c.width) == s.previousPage
  {
    SnapOfBoundary(s.previousPage, c.width);
  }

  /** At rest on a page: committed, with the offset on the page boundary. */
  ghost predicate AtRest(c: Config, s: Panel)
  {
    Committed(c, s) && s.previousLeft == s.previousPage * c.width
  }

  /** From rest on a slide of the panel the next-page step shows the cyclic
      successor of the displayed page: page `count` is followed by page 1. */
  lemma {:induction false} NextPageAdvancesCyclically(c: Config, s: Panel)
    requires c.count > 0 && AtRest(c, s)
    requires -(c.count as int) <= s.previousPage <= 0
    ensures NextPage(c, s).panel.currentPage == s.currentPage % c.count + 1
    ensures 1 <= NextPage(c, s).panel.currentPage <= c.count
  {
    SnapOfBoundary(s.previousPage, c.width);
    if s.previousPage == -(c.count as int) {
      assert s.currentPage == 1;
    } else {
      assert s.currentPage == 1 - s.previousPage;
    }
  }

  /** With the previous arrow enabled, from rest on a slide of the panel the
      previous-page step shows the cyclic predecessor: page 1 is preceded by page
      `count`. On the first slide (where the arrow is disabled) the same step
      would show page 0. */
  lemma {:induction false} PreviousPageRetreatsCyclically(c: Config, s: Panel)
    requires c.count > 0 && AtRest(c, s)
    requires -(c.count as int) <= s.previousPage <= 0
    ensures PreviousArrowEnabled(s) ==>
      PreviousPage(c, s).panel.currentPage == (if s.currentPage == 1 then c.count as int else s.currentPage - 1)
    ensures !PreviousArrowEnabled(s) ==> PreviousPage(c, s).panel.currentPage == 0
  {
    SnapOfBoundary(s.previousPage, c.width);
  }

  /**
   The swipe threshold is applied on the first slide too: a release of a drag
   right of more than `SwipeThreshold` pixels whose offset ends within half a
   page of the first slide commits page offset 1, which is displayed as page 0
   and aims the spring one page before the panel.
   */
  lemma {:induction false} SwipeRightOnFirstSlideShowsPageZero(c: Config, s: Panel, dx: int, dy: int)
    requires c.count > 0 && s.previousPage == 0
    requires -(c.width as int) <= 2 * (s.previousLeft + dx) < c.width
    requires dx > SwipeThreshold
    ensures var r := Release(c, s, dx, dy).panel;
      r.previousPage == 1 && r.currentPage == 0 && r.spring.end == c.width
  {
    SnapUnique(s.previousLeft + dx, c.width, 0);
  }

  /**
   The same on the clone of the first slide: a release of a drag left of more
   than `SwipeThreshold` pixels whose offset ends within half a page of the clone
   commits page offset `-count - 1`, past the panel. Page 1 is displayed, but the
   spring aims one page beyond the clone.
   */
  lemma {:induction false} SwipeLeftOnCloneLeavesPanel(c: Config, s: Panel, dx: int, dy: int)
    requires c.count > 0 && s.previousPage == -(c.count as int)
    requires -(c.width as int) <= 2 * (s.previousLeft + dx + c.count * c.width) < c.width
    requires dx < -SwipeThreshold
    ensures var r := Release(c, s, dx, dy).panel;
      && r.previousPage == -(c.count as int) - 1
      && r.currentPage == 1
      && r.spring.end == -((c.count + 1) * c.width)
  {
    assert (-(c.count as int)) * c.width == -(c.count * c.width);
    SnapUnique(s.previousLeft + dx, c.width, -(c.count as int));
    assert (-(c.count as int) - 1) * c.width == -((c.count + 1) * c.width);
  }

  /** A single gesture from the initial state reaches page 0: dragging right by 60
      wraps the panel to the clone, easing back to 55 wraps it back to the first
      slide, and releasing there passes the swipe threshold. */
  lemma {:induction false} PageZeroIsReachable()
    ensures var c := Config(300, 3, false, true);
      var r := Run(c, Initial(), [Drag(60), Drag(55), Lift(55, 0)]).panel;
      r.previousPage == 1 && r.currentPage == 0 && r.spring.end == 300
  {
    var c := Config(300, 3, false, true);
    var s1 := Move(c, Initial(), 60).panel;
    assert s1.previousLeft == -960;
    var s2 := Move(c, s1, 55).panel;
    assert s2.previousLeft == -55;
    SwipeRightOnFirstSlideShowsPageZero(c, s2, 55, 0);
    assert Run(c, s2, [Lift(55, 0)]).panel == Release(c, s2, 55, 0).panel;
    assert Run(c, s1, [Drag(55), Lift(55, 0)]).panel == Run(c, s2, [Lift(55, 0)]).panel;
  }

  /** From rest on the clone, the mirror-image gesture commits page offset
      `-count - 1`: drag left by 60 (wrapping to the first slide), ease back to
      55 (wrapping to the clone) and release. */
  lemma {:induction false} PastCloneIsReachable()
    ensures var c := Config(300, 3, false, true);
      var onClone := Run(c, Initial(), [Drag(60), Lift(60, 0), SpringTick(-900)]).panel;
      var r := Run(c, onClone, [Drag(-60), Drag(-55), Lift(-55, 0)]).panel;
      && onClone.previousPage == -3 && onClone.previousLeft == -900
      && r.previousPage == -4 && r.currentPage == 1 && r.spring.end == -1200
  {
    var c := Config(300, 3, false, true);
    var s1 := Move(c, Initial(), 60).panel;
    assert s1.previousLeft == -960;
    SnapOfBoundary(-3, 300);
    var s2 := Release(c, s1, 60, 0).panel;
    assert s2.previousPage == -3;
    var s3 := SpringUpdate(s2, -900).panel;
    assert Run(c, s2, [SpringTick(-900)]).panel == s3;
    assert Run(c, s1, [Lift(60, 0), SpringTick(-900)]).panel == s3;
    var s4 := Move(c, s3, -60).panel;
    assert s4.previousLeft == 60;
    var s5 := Move(c, s4, -55).panel;
    assert s5.previousLeft == -845;
    SwipeLeftOnCloneLeavesPanel(c, s5, -55, 0);
    assert Run(c, s5, [Lift(-55, 0)]).panel == Release(c, s5, -55, 0).panel;
    assert Run(c, s4, [Drag(-55), Lift(-55, 0)]).panel == Run(c, s5, [Lift(-55, 0)]).panel;
  }
}
