/** The page-number strip of the pagination control: which page buttons and
    "..." markers it shows, and which page its Previous and Next buttons
    request. */
module Pagination {
  import opened Common

  /** One entry of the strip: a page button or a "..." marker. */
  datatype PageItem = Page(n: int) | Ellipsis

  /** The window width used when the caller does not choose one. */
  const DefaultMaxDisplayed: int := 5

  /** Page buttons `lo`, `lo + 1`, ..., `hi`; empty when `lo > hi`. */
  function Range(lo: int, hi: int): seq<PageItem>
    decreases hi - lo
  {
    if lo > hi then [] else Range(lo, hi - 1) + [Page(hi)]
  }

  /** First page of the middle window: `Math.max(2, currentPage - Math.floor(max / 2))`
      (`/` on `int` with a positive divisor rounds down, like `Math.floor`). */
  function RangeStart(current: int, maxDisplayed: int): int
  {
    Max(2, current - maxDisplayed / 2)
  }

  /** Last page of the middle window. */
  function RangeEnd(current: int, total: int, maxDisplayed: int): int
  {
    Min(total - 1, RangeStart(current, maxDisplayed) + maxDisplayed - 3)
  }

  /** `getPageNumbers()`: every page when they all fit in the window,
      otherwise page 1, the window around the current page and the last page,
      with a "..." wherever the window does not touch them. */
  function PageNumbers(current: int, total: int, maxDisplayed: int): seq<PageItem>
  {
    if total <= maxDisplayed then Range(1, total)
    else
      var rs := RangeStart(current, maxDisplayed);
      var re := RangeEnd(current, total, maxDisplayed);
      [Page(1)]
      + (if rs > 2 then [Ellipsis] else [])
      + Range(rs, re)
      + (if re < total - 1 then [Ellipsis] else [])
      + (if total > 1 then [Page(total)] else [])
  }

  /** `getPageNumbers()` as written: the array is built by pushes. */
  method GetPageNumbers(current: int, total: int, maxDisplayed: int) returns (pages: seq<PageItem>)
    ensures pages == PageNumbers(current, total, maxDisplayed)
  {
    if total <= maxDisplayed {
      return Range(1, total);
    }
    pages := [Page(1)];
    var rangeStart := Max(2, current - maxDisplayed / 2);
    var rangeEnd := Min(total - 1, rangeStart + maxDisplayed - 3);
    if rangeStart > 2 {
      pages := pages + [Ellipsis];
    }
    ghost var prefix := pages;
    var i := rangeStart;
    while i <= rangeEnd
      invariant rangeStart <= i && (i <= rangeEnd + 1 || i == rangeStart)
      invariant pages == prefix + Range(rangeStart, i - 1)
      decreases rangeEnd - i
    {
      pages := pages + [Page(i)];
      i := i + 1;
    }
    if rangeEnd < total - 1 {
      pages := pages + [Ellipsis];
    }
    if total > 1 {
      pages := pages + [Page(total)];
    }
  }

  /** The control as rendered: nothing at all when there is at most one page. */
  function Control(current: int, total: int, maxDisplayed: int): Option<seq<PageItem>>
  {
    if total <= 1 then None else Some(PageNumbers(current, total, maxDisplayed))
  }

  /** The page the Previous button requests when clicked, if any. */
  function PrevTarget(current: int): Option<int>
  {
    if current > 1 then Some(current - 1) else None
  }

  /** The page the Next button requests when clicked, if any. */
  function NextTarget(current: int, total: int): Option<int>
  {
    if current < total then Some(current + 1) else None
  }

  predicate PrevDisabled(current: int) { current == 1 }

  predicate NextDisabled(current: int, total: int) { current == total }

  /** Page numbers appear in strictly increasing order. */
  predicate Increasing(items: seq<PageItem>)
  {
    forall i, j | 0 <= i < j < |items| && items[i].Page? && items[j].Page? :: items[i].n < items[j].n
  }

  /** Every page number lies in `[lo, hi]`. */
  predicate Within(items: seq<PageItem>, lo: int, hi: int)
  {
    forall i | 0 <= i < |items| && items[i].Page? :: lo <= items[i].n <= hi
  }

  /** The strip starts and ends with a page, neighbouring page buttons are
      consecutive pages, and a "..." sits only between two page buttons with
      at least one page left out between them: a "..." appears exactly where
      pages are skipped. */
  predicate GapsMarked(items: seq<PageItem>)
  {
    if |items| <= 1 then items == [] || items[0].Page?
    else if items[0].Ellipsis? then false
    else if items[1].Page? then items[1].n == items[0].n + 1 && GapsMarked(items[1..])
    else |items| >= 3 && items[2].Page? && items[2].n >= items[0].n + 2 && GapsMarked(items[2..])
  }

  /** The number of page buttons. */
  function PageCount(items: seq<PageItem>): nat
  {
    if items == [] then 0 else (if items[0].Page? then 1 else 0) + PageCount(items[1..])
  }

  lemma {:induction false} RangeIndex(lo: int, hi: int)
    ensures |Range(lo, hi)| == Max(0, hi - lo + 1)
    ensures forall k | 0 <= k < |Range(lo, hi)| :: Range(lo, hi)[k] == Page(lo + k)
    decreases hi - lo
  {
    if lo <= hi {
      RangeIndex(lo, hi - 1);
    }
  }

  lemma RangeCount(lo: int, hi: int)
    ensures PageCount(Range(lo, hi)) == Max(0, hi - lo + 1)
    decreases hi - lo
  {
    if lo <= hi {
      RangeCount(lo, hi - 1);
      CountAppend(Range(lo, hi - 1), [Page(hi)]);
    }
  }

  lemma {:induction false} CountAppend(a: seq<PageItem>, b: seq<PageItem>)
    ensures PageCount(a + b) == PageCount(a) + PageCount(b)
  {
    if a != [] {
      assert (a + b)[1..] == a[1..] + b;
      CountAppend(a[1..], b);
    } else {
      assert a + b == b;
    }
  }

  /** Two ordered strips, the first below `split` and the second from
      `split` on, join into an ordered strip. */
  lemma JoinOrdered(a: seq<PageItem>, b: seq<PageItem>, lo: int, split: int, hi: int)
    requires Increasing(a) && Increasing(b)
    requires Within(a, lo, split - 1) && Within(b, split, hi)
    requires lo <= split <= hi + 1
    ensures Increasing(a + b) && Within(a + b, lo, hi)
  {
    forall i, j | 0 <= i < j < |a + b| && (a + b)[i].Page? && (a + b)[j].Page?
      ensures (a + b)[i].n < (a + b)[j].n
    {
      if j < |a| {
        assert (a + b)[i] == a[i] && (a + b)[j] == a[j];
      } else if i < |a| {
        assert (a + b)[i] == a[i] && (a + b)[j] == b[j - |a|];
      } else {
        assert (a + b)[i] == b[i - |a|] && (a + b)[j] == b[j - |a|];
      }
    }
    forall i | 0 <= i < |a + b| && (a + b)[i].Page? ensures lo <= (a + b)[i].n <= hi {
      if i < |a| {
        assert (a + b)[i] == a[i];
      } else {
        assert (a + b)[i] == b[i - |a|];
      }
    }
  }

  /** Two strips that share a page join into one, the shared page kept once. */
  lemma {:induction false} MarkedOverlap(a: seq<PageItem>, b: seq<PageItem>)
    requires GapsMarked(a) && GapsMarked(b)
    requires a != [] && b != [] && a[|a| - 1] == b[0]
    ensures GapsMarked(a + b[1..])
  {
    if |a| == 1 {
      assert a + b[1..] == b;
    } else if a[1].Page? {
      assert (a + b[1..])[1..] == a[1..] + b[1..];
      MarkedOverlap(a[1..], b);
    } else {
      assert (a + b[1..])[2..] == a[2..] + b[1..];
      MarkedOverlap(a[2..], b);
    }
  }

  lemma {:induction false} RangeMarked(lo: int, hi: int)
    requires lo <= hi
    ensures GapsMarked(Range(lo, hi))
    ensures Range(lo, hi)[0] == Page(lo) && Range(lo, hi)[|Range(lo, hi)| - 1] == Page(hi)
    decreases hi - lo
  {
    if lo == hi {
      assert Range(lo, hi) == [Page(lo)];
    } else {
      RangeMarked(lo, hi - 1);
      var pair := [Page(hi - 1), Page(hi)];
      assert GapsMarked(pair) by { assert pair[1..] == [Page(hi)]; }
      MarkedOverlap(Range(lo, hi - 1), pair);
      assert Range(lo, hi - 1) + pair[1..] == Range(lo, hi);
    }
  }

  lemma MarkedStep(x: int, y: int)
    requires y >= x + 1
    ensures GapsMarked(if y == x + 1 then [Page(x), Page(y)] else [Page(x), Ellipsis, Page(y)])
  {
    var s := if y == x + 1 then [Page(x), Page(y)] else [Page(x), Ellipsis, Page(y)];
    if y == x + 1 {
      assert s[1..] == [Page(y)];
    } else {
      assert s[2..] == [Page(y)];
    }
  }

  /** A strip whose gaps are marked lists its pages in increasing order. */
  lemma {:induction false} MarkedIncreasing(items: seq<PageItem>)
    requires GapsMarked(items)
    ensures Increasing(items)
  {
    if |items| >= 2 {
      var k := if items[1].Page? then 1 else 2;
      var rest := items[k..];
      MarkedIncreasing(rest);
      assert rest[0] == items[k];
      forall i, j | 0 <= i < j < |items| && items[i].Page? && items[j].Page?
        ensures items[i].n < items[j].n
      {
        if i == 0 {
          if j > k {
            assert rest[j - k] == items[j];
          }
        } else {
          assert rest[i - k] == items[i] && rest[j - k] == items[j];
        }
      }
    }
  }

  /** When every page fits in the window, the strip is exactly pages
      `1, ..., total` in order. */
  lemma AllPagesWhenFew(current: int, total: int, maxDisplayed: int)
    requires total <= maxDisplayed
    ensures |PageNumbers(current, total, maxDisplayed)| == Max(0, total)
    ensures forall i | 0 <= i < |PageNumbers(current, total, maxDisplayed)| ::
      PageNumbers(current, total, maxDisplayed)[i] == Page(i + 1)
  {
    RangeIndex(1, total);
  }

  /** Once the control is shown, every listed page lies in `[1, total]`, and
      the pages appear in strictly increasing order, whatever the window width. */
  lemma PageNumbersOrdered(current: int, total: int, maxDisplayed: int)
    requires total > 1
    ensures Within(PageNumbers(current, total, maxDisplayed), 1, total)
    ensures Increasing(PageNumbers(current, total, maxDisplayed))
  {
    if total <= maxDisplayed {
      RangeIndex(1, total);
    } else {
      WindowOrdered(RangeStart(current, maxDisplayed), RangeEnd(current, total, maxDisplayed), total);
    }
  }

  /** Page 1, the window `rs..re` strictly between it and the last page, and
      the last page, with the markers in between, are ordered. */
  lemma WindowOrdered(rs: int, re: int, total: int)
    requires 2 <= rs && re <= total - 1 && total > 1
    ensures var items := [Page(1)] + (if rs > 2 then [Ellipsis] else []) + Range(rs, re)
        + (if re < total - 1 then [Ellipsis] else []) + [Page(total)];
      Within(items, 1, total) && Increasing(items)
  {
    RangeIndex(rs, re);
    var head := [Page(1)] + (if rs > 2 then [Ellipsis] else []);
    var mid := Range(rs, re) + (if re < total - 1 then [Ellipsis] else []);
    var tail := [Page(total)];
    assert Within(mid, 2, total - 1) && Increasing(mid) by {
      assert forall i | 0 <= i < |Range(rs, re)| :: mid[i] == Range(rs, re)[i];
    }
    JoinOrdered(head, mid, 1, 2, total - 1);
    JoinOrdered(head + mid, tail, 1, total, total);
    assert head + mid + tail == [Page(1)] + (if rs > 2 then [Ellipsis] else []) + Range(rs, re)
        + (if re < total - 1 then [Ellipsis] else []) + [Page(total)];
  }

  /** Once the control is shown, the strip begins with page 1 and ends with
      the last page. */
  lemma PageNumbersEnds(current: int, total: int, maxDisplayed: int)
    requires total > 1
    ensures PageNumbers(current, total, maxDisplayed) != []
    ensures PageNumbers(current, total, maxDisplayed)[0] == Page(1)
    ensures PageNumbers(current, total, maxDisplayed)[|PageNumbers(current, total, maxDisplayed)| - 1] == Page(total)
  {
    if total <= maxDisplayed {
      RangeMarked(1, total);
    }
  }

  /** A window `rs..re` joined to page 1 in front and to the last page
      behind keeps every gap marked. */
  lemma WindowMarked(first: seq<PageItem>, rs: int, re: int, last: seq<PageItem>)
    requires rs <= re
    requires first != [] && GapsMarked(first + [Page(rs)])
    requires last != [] && GapsMarked([Page(re)] + last)
    ensures GapsMarked(first + Range(rs, re) + last)
  {
    var r := Range(rs, re);
    RangeMarked(rs, re);
    var s1 := first + [Page(rs)];
    MarkedOverlap(s1, r);
    assert s1 + r[1..] == first + r;
    var s2 := [Page(re)] + last;
    MarkedOverlap(first + r, s2);
    assert (first + r) + s2[1..] == first + r + last;
  }

  /** With a window of at least 3, a "..." appears exactly where pages are
      skipped: in front of the window iff it starts after page 2, behind it
      iff it ends before the second-to-last page. */
  lemma PageNumbersGapsMarked(current: int, total: int, maxDisplayed: int)
    requires total > 1
    requires maxDisplayed >= 3
    ensures GapsMarked(PageNumbers(current, total, maxDisplayed))
  {
    if total <= maxDisplayed {
      RangeMarked(1, total);
    } else {
      var rs := RangeStart(current, maxDisplayed);
      var re := RangeEnd(current, total, maxDisplayed);
      var first := [Page(1)] + (if rs > 2 then [Ellipsis] else []);
      var last := (if re < total - 1 then [Ellipsis] else []) + [Page(total)];
      assert PageNumbers(current, total, maxDisplayed) == first + Range(rs, re) + last;
      if rs <= re {
        MarkedStep(1, rs);
        assert first + [Page(rs)] == (if rs == 2 then [Page(1), Page(rs)] else [Page(1), Ellipsis, Page(rs)]);
        MarkedStep(re, total);
        assert [Page(re)] + last == (if total == re + 1 then [Page(re), Page(total)] else [Page(re), Ellipsis, Page(total)]);
        WindowMarked(first, rs, re, last);
      } else {
        assert Range(rs, re) == [];
        MarkedStep(1, total);
        assert first + Range(rs, re) + last == [Page(1), Ellipsis, Page(total)];
      }
    }
  }

  /** With a window of at least 3 the strip shows at most that many page buttons. */
  lemma PageNumbersCount(current: int, total: int, maxDisplayed: int)
    requires maxDisplayed >= 3
    ensures PageCount(PageNumbers(current, total, maxDisplayed)) <= maxDisplayed
  {
    if total <= maxDisplayed {
      RangeCount(1, total);
    } else {
      var rs := RangeStart(current, maxDisplayed);
      var re := RangeEnd(current, total, maxDisplayed);
      var a := [Page(1)] + (if rs > 2 then [Ellipsis] else []);
      var b := if re < total - 1 then [Ellipsis] else [];
      var c := [Page(total)];
      assert PageNumbers(current, total, maxDisplayed) == a + Range(rs, re) + b + c;
      CountAppend(a + Range(rs, re) + b, c);
      CountAppend(a + Range(rs, re), b);
      CountAppend(a, Range(rs, re));
      RangeCount(rs, re);
      assert PageCount(a) == 1 by { CountAppend([Page(1)], a[1..]); assert a == [Page(1)] + a[1..]; }
      assert PageCount(b) == 0;
    }
  }

  /** With the default window of 5 (or any wider one), the current page
      always has its own button when it is a valid page. */
  lemma CurrentPageListed(current: int, total: int, maxDisplayed: int)
    requires maxDisplayed >= 5
    requires 1 <= current <= total
    ensures Page(current) in PageNumbers(current, total, maxDisplayed)
  {
    if total <= maxDisplayed {
      RangeIndex(1, total);
      assert PageNumbers(current, total, maxDisplayed)[current - 1] == Page(current);
    } else {
      var rs := RangeStart(current, maxDisplayed);
      var re := RangeEnd(current, total, maxDisplayed);
      var s := PageNumbers(current, total, maxDisplayed);
      if current == 1 {
        assert s[0] == Page(1);
      } else if current == total {
        assert s[|s| - 1] == Page(total);
      } else {
        assert rs <= current <= re;
        RangeIndex(rs, re);
        assert Range(rs, re)[current - rs] == Page(current);
        assert Page(current) in Range(rs, re);
      }
    }
  }

  /** A window narrower than 5 can leave the current page out: page 5 of 10
      with a window of 4 shows 1 ... 3 4 ... 10. */
  lemma NarrowWindowOmitsCurrent()
    ensures PageNumbers(5, 10, 4) == [Page(1), Ellipsis, Page(3), Page(4), Ellipsis, Page(10)]
    ensures Page(5) !in PageNumbers(5, 10, 4)
  {
    assert Range(3, 4) == [Page(3), Page(4)];
  }

  /** The control is shown iff there are at least two pages; it then starts at
      page 1, ends at the last page, marks every gap with "...", shows at most
      five page buttons and, for a valid current page, a button for it. */
  lemma DefaultControl(current: int, total: int)
    ensures Control(current, total, DefaultMaxDisplayed).Some? <==> total > 1
    ensures total > 1 ==>
      var items := Control(current, total, DefaultMaxDisplayed).value;
      items != [] && items[0] == Page(1) && items[|items| - 1] == Page(total) &&
      GapsMarked(items) && PageCount(items) <= 5 &&
      (1 <= current <= total ==> Page(current) in items)
  {
    if total > 1 {
      PageNumbersEnds(current, total, DefaultMaxDisplayed);
      PageNumbersGapsMarked(current, total, DefaultMaxDisplayed);
      PageNumbersCount(current, total, DefaultMaxDisplayed);
      if 1 <= current <= total {
        CurrentPageListed(current, total, DefaultMaxDisplayed);
      }
    }
  }

  /** For a valid current page, Previous and Next are disabled exactly when
      clicking them would do nothing, and otherwise request a neighbouring
      page that exists. */
  lemma NavigationButtons(current: int, total: int)
    requires 1 <= current <= total
    ensures PrevDisabled(current) <==> PrevTarget(current).None?
    ensures NextDisabled(current, total) <==> NextTarget(current, total).None?
    ensures PrevTarget(current).Some? ==> 1 <= PrevTarget(current).value == current - 1
    ensures NextTarget(current, total).Some? ==> NextTarget(current, total).value == current + 1 <= total
  {
  }
}
