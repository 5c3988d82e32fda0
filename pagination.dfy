/** The shop's pagination bar (client/src/components/ShopPage/Pagination.jsx):
    the window of at most five page numbers, the extra first/last buttons with
    their ellipses, the Previous/Next disabled flags and the "Showing a-b of n"
    line. */
module Pagination {
  import opened Wrappers

  const MaxVisible := 5

  /** How many page numbers the window shows. */
  function WindowSize(totalPages: int): nat {
    if totalPages < 0 then 0 else if totalPages < MaxVisible then totalPages else MaxVisible
  }

  /** The first page of the window: page 1 when everything fits, otherwise the
      current page minus two, clamped so the window stays inside 1..totalPages. */
  function WindowStart(currentPage: int, totalPages: int): int {
    if totalPages <= MaxVisible then 1
    else if currentPage - 2 < 1 then 1
    else if currentPage - 2 > totalPages - 4 then totalPages - 4
    else currentPage - 2
  }

  /** Reference definition of the visible window: `WindowSize` consecutive
      pages from `WindowStart`. */
  function Window(currentPage: int, totalPages: int): (w: seq<int>)
    ensures totalPages >= 0 ==> |w| == if totalPages < MaxVisible then totalPages else MaxVisible
    ensures forall i :: 0 <= i < |w| ==> 1 <= w[i] <= totalPages
    ensures forall i :: 0 <= i < |w| - 1 ==> w[i + 1] == w[i] + 1
    ensures 1 <= currentPage <= totalPages ==> currentPage in w
  {
    var start := WindowStart(currentPage, totalPages);
    var w := seq(WindowSize(totalPages), i => start + i);
    assert 1 <= currentPage <= totalPages ==> w[currentPage - start] == currentPage;
    w
  }

  /** `getVisiblePages`: pushes pages one at a time, in one of three loops. */
  method GetVisiblePages(currentPage: int, totalPages: int) returns (pages: seq<int>)
    ensures pages == Window(currentPage, totalPages)
  {
    pages := [];
    if totalPages <= MaxVisible {
      var i := 1;
      while i <= totalPages
        invariant 1 <= i && (totalPages >= 1 ==> i <= totalPages + 1) && (totalPages < 1 ==> i == 1)
        invariant |pages| == i - 1 && forall k :: 0 <= k < |pages| ==> pages[k] == 1 + k
      {
        pages := pages + [i];
        i := i + 1;
      }
    } else if currentPage <= 3 {
      var i := 1;
      while i <= 5
        invariant 1 <= i <= 6
        invariant |pages| == i - 1 && forall k :: 0 <= k < |pages| ==> pages[k] == 1 + k
      {
        pages := pages + [i];
        i := i + 1;
      }
    } else if currentPage >= totalPages - 2 {
      var i := totalPages - 4;
      while i <= totalPages
        invariant totalPages - 4 <= i <= totalPages + 1
        invariant |pages| == i - (totalPages - 4) && forall k :: 0 <= k < |pages| ==> pages[k] == totalPages - 4 + k
      {
        pages := pages + [i];
        i := i + 1;
      }
    } else {
      var i := currentPage - 2;
      while i <= currentPage + 2
        invariant currentPage - 2 <= i <= currentPage + 3
        invariant |pages| == i - (currentPage - 2) && forall k :: 0 <= k < |pages| ==> pages[k] == currentPage - 2 + k
      {
        pages := pages + [i];
        i := i + 1;
      }
    }
    ghost var w := Window(currentPage, totalPages);
    assert |pages| == |w|;
    assert forall k :: 0 <= k < |pages| ==> pages[k] == w[k];
  }

  /** One element of the bar between Previous and Next. */
  datatype Control = PageButton(page: int) | Ellipsis

  /** The bar: button 1 and an ellipsis when the window starts after page 1
      (the ellipsis only when it starts after page 2), the window, and an
      ellipsis and button `totalPages` symmetrically at the end. */
  function Controls(w: seq<int>, totalPages: int): seq<Control>
    requires w != []
  {
    Leading(w[0]) + Buttons(w) + Trailing(w[|w| - 1], totalPages)
  }

  /** What precedes the window: the ellipsis shows iff the window starts
      after page 2, the button for page 1 iff it starts after page 1. */
  function Leading(first: int): (c: seq<Control>)
    ensures Ellipsis in c <==> first > 2
    ensures PageButton(1) in c <==> first > 1
  {
    if first > 1 then [PageButton(1)] + (if first > 2 then [Ellipsis] else []) else []
  }

  function Buttons(w: seq<int>): (c: seq<Control>)
    ensures |c| == |w| && forall i :: 0 <= i < |w| ==> c[i] == PageButton(w[i])
  {
    seq(|w|, i requires 0 <= i < |w| => PageButton(w[i]))
  }

  /** What follows the window: the ellipsis shows iff the window ends before
      page `totalPages - 1`, the last button iff it ends before `totalPages`. */
  function Trailing(last: int, totalPages: int): (c: seq<Control>)
    ensures Ellipsis in c <==> last < totalPages - 1
    ensures PageButton(totalPages) in c <==> last < totalPages
  {
    if last < totalPages then (if last < totalPages - 1 then [Ellipsis] else []) + [PageButton(totalPages)] else []
  }

  /** Numbers side by side are consecutive, and an ellipsis stands exactly
      between two numbers that skip at least one page. */
  ghost predicate Chain(c: seq<Control>) {
    && (forall j :: 0 <= j < |c| - 1 ==> Step(c, j))
    && (forall j :: 0 <= j < |c| ==> Gap(c, j))
  }

  /** Two numbers side by side at `j` and `j + 1` are consecutive. */
  ghost predicate Step(c: seq<Control>, j: int) {
    0 <= j < |c| - 1 && c[j].PageButton? && c[j + 1].PageButton? ==> c[j + 1].page == c[j].page + 1
  }

  /** An ellipsis at `j` sits between two numbers that skip a page. */
  ghost predicate Gap(c: seq<Control>, j: int) {
    0 <= j < |c| && c[j].Ellipsis? ==>
      && 0 < j < |c| - 1
      && c[j - 1].PageButton? && c[j + 1].PageButton?
      && c[j + 1].page > c[j - 1].page + 1
  }

  /** A bar that starts at page 1, ends at `totalPages`, and is a chain. */
  ghost predicate WellFormedBar(c: seq<Control>, totalPages: int) {
    && |c| >= 1
    && c[0] == PageButton(1)
    && c[|c| - 1] == PageButton(totalPages)
    && Chain(c)
  }

  /** What the component renders when it renders anything. */
  datatype View = View(
    showingFrom: int, showingTo: int, showingOf: int,
    previousDisabled: bool, nextDisabled: bool,
    controls: seq<Control>)

  /** The component: nothing when there is at most one page. */
  function Render(currentPage: int, totalPages: int, startIndex: int, endIndex: int, totalItems: int): (v: Option<View>)
    ensures v.None? <==> totalPages <= 1
    ensures v.Some? ==> WellFormedBar(v.value.controls, totalPages)
    ensures v.Some? ==> (v.value.previousDisabled <==> currentPage == 1)
    ensures v.Some? ==> (v.value.nextDisabled <==> currentPage == totalPages)
    ensures v.Some? ==> v.value.showingFrom == startIndex + 1 && v.value.showingOf == totalItems
    ensures v.Some? ==> v.value.showingTo <= totalItems && v.value.showingTo <= endIndex
    ensures v.Some? ==> (v.value.showingTo == totalItems || v.value.showingTo == endIndex)
  {
    if totalPages <= 1 then None
    else
      var w := Window(currentPage, totalPages);
      ControlsWellFormed(w, totalPages);
      Some(View(startIndex + 1, if endIndex < totalItems then endIndex else totalItems, totalItems,
                currentPage == 1, currentPage == totalPages, Controls(w, totalPages)))
  }

  /** Two chains joined where the numbers are consecutive form a chain. */
  lemma ChainJoin(a: seq<Control>, b: seq<Control>)
    requires Chain(a) && Chain(b) && a != [] && b != []
    requires a[|a| - 1].PageButton? && b[0].PageButton?
    requires b[0].page == a[|a| - 1].page + 1
    ensures Chain(a + b)
  {
    var c := a + b;
    forall j | 0 <= j < |c| ensures Gap(c, j) {
      if j < |a| {
        assert Gap(a, j);
        if j > 0 {
          assert c[j - 1] == a[j - 1];
        }
        if j + 1 < |a| {
          assert c[j + 1] == a[j + 1];
        }
      } else {
        var k := j - |a|;
        assert Gap(b, k);
        if k > 0 {
          assert c[j - 1] == b[k - 1];
        }
        if k + 1 < |b| {
          assert c[j + 1] == b[k + 1];
        }
      }
    }
    forall j | 0 <= j < |c| - 1 ensures Step(c, j) {
      if j < |a| - 1 {
        assert Step(a, j);
        assert c[j] == a[j] && c[j + 1] == a[j + 1];
      } else if j >= |a| {
        assert Step(b, j - |a|);
        assert c[j] == b[j - |a|] && c[j + 1] == b[j - |a| + 1];
      }
    }
  }

  /** Two chains joined by an ellipsis where numbers are skipped form a chain. */
  lemma ChainJoinGap(a: seq<Control>, b: seq<Control>)
    requires Chain(a) && Chain(b) && a != [] && b != []
    requires a[|a| - 1].PageButton? && b[0].PageButton?
    requires b[0].page > a[|a| - 1].page + 1
    ensures Chain(a + [Ellipsis] + b)
  {
    var c := a + [Ellipsis] + b;
    forall j | 0 <= j < |c| ensures Gap(c, j) {
      if j < |a| {
        assert Gap(a, j);
        if j > 0 {
          assert c[j - 1] == a[j - 1];
        }
        if j + 1 < |a| {
          assert c[j + 1] == a[j + 1];
        }
      } else if j > |a| {
        var k := j - |a| - 1;
        assert Gap(b, k);
        assert c[j] == b[k];
        if k > 0 {
          assert c[j - 1] == b[k - 1];
        }
        if k + 1 < |b| {
          assert c[j + 1] == b[k + 1];
        }
      } else {
        assert c[j - 1] == a[|a| - 1] && c[j + 1] == b[0];
      }
    }
    forall j | 0 <= j < |c| - 1 ensures Step(c, j) {
      if j < |a| - 1 {
        assert Step(a, j);
        assert c[j] == a[j] && c[j + 1] == a[j + 1];
      } else if j > |a| {
        assert Step(b, j - |a| - 1);
        assert c[j] == b[j - |a| - 1] && c[j + 1] == b[j - |a|];
      }
    }
  }

  lemma ButtonsChain(w: seq<int>)
    requires forall i :: 0 <= i < |w| - 1 ==> w[i + 1] == w[i] + 1
    ensures Chain(Buttons(w))
  {
    var c := Buttons(w);
    forall j | 0 <= j < |c| - 1 ensures Step(c, j) {
    }
    forall j | 0 <= j < |c| ensures Gap(c, j) {
    }
  }

  lemma LeadingChain(mid: seq<Control>, first: int)
    requires Chain(mid) && mid != [] && mid[0] == PageButton(first) && first >= 1
    ensures Chain(Leading(first) + mid)
    ensures (Leading(first) + mid)[0] == PageButton(1)
    ensures (Leading(first) + mid)[|Leading(first) + mid| - 1] == mid[|mid| - 1]
  {
    var one := [PageButton(1)];
    var left := Leading(first) + mid;
    if first > 2 {
      assert left == one + [Ellipsis] + mid;
      ChainJoinGap(one, mid);
    } else if first > 1 {
      assert left == one + mid;
      ChainJoin(one, mid);
    } else {
      assert left == mid;
    }
  }

  lemma TrailingChain(left: seq<Control>, last: int, totalPages: int)
    requires Chain(left) && left != [] && left[|left| - 1] == PageButton(last) && last <= totalPages
    ensures Chain(left + Trailing(last, totalPages))
    ensures (left + Trailing(last, totalPages))[0] == left[0]
    ensures (left + Trailing(last, totalPages))[|left + Trailing(last, totalPages)| - 1] == PageButton(totalPages)
  {
    var end := [PageButton(totalPages)];
    var bar := left + Trailing(last, totalPages);
    if last < totalPages - 1 {
      assert Trailing(last, totalPages) == [Ellipsis] + end;
      assert bar == left + [Ellipsis] + end;
      assert bar[|bar| - 1] == end[0];
      ChainJoinGap(left, end);
    } else if last < totalPages {
      assert Trailing(last, totalPages) == end;
      assert bar[|bar| - 1] == end[0];
      ChainJoin(left, end);
    } else {
      assert Trailing(last, totalPages) == [];
      assert bar == left;
    }
    assert bar[0] == left[0];
  }

  /** Any window of consecutive in-range pages yields a well-formed bar. */
  lemma ControlsWellFormed(w: seq<int>, totalPages: int)
    requires w != []
    requires forall i :: 0 <= i < |w| ==> 1 <= w[i] <= totalPages
    requires forall i :: 0 <= i < |w| - 1 ==> w[i + 1] == w[i] + 1
    ensures WellFormedBar(Controls(w, totalPages), totalPages)
  {
    var mid := Buttons(w);
    ButtonsChain(w);
    LeadingChain(mid, w[0]);
    var left := Leading(w[0]) + mid;
    TrailingChain(left, w[|w| - 1], totalPages);
  }

  /** Page numbers in a well-formed bar strictly increase, so none repeats. */
  lemma {:induction false} BarIncreasing(c: seq<Control>, totalPages: int, i: int, j: int)
    requires WellFormedBar(c, totalPages)
    requires 0 <= i < j < |c| && c[i].PageButton? && c[j].PageButton?
    ensures c[i].page < c[j].page
    decreases j - i
  {
    assert Step(c, j - 1) && Gap(c, j - 1);
    if c[j - 1].PageButton? {
      if i < j - 1 {
        BarIncreasing(c, totalPages, i, j - 1);
      }
    } else {
      assert c[j - 2].PageButton? && c[j - 2].page + 1 < c[j].page;
      if i < j - 2 {
        BarIncreasing(c, totalPages, i, j - 2);
      }
    }
  }
}
