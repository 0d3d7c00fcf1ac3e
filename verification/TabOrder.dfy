/**
 The order Tab takes through a page, and where it goes backwards. A page is the
 matching elements in document order, each with what the browser says about it;
 an element is named by its position there.
 */
module TabOrder {
  import opened Geometry

  /** `inert`: it or something around it is inert or hidden from assistive technology.
      `hidden`: not displayed or not visible. */
  datatype Control = Control(disabled: bool, tabIndex: int, inert: bool, hidden: bool, rect: Rect)

  type Page = seq<Control>

  predicate Eligible(c: Control) {
    && !c.disabled && c.tabIndex >= 0 && !c.inert && !c.hidden
    && c.rect.right - c.rect.left != 0.0 && c.rect.bottom - c.rect.top != 0.0
  }

  // ----- The order -----

  predicate IsPositive(page: Page, i: nat) { i < |page| && page[i].tabIndex > 0 }

  /** The eligible elements in front of `n`, in document order. */
  function Collected(page: Page, n: nat): seq<nat>
    requires n <= |page|
  {
    if n == 0 then [] else Collected(page, n - 1) + if Eligible(page[n - 1]) then [n - 1] else []
  }

  /** Those whose index is positive, or those where it is zero. */
  function Keep(page: Page, s: seq<nat>, positive: bool): seq<nat> {
    if s == [] then []
    else
      var i := s[|s| - 1];
      Keep(page, s[..|s| - 1], positive) + if IsPositive(page, i) == positive then [i] else []
  }

  function Chosen(page: Page, positive: bool): seq<nat> { Keep(page, Collected(page, |page|), positive) }

  /** Into its place behind everything that has no larger index: stable. */
  function Insert(page: Page, s: seq<nat>, i: nat): seq<nat> {
    if s == [] then [i]
    else if Index(page, s[|s| - 1]) <= Index(page, i) then s + [i]
    else Insert(page, s[..|s| - 1], i) + [s[|s| - 1]]
  }

  function Index(page: Page, i: nat): int { if i < |page| then page[i].tabIndex else 0 }

  function StableSort(page: Page, s: seq<nat>): seq<nat> {
    if s == [] then [] else Insert(page, StableSort(page, s[..|s| - 1]), s[|s| - 1])
  }

  function Order(page: Page): seq<nat> {
    StableSort(page, Chosen(page, true)) + Chosen(page, false)
  }

  /** `tabbable`. */
  method Tabbable(page: Page) returns (order: seq<nat>)
    ensures order == Order(page)
  {
    var out := [];
    for i := 0 to |page|
      invariant out == Collected(page, i)
    {
      var c := page[i];
      if c.disabled || c.tabIndex < 0 || c.inert || c.hidden {
        continue;
      }
      if c.rect.right - c.rect.left == 0.0 || c.rect.bottom - c.rect.top == 0.0 {
        continue;
      }
      out := out + [i];
    }
    order := StableSort(page, Keep(page, out, true)) + Keep(page, out, false);
  }

  // ----- What the order is -----

  /** `i` comes before `j`: positive indices first, ascending; then document order. */
  predicate Precedes(page: Page, i: nat, j: nat) {
    if IsPositive(page, i) != IsPositive(page, j) then IsPositive(page, i)
    else if IsPositive(page, i) && Index(page, i) != Index(page, j) then Index(page, i) < Index(page, j)
    else i < j
  }

  predicate InOrder(page: Page, s: seq<nat>) {
    forall m, n :: 0 <= m < n < |s| ==> Precedes(page, s[m], s[n])
  }

  lemma {:induction false} CollectedMember(page: Page, n: nat, i: nat)
    requires n <= |page|
    ensures i in Collected(page, n) <==> i < n && Eligible(page[i])
  {
    if n > 0 {
      CollectedMember(page, n - 1, i);
    }
  }

  lemma {:induction false} KeepMember(page: Page, s: seq<nat>, positive: bool, i: nat)
    ensures i in Keep(page, s, positive) <==> i in s && IsPositive(page, i) == positive
  {
    if s != [] {
      var front, last := s[..|s| - 1], s[|s| - 1];
      assert s == front + [last];
      KeepMember(page, front, positive, i);
    }
  }

  lemma {:induction false} ChosenMember(page: Page, positive: bool, i: nat)
    ensures i in Chosen(page, positive) <==> i < |page| && Eligible(page[i]) && IsPositive(page, i) == positive
  {
    CollectedMember(page, |page|, i);
    KeepMember(page, Collected(page, |page|), positive, i);
  }

  predicate Ascending(s: seq<nat>) { forall m, n :: 0 <= m < n < |s| ==> s[m] < s[n] }

  lemma {:induction false} AppendAscending(s: seq<nat>, i: nat)
    requires Ascending(s) && forall x :: x in s ==> x < i
    ensures Ascending(s + [i])
  {
    forall m, n | 0 <= m < n < |s + [i]| ensures (s + [i])[m] < (s + [i])[n] {
      assert s[m] in s;
    }
  }

  lemma {:induction false} CollectedAscending(page: Page, n: nat)
    requires n <= |page|
    ensures Ascending(Collected(page, n))
  {
    if n > 0 {
      var front := Collected(page, n - 1);
      CollectedAscending(page, n - 1);
      forall i | i in front ensures i < n - 1 {
        CollectedMember(page, n - 1, i);
      }
      AppendAscending(front, n - 1);
    }
  }

  lemma {:induction false} KeepAscending(page: Page, s: seq<nat>, positive: bool)
    requires Ascending(s)
    ensures Ascending(Keep(page, s, positive))
  {
    if s != [] {
      var front, last := s[..|s| - 1], s[|s| - 1];
      KeepAscending(page, front, positive);
      forall i | i in Keep(page, front, positive) ensures i < last {
        KeepMember(page, front, positive, i);
        var m :| 0 <= m < |front| && front[m] == i;
        assert s[m] < s[|s| - 1];
      }
      AppendAscending(Keep(page, front, positive), last);
    }
  }

  predicate AllPositive(page: Page, s: seq<nat>) { forall i :: i in s ==> IsPositive(page, i) }

  lemma {:induction false} InsertMember(page: Page, s: seq<nat>, i: nat, x: nat)
    ensures x in Insert(page, s, i) <==> x in s || x == i
    decreases |s|
  {
    if s != [] {
      var front, last := s[..|s| - 1], s[|s| - 1];
      assert s == front + [last];
      InsertMember(page, front, i, x);
    }
  }

  lemma {:induction false} LastBehind(page: Page, s: seq<nat>, x: nat)
    requires s != [] && InOrder(page, s) && x in s[..|s| - 1]
    ensures Precedes(page, x, s[|s| - 1])
  {
    var m :| 0 <= m < |s| - 1 && s[m] == x;
  }

  /** Inserting an element that is later in the document keeps the order. */
  lemma {:induction false} InsertInOrder(page: Page, s: seq<nat>, i: nat)
    requires InOrder(page, s) && AllPositive(page, s) && IsPositive(page, i)
    requires forall x :: x in s ==> x < i
    ensures InOrder(page, Insert(page, s, i))
    decreases |s|
  {
    if s != [] {
      var front, last := s[..|s| - 1], s[|s| - 1];
      assert s == front + [last];
      if Index(page, last) <= Index(page, i) {
        forall x | x in s ensures Precedes(page, x, i) {
          if x in front {
            LastBehind(page, s, x);
          }
        }
      } else {
        assert forall x :: x in front ==> x in s;
        InsertInOrder(page, front, i);
        forall x | x in Insert(page, front, i) ensures Precedes(page, x, last) {
          InsertMember(page, front, i, x);
          if x in front {
            LastBehind(page, s, x);
          }
        }
      }
    }
  }

  lemma {:induction false} SortMember(page: Page, s: seq<nat>, x: nat)
    ensures x in StableSort(page, s) <==> x in s
  {
    if s != [] {
      var front, last := s[..|s| - 1], s[|s| - 1];
      assert s == front + [last];
      SortMember(page, front, x);
      InsertMember(page, StableSort(page, front), last, x);
    }
  }

  lemma {:induction false} SortInOrder(page: Page, s: seq<nat>)
    requires Ascending(s) && AllPositive(page, s)
    ensures InOrder(page, StableSort(page, s))
  {
    if s != [] {
      var front, last := s[..|s| - 1], s[|s| - 1];
      assert s == front + [last];
      assert forall i :: i in front ==> i in s;
      SortInOrder(page, front);
      forall x | x in StableSort(page, front) ensures x < last && IsPositive(page, x) {
        SortMember(page, front, x);
      }
      InsertInOrder(page, StableSort(page, front), last);
    }
  }

  lemma {:induction false} OrderMember(page: Page, i: nat)
    ensures i in Order(page) <==> i < |page| && Eligible(page[i])
  {
    SortMember(page, Chosen(page, true), i);
    ChosenMember(page, true, i);
    ChosenMember(page, false, i);
  }

  /** Positive indices first and ascending, then the zeros; ties in document order. */
  lemma {:induction false} OrderInOrder(page: Page)
    ensures InOrder(page, Order(page))
  {
    var positive, zero := Chosen(page, true), Chosen(page, false);
    forall i | i in positive ensures IsPositive(page, i) {
      ChosenMember(page, true, i);
    }
    forall i | i in zero ensures !IsPositive(page, i) {
      ChosenMember(page, false, i);
    }
    forall i | i in StableSort(page, positive) ensures IsPositive(page, i) {
      SortMember(page, positive, i);
    }
    CollectedAscending(page, |page|);
    KeepAscending(page, Collected(page, |page|), true);
    KeepAscending(page, Collected(page, |page|), false);
    SortInOrder(page, positive);
  }

  /** In terms of the indices themselves: in front of a positive index there are only
      positive ones that are not larger, equal ones stand in document order, and every
      element is one that can be tabbed to. */
  lemma {:induction false} TabStops(page: Page, m: nat, n: nat)
    requires m < n < |Order(page)|
    ensures var i, j := Order(page)[m], Order(page)[n];
            && i < |page| && j < |page| && page[i].tabIndex >= 0 && page[j].tabIndex >= 0
            && (page[j].tabIndex > 0 ==> 0 < page[i].tabIndex <= page[j].tabIndex)
            && (page[i].tabIndex == page[j].tabIndex ==> i < j)
  {
    OrderInOrder(page);
    OrderMember(page, Order(page)[m]);
    OrderMember(page, Order(page)[n]);
    assert Precedes(page, Order(page)[m], Order(page)[n]);
  }

  // ----- It is the only such order -----

  lemma {:induction false} SameFirst(page: Page, s: seq<nat>, t: seq<nat>)
    requires InOrder(page, s) && InOrder(page, t) && s != [] && t != []
    requires forall i :: i in s <==> i in t
    ensures s[0] == t[0]
  {
    assert s[0] in t && t[0] in s;
    var m :| 0 <= m < |t| && t[m] == s[0];
    var n :| 0 <= n < |s| && s[n] == t[0];
    if m > 0 && n > 0 {
      assert false;
    }
  }

  lemma {:induction false} RestMember(page: Page, s: seq<nat>, x: nat)
    requires InOrder(page, s) && s != []
    ensures x in s[1..] <==> x in s && x != s[0]
  {
    if x in s[1..] {
      var m :| 0 <= m < |s[1..]| && s[1..][m] == x;
    }
  }

  lemma {:induction false} SomeMember(s: seq<nat>) returns (x: nat)
    requires s != []
    ensures x in s
  {
    x := s[0];
  }

  /** Two listings of the same elements in this order are the same listing, so the order
      does not depend on how the engine sorts. */
  lemma {:induction false} OrderUnique(page: Page, s: seq<nat>, t: seq<nat>)
    requires InOrder(page, s) && InOrder(page, t)
    requires forall i :: i in s <==> i in t
    ensures s == t
  {
    if s == [] {
      if t != [] {
        var _ := SomeMember(t);
      }
    } else {
      assert s[0] in s;
      SameFirst(page, s, t);
      forall x: nat ensures x in s[1..] <==> x in t[1..] {
        RestMember(page, s, x);
        RestMember(page, t, x);
      }
      OrderUnique(page, s[1..], t[1..]);
      assert s == [s[0]] + s[1..] && t == [t[0]] + t[1..];
    }
  }

  /** A page without positive indices is walked in document order. */
  lemma {:induction false} ZeroesInDocumentOrder(page: Page)
    requires forall i :: 0 <= i < |page| ==> page[i].tabIndex <= 0
    ensures Ascending(Order(page))
  {
    OrderInOrder(page);
  }

  // ----- Going backwards -----

  predicate OverlapsVertically(a: Rect, b: Rect) { a.top < b.bottom && b.top < a.bottom }

  /** `k` is the place of the later of the two elements in the order. */
  datatype Report = GoesLeft(k: nat, far: real) | GoesUp(k: nat, far: real) | NothingToTab | OneControl

  function PairReport(prev: Rect, next: Rect, k: nat): seq<Report> {
    if OverlapsVertically(prev, next) then
      if next.right <= prev.left then [GoesLeft(k, prev.left - next.right)] else []
    else if next.bottom <= prev.top then [GoesUp(k, prev.top - next.bottom)]
    else []
  }

  /** The reports of the pairs up to the one that ends at `n`. */
  function PairReports(rects: seq<Rect>, n: nat): seq<Report>
    requires n <= |rects|
  {
    if n <= 1 then [] else PairReports(rects, n - 1) + PairReport(rects[n - 2], rects[n - 1], n - 1)
  }

  function Reports(rects: seq<Rect>): seq<Report> {
    PairReports(rects, |rects|) + if |rects| == 0 then [NothingToTab] else if |rects| == 1 then [OneControl] else []
  }

  /** The loop over consecutive elements, and what is said of a page with none or one. */
  method Inversions(rects: seq<Rect>) returns (out: seq<Report>)
    ensures out == Reports(rects)
  {
    out := [];
    var i := 1;
    while i < |rects|
      invariant 1 <= i && (i <= |rects| || (|rects| == 0 && out == []))
      invariant i <= |rects| ==> out == PairReports(rects, i)
    {
      var prev, next := rects[i - 1], rects[i];
      if OverlapsVertically(prev, next) {
        if next.right <= prev.left {
          out := out + [GoesLeft(i, prev.left - next.right)];
        }
        i := i + 1;
        continue;
      }
      if next.bottom <= prev.top {
        out := out + [GoesUp(i, prev.top - next.bottom)];
      }
      i := i + 1;
    }
    if |rects| == 0 {
      out := out + [NothingToTab];
    } else if |rects| == 1 {
      out := out + [OneControl];
    }
  }

  /** Down clear of the previous element, or not left of it on its line. */
  predicate Forward(prev: Rect, next: Rect) {
    if OverlapsVertically(prev, next) then prev.left < next.right else prev.bottom <= next.top
  }

  predicate Upright(r: Rect) { r.top < r.bottom }

  lemma {:induction false} PairMember(rects: seq<Rect>, n: nat, r: Report)
    requires n <= |rects|
    ensures r in PairReports(rects, n) <==>
            (r.GoesLeft? || r.GoesUp?) && 1 <= r.k < n && r in PairReport(rects[r.k - 1], rects[r.k], r.k)
  {
    if n > 1 {
      PairMember(rects, n - 1, r);
    }
  }

  /** Exactly the consecutive pairs that go left on an overlapping band, or up clear of it,
      are reported, with the distance. */
  lemma {:induction false} ReportedIff(rects: seq<Rect>, k: nat, far: real)
    requires 1 <= k < |rects|
    ensures var prev, next := rects[k - 1], rects[k];
            var sameBand := prev.top < next.bottom && next.top < prev.bottom;
            && (GoesLeft(k, far) in Reports(rects) <==>
                sameBand && next.right <= prev.left && far == prev.left - next.right)
            && (GoesUp(k, far) in Reports(rects) <==>
                !sameBand && next.bottom <= prev.top && far == prev.top - next.bottom)
  {
    PairMember(rects, |rects|, GoesLeft(k, far));
    PairMember(rects, |rects|, GoesUp(k, far));
  }

  /** Every step in front of `n` goes forward. */
  predicate AllForward(rects: seq<Rect>, n: nat)
    requires n <= |rects|
  {
    n <= 1 || (AllForward(rects, n - 1) && Forward(rects[n - 2], rects[n - 1]))
  }

  lemma {:induction false} ForwardAt(rects: seq<Rect>, n: nat, k: nat)
    requires n <= |rects| && AllForward(rects, n) && 1 <= k < n
    ensures Forward(rects[k - 1], rects[k])
  {
    if k < n - 1 {
      ForwardAt(rects, n - 1, k);
    }
  }

  lemma {:induction false} PairsSilentIff(rects: seq<Rect>, n: nat)
    requires n <= |rects| && forall r :: r in rects ==> Upright(r)
    ensures PairReports(rects, n) == [] <==> AllForward(rects, n)
  {
    if n > 1 {
      PairsSilentIff(rects, n - 1);
      var front, last := PairReports(rects, n - 1), PairReport(rects[n - 2], rects[n - 1], n - 1);
      assert last == [] <==> Forward(rects[n - 2], rects[n - 1]) by {
        assert rects[n - 2] in rects && rects[n - 1] in rects;
      }
    }
  }

  /** Nothing is said exactly of a page with two controls or more where every step goes forward. */
  lemma {:induction false} SilentIff(rects: seq<Rect>)
    requires forall r :: r in rects ==> Upright(r)
    ensures Reports(rects) == [] <==> |rects| >= 2 && AllForward(rects, |rects|)
  {
    PairsSilentIff(rects, |rects|);
  }

  predicate OnPage(page: Page, order: seq<nat>) {
    forall k :: 0 <= k < |order| ==> order[k] < |page|
  }

  function RectsOf(page: Page, order: seq<nat>): seq<Rect>
    requires OnPage(page, order)
  {
    if order == [] then [] else [page[order[0]].rect] + RectsOf(page, order[1..])
  }

  lemma {:induction false} OrderOnPage(page: Page)
    ensures OnPage(page, Order(page))
    ensures forall k :: 0 <= k < |Order(page)| ==> Eligible(page[Order(page)[k]])
  {
    var order := Order(page);
    forall k | 0 <= k < |order| ensures order[k] < |page| && Eligible(page[order[k]]) {
      OrderMember(page, order[k]);
    }
  }

  lemma {:induction false} RectsAt(page: Page, order: seq<nat>, k: nat)
    requires OnPage(page, order) && k < |order|
    ensures |RectsOf(page, order)| == |order| && RectsOf(page, order)[k] == page[order[k]].rect
    decreases |order|
  {
    if |order| > 1 {
      RectsAt(page, order[1..], if k > 0 then k - 1 else 0);
    }
  }

  /** What `getBoundingClientRect` promises of its boxes. */
  predicate NoNegativeHeights(page: Page) {
    forall i :: 0 <= i < |page| ==> page[i].rect.top <= page[i].rect.bottom
  }

  /** Tab goes forward from the `k`-th stop on the page to the next. */
  predicate GoesForward(page: Page, order: seq<nat>, k: nat)
    requires OnPage(page, order) && 1 <= k < |order|
  {
    Forward(page[order[k - 1]].rect, page[order[k]].rect)
  }

  lemma {:induction false} ForwardSteps(rects: seq<Rect>, n: nat)
    requires n <= |rects| && forall k :: 1 <= k < n ==> Forward(rects[k - 1], rects[k])
    ensures AllForward(rects, n)
  {
    if n > 1 {
      ForwardSteps(rects, n - 1);
    }
  }

  /** The probe says nothing of a page exactly when Tab has two stops or more and goes
      forward from each to the next. */
  lemma {:induction false} PageSilentIff(page: Page)
    requires NoNegativeHeights(page)
    ensures var order := Order(page);
            && OnPage(page, order)
            && (Reports(RectsOf(page, order)) == [] <==>
                |order| >= 2 && forall k :: 1 <= k < |order| ==> GoesForward(page, order, k))
  {
    OrderOnPage(page);
    var order := Order(page);
    var rects := RectsOf(page, order);
    forall k | 0 <= k < |order| ensures |rects| == |order| && rects[k] == page[order[k]].rect {
      RectsAt(page, order, k);
    }
    assert |rects| == |order| by { assert order == [] ==> rects == []; }
    SilentIff(rects);
    if AllForward(rects, |rects|) {
      forall k | 1 <= k < |order| ensures GoesForward(page, order, k) {
        ForwardAt(rects, |rects|, k);
      }
    }
    if forall k :: 1 <= k < |order| ==> GoesForward(page, order, k) {
      forall k | 1 <= k < |rects| ensures Forward(rects[k - 1], rects[k]) {
        assert GoesForward(page, order, k);
      }
      ForwardSteps(rects, |rects|);
    }
  }

  /** The whole probe. */
  method Probe(page: Page) returns (out: seq<Report>)
    ensures OnPage(page, Order(page)) && out == Reports(RectsOf(page, Order(page)))
    ensures NoNegativeHeights(page) ==>
              (out == [] <==> |Order(page)| >= 2 && forall k :: 1 <= k < |Order(page)| ==> GoesForward(page, Order(page), k))
  {
    var order := Tabbable(page);
    OrderOnPage(page);
    out := Inversions(RectsOf(page, order));
    if NoNegativeHeights(page) {
      PageSilentIff(page);
    }
  }
}
