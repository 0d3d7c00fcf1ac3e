/** The pair loop: which leaves are reported, and by how much they overlap. */
module OverlapPairs {
  import opened Strings
  import opened Geometry
  import opened Overlap

  /** The extent of an overlap: `ox` and `oy`. */
  datatype Size = Size(x: real, y: real)

  datatype Leaf = Leaf(el: nat, boxes: seq<Rect>)

  datatype Hit = Hit(i: nat, j: nat, size: Size)

  function Area(s: Size): real { s.x * s.y }

  predicate IsReal(s: Size) { s.x > 3.0 && s.y > 3.0 }

  function Shared(a: Rect, b: Rect): Size {
    Size(Min(a.right, b.right) - Max(a.left, b.left), Min(a.bottom, b.bottom) - Max(a.top, b.top))
  }

  const NOTHING := Size(0.0, 0.0)

  // ----- The largest overlap of two leaves -----

  function Larger(best: Size, s: Size): Size {
    if IsReal(s) && Area(s) > Area(best) then s else best
  }

  function BestOfRow(a: Rect, bs: seq<Rect>, best: Size): Size {
    if bs == [] then best else BestOfRow(a, bs[1..], Larger(best, Shared(a, bs[0])))
  }

  function BestOf(aa: seq<Rect>, bs: seq<Rect>, best: Size): Size {
    if aa == [] then best else BestOf(aa[1..], bs, BestOfRow(aa[0], bs, best))
  }

  /** The two inner loops. */
  method LargestOverlap(aa: seq<Rect>, bs: seq<Rect>) returns (best: Size)
    ensures best == BestOf(aa, bs, NOTHING)
  {
    best := NOTHING;
    assert aa[0..] == aa;
    for i := 0 to |aa|
      invariant BestOf(aa[i..], bs, best) == BestOf(aa, bs, NOTHING)
    {
      assert aa[i..][1..] == aa[i + 1..];
      best := LargestInRow(aa[i], bs, best);
    }
    assert aa[|aa|..] == [];
  }

  method LargestInRow(a: Rect, bs: seq<Rect>, start: Size) returns (best: Size)
    ensures best == BestOfRow(a, bs, start)
  {
    best := start;
    assert bs[0..] == bs;
    for j := 0 to |bs|
      invariant BestOfRow(a, bs[j..], best) == BestOfRow(a, bs, start)
    {
      assert bs[j..][1..] == bs[j + 1..];
      var x := Min(a.right, bs[j].right) - Max(a.left, bs[j].left);
      var y := Min(a.bottom, bs[j].bottom) - Max(a.top, bs[j].top);
      if x > 3.0 && y > 3.0 && x * y > Area(best) {
        best := Size(x, y);
      }
    }
    assert bs[|bs|..] == [];
  }

  /** `s` is a real overlap of some boxes of the two leaves. */
  predicate Overlapping(aa: seq<Rect>, bs: seq<Rect>, s: Size) {
    IsReal(s) && exists a, b :: a in aa && b in bs && s == Shared(a, b)
  }

  predicate InRow(a: Rect, bs: seq<Rect>, s: Size) {
    IsReal(s) && exists b :: b in bs && s == Shared(a, b)
  }

  lemma {:induction false} RowBest(a: Rect, bs: seq<Rect>, start: Size)
    ensures var r := BestOfRow(a, bs, start);
            (r == start || InRow(a, bs, r)) && Area(start) <= Area(r)
  {
    if bs != [] {
      var next := Larger(start, Shared(a, bs[0]));
      RowBest(a, bs[1..], next);
      assert bs[0] in bs && forall b :: b in bs[1..] ==> b in bs;
    }
  }

  lemma {:induction false} RowBound(a: Rect, bs: seq<Rect>, start: Size, b: Rect)
    requires b in bs && IsReal(Shared(a, b))
    ensures Area(Shared(a, b)) <= Area(BestOfRow(a, bs, start))
  {
    var next := Larger(start, Shared(a, bs[0]));
    if b == bs[0] {
      RowBest(a, bs[1..], next);
    } else {
      RowBound(a, bs[1..], next, b);
    }
  }

  lemma {:induction false} AllBest(aa: seq<Rect>, bs: seq<Rect>, start: Size)
    ensures var r := BestOf(aa, bs, start);
            (r == start || Overlapping(aa, bs, r)) && Area(start) <= Area(r)
  {
    if aa != [] {
      var next := BestOfRow(aa[0], bs, start);
      RowBest(aa[0], bs, start);
      AllBest(aa[1..], bs, next);
      assert aa[0] in aa && forall a :: a in aa[1..] ==> a in aa;
    }
  }

  lemma {:induction false} AllBound(aa: seq<Rect>, bs: seq<Rect>, start: Size, a: Rect, b: Rect)
    requires a in aa && b in bs && IsReal(Shared(a, b))
    ensures Area(Shared(a, b)) <= Area(BestOf(aa, bs, start))
  {
    var next := BestOfRow(aa[0], bs, start);
    if a == aa[0] {
      RowBound(a, bs, start, b);
      AllBest(aa[1..], bs, next);
    } else {
      AllBound(aa[1..], bs, next, a, b);
    }
  }

  lemma {:induction false} BestBounds(aa: seq<Rect>, bs: seq<Rect>, s: Size)
    requires Overlapping(aa, bs, s)
    ensures Area(s) <= Area(BestOf(aa, bs, NOTHING)) && IsReal(BestOf(aa, bs, NOTHING))
  {
    var a, b :| a in aa && b in bs && s == Shared(a, b);
    var r := BestOf(aa, bs, NOTHING);
    assert Area(s) <= Area(r) by { AllBound(aa, bs, NOTHING, a, b); }
    assert r == NOTHING || IsReal(r) by { AllBest(aa, bs, NOTHING); }
  }

  /** The size kept is real exactly when some boxes overlap, and then it is the overlap
      of two boxes and no overlap is larger. */
  lemma {:induction false} BestIsLargest(aa: seq<Rect>, bs: seq<Rect>)
    ensures var r := BestOf(aa, bs, NOTHING);
            && (IsReal(r) <==> exists s :: Overlapping(aa, bs, s))
            && (IsReal(r) ==> Overlapping(aa, bs, r))
            && forall s :: Overlapping(aa, bs, s) ==> Area(s) <= Area(r)
  {
    var r := BestOf(aa, bs, NOTHING);
    assert r == NOTHING || Overlapping(aa, bs, r) by { AllBest(aa, bs, NOTHING); }
    forall s | Overlapping(aa, bs, s) ensures Area(s) <= Area(r) && IsReal(r) {
      BestBounds(aa, bs, s);
    }
  }

  // ----- The leaves -----

  predicate AreLeaves(dom: Dom, leaves: seq<Leaf>) {
    forall k :: 0 <= k < |leaves| ==> leaves[k].el < |dom|
  }

  function LeafOf(dom: Dom, el: nat): seq<Leaf>
    requires IsTree(dom) && el < |dom|
  {
    var boxes := PaintedBoxes(dom, el);
    if dom[el].shown && boxes != [] then [Leaf(el, boxes)] else []
  }

  function LeavesUpTo(dom: Dom, n: nat): seq<Leaf>
    requires IsTree(dom) && n <= |dom|
  {
    if n == 0 then [] else LeavesUpTo(dom, n - 1) + LeafOf(dom, n - 1)
  }

  /** The leaves of a page, in document order. */
  function Leaves(dom: Dom): seq<Leaf>
    requires IsTree(dom)
  {
    LeavesUpTo(dom, |dom|)
  }

  /** The loop that collects them. */
  method CollectLeaves(dom: Dom) returns (found: seq<Leaf>)
    requires IsTree(dom)
    ensures found == Leaves(dom)
  {
    found := [];
    for el := 0 to |dom|
      invariant found == LeavesUpTo(dom, el)
    {
      if dom[el].shown {
        var boxes := PaintedBoxes(dom, el);
        if boxes != [] {
          found := found + [Leaf(el, boxes)];
        }
      }
    }
  }

  lemma {:induction false} LeavesFit(dom: Dom, n: nat)
    requires IsTree(dom) && n <= |dom|
    ensures AreLeaves(dom, LeavesUpTo(dom, n))
  {
    if n > 0 {
      LeavesFit(dom, n - 1);
      assert AreLeaves(dom, LeafOf(dom, n - 1));
    }
  }

  lemma {:induction false} LeafMeaning(dom: Dom, n: nat, leaf: Leaf)
    requires IsTree(dom) && n <= |dom|
    ensures leaf in LeavesUpTo(dom, n) <==>
            leaf.el < n && dom[leaf.el].shown && leaf.boxes == PaintedBoxes(dom, leaf.el) && leaf.boxes != []
  {
    if n > 0 {
      LeafMeaning(dom, n - 1, leaf);
    }
  }

  /** The leaves of a page are the shown elements that paint something, and the boxes of a
      leaf are what its element paints. */
  lemma {:induction false} LeafIff(dom: Dom, el: nat)
    requires IsTree(dom)
    ensures (exists leaf :: leaf in Leaves(dom) && leaf.el == el) <==>
            el < |dom| && dom[el].shown && exists b :: Paints(dom, el, b)
    ensures forall leaf, b :: leaf in Leaves(dom) && leaf.el == el ==> el < |dom| && (b in leaf.boxes <==> Paints(dom, el, b))
  {
    forall leaf | leaf in Leaves(dom) && leaf.el == el
      ensures el < |dom| && dom[el].shown && leaf.boxes == PaintedBoxes(dom, el) && leaf.boxes != []
    {
      LeafMeaning(dom, |dom|, leaf);
    }
    if el < |dom| {
      var boxes := PaintedBoxes(dom, el);
      forall b ensures b in boxes <==> Paints(dom, el, b) {
        PaintedMeaning(dom, el, b);
      }
      if boxes != [] {
        assert Paints(dom, el, boxes[0]);
      }
      LeafMeaning(dom, |dom|, Leaf(el, boxes));
    }
  }

  /** They stand in document order. */
  lemma {:induction false} LeavesInOrder(dom: Dom, n: nat)
    requires IsTree(dom) && n <= |dom|
    ensures forall i, j :: 0 <= i < j < |LeavesUpTo(dom, n)| ==> LeavesUpTo(dom, n)[i].el < LeavesUpTo(dom, n)[j].el
  {
    if n > 0 {
      LeavesInOrder(dom, n - 1);
      var front := LeavesUpTo(dom, n - 1);
      forall i | 0 <= i < |front| ensures front[i].el < n - 1 {
        LeafMeaning(dom, n - 1, front[i]);
      }
    }
  }

  // ----- The pairs -----

  /** Something opaque hides one of two elements from the other. */
  predicate Between(dom: Dom, a: nat, b: nat)
    requires IsTree(dom) && a < |dom| && b < |dom|
  {
    var stop := FirstIn(dom, Some(b), Ancestors(dom, Some(a)));
    OpaqueUp(dom, Some(a), stop) || OpaqueUp(dom, Some(b), stop)
  }

  function HitOf(dom: Dom, leaves: seq<Leaf>, i: nat, j: nat): seq<Hit>
    requires IsTree(dom) && AreLeaves(dom, leaves) && i < |leaves| && j < |leaves|
  {
    var size := BestOf(leaves[i].boxes, leaves[j].boxes, NOTHING);
    if IsReal(size) && !Between(dom, leaves[i].el, leaves[j].el) then [Hit(i, j, size)] else []
  }

  /** What is reported for each pair of leaves. */
  function Pairing(dom: Dom, leaves: seq<Leaf>): (nat, nat) -> seq<Hit>
    requires IsTree(dom) && AreLeaves(dom, leaves)
  {
    (i: nat, j: nat) => if i < |leaves| && j < |leaves| then HitOf(dom, leaves, i, j) else []
  }

  function RowHits(hit: (nat, nat) -> seq<Hit>, n: nat, i: nat, j: nat): seq<Hit>
    requires j <= n
    decreases n - j
  {
    if j == n then [] else hit(i, j) + RowHits(hit, n, i, j + 1)
  }

  /** The reports for the pairs `i < j`, row by row. */
  function HitsFrom(hit: (nat, nat) -> seq<Hit>, n: nat, i: nat): seq<Hit>
    requires i <= n
    decreases n - i
  {
    if i == n then [] else RowHits(hit, n, i, i + 1) + HitsFrom(hit, n, i + 1)
  }

  function Hits(dom: Dom, leaves: seq<Leaf>): seq<Hit>
    requires IsTree(dom) && AreLeaves(dom, leaves)
  {
    HitsFrom(Pairing(dom, leaves), |leaves|, 0)
  }

  /** The body of the pair loop. */
  method FindPair(dom: Dom, leaves: seq<Leaf>, i: nat, j: nat) returns (out: seq<Hit>)
    requires IsTree(dom) && AreLeaves(dom, leaves) && i < |leaves| && j < |leaves|
    ensures out == HitOf(dom, leaves, i, j)
  {
    out := [];
    var size := LargestOverlap(leaves[i].boxes, leaves[j].boxes);
    if size.x > 3.0 && size.y > 3.0 {
      var stop := CommonAncestor(dom, leaves[i].el, leaves[j].el);
      var first := OpaqueBetween(dom, leaves[i].el, stop);
      var second := OpaqueBetween(dom, leaves[j].el, stop);
      if !first && !second {
        out := [Hit(i, j, size)];
      }
    }
  }

  lemma {:induction false} RowStep(hit: (nat, nat) -> seq<Hit>, n: nat, i: nat, j: nat, out: seq<Hit>)
    requires j < n
    ensures out + RowHits(hit, n, i, j) == out + hit(i, j) + RowHits(hit, n, i, j + 1)
  {
  }

  method FindRow(dom: Dom, leaves: seq<Leaf>, i: nat) returns (out: seq<Hit>)
    requires IsTree(dom) && AreLeaves(dom, leaves) && i < |leaves|
    ensures out == RowHits(Pairing(dom, leaves), |leaves|, i, i + 1)
  {
    out := [];
    ghost var hit := Pairing(dom, leaves);
    for j := i + 1 to |leaves|
      invariant out + RowHits(hit, |leaves|, i, j) == RowHits(hit, |leaves|, i, i + 1)
    {
      var one := FindPair(dom, leaves, i, j);
      RowStep(hit, |leaves|, i, j, out);
      out := out + one;
    }
  }

  /** The whole probe, before its cut to eight. */
  method FindOverlaps(dom: Dom) returns (leaves: seq<Leaf>, out: seq<Hit>)
    requires IsTree(dom)
    ensures leaves == Leaves(dom) && AreLeaves(dom, leaves)
    ensures out == Hits(dom, leaves)
  {
    leaves := CollectLeaves(dom);
    LeavesFit(dom, |dom|);
    out := [];
    ghost var hit := Pairing(dom, leaves);
    for i := 0 to |leaves|
      invariant out + HitsFrom(hit, |leaves|, i) == HitsFrom(hit, |leaves|, 0)
    {
      var row := FindRow(dom, leaves, i);
      assert out + (row + HitsFrom(hit, |leaves|, i + 1)) == out + row + HitsFrom(hit, |leaves|, i + 1);
      out := out + row;
    }
  }

  // ----- What is reported -----

  /** Reports carry the pair they are about. */
  predicate Labelled(hit: (nat, nat) -> seq<Hit>, n: nat) {
    forall i: nat, j: nat, h | i < n && j < n && h in hit(i, j) :: h.i == i && h.j == j
  }

  lemma {:induction false} RowMember(hit: (nat, nat) -> seq<Hit>, n: nat, i: nat, j: nat, h: Hit)
    requires Labelled(hit, n) && i < n && j <= n
    ensures h in RowHits(hit, n, i, j) <==> h.i == i && j <= h.j < n && h in hit(i, h.j)
    decreases n - j
  {
    if j < n {
      RowMember(hit, n, i, j + 1, h);
    }
  }

  lemma {:induction false} HitMember(hit: (nat, nat) -> seq<Hit>, n: nat, i: nat, h: Hit)
    requires Labelled(hit, n) && i <= n
    ensures h in HitsFrom(hit, n, i) <==> i <= h.i < h.j < n && h in hit(h.i, h.j)
    decreases n - i
  {
    if i < n {
      RowMember(hit, n, i, i + 1, h);
      HitMember(hit, n, i + 1, h);
    }
  }

  /** The reports are those of the pairs `i < j`. */
  lemma {:induction false} HitsMember(dom: Dom, leaves: seq<Leaf>, h: Hit)
    requires IsTree(dom) && AreLeaves(dom, leaves)
    ensures h in Hits(dom, leaves) <==> h.i < h.j < |leaves| && h in HitOf(dom, leaves, h.i, h.j)
  {
    HitMember(Pairing(dom, leaves), |leaves|, 0, h);
  }

  /** No opaque element at or above either lies strictly below their lowest common ancestor `stop`. */
  ghost predicate Bare(dom: Dom, a: nat, b: nat, stop: Option<nat>)
    requires IsTree(dom) && a < |dom| && b < |dom| && Before(stop, |dom|)
  {
    !OpaqueBelow(dom, Some(a), stop) && !OpaqueBelow(dom, Some(b), stop)
  }

  /** `stop` is the lowest common ancestor, or nothing when there is none. */
  ghost predicate IsLowestCommon(dom: Dom, a: nat, b: nat, stop: Option<nat>)
    requires IsTree(dom) && a < |dom| && b < |dom| && Before(stop, |dom|)
  {
    var common := Ancestors(dom, Some(a)) * Ancestors(dom, Some(b));
    if stop.None? then common == {} else stop.value in common && common <= Ancestors(dom, stop)
  }

  lemma {:induction false} BetweenMeaning(dom: Dom, a: nat, b: nat) returns (stop: Option<nat>)
    requires IsTree(dom) && a < |dom| && b < |dom|
    ensures Before(stop, |dom|) && IsLowestCommon(dom, a, b, stop)
    ensures Between(dom, a, b) <==> !Bare(dom, a, b, stop)
  {
    var above := Ancestors(dom, Some(a));
    stop := FirstIn(dom, Some(b), above);
    CommonIsLowest(dom, Some(b), above);
    OpaqueUpMeaning(dom, Some(a), stop);
    OpaqueUpMeaning(dom, Some(b), stop);
  }

  /** A pair of leaves is reported, once, exactly when some of their boxes overlap by more
      than 3 on both axes with nothing opaque below the lowest common ancestor. */
  lemma {:induction false} ReportedIff(dom: Dom, leaves: seq<Leaf>, i: nat, j: nat) returns (stop: Option<nat>)
    requires IsTree(dom) && AreLeaves(dom, leaves) && i < j < |leaves|
    ensures Before(stop, |dom|) && IsLowestCommon(dom, leaves[i].el, leaves[j].el, stop)
    ensures (exists size :: Hit(i, j, size) in Hits(dom, leaves)) <==>
            && (exists s :: Overlapping(leaves[i].boxes, leaves[j].boxes, s))
            && Bare(dom, leaves[i].el, leaves[j].el, stop)
  {
    stop := BetweenMeaning(dom, leaves[i].el, leaves[j].el);
    BestIsLargest(leaves[i].boxes, leaves[j].boxes);
    var best := BestOf(leaves[i].boxes, leaves[j].boxes, NOTHING);
    HitsMember(dom, leaves, Hit(i, j, best));
    forall size | Hit(i, j, size) in Hits(dom, leaves) ensures size == best {
      HitsMember(dom, leaves, Hit(i, j, size));
    }
  }

  /** Every report is a pair in document order, sized by the largest overlap of their boxes. */
  lemma {:induction false} ReportSize(dom: Dom, leaves: seq<Leaf>, h: Hit)
    requires IsTree(dom) && AreLeaves(dom, leaves) && h in Hits(dom, leaves)
    ensures h.i < h.j < |leaves| && Overlapping(leaves[h.i].boxes, leaves[h.j].boxes, h.size)
    ensures forall s :: Overlapping(leaves[h.i].boxes, leaves[h.j].boxes, s) ==> Area(s) <= Area(h.size)
  {
    HitsMember(dom, leaves, h);
    BestIsLargest(leaves[h.i].boxes, leaves[h.j].boxes);
  }

  // ----- What is reported, element by element -----

  /** Two boxes overlap by more than 3 on both axes. */
  predicate Overprint(p: Rect, q: Rect) {
    && p.right - p.left > 3.0 && q.right - q.left > 3.0 && p.right - q.left > 3.0 && q.right - p.left > 3.0
    && p.bottom - p.top > 3.0 && q.bottom - q.top > 3.0 && p.bottom - q.top > 3.0 && q.bottom - p.top > 3.0
  }

  lemma {:induction false} OverprintIff(p: Rect, q: Rect)
    ensures Overprint(p, q) <==> IsReal(Shared(p, q))
  {
  }

  /** Something that `a` paints overprints something that `b` paints. */
  ghost predicate PaintedOver(dom: Dom, a: nat, b: nat)
    requires IsTree(dom) && a < |dom| && b < |dom|
  {
    exists p, q :: Paints(dom, a, p) && Paints(dom, b, q) && Overprint(p, q)
  }

  lemma {:induction false} OverlapOfLeaves(dom: Dom, leaves: seq<Leaf>, i: nat, j: nat)
    requires IsTree(dom) && leaves == Leaves(dom) && AreLeaves(dom, leaves) && i < |leaves| && j < |leaves|
    ensures (exists s :: Overlapping(leaves[i].boxes, leaves[j].boxes, s)) <==>
            PaintedOver(dom, leaves[i].el, leaves[j].el)
  {
    var a, b := leaves[i].el, leaves[j].el;
    LeafIff(dom, a);
    LeafIff(dom, b);
    assert leaves[i] in leaves && leaves[j] in leaves;
    if PaintedOver(dom, a, b) {
      var p, q :| Paints(dom, a, p) && Paints(dom, b, q) && Overprint(p, q);
      OverprintIff(p, q);
      assert Overlapping(leaves[i].boxes, leaves[j].boxes, Shared(p, q));
    }
    if s :| Overlapping(leaves[i].boxes, leaves[j].boxes, s) {
      var p, q :| p in leaves[i].boxes && q in leaves[j].boxes && s == Shared(p, q);
      OverprintIff(p, q);
    }
  }

  /** There is a report about the elements `a` and `b`. */
  ghost predicate Reported(dom: Dom, leaves: seq<Leaf>, a: nat, b: nat)
    requires IsTree(dom) && AreLeaves(dom, leaves)
  {
    exists i: nat, j: nat, size :: ReportsOn(dom, leaves, a, b, i, j, size)
  }

  predicate ReportsOn(dom: Dom, leaves: seq<Leaf>, a: nat, b: nat, i: nat, j: nat, size: Size)
    requires IsTree(dom) && AreLeaves(dom, leaves)
  {
    i < j < |leaves| && leaves[i].el == a && leaves[j].el == b && Hit(i, j, size) in Hits(dom, leaves)
  }

  /** A pair of leaves is reported, in terms of what their elements paint. */
  lemma {:induction false} PairReported(dom: Dom, leaves: seq<Leaf>, i: nat, j: nat, stop: Option<nat>)
    requires IsTree(dom) && leaves == Leaves(dom) && AreLeaves(dom, leaves) && i < j < |leaves|
    requires Before(stop, |dom|) && (Between(dom, leaves[i].el, leaves[j].el) <==> !Bare(dom, leaves[i].el, leaves[j].el, stop))
    ensures (exists size :: Hit(i, j, size) in Hits(dom, leaves)) <==>
            PaintedOver(dom, leaves[i].el, leaves[j].el) && Bare(dom, leaves[i].el, leaves[j].el, stop)
  {
    OverlapOfLeaves(dom, leaves, i, j);
    BestIsLargest(leaves[i].boxes, leaves[j].boxes);
    var best := BestOf(leaves[i].boxes, leaves[j].boxes, NOTHING);
    HitsMember(dom, leaves, Hit(i, j, best));
    forall size | Hit(i, j, size) in Hits(dom, leaves) ensures size == best {
      HitsMember(dom, leaves, Hit(i, j, size));
    }
  }

  lemma {:induction false} LeafAt(dom: Dom, el: nat) returns (i: nat)
    requires IsTree(dom) && el < |dom| && dom[el].shown && exists b :: Paints(dom, el, b)
    ensures i < |Leaves(dom)| && Leaves(dom)[i].el == el
  {
    LeafIff(dom, el);
    var leaf :| leaf in Leaves(dom) && leaf.el == el;
    i :| 0 <= i < |Leaves(dom)| && Leaves(dom)[i] == leaf;
  }

  /** The probe reports on two elements of a page exactly when the first stands before the
      second, both are shown text, some line that one paints overprints a line that the
      other paints, and nothing opaque lies below their lowest common ancestor. */
  lemma {:induction false} PageReportedIff(dom: Dom, a: nat, b: nat) returns (stop: Option<nat>)
    requires IsTree(dom) && a < |dom| && b < |dom|
    ensures Before(stop, |dom|) && IsLowestCommon(dom, a, b, stop)
    ensures AreLeaves(dom, Leaves(dom))
    ensures Reported(dom, Leaves(dom), a, b) <==>
            a < b && dom[a].shown && dom[b].shown && PaintedOver(dom, a, b) && Bare(dom, a, b, stop)
  {
    var leaves := Leaves(dom);
    LeavesFit(dom, |dom|);
    LeavesInOrder(dom, |dom|);
    stop := BetweenMeaning(dom, a, b);
    if Reported(dom, leaves, a, b) {
      var i: nat, j: nat, size :| ReportsOn(dom, leaves, a, b, i, j, size);
      PairReported(dom, leaves, i, j, stop);
      assert leaves[i] in leaves && leaves[j] in leaves;
      LeafIff(dom, a);
      LeafIff(dom, b);
    }
    if a < b && dom[a].shown && dom[b].shown && PaintedOver(dom, a, b) && Bare(dom, a, b, stop) {
      var i := LeafAt(dom, a);
      var j := LeafAt(dom, b);
      assert i < j;
      PairReported(dom, leaves, i, j, stop);
      var size :| Hit(i, j, size) in Hits(dom, leaves);
      assert ReportsOn(dom, leaves, a, b, i, j, size);
    }
  }

  predicate Earlier(a: Hit, b: Hit) { a.i < b.i || (a.i == b.i && a.j < b.j) }

  predicate Ordered(hits: seq<Hit>) {
    forall m, n :: 0 <= m < n < |hits| ==> Earlier(hits[m], hits[n])
  }

  lemma {:induction false} RowOrdered(hit: (nat, nat) -> seq<Hit>, n: nat, i: nat, j: nat)
    requires Labelled(hit, n) && AtMostOne(hit, n) && i < n && j <= n
    ensures Ordered(RowHits(hit, n, i, j))
    decreases n - j
  {
    if j < n {
      RowOrdered(hit, n, i, j + 1);
      forall x, y | x in hit(i, j) && y in RowHits(hit, n, i, j + 1) ensures Earlier(x, y) {
        RowMember(hit, n, i, j + 1, y);
      }
    }
  }

  predicate AtMostOne(hit: (nat, nat) -> seq<Hit>, n: nat) {
    forall i: nat, j: nat | i < n && j < n :: |hit(i, j)| <= 1
  }

  lemma {:induction false} OrderedFrom(hit: (nat, nat) -> seq<Hit>, n: nat, i: nat)
    requires Labelled(hit, n) && AtMostOne(hit, n) && i <= n
    ensures Ordered(HitsFrom(hit, n, i))
    decreases n - i
  {
    if i < n {
      var row, rest := RowHits(hit, n, i, i + 1), HitsFrom(hit, n, i + 1);
      RowOrdered(hit, n, i, i + 1);
      OrderedFrom(hit, n, i + 1);
      forall x, y | x in row && y in rest ensures Earlier(x, y) {
        RowMember(hit, n, i, i + 1, x);
        HitMember(hit, n, i + 1, y);
      }
    }
  }

  /** Reports come in the order of their pairs, so the cut keeps the first eight. */
  lemma {:induction false} HitsOrdered(dom: Dom, leaves: seq<Leaf>)
    requires IsTree(dom) && AreLeaves(dom, leaves)
    ensures Ordered(Hits(dom, leaves))
  {
    OrderedFrom(Pairing(dom, leaves), |leaves|, 0);
  }
}
