/**
 Text painted over text. The document is a sequence of elements in document order,
 each with an earlier parent; coordinates are exact. What the browser computes for
 an element (its boxes, its overflow, its background) is given with it.
 */
module Overlap {
  import opened Strings
  import opened Geometry

  /** A background colour: no `rgb` at all, three components, or four. */
  datatype Color = NoColor | Solid | Alpha(alpha: real)

  /** `shown`: has no children, has text, and is neither hidden nor transparent. */
  datatype Element = Element(parent: Option<nat>, clipX: bool, clipY: bool, bounds: Rect, lines: seq<Rect>,
                             image: bool, color: Color, shown: bool)

  type Dom = seq<Element>

  predicate IsTree(dom: Dom) {
    forall i :: 0 <= i < |dom| ==> Before(dom[i].parent, i)
  }

  /** A reference to an element in front of `n`, or to nothing. */
  predicate Before(p: Option<nat>, n: nat) { p.Some? ==> p.value < n }

  /** `p` and everything above it. */
  function Ancestors(dom: Dom, p: Option<nat>): set<nat>
    requires IsTree(dom) && Before(p, |dom|)
    decreases if p.Some? then p.value + 1 else 0
  {
    if p.None? then {} else {p.value} + Ancestors(dom, dom[p.value].parent)
  }

  // ----- Clipping -----

  function ClipBy(e: Element, box: Rect): Rect {
    var x := if e.clipX then Rect(Max(box.left, e.bounds.left), box.top, Min(box.right, e.bounds.right), box.bottom) else box;
    if e.clipY then Rect(x.left, Max(x.top, e.bounds.top), x.right, Min(x.bottom, e.bounds.bottom)) else x
  }

  function Clip(dom: Dom, box: Rect, p: Option<nat>): Rect
    requires IsTree(dom) && Before(p, |dom|)
    decreases if p.Some? then p.value + 1 else 0
  {
    if p.None? then box else Clip(dom, ClipBy(dom[p.value], box), dom[p.value].parent)
  }

  /** `clipRect`. */
  method ClipRect(dom: Dom, r: Rect, el: nat) returns (box: Rect)
    requires IsTree(dom) && el < |dom|
    ensures box == Clip(dom, r, dom[el].parent)
  {
    box := r;
    var p := dom[el].parent;
    ghost var target := Clip(dom, r, p);
    while p.Some?
      invariant Before(p, |dom|) && Clip(dom, box, p) == target
      decreases if p.Some? then p.value + 1 else 0
    {
      var e := dom[p.value];
      p := e.parent;
      if !e.clipX && !e.clipY {
        continue;
      }
      if e.clipX {
        box := Rect(Max(box.left, e.bounds.left), box.top, Min(box.right, e.bounds.right), box.bottom);
      }
      if e.clipY {
        box := Rect(box.left, Max(box.top, e.bounds.top), box.right, Min(box.bottom, e.bounds.bottom));
      }
    }
  }

  predicate InX(r: Rect, x: real) { r.left <= x <= r.right }

  predicate InY(r: Rect, y: real) { r.top <= y <= r.bottom }

  /** The clipped box is the intersection with every clipping ancestor, axis by axis. */
  lemma {:induction false} ClipIsIntersectionX(dom: Dom, box: Rect, p: Option<nat>, x: real)
    requires IsTree(dom) && Before(p, |dom|)
    ensures InX(Clip(dom, box, p), x) <==>
            InX(box, x) && forall a | 0 <= a < |dom| :: a in Ancestors(dom, p) && dom[a].clipX ==> InX(dom[a].bounds, x)
    decreases if p.Some? then p.value + 1 else 0
  {
    if p.Some? {
      ClipIsIntersectionX(dom, ClipBy(dom[p.value], box), dom[p.value].parent, x);
    }
  }

  lemma {:induction false} ClipIsIntersectionY(dom: Dom, box: Rect, p: Option<nat>, y: real)
    requires IsTree(dom) && Before(p, |dom|)
    ensures InY(Clip(dom, box, p), y) <==>
            InY(box, y) && forall a | 0 <= a < |dom| :: a in Ancestors(dom, p) && dom[a].clipY ==> InY(dom[a].bounds, y)
    decreases if p.Some? then p.value + 1 else 0
  {
    if p.Some? {
      ClipIsIntersectionY(dom, ClipBy(dom[p.value], box), dom[p.value].parent, y);
    }
  }

  // ----- Painted boxes -----

  predicate IsVisible(b: Rect) { b.right - b.left > 4.0 && b.bottom - b.top > 4.0 }

  function ClippedLines(dom: Dom, rects: seq<Rect>, p: Option<nat>): seq<Rect>
    requires IsTree(dom) && Before(p, |dom|)
  {
    if rects == [] then []
    else
      var b := Clip(dom, rects[0], p);
      (if IsVisible(b) then [b] else []) + ClippedLines(dom, rects[1..], p)
  }

  function LinesOf(e: Element): seq<Rect> { if e.lines != [] then e.lines else [e.bounds] }

  /** `paintedBoxes`. */
  function PaintedBoxes(dom: Dom, el: nat): seq<Rect>
    requires IsTree(dom) && el < |dom|
  {
    ClippedLines(dom, LinesOf(dom[el]), dom[el].parent)
  }

  lemma {:induction false} ClippedMeaning(dom: Dom, rects: seq<Rect>, p: Option<nat>, b: Rect)
    requires IsTree(dom) && Before(p, |dom|)
    ensures b in ClippedLines(dom, rects, p) <==>
            IsVisible(b) && exists r :: r in rects && b == Clip(dom, r, p)
  {
    if rects != [] {
      ClippedMeaning(dom, rects[1..], p, b);
      var first := Clip(dom, rects[0], p);
      assert b in ClippedLines(dom, rects, p) <==> (IsVisible(first) && b == first) || b in ClippedLines(dom, rects[1..], p);
      assert rects[0] in rects && forall r :: r in rects <==> r == rects[0] || r in rects[1..];
    }
  }

  /** `b` is what the ancestors of an element leave of one of its line boxes, or of its
      bounds when it has none, and it is more than 4 wide and high. */
  ghost predicate Paints(dom: Dom, el: nat, b: Rect)
    requires IsTree(dom) && el < |dom|
  {
    && b.right - b.left > 4.0 && b.bottom - b.top > 4.0
    && if dom[el].lines == [] then b == Clip(dom, dom[el].bounds, dom[el].parent)
       else exists r :: r in dom[el].lines && b == Clip(dom, r, dom[el].parent)
  }

  /** `paintedBoxes` lists what an element paints, line by line. */
  lemma {:induction false} PaintedMeaning(dom: Dom, el: nat, b: Rect)
    requires IsTree(dom) && el < |dom|
    ensures b in PaintedBoxes(dom, el) <==> Paints(dom, el, b)
  {
    ClippedMeaning(dom, LinesOf(dom[el]), dom[el].parent, b);
  }

  // ----- The common ancestor -----

  /** The first of `p` and the elements above it that is in `seen`. */
  function FirstIn(dom: Dom, p: Option<nat>, seen: set<nat>): (r: Option<nat>)
    requires IsTree(dom) && Before(p, |dom|)
    ensures Before(r, |dom|)
    decreases if p.Some? then p.value + 1 else 0
  {
    if p.None? || p.value in seen then p else FirstIn(dom, dom[p.value].parent, seen)
  }

  /** `commonAncestor`. */
  method CommonAncestor(dom: Dom, a: nat, b: nat) returns (r: Option<nat>)
    requires IsTree(dom) && a < |dom| && b < |dom|
    ensures r == FirstIn(dom, Some(b), Ancestors(dom, Some(a)))
  {
    var seen: set<nat> := {};
    var p: Option<nat> := Some(a);
    ghost var all := Ancestors(dom, p);
    while p.Some?
      invariant Before(p, |dom|) && seen + Ancestors(dom, p) == all
      decreases if p.Some? then p.value + 1 else 0
    {
      seen := seen + {p.value};
      p := dom[p.value].parent;
    }
    p := Some(b);
    ghost var target := FirstIn(dom, p, seen);
    while p.Some?
      invariant Before(p, |dom|) && FirstIn(dom, p, seen) == target
      decreases if p.Some? then p.value + 1 else 0
    {
      if p.value in seen {
        return p;
      }
      p := dom[p.value].parent;
    }
    return None;
  }

  /** It is common to both, and everything else common to both is above it; there is
      none exactly when nothing is common. */
  lemma {:induction false} CommonIsLowest(dom: Dom, p: Option<nat>, seen: set<nat>)
    requires IsTree(dom) && Before(p, |dom|)
    ensures match FirstIn(dom, p, seen)
            case None => Ancestors(dom, p) !! seen
            case Some(c) => c in seen && c in Ancestors(dom, p) && Ancestors(dom, p) * seen <= Ancestors(dom, Some(c))
    decreases if p.Some? then p.value + 1 else 0
  {
    if p.Some? && p.value !in seen {
      CommonIsLowest(dom, dom[p.value].parent, seen);
    }
  }

  // ----- Something opaque in between -----

  predicate IsOpaque(e: Element) {
    e.image || match e.color { case NoColor => false case Solid => true case Alpha(a) => a > 0.5 }
  }

  /** Going up from `p`, an opaque element comes before `stop`. */
  predicate OpaqueUp(dom: Dom, p: Option<nat>, stop: Option<nat>)
    requires IsTree(dom) && Before(p, |dom|)
    decreases if p.Some? then p.value + 1 else 0
  {
    p.Some? && p != stop && (IsOpaque(dom[p.value]) || OpaqueUp(dom, dom[p.value].parent, stop))
  }

  /** `opaqueBetween`. */
  method OpaqueBetween(dom: Dom, el: nat, stop: Option<nat>) returns (r: bool)
    requires IsTree(dom) && el < |dom|
    ensures r == OpaqueUp(dom, Some(el), stop)
  {
    var p: Option<nat> := Some(el);
    ghost var target := OpaqueUp(dom, p, stop);
    while p.Some? && p != stop
      invariant Before(p, |dom|) && OpaqueUp(dom, p, stop) == target
      decreases if p.Some? then p.value + 1 else 0
    {
      if dom[p.value].image {
        return true;
      }
      match dom[p.value].color {
        case NoColor =>
        case Solid => return true;
        case Alpha(a) =>
          if a > 0.5 {
            return true;
          }
      }
      p := dom[p.value].parent;
    }
    return false;
  }

  lemma {:induction false} AncestorsBefore(dom: Dom, p: Option<nat>, a: nat)
    requires IsTree(dom) && Before(p, |dom|) && a in Ancestors(dom, p)
    ensures p.Some? && a <= p.value
    decreases if p.Some? then p.value + 1 else 0
  {
    if p.Some? && a != p.value {
      AncestorsBefore(dom, dom[p.value].parent, a);
    }
  }

  /** Something opaque is at or above `p` and strictly below `stop`. */
  ghost predicate OpaqueBelow(dom: Dom, p: Option<nat>, stop: Option<nat>)
    requires IsTree(dom) && Before(p, |dom|) && Before(stop, |dom|)
  {
    exists q | 0 <= q < |dom| :: q in Ancestors(dom, p) && q !in Ancestors(dom, stop) && IsOpaque(dom[q])
  }

  lemma {:induction false} OpaqueUpMeaning(dom: Dom, p: Option<nat>, stop: Option<nat>)
    requires IsTree(dom) && Before(p, |dom|) && Before(stop, |dom|)
    requires stop.Some? ==> stop.value in Ancestors(dom, p)
    ensures OpaqueUp(dom, p, stop) <==> OpaqueBelow(dom, p, stop)
    decreases if p.Some? then p.value + 1 else 0
  {
    if p.Some? && p != stop {
      OpaqueUpMeaning(dom, dom[p.value].parent, stop);
      if p.value in Ancestors(dom, stop) {
        AncestorsBefore(dom, stop, p.value);
        AncestorsBefore(dom, dom[p.value].parent, stop.value);
      }
    }
  }
}
