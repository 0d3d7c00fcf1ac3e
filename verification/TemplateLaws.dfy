/**
 Branch structure laid out over a classified text, and what `if_blocks` makes of
 it. A plan carries the offsets of everything, so that walking needs no sums.
 */
module TemplateLaws {
  import opened Strings
  import opened TemplateTokens
  import opened Templates

  /** Nodes: the end, a stretch of text, an `{:else}` that is no branch of an `{#if}`, or
      an `{#if}` from `start` whose first branch is `body`, from `after` to `mid`, and
      whose other branches run to `out`. */
  datatype Plan =
    | Stop(at: nat)
    | Gap(from: nat, to: nat, rest: Plan)
    | Stray(start: nat, after: nat, rest: Plan)
    | Cond(start: nat, after: nat, counts: bool, body: Plan, mid: nat, arms: Arms, out: nat, rest: Plan)

  datatype Arms =
    | ElseIf(start: nat, after: nat, counts: bool, body: Plan, mid: nat, more: Arms)
    | Else(start: nat, after: nat, body: Plan, mid: nat, out: nat)
    | EndIf(start: nat, out: nat)

  function Begin(t: Plan): nat {
    match t
    case Stop(at) => at
    case Gap(from, _, _) => from
    case Stray(start, _, _) => start
    case Cond(start, _, _, _, _, _, _, _) => start
  }

  function End(t: Plan): nat {
    match t
    case Stop(at) => at
    case Gap(_, _, rest) => End(rest)
    case Stray(_, _, rest) => End(rest)
    case Cond(_, _, _, _, _, _, _, rest) => End(rest)
  }

  /** A stray `{:else}` among the nodes themselves. */
  predicate HasStray(t: Plan) {
    match t
    case Stop(_) => false
    case Gap(_, _, rest) => HasStray(rest)
    case Stray(_, _, _) => true
    case Cond(_, _, _, _, _, _, _, rest) => HasStray(rest)
  }

  /** The nodes in front of the first stray `{:else}`. */
  function Front(t: Plan): Plan {
    match t
    case Stop(_) => t
    case Gap(from, to, rest) => Gap(from, to, Front(rest))
    case Stray(start, _, _) => Stop(start)
    case Cond(start, after, counts, body, mid, arms, out, rest) =>
      Cond(start, after, counts, body, mid, arms, out, Front(rest))
  }

  /** The nodes behind it. */
  function Back(t: Plan): Plan {
    match t
    case Stop(_) => t
    case Gap(_, _, rest) => Back(rest)
    case Stray(_, _, rest) => rest
    case Cond(_, _, _, _, _, _, _, rest) => Back(rest)
  }

  function ArmsEnd(arms: Arms): nat {
    match arms
    case ElseIf(_, _, _, _, _, more) => ArmsEnd(more)
    case Else(_, _, _, _, out) => out
    case EndIf(_, out) => out
  }

  predicate Quiet(ts: seq<Token>, lo: nat, hi: nat) {
    lo <= hi <= |ts| && forall k :: lo <= k < hi ==> ts[k].NoToken?
  }

  predicate EndsAt(ts: seq<Token>, p: nat, q: nat) { p + 5 == q && Quiet(ts, p + 1, q) && ts[p] == EndToken }

  /** The plan agrees with what stands in the text. */
  predicate Placed(ts: seq<Token>, t: Plan) {
    match t
    case Stop(at) => at <= |ts|
    case Gap(from, to, rest) => Quiet(ts, from, to) && Begin(rest) == to && Placed(ts, rest)
    case Stray(start, after, rest) =>
      && start + 6 < after && Quiet(ts, start + 1, after) && ts[start] == ElseToken(NoHeader)
      && Begin(rest) == after && Placed(ts, rest)
    case Cond(start, after, counts, body, mid, arms, out, rest) =>
      && start + 4 < after && Quiet(ts, start + 1, after) && ts[start] == IfToken(Header(after - 1, counts))
      && Begin(body) == after && End(body) == mid && Placed(ts, body)
      && arms.start == mid && ArmsEnd(arms) == out && PlacedArms(ts, arms)
      && Begin(rest) == out && Placed(ts, rest)
  }

  predicate PlacedArms(ts: seq<Token>, arms: Arms) {
    match arms
    case ElseIf(start, after, counts, body, mid, more) =>
      && start + 6 < after && Quiet(ts, start + 1, after) && ts[start] == ElseToken(Header(after - 1, counts))
      && Begin(body) == after && End(body) == mid && Placed(ts, body)
      && more.start == mid && PlacedArms(ts, more)
    case Else(start, after, body, mid, out) =>
      && start + 6 < after && Quiet(ts, start + 1, after) && ts[start] == ElseToken(NoHeader)
      && Begin(body) == after && End(body) == mid && Placed(ts, body)
      && EndsAt(ts, mid, out)
    case EndIf(start, out) => EndsAt(ts, start, out)
  }

  // ----- Walking to the end of a branch -----

  lemma {:induction false} NextSkips(ts: seq<Token>, i: nat, j: nat)
    requires Quiet(ts, i, j)
    ensures Next(ts, i) == Next(ts, j)
    decreases j - i
  {
    if i < j {
      NextSkips(ts, i + 1, j);
    }
  }

  lemma {:induction false} NextComes(ts: seq<Token>, i: nat, e: nat)
    requires i <= e < |ts| && !ts[e].NoToken?
    ensures Next(ts, i) < |ts|
    decreases e - i
  {
    if ts[i].NoToken? {
      NextComes(ts, i + 1, e);
    }
  }

  /** Walking from `i` at `depth` comes to `j` at `depth'` with the same cut. */
  ghost predicate Walks(ts: seq<Token>, i: nat, depth: nat, j: nat, depth': nat, cut: Option<nat>) {
    Fits(ts) && i <= |ts| && j <= |ts| && BranchEnd(ts, i, depth, cut) == BranchEnd(ts, j, depth', cut)
  }

  /** Plain text changes nothing as long as a token is still to come. */
  lemma {:induction false} WalkText(ts: seq<Token>, i: nat, j: nat, e: nat, depth: nat, cut: Option<nat>)
    requires Fits(ts) && Quiet(ts, i, j) && j <= e < |ts| && !ts[e].NoToken? && depth > 0
    ensures Walks(ts, i, depth, j, depth, cut)
  {
    NextSkips(ts, i, j);
    NextComes(ts, j, e);
  }

  lemma {:induction false} WalkToken(ts: seq<Token>, p: nat, depth: nat, cut: Option<nat>)
    requires Fits(ts) && p < |ts| && !ts[p].NoToken? && depth > 0
    ensures p + Width(ts[p]) <= |ts|
    ensures BranchEnd(ts, p, depth, cut) ==
            match ts[p]
            case ElseToken(_) => BranchEnd(ts, p + 6, depth, if depth == 1 && cut.None? then Some(p) else cut)
            case IfToken(_) => BranchEnd(ts, p + 4, depth + 1, cut)
            case EndToken => BranchEnd(ts, p + 5, depth - 1, cut)
  {
    assert FitsAt(ts, p);
  }

  /** An inner block: in at its header, over its first branch, out at its end. */
  lemma {:induction false} WalkIf(ts: seq<Token>, p: nat, h: nat, m: nat, r: nat, depth: nat, cut: Option<nat>)
    requires Fits(ts) && depth > 0 && p + 4 <= h <= m < |ts| && !ts[m].NoToken?
    requires ts[p].IfToken? && Quiet(ts, p + 1, h)
    requires Walks(ts, h, depth + 1, m, depth + 1, cut) && Walks(ts, m, depth + 1, r, depth, cut)
    ensures Walks(ts, p, depth, r, depth, cut)
  {
    WalkToken(ts, p, depth, cut);
    WalkText(ts, p + 4, h, m, depth + 1, cut);
  }

  predicate ElseShape(ts: seq<Token>, p: nat, h: nat, m: nat) {
    p + 6 <= h <= m < |ts| && !ts[m].NoToken? && ts[p].ElseToken? && Quiet(ts, p + 1, h)
  }

  /** A later branch of an inner block, whose `{:else` is not ours. */
  lemma {:induction false} WalkElse(ts: seq<Token>, p: nat, h: nat, m: nat, r: nat, depth: nat, cut: Option<nat>)
    requires Fits(ts) && depth > 0 && ElseShape(ts, p, h, m)
    requires Walks(ts, h, depth + 1, m, depth + 1, cut) && Walks(ts, m, depth + 1, r, depth, cut)
    ensures Walks(ts, p, depth + 1, r, depth, cut)
  {
    WalkToken(ts, p, depth + 1, cut);
    WalkText(ts, p + 6, h, m, depth + 1, cut);
  }

  lemma {:induction false} WalkEnd(ts: seq<Token>, p: nat, q: nat, depth: nat, cut: Option<nat>)
    requires Fits(ts) && EndsAt(ts, p, q)
    ensures Walks(ts, p, depth + 1, q, depth, cut)
  {
    WalkToken(ts, p, depth + 1, cut);
  }

  lemma {:induction false} WalkOther(ts: seq<Token>, p: nat, h: nat, m: nat, q: nat, depth: nat, cut: Option<nat>)
    requires Fits(ts) && depth > 0 && ElseShape(ts, p, h, m) && EndsAt(ts, m, q)
    requires Walks(ts, h, depth + 1, m, depth + 1, cut)
    ensures Walks(ts, p, depth + 1, q, depth, cut)
  {
    WalkEnd(ts, m, q, depth, cut);
    WalkElse(ts, p, h, m, q, depth, cut);
  }

  lemma {:induction false} Bounds(ts: seq<Token>, t: Plan)
    requires Placed(ts, t)
    ensures Begin(t) <= End(t) <= |ts|
    decreases t
  {
    match t
    case Stop(_) =>
    case Gap(_, _, rest) => Bounds(ts, rest);
    case Stray(_, _, rest) => Bounds(ts, rest);
    case Cond(_, _, _, body, _, arms, _, rest) =>
      Bounds(ts, body);
      ArmsBounds(ts, arms);
      Bounds(ts, rest);
  }

  lemma {:induction false} ArmsBounds(ts: seq<Token>, arms: Arms)
    requires PlacedArms(ts, arms)
    ensures arms.start < ArmsEnd(arms) <= |ts| && arms.start < |ts| && !ts[arms.start].NoToken?
    decreases arms
  {
    match arms
    case ElseIf(_, _, _, body, _, more) =>
      Bounds(ts, body);
      ArmsBounds(ts, more);
    case Else(_, _, body, _, _) => Bounds(ts, body);
    case EndIf(_, _) =>
  }

  lemma {:induction false} WalkStray(ts: seq<Token>, p: nat, h: nat, e: nat, depth: nat, cut: Option<nat>)
    requires Fits(ts) && depth > 0 && (depth > 1 || cut.Some?) && ElseShape(ts, p, h, e)
    ensures Walks(ts, p, depth, h, depth, cut)
  {
    WalkToken(ts, p, depth, cut);
    WalkText(ts, p + 6, h, e, depth, cut);
  }

  /** Inside an open block, a plan leaves depth and cut alone, unless a stray `{:else}`
      stands at the depth of the branch that is still to be cut. */
  lemma {:induction false} WalkPlan(ts: seq<Token>, t: Plan, depth: nat, cut: Option<nat>)
    requires Fits(ts) && Placed(ts, t) && depth > 0 && (depth > 1 || cut.Some? || !HasStray(t))
    requires End(t) < |ts| && !ts[End(t)].NoToken?
    ensures Walks(ts, Begin(t), depth, End(t), depth, cut)
    decreases t
  {
    match t
    case Stop(_) =>
    case Gap(from, to, rest) =>
      Bounds(ts, rest);
      WalkText(ts, from, to, End(t), depth, cut);
      WalkPlan(ts, rest, depth, cut);
    case Stray(start, after, rest) =>
      Bounds(ts, rest);
      WalkStray(ts, start, after, End(t), depth, cut);
      WalkPlan(ts, rest, depth, cut);
    case Cond(start, after, _, body, mid, arms, out, rest) =>
      assert Walks(ts, start, depth, out, depth, cut) by {
        ArmsBounds(ts, arms);
        Bounds(ts, body);
        WalkPlan(ts, body, depth + 1, cut);
        WalkArms(ts, arms, depth, cut);
        WalkIf(ts, start, after, mid, out, depth, cut);
      }
      WalkPlan(ts, rest, depth, cut);
  }

  /** The other branches of an inner block close it. */
  lemma {:induction false} WalkArms(ts: seq<Token>, arms: Arms, depth: nat, cut: Option<nat>)
    requires Fits(ts) && PlacedArms(ts, arms) && depth > 0
    ensures Walks(ts, arms.start, depth + 1, ArmsEnd(arms), depth, cut)
    decreases arms
  {
    match arms
    case ElseIf(start, after, _, body, mid, more) =>
      ArmsBounds(ts, more);
      Bounds(ts, body);
      WalkPlan(ts, body, depth + 1, cut);
      WalkArms(ts, more, depth, cut);
      WalkElse(ts, start, after, mid, ArmsEnd(arms), depth, cut);
    case Else(start, after, body, mid, out) =>
      Bounds(ts, body);
      WalkPlan(ts, body, depth + 1, cut);
      WalkOther(ts, start, after, mid, out, depth, cut);
    case EndIf(start, out) => WalkEnd(ts, start, out, depth, cut);
  }

  lemma {:induction false} CutStays(ts: seq<Token>, i: nat, depth: nat, c: nat)
    requires Fits(ts) && i <= |ts|
    ensures BranchEnd(ts, i, depth, Some(c)) == c
    decreases |ts| - i
  {
    var p := if depth == 0 then |ts| else Next(ts, i);
    if p < |ts| {
      assert FitsAt(ts, p);
      var after := p + Width(ts[p]);
      CutStays(ts, after, match ts[p] case ElseToken(_) => depth case IfToken(_) => depth + 1 case EndToken => depth - 1, c);
    }
  }

  // ----- In front of a stray else, and behind it -----

  lemma {:induction false} FrontPlaced(ts: seq<Token>, t: Plan)
    requires Placed(ts, t)
    ensures Placed(ts, Front(t)) && Begin(Front(t)) == Begin(t) && !HasStray(Front(t))
    decreases t
  {
    match t
    case Stop(_) =>
    case Gap(_, _, rest) => FrontPlaced(ts, rest);
    case Stray(_, _, rest) => Bounds(ts, rest);
    case Cond(_, _, _, _, _, _, _, rest) => FrontPlaced(ts, rest);
  }

  lemma {:induction false} BackPlaced(ts: seq<Token>, t: Plan)
    requires Placed(ts, t)
    ensures Placed(ts, Back(t)) && End(Back(t)) == End(t) && End(Front(t)) <= Begin(Back(t))
    ensures HasStray(t) ==> Begin(Back(t)) <= |ts|
    ensures HasStray(t) ==> End(Front(t)) + 6 < Begin(Back(t)) && ts[End(Front(t))] == ElseToken(NoHeader)
    decreases t
  {
    match t
    case Stop(_) =>
    case Gap(_, _, rest) => BackPlaced(ts, rest);
    case Stray(_, _, rest) =>
    case Cond(_, _, _, _, _, _, _, rest) => BackPlaced(ts, rest);
  }

  lemma {:induction false} FrontWhole(t: Plan)
    requires !HasStray(t)
    ensures Front(t) == t && Back(t) == Stop(End(t))
    decreases t
  {
    match t
    case Stop(_) =>
    case Gap(_, _, rest) => FrontWhole(rest);
    case Cond(_, _, _, _, _, _, _, rest) => FrontWhole(rest);
  }

  /** The two together, and where they lie. */
  lemma {:induction false} Parted(ts: seq<Token>, t: Plan)
    requires Placed(ts, t)
    ensures Placed(ts, Front(t)) && Placed(ts, Back(t)) && !HasStray(Front(t))
    ensures Begin(t) == Begin(Front(t)) <= End(Front(t)) <= Begin(Back(t)) <= End(Back(t)) == End(t)
    ensures if HasStray(t) then End(Front(t)) < |ts| && ts[End(Front(t))] == ElseToken(NoHeader)
            else Front(t) == t && Back(t) == Stop(End(t))
  {
    FrontPlaced(ts, t);
    BackPlaced(ts, t);
    Bounds(ts, Front(t));
    Bounds(ts, Back(t));
    if !HasStray(t) {
      FrontWhole(t);
    }
  }

  /** Where the scan ends the branch `body`, before the other branches `arms`: at a stray
      `{:else}` of the branch, or else at its own, or else just past its own `{/if}`. */
  function OwnEnd(body: Plan, arms: Arms): nat {
    if HasStray(body) then End(Front(body)) else if arms.EndIf? then arms.out else arms.start
  }

  /** The first token at the branch's own depth that is not an `{#if}` ends it. */
  lemma {:induction false} EndsThere(ts: seq<Token>, p: nat)
    requires Fits(ts) && p < |ts| && (ts[p].ElseToken? || ts[p].EndToken?)
    ensures BranchEnd(ts, p, 1, None) == if ts[p].ElseToken? then p else p + 5
  {
    WalkToken(ts, p, 1, None);
    if ts[p].ElseToken? {
      CutStays(ts, p + 6, 1, p);
    }
  }

  lemma {:induction false} ArmsToken(ts: seq<Token>, arms: Arms)
    requires PlacedArms(ts, arms)
    ensures arms.start < |ts| && if arms.EndIf? then ts[arms.start].EndToken? && arms.out == arms.start + 5
                                 else ts[arms.start].ElseToken?
  {
    ArmsBounds(ts, arms);
  }

  lemma {:induction false} BranchEndsAtItsOwn(ts: seq<Token>, body: Plan, arms: Arms)
    requires Fits(ts) && Placed(ts, body) && PlacedArms(ts, arms) && End(body) == arms.start
    ensures Begin(body) <= |ts|
    ensures BranchEnd(ts, Begin(body), 1, None) == OwnEnd(body, arms)
  {
    Parted(ts, body);
    ArmsToken(ts, arms);
    if HasStray(body) {
      WalkPlan(ts, Front(body), 1, None);
      EndsThere(ts, End(Front(body)));
    } else {
      WalkPlan(ts, body, 1, None);
      EndsThere(ts, arms.start);
    }
  }

  // ----- The blocks found -----

  /** The blocks of a plan in the order the scan meets them. */
  function Expected(t: Plan): seq<Block> {
    match t
    case Stop(_) => []
    case Gap(_, _, rest) => Expected(rest)
    case Stray(_, _, rest) => Expected(rest)
    case Cond(start, after, counts, body, mid, arms, _, rest) =>
      Own(start, after, counts, body, arms) + (Expected(body) + (ExpectedArms(arms) + Expected(rest)))
  }

  function Own(start: nat, after: nat, counts: bool, body: Plan, arms: Arms): seq<Block> {
    if counts then [Block(start, after, OwnEnd(body, arms))] else []
  }

  function ExpectedArms(arms: Arms): seq<Block> {
    match arms
    case ElseIf(start, after, counts, body, mid, more) =>
      Own(start, after, counts, body, more) + (Expected(body) + ExpectedArms(more))
    case Else(_, _, body, _, _) => Expected(body)
    case EndIf(_, _) => []
  }

  lemma {:induction false} BlocksSkip(ts: seq<Token>, i: nat, j: nat)
    requires Fits(ts) && Quiet(ts, i, j)
    ensures Blocks(ts, i) == Blocks(ts, j)
    decreases j - i
  {
    if i < j {
      BlocksSkip(ts, i + 1, j);
    }
  }

  /** A header contributes its own block, then the scan goes on behind it. */
  lemma {:induction false} BlocksAt(ts: seq<Token>, start: nat, after: nat, counts: bool, end: nat)
    requires Fits(ts) && start < |ts| && 0 < after <= |ts| && BranchAt(ts, start) == Header(after - 1, counts)
    requires end == BranchEnd(ts, after, 1, None)
    ensures Blocks(ts, start) == (if counts then [Block(start, after, end)] else []) + Blocks(ts, after)
  {
    assert FitsAt(ts, start);
  }

  lemma {:induction false} BlocksHeader(ts: seq<Token>, start: nat, after: nat, counts: bool, body: Plan, arms: Arms)
    requires Fits(ts) && Placed(ts, body) && PlacedArms(ts, arms) && Begin(body) == after && End(body) == arms.start
    requires start < |ts| && 0 < after && BranchAt(ts, start) == Header(after - 1, counts)
    ensures after <= |ts| && Blocks(ts, start) == Own(start, after, counts, body, arms) + Blocks(ts, after)
  {
    BranchEndsAtItsOwn(ts, body, arms);
    BlocksAt(ts, start, after, counts, OwnEnd(body, arms));
  }

  lemma {:induction false} BlocksOfPlan(ts: seq<Token>, t: Plan)
    requires Fits(ts) && Placed(ts, t)
    ensures Begin(t) <= End(t) <= |ts|
    ensures Blocks(ts, Begin(t)) == Expected(t) + Blocks(ts, End(t))
    decreases t
  {
    Bounds(ts, t);
    match t
    case Stop(_) =>
    case Gap(from, to, rest) =>
      BlocksSkip(ts, from, to);
      BlocksOfPlan(ts, rest);
    case Stray(start, after, rest) =>
      BlocksPlainToken(ts, start, after);
      BlocksOfPlan(ts, rest);
    case Cond(start, after, counts, body, mid, arms, out, rest) =>
      BlocksHeader(ts, start, after, counts, body, arms);
      BlocksOfPlan(ts, body);
      BlocksOfArms(ts, arms);
      BlocksOfPlan(ts, rest);
      Regroup(Own(start, after, counts, body, arms), Expected(body), ExpectedArms(arms), Expected(rest), Blocks(ts, End(t)));
  }

  lemma {:induction false} Regroup(a: seq<Block>, b: seq<Block>, c: seq<Block>, d: seq<Block>, e: seq<Block>)
    ensures a + (b + (c + (d + e))) == a + (b + (c + d)) + e
  {
  }

  lemma {:induction false} RegroupArms(a: seq<Block>, b: seq<Block>, c: seq<Block>, e: seq<Block>)
    ensures a + (b + (c + e)) == a + (b + c) + e
  {
  }

  lemma {:induction false} BlocksOfArms(ts: seq<Token>, arms: Arms)
    requires Fits(ts) && PlacedArms(ts, arms)
    ensures arms.start <= ArmsEnd(arms) <= |ts|
    ensures Blocks(ts, arms.start) == ExpectedArms(arms) + Blocks(ts, ArmsEnd(arms))
    decreases arms
  {
    ArmsBounds(ts, arms);
    match arms
    case ElseIf(start, after, counts, body, mid, more) =>
      BlocksHeader(ts, start, after, counts, body, more);
      BlocksOfPlan(ts, body);
      BlocksOfArms(ts, more);
      RegroupArms(Own(start, after, counts, body, more), Expected(body), ExpectedArms(more), Blocks(ts, ArmsEnd(arms)));
    case Else(start, after, body, mid, out) =>
      BlocksPlainToken(ts, start, after);
      BlocksOfPlan(ts, body);
      BlocksPlainToken(ts, mid, out);
    case EndIf(start, out) =>
      BlocksPlainToken(ts, start, out);
  }

  lemma {:induction false} BlocksPlainToken(ts: seq<Token>, p: nat, q: nat)
    requires Fits(ts) && p < q && Quiet(ts, p + 1, q) && BranchAt(ts, p).NoHeader?
    ensures Blocks(ts, p) == Blocks(ts, q)
  {
    BlocksSkip(ts, p + 1, q);
  }

  // ----- The outermost ones -----

  /** The blocks of a plan that no other of its blocks is around. Behind a stray `{:else}`
      the block of the branch is not around anything. */
  function Outer(t: Plan): seq<Block> {
    match t
    case Stop(_) => []
    case Gap(_, _, rest) => Outer(rest)
    case Stray(_, _, rest) => Outer(rest)
    case Cond(start, after, counts, body, mid, arms, _, rest) =>
      (if counts then Own(start, after, counts, body, arms) + OuterBehind(body) else Outer(body))
      + (OuterArms(arms) + Outer(rest))
  }

  /** Of the nodes behind the first stray `{:else}`. */
  function OuterBehind(t: Plan): seq<Block> {
    match t
    case Stop(_) => []
    case Gap(_, _, rest) => OuterBehind(rest)
    case Stray(_, _, rest) => Outer(rest)
    case Cond(_, _, _, _, _, _, _, rest) => OuterBehind(rest)
  }

  function OuterArms(arms: Arms): seq<Block> {
    match arms
    case ElseIf(start, after, counts, body, mid, more) =>
      (if counts then Own(start, after, counts, body, more) + OuterBehind(body) else Outer(body)) + OuterArms(more)
    case Else(_, _, body, _, _) => Outer(body)
    case EndIf(_, _) => []
  }

  /** Every block of `bs` is proper and lies in `[lo, hi]`. */
  ghost predicate Within(bs: seq<Block>, lo: nat, hi: nat) {
    forall b :: b in bs ==> lo <= b.start < b.after <= b.end <= hi
  }

  lemma {:induction false} ExpectedWithin(ts: seq<Token>, t: Plan)
    requires Placed(ts, t)
    ensures Within(Expected(t), Begin(t), End(t))
    decreases t
  {
    match t
    case Stop(_) =>
    case Gap(_, _, rest) => ExpectedWithin(ts, rest);
    case Stray(_, _, rest) => ExpectedWithin(ts, rest);
    case Cond(_, _, _, body, _, arms, _, rest) =>
      Bounds(ts, body);
      ArmsBounds(ts, arms);
      Bounds(ts, rest);
      Parted(ts, body);
      ExpectedWithin(ts, body);
      ArmsWithin(ts, arms);
      ExpectedWithin(ts, rest);
  }

  lemma {:induction false} ArmsWithin(ts: seq<Token>, arms: Arms)
    requires PlacedArms(ts, arms)
    ensures Within(ExpectedArms(arms), arms.start, ArmsEnd(arms))
    decreases arms
  {
    match arms
    case ElseIf(_, _, _, body, _, more) =>
      Bounds(ts, body);
      ArmsBounds(ts, more);
      Parted(ts, body);
      ExpectedWithin(ts, body);
      ArmsWithin(ts, more);
    case Else(_, _, body, _, _) =>
      Bounds(ts, body);
      ExpectedWithin(ts, body);
    case EndIf(_, _) =>
  }

  lemma {:induction false} OutermostSplit(a: seq<Block>, b: seq<Block>, all: seq<Block>)
    ensures Outermost(a + b, all) == Outermost(a, all) + Outermost(b, all)
  {
    if a == [] {
      assert a + b == b;
    } else {
      assert (a + b)[1..] == a[1..] + b;
      OutermostSplit(a[1..], b, all);
    }
  }

  lemma {:induction false} AllDropped(bs: seq<Block>, all: seq<Block>, o: Block)
    requires o in all && Within(bs, o.after, o.end)
    ensures Outermost(bs, all) == []
  {
    if bs != [] {
      assert bs[0] in bs && Inside(bs[0], o);
      assert forall b :: b in bs[1..] ==> b in bs;
      AllDropped(bs[1..], all, o);
    }
  }

  /** `bs`, all of them in `all`, fill `[lo, hi]`; the others lie before or behind. */
  ghost predicate Apart(all: seq<Block>, bs: seq<Block>, lo: nat, hi: nat) {
    && Within(bs, lo, hi)
    && (forall b :: b in bs ==> b in all)
    && (forall x :: x in all ==> x in bs || (IsBlock(x) && (x.end <= lo || hi <= x.start)))
  }

  lemma {:induction false} ApartPart(all: seq<Block>, whole: seq<Block>, lo: nat, hi: nat,
                                     part: seq<Block>, lo': nat, hi': nat)
    requires Apart(all, whole, lo, hi) && lo <= lo' <= hi' <= hi && Within(part, lo', hi')
    requires forall x :: x in part ==> x in whole
    requires forall x :: x in whole ==> x in part || x.end <= lo' || hi' <= x.start
    ensures Apart(all, part, lo', hi')
  {
  }

  /** A block that counts is kept, and everything in its branch is dropped. */
  lemma {:induction false} OwnKept(all: seq<Block>, o: Block, body: seq<Block>, tail: seq<Block>, mid: nat, hi: nat)
    requires o.start < o.after <= mid <= o.end <= hi && Apart(all, [o] + (body + tail), o.start, hi)
    requires Within(body, o.after, mid) && Within(tail, mid, hi)
    ensures Outermost([o], all) == [o] && Outermost(body, all) == []
  {
    assert forall b :: b in [o] + (body + tail) <==> b == o || b in body || b in tail;
    assert o in all by { assert o in [o] + (body + tail); }
    AllDropped(body, all, o);
    forall x | x in all ensures !Inside(o, x) {}
    assert [o][0] == o && [o][1..] == [];
  }

  /** One branch of a block, with whatever follows it in the plan. */
  lemma {:induction false} KeepBranch(all: seq<Block>, own: seq<Block>, front: seq<Block>, back: seq<Block>, tail: seq<Block>,
                                      outerBack: seq<Block>, outerBody: seq<Block>, outerTail: seq<Block>)
    requires if own != [] then Outermost(own, all) == own && Outermost(front, all) == [] && Outermost(back, all) == outerBack
             else Outermost(front + back, all) == outerBody
    requires Outermost(tail, all) == outerTail
    ensures Outermost(own + ((front + back) + tail), all) == (if own != [] then own + outerBack else outerBody) + outerTail
  {
    OutermostSplit(own, (front + back) + tail, all);
    OutermostSplit(front + back, tail, all);
    OutermostSplit(front, back, all);
  }

  lemma {:induction false} ExpectedParts(t: Plan)
    ensures Expected(t) == Expected(Front(t)) + Expected(Back(t))
    decreases t
  {
    match t
    case Stop(_) =>
    case Gap(_, _, rest) => ExpectedParts(rest);
    case Stray(_, _, rest) =>
    case Cond(start, after, counts, body, _, arms, _, rest) =>
      ExpectedParts(rest);
      Regroup(Own(start, after, counts, body, arms), Expected(body), ExpectedArms(arms), Expected(Front(rest)), Expected(Back(rest)));
  }

  /** Where the parts of a block lie. */
  lemma {:induction false} PartBounds(ts: seq<Token>, body: Plan, arms: Arms)
    requires Placed(ts, body) && PlacedArms(ts, arms) && End(body) == arms.start
    ensures Begin(body) <= End(Front(body)) <= Begin(Back(body)) <= arms.start < ArmsEnd(arms) <= |ts|
    ensures Within(Expected(Front(body)), Begin(body), End(Front(body)))
    ensures Within(Expected(Back(body)), Begin(Back(body)), arms.start)
    ensures Within(Expected(body), Begin(body), arms.start)
    ensures Within(ExpectedArms(arms), arms.start, ArmsEnd(arms))
    ensures Expected(body) == Expected(Front(body)) + Expected(Back(body))
  {
    Parted(ts, body);
    ArmsBounds(ts, arms);
    ExpectedWithin(ts, Front(body));
    ExpectedWithin(ts, Back(body));
    ExpectedWithin(ts, body);
    ArmsWithin(ts, arms);
    ExpectedParts(body);
  }

  /** What is kept of a branch that counts: its block, nothing in front of a stray
      `{:else}`, and what is behind one by itself. */
  lemma {:induction false} KeepCounted(all: seq<Block>, whole: seq<Block>, o: Block, front: seq<Block>, back: seq<Block>,
                                       tail: seq<Block>, cut: nat, behind: nat, mid: nat, hi: nat)
    requires whole == [o] + ((front + back) + tail) && Apart(all, whole, o.start, hi)
    requires o.start < o.after <= cut <= behind <= mid <= hi && cut <= o.end <= hi && (back != [] ==> o.end <= behind)
    requires Within(front, o.after, cut) && Within(back, behind, mid) && Within(tail, mid, hi)
    ensures Outermost([o], all) == [o] && Outermost(front, all) == []
    ensures back != [] ==> Apart(all, back, behind, mid)
  {
    assert (front + back) + tail == front + (back + tail);
    OwnKept(all, o, front, back + tail, cut, hi);
    if back != [] {
      assert forall x :: x in whole <==> x == o || x in front || x in back || x in tail;
      ApartPart(all, whole, o.start, hi, back, behind, mid);
    }
  }

  /** The own block and the branch of a header, and what is kept of them. */
  lemma {:induction false} KeepHead(ts: seq<Token>, all: seq<Block>, whole: seq<Block>, hi: nat,
                                    start: nat, after: nat, counts: bool, body: Plan, arms: Arms, tail: seq<Block>)
    requires Placed(ts, body) && PlacedArms(ts, arms) && Begin(body) == after && End(body) == arms.start
    requires start < after && ArmsEnd(arms) <= hi && Within(tail, arms.start, hi)
    requires whole == Own(start, after, counts, body, arms) + (Expected(body) + tail)
    requires Apart(all, whole, start, hi)
    ensures counts ==> KeptCounted(all, Own(start, after, counts, body, arms), body, arms.start)
    ensures !counts ==> Apart(all, Expected(body), after, arms.start)
  {
    PartBounds(ts, body, arms);
    Parted(ts, body);
    if counts {
      KeepCounted(all, whole, Block(start, after, OwnEnd(body, arms)), Expected(Front(body)), Expected(Back(body)),
                  tail, End(Front(body)), Begin(Back(body)), arms.start, hi);
    } else {
      assert forall x :: x in whole <==> x in Expected(body) || x in tail;
      ApartPart(all, whole, start, hi, Expected(body), after, arms.start);
    }
  }

  ghost predicate KeptCounted(all: seq<Block>, own: seq<Block>, body: Plan, mid: nat) {
    && Outermost(own, all) == own && Outermost(Expected(Front(body)), all) == []
    && (Expected(Back(body)) != [] ==> Apart(all, Expected(Back(body)), Begin(Back(body)), mid))
  }

  /** What follows the branch of a header keeps apart too. */
  lemma {:induction false} KeepTail(all: seq<Block>, whole: seq<Block>, lo: nat, hi: nat,
                                    own: seq<Block>, body: seq<Block>, tail: seq<Block>, mid: nat)
    requires whole == own + (body + tail) && lo <= mid <= hi && Apart(all, whole, lo, hi)
    requires Within(own, lo, mid) && Within(body, lo, mid) && Within(tail, mid, hi)
    ensures Apart(all, tail, mid, hi)
  {
    assert forall x :: x in whole <==> x in own || x in body || x in tail;
    ApartPart(all, whole, lo, hi, tail, mid, hi);
  }

  lemma {:induction false} KeepTwo(all: seq<Block>, a: seq<Block>, b: seq<Block>, lo: nat, mid: nat, hi: nat)
    requires lo <= mid <= hi && Apart(all, a + b, lo, hi) && Within(a, lo, mid) && Within(b, mid, hi)
    ensures Apart(all, a, lo, mid) && Apart(all, b, mid, hi)
  {
    assert forall x :: x in a + b <==> x in a || x in b;
    ApartPart(all, a + b, lo, hi, a, lo, mid);
    ApartPart(all, a + b, lo, hi, b, mid, hi);
  }

  /** The parts of an `{#if}` keep apart from each other and from all the rest. */
  lemma {:induction false} CondParts(ts: seq<Token>, t: Plan, all: seq<Block>)
    requires t.Cond? && Placed(ts, t) && Apart(all, Expected(t), Begin(t), End(t))
    ensures t.counts ==> KeptCounted(all, Own(t.start, t.after, t.counts, t.body, t.arms), t.body, t.mid)
    ensures !t.counts ==> Apart(all, Expected(t.body), t.after, t.mid)
    ensures !t.arms.EndIf? ==> Apart(all, ExpectedArms(t.arms), t.mid, t.out)
    ensures Apart(all, Expected(t.rest), t.out, End(t))
  {
    var arms, rest, hi := ExpectedArms(t.arms), Expected(t.rest), End(t);
    PartBounds(ts, t.body, t.arms);
    Bounds(ts, t.rest);
    ExpectedWithin(ts, t.rest);
    TailWithin(arms, rest, t.mid, t.out, hi);
    KeepHead(ts, all, Expected(t), hi, t.start, t.after, t.counts, t.body, t.arms, arms + rest);
    assert Within(Own(t.start, t.after, t.counts, t.body, t.arms), t.start, if t.arms.EndIf? then t.out else t.mid) by {
      Parted(ts, t.body);
    }
    CondTail(t, all);
  }

  lemma {:induction false} CondTail(t: Plan, all: seq<Block>)
    requires t.Cond? && Apart(all, Expected(t), t.start, End(t)) && t.start <= t.mid <= t.out <= End(t)
    requires Within(Own(t.start, t.after, t.counts, t.body, t.arms), t.start, if t.arms.EndIf? then t.out else t.mid)
    requires Within(Expected(t.body), t.start, t.mid) && Within(ExpectedArms(t.arms), t.mid, t.out)
    requires Within(Expected(t.rest), t.out, End(t))
    ensures !t.arms.EndIf? ==> Apart(all, ExpectedArms(t.arms), t.mid, t.out)
    ensures Apart(all, Expected(t.rest), t.out, End(t))
  {
    var own := Own(t.start, t.after, t.counts, t.body, t.arms);
    var arms, rest, hi := ExpectedArms(t.arms), Expected(t.rest), End(t);
    if t.arms.EndIf? {
      assert arms + rest == rest;
      KeepTail(all, Expected(t), t.start, hi, own, Expected(t.body), rest, t.out);
    } else {
      TailWithin(arms, rest, t.mid, t.out, hi);
      KeepTail(all, Expected(t), t.start, hi, own, Expected(t.body), arms + rest, t.mid);
      KeepTwo(all, arms, rest, t.mid, t.out, hi);
    }
  }

  /** Among the blocks of a text, those of a plan that are outermost are the outermost
      of the plan. */
  lemma {:induction false} KeepPlan(ts: seq<Token>, t: Plan, all: seq<Block>)
    requires Placed(ts, t) && Apart(all, Expected(t), Begin(t), End(t))
    ensures Outermost(Expected(t), all) == Outer(t)
    decreases t
  {
    match t
    case Stop(_) =>
    case Gap(from, to, rest) =>
      Bounds(ts, rest);
      ExpectedWithin(ts, rest);
      ApartPart(all, Expected(t), from, End(t), Expected(rest), to, End(t));
      KeepPlan(ts, rest, all);
    case Stray(start, after, rest) =>
      Bounds(ts, rest);
      ExpectedWithin(ts, rest);
      ApartPart(all, Expected(t), start, End(t), Expected(rest), after, End(t));
      KeepPlan(ts, rest, all);
    case Cond(start, after, counts, body, mid, arms, out, rest) =>
      CondParts(ts, t, all);
      if counts {
        KeepBehind(ts, body, all);
      } else {
        KeepPlan(ts, body, all);
      }
      if !arms.EndIf? {
        KeepArms(ts, arms, all);
      }
      KeepPlan(ts, rest, all);
      OutermostSplit(ExpectedArms(arms), Expected(rest), all);
      ExpectedParts(body);
      KeepBranch(all, Own(start, after, counts, body, arms), Expected(Front(body)), Expected(Back(body)),
                 ExpectedArms(arms) + Expected(rest), OuterBehind(body), Outer(body), OuterArms(arms) + Outer(rest));
  }

  lemma {:induction false} KeepBehind(ts: seq<Token>, t: Plan, all: seq<Block>)
    requires Placed(ts, t)
    requires Expected(Back(t)) != [] ==> Apart(all, Expected(Back(t)), Begin(Back(t)), End(t))
    ensures Outermost(Expected(Back(t)), all) == OuterBehind(t)
    decreases t
  {
    match t
    case Stop(_) =>
    case Gap(_, _, rest) => KeepBehind(ts, rest, all);
    case Stray(_, _, rest) =>
      if Expected(rest) != [] {
        KeepPlan(ts, rest, all);
      } else {
        NothingExpected(rest);
      }
    case Cond(_, _, _, _, _, _, _, rest) => KeepBehind(ts, rest, all);
  }

  /** Where nothing is found, nothing is outermost. */
  lemma {:induction false} NothingExpected(t: Plan)
    requires Expected(t) == []
    ensures Outer(t) == []
    decreases t
  {
    match t
    case Stop(_) =>
    case Gap(_, _, rest) => NothingExpected(rest);
    case Stray(_, _, rest) => NothingExpected(rest);
    case Cond(_, _, _, body, _, arms, _, rest) =>
      NothingExpected(body);
      NothingInArms(arms);
      NothingExpected(rest);
  }

  lemma {:induction false} NothingInArms(arms: Arms)
    requires ExpectedArms(arms) == []
    ensures OuterArms(arms) == []
    decreases arms
  {
    match arms
    case ElseIf(_, _, _, body, _, more) =>
      NothingExpected(body);
      NothingInArms(more);
    case Else(_, _, body, _, _) => NothingExpected(body);
    case EndIf(_, _) =>
  }

  lemma {:induction false} TailWithin(a: seq<Block>, b: seq<Block>, lo: nat, mid: nat, hi: nat)
    requires lo <= mid <= hi && Within(a, lo, mid) && Within(b, mid, hi)
    ensures Within(a + b, lo, hi)
  {
  }

  lemma {:induction false} KeepArms(ts: seq<Token>, arms: Arms, all: seq<Block>)
    requires PlacedArms(ts, arms) && Apart(all, ExpectedArms(arms), arms.start, ArmsEnd(arms))
    ensures Outermost(ExpectedArms(arms), all) == OuterArms(arms)
    decreases arms
  {
    match arms
    case ElseIf(start, after, counts, body, mid, more) =>
      var own, hi := Own(start, after, counts, body, more), ArmsEnd(arms);
      PartBounds(ts, body, more);
      KeepHead(ts, all, ExpectedArms(arms), hi, start, after, counts, body, more, ExpectedArms(more));
      if counts {
        KeepBehind(ts, body, all);
      } else {
        KeepPlan(ts, body, all);
      }
      if !more.EndIf? {
        KeepTail(all, ExpectedArms(arms), start, hi, own, Expected(body), ExpectedArms(more), mid);
        KeepArms(ts, more, all);
      }
      KeepBranch(all, own, Expected(Front(body)), Expected(Back(body)), ExpectedArms(more),
                 OuterBehind(body), Outer(body), OuterArms(more));
    case Else(start, after, body, mid, out) =>
      Bounds(ts, body);
      ExpectedWithin(ts, body);
      ApartPart(all, ExpectedArms(arms), start, out, Expected(body), after, mid);
      KeepPlan(ts, body, all);
    case EndIf(_, _) =>
  }

  /** For a whole text: the outermost filter keeps the outermost blocks of its plan. */
  lemma {:induction false} OutermostOfPlan(ts: seq<Token>, t: Plan)
    requires Fits(ts) && Placed(ts, t) && Begin(t) == 0 && End(t) == |ts|
    ensures Outermost(Blocks(ts, 0), Blocks(ts, 0)) == Outer(t)
  {
    BlocksOfPlan(ts, t);
    assert Blocks(ts, |ts|) == [] && Expected(t) + [] == Expected(t);
    ExpectedWithin(ts, t);
    KeepPlan(ts, t, Expected(t));
  }
}
