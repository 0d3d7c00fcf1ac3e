/**
 Svelte branches: `if_blocks` finds every `{#if ...}` and `{:else if ...}` whose
 condition counts, walks to the end of that branch, and keeps the outermost ones.
 What its regular expressions see at each position is a classification of the
 text, computed once; the walk is over that.
 */
module Templates {
  import opened Strings
  import opened TemplateTokens

  // ----- A classified text -----

  /** Tokens and headers stay inside the text. */
  predicate Fits(ts: seq<Token>) {
    forall p :: 0 <= p < |ts| ==> FitsAt(ts, p)
  }

  predicate FitsAt(ts: seq<Token>, p: nat)
    requires p < |ts|
  {
    && p + Width(ts[p]) <= |ts|
    && ((ts[p].IfToken? || ts[p].ElseToken?) && ts[p].header.Header? ==> p < ts[p].header.to < |ts|)
  }

  // ----- The end of a branch -----

  /** The next token at or after `i`, or the end of the text. */
  function Next(ts: seq<Token>, i: nat): (r: nat)
    requires i <= |ts|
    ensures i <= r <= |ts| && (r < |ts| ==> !ts[r].NoToken?)
    decreases |ts| - i
  {
    if i == |ts| || !ts[i].NoToken? then i else Next(ts, i + 1)
  }

  /** Where the branch ends, standing at `i` with `depth` blocks open. */
  function BranchEnd(ts: seq<Token>, i: nat, depth: nat, cut: Option<nat>): nat
    requires i <= |ts| && Fits(ts)
    decreases |ts| - i
  {
    var p := if depth == 0 then |ts| else Next(ts, i);
    if p == |ts| then if cut.Some? then cut.value else i
    else
      assert FitsAt(ts, p);
      var after := p + Width(ts[p]);
      match ts[p]
      case ElseToken(_) => BranchEnd(ts, after, depth, if depth == 1 && cut.None? then Some(p) else cut)
      case IfToken(_) => BranchEnd(ts, after, depth + 1, cut)
      case EndToken => BranchEnd(ts, after, depth - 1, cut)
  }

  datatype Block = Block(start: nat, after: nat, end: nat)

  /** The header that the branch pattern matches at `p`, if any. */
  function BranchAt(ts: seq<Token>, p: nat): Header
    requires p < |ts|
  {
    if ts[p].IfToken? || ts[p].ElseToken? then ts[p].header else NoHeader
  }

  /** The branches that count, from `p` on. */
  function Blocks(ts: seq<Token>, p: nat): seq<Block>
    requires p <= |ts| && Fits(ts)
    decreases |ts| - p
  {
    if p == |ts| then [] else
    assert FitsAt(ts, p);
    match BranchAt(ts, p)
    case NoHeader => Blocks(ts, p + 1)
    case Header(to, counts) =>
      if counts then [Block(p, to + 1, BranchEnd(ts, to + 1, 1, None))] + Blocks(ts, to + 1)
      else Blocks(ts, to + 1)
  }

  /** `b` lies in the branch of `o`. */
  predicate Inside(b: Block, o: Block) { o.after <= b.start && b.end <= o.end }

  /** The blocks of `bs` that lie inside no block of `all`. */
  function Outermost(bs: seq<Block>, all: seq<Block>): seq<Block> {
    if bs == [] then []
    else if exists o | o in all :: Inside(bs[0], o) then Outermost(bs[1..], all)
    else [bs[0]] + Outermost(bs[1..], all)
  }

  function Slices(text: string, bs: seq<Block>): seq<string> {
    if bs == [] then []
    else
      var b := bs[0];
      [if b.after <= b.end <= |text| then text[b.after..b.end] else ""] + Slices(text, bs[1..])
  }

  lemma {:induction false} ClassifyFits(text: string, counts: string -> bool)
    ensures Fits(Classify(text, counts, |text|))
  {
    var ts := Classify(text, counts, |text|);
    forall p: nat | p < |ts| ensures FitsAt(ts, p) {
      ClassifyAt(text, counts, |text|, p);
    }
  }

  /** What `if_blocks` returns for the conditions that count. */
  function Found(markup: string, counts: string -> bool): seq<string> {
    var ts := Classify(markup, counts, |markup|);
    ClassifyFits(markup, counts);
    Slices(markup, Outermost(Blocks(ts, 0), Blocks(ts, 0)))
  }

  // ----- The outermost filter, for any blocks -----

  /** A block as the scan makes them: its branch begins after its header. */
  predicate IsBlock(b: Block) { b.start < b.after <= b.end }

  lemma {:induction false} OutermostMeaning(bs: seq<Block>, all: seq<Block>, b: Block)
    ensures b in Outermost(bs, all) <==> b in bs && !exists o :: o in all && Inside(b, o)
  {
    if bs != [] {
      OutermostMeaning(bs[1..], all, b);
      assert b in bs <==> b == bs[0] || b in bs[1..];
    }
  }

  /** The kept blocks are pairwise not nested. */
  lemma {:induction false} KeptNotNested(all: seq<Block>, b: Block, o: Block)
    requires b in Outermost(all, all) && o in Outermost(all, all)
    ensures !Inside(b, o)
  {
    OutermostMeaning(all, all, b);
    OutermostMeaning(all, all, o);
  }

  ghost function Around(b: Block, all: seq<Block>): set<Block> {
    set o | o in all && Inside(b, o)
  }

  /** Every dropped block lies inside a kept one: containment is a strict partial
      order, so climbing it ends. */
  lemma {:induction false} DroppedInsideKept(all: seq<Block>, b: Block) returns (k: Block)
    requires forall o :: o in all ==> IsBlock(o)
    requires b in all && b !in Outermost(all, all)
    ensures k in Outermost(all, all) && Inside(b, k)
    decreases Around(b, all)
  {
    OutermostMeaning(all, all, b);
    var o :| o in all && Inside(b, o);
    if o in Outermost(all, all) {
      k := o;
    } else {
      assert o in Around(b, all) && o !in Around(o, all);
      k := DroppedInsideKept(all, o);
    }
  }

  // ----- The blocks the scan makes -----

  lemma {:induction false} BranchEndBehind(ts: seq<Token>, i: nat, depth: nat, cut: Option<nat>)
    requires i <= |ts| && Fits(ts)
    ensures cut.Some? ==> BranchEnd(ts, i, depth, cut) == cut.value
    ensures cut.None? ==> i <= BranchEnd(ts, i, depth, cut) <= |ts|
    decreases |ts| - i
  {
    var p := if depth == 0 then |ts| else Next(ts, i);
    if p < |ts| {
      assert FitsAt(ts, p);
      var after := p + Width(ts[p]);
      match ts[p]
      case ElseToken(_) => BranchEndBehind(ts, after, depth, if depth == 1 && cut.None? then Some(p) else cut);
      case IfToken(_) => BranchEndBehind(ts, after, depth + 1, cut);
      case EndToken => BranchEndBehind(ts, after, depth - 1, cut);
    }
  }

  /** Every block of the scan begins at or behind `p`, its branch behind its header and inside
      the text; so no block lies inside itself. */
  lemma {:induction false} ScanMakesBlocks(ts: seq<Token>, p: nat, b: Block)
    requires p <= |ts| && Fits(ts) && b in Blocks(ts, p)
    ensures p <= b.start && IsBlock(b) && b.end <= |ts| && !Inside(b, b)
    decreases |ts| - p
  {
    assert FitsAt(ts, p);
    match BranchAt(ts, p)
    case NoHeader => ScanMakesBlocks(ts, p + 1, b);
    case Header(to, counts) =>
      BranchEndBehind(ts, to + 1, 1, None);
      if b in Blocks(ts, to + 1) {
        ScanMakesBlocks(ts, to + 1, b);
      }
  }

  /** Whatever the text: a block the filter drops lies inside one that it keeps. */
  lemma {:induction false} NoClaimLost(ts: seq<Token>, b: Block) returns (k: Block)
    requires Fits(ts) && b in Blocks(ts, 0)
    ensures k in Outermost(Blocks(ts, 0), Blocks(ts, 0)) && (k == b || Inside(b, k))
  {
    var all := Blocks(ts, 0);
    forall o | o in all ensures IsBlock(o) {
      ScanMakesBlocks(ts, 0, o);
    }
    if b in Outermost(all, all) {
      k := b;
    } else {
      k := DroppedInsideKept(all, b);
    }
  }
}
