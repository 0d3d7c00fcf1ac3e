/** The loops of `if_blocks`. */
module TemplateScan {
  import opened Strings
  import opened TemplateTokens
  import opened Templates

  /** The inner loop of `if_blocks`. */
  method WalkBranch(ts: seq<Token>, start: nat) returns (end: nat)
    requires start <= |ts| && Fits(ts)
    ensures end == BranchEnd(ts, start, 1, None)
  {
    var depth, i := 1, start;
    var cut: Option<nat> := None;
    ghost var target := BranchEnd(ts, start, 1, None);
    while i < |ts| && depth > 0
      invariant i <= |ts| && depth >= 0
      invariant BranchEnd(ts, i, depth, cut) == target
    {
      var nxt := Next(ts, i);
      if nxt == |ts| {
        break;
      }
      assert FitsAt(ts, nxt);
      if ts[nxt].ElseToken? {
        if depth == 1 && cut.None? {
          cut := Some(nxt);
        }
        i := nxt + 6;
      } else if ts[nxt].IfToken? {
        depth := depth + 1;
        i := nxt + 4;
      } else {
        depth := depth - 1;
        i := nxt + 5;
      }
    }
    end := if cut.Some? then cut.value else i;
  }

  /** The outer loop of `if_blocks`. */
  method FindBlocks(ts: seq<Token>) returns (blocks: seq<Block>)
    requires Fits(ts)
    ensures blocks == Blocks(ts, 0)
  {
    blocks := [];
    var p := 0;
    ghost var whole := Blocks(ts, 0);
    while p < |ts|
      invariant p <= |ts|
      invariant blocks + Blocks(ts, p) == whole
    {
      assert FitsAt(ts, p);
      var h := BranchAt(ts, p);
      if h.NoHeader? {
        p := p + 1;
      } else {
        if h.counts {
          var end := WalkBranch(ts, h.to + 1);
          ghost var rest := Blocks(ts, h.to + 1);
          assert blocks + ([Block(p, h.to + 1, end)] + rest) == blocks + [Block(p, h.to + 1, end)] + rest;
          blocks := blocks + [Block(p, h.to + 1, end)];
        }
        p := h.to + 1;
      }
    }
  }

  /** `if_blocks`. */
  method IfBlocks(markup: string, flag: string) returns (r: seq<string>)
    ensures r == Found(markup, About(flag))
  {
    var counts := About(flag);
    var ts := Classify(markup, counts, |markup|);
    ClassifyFits(markup, counts);
    var blocks := FindBlocks(ts);
    r := Slices(markup, Outermost(blocks, blocks));
  }
}
