/** Matched braces, the innermost block around a position, and the block extractors. */
module Braces {
  import opened Strings
  import opened Lexing
  import opened Blankers
  import opened BlankerLaws

  /** Opening minus closing braces of `s[lo..hi]`. */
  function Depth(s: string, lo: nat, hi: nat): int
    requires lo <= hi <= |s|
  {
    if lo == hi then 0
    else Depth(s, lo, hi - 1) + (if s[hi - 1] == '{' then 1 else if s[hi - 1] == '}' then -1 else 0)
  }

  /** The brace at `a` is closed by the brace at `e`. */
  ghost predicate Matched(s: string, a: nat, e: nat) {
    && a < e < |s| && s[a] == '{' && s[e] == '}'
    && Depth(s, a, e + 1) == 0
    && forall k :: a < k <= e ==> Depth(s, a, k) > 0
  }

  lemma {:induction false} DepthAdds(s: string, a: nat, b: nat, c: nat)
    requires a <= b <= c <= |s|
    ensures Depth(s, a, c) == Depth(s, a, b) + Depth(s, b, c)
    decreases c
  {
    if b < c {
      DepthAdds(s, a, b, c - 1);
    }
  }

  // ----- enclosing_body -----

  /** `(s, e)` is the innermost matched pair with `s < pos <= e`. */
  ghost predicate Innermost(blank: string, pos: int, s: nat, e: nat) {
    && Matched(blank, s, e) && s < pos <= e
    && forall a: nat, c: nat :: Matched(blank, a, c) && a < pos <= c ==> a <= s && e <= c
  }

  /** Nothing to the left of `pos` but `start` opens a block that is still open there. */
  ghost predicate OpenAt(blank: string, pos: nat, start: nat) {
    && start < pos <= |blank| && blank[start] == '{'
    && (forall k :: start < k <= pos ==> Depth(blank, start, k) > 0)
    && (forall k :: start < k <= pos ==> Depth(blank, k, pos) <= 0)
  }

  lemma {:induction false} Straddles(blank: string, pos: nat, start: nat, a: nat, c: nat)
    requires OpenAt(blank, pos, start) && Matched(blank, a, c) && a < pos <= c
    ensures a <= start
    ensures exists k :: start < k <= c + 1 && Depth(blank, start, k) <= 0
  {
    assert Depth(blank, a, pos) > 0;
    if a < start {
      DepthAdds(blank, a, start, c + 1);
      assert Depth(blank, start, c + 1) < 0;
    } else {
      assert Depth(blank, start, c + 1) == 0;
    }
  }

  /** The two loops of `enclosing_body`: an opening brace found by counting back, its
      close by counting forward. */
  method EnclosingBody(blank: string, pos: int) returns (r: Option<(nat, nat)>)
    requires pos <= |blank|
    ensures r.Some? ==> Innermost(blank, pos, r.value.0, r.value.1)
    ensures r.None? <==> !exists a: nat, c: nat :: Matched(blank, a, c) && a < pos <= c
  {
    if pos <= 0 {
      return None;
    }
    var start := FindOpen(blank, pos);
    if start.None? {
      return None;
    }
    var s := start.value;
    var depth := 0;
    for i := s to |blank|
      invariant depth == Depth(blank, s, i)
      invariant forall k :: s < k <= i ==> Depth(blank, s, k) > 0
    {
      var c := blank[i];
      if c == '{' {
        depth := depth + 1;
      } else if c == '}' {
        depth := depth - 1;
        if depth == 0 {
          assert Matched(blank, s, i) && pos <= i;
          forall a: nat, c: nat | Matched(blank, a, c) && a < pos <= c ensures a <= s && i <= c {
            Straddles(blank, pos, s, a, c);
          }
          return Some((s, i));
        }
      }
    }
    forall a: nat, c: nat | a < pos <= c ensures !Matched(blank, a, c) {
      if Matched(blank, a, c) {
        Straddles(blank, pos, s, a, c);
      }
    }
    r := None;
  }

  /** The first loop: back from `pos` to the brace still open there. */
  method FindOpen(blank: string, pos: nat) returns (start: Option<nat>)
    requires 0 < pos <= |blank|
    ensures start.Some? ==> OpenAt(blank, pos, start.value)
    ensures start.None? ==> !exists a: nat, c: nat :: Matched(blank, a, c) && a < pos <= c
  {
    var depth := 0;
    var i := pos;
    while i > 0
      invariant 0 <= i <= pos
      invariant depth == -Depth(blank, i, pos)
      invariant forall k :: i <= k <= pos ==> Depth(blank, k, pos) <= 0
    {
      i := i - 1;
      var c := blank[i];
      DepthAdds(blank, i, i + 1, pos);
      assert Depth(blank, i, i + 1) == if c == '{' then 1 else if c == '}' then -1 else 0;
      if c == '}' {
        depth := depth + 1;
      } else if c == '{' {
        if depth == 0 {
          forall k | i < k <= pos ensures Depth(blank, i, k) > 0 {
            DepthAdds(blank, i, k, pos);
          }
          return Some(i);
        }
        depth := depth - 1;
      }
    }
    forall a: nat, c: nat | a < pos <= c ensures !Matched(blank, a, c) {
      assert Depth(blank, a, pos) <= 0;
    }
    start := None;
  }

  // ----- The block extractors -----

  /** Where a scan standing at `i`, `depth` braces deep, comes back to depth zero. */
  function Close(text: string, i: nat, depth: int): Option<nat>
    requires i <= |text|
    decreases |text| - i
  {
    if i == |text| then None
    else if text[i] == '{' then Close(text, i + 1, depth + 1)
    else if text[i] == '}' then if depth == 1 then Some(i) else Close(text, i + 1, depth - 1)
    else Close(text, i + 1, depth)
  }

  /** The block at `brace`, or `unclosed` when it never closes. */
  function Extract(text: string, brace: nat, unclosed: string): string
    requires brace <= |text|
  {
    match Close(text, brace, 0)
    case Some(e) => if brace <= e < |text| then text[brace..e + 1] else unclosed
    case None => unclosed
  }

  lemma {:induction false} CloseIsMatch(text: string, brace: nat, i: nat)
    requires brace < i <= |text| && text[brace] == '{'
    requires forall k :: brace < k <= i ==> Depth(text, brace, k) > 0
    ensures match Close(text, i, Depth(text, brace, i))
            case Some(e) => i <= e && Matched(text, brace, e)
            case None => forall e: nat :: !Matched(text, brace, e)
    decreases |text| - i
  {
    if i < |text| {
      if text[i] == '}' && Depth(text, brace, i) == 1 {
        assert Matched(text, brace, i);
      } else {
        CloseIsMatch(text, brace, i + 1);
      }
    }
  }

  /** On a closed block every extractor returns the same balanced slice, whatever it
      would have said of an open one; and `enclosing_body`, asked just inside the
      brace, names the same block. On a block that never closes it says that. */
  lemma {:induction false} ExtractsTheBlock(text: string, brace: nat, unclosed: string)
    requires brace < |text| && text[brace] == '{'
    ensures forall e: nat :: Matched(text, brace, e) ==>
              && Extract(text, brace, unclosed) == text[brace..e + 1]
              && Depth(text, brace, e + 1) == 0
              && Innermost(text, brace + 1, brace, e)
    ensures (forall e: nat :: !Matched(text, brace, e)) ==> Extract(text, brace, unclosed) == unclosed
  {
    assert Depth(text, brace, brace + 1) == 1;
    CloseIsMatch(text, brace, brace + 1);
    assert Close(text, brace, 0) == Close(text, brace + 1, 1);
    forall e: nat | Matched(text, brace, e)
      ensures Close(text, brace, 0) == Some(e) && Innermost(text, brace + 1, brace, e)
    {
      forall a: nat, c: nat | Matched(text, a, c) && a < brace + 1 <= c ensures e <= c {
        assert OpenAt(text, brace + 1, brace);
        Straddles(text, brace + 1, brace, a, c);
      }
    }
  }

  /** The extractors that return the rest of the text and the one that returns nothing
      agree exactly on the blocks that close. */
  lemma {:induction false} ExtractorsAgreeIff(text: string, brace: nat)
    requires brace < |text| && text[brace] == '{'
    ensures Extract(text, brace, text[brace..]) == Extract(text, brace, "") <==>
            exists e: nat :: Matched(text, brace, e)
  {
    ExtractsTheBlock(text, brace, text[brace..]);
    ExtractsTheBlock(text, brace, "");
  }

  /** `block_at`. */
  method BlockAt(text: string, brace: nat) returns (r: string)
    requires brace <= |text|
    ensures r == Extract(text, brace, text[brace..])
  {
    var depth := 0;
    for i := brace to |text|
      invariant Close(text, brace, 0) == Close(text, i, depth)
    {
      if text[i] == '{' {
        depth := depth + 1;
      } else if text[i] == '}' {
        depth := depth - 1;
        if depth == 0 {
          return text[brace..i + 1];
        }
      }
    }
    r := text[brace..];
  }

  /** `body_from`: the one that returns nothing for an open block. */
  method BodyFrom(text: string, brace: nat) returns (r: string)
    requires brace <= |text|
    ensures r == Extract(text, brace, "")
  {
    var depth := 0;
    for i := brace to |text|
      invariant Close(text, brace, 0) == Close(text, i, depth)
    {
      if text[i] == '{' {
        depth := depth + 1;
      } else if text[i] == '}' {
        depth := depth - 1;
        if depth == 0 {
          return text[brace..i + 1];
        }
      }
    }
    r := "";
  }

  /** The block that the first brace at or after `start` opens. */
  ghost predicate IsBodyOf(text: string, start: nat, r: string) {
    if start <= |text| && FindChar(text, '{', start) >= 0 then
      var brace := FindChar(text, '{', start);
      r == Extract(text, brace, text[brace..])
    else r == ""
  }

  /** `body_of`. */
  method BodyOf(text: string, start: nat) returns (r: string)
    ensures IsBodyOf(text, start, r)
  {
    if start > |text| {
      return "";
    }
    var i := FindChar(text, '{', start);
    if i < 0 {
      return "";
    }
    var depth := 0;
    for j := i to |text|
      invariant Close(text, i, 0) == Close(text, j, depth)
    {
      if text[j] == '{' {
        depth := depth + 1;
      } else if text[j] == '}' {
        depth := depth - 1;
        if depth == 0 {
          return text[i..j + 1];
        }
      }
    }
    r := text[i..];
  }

  /** `impl_body`. */
  method ImplBody(text: string, afterAttr: nat) returns (r: string)
    ensures IsBodyOf(text, afterAttr, r)
  {
    var start := if afterAttr <= |text| then FindChar(text, '{', afterAttr) else -1;
    if start == -1 {
      return "";
    }
    var depth := 0;
    for i := start to |text|
      invariant Close(text, start, 0) == Close(text, i, depth)
    {
      var c := text[i];
      if c == '{' {
        depth := depth + 1;
      } else if c == '}' {
        depth := depth - 1;
        if depth == 0 {
          return text[start..i + 1];
        }
      }
    }
    r := text[start..];
  }

  // ----- Brace pairs of a blanked text -----

  lemma {:induction false} SameDepth(s: string, t: string, lo: nat, hi: nat)
    requires |s| == |t| && lo <= hi <= |s|
    requires forall i :: lo <= i < hi ==> (s[i] == '{' <==> t[i] == '{') && (s[i] == '}' <==> t[i] == '}')
    ensures Depth(s, lo, hi) == Depth(t, lo, hi)
    decreases hi
  {
    if lo < hi {
      SameDepth(s, t, lo, hi - 1);
    }
  }

  /** The brace pairs of either blanker's output are the brace pairs of the code. */
  lemma {:induction false} CodeBracePairs(text: string, r: string, o: string, a: nat, e: nat)
    requires ShowsCode(text, r) && ShowsCodeAndQuotes(text, o)
    ensures Matched(o, a, e) <==> Matched(r, a, e)
    ensures Matched(o, a, e) ==> IsCode(text, a) && IsCode(text, e) && text[a] == '{' && text[e] == '}'
  {
    forall i: nat | i < |text|
      ensures (r[i] == '{' <==> o[i] == '{') && (r[i] == '}' <==> o[i] == '}')
    {
      SameBraces(text, r, o, i, '{');
      SameBraces(text, r, o, i, '}');
    }
    if a < e < |text| {
      forall k | a <= k <= e + 1 ensures Depth(o, a, k) == Depth(r, a, k) {
        SameDepth(o, r, a, k);
      }
      SameBraces(text, r, o, a, '{');
      SameBraces(text, r, o, e, '}');
    }
  }
}
