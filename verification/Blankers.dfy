/**
 The two blankers. `WithoutStrings` is a five-flag scanner, `BlankNoncode` rewrites
 a character array token by token; both are proved to show exactly the code of the
 one lexing a text has.
 */
module Blankers {
  import opened Strings
  import opened Lexing

  /** `rest`, beginning at `k`, is a tail of `chain`, which begins at `from`. */
  predicate IsTail(chain: Chain, from: nat, k: nat, rest: Chain)
    decreases chain
  {
    (chain == rest && from == k) || (chain.Span? && IsTail(chain.rest, chain.to, k, rest))
  }

  /** `rest` is what is left of the lexing of `text` at `k`. */
  ghost predicate Left(text: string, k: nat, rest: Chain) { IsTail(Tokens(text), 0, k, rest) }

  lemma {:induction false} TailMeaning(text: string, chain: Chain, from: nat, k: nat, rest: Chain)
    requires Lexes(text, from, chain) && IsTail(chain, from, k, rest)
    ensures from <= k <= |text| && Lexes(text, k, rest)
    ensures forall i: nat :: k <= i ==> KindAt(chain, i) == KindAt(rest, i)
    ensures forall i: nat :: k <= i ==> OpensString(chain, from, i) == OpensString(rest, k, i)
    ensures rest.Span? ==> IsTail(chain, from, rest.to, rest.rest)
    decreases chain
  {
    if chain == rest && from == k {
      if rest.Span? {
        assert IsTail(chain.rest, chain.to, rest.to, rest.rest);
      }
    } else {
      TailMeaning(text, chain.rest, chain.to, k, rest);
    }
  }

  /** A token at `k` is the next one of the lexing. */
  lemma {:induction false} NextToken(text: string, k: nat, rest: Chain, kind: Kind, n: nat)
    requires Left(text, k, rest) && k < |text| && IsSpan(text, k, kind, n)
    ensures rest.Span? && rest.kind == kind && rest.to == n && k < n && Left(text, n, rest.rest)
    ensures forall i: nat :: k <= i < n ==> IsCode(text, i) == kind.Plain?
    ensures forall i: nat :: k <= i < n ==> IsOpeningQuote(text, i) == (kind.Quoted? && i == k)
  {
    TailMeaning(text, Tokens(text), 0, k, rest);
    SpanIsUnique(text, k, kind, n, rest.kind, rest.to);
  }

  // ----- without_strings -----

  /** What has been written: the view up to `k`, where the token the scanner is in
      began, and blanks from there to `i`. */
  ghost predicate Written(text: string, k: nat, i: nat, r: string) {
    && k <= i == |r| <= |text|
    && (forall j :: 0 <= j < k ==> r[j] == if IsCode(text, j) then text[j] else Blot(text[j]))
    && (forall j :: k <= j < i ==> r[j] == Blot(text[j]))
  }

  lemma {:induction false} HiddenDone(text: string, k: nat, n: nat, rest: Chain, kind: Kind, r: string)
    requires Left(text, k, rest) && k < |text| && IsSpan(text, k, kind, n) && !kind.Plain?
    requires Written(text, k, n, r)
    ensures rest.Span? && Left(text, n, rest.rest) && Written(text, n, n, r)
  {
    NextToken(text, k, rest, kind, n);
  }

  lemma {:induction false} WriteCode(text: string, i: nat, rest: Chain, r: string)
    requires Left(text, i, rest) && Written(text, i, i, r) && IsPlain(text, i, i + 1)
    ensures rest.Span? && Left(text, i + 1, rest.rest) && Written(text, i + 1, i + 1, r + [text[i]])
  {
    NextToken(text, i, rest, Plain, i + 1);
  }

  /** The flags of the scanner. */
  datatype Flags = Flags(quote: Option<char>, escaped: bool, lineComment: bool, blockComment: bool)

  const CODE := Flags(None, false, false, false)

  /** The token the scanner is in, by its flags: begun at `k`, read up to `i`. */
  ghost predicate InToken(text: string, k: nat, i: nat, f: Flags) {
    && k <= i <= |text|
    && if f.lineComment then
         && !f.blockComment && f.quote.None? && Pair(text, k, '/', '/') && k + 2 <= i
         && forall j :: k + 2 <= j < i ==> text[j] != '\n'
       else if f.blockComment then
         && f.quote.None? && Pair(text, k, '/', '*') && k + 2 <= i
         && forall j :: k + 2 <= j < i ==> !Pair(text, j, '*', '/')
       else if f.quote.Some? then
         && k < i && text[k] == f.quote.value && IsQuote(text[k])
         && Reading(text, text[k], k + 1, i) == Some(f.escaped)
       else k == i
  }

  /** Where the scanner stands after writing `r`. */
  ghost predicate Standing(text: string, i: nat, r: string, f: Flags) {
    exists k: nat, rest: Chain :: Left(text, k, rest) && Written(text, k, i, r) && InToken(text, k, i, f)
  }

  lemma {:induction false} LineTurn(text: string, i: nat, r: string, f: Flags)
    requires Standing(text, i, r, f) && i < |text| && f.lineComment
    ensures Standing(text, i + 1, r + [Blot(text[i])], f.(lineComment := text[i] != '\n'))
  {
    var k: nat, rest :| Left(text, k, rest) && Written(text, k, i, r) && InToken(text, k, i, f);
    if text[i] == '\n' {
      HiddenDone(text, k, i, rest, Line, r);
      WriteCode(text, i, rest.rest, r);
      assert InToken(text, i + 1, i + 1, f.(lineComment := false));
    } else {
      assert InToken(text, k, i + 1, f);
    }
  }

  lemma {:induction false} BlockTurn(text: string, i: nat, r: string, f: Flags)
    requires Standing(text, i, r, f) && i < |text| && f.blockComment && !f.lineComment
    ensures if Pair(text, i, '*', '/') then Standing(text, i + 2, r + [' '] + [' '], f.(blockComment := false))
            else Standing(text, i + 1, r + [Blot(text[i])], f)
  {
    var k: nat, rest :| Left(text, k, rest) && Written(text, k, i, r) && InToken(text, k, i, f);
    if Pair(text, i, '*', '/') {
      HiddenDone(text, k, i + 2, rest, Block, r + [' '] + [' ']);
      assert InToken(text, i + 2, i + 2, f.(blockComment := false));
    } else {
      assert InToken(text, k, i + 1, f);
    }
  }

  lemma {:induction false} StringTurn(text: string, i: nat, r: string, f: Flags)
    requires Standing(text, i, r, f) && i < |text| && f.quote.Some? && !f.lineComment && !f.blockComment
    ensures var g := if f.escaped then f.(escaped := false)
                     else if text[i] == '\\' then f.(escaped := true)
                     else if Some(text[i]) == f.quote then f.(quote := None)
                     else f;
            Standing(text, i + 1, r + [Blot(text[i])], g)
  {
    var k: nat, rest :| Left(text, k, rest) && Written(text, k, i, r) && InToken(text, k, i, f);
    if !f.escaped && text[i] != '\\' && Some(text[i]) == f.quote {
      HiddenDone(text, k, i + 1, rest, Quoted, r + [Blot(text[i])]);
      assert InToken(text, i + 1, i + 1, f.(quote := None));
    } else {
      assert InToken(text, k, i + 1, f.(escaped := !f.escaped && text[i] == '\\'));
    }
  }

  lemma {:induction false} CodeTurn(text: string, i: nat, r: string, f: Flags)
    requires Standing(text, i, r, f) && i < |text| && f.quote.None? && !f.lineComment && !f.blockComment
    ensures if Pair(text, i, '/', '/') then Standing(text, i + 2, r + [' '] + [' '], f.(lineComment := true))
            else if Pair(text, i, '/', '*') then Standing(text, i + 2, r + [' '] + [' '], f.(blockComment := true))
            else if IsQuote(text[i]) then Standing(text, i + 1, r + [' '], f.(quote := Some(text[i]), escaped := false))
            else Standing(text, i + 1, r + [text[i]], f)
  {
    var k: nat, rest :| Left(text, k, rest) && Written(text, k, i, r) && InToken(text, k, i, f);
    if Pair(text, i, '/', '/') || Pair(text, i, '/', '*') {
      assert InToken(text, i, i + 2, f.(lineComment := text[i + 1] == '/', blockComment := text[i + 1] == '*'));
    } else if IsQuote(text[i]) {
      assert InToken(text, i, i + 1, f.(quote := Some(text[i]), escaped := false));
    } else {
      WriteCode(text, i, rest, r);
      assert InToken(text, i + 1, i + 1, f);
    }
  }

  /** At the end of the text the token the scanner is in, if any, ends unclosed. */
  lemma {:induction false} LastTurn(text: string, r: string, f: Flags)
    requires Standing(text, |text|, r, f)
    ensures ShowsCode(text, r)
  {
    var n := |text|;
    var k: nat, rest :| Left(text, k, rest) && Written(text, k, n, r) && InToken(text, k, n, f);
    if k < n {
      HiddenDone(text, k, n, rest, if f.lineComment then Line else if f.blockComment then Block else Quoted, r);
    }
  }

  /** The loop of `without_strings`: offsets survive, newlines survive, code
      survives, and everything else is a space. */
  method WithoutStrings(text: string) returns (r: string)
    ensures ShowsCode(text, r)
  {
    r := "";
    var quote: Option<char> := None;
    var escaped, lineComment, blockComment := false, false, false;
    var i := 0;
    assert Left(text, 0, Tokens(text)) && Written(text, 0, 0, r) && InToken(text, 0, 0, CODE);
    while i < |text|
      invariant i <= |text|
      invariant Standing(text, i, r, Flags(quote, escaped, lineComment, blockComment))
    {
      var c := text[i];
      ghost var f := Flags(quote, escaped, lineComment, blockComment);
      if lineComment {
        LineTurn(text, i, r, f);
        if c == '\n' {
          lineComment := false;
        }
        r := r + [Blot(c)];
        i := i + 1;
      } else if blockComment {
        BlockTurn(text, i, r, f);
        if c == '*' && i + 1 < |text| && text[i + 1] == '/' {
          blockComment := false;
          r := r + [' '] + [' '];
          i := i + 2;
        } else {
          r := r + [Blot(c)];
          i := i + 1;
        }
      } else if quote.Some? {
        StringTurn(text, i, r, f);
        r := r + [Blot(c)];
        if escaped {
          escaped := false;
        } else if c == '\\' {
          escaped := true;
        } else if c == quote.value {
          quote := None;
        }
        i := i + 1;
      } else {
        CodeTurn(text, i, r, f);
        if c == '/' && i + 1 < |text| && text[i + 1] == '/' {
          lineComment := true;
          r := r + [' '] + [' '];
          i := i + 2;
        } else if c == '/' && i + 1 < |text| && text[i + 1] == '*' {
          blockComment := true;
          r := r + [' '] + [' '];
          i := i + 2;
        } else if IsQuote(c) {
          quote := Some(c);
          escaped := false;
          r := r + [' '];
          i := i + 1;
        } else {
          r := r + [c];
          i := i + 1;
        }
      }
    }
    LastTurn(text, r, Flags(quote, escaped, lineComment, blockComment));
  }

  // ----- blank_noncode -----

  /** `str.find` of one character. */
  function FindChar(text: string, c: char, from: nat): (r: int)
    requires from <= |text|
    ensures r == -1 || (from <= r < |text| && text[r] == c)
    ensures forall j :: from <= j < (if r == -1 then |text| else r) ==> text[j] != c
    decreases |text| - from
  {
    if from == |text| then -1 else if text[from] == c then from else FindChar(text, c, from + 1)
  }

  /** `str.find` of two characters. */
  function FindPair(text: string, a: char, b: char, from: nat): (r: int)
    requires from <= |text|
    ensures r == -1 || (from <= r && Pair(text, r, a, b))
    ensures forall j :: from <= j < (if r == -1 then |text| else r) ==> !Pair(text, j, a, b)
    decreases |text| - from
  {
    if from == |text| then -1 else if Pair(text, from, a, b) then from else FindPair(text, a, b, from + 1)
  }

  /** The first `k` characters show the view, the others are untouched. */
  ghost predicate Rewritten(text: string, out: seq<char>, k: nat) {
    && k <= |text| == |out|
    && (forall j :: 0 <= j < k ==>
          out[j] == if IsCode(text, j) || IsOpeningQuote(text, j) then text[j] else Blot(text[j]))
    && (forall j :: k <= j < |text| ==> out[j] == text[j])
  }

  lemma {:induction false} SpanRewritten(text: string, before: seq<char>, out: seq<char>, k: nat, rest: Chain, kind: Kind, n: nat)
    requires Left(text, k, rest) && k < |text| && IsSpan(text, k, kind, n)
    requires Rewritten(text, before, k) && |out| == |text| && n <= |text|
    requires forall j :: 0 <= j < |text| && !(k <= j < n) ==> out[j] == before[j]
    requires forall j :: k <= j < n ==>
               out[j] == if kind.Plain? || (kind.Quoted? && j == k) then text[j] else Blot(text[j])
    ensures rest.Span? && Left(text, n, rest.rest) && Rewritten(text, out, n)
  {
    NextToken(text, k, rest, kind, n);
  }

  /** The inner loop over a string: one past its closing quote, or past the end. */
  method SkipString(text: string, i: nat) returns (j: nat)
    requires i < |text| && IsQuote(text[i])
    ensures i < j <= |text| + 1
    ensures IsQuoted(text, i, if j <= |text| then j else |text|)
  {
    var n := |text|;
    j := i + 1;
    while j < n
      invariant i < j <= n + 1
      invariant if j <= n then Reading(text, text[i], i + 1, j) == Some(false)
                else Reading(text, text[i], i + 1, n) == Some(true)
    {
      if text[j] == '\\' {
        assert Reading(text, text[i], i + 1, j + 1) == Some(true);
        j := j + 2;
      } else if text[j] == text[i] {
        j := j + 1;
        return;
      } else {
        j := j + 1;
      }
    }
  }

  /** Overwrite everything but newlines from `lo` up to `hi`. */
  method Overwrite(text: string, out: array<char>, lo: nat, hi: nat)
    requires lo <= hi <= |text| == out.Length
    modifies out
    ensures forall j :: lo <= j < hi ==> out[j] == if text[j] != '\n' then ' ' else old(out[j])
    ensures forall j :: 0 <= j < out.Length && !(lo <= j < hi) ==> out[j] == old(out[j])
  {
    for k := lo to hi
      invariant forall j :: lo <= j < k ==> out[j] == if text[j] != '\n' then ' ' else old(out[j])
      invariant forall j :: 0 <= j < out.Length && !(lo <= j < k) ==> out[j] == old(out[j])
    {
      if text[k] != '\n' {
        out[k] := ' ';
      }
    }
  }

  /** One turn of `blank_noncode`: find where the token at `i` ends and overwrite
      what of it is not code. */
  method BlankToken(text: string, out: array<char>, i: nat) returns (j: nat, ghost kind: Kind)
    requires i < |text| == out.Length && out[i] == text[i]
    requires forall k :: i <= k < |text| ==> out[k] == text[k]
    modifies out
    ensures i < j <= |text| + 1
    ensures IsSpan(text, i, kind, Clamp(text, j))
    ensures forall k :: 0 <= k < |text| && !(i <= k < Clamp(text, j)) ==> out[k] == old(out[k])
    ensures forall k :: i <= k < Clamp(text, j) ==>
              out[k] == if kind.Plain? || (kind.Quoted? && k == i) then text[k] else Blot(text[k])
  {
    var n, c := |text|, text[i];
    j, kind := i + 1, Plain;
    if c == '/' && i + 1 < n && text[i + 1] == '/' {
      kind := Line;
      var f := FindChar(text, '\n', i);
      j := if f < 0 then n else f;
      Overwrite(text, out, i, j);
    } else if c == '/' && i + 1 < n && text[i + 1] == '*' {
      kind := Block;
      var f := FindPair(text, '*', '/', i + 2);
      j := if f < 0 then n else f + 2;
      Overwrite(text, out, i, j);
    } else if c == '"' || c == '\'' || c == '`' {
      kind := Quoted;
      j := SkipString(text, i);
      Overwrite(text, out, i + 1, Clamp(text, j));
    }
  }

  function Clamp(text: string, j: nat): nat { if j <= |text| then j else |text| }

  /** The loop of `blank_noncode`: the opening quote of a string stays, its body and
      its closing quote do not. */
  method BlankNoncode(text: string) returns (r: string)
    ensures ShowsCodeAndQuotes(text, r)
  {
    var n := |text|;
    var out := new char[n](i requires 0 <= i < n => text[i]);
    var i := 0;
    ghost var rest := Tokens(text);
    while i < n
      invariant out.Length == n && i <= n + 1
      invariant Left(text, Clamp(text, i), rest)
      invariant Rewritten(text, out[..], Clamp(text, i))
    {
      ghost var before := out[..];
      var j, kind := BlankToken(text, out, i);
      SpanRewritten(text, before, out[..], i, rest, kind, Clamp(text, j));
      rest := rest.rest;
      i := j;
    }
    r := out[..];
  }
}
