/** What the two blankers promise their callers. */
module BlankerLaws {
  import opened Strings
  import opened Lexing
  import opened Blankers

  // ----- Code positions -----

  lemma {:induction false} PlainAt(text: string, chain: Chain, from: nat, i: nat)
    requires Lexes(text, from, chain) && from <= i < |text| && KindAt(chain, i).Plain?
    ensures IsPlain(text, i, i + 1)
    decreases chain
  {
    if chain.Span? && i >= chain.to {
      PlainAt(text, chain.rest, chain.to, i);
    }
  }

  predicate PlainChar(text: string, i: nat) { IsPlain(text, i, i + 1) }

  /** A text with no quote and no comment opener is all code. */
  lemma {:induction false} AllPlain(text: string, chain: Chain, from: nat, to: nat)
    requires Lexes(text, from, chain) && to <= |text|
    requires forall i: nat :: from <= i < to ==> PlainChar(text, i)
    ensures forall i: nat :: from <= i < to ==> KindAt(chain, i).Plain?
    decreases chain
  {
    if chain.Span? && from < to {
      assert PlainChar(text, from);
      SpanIsUnique(text, from, chain.kind, chain.to, Plain, from + 1);
      AllPlain(text, chain.rest, chain.to, to);
    }
  }

  /** What is shown as code cannot be read as anything else. */
  lemma {:induction false} ShownIsPlain(text: string, r: string, i: nat)
    requires ShowsCode(text, r) && i < |text|
    ensures PlainChar(r, i)
  {
    if IsCode(text, i) {
      PlainAt(text, Tokens(text), 0, i);
    }
    if i + 1 < |text| && IsCode(text, i + 1) {
      PlainAt(text, Tokens(text), 0, i + 1);
    }
  }

  /** Blanking twice is blanking once. */
  lemma {:induction false} WithoutStringsIdempotent(text: string, r: string, rr: string)
    requires ShowsCode(text, r) && ShowsCode(r, rr)
    ensures rr == r
  {
    forall i: nat | i < |r| ensures PlainChar(r, i) {
      ShownIsPlain(text, r, i);
    }
    AllPlain(r, Tokens(r), 0, |r|);
  }

  // ----- A comment's words do not matter -----

  /** Reading a text from `d` on is reading what stands there. */
  lemma {:induction false} ReadingShift(text: string, s: string, d: nat, q: char, from: nat, i: nat)
    requires |text| == d + |s| && text[d..] == s && from <= i <= |s|
    ensures Reading(text, q, d + from, d + i) == Reading(s, q, from, i)
    decreases i
  {
    if from < i {
      ReadingShift(text, s, d, q, from, i - 1);
      assert text[d + i - 1] == text[d..][i - 1];
    }
  }

  lemma {:induction false} SpanShift(text: string, s: string, d: nat, k: nat, kind: Kind, n: nat)
    requires |text| == d + |s| && text[d..] == s && k < n <= |s| && IsSpan(s, k, kind, n)
    ensures IsSpan(text, d + k, kind, d + n)
  {
    assert forall j :: d <= j < |text| ==> text[j] == s[j - d];
    forall j: int | d <= j ensures Pair(text, j, '*', '/') == Pair(s, j - d, '*', '/') {}
    if kind.Quoted? {
      if n >= k + 2 {
        ReadingShift(text, s, d, s[k], k + 1, n - 1);
      }
      ReadingShift(text, s, d, s[k], k + 1, n);
    }
  }

  function Shifted(chain: Chain, d: nat): Chain {
    match chain
    case End => End
    case Span(kind, n, rest) => Span(kind, d + n, Shifted(rest, d))
  }

  lemma {:induction false} LexesShift(text: string, s: string, d: nat, k: nat, chain: Chain)
    requires |text| == d + |s| && text[d..] == s && Lexes(s, k, chain)
    ensures Lexes(text, d + k, Shifted(chain, d))
    decreases chain
  {
    if chain.Span? {
      SpanShift(text, s, d, k, chain.kind, chain.to);
      LexesShift(text, s, d, chain.to, chain.rest);
    }
  }

  lemma {:induction false} KindShift(chain: Chain, d: nat, i: nat)
    ensures KindAt(Shifted(chain, d), d + i) == KindAt(chain, i)
  {
    if chain.Span? {
      KindShift(chain.rest, d, i);
    }
  }

  /** A prefix after which the scanner is back in code: its last token, if it runs to
      the end, is closed. */
  predicate EndsInCode(text: string, k: nat, chain: Chain)
    requires Lexes(text, k, chain)
    decreases chain
  {
    match chain
    case End => true
    case Span(kind, n, rest) => (n == |text| ==> IsClosed(text, k, kind, n)) && EndsInCode(text, n, rest)
  }

  predicate IsClosed(text: string, k: nat, kind: Kind, n: nat)
    requires k < n <= |text|
  {
    match kind
    case Plain => true
    case Line => false
    case Block => n >= k + 4 && Pair(text, n - 2, '*', '/')
    case Quoted => n >= k + 2 && text[n - 1] == text[k] && Reading(text, text[k], k + 1, n - 1) == Some(false)
  }

  lemma {:induction false} ReadingExtend(p: string, text: string, q: char, from: nat, i: nat)
    requires p <= text && from <= i <= |p|
    ensures Reading(text, q, from, i) == Reading(p, q, from, i)
    decreases i
  {
    if from < i {
      ReadingExtend(p, text, q, from, i - 1);
    }
  }

  /** A closed token stays a token whatever follows; a final slash may become the
      start of a comment. */
  lemma {:induction false} SpanExtend(p: string, text: string, k: nat, kind: Kind, n: nat)
    requires p <= text && k < n <= |p| && IsSpan(p, k, kind, n)
    requires n == |p| ==> IsClosed(p, k, kind, n) && !(kind.Plain? && p[k] == '/')
    ensures IsSpan(text, k, kind, n)
  {
    forall j: int | j < |p| - 1 ensures Pair(text, j, '*', '/') == Pair(p, j, '*', '/') {}
    if kind.Quoted? {
      if n >= k + 2 {
        ReadingExtend(p, text, p[k], k + 1, n - 1);
      }
      ReadingExtend(p, text, p[k], k + 1, n);
    }
  }

  /** Lex the prefix, then the comment, then what follows the newline at `m`. */
  lemma {:induction false} LexAround(p: string, text: string, m: nat, tail: Chain, k: nat, chain: Chain) returns (all: Chain)
    requires HasComment(p, text, m)
    requires Lexes(p, k, chain) && EndsInCode(p, k, chain) && Lexes(text, m, tail)
    ensures Lexes(text, k, all) && IsTail(all, k, m, tail)
    decreases chain
  {
    assert IsTail(tail, m, m, tail);
    if chain.End? || (chain.kind.Plain? && chain.to == |p| && p[k] == '/') {
      all := Span(Line, m, tail);
    } else {
      SpanExtend(p, text, k, chain.kind, chain.to);
      var rest := LexAround(p, text, m, tail, chain.to, chain.rest);
      all := Span(chain.kind, chain.to, rest);
    }
  }

  /** `text` is `p`, then a line comment, whose newline is at `m`. */
  predicate HasComment(p: string, text: string, m: nat) {
    && p <= text && |p| + 2 <= m < |text|
    && text[|p|] == text[|p| + 1] == '/' && text[m] == '\n'
    && forall j :: |p| <= j < m ==> text[j] != '\n'
  }

  lemma {:induction false} TokensAfterComment(p: string, text: string, m: nat, tail: Chain, i: nat)
    requires HasComment(p, text, m) && EndsInCode(p, 0, Tokens(p)) && Lexes(text, m, tail) && m <= i
    ensures KindAt(Tokens(text), i) == KindAt(tail, i)
  {
    var all := LexAround(p, text, m, tail, 0, Tokens(p));
    LexingIsUnique(text, 0, all, Tokens(text));
    TailMeaning(text, all, 0, m, tail);
  }

  ghost function AfterNewline(s: string, m: nat): Chain {
    Span(Plain, m + 1, Shifted(Tokens(s), m + 1))
  }

  lemma {:induction false} NewlineLexes(text: string, m: nat, s: string)
    requires m < |text| && text[m] == '\n' && s == text[m + 1..]
    ensures Lexes(text, m, AfterNewline(s, m))
  {
    LexesShift(text, s, m + 1, 0, Tokens(s));
  }

  lemma {:induction false} CodeAfterComment(p: string, text: string, m: nat, s: string, i: nat)
    requires HasComment(p, text, m) && EndsInCode(p, 0, Tokens(p)) && s == text[m + 1..]
    ensures IsCode(text, m) && IsCode(text, m + 1 + i) == IsCode(s, i)
  {
    NewlineLexes(text, m, s);
    KindShift(Tokens(s), m + 1, i);
    TokensAfterComment(p, text, m, AfterNewline(s, m), m);
    TokensAfterComment(p, text, m, AfterNewline(s, m), m + 1 + i);
  }

  /** After a prefix ending in code, whatever a line comment says - quotes included -
      what follows its newline at `m` is blanked as if it stood alone. */
  lemma {:induction false} CommentWordsDoNotMatter(p: string, text: string, m: nat, s: string, r: string, rs: string)
    requires HasComment(p, text, m) && EndsInCode(p, 0, Tokens(p)) && s == text[m + 1..]
    requires ShowsCode(text, r) && ShowsCode(s, rs)
    ensures r[m] == '\n' && r[m + 1..] == rs
  {
    CodeAfterComment(p, text, m, s, 0);
    forall i: nat | i < |s| ensures r[m + 1 + i] == rs[i] {
      CodeAfterComment(p, text, m, s, i);
    }
  }

  // ----- The two blankers agree on braces -----

  /** The views of the two blankers carry the same braces, and those are exactly the
      braces that are code. */
  lemma {:induction false} SameBraces(text: string, r: string, o: string, i: nat, brace: char)
    requires ShowsCode(text, r) && ShowsCodeAndQuotes(text, o) && i < |text|
    requires brace == '{' || brace == '}'
    ensures r[i] == brace <==> text[i] == brace && IsCode(text, i)
    ensures o[i] == brace <==> r[i] == brace
  {
    if IsOpeningQuote(text, i) {
      QuoteAt(text, Tokens(text), 0, i);
    }
  }

  lemma {:induction false} QuoteAt(text: string, chain: Chain, from: nat, i: nat)
    requires Lexes(text, from, chain) && from <= i < |text| && OpensString(chain, from, i)
    ensures IsQuote(text[i]) && KindAt(chain, i).Quoted?
    decreases chain
  {
    if i >= chain.to {
      QuoteAt(text, chain.rest, chain.to, i);
    }
  }

  // ----- When blank_noncode is idempotent -----

  predicate IsBlankChar(c: char) { c == ' ' || c == '\n' }

  /** Nothing but blanks and comments follows the opening quote of a string. */
  ghost predicate NothingAfterString(text: string) {
    forall i: nat, j: nat :: i < j < |text| && IsOpeningQuote(text, i) ==>
      !IsOpeningQuote(text, j) && (IsCode(text, j) ==> IsBlankChar(text[j]))
  }

  lemma {:induction false} PlainPrefix(text: string, chain: Chain, from: nat, to: nat) returns (rest: Chain)
    requires Lexes(text, from, chain) && from <= to <= |text|
    requires forall i: nat :: from <= i < to ==> PlainChar(text, i)
    ensures IsTail(chain, from, to, rest)
    decreases chain
  {
    rest := chain;
    if from < to {
      assert PlainChar(text, from);
      SpanIsUnique(text, from, chain.kind, chain.to, Plain, from + 1);
      rest := PlainPrefix(text, chain.rest, chain.to, to);
    }
  }

  lemma {:induction false} ReadingBlanks(text: string, q: char, from: nat, i: nat)
    requires from <= i <= |text| && IsQuote(q)
    requires forall j :: from <= j < i ==> IsBlankChar(text[j])
    ensures Reading(text, q, from, i) == Some(false)
    decreases i
  {
    if from < i {
      ReadingBlanks(text, q, from, i - 1);
    }
  }

  /** The second pass takes the first quote it meets for an opening one, and reads on
      at least through the first character that is not blank. */
  lemma {:induction false} SecondPass(text: string, q: nat, j: nat)
    requires q < j <= |text| && IsQuote(text[q])
    requires forall i: nat :: i < q ==> PlainChar(text, i)
    requires forall i :: q < i < j ==> IsBlankChar(text[i])
    ensures forall i: nat :: i < q ==> IsCode(text, i)
    ensures IsOpeningQuote(text, q)
    ensures forall i: nat :: q < i <= j && i < |text| ==> !IsCode(text, i) && !IsOpeningQuote(text, i)
  {
    AllPlain(text, Tokens(text), 0, q);
    var rest := PlainPrefix(text, Tokens(text), 0, q);
    var n := QuotedEnd(text, q, q + 1);
    if j < |text| {
      ReadingBlanks(text, text[q], q + 1, j);
    }
    NextToken(text, q, rest, Quoted, n);
  }

  /** What the first pass leaves before its first quote is all code. */
  lemma {:induction false} BeforeFirstQuote(text: string, o: string, q: nat, i: nat)
    requires ShowsCodeAndQuotes(text, o) && i < q <= |text|
    requires forall j: nat :: j < q ==> !IsOpeningQuote(text, j)
    requires q < |text| ==> IsOpeningQuote(text, q)
    ensures PlainChar(o, i)
  {
    if IsCode(text, i) {
      PlainAt(text, Tokens(text), 0, i);
    }
    if i + 1 == q < |text| {
      QuoteAt(text, Tokens(text), 0, q);
    } else if i + 1 < |text| && IsCode(text, i + 1) {
      PlainAt(text, Tokens(text), 0, i + 1);
    }
  }

  lemma {:induction false} FirstQuote(text: string, lo: nat) returns (q: nat)
    requires lo <= |text|
    ensures lo <= q <= |text| && (q < |text| ==> IsOpeningQuote(text, q))
    ensures forall i: nat :: lo <= i < q ==> !IsOpeningQuote(text, i)
    decreases |text| - lo
  {
    q := lo;
    if lo < |text| && !IsOpeningQuote(text, lo) {
      q := FirstQuote(text, lo + 1);
    }
  }

  lemma {:induction false} FirstInk(o: string, lo: nat) returns (j: nat)
    requires lo <= |o|
    ensures lo <= j <= |o| && (j < |o| ==> !IsBlankChar(o[j]))
    ensures forall i :: lo <= i < j ==> IsBlankChar(o[i])
    decreases |o| - lo
  {
    j := lo;
    if lo < |o| && IsBlankChar(o[lo]) {
      j := FirstInk(o, lo + 1);
    }
  }

  /** In the first pass's output, what follows the first string is blank exactly when
      nothing followed it. */
  lemma {:induction false} InkAfterString(text: string, o: string, q: nat)
    requires ShowsCodeAndQuotes(text, o) && q < |text| && IsOpeningQuote(text, q)
    requires forall i: nat :: i < q ==> !IsOpeningQuote(text, i)
    ensures NothingAfterString(text) <==> forall i: nat :: q < i < |o| ==> IsBlankChar(o[i])
  {
    forall i: nat | i < |text| && IsOpeningQuote(text, i) ensures IsQuote(text[i]) {
      QuoteAt(text, Tokens(text), 0, i);
    }
  }

  /** Blanking twice with `blank_noncode` is blanking once exactly when nothing but
      blanks and comments follows the first string. */
  lemma {:induction false} BlankNoncodeIdempotentIff(text: string, o: string, oo: string)
    requires ShowsCodeAndQuotes(text, o) && ShowsCodeAndQuotes(o, oo)
    ensures oo == o <==> NothingAfterString(text)
  {
    var q := FirstQuote(text, 0);
    forall i: nat | i < q ensures PlainChar(o, i) {
      BeforeFirstQuote(text, o, q, i);
    }
    if q == |text| {
      AllPlain(o, Tokens(o), 0, |o|);
    } else {
      QuoteAt(text, Tokens(text), 0, q);
      InkAfterString(text, o, q);
      var j := FirstInk(o, q + 1);
      SecondPass(o, q, j);
      assert j < |o| ==> oo[j] == Blot(o[j]) != o[j];
    }
  }

  /** A brace after an empty string is lost by a second pass. */
  lemma {:induction false} SecondPassLosesBrace(o: string, oo: string)
    requires ShowsCodeAndQuotes("''{", o) && ShowsCodeAndQuotes(o, oo)
    ensures o == "' {" && oo == "'  "
  {
    var text := "''{";
    LexingIsUnique(text, 0, Tokens(text), Span(Quoted, 2, Span(Plain, 3, End)));
    assert Reading(o, '\'', 1, 3) == Some(false);
    LexingIsUnique(o, 0, Tokens(o), Span(Quoted, 3, End));
  }
}
