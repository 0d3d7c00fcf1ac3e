/**
 One token grammar for the two blankers: code characters, three kinds of string
 with escapes, line and block comments. A lexing is a chain of adjacent spans;
 every text has exactly one.
 */
module Lexing {
  import opened Strings

  datatype Kind = Plain | Line | Block | Quoted

  predicate IsQuote(c: char) { c == '"' || c == '\'' || c == '`' }

  /** `text` has the two characters `a`, `b` at `i`. */
  predicate Pair(text: string, i: int, a: char, b: char) {
    0 <= i < |text| - 1 && text[i] == a && text[i + 1] == b
  }

  /** Read `text[from..i]` as a string body: `None` once an unescaped `q` was met,
      otherwise whether the next character is escaped. */
  function Reading(text: string, q: char, from: nat, i: nat): Option<bool>
    requires from <= i <= |text|
  {
    if i == from then Some(false)
    else
      match Reading(text, q, from, i - 1)
      case None => None
      case Some(escaped) =>
        if escaped then Some(false)
        else if text[i - 1] == '\\' then Some(true)
        else if text[i - 1] == q then None
        else Some(false)
  }

  predicate IsPlain(text: string, k: nat, n: nat) {
    && k < |text| && n == k + 1
    && !IsQuote(text[k]) && !Pair(text, k, '/', '/') && !Pair(text, k, '/', '*')
  }

  /** A line comment runs to its newline, or to the end. */
  predicate IsLine(text: string, k: nat, n: nat) {
    && Pair(text, k, '/', '/') && k + 2 <= n <= |text|
    && (forall j :: k + 2 <= j < n ==> text[j] != '\n')
    && (n < |text| ==> text[n] == '\n')
  }

  /** A block comment runs through the first close, or to the end. */
  predicate IsBlock(text: string, k: nat, n: nat) {
    && Pair(text, k, '/', '*') && k + 2 <= n <= |text|
    && if n >= k + 4 && Pair(text, n - 2, '*', '/')
       then forall j :: k + 2 <= j < n - 2 ==> !Pair(text, j, '*', '/')
       else n == |text| && forall j :: k + 2 <= j < n ==> !Pair(text, j, '*', '/')
  }

  /** A string runs through the first unescaped quote of its own kind, or to the end. */
  predicate IsQuoted(text: string, k: nat, n: nat) {
    && k < n <= |text| && IsQuote(text[k])
    && if n >= k + 2 && text[n - 1] == text[k] && Reading(text, text[k], k + 1, n - 1) == Some(false)
       then true
       else n == |text| && Reading(text, text[k], k + 1, n).Some?
  }

  /** `text[k..n]` is one token. */
  predicate IsSpan(text: string, k: nat, kind: Kind, n: nat) {
    match kind
    case Plain => IsPlain(text, k, n)
    case Line => IsLine(text, k, n)
    case Block => IsBlock(text, k, n)
    case Quoted => IsQuoted(text, k, n)
  }

  datatype Chain = End | Span(kind: Kind, to: nat, rest: Chain)

  /** `chain` is a lexing of `text` from position `k` on. */
  predicate Lexes(text: string, k: nat, chain: Chain)
    decreases chain
  {
    match chain
    case End => k == |text|
    case Span(kind, n, rest) => k < n <= |text| && IsSpan(text, k, kind, n) && Lexes(text, n, rest)
  }

  // ----- The grammar is unambiguous -----

  lemma {:induction false} ReadingStops(text: string, q: char, from: nat, i: nat, j: nat)
    requires from <= i <= j <= |text| && Reading(text, q, from, i).None?
    ensures Reading(text, q, from, j).None?
    decreases j
  {
    if i < j {
      ReadingStops(text, q, from, i, j - 1);
    }
  }

  lemma {:induction false} QuotedEnds(text: string, k: nat, n: nat, m: nat)
    requires IsQuoted(text, k, n) && IsQuoted(text, k, m)
    ensures m <= n
  {
    if n < m {
      assert Reading(text, text[k], k + 1, n).None?;
      ReadingStops(text, text[k], k + 1, n, m - 1);
    }
  }

  lemma {:induction false} SpanIsUnique(text: string, k: nat, kind: Kind, n: nat, kind': Kind, n': nat)
    requires IsSpan(text, k, kind, n) && IsSpan(text, k, kind', n')
    ensures kind == kind' && n == n'
  {
    if kind.Quoted? && kind'.Quoted? {
      QuotedEnds(text, k, n, n');
      QuotedEnds(text, k, n', n);
    }
  }

  lemma {:induction false} LexingIsUnique(text: string, k: nat, a: Chain, b: Chain)
    requires Lexes(text, k, a) && Lexes(text, k, b)
    ensures a == b
    decreases a
  {
    if a.Span? && b.Span? {
      SpanIsUnique(text, k, a.kind, a.to, b.kind, b.to);
      LexingIsUnique(text, a.to, a.rest, b.rest);
    }
  }

  // ----- Every text has a lexing -----

  lemma {:induction false} LineEnd(text: string, k: nat, i: nat) returns (n: nat)
    requires Pair(text, k, '/', '/') && k + 2 <= i <= |text|
    requires forall j :: k + 2 <= j < i ==> text[j] != '\n'
    ensures IsLine(text, k, n)
    decreases |text| - i
  {
    if i == |text| || text[i] == '\n' {
      n := i;
    } else {
      n := LineEnd(text, k, i + 1);
    }
  }

  lemma {:induction false} BlockEnd(text: string, k: nat, i: nat) returns (n: nat)
    requires Pair(text, k, '/', '*') && k + 2 <= i <= |text|
    requires forall j :: k + 2 <= j < i ==> !Pair(text, j, '*', '/')
    ensures IsBlock(text, k, n)
    decreases |text| - i
  {
    if i == |text| {
      n := i;
    } else if Pair(text, i, '*', '/') {
      n := i + 2;
    } else {
      n := BlockEnd(text, k, i + 1);
    }
  }

  lemma {:induction false} QuotedEnd(text: string, k: nat, i: nat) returns (n: nat)
    requires k < i <= |text| && IsQuote(text[k]) && Reading(text, text[k], k + 1, i).Some?
    ensures IsQuoted(text, k, n)
    decreases |text| - i
  {
    if i == |text| {
      n := i;
    } else if Reading(text, text[k], k + 1, i) == Some(false) && text[i] == text[k] {
      n := i + 1;
    } else {
      n := QuotedEnd(text, k, i + 1);
    }
  }

  lemma {:induction false} HasLexing(text: string, k: nat) returns (chain: Chain)
    requires k <= |text|
    ensures Lexes(text, k, chain)
    decreases |text| - k
  {
    if k == |text| {
      chain := End;
    } else {
      var kind, n := Plain, k + 1;
      if Pair(text, k, '/', '/') {
        kind := Line;
        n := LineEnd(text, k, k + 2);
      } else if Pair(text, k, '/', '*') {
        kind := Block;
        n := BlockEnd(text, k, k + 2);
      } else if IsQuote(text[k]) {
        kind := Quoted;
        n := QuotedEnd(text, k, k + 1);
      }
      var rest := HasLexing(text, n);
      chain := Span(kind, n, rest);
    }
  }

  /** The lexing of a text. */
  ghost function Tokens(text: string): (chain: Chain)
    ensures Lexes(text, 0, chain)
  {
    assert exists chain :: Lexes(text, 0, chain) by {
      var chain := HasLexing(text, 0);
    }
    var chain :| Lexes(text, 0, chain);
    chain
  }

  // ----- Which positions are code -----

  /** The kind of the token that covers position `i`, for `i` not before `chain`. */
  function KindAt(chain: Chain, i: nat): Kind {
    match chain
    case End => Plain
    case Span(kind, n, rest) => if i < n then kind else KindAt(rest, i)
  }

  /** Position `i` begins a string, when `chain` begins at `k`. */
  predicate OpensString(chain: Chain, k: nat, i: nat) {
    match chain
    case End => false
    case Span(kind, n, rest) => if i < n then kind.Quoted? && i == k else OpensString(rest, n, i)
  }

  ghost predicate IsCode(text: string, i: nat) { KindAt(Tokens(text), i).Plain? }

  ghost predicate IsOpeningQuote(text: string, i: nat) { OpensString(Tokens(text), 0, i) }

  function Blot(c: char): char { if c == '\n' then '\n' else ' ' }

  /** `r` shows the code of `text` and nothing else, every offset kept. */
  ghost predicate ShowsCode(text: string, r: string) {
    && |r| == |text|
    && forall i :: 0 <= i < |text| ==> r[i] == if IsCode(text, i) then text[i] else Blot(text[i])
  }

  /** As `ShowsCode`, and the opening quote of every string as well. */
  ghost predicate ShowsCodeAndQuotes(text: string, r: string) {
    && |r| == |text|
    && forall i :: 0 <= i < |text| ==>
         r[i] == if IsCode(text, i) || IsOpeningQuote(text, i) then text[i] else Blot(text[i])
  }
}
