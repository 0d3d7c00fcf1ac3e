/** What the regular expressions of `if_blocks` see at each position of a text. */
module TemplateTokens {
  import opened Strings

  // ----- Conditions -----

  predicate IsWord(c: char) {
    'a' <= c <= 'z' || 'A' <= c <= 'Z' || '0' <= c <= '9' || c == '_'
  }

  /** The whole word `flag` stands at `m`. */
  predicate WordAt(cond: string, flag: string, m: nat) {
    && OccursAt(cond, flag, m)
    && (m > 0 ==> !IsWord(cond[m - 1]))
    && (m + |flag| < |cond| ==> !IsWord(cond[m + |flag|]))
  }

  /** The last character before `m` that is not a space is `!`. */
  predicate Negated(cond: string, m: nat)
    requires m <= |cond|
  {
    m > 0 && if IsSpace(cond[m - 1]) then Negated(cond, m - 1) else cond[m - 1] == '!'
  }

  /** Between an exclamation mark and `m` there are only blanks. */
  predicate Denied(cond: string, m: nat)
    requires m <= |cond|
  {
    exists j :: 0 <= j < m && cond[j] == '!' && forall k :: j < k < m ==> IsSpace(cond[k])
  }

  lemma {:induction false} NegatedIff(cond: string, m: nat)
    requires m <= |cond|
    ensures Negated(cond, m) <==> Denied(cond, m)
  {
    if m > 0 && IsSpace(cond[m - 1]) {
      NegatedIff(cond, m - 1);
    }
  }

  predicate OnlyNegated(cond: string, flag: string) {
    forall m | 0 <= m <= |cond| :: WordAt(cond, flag, m) ==> Negated(cond, m)
  }

  /** The flag is the slice at `m`, with no character of a word on either side. */
  predicate Mentioned(cond: string, flag: string, m: nat) {
    && IsSlice(cond, flag, m)
    && (m > 0 ==> !IsWordCode(cond[m - 1] as int))
    && (m + |flag| < |cond| ==> !IsWordCode(cond[m + |flag|] as int))
  }

  /** A digit, a capital, an underscore or a small letter, by its code. */
  predicate IsWordCode(n: int) { 48 <= n <= 57 || 65 <= n <= 90 || n == 95 || 97 <= n <= 122 }

  lemma {:induction false} MentionedIff(cond: string, flag: string)
    ensures forall m: nat :: WordAt(cond, flag, m) <==> Mentioned(cond, flag, m)
    ensures forall m: nat | m <= |cond| :: Negated(cond, m) <==> Denied(cond, m)
  {
    forall m: nat ensures WordAt(cond, flag, m) <==> Mentioned(cond, flag, m) {
      OccursIff(cond, flag, m);
    }
    forall m: nat | m <= |cond| ensures Negated(cond, m) <==> Denied(cond, m) {
      NegatedIff(cond, m);
    }
  }

  /** The branch is the refusal: it mentions the flag, and not only as `!flag`. That is, some
      mention of it as a whole word is not negated. */
  predicate Counts(cond: string, flag: string): (r: bool)
    ensures r <==> exists m: nat :: Mentioned(cond, flag, m) && !Denied(cond, m)
  {
    MentionedIff(cond, flag);
    (exists m | 0 <= m <= |cond| :: WordAt(cond, flag, m)) && !OnlyNegated(cond, flag)
  }

  /** The conditions that count for a flag. */
  function About(flag: string): string -> bool { c => Counts(c, flag) }

  /** Those that mention the flag as a whole word, at least once without an exclamation mark
      in front of it. */
  lemma {:induction false} AboutIff(flag: string, cond: string)
    ensures About(flag)(cond) <==> exists m: nat :: Mentioned(cond, flag, m) && !Denied(cond, m)
  {
    var r := Counts(cond, flag);
  }

  // ----- What stands at a position -----

  /** A branch header: where its closing brace is, and whether its condition counts. */
  datatype Header = NoHeader | Header(to: nat, counts: bool)

  datatype Token = NoToken | IfToken(header: Header) | ElseToken(header: Header) | EndToken

  /** How much of the text the depth search consumes for a token. */
  function Width(t: Token): nat {
    match t
    case NoToken => 0
    case IfToken(_) => 4
    case ElseToken(_) => 6
    case EndToken => 5
  }

  function SkipSpaces(text: string, i: nat): (r: nat)
    requires i <= |text|
    ensures i <= r <= |text|
    decreases |text| - i
  {
    if i < |text| && IsSpace(text[i]) then SkipSpaces(text, i + 1) else i
  }

  function FindClose(text: string, i: nat): (r: nat)
    requires i <= |text|
    ensures i <= r <= |text|
    decreases |text| - i
  {
    if i == |text| || text[i] == '}' then i else FindClose(text, i + 1)
  }

  /** A condition after at least one space, up to the next closing brace. */
  function HeaderAt(text: string, counts: string -> bool, i: nat): (h: Header)
    requires i <= |text|
    ensures h.Header? ==> i < h.to < |text|
  {
    var from := SkipSpaces(text, i);
    var to := FindClose(text, from);
    if from == i || to == |text| then NoHeader else Header(to, counts(text[from..to]))
  }

  function ElseHeader(text: string, counts: string -> bool, i: nat): (h: Header)
    requires i <= |text|
    ensures h.Header? ==> i < h.to < |text|
  {
    var k := SkipSpaces(text, i);
    if k > i && OccursAt(text, "if", k) then HeaderAt(text, counts, k + 2) else NoHeader
  }

  predicate IfAt(text: string, p: nat) {
    OccursAt(text, "{#if", p) && (p + 4 < |text| ==> !IsWord(text[p + 4]))
  }

  /** One of the three tokens of the depth search begins at `p`. */
  predicate AnyToken(text: string, p: nat) {
    IfAt(text, p) || OccursAt(text, "{/if}", p) || OccursAt(text, "{:else", p)
  }

  function TokenAt(text: string, counts: string -> bool, p: nat): (t: Token)
    requires p < |text|
    ensures p + Width(t) <= |text|
    ensures (t.IfToken? || t.ElseToken?) && t.header.Header? ==> p < t.header.to < |text|
    ensures t.NoToken? <==> !AnyToken(text, p)
  {
    if IfAt(text, p) then
      IfToken(HeaderAt(text, counts, p + 4))
    else if OccursAt(text, "{/if}", p) then EndToken
    else if OccursAt(text, "{:else", p) then ElseToken(ElseHeader(text, counts, p + 6))
    else NoToken
  }

  /** The classification of the first `n` positions. */
  function Classify(text: string, counts: string -> bool, n: nat): (ts: seq<Token>)
    requires n <= |text|
    ensures |ts| == n
  {
    if n == 0 then [] else Classify(text, counts, n - 1) + [TokenAt(text, counts, n - 1)]
  }

  lemma {:induction false} ClassifyAt(text: string, counts: string -> bool, n: nat, p: nat)
    requires p < n <= |text|
    ensures Classify(text, counts, n)[p] == TokenAt(text, counts, p)
    decreases n
  {
    if p < n - 1 {
      ClassifyAt(text, counts, n - 1, p);
    }
  }

  // ----- The regular expressions, read off the text -----

  /** `\{#if\b|\{/if\}|\{:else`, at a position. */
  lemma {:induction false} TokenIff(text: string, counts: string -> bool, p: nat)
    requires p < |text|
    ensures var t := TokenAt(text, counts, p);
            && (t.IfToken? <==> IsSlice(text, "{#if", p) && (p + 4 < |text| ==> !IsWordCode(text[p + 4] as int)))
            && (t.EndToken? <==> IsSlice(text, "{/if}", p))
            && (t.ElseToken? <==> IsSlice(text, "{:else", p))
  {
    OccursIff(text, "{#if", p);
    OccursIff(text, "{/if}", p);
    OccursIff(text, "{:else", p);
    assert OccursAt(text, "{/if}", p) ==> text[p + 1] == "{/if}"[1];
    assert OccursAt(text, "{#if", p) ==> text[p + 1] == "{#if"[1];
    assert OccursAt(text, "{:else", p) ==> text[p + 1] == "{:else"[1];
  }

  predicate Blanks(text: string, i: nat, j: nat) {
    i <= j <= |text| && forall k :: i <= k < j ==> IsSpace(text[k])
  }

  lemma {:induction false} SpacesMeaning(text: string, i: nat)
    requires i <= |text|
    ensures var r := SkipSpaces(text, i); Blanks(text, i, r) && (r < |text| ==> !IsSpace(text[r]))
    decreases |text| - i
  {
    if i < |text| && IsSpace(text[i]) {
      SpacesMeaning(text, i + 1);
    }
  }

  lemma {:induction false} CloseMeaning(text: string, i: nat)
    requires i <= |text|
    ensures var r := FindClose(text, i);
            (r < |text| ==> text[r] == '}') && forall k :: i <= k < r ==> text[k] != '}'
    decreases |text| - i
  {
    if i < |text| && text[i] != '}' {
      CloseMeaning(text, i + 1);
    }
  }

  /** `\s+([^}]*)\}`: a header is at least one blank, a condition that begins behind the
      blanks at `from`, and the first closing brace behind it; there is none exactly when
      the blank or the brace is missing. */
  lemma {:induction false} HeaderMeaning(text: string, counts: string -> bool, i: nat) returns (from: nat)
    requires i <= |text|
    ensures Blanks(text, i, from) && (from < |text| ==> !IsSpace(text[from]))
    ensures match HeaderAt(text, counts, i)
            case NoHeader => from == i || forall k :: from <= k < |text| ==> text[k] != '}'
            case Header(to, b) =>
              && i < from <= to < |text| && text[to] == '}' && (forall k :: from <= k < to ==> text[k] != '}')
              && b == counts(text[from..to])
  {
    from := SkipSpaces(text, i);
    SpacesMeaning(text, i);
    CloseMeaning(text, from);
  }

  /** `\s+if` in front of such a header: the blanks end at `k`. */
  lemma {:induction false} ElseMeaning(text: string, counts: string -> bool, i: nat) returns (k: nat)
    requires i <= |text|
    ensures Blanks(text, i, k) && (k < |text| ==> !IsSpace(text[k]))
    ensures ElseHeader(text, counts, i) ==
            if i < k && IsSlice(text, "if", k) then HeaderAt(text, counts, k + 2) else NoHeader
  {
    k := SkipSpaces(text, i);
    SpacesMeaning(text, i);
    OccursIff(text, "if", k);
  }
}
