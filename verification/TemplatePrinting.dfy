/**
 Templates printed from a list of nodes, and exactly what `if_blocks` sees in them. An
 `{:else}` among the nodes of a branch, such as the one of an `{#each}`, is a node of
 its own here.
 */
module TemplatePrinting {
  import opened Strings
  import opened TemplateTokens
  import opened Templates
  import Laws = TemplateLaws

  datatype Nodes =
    | Nil
    | Text(s: string, rest: Nodes)
    | Stray(rest: Nodes)
    | If(cond: string, body: Nodes, more: Arms, rest: Nodes)

  /** What follows the first branch of an `{#if}`. */
  datatype Arms = ElseIf(cond: string, body: Nodes, more: Arms) | Else(other: Nodes) | EndIf

  const IF := "{#if "
  const ELSE_IF := "{:else if "
  const ELSE := "{:else}"
  const END := "{/if}"

  function Print(ns: Nodes): string {
    match ns
    case Nil => ""
    case Text(s, rest) => s + Print(rest)
    case Stray(rest) => ELSE + Print(rest)
    case If(c, body, more, rest) => IF + (c + ("}" + (Print(body) + (PrintArms(more) + Print(rest)))))
  }

  function PrintArms(arms: Arms): string {
    match arms
    case ElseIf(c, body, more) => ELSE_IF + (c + ("}" + (Print(body) + PrintArms(more))))
    case Else(body) => ELSE + (Print(body) + END)
    case EndIf => END
  }

  // ----- Well-formed templates -----

  /** No branch token begins anywhere in `s`. */
  predicate Silent(s: string) {
    forall p | 0 <= p < |s| :: !AnyToken(s, p)
  }

  /** A condition as it can stand between `{#if ` and `}`. */
  predicate IsCondition(c: string) {
    '}' !in c && (c != "" ==> !IsSpace(c[0])) && Silent(c + "}")
  }

  /** No token can straddle the end of `s` when `next` follows it. */
  predicate Apart(s: string, next: string) {
    (s != "" && s[|s| - 1] == '}') || (next != "" && next[0] == '{')
  }

  predicate WellFormed(ns: Nodes) {
    match ns
    case Nil => true
    case Text(s, rest) => Silent(s) && (rest.Text? ==> Apart(s, rest.s)) && WellFormed(rest)
    case Stray(rest) => WellFormed(rest)
    case If(c, body, more, rest) => IsCondition(c) && WellFormed(body) && WellFormedArms(more) && WellFormed(rest)
  }

  predicate WellFormedArms(arms: Arms) {
    match arms
    case ElseIf(c, body, more) => IsCondition(c) && WellFormed(body) && WellFormedArms(more)
    case Else(body) => WellFormed(body)
    case EndIf => true
  }

  // ----- What `if_blocks` sees -----

  predicate HasStray(ns: Nodes) {
    match ns
    case Nil => false
    case Text(_, rest) => HasStray(rest)
    case Stray(_) => true
    case If(_, _, _, rest) => HasStray(rest)
  }

  /** The nodes in front of the first stray `{:else}`. */
  function Front(ns: Nodes): Nodes {
    match ns
    case Nil => Nil
    case Text(s, rest) => Text(s, Front(rest))
    case Stray(_) => Nil
    case If(c, body, more, rest) => If(c, body, more, Front(rest))
  }

  /** A truthy branch as written: up to its own `{:else`, or through its `{/if}`. */
  function Branch(body: Nodes, more: Arms): string {
    Print(body) + if more.EndIf? then END else ""
  }

  /** A truthy branch as seen: a stray `{:else}` is taken for its own. */
  function SeenBranch(body: Nodes, more: Arms): string {
    if HasStray(body) then Print(Front(body)) else Branch(body, more)
  }

  /** The branches of the conditions that count and are seen as outermost, in order. Behind
      a stray `{:else}` nothing is seen around what counts. */
  function Seen(ns: Nodes, counts: string -> bool): seq<string> {
    match ns
    case Nil => []
    case Text(_, rest) => Seen(rest, counts)
    case Stray(rest) => Seen(rest, counts)
    case If(c, body, more, rest) =>
      (if counts(c) then [SeenBranch(body, more)] + SeenBehind(body, counts) else Seen(body, counts))
      + (SeenArms(more, counts) + Seen(rest, counts))
  }

  function SeenBehind(ns: Nodes, counts: string -> bool): seq<string> {
    match ns
    case Nil => []
    case Text(_, rest) => SeenBehind(rest, counts)
    case Stray(rest) => Seen(rest, counts)
    case If(_, _, _, rest) => SeenBehind(rest, counts)
  }

  function SeenArms(arms: Arms, counts: string -> bool): seq<string> {
    match arms
    case ElseIf(c, body, more) =>
      (if counts(c) then [SeenBranch(body, more)] + SeenBehind(body, counts) else Seen(body, counts))
      + SeenArms(more, counts)
    case Else(body) => Seen(body, counts)
    case EndIf => []
  }

  // ----- Reading the tokens back -----

  lemma {:induction false} OccursSplit(text: string, a: string, b: string, p: nat)
    requires OccursAt(text, a + b, p)
    ensures OccursAt(text, a, p) && OccursAt(text, b, p + |a|)
  {
    forall k | 0 <= k < |a| ensures text[p + k] == a[k] {
      assert text[p + k] == (a + b)[k];
    }
    forall k | 0 <= k < |b| ensures text[p + |a| + k] == b[k] {
      assert text[p + (|a| + k)] == (a + b)[|a| + k];
    }
  }

  lemma {:induction false} OccursChar(text: string, s: string, p: nat, j: nat)
    requires OccursAt(text, s, p) && j < |s|
    ensures text[p + j] == s[j]
  {
  }

  /** What stands at `q` cannot be the middle of a token. */
  predicate Seals(text: string, s: string, p: nat) {
    p + |s| == |text| || (p + |s| < |text| && text[p + |s|] == '{') || (s != "" && s[|s| - 1] == '}')
  }

  /** `w` at `p + j` either stands inside `s` or would run over what seals it. */
  lemma {:induction false} WordInside(text: string, s: string, p: nat, j: nat, w: string)
    requires OccursAt(text, s, p) && Seals(text, s, p) && j < |s| && OccursAt(text, w, p + j)
    requires forall k :: 0 < k < |w| ==> w[k] != '{'
    requires forall k :: 0 <= k < |w| - 1 ==> w[k] != '}'
    ensures OccursAt(s, w, j)
  {
    if j + |w| > |s| {
      if p + |s| < |text| && text[p + |s|] == '{' {
        OccursChar(text, w, p + j, |s| - j);
      } else if s[|s| - 1] == '}' {
        OccursChar(text, s, p, |s| - 1);
        OccursChar(text, w, p + j, |s| - 1 - j);
      }
    } else {
      forall k | 0 <= k < |w| ensures s[j + k] == w[k] {
        assert text[p + (j + k)] == s[j + k];
      }
    }
  }

  lemma {:induction false} SilentStays(text: string, counts: string -> bool, s: string, p: nat, j: nat)
    requires OccursAt(text, s, p) && Seals(text, s, p) && Silent(s) && j < |s|
    ensures TokenAt(text, counts, p + j).NoToken?
  {
    assert !AnyToken(s, j);
    if OccursAt(text, "{#if", p + j) {
      WordInside(text, s, p, j, "{#if");
      if j + 4 < |s| {
        OccursChar(text, s, p, j + 4);
      }
    }
    if OccursAt(text, "{/if}", p + j) {
      WordInside(text, s, p, j, "{/if}");
    }
    if OccursAt(text, "{:else", p + j) {
      WordInside(text, s, p, j, "{:else");
    }
  }

  lemma {:induction false} SpacesEnd(text: string, i: nat)
    requires i + 1 < |text| && text[i] == ' ' && !IsSpace(text[i + 1])
    ensures SkipSpaces(text, i) == i + 1
  {
    assert SkipSpaces(text, i + 1) == i + 1;
  }

  lemma {:induction false} CloseFound(text: string, i: nat, q: nat)
    requires i <= q < |text| && text[q] == '}' && forall k :: i <= k < q ==> text[k] != '}'
    ensures FindClose(text, i) == q
    decreases q - i
  {
    if i < q {
      CloseFound(text, i + 1, q);
    }
  }

  /** The header ` c}` after `{#if` or `{:else if`. */
  lemma {:induction false} ReadHeader(text: string, counts: string -> bool, i: nat, c: string)
    requires i < |text| && text[i] == ' ' && OccursAt(text, c + "}", i + 1) && IsCondition(c)
    ensures HeaderAt(text, counts, i) == Header(i + 1 + |c|, counts(c))
  {
    OccursSplit(text, c, "}", i + 1);
    var q := i + 1 + |c|;
    OccursChar(text, "}", q, 0);
    assert text[i + 1] == if c == "" then '}' else c[0] by {
      if c != "" { OccursChar(text, c, i + 1, 0); }
    }
    SpacesEnd(text, i);
    forall k | i + 1 <= k < q ensures text[k] != '}' {
      OccursChar(text, c, i + 1, k - i - 1);
    }
    CloseFound(text, i + 1, q);
    assert text[i + 1..q] == c;
  }

  /** Every position of an opener but its first is silent: no brace opens there. */
  lemma {:induction false} OpenerSilent(text: string, counts: string -> bool, w: string, p: nat, j: nat)
    requires OccursAt(text, w, p) && 0 < j < |w| && w[j] != '{'
    ensures TokenAt(text, counts, p + j).NoToken?
  {
    assert text[p + j] == w[j];
    Differs(text, "{#if", p + j, 0);
    Differs(text, "{/if}", p + j, 0);
    Differs(text, "{:else", p + j, 0);
  }

  lemma {:induction false} Differs(text: string, w: string, p: nat, k: nat)
    requires k < |w| && p + k < |text| && text[p + k] != w[k]
    ensures !OccursAt(text, w, p)
  {
  }

  lemma {:induction false} ReadIf(text: string, counts: string -> bool, p: nat, c: string)
    requires OccursAt(text, IF, p) && OccursAt(text, c + "}", p + 5) && IsCondition(c)
    ensures TokenAt(text, counts, p) == IfToken(Header(p + 5 + |c|, counts(c)))
  {
    assert text[p + 4] == IF[4] == ' ';
    assert OccursAt(text, "{#if", p) by { assert IF == "{#if" + " "; OccursSplit(text, "{#if", " ", p); }
    ReadHeader(text, counts, p + 4, c);
  }

  lemma {:induction false} ReadElseIf(text: string, counts: string -> bool, p: nat, c: string)
    requires OccursAt(text, ELSE_IF, p) && OccursAt(text, c + "}", p + 10) && IsCondition(c)
    ensures TokenAt(text, counts, p) == ElseToken(Header(p + 10 + |c|, counts(c)))
  {
    assert ELSE_IF == "{:else" + (" " + ("if" + " "));
    OccursSplit(text, "{:else", " " + ("if" + " "), p);
    OccursSplit(text, " ", "if" + " ", p + 6);
    OccursSplit(text, "if", " ", p + 7);
    OccursChar(text, " ", p + 6, 0);
    OccursChar(text, "if", p + 7, 0);
    OccursChar(text, " ", p + 9, 0);
    SpacesEnd(text, p + 6);
    ReadHeader(text, counts, p + 9, c);
    NotOther(text, p);
  }

  lemma {:induction false} ReadElse(text: string, counts: string -> bool, p: nat)
    requires OccursAt(text, ELSE, p)
    ensures TokenAt(text, counts, p) == ElseToken(NoHeader)
  {
    assert ELSE == "{:else" + "}";
    OccursSplit(text, "{:else", "}", p);
    OccursChar(text, "}", p + 6, 0);
    NotOther(text, p);
  }

  lemma {:induction false} NotOther(text: string, p: nat)
    requires OccursAt(text, "{:else", p)
    ensures !OccursAt(text, "{#if", p) && !OccursAt(text, "{/if}", p)
  {
    assert text[p + 1] == "{:else"[1];
    Differs(text, "{#if", p, 1);
    Differs(text, "{/if}", p, 1);
  }

  lemma {:induction false} ReadEnd(text: string, counts: string -> bool, p: nat)
    requires OccursAt(text, END, p)
    ensures TokenAt(text, counts, p) == EndToken
  {
    assert text[p + 1] == END[1];
    Differs(text, "{#if", p, 1);
  }

  // ----- A printed template is placed as planned -----

  lemma {:induction false} QuietText(text: string, counts: string -> bool, s: string, p: nat)
    requires OccursAt(text, s, p) && Seals(text, s, p) && Silent(s)
    ensures Laws.Quiet(Classify(text, counts, |text|), p, p + |s|)
  {
    var ts := Classify(text, counts, |text|);
    forall k | p <= k < p + |s| ensures ts[k].NoToken? {
      SilentStays(text, counts, s, p, k - p);
      ClassifyAt(text, counts, |text|, k);
    }
  }

  lemma {:induction false} QuietWord(text: string, counts: string -> bool, w: string, p: nat)
    requires OccursAt(text, w, p) && w != "" && forall j :: 0 < j < |w| ==> w[j] != '{'
    ensures Laws.Quiet(Classify(text, counts, |text|), p + 1, p + |w|)
  {
    var ts := Classify(text, counts, |text|);
    forall k | p + 1 <= k < p + |w| ensures ts[k].NoToken? {
      OpenerSilent(text, counts, w, p, k - p);
      ClassifyAt(text, counts, |text|, k);
    }
  }

  /** A whole header `w c}`: silent behind its first character. */
  lemma {:induction false} QuietHeader(text: string, counts: string -> bool, w: string, c: string, p: nat)
    requires OccursAt(text, w, p) && w != "" && (forall j :: 0 < j < |w| ==> w[j] != '{')
    requires OccursAt(text, c + "}", p + |w|) && IsCondition(c)
    ensures Laws.Quiet(Classify(text, counts, |text|), p + 1, p + |w| + |c| + 1)
  {
    QuietWord(text, counts, w, p);
    assert (c + "}")[|c + "}"| - 1] == '}';
    QuietText(text, counts, c + "}", p + |w|);
  }

  /** What comes behind a list of nodes: a brace or the end of the text. */
  predicate Follows(text: string, p: nat) { p == |text| || (p < |text| && text[p] == '{') }

  lemma {:induction false} ArmsFollow(text: string, arms: Arms, p: nat)
    requires OccursAt(text, PrintArms(arms), p)
    ensures Follows(text, p)
  {
    assert PrintArms(arms)[0] == '{';
    OccursChar(text, PrintArms(arms), p, 0);
  }

  lemma {:induction false} NodesFollow(text: string, ns: Nodes, p: nat)
    requires OccursAt(text, Print(ns), p) && Follows(text, p + |Print(ns)|) && !ns.Text?
    ensures Follows(text, p)
  {
    if ns.If? || ns.Stray? {
      assert Print(ns)[0] == '{';
      OccursChar(text, Print(ns), p, 0);
    }
  }

  /** The pieces of `w c} body tail`. */
  lemma {:induction false} Pieces(text: string, w: string, c: string, body: string, tail: string, p: nat)
    requires OccursAt(text, w + (c + ("}" + (body + tail))), p)
    ensures OccursAt(text, w, p) && OccursAt(text, c + "}", p + |w|)
    ensures OccursAt(text, body, p + |w| + |c| + 1) && OccursAt(text, tail, p + |w| + |c| + 1 + |body|)
  {
    OccursSplit(text, w, c + ("}" + (body + tail)), p);
    assert c + ("}" + (body + tail)) == (c + "}") + (body + tail);
    OccursSplit(text, c + "}", body + tail, p + |w|);
    OccursSplit(text, body, tail, p + |w| + |c| + 1);
  }

  // ----- A text that spells a template at the offsets of a plan -----

  predicate Spells(text: string, counts: string -> bool, ns: Nodes, t: Laws.Plan)
    decreases ns, 1
  {
    match ns
    case Nil => t.Stop? && t.at <= |text|
    case Text(_, _) => t.Gap? && SpellsText(text, counts, ns, t)
    case Stray(_) => t.Stray? && SpellsStray(text, counts, ns, t)
    case If(_, _, _, _) => t.Cond? && SpellsIf(text, counts, ns, t)
  }

  predicate SpellsText(text: string, counts: string -> bool, ns: Nodes, t: Laws.Plan)
    requires ns.Text? && t.Gap?
    decreases ns, 0
  {
    && t.to == t.from + |ns.s| && OccursAt(text, ns.s, t.from) && Silent(ns.s) && Seals(text, ns.s, t.from)
    && Laws.Begin(t.rest) == t.to && Spells(text, counts, ns.rest, t.rest)
  }

  predicate SpellsStray(text: string, counts: string -> bool, ns: Nodes, t: Laws.Plan)
    requires ns.Stray? && t.Stray?
    decreases ns, 0
  {
    && OccursAt(text, ELSE, t.start) && t.after == t.start + 7
    && Laws.Begin(t.rest) == t.after && Spells(text, counts, ns.rest, t.rest)
  }

  predicate SpellsIf(text: string, counts: string -> bool, ns: Nodes, t: Laws.Plan)
    requires ns.If? && t.Cond?
    decreases ns, 0
  {
    && SpellsHead(text, IF, ns.cond, t.start, t.after) && t.counts == counts(ns.cond)
    && SpellsBody(text, ns.body, t.after, t.body, t.mid) && Spells(text, counts, ns.body, t.body)
    && t.arms.start == t.mid && Laws.ArmsEnd(t.arms) == t.out && SpellsArms(text, counts, ns.more, t.arms)
    && Laws.Begin(t.rest) == t.out && Spells(text, counts, ns.rest, t.rest)
  }

  predicate SpellsArms(text: string, counts: string -> bool, arms: Arms, t: Laws.Arms)
    decreases arms, 1
  {
    match arms
    case ElseIf(_, _, _) => t.ElseIf? && SpellsElseIf(text, counts, arms, t)
    case Else(_) => t.Else? && SpellsElse(text, counts, arms, t)
    case EndIf => t.EndIf? && OccursAt(text, END, t.start) && t.out == t.start + 5
  }

  predicate SpellsElseIf(text: string, counts: string -> bool, arms: Arms, t: Laws.Arms)
    requires arms.ElseIf? && t.ElseIf?
    decreases arms, 0
  {
    && SpellsHead(text, ELSE_IF, arms.cond, t.start, t.after) && t.counts == counts(arms.cond)
    && SpellsBody(text, arms.body, t.after, t.body, t.mid) && Spells(text, counts, arms.body, t.body)
    && t.more.start == t.mid && SpellsArms(text, counts, arms.more, t.more)
  }

  predicate SpellsElse(text: string, counts: string -> bool, arms: Arms, t: Laws.Arms)
    requires arms.Else? && t.Else?
    decreases arms, 0
  {
    && OccursAt(text, ELSE, t.start) && t.after == t.start + 7
    && SpellsBody(text, arms.other, t.after, t.body, t.mid) && Spells(text, counts, arms.other, t.body)
    && OccursAt(text, END, t.mid) && t.out == t.mid + 5
  }

  predicate SpellsHead(text: string, w: string, c: string, start: nat, after: nat) {
    && after == start + |w| + |c| + 1 && IsCondition(c)
    && OccursAt(text, w, start) && OccursAt(text, c + "}", start + |w|)
  }

  predicate SpellsBody(text: string, body: Nodes, after: nat, t: Laws.Plan, mid: nat) {
    && Laws.Begin(t) == after && Laws.End(t) == mid && after <= mid <= |text|
    && text[after..mid] == Print(body) && Exact(body, t)
  }

  /** From every node on, the plan is as long as the print. */
  predicate Exact(ns: Nodes, t: Laws.Plan) {
    && Laws.End(t) == Laws.Begin(t) + |Print(ns)|
    && match ns
       case Nil => t.Stop?
       case Text(_, rest) => t.Gap? && Exact(rest, t.rest)
       case Stray(rest) => t.Stray? && Exact(rest, t.rest)
       case If(_, _, _, rest) => t.Cond? && Exact(rest, t.rest)
  }

  lemma {:induction false} HeadSpelled(text: string, w: string, c: string, body: string, tail: string, p: nat)
    requires OccursAt(text, w + (c + ("}" + (body + tail))), p) && IsCondition(c)
    ensures var h := p + |w| + |c| + 1;
            && SpellsHead(text, w, c, p, h) && OccursAt(text, body, h) && OccursAt(text, tail, h + |body|)
  {
    Pieces(text, w, c, body, tail, p);
  }

  /** A well-formed template stands printed in `text` from `p` to `q`. */
  predicate Printed(text: string, ns: Nodes, p: nat, q: nat) {
    WellFormed(ns) && q == p + |Print(ns)| && OccursAt(text, Print(ns), p) && Follows(text, q)
  }

  predicate PrintedArms(text: string, arms: Arms, p: nat, q: nat) {
    WellFormedArms(arms) && q == p + |PrintArms(arms)| && OccursAt(text, PrintArms(arms), p)
  }

  lemma {:induction false} TextParts(text: string, ns: Nodes, p: nat, q: nat)
    requires Printed(text, ns, p, q) && ns.Text?
    ensures OccursAt(text, ns.s, p) && Silent(ns.s) && Seals(text, ns.s, p)
    ensures Printed(text, ns.rest, p + |ns.s|, q)
  {
    OccursSplit(text, ns.s, Print(ns.rest), p);
    if !ns.rest.Text? {
      NodesFollow(text, ns.rest, p + |ns.s|);
    } else if ns.rest.s != "" {
      assert Print(ns.rest)[0] == ns.rest.s[0];
      OccursChar(text, Print(ns.rest), p + |ns.s|, 0);
    }
  }

  lemma {:induction false} StrayParts(text: string, ns: Nodes, p: nat, q: nat)
    requires Printed(text, ns, p, q) && ns.Stray?
    ensures OccursAt(text, ELSE, p) && Printed(text, ns.rest, p + 7, q)
  {
    OccursSplit(text, ELSE, Print(ns.rest), p);
  }

  lemma {:induction false} IfParts(text: string, ns: Nodes, p: nat, q: nat) returns (h: nat, m: nat, r: nat)
    requires Printed(text, ns, p, q) && ns.If?
    ensures SpellsHead(text, IF, ns.cond, p, h) && Printed(text, ns.body, h, m)
    ensures PrintedArms(text, ns.more, m, r) && Printed(text, ns.rest, r, q)
  {
    h := p + 5 + |ns.cond| + 1;
    m := h + |Print(ns.body)|;
    r := m + |PrintArms(ns.more)|;
    HeadSpelled(text, IF, ns.cond, Print(ns.body), PrintArms(ns.more) + Print(ns.rest), p);
    OccursSplit(text, PrintArms(ns.more), Print(ns.rest), m);
    ArmsFollow(text, ns.more, m);
  }

  lemma {:induction false} ElseIfParts(text: string, arms: Arms, p: nat, q: nat) returns (h: nat, m: nat)
    requires PrintedArms(text, arms, p, q) && arms.ElseIf?
    ensures SpellsHead(text, ELSE_IF, arms.cond, p, h) && Printed(text, arms.body, h, m)
    ensures PrintedArms(text, arms.more, m, q)
  {
    h := p + 10 + |arms.cond| + 1;
    m := h + |Print(arms.body)|;
    HeadSpelled(text, ELSE_IF, arms.cond, Print(arms.body), PrintArms(arms.more), p);
    ArmsFollow(text, arms.more, m);
  }

  lemma {:induction false} ElseParts(text: string, arms: Arms, p: nat, q: nat) returns (m: nat)
    requires PrintedArms(text, arms, p, q) && arms.Else?
    ensures OccursAt(text, ELSE, p) && Printed(text, arms.other, p + 7, m) && OccursAt(text, END, m) && q == m + 5
  {
    m := p + 7 + |Print(arms.other)|;
    OccursSplit(text, ELSE, Print(arms.other) + END, p);
    OccursSplit(text, Print(arms.other), END, p + 7);
    ArmsFollow(text, EndIf, m);
  }

  /** A printed template is spelled at the offsets of a plan. */
  lemma {:induction false} PrintSpells(text: string, counts: string -> bool, ns: Nodes, p: nat, q: nat)
    returns (t: Laws.Plan)
    requires Printed(text, ns, p, q)
    ensures Spells(text, counts, ns, t) && Laws.Begin(t) == p && Laws.End(t) == q && Exact(ns, t)
    decreases ns, 1
  {
    match ns
    case Nil => t := Laws.Stop(p);
    case Text(s, rest) =>
      TextParts(text, ns, p, q);
      var after := PrintSpells(text, counts, rest, p + |s|, q);
      t := Laws.Gap(p, p + |s|, after);
    case Stray(rest) =>
      StrayParts(text, ns, p, q);
      var after := PrintSpells(text, counts, rest, p + 7, q);
      t := Laws.Stray(p, p + 7, after);
    case If(_, _, _, _) => t := PrintSpellsIf(text, counts, ns, p, q);
  }

  lemma {:induction false} PrintSpellsIf(text: string, counts: string -> bool, ns: Nodes, p: nat, q: nat)
    returns (t: Laws.Plan)
    requires Printed(text, ns, p, q) && ns.If?
    ensures t.Cond? && SpellsIf(text, counts, ns, t) && t.start == p && Laws.End(t) == q && Exact(ns, t)
    decreases ns, 0
  {
    var h, m, r := IfParts(text, ns, p, q);
    var first := PrintSpells(text, counts, ns.body, h, m);
    var arms := PrintSpellsArms(text, counts, ns.more, m, r);
    var after := PrintSpells(text, counts, ns.rest, r, q);
    t := Laws.Cond(p, h, counts(ns.cond), first, m, arms, r, after);
  }

  lemma {:induction false} PrintSpellsArms(text: string, counts: string -> bool, arms: Arms, p: nat, q: nat)
    returns (t: Laws.Arms)
    requires PrintedArms(text, arms, p, q)
    ensures SpellsArms(text, counts, arms, t) && t.start == p && Laws.ArmsEnd(t) == q
    decreases arms, 1
  {
    match arms
    case ElseIf(c, body, more) =>
      var h, m := ElseIfParts(text, arms, p, q);
      var first := PrintSpells(text, counts, body, h, m);
      var others := PrintSpellsArms(text, counts, more, m, q);
      t := Laws.ElseIf(p, h, counts(c), first, m, others);
    case Else(body) =>
      var m := ElseParts(text, arms, p, q);
      var other := PrintSpells(text, counts, body, p + 7, m);
      t := Laws.Else(p, p + 7, other, m, q);
    case EndIf => t := Laws.EndIf(p, q);
  }

  // ----- What is spelled is placed -----

  lemma {:induction false} PlacedIf(text: string, counts: string -> bool, c: string, p: nat, h: nat)
    requires SpellsHead(text, IF, c, p, h)
    ensures p + 4 < h
    ensures Laws.Quiet(Classify(text, counts, |text|), p + 1, h)
    ensures Classify(text, counts, |text|)[p] == IfToken(Header(h - 1, counts(c)))
  {
    QuietHeader(text, counts, IF, c, p);
    ClassifyAt(text, counts, |text|, p);
    ReadIf(text, counts, p, c);
  }

  lemma {:induction false} PlacedElseIf(text: string, counts: string -> bool, c: string, p: nat, h: nat)
    requires SpellsHead(text, ELSE_IF, c, p, h)
    ensures p + 6 < h
    ensures Laws.Quiet(Classify(text, counts, |text|), p + 1, h)
    ensures Classify(text, counts, |text|)[p] == ElseToken(Header(h - 1, counts(c)))
  {
    QuietHeader(text, counts, ELSE_IF, c, p);
    ClassifyAt(text, counts, |text|, p);
    ReadElseIf(text, counts, p, c);
  }

  lemma {:induction false} PlacedEnd(text: string, counts: string -> bool, p: nat)
    requires OccursAt(text, END, p)
    ensures Laws.EndsAt(Classify(text, counts, |text|), p, p + 5)
  {
    QuietWord(text, counts, END, p);
    ReadEnd(text, counts, p);
    ClassifyAt(text, counts, |text|, p);
  }

  lemma {:induction false} PlacedElse(text: string, counts: string -> bool, p: nat)
    requires OccursAt(text, ELSE, p)
    ensures var ts := Classify(text, counts, |text|);
            Laws.Quiet(ts, p + 1, p + 7) && ts[p] == ElseToken(NoHeader)
  {
    QuietWord(text, counts, ELSE, p);
    ReadElse(text, counts, p);
    ClassifyAt(text, counts, |text|, p);
  }

  lemma {:induction false} SpelledIsPlaced(text: string, counts: string -> bool, ns: Nodes, t: Laws.Plan)
    requires Spells(text, counts, ns, t)
    ensures Laws.Placed(Classify(text, counts, |text|), t)
    decreases ns, 1
  {
    match ns
    case Nil =>
    case Text(s, rest) => SpelledText(text, counts, ns, t);
    case Stray(_) => SpelledStray(text, counts, ns, t);
    case If(c, body, more, rest) => SpelledIf(text, counts, ns, t);
  }

  lemma {:induction false} SpelledText(text: string, counts: string -> bool, ns: Nodes, t: Laws.Plan)
    requires ns.Text? && t.Gap? && SpellsText(text, counts, ns, t)
    ensures Laws.Placed(Classify(text, counts, |text|), t)
    decreases ns, 0
  {
    QuietText(text, counts, ns.s, t.from);
    SpelledIsPlaced(text, counts, ns.rest, t.rest);
  }

  lemma {:induction false} SpelledStray(text: string, counts: string -> bool, ns: Nodes, t: Laws.Plan)
    requires ns.Stray? && t.Stray? && SpellsStray(text, counts, ns, t)
    ensures Laws.Placed(Classify(text, counts, |text|), t)
    decreases ns, 0
  {
    PlacedElse(text, counts, t.start);
    SpelledIsPlaced(text, counts, ns.rest, t.rest);
  }

  lemma {:induction false} SpelledIf(text: string, counts: string -> bool, ns: Nodes, t: Laws.Plan)
    requires ns.If? && t.Cond? && SpellsIf(text, counts, ns, t)
    ensures Laws.Placed(Classify(text, counts, |text|), t)
    decreases ns, 0
  {
    var ts := Classify(text, counts, |text|);
    assert Laws.Placed(ts, t.body) by { SpelledIsPlaced(text, counts, ns.body, t.body); }
    assert Laws.PlacedArms(ts, t.arms) by { SpelledArmsPlaced(text, counts, ns.more, t.arms); }
    assert Laws.Placed(ts, t.rest) by { SpelledIsPlaced(text, counts, ns.rest, t.rest); }
    PlacedIf(text, counts, ns.cond, t.start, t.after);
  }

  lemma {:induction false} SpelledArmsPlaced(text: string, counts: string -> bool, arms: Arms, t: Laws.Arms)
    requires SpellsArms(text, counts, arms, t)
    ensures Laws.PlacedArms(Classify(text, counts, |text|), t)
    decreases arms, 1
  {
    match arms
    case ElseIf(c, body, more) => SpelledElseIf(text, counts, arms, t);
    case Else(body) => SpelledElse(text, counts, arms, t);
    case EndIf => PlacedEnd(text, counts, t.start);
  }

  lemma {:induction false} SpelledElseIf(text: string, counts: string -> bool, arms: Arms, t: Laws.Arms)
    requires arms.ElseIf? && t.ElseIf? && SpellsElseIf(text, counts, arms, t)
    ensures Laws.PlacedArms(Classify(text, counts, |text|), t)
    decreases arms, 0
  {
    var ts := Classify(text, counts, |text|);
    assert Laws.Placed(ts, t.body) by { SpelledIsPlaced(text, counts, arms.body, t.body); }
    assert Laws.PlacedArms(ts, t.more) by { SpelledArmsPlaced(text, counts, arms.more, t.more); }
    PlacedElseIf(text, counts, arms.cond, t.start, t.after);
  }

  lemma {:induction false} SpelledElse(text: string, counts: string -> bool, arms: Arms, t: Laws.Arms)
    requires arms.Else? && t.Else? && SpellsElse(text, counts, arms, t)
    ensures Laws.PlacedArms(Classify(text, counts, |text|), t)
    decreases arms, 0
  {
    PlacedElse(text, counts, t.start);
    SpelledIsPlaced(text, counts, arms.other, t.body);
    PlacedEnd(text, counts, t.mid);
  }

  // ----- The slices -----

  lemma {:induction false} SlicesSplit(text: string, a: seq<Block>, b: seq<Block>)
    ensures Slices(text, a + b) == Slices(text, a) + Slices(text, b)
  {
    if a == [] {
      assert a + b == b;
    } else {
      assert (a + b)[1..] == a[1..] + b;
      SlicesSplit(text, a[1..], b);
    }
  }

  lemma {:induction false} FrontLength(ns: Nodes, t: Laws.Plan)
    requires Exact(ns, t)
    ensures Laws.HasStray(t) == HasStray(ns)
    ensures Laws.End(Laws.Front(t)) == Laws.Begin(t) + |Print(Front(ns))|
    decreases ns
  {
    match ns
    case Nil =>
    case Text(_, rest) => FrontLength(rest, t.rest);
    case Stray(_) =>
    case If(_, _, _, rest) => FrontLength(rest, t.rest);
  }

  lemma {:induction false} FrontIsPrefix(ns: Nodes)
    ensures Print(Front(ns)) <= Print(ns)
    ensures HasStray(ns) ==> |Print(Front(ns))| < |Print(ns)|
    decreases ns
  {
    match ns
    case Nil =>
    case Text(s, rest) => FrontIsPrefix(rest);
    case Stray(rest) =>
    case If(c, body, more, rest) => FrontIsPrefix(rest);
  }

  lemma {:induction false} StraySlice(text: string, body: Nodes, after: nat, t: Laws.Plan, mid: nat)
    requires SpellsBody(text, body, after, t, mid)
    ensures var end := Laws.End(Laws.Front(t)); after <= end <= |text| && text[after..end] == Print(Front(body))
  {
    FrontLength(body, t);
    FrontIsPrefix(body);
    assert text[after..Laws.End(Laws.Front(t))] == text[after..mid][..|Print(Front(body))|];
  }

  lemma {:induction false} EndSlice(text: string, after: nat, mid: nat)
    requires after <= mid && OccursAt(text, END, mid)
    ensures text[after..mid + 5] == text[after..mid] + END
  {
    assert text[mid..mid + 5] == END;
    assert text[after..mid + 5] == text[after..mid] + text[mid..mid + 5];
  }

  lemma {:induction false} BranchSlice(text: string, counts: string -> bool, body: Nodes, after: nat, t: Laws.Plan, mid: nat,
                                       more: Arms, arms: Laws.Arms)
    requires SpellsBody(text, body, after, t, mid) && SpellsArms(text, counts, more, arms) && arms.start == mid
    ensures var end := Laws.OwnEnd(t, arms); after <= end <= |text| && text[after..end] == SeenBranch(body, more)
  {
    assert Laws.HasStray(t) == HasStray(body) by { FrontLength(body, t); }
    if HasStray(body) {
      StraySlice(text, body, after, t, mid);
    } else if more.EndIf? {
      EndSlice(text, after, mid);
    } else {
      assert Print(body) + "" == Print(body);
    }
  }

  /** The slice of a header's own block is its branch as seen. */
  lemma {:induction false} OwnSlice(text: string, counts: string -> bool, start: nat, after: nat, body: Nodes,
                                    t: Laws.Plan, mid: nat, more: Arms, arms: Laws.Arms)
    requires SpellsBody(text, body, after, t, mid) && SpellsArms(text, counts, more, arms) && arms.start == mid
    ensures Slices(text, Laws.Own(start, after, true, t, arms)) == [SeenBranch(body, more)]
  {
    BranchSlice(text, counts, body, after, t, mid, more, arms);
    var b := Block(start, after, Laws.OwnEnd(t, arms));
    assert [b][0] == b && [b][1..] == [];
  }

  /** One branch with what is seen behind its stray `{:else}`. */
  lemma {:induction false} BranchSlices(text: string, counts: string -> bool, start: nat, after: nat, body: Nodes,
                                        t: Laws.Plan, mid: nat, more: Arms, arms: Laws.Arms)
    requires SpellsBody(text, body, after, t, mid) && SpellsArms(text, counts, more, arms) && arms.start == mid
    requires Slices(text, Laws.OuterBehind(t)) == SeenBehind(body, counts)
    ensures Slices(text, Laws.Own(start, after, true, t, arms) + Laws.OuterBehind(t)) ==
            [SeenBranch(body, more)] + SeenBehind(body, counts)
  {
    OwnSlice(text, counts, start, after, body, t, mid, more, arms);
    SlicesSplit(text, Laws.Own(start, after, true, t, arms), Laws.OuterBehind(t));
  }

  lemma {:induction false} OuterSlices(text: string, counts: string -> bool, ns: Nodes, t: Laws.Plan)
    requires Spells(text, counts, ns, t)
    ensures Slices(text, Laws.Outer(t)) == Seen(ns, counts)
    ensures Slices(text, Laws.OuterBehind(t)) == SeenBehind(ns, counts)
    decreases ns
  {
    match ns
    case Nil =>
    case Text(s, rest) => OuterSlices(text, counts, rest, t.rest);
    case Stray(rest) => OuterSlices(text, counts, rest, t.rest);
    case If(c, body, more, rest) =>
      OuterSlices(text, counts, body, t.body);
      BranchSlices(text, counts, t.start, t.after, body, t.body, t.mid, more, t.arms);
      OuterSlicesArms(text, counts, more, t.arms);
      OuterSlices(text, counts, rest, t.rest);
      SlicesSplit(text, Laws.OuterArms(t.arms), Laws.Outer(t.rest));
      SlicesSplit(text, if t.counts then Laws.Own(t.start, t.after, true, t.body, t.arms) + Laws.OuterBehind(t.body)
                        else Laws.Outer(t.body),
                  Laws.OuterArms(t.arms) + Laws.Outer(t.rest));
  }

  lemma {:induction false} OuterSlicesArms(text: string, counts: string -> bool, arms: Arms, t: Laws.Arms)
    requires SpellsArms(text, counts, arms, t)
    ensures Slices(text, Laws.OuterArms(t)) == SeenArms(arms, counts)
    decreases arms
  {
    match arms
    case ElseIf(c, body, more) =>
      OuterSlices(text, counts, body, t.body);
      BranchSlices(text, counts, t.start, t.after, body, t.body, t.mid, more, t.more);
      OuterSlicesArms(text, counts, more, t.more);
      SlicesSplit(text, if t.counts then Laws.Own(t.start, t.after, true, t.body, t.more) + Laws.OuterBehind(t.body)
                        else Laws.Outer(t.body),
                  Laws.OuterArms(t.more));
    case Else(body) => OuterSlices(text, counts, body, t.body);
    case EndIf =>
  }

  /** On every printed template `if_blocks` returns exactly what is seen in its nodes. */
  lemma {:induction false} FoundIsSeen(ns: Nodes, counts: string -> bool)
    requires WellFormed(ns)
    ensures Found(Print(ns), counts) == Seen(ns, counts)
  {
    var text := Print(ns);
    var t := PrintSpells(text, counts, ns, 0, |text|);
    SpelledIsPlaced(text, counts, ns, t);
    ClassifyFits(text, counts);
    Laws.OutermostOfPlan(Classify(text, counts, |text|), t);
    OuterSlices(text, counts, ns, t);
  }
}
