/**
 Svelte markup as a tree: text, `{#each}` with or without an `{:else}`, and `{#if}` with
 its other branches. The scan of `if_blocks` knows nothing of `{#each}` and takes its
 `{:else}` for the one of the branch around it.
 */
module TemplateMarkup {
  import opened TemplateTokens
  import opened Templates
  import opened TemplatePrinting

  datatype Markup =
    | Done
    | Words(s: string, rest: Markup)
    | Each(head: string, body: Markup, rest: Markup)
    | EachElse(head: string, body: Markup, other: Markup, rest: Markup)
    | When(cond: string, body: Markup, more: Branches, rest: Markup)

  datatype Branches = ElseWhen(cond: string, body: Markup, more: Branches) | Otherwise(other: Markup) | Close

  const EACH := "{#each "
  const END_EACH := "{/each}"

  function Head(head: string): string { EACH + head + "}" }

  function Show(m: Markup): string {
    match m
    case Done => ""
    case Words(s, rest) => s + Show(rest)
    case Each(head, body, rest) => Head(head) + (Show(body) + (END_EACH + Show(rest)))
    case EachElse(head, body, other, rest) => Head(head) + (Show(body) + (ELSE + (Show(other) + (END_EACH + Show(rest)))))
    case When(c, body, more, rest) => IF + (c + ("}" + (Show(body) + (ShowBranches(more) + Show(rest)))))
  }

  function ShowBranches(more: Branches): string {
    match more
    case ElseWhen(c, body, more) => ELSE_IF + (c + ("}" + (Show(body) + ShowBranches(more))))
    case Otherwise(other) => ELSE + (Show(other) + END)
    case Close => END
  }

  predicate IsMarkup(m: Markup) {
    match m
    case Done => true
    case Words(s, rest) => Silent(s) && (rest.Words? ==> Apart(s, rest.s)) && IsMarkup(rest)
    case Each(head, body, rest) => Silent(Head(head)) && IsMarkup(body) && IsMarkup(rest)
    case EachElse(head, body, other, rest) =>
      Silent(Head(head)) && IsMarkup(body) && IsMarkup(other) && IsMarkup(rest)
    case When(c, body, more, rest) => IsCondition(c) && IsMarkup(body) && AreBranches(more) && IsMarkup(rest)
  }

  predicate AreBranches(more: Branches) {
    match more
    case ElseWhen(c, body, more) => IsCondition(c) && IsMarkup(body) && AreBranches(more)
    case Otherwise(other) => IsMarkup(other)
    case Close => true
  }

  // ----- What `if_blocks` should return -----

  /** A truthy branch as written: up to its own `{:else`, or through its `{/if}`. */
  function Written(body: Markup, more: Branches): string {
    Show(body) + if more.Close? then END else ""
  }

  /** The truthy branches of the outermost conditions that count, in order. */
  function Wanted(m: Markup, counts: string -> bool): seq<string> {
    match m
    case Done => []
    case Words(_, rest) => Wanted(rest, counts)
    case Each(_, body, rest) => Wanted(body, counts) + Wanted(rest, counts)
    case EachElse(_, body, other, rest) => Wanted(body, counts) + (Wanted(other, counts) + Wanted(rest, counts))
    case When(c, body, more, rest) =>
      (if counts(c) then [Written(body, more)] else Wanted(body, counts))
      + (WantedBranches(more, counts) + Wanted(rest, counts))
  }

  function WantedBranches(more: Branches, counts: string -> bool): seq<string> {
    match more
    case ElseWhen(c, body, more) =>
      (if counts(c) then [Written(body, more)] else Wanted(body, counts)) + WantedBranches(more, counts)
    case Otherwise(other) => Wanted(other, counts)
    case Close => []
  }

  /** An `{#each}` with an `{:else}` stands here, not inside an inner `{#if}`. */
  predicate HoldsElse(m: Markup) {
    match m
    case Done => false
    case Words(_, rest) => HoldsElse(rest)
    case Each(_, body, rest) => HoldsElse(body) || HoldsElse(rest)
    case EachElse(_, _, _, _) => true
    case When(_, _, _, rest) => HoldsElse(rest)
  }

  /** No outermost branch that counts holds the `{:else}` of an `{#each}`. */
  predicate Clean(m: Markup, counts: string -> bool) {
    match m
    case Done => true
    case Words(_, rest) => Clean(rest, counts)
    case Each(_, body, rest) => Clean(body, counts) && Clean(rest, counts)
    case EachElse(_, body, other, rest) => Clean(body, counts) && Clean(other, counts) && Clean(rest, counts)
    case When(c, body, more, rest) =>
      && (if counts(c) then !HoldsElse(body) else Clean(body, counts))
      && CleanBranches(more, counts) && Clean(rest, counts)
  }

  predicate CleanBranches(more: Branches, counts: string -> bool) {
    match more
    case ElseWhen(c, body, more) =>
      (if counts(c) then !HoldsElse(body) else Clean(body, counts)) && CleanBranches(more, counts)
    case Otherwise(other) => Clean(other, counts)
    case Close => true
  }

  // ----- The nodes the scan sees -----

  /** The nodes of `m`, with `k` behind them. */
  function Lower(m: Markup, k: Nodes): Nodes {
    match m
    case Done => k
    case Words(s, rest) => Text(s, Lower(rest, k))
    case Each(head, body, rest) => Text(Head(head), Lower(body, Text(END_EACH, Lower(rest, k))))
    case EachElse(head, body, other, rest) =>
      Text(Head(head), Lower(body, Stray(Lower(other, Text(END_EACH, Lower(rest, k))))))
    case When(c, body, more, rest) => If(c, Lower(body, Nil), LowerBranches(more), Lower(rest, k))
  }

  function LowerBranches(more: Branches): Arms {
    match more
    case ElseWhen(c, body, more) => ElseIf(c, Lower(body, Nil), LowerBranches(more))
    case Otherwise(other) => Else(Lower(other, Nil))
    case Close => EndIf
  }

  lemma {:induction false} LowerPrints(m: Markup, k: Nodes)
    ensures Print(Lower(m, k)) == Show(m) + Print(k)
    decreases m
  {
    match m
    case Done => assert "" + Print(k) == Print(k);
    case Words(s, rest) =>
      LowerPrints(rest, k);
      Assoc(s, Show(rest), Print(k));
    case Each(head, body, rest) =>
      var tail := Text(END_EACH, Lower(rest, k));
      LowerPrints(rest, k);
      LowerPrints(body, tail);
      Assoc(END_EACH, Show(rest), Print(k));
      Assoc(Show(body), END_EACH + Show(rest), Print(k));
      Assoc(Head(head), Show(body) + (END_EACH + Show(rest)), Print(k));
    case EachElse(head, body, other, rest) =>
      var tail := Text(END_EACH, Lower(rest, k));
      var last := END_EACH + Show(rest);
      LowerPrints(rest, k);
      LowerPrints(other, tail);
      LowerPrints(body, Stray(Lower(other, tail)));
      Assoc(END_EACH, Show(rest), Print(k));
      Assoc(Show(other), last, Print(k));
      Assoc(ELSE, Show(other) + last, Print(k));
      Assoc(Show(body), ELSE + (Show(other) + last), Print(k));
      Assoc(Head(head), Show(body) + (ELSE + (Show(other) + last)), Print(k));
    case When(c, body, more, rest) =>
      var last := ShowBranches(more) + Show(rest);
      LowerPrints(body, Nil);
      assert Show(body) + "" == Show(body);
      LowerBranchesPrint(more);
      LowerPrints(rest, k);
      Assoc(ShowBranches(more), Show(rest), Print(k));
      Assoc(Show(body), last, Print(k));
      Assoc("}", Show(body) + last, Print(k));
      Assoc(c, "}" + (Show(body) + last), Print(k));
      Assoc(IF, c + ("}" + (Show(body) + last)), Print(k));
  }

  lemma {:induction false} Assoc(a: string, b: string, c: string)
    ensures (a + b) + c == a + (b + c)
  {
  }

  lemma {:induction false} LowerBranchesPrint(more: Branches)
    ensures PrintArms(LowerBranches(more)) == ShowBranches(more)
    decreases more
  {
    match more
    case ElseWhen(c, body, rest) =>
      LowerPrints(body, Nil);
      assert Show(body) + "" == Show(body);
      LowerBranchesPrint(rest);
    case Otherwise(other) =>
      LowerPrints(other, Nil);
      assert Show(other) + "" == Show(other);
    case Close =>
  }

  /** What may stand behind markup: anything but bare text. */
  predicate Begins(k: Nodes) { k.Text? ==> k.s != "" && k.s[0] == '{' }

  /** No token begins where none of the three words fits. */
  lemma {:induction false} NoToken(s: string, p: nat)
    requires p < |s|
    requires s[p] != '{' || (p + 2 < |s| && (s[p + 1] == '#' || s[p + 1] == '/') && s[p + 2] != 'i')
    ensures !AnyToken(s, p)
  {
    if s[p] != '{' {
      Differs(s, "{#if", p, 0);
      Differs(s, "{/if}", p, 0);
      Differs(s, "{:else", p, 0);
    } else {
      Differs(s, "{#if", p, 2);
      Differs(s, "{/if}", p, 2);
      Differs(s, "{:else", p, 1);
    }
  }

  lemma {:induction false} EndEachSilent()
    ensures Silent(END_EACH)
  {
    forall p | 0 <= p < |END_EACH| ensures !AnyToken(END_EACH, p) {
      NoToken(END_EACH, p);
    }
  }

  /** A head without braces, as most are. */
  lemma {:induction false} HeadSilent(head: string)
    requires '{' !in head
    ensures Silent(Head(head))
  {
    var s := Head(head);
    forall p | 0 <= p < |s| ensures !AnyToken(s, p) {
      assert s[p] == if p < 7 then EACH[p] else if p < 7 + |head| then head[p - 7] else '}';
      NoToken(s, p);
    }
  }

  lemma {:induction false} LowerWellFormed(m: Markup, k: Nodes)
    requires IsMarkup(m) && WellFormed(k) && Begins(k)
    ensures WellFormed(Lower(m, k))
    ensures !m.Words? ==> Begins(Lower(m, k))
    decreases m
  {
    match m
    case Done =>
    case Words(s, rest) => LowerWellFormed(rest, k);
    case Each(head, body, rest) =>
      EndEachSilent();
      LowerWellFormed(rest, k);
      LowerWellFormed(body, Text(END_EACH, Lower(rest, k)));
    case EachElse(head, body, other, rest) =>
      EndEachSilent();
      LowerWellFormed(rest, k);
      LowerWellFormed(other, Text(END_EACH, Lower(rest, k)));
      LowerWellFormed(body, Stray(Lower(other, Text(END_EACH, Lower(rest, k)))));
    case When(c, body, more, rest) =>
      LowerWellFormed(body, Nil);
      LowerBranchesWellFormed(more);
      LowerWellFormed(rest, k);
  }

  lemma {:induction false} LowerBranchesWellFormed(more: Branches)
    requires AreBranches(more)
    ensures WellFormedArms(LowerBranches(more))
    decreases more
  {
    match more
    case ElseWhen(c, body, rest) =>
      LowerWellFormed(body, Nil);
      LowerBranchesWellFormed(rest);
    case Otherwise(other) => LowerWellFormed(other, Nil);
    case Close =>
  }

  lemma {:induction false} LowerStray(m: Markup, k: Nodes)
    ensures HasStray(Lower(m, k)) <==> HoldsElse(m) || HasStray(k)
    decreases m
  {
    match m
    case Done =>
    case Words(_, rest) => LowerStray(rest, k);
    case Each(_, body, rest) =>
      LowerStray(rest, k);
      LowerStray(body, Text(END_EACH, Lower(rest, k)));
    case EachElse(_, body, other, rest) =>
      LowerStray(body, Stray(Lower(other, Text(END_EACH, Lower(rest, k)))));
    case When(_, _, _, rest) => LowerStray(rest, k);
  }

  // ----- What is seen against what is wanted -----

  /** The two lists differ at some place that both have. */
  ghost predicate Clash(seen: seq<string>, wanted: seq<string>) {
    exists i :: 0 <= i < |seen| && i < |wanted| && seen[i] != wanted[i]
  }

  lemma {:induction false} ClashLeft(seen: seq<string>, wanted: seq<string>, more: seq<string>, rest: seq<string>)
    requires Clash(seen, wanted)
    ensures Clash(seen + more, wanted + rest)
  {
    var i :| 0 <= i < |seen| && i < |wanted| && seen[i] != wanted[i];
    assert (seen + more)[i] != (wanted + rest)[i];
  }

  lemma {:induction false} ClashRight(same: seq<string>, seen: seq<string>, wanted: seq<string>)
    requires Clash(seen, wanted)
    ensures Clash(same + seen, same + wanted)
  {
    var i :| 0 <= i < |seen| && i < |wanted| && seen[i] != wanted[i];
    assert (same + seen)[|same| + i] != (same + wanted)[|same| + i];
  }

  /** Either `seen` is `wanted` with `rest` behind it, or they clash. */
  ghost predicate Agrees(ok: bool, seen: seq<string>, wanted: seq<string>, rest: seq<string>) {
    if ok then seen == wanted + rest else Clash(seen, wanted)
  }

  /** Two stretches, one behind the other. */
  lemma {:induction false} AgreeBoth(a: bool, seen: seq<string>, wantedA: seq<string>, seenB: seq<string>,
                                     b: bool, wantedB: seq<string>, rest: seq<string>)
    requires Agrees(a, seen, wantedA, seenB) && Agrees(b, seenB, wantedB, rest)
    ensures Agrees(a && b, seen, wantedA + wantedB, rest)
  {
    if !a {
      ClashLeft(seen, wantedA, [], wantedB);
      assert seen + [] == seen;
    } else if !b {
      ClashRight(wantedA, seenB, wantedB);
    } else {
      assert wantedA + (wantedB + rest) == (wantedA + wantedB) + rest;
    }
  }

  lemma {:induction false} NothingBehind(ns: Nodes, counts: string -> bool)
    requires !HasStray(ns)
    ensures SeenBehind(ns, counts) == []
    decreases ns
  {
    match ns
    case Nil =>
    case Text(_, rest) => NothingBehind(rest, counts);
    case If(_, _, _, rest) => NothingBehind(rest, counts);
  }

  /** What is seen of a branch, in front of whatever is seen next. */
  function SeenHead(c: string, body: Nodes, more: Arms, counts: string -> bool): seq<string> {
    if counts(c) then [SeenBranch(body, more)] + SeenBehind(body, counts) else Seen(body, counts)
  }

  lemma {:induction false} BranchAgrees(body: Markup, more: Branches, counts: string -> bool, rest: seq<string>)
    ensures Agrees(!HoldsElse(body), ([SeenBranch(Lower(body, Nil), LowerBranches(more))] + SeenBehind(Lower(body, Nil), counts)) + rest,
                   [Written(body, more)], rest)
  {
    var low := Lower(body, Nil);
    LowerStray(body, Nil);
    LowerPrints(body, Nil);
    assert Show(body) + "" == Show(body);
    if HoldsElse(body) {
      FrontIsPrefix(low);
      var seen := ([SeenBranch(low, LowerBranches(more))] + SeenBehind(low, counts)) + rest;
      assert seen[0] == Print(Front(low)) && |seen[0]| < |Show(body)|;
      assert seen[0] != [Written(body, more)][0];
    } else {
      NothingBehind(low, counts);
    }
  }

  lemma {:induction false} LowerAgrees(m: Markup, k: Nodes, counts: string -> bool)
    ensures Agrees(Clean(m, counts), Seen(Lower(m, k), counts), Wanted(m, counts), Seen(k, counts))
    decreases m, 1
  {
    match m
    case Done => assert [] + Seen(k, counts) == Seen(k, counts);
    case Words(_, rest) => LowerAgrees(rest, k, counts);
    case Each(_, body, rest) =>
      var tail := Text(END_EACH, Lower(rest, k));
      LowerAgrees(body, tail, counts);
      LowerAgrees(rest, k, counts);
      AgreeBoth(Clean(body, counts), Seen(Lower(m, k), counts), Wanted(body, counts), Seen(tail, counts),
                Clean(rest, counts), Wanted(rest, counts), Seen(k, counts));
    case EachElse(_, _, _, _) => EachElseAgrees(m, k, counts);
    case When(_, _, _, _) => WhenAgrees(m, k, counts);
  }

  lemma {:induction false} EachElseAgrees(m: Markup, k: Nodes, counts: string -> bool)
    requires m.EachElse?
    ensures Agrees(Clean(m, counts), Seen(Lower(m, k), counts), Wanted(m, counts), Seen(k, counts))
    decreases m, 0
  {
    var tail := Text(END_EACH, Lower(m.rest, k));
    var behind := Stray(Lower(m.other, tail));
    LowerAgrees(m.body, behind, counts);
    LowerAgrees(m.other, tail, counts);
    LowerAgrees(m.rest, k, counts);
    AgreeBoth(Clean(m.other, counts), Seen(behind, counts), Wanted(m.other, counts), Seen(tail, counts),
              Clean(m.rest, counts), Wanted(m.rest, counts), Seen(k, counts));
    AgreeBoth(Clean(m.body, counts), Seen(Lower(m, k), counts), Wanted(m.body, counts), Seen(behind, counts),
              Clean(m.other, counts) && Clean(m.rest, counts), Wanted(m.other, counts) + Wanted(m.rest, counts), Seen(k, counts));
  }

  predicate HeadClean(c: string, body: Markup, counts: string -> bool) {
    if counts(c) then !HoldsElse(body) else Clean(body, counts)
  }

  function HeadWanted(c: string, body: Markup, more: Branches, counts: string -> bool): seq<string> {
    if counts(c) then [Written(body, more)] else Wanted(body, counts)
  }

  lemma {:induction false} HeadAgrees(c: string, body: Markup, more: Branches, counts: string -> bool, rest: seq<string>)
    ensures Agrees(HeadClean(c, body, counts), SeenHead(c, Lower(body, Nil), LowerBranches(more), counts) + rest,
                   HeadWanted(c, body, more, counts), rest)
    decreases body, 2
  {
    if counts(c) {
      BranchAgrees(body, more, counts, rest);
    } else {
      LowerAgrees(body, Nil, counts);
      AgreesWith(Clean(body, counts), Seen(Lower(body, Nil), counts), Wanted(body, counts), rest);
    }
  }

  lemma {:induction false} WhenAgrees(m: Markup, k: Nodes, counts: string -> bool)
    requires m.When?
    ensures Agrees(Clean(m, counts), Seen(Lower(m, k), counts), Wanted(m, counts), Seen(k, counts))
    decreases m, 0
  {
    var low := LowerBranches(m.more);
    var last := Seen(Lower(m.rest, k), counts);
    var arms := SeenArms(low, counts) + last;
    HeadAgrees(m.cond, m.body, m.more, counts, arms);
    BranchesAgree(m.more, counts, last);
    LowerAgrees(m.rest, k, counts);
    AgreeBoth(CleanBranches(m.more, counts), arms, WantedBranches(m.more, counts), last,
              Clean(m.rest, counts), Wanted(m.rest, counts), Seen(k, counts));
    AgreeBoth(HeadClean(m.cond, m.body, counts), Seen(Lower(m, k), counts), HeadWanted(m.cond, m.body, m.more, counts), arms,
              CleanBranches(m.more, counts) && Clean(m.rest, counts), WantedBranches(m.more, counts) + Wanted(m.rest, counts),
              Seen(k, counts));
  }

  lemma {:induction false} BranchesAgree(more: Branches, counts: string -> bool, rest: seq<string>)
    ensures Agrees(CleanBranches(more, counts), SeenArms(LowerBranches(more), counts) + rest, WantedBranches(more, counts), rest)
    decreases more, 1
  {
    match more
    case ElseWhen(_, _, _) => ElseWhenAgrees(more, counts, rest);
    case Otherwise(other) =>
      LowerAgrees(other, Nil, counts);
      AgreesWith(Clean(other, counts), Seen(Lower(other, Nil), counts), Wanted(other, counts), rest);
    case Close => assert [] + rest == rest;
  }

  lemma {:induction false} AgreesWith(ok: bool, seen: seq<string>, wanted: seq<string>, rest: seq<string>)
    requires Agrees(ok, seen, wanted, [])
    ensures Agrees(ok, seen + rest, wanted, rest)
  {
    assert wanted + [] == wanted;
    if !ok {
      ClashLeft(seen, wanted, rest, []);
    }
  }

  lemma {:induction false} ElseWhenAgrees(more: Branches, counts: string -> bool, rest: seq<string>)
    requires more.ElseWhen?
    ensures Agrees(CleanBranches(more, counts), SeenArms(LowerBranches(more), counts) + rest, WantedBranches(more, counts), rest)
    decreases more, 0
  {
    var low := LowerBranches(more.more);
    var head := SeenHead(more.cond, Lower(more.body, Nil), low, counts);
    var next := SeenArms(low, counts) + rest;
    HeadAgrees(more.cond, more.body, more.more, counts, next);
    BranchesAgree(more.more, counts, rest);
    assert SeenArms(LowerBranches(more), counts) == head + SeenArms(low, counts);
    assert (head + SeenArms(low, counts)) + rest == head + next;
    AgreeBoth(HeadClean(more.cond, more.body, counts), head + next, HeadWanted(more.cond, more.body, more.more, counts), next,
              CleanBranches(more.more, counts), WantedBranches(more.more, counts), rest);
  }

  /** On every template `if_blocks` returns exactly the truthy branches of the outermost
      conditions that count, in order, if and only if no such branch holds the `{:else}`
      of an `{#each}` at its own depth. */
  lemma {:induction false} IfBlocksUndoesShow(m: Markup, counts: string -> bool)
    requires IsMarkup(m)
    ensures Found(Show(m), counts) == Wanted(m, counts) <==> Clean(m, counts)
  {
    LowerPrints(m, Nil);
    assert Show(m) + "" == Show(m);
    LowerWellFormed(m, Nil);
    FoundIsSeen(Lower(m, Nil), counts);
    LowerAgrees(m, Nil, counts);
    assert Wanted(m, counts) + [] == Wanted(m, counts);
  }

  // ----- A branch that is cut short -----

  /** `{#each xs as x}a{:else}b{/each}c`. */
  function List(): Markup { EachElse("xs as x", Words("a", Done), Words("b", Done), Words("c", Done)) }

  /** `{#if failed}{#each xs as x}a{:else}b{/each}c{/if}`. */
  function Example(): Markup { When("failed", List(), Close, Done) }

  lemma {:induction false} LetterSilent(s: string)
    requires forall c :: c in s ==> c != '{'
    ensures Silent(s)
  {
    forall p | 0 <= p < |s| ensures !AnyToken(s, p) {
      assert s[p] in s;
      NoToken(s, p);
    }
  }

  lemma {:induction false} LetterIsMarkup(s: string)
    requires forall c :: c in s ==> c != '{'
    ensures IsMarkup(Words(s, Done))
  {
    LetterSilent(s);
  }

  lemma {:induction false} ExampleIsMarkup()
    ensures IsMarkup(Example())
  {
    HeadSilent("xs as x");
    LetterIsMarkup("a");
    LetterIsMarkup("b");
    LetterIsMarkup("c");
    LetterSilent("failed" + "}");
  }

  lemma {:induction false} ListText()
    ensures Show(List()) == "{#each xs as x}a{:else}b{/each}c"
  {
    assert Show(Words("a", Done)) == "a" && Show(Words("b", Done)) == "b" && Show(Words("c", Done)) == "c";
    assert END_EACH + "c" == "{/each}c";
    assert ELSE + ("b" + "{/each}c") == "{:else}b{/each}c";
    assert Head("xs as x") == "{#each xs as x}";
  }

  lemma {:induction false} ListSeen(counts: string -> bool)
    ensures HasStray(Lower(List(), Nil)) && Print(Front(Lower(List(), Nil))) == "{#each xs as x}a"
    ensures SeenBehind(Lower(List(), Nil), counts) == []
  {
    var tail := Text(END_EACH, Text("c", Nil));
    assert Lower(Words("c", Done), Nil) == Text("c", Nil);
    var low := Text(Head("xs as x"), Text("a", Stray(Text("b", tail))));
    assert Lower(List(), Nil) == low;
    assert HasStray(Text("a", Stray(Text("b", tail))));
    var front := Text("a", Nil);
    assert Front(Text("a", Stray(Text("b", tail)))) == front;
    assert Print(front) == "a";
    assert Head("xs as x") == "{#each xs as x}";
    assert Seen(tail, counts) == [];
    assert SeenBehind(Stray(Text("b", tail)), counts) == [];
  }

  const BRANCH := "{#each xs as x}a{:else}b{/each}c{/if}"

  lemma {:induction false} ListWritten()
    ensures Written(List(), Close) == BRANCH
  {
    ListText();
    assert "{#each xs as x}a{:else}b{/each}c" + END == BRANCH;
  }

  lemma {:induction false} ExampleText()
    ensures Show(Example()) == "{#if failed}" + BRANCH
  {
    ListWritten();
    assert Show(List()) + (END + "") == BRANCH by { assert END + "" == END; }
    assert IF + ("failed" + ("}" + BRANCH)) == (IF + "failed" + "}") + BRANCH;
    assert IF + "failed" + "}" == "{#if failed}";
  }

  lemma {:induction false} ExampleWanted(counts: string -> bool)
    requires counts("failed")
    ensures Wanted(Example(), counts) == [BRANCH]
  {
    ListWritten();
    assert Wanted(Example(), counts) == [Written(List(), Close)] + ([] + []);
  }

  lemma {:induction false} ExampleSeen(counts: string -> bool)
    requires counts("failed")
    ensures Seen(Lower(Example(), Nil), counts) == ["{#each xs as x}a"]
  {
    ListSeen(counts);
    var low := Lower(List(), Nil);
    assert Lower(Example(), Nil) == If("failed", low, EndIf, Nil);
    assert SeenBranch(low, EndIf) == "{#each xs as x}a";
    assert Seen(Lower(Example(), Nil), counts) == ([SeenBranch(low, EndIf)] + []) + ([] + []);
  }

  /** There the branch is cut at the `{:else}` of the `{#each}`. */
  lemma {:induction false} EachElseCutsBranch(counts: string -> bool)
    requires counts("failed")
    ensures Found("{#if failed}" + BRANCH, counts) == ["{#each xs as x}a"] != [BRANCH] == Wanted(Example(), counts)
  {
    var m := Example();
    assert Found(Show(m), counts) == Seen(Lower(m, Nil), counts) by {
      ExampleIsMarkup();
      LowerWellFormed(m, Nil);
      LowerPrints(m, Nil);
      assert Show(m) + "" == Show(m);
      FoundIsSeen(Lower(m, Nil), counts);
    }
    ExampleSeen(counts);
    ExampleText();
    ExampleWanted(counts);
    assert ["{#each xs as x}a"][0] != [BRANCH][0];
  }
}
