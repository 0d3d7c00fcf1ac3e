/**
 Which components a route reaches: the worklist walk over the imports, and the
 reconciliation of what it does not reach with the exceptions carried by name.
 A file is its path relative to the repository.
 */
module Reachability {

  type File = string

  type Imports = map<File, set<File>>

  /** `edges.get(f, ())`. */
  function Successors(edges: Imports, f: File): set<File> {
    if f in edges then edges[f] else {}
  }

  // ----- Import paths -----

  predicate ImportsFile(edges: Imports, f: File, g: File) { f in edges && g in edges[f] }

  /** Each file of the path imports the next. */
  predicate IsPath(edges: Imports, p: seq<File>) {
    p != [] && forall i :: 0 < i < |p| ==> ImportsFile(edges, p[i - 1], p[i])
  }

  predicate PathTo(edges: Imports, roots: seq<File>, f: File, p: seq<File>) {
    IsPath(edges, p) && p[0] in roots && p[|p| - 1] == f
  }

  ghost predicate Reachable(edges: Imports, roots: seq<File>, f: File) {
    exists p :: PathTo(edges, roots, f, p)
  }

  lemma {:induction false} RootReachable(edges: Imports, roots: seq<File>, f: File)
    requires f in roots
    ensures Reachable(edges, roots, f)
  {
    assert PathTo(edges, roots, f, [f]);
  }

  lemma {:induction false} NextReachable(edges: Imports, roots: seq<File>, f: File, g: File)
    requires Reachable(edges, roots, f) && g in Successors(edges, f)
    ensures Reachable(edges, roots, g)
  {
    var p :| PathTo(edges, roots, f, p);
    assert PathTo(edges, roots, g, p + [g]);
  }

  /** Following imports never leaves a set that holds every import of its members. */
  lemma {:induction false} PathStaysIn(edges: Imports, p: seq<File>, s: set<File>)
    requires IsPath(edges, p) && p[0] in s
    requires forall f :: f in s ==> Successors(edges, f) <= s
    ensures p[|p| - 1] in s
    decreases |p|
  {
    if |p| > 1 {
      var q := p[..|p| - 1];
      PathStaysIn(edges, q, s);
      assert q[|q| - 1] == p[|p| - 2];
    }
  }

  // ----- The walk -----

  ghost predicate Sound(edges: Imports, roots: seq<File>, seen: set<File>) {
    forall f :: f in seen ==> Reachable(edges, roots, f)
  }

  /** Everything outside the stack has been followed. */
  predicate Followed(edges: Imports, seen: set<File>, stack: seq<File>) {
    forall f :: f in seen && f !in stack ==> Successors(edges, f) <= seen
  }

  /** What the loop keeps. */
  ghost predicate Walking(edges: Imports, roots: seq<File>, seen: set<File>, stack: seq<File>) {
    && (forall r :: r in roots ==> r in seen) && (forall f :: f in stack ==> f in seen)
    && Sound(edges, roots, seen) && Followed(edges, seen, stack)
  }

  lemma {:induction false} WalkStarts(edges: Imports, roots: seq<File>)
    ensures Walking(edges, roots, (set f | f in roots), roots)
  {
    forall f | f in roots ensures Reachable(edges, roots, f) {
      RootReachable(edges, roots, f);
    }
  }

  lemma {:induction false} WalkEnds(edges: Imports, roots: seq<File>, seen: set<File>)
    requires Walking(edges, roots, seen, [])
    ensures forall f :: f in seen <==> Reachable(edges, roots, f)
  {
    forall f | Reachable(edges, roots, f) ensures f in seen {
      var p :| PathTo(edges, roots, f, p);
      PathStaysIn(edges, p, seen);
    }
  }

  /** A bound on everything the walk can see. */
  lemma {:induction false} Bound(edges: Imports, roots: seq<File>) returns (all: set<File>)
    ensures forall r :: r in roots ==> r in all
    ensures forall f :: Successors(edges, f) <= all
  {
    all := (set f | f in roots) + (set f, g | f in edges.Keys && g in edges[f] :: g);
  }

  /** The inner loop: push the imports not seen yet. */
  method Push(next: set<File>, seen: set<File>, stack: seq<File>) returns (seen': set<File>, stack': seq<File>)
    ensures seen' == seen + next
    ensures forall f :: f in stack' <==> f in stack || f in next - seen
    ensures seen' == seen ==> stack' == stack
  {
    seen', stack' := seen, stack;
    var todo := next;
    while todo != {}
      invariant todo <= next && seen' == seen + (next - todo)
      invariant forall f :: f in stack' <==> f in stack || f in next - todo - seen
      invariant seen' == seen ==> stack' == stack
      decreases |todo|
    {
      var nxt :| nxt in todo;
      if nxt !in seen' {
        seen' := seen' + {nxt};
        stack' := stack' + [nxt];
      }
      todo := todo - {nxt};
    }
  }

  lemma {:induction false} PushKeeps(edges: Imports, roots: seq<File>, cur: File, seen: set<File>, rest: seq<File>, stack: seq<File>)
    requires Walking(edges, roots, seen, rest + [cur])
    requires forall f :: f in stack <==> f in rest || f in Successors(edges, cur) - seen
    ensures Walking(edges, roots, seen + Successors(edges, cur), stack)
  {
    assert cur in rest + [cur] && forall f :: f in rest + [cur] <==> f in rest || f == cur;
    forall f | f in Successors(edges, cur) ensures Reachable(edges, roots, f) {
      NextReachable(edges, roots, cur, f);
    }
  }

  /** The worklist: `seen` ends as exactly the files with an import path from a root. */
  method Walk(edges: Imports, roots: seq<File>) returns (seen: set<File>)
    ensures forall f :: f in seen <==> Reachable(edges, roots, f)
  {
    seen := set f | f in roots;
    var stack := roots;
    WalkStarts(edges, roots);
    ghost var all := Bound(edges, roots);
    while stack != []
      invariant Walking(edges, roots, seen, stack) && seen <= all
      decreases |all - seen|, |stack|
    {
      var cur, rest := stack[|stack| - 1], stack[..|stack| - 1];
      assert stack == rest + [cur];
      ghost var before := seen;
      seen, stack := Push(Successors(edges, cur), seen, rest);
      PushKeeps(edges, roots, cur, before, rest, stack);
      if before != seen {
        Shrinks(all, before, seen);
      }
    }
    WalkEnds(edges, roots, seen);
  }

  lemma {:induction false} Shrinks(universe: set<File>, a: set<File>, b: set<File>)
    requires a <= b <= universe && a != b
    ensures |universe - b| < |universe - a|
  {
    var x :| x in b && x !in a;
    var small, large := universe - b, universe - a;
    assert small <= large && x in large && x !in small;
    ProperSubset(small, large, x);
  }

  lemma {:induction false} ProperSubset(small: set<File>, large: set<File>, x: File)
    requires small <= large && x in large && x !in small
    ensures |small| < |large|
    decreases |small|
  {
    if small != {} {
      var y :| y in small;
      ProperSubset(small - {y}, large - {y}, x);
    }
  }

  /** Files that nothing outside them imports, none of them a root, are unreached,
      however they import each other. */
  lemma {:induction false} OrphansUnreached(edges: Imports, roots: seq<File>, orphans: set<File>, f: File)
    requires forall r :: r in roots ==> r !in orphans
    requires forall g, h :: g !in orphans && h in Successors(edges, g) ==> h !in orphans
    requires f in orphans
    ensures !Reachable(edges, roots, f)
  {
    if Reachable(edges, roots, f) {
      var p :| PathTo(edges, roots, f, p);
      PathAvoids(edges, p, orphans);
    }
  }

  lemma {:induction false} PathAvoids(edges: Imports, p: seq<File>, orphans: set<File>)
    requires IsPath(edges, p) && p[0] !in orphans
    requires forall g, h :: g !in orphans && h in Successors(edges, g) ==> h !in orphans
    ensures p[|p| - 1] !in orphans
    decreases |p|
  {
    if |p| > 1 {
      var q := p[..|p| - 1];
      PathAvoids(edges, q, orphans);
      assert q[|q| - 1] == p[|p| - 2];
    }
  }

  // ----- The reconciliation -----

  datatype Kind = NotRendered | NotImported | ModuleReached | ComponentReached

  datatype Problem = Problem(kind: Kind, file: File)

  function Filter(s: seq<File>, keep: File -> bool): (r: seq<File>)
    ensures forall f :: f in r <==> f in s && keep(f)
  {
    if s == [] then []
    else (if keep(s[0]) then [s[0]] else []) + Filter(s[1..], keep)
  }

  /** The files of `s` outside `known`, each as a problem. */
  function Outside(s: seq<File>, known: seq<File>, kind: Kind): seq<Problem> {
    if s == [] then []
    else (if s[0] in known then [] else [Problem(kind, s[0])]) + Outside(s[1..], known, kind)
  }

  lemma {:induction false} OutsideEmpty(s: seq<File>, known: seq<File>, kind: Kind)
    ensures Outside(s, known, kind) == [] <==> forall f :: f in s ==> f in known
  {
    if s != [] {
      OutsideEmpty(s[1..], known, kind);
      assert forall f :: f in s <==> f == s[0] || f in s[1..];
    }
  }

  method Report(s: seq<File>, known: seq<File>, kind: Kind) returns (problems: seq<Problem>)
    ensures problems == Outside(s, known, kind)
  {
    problems := [];
    for i := 0 to |s|
      invariant problems + Outside(s[i..], known, kind) == Outside(s, known, kind)
    {
      assert s[i..][1..] == s[i + 1..];
      if s[i] !in known {
        problems := problems + [Problem(kind, s[i])];
      }
    }
    assert s[|s|..] == [];
  }

  /** The four loops, in their order. `ownTree`: the lists are this repository's own. */
  method Reconcile(unreached: seq<File>, modules: seq<File>, known: seq<File>, knownModules: seq<File>, ownTree: bool)
    returns (problems: seq<Problem>)
    ensures problems ==
            Outside(unreached, known, NotRendered) + Outside(modules, knownModules, NotImported)
            + if ownTree
              then Outside(knownModules, modules, ModuleReached) + Outside(known, unreached, ComponentReached)
              else []
  {
    problems := Report(unreached, known, NotRendered);
    var imported := Report(modules, knownModules, NotImported);
    problems := problems + imported;
    if ownTree {
      var stale := Report(knownModules, modules, ModuleReached);
      var staler := Report(known, unreached, ComponentReached);
      problems := problems + (stale + staler);
    }
  }

  /** What decides which files the check asks about. */
  datatype Tree = Tree(files: seq<File>, edges: Imports, route: File -> bool, exported: File -> bool,
                       component: File -> bool, lib: File -> bool)

  function Roots(t: Tree): (roots: seq<File>)
    ensures forall f :: f in roots <==> f in t.files && (t.route(f) || t.exported(f))
  {
    Filter(t.files, t.route) + Filter(t.files, t.exported)
  }

  ghost predicate UnreachedComponent(t: Tree, f: File) {
    f in t.files && t.component(f) && !Reachable(t.edges, Roots(t), f)
  }

  ghost predicate UnreachedModule(t: Tree, f: File) {
    f in t.files && t.lib(f) && !Reachable(t.edges, Roots(t), f)
  }

  /** Nothing unreached is missing from its list, and on the own tree nothing listed is reached. */
  ghost predicate Reconciled(t: Tree, known: seq<File>, knownModules: seq<File>, ownTree: bool) {
    && (forall f :: UnreachedComponent(t, f) ==> f in known)
    && (forall f :: UnreachedModule(t, f) ==> f in knownModules)
    && (ownTree ==> forall f :: f in known ==> UnreachedComponent(t, f))
    && (ownTree ==> forall f :: f in knownModules ==> UnreachedModule(t, f))
  }

  /** `main`, without its printing: the exit status. */
  method Check(t: Tree, known: seq<File>, knownModules: seq<File>, ownTree: bool) returns (status: nat)
    ensures status == if t.files == [] || Roots(t) == [] then 2
                      else if Reconciled(t, known, knownModules, ownTree) then 0 else 1
    ensures ownTree && status != 2 ==>
              (status == 0 <==> && (forall f :: f in known <==> UnreachedComponent(t, f))
                                && (forall f :: f in knownModules <==> UnreachedModule(t, f)))
  {
    if t.files == [] {
      return 2;
    }
    var roots := Roots(t);
    if roots == [] {
      return 2;
    }
    var seen := Walk(t.edges, roots);
    var unreached := Filter(Filter(t.files, t.component), f => f !in seen);
    var modules := Filter(Filter(t.files, t.lib), f => f !in seen);
    assert forall f :: f in unreached <==> UnreachedComponent(t, f);
    assert forall f :: f in modules <==> UnreachedModule(t, f);
    var problems := Reconcile(unreached, modules, known, knownModules, ownTree);
    OutsideEmpty(unreached, known, NotRendered);
    OutsideEmpty(modules, knownModules, NotImported);
    OutsideEmpty(knownModules, modules, ModuleReached);
    OutsideEmpty(known, unreached, ComponentReached);
    status := if problems == [] then 0 else 1;
  }
}
