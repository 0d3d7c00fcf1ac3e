/**
 Arguments as trees: characters, strings and bracketed groups. A printed tree whose
 commas are all inside groups or strings is an argument for both scanners, whatever
 its groups hold.
 */
module CallTrees {
  import opened Strings
  import opened Splitting
  import opened Passing
  import opened CallArity
  import opened CallArityLaws

  datatype Item =
    | Plain(c: char)
    | Quoted(chars: string)
    | Group(left: char, inner: Items)

  datatype Items = Nil | Cons(head: Item, tail: Items)

  function Partner(left: char): char {
    if left == '(' then ')' else if left == '[' then ']' else if left == '{' then '}' else '>'
  }

  function PrintItem(item: Item): string {
    match item
    case Plain(c) => [c]
    case Quoted(chars) => "\"" + (chars + "\"")
    case Group(left, inner) => [left] + (PrintItems(inner) + [Partner(left)])
  }

  function PrintItems(items: Items): string {
    match items
    case Nil => ""
    case Cons(head, tail) => PrintItem(head) + PrintItems(tail)
  }

  /** Strings close, groups open with a bracket, and brackets occur only so. */
  predicate WellFormed(item: Item) {
    match item
    case Plain(c) => c != '"' && !IsOpen(c) && !IsClose(c)
    case Quoted(chars) => StaysIn('"', false, chars)
    case Group(left, inner) => IsOpen(left) && AllWellFormed(inner)
  }

  predicate AllWellFormed(items: Items) {
    match items
    case Nil => true
    case Cons(head, tail) => WellFormed(head) && AllWellFormed(tail)
  }

  /** No comma stands outside groups and strings. */
  predicate NoOuterComma(items: Items) {
    match items
    case Nil => true
    case Cons(head, tail) => head != Plain(',') && NoOuterComma(tail)
  }

  // ----- What a scan makes of a tree -----

  function At(depth: int): Scan { Scan(depth, false, false) }

  type Stop = (Scan, char) -> bool

  /** The scan that counts with `weight`. */
  function Along(weight: char -> int): (Scan, char) -> Scan { (st: Scan, c: char) => Step(weight, st, c) }

  /** Neither scan stops at a quotation mark or inside a string. */
  ghost predicate SparesStrings(stop: Stop) {
    forall st: Scan, c :: stop(st, c) ==> !st.quoted && !st.escaped && c != '"'
  }

  lemma {:induction false} InsidePasses(weight: char -> int, stop: Stop, d: int, escaped: bool, s: string)
    requires StaysIn('"', escaped, s) && SparesStrings(stop)
    ensures Passes(Along(weight), stop, Scan(d, true, escaped), s, Scan(d, true, false))
    decreases |s|
  {
    if s != "" {
      InsidePasses(weight, stop, d, !escaped && s[0] == '\\', s[1..]);
    }
  }

  lemma {:induction false} QuotedPasses(weight: char -> int, stop: Stop, d: int, chars: string)
    requires StaysIn('"', false, chars) && SparesStrings(stop)
    ensures Passes(Along(weight), stop, At(d), "\"" + (chars + "\""), At(d))
  {
    InsidePasses(weight, stop, d, false, chars);
    EnclosedPasses(Along(weight), stop, At(d), '"', chars, Scan(d, true, false), '"');
  }

  /** A group passes when what it holds passes between its brackets. */
  lemma {:induction false} GroupPasses(weight: char -> int, stop: Stop, d: int, up: int, left: char, inner: string)
    requires IsOpen(left) && up == d + weight(left) && weight(Partner(left)) == d - up
    requires !stop(At(d), left) && !stop(At(up), Partner(left))
    requires Passes(Along(weight), stop, At(up), inner, At(up))
    ensures Passes(Along(weight), stop, At(d), [left] + (inner + [Partner(left)]), At(d))
  {
    EnclosedPasses(Along(weight), stop, At(d), left, inner, At(up), Partner(left));
  }

  // ----- The two scans -----

  /** Counting all brackets, only a comma outside every group can split. */
  lemma {:induction false} ItemNotSplit(item: Item, d: nat)
    requires WellFormed(item) && (d == 0 ==> item != Plain(','))
    ensures Passes(Along(Joint), Splits, At(d), PrintItem(item), At(d))
    decreases item
  {
    match item
    case Plain(c) => CharPasses(Along(Joint), Splits, At(d), c);
    case Quoted(chars) => QuotedPasses(Joint, Splits, d, chars);
    case Group(left, inner) =>
      ItemsNotSplit(inner, d + 1);
      GroupPasses(Joint, Splits, d, d + 1, left, PrintItems(inner));
  }

  lemma {:induction false} ItemsNotSplit(items: Items, d: nat)
    requires AllWellFormed(items) && (d == 0 ==> NoOuterComma(items))
    ensures Passes(Along(Joint), Splits, At(d), PrintItems(items), At(d))
    decreases items
  {
    if items.Cons? {
      ItemNotSplit(items.head, d);
      ItemsNotSplit(items.tail, d);
      PassesBoth(Along(Joint), Splits, At(d), PrintItem(items.head), At(d), PrintItems(items.tail), At(d));
    }
  }

  /** Counting parentheses alone, none inside a tree closes the call around it. */
  lemma {:induction false} ItemStaysInside(item: Item, d: nat)
    requires WellFormed(item) && d >= 1
    ensures Passes(Along(Parens), Closes, At(d), PrintItem(item), At(d))
    decreases item
  {
    match item
    case Plain(c) => CharPasses(Along(Parens), Closes, At(d), c);
    case Quoted(chars) => QuotedPasses(Parens, Closes, d, chars);
    case Group(left, inner) =>
      var up := d + Parens(left);
      ItemsStayInside(inner, up);
      GroupPasses(Parens, Closes, d, up, left, PrintItems(inner));
  }

  lemma {:induction false} ItemsStayInside(items: Items, d: nat)
    requires AllWellFormed(items) && d >= 1
    ensures Passes(Along(Parens), Closes, At(d), PrintItems(items), At(d))
    decreases items
  {
    if items.Cons? {
      ItemStaysInside(items.head, d);
      ItemsStayInside(items.tail, d);
      PassesBoth(Along(Parens), Closes, At(d), PrintItem(items.head), At(d), PrintItems(items.tail), At(d));
    }
  }

  lemma {:induction false} PassesUnsplit(st: Scan, s: string, to: Scan)
    requires Passes(Along(Joint), Splits, st, s, to)
    ensures NoTopComma(st, s) && After(Joint, st, s) == to
    decreases |s|
  {
    if s != "" {
      PassesUnsplit(Step(Joint, st, s[0]), s[1..], to);
    }
  }

  lemma {:induction false} PassesUnclosed(st: Scan, s: string, to: Scan)
    requires Passes(Along(Parens), Closes, st, s, to)
    ensures NoClosing(st, s) && After(Parens, st, s) == to
    decreases |s|
  {
    if s != "" {
      PassesUnclosed(Step(Parens, st, s[0]), s[1..], to);
    }
  }

  // ----- The round trip, for trees -----

  /** A tree that prints as one argument. */
  predicate IsTreeArgument(tree: Items) {
    AllWellFormed(tree) && NoOuterComma(tree) && Trimmed(PrintItems(tree)) && NoComment(PrintItems(tree))
  }

  lemma {:induction false} TreeIsArgument(tree: Items)
    requires IsTreeArgument(tree)
    ensures IsArgument(PrintItems(tree))
  {
    ItemsNotSplit(tree, 0);
    PassesUnsplit(OUTSIDE, PrintItems(tree), OUTSIDE);
    ItemsStayInside(tree, 1);
    PassesUnclosed(INSIDE, PrintItems(tree), INSIDE);
  }

  function PrintAll(trees: seq<Items>): (r: seq<string>)
    ensures |r| == |trees|
  {
    if trees == [] then [] else [PrintItems(trees[0])] + PrintAll(trees[1..])
  }

  lemma {:induction false} TreesAreArguments(trees: seq<Items>)
    requires forall i :: 0 <= i < |trees| ==> IsTreeArgument(trees[i])
    ensures AreArguments(PrintAll(trees))
  {
    if trees != [] {
      TreeIsArgument(trees[0]);
      TreesAreArguments(trees[1..]);
    }
  }

  /** A call printed from trees, whatever follows it: `balanced` returns its argument text
      and `split_top_level` its arguments, so the arity is theirs. */
  lemma {:induction false} TreeRoundTrip(trees: seq<Items>, rest: string)
    requires forall i :: 0 <= i < |trees| ==> IsTreeArgument(trees[i])
    ensures var text := Join(PrintAll(trees), ", ");
            && Contents("(" + (text + (")" + rest)), 1) == text
            && Arguments(text) == PrintAll(trees) && |Arguments(text)| == |trees|
  {
    TreesAreArguments(trees);
    CallRoundTrip(PrintAll(trees), rest);
  }
}
