/**
 Object literals printed from a tree: `js_keys` returns the names in front of the colons
 of the top level. Those are the keys, but for keys written without a colon and for
 conditional expressions, whose colon takes a name too.
 */
module ObjectKeysLaws {
  import opened Strings
  import opened Splitting
  import opened ObjectKeys
  import opened Passing

  /** `Bare` is a number, a word or operators: no bracket, quote, comma or colon. `Both` is
      one part behind another, as in a call or a sum; `Cond` is `test ? yes : no`, the
      blanks around its marks being part of its parts. */
  datatype Value =
    | Text(quote: char, chars: string)
    | Bare(chars: string)
    | Parens(items: Items)
    | Array(items: Items)
    | Object(fields: Fields)
    | Both(first: Value, second: Value)
    | Cond(test: Value, yes: Value, no: Value)

  /** Items `pre value post` between commas; `end` may begin with a last comma. */
  datatype Items = NoItems(end: string) | Items(pre: string, head: Value, post: string, tail: Items)

  /** A field `lead mark name mark gap : pre value post`, or a name alone. */
  datatype Fields =
    | NoFields(end: string)
    | Field(lead: string, mark: string, name: string, gap: string, pre: string, value: Value, post: string, tail: Fields)
    | Shorthand(lead: string, name: string, post: string, tail: Fields)

  function PrintValue(v: Value): string {
    match v
    case Text(q, chars) => [q] + (chars + [q])
    case Bare(chars) => chars
    case Parens(items) => "(" + (PrintItems(items) + ")")
    case Array(items) => "[" + (PrintItems(items) + "]")
    case Object(fields) => "{" + (PrintFields(fields) + "}")
    case Both(first, second) => PrintValue(first) + PrintValue(second)
    case Cond(test, yes, no) => PrintValue(test) + (("?" + PrintValue(yes)) + (":" + PrintValue(no)))
  }

  function PrintItems(items: Items): string {
    match items
    case NoItems(end) => end
    case Items(pre, head, post, tail) =>
      (pre + (PrintValue(head) + post)) + ((if tail.NoItems? then "" else ",") + PrintItems(tail))
  }

  function KeyText(lead: string, mark: string, name: string, gap: string): string {
    lead + ((mark + (name + mark)) + gap)
  }

  function Separator(tail: Fields): string { if tail.NoFields? then "" else "," }

  function PrintFields(fields: Fields): string {
    match fields
    case NoFields(end) => end
    case Field(lead, mark, name, gap, pre, value, post, tail) =>
      KeyText(lead, mark, name, gap)
      + (":" + ((pre + (PrintValue(value) + post)) + (Separator(tail) + PrintFields(tail))))
    case Shorthand(lead, name, post, tail) =>
      (lead + (name + post)) + (Separator(tail) + PrintFields(tail))
  }

  /** The keys written with a colon. */
  function KeySet(fields: Fields): set<string> {
    match fields
    case NoFields(_) => {}
    case Field(_, _, name, _, _, _, _, tail) => {name} + KeySet(tail)
    case Shorthand(_, _, _, tail) => KeySet(tail)
  }

  /** The keys written without one. */
  function Shorthands(fields: Fields): set<string> {
    match fields
    case NoFields(_) => {}
    case Field(_, _, _, _, _, _, _, tail) => Shorthands(tail)
    case Shorthand(_, name, _, tail) => {name} + Shorthands(tail)
  }

  /** The names that stand in front of the colons of conditional expressions. */
  function Leaks(v: Value): set<string> {
    match v
    case Both(first, second) => Leaks(first) + Leaks(second)
    case Cond(test, yes, no) => Leaks(test) + (Leaks(yes) + (Named("?" + PrintValue(yes)) + Leaks(no)))
    case _ => {}
  }

  function LeakedKeys(fields: Fields): set<string> {
    match fields
    case NoFields(_) => {}
    case Field(_, _, _, _, _, value, _, tail) => Leaks(value) + LeakedKeys(tail)
    case Shorthand(_, _, _, tail) => LeakedKeys(tail)
  }

  // ----- Well-formed trees -----

  predicate IsBareChar(c: char) { !IsOpen(c) && !IsClose(c) && !IsQuote(c) && c != ':' }

  predicate IsBare(s: string) { forall c :: c in s ==> IsBareChar(c) }

  predicate Blanks(s: string) { forall c :: c in s ==> IsBlank(c) }

  predicate IsIdentifier(s: string) { s != "" && forall c :: c in s ==> IsNameChar(c) && !IsMark(c) }

  predicate IsMarkText(mark: string) { mark == "" || (|mark| == 1 && IsMark(mark[0])) }

  predicate IsKey(lead: string, mark: string, name: string, gap: string) {
    Blanks(lead) && IsMarkText(mark) && IsIdentifier(name) && Blanks(gap)
  }

  /** Blanks, with or without a last comma in front of them. */
  predicate IsEnd(end: string) { Blanks(end) || (end[0] == ',' && Blanks(end[1..])) }

  predicate WellFormed(v: Value) {
    match v
    case Text(q, chars) => IsQuote(q) && StaysIn(q, false, chars)
    case Bare(chars) => IsBare(chars) && ',' !in chars
    case Parens(items) => WellFormedItems(items)
    case Array(items) => WellFormedItems(items)
    case Object(fields) => WellFormedFields(fields)
    case Both(first, second) => WellFormed(first) && WellFormed(second)
    case Cond(test, yes, no) => WellFormed(test) && WellFormed(yes) && WellFormed(no)
  }

  predicate WellFormedItems(items: Items) {
    match items
    case NoItems(end) => IsEnd(end)
    case Items(pre, head, post, tail) => Blanks(pre) && WellFormed(head) && Blanks(post) && WellFormedItems(tail)
  }

  predicate WellFormedFields(fields: Fields) {
    match fields
    case NoFields(end) => IsEnd(end)
    case Field(lead, mark, name, gap, pre, value, post, tail) =>
      IsKey(lead, mark, name, gap) && Blanks(pre) && WellFormed(value) && Blanks(post) && WellFormedFields(tail)
    case Shorthand(lead, name, post, tail) =>
      Blanks(lead) && IsIdentifier(name) && Blanks(post) && WellFormedFields(tail)
  }

  // ----- Text without keys -----

  /** Scanning `s` from `st` comes to `to` and finds no key. */
  predicate Keyless(st: Scan, s: string, to: Scan) { Passes(Step, IsKeyColon, st, s, to) }

  lemma {:induction false} KeylessBoth(d: int, a: string, b: string)
    requires Keyless(Out(d), a, Out(d)) && Keyless(Out(d), b, Out(d))
    ensures Keyless(Out(d), a + b, Out(d))
  {
    PassesBoth(Step, IsKeyColon, Out(d), a, Out(d), b, Out(d));
  }

  lemma {:induction false} KeysPass(st: Scan, before: string, a: string, mid: Scan, s: string)
    requires Keyless(st, a, mid)
    ensures Keys(st, before, a + s) == Keys(mid, before + a, s)
    decreases |a|
  {
    if a == "" {
      assert a + s == s && before + a == before;
    } else {
      assert (a + s)[1..] == a[1..] + s;
      assert before + [a[0]] + a[1..] == before + a;
      KeysPass(Step(st, a[0]), before + [a[0]], a[1..], mid, s);
    }
  }

  lemma {:induction false} BarePasses(d: int, s: string)
    requires IsBare(s)
    ensures Keyless(Out(d), s, Out(d))
  {
    if s != "" {
      assert s[0] in s;
      assert forall c :: c in s[1..] ==> c in s;
      BarePasses(d, s[1..]);
    }
  }

  lemma {:induction false} EndPasses(d: int, end: string)
    requires IsEnd(end)
    ensures Keyless(Out(d), end, Out(d))
  {
    if !Blanks(end) {
      assert forall c :: c in end ==> c == ',' || c in end[1..];
    }
    BarePasses(d, end);
  }

  lemma {:induction false} InsidePasses(d: int, q: char, escaped: bool, s: string)
    requires StaysIn(q, escaped, s)
    ensures Keyless(In(d, q, escaped), s, In(d, q, false))
    decreases |s|
  {
    if s != "" {
      InsidePasses(d, q, !escaped && s[0] == '\\', s[1..]);
    }
  }

  lemma {:induction false} QuotedPasses(d: int, q: char, s: string)
    requires IsQuote(q) && StaysIn(q, false, s)
    ensures Keyless(Out(d), [q] + (s + [q]), Out(d))
  {
    InsidePasses(d, q, false, s);
    assert !IsOpen(q) && !IsClose(q) && q != ':';
    EnclosedPasses(Step, IsKeyColon, Out(d), q, s, In(d, q, false), q);
  }

  /** `open inner close`, when `inner` passes one level deeper. */
  lemma {:induction false} BracketPasses(d: int, open: char, inner: string, close: char)
    requires (open == '(' && close == ')') || (open == '[' && close == ']') || (open == '{' && close == '}')
    requires Keyless(Out(d + 1), inner, Out(d + 1))
    ensures Keyless(Out(d), [open] + (inner + [close]), Out(d))
  {
    EnclosedPasses(Step, IsKeyColon, Out(d), open, inner, Out(d + 1), close);
  }

  lemma {:induction false} IdentifierStays(q: char, name: string)
    requires IsMark(q) && IsIdentifier(name)
    ensures StaysIn(q, false, name)
  {
    assert name[0] in name;
    if |name| > 1 {
      assert forall c :: c in name[1..] ==> c in name;
      IdentifierStays(q, name[1..]);
    }
  }

  lemma {:induction false} NamePasses(d: int, mark: string, name: string)
    requires IsMarkText(mark) && IsIdentifier(name)
    ensures Keyless(Out(d), mark + (name + mark), Out(d))
  {
    if mark == "" {
      assert mark + (name + mark) == name;
      BarePasses(d, name);
    } else {
      assert mark == [mark[0]];
      IdentifierStays(mark[0], name);
      QuotedPasses(d, mark[0], name);
    }
  }

  lemma {:induction false} KeyPasses(d: int, lead: string, mark: string, name: string, gap: string)
    requires IsKey(lead, mark, name, gap)
    ensures Keyless(Out(d), KeyText(lead, mark, name, gap), Out(d))
  {
    NamePasses(d, mark, name);
    BarePasses(d, gap);
    KeylessBoth(d, mark + (name + mark), gap);
    BarePasses(d, lead);
    KeylessBoth(d, lead, (mark + (name + mark)) + gap);
  }

  /** A separator and what it separates. */
  lemma {:induction false} ThenPasses(d: int, a: string, comma: string, b: string)
    requires Keyless(Out(d), a, Out(d)) && Keyless(Out(d), b, Out(d)) && (comma == "" || comma == ",")
    ensures Keyless(Out(d), a + (comma + b), Out(d))
  {
    BarePasses(d, comma);
    KeylessBoth(d, comma, b);
    KeylessBoth(d, a, comma + b);
  }

  lemma {:induction false} PaddedPasses(d: int, pre: string, s: string, post: string)
    requires Blanks(pre) && Keyless(Out(d), s, Out(d)) && Blanks(post)
    ensures Keyless(Out(d), pre + (s + post), Out(d))
  {
    BarePasses(d, post);
    KeylessBoth(d, s, post);
    BarePasses(d, pre);
    KeylessBoth(d, pre, s + post);
  }

  // ----- Nested values hide their keys -----

  /** A value in one piece. */
  lemma {:induction false} SimplePasses(v: Value, d: int)
    requires WellFormed(v) && !v.Both? && !v.Cond? && d >= 1
    ensures Keyless(Out(d), PrintValue(v), Out(d))
    decreases v, 0
  {
    match v
    case Text(q, chars) => QuotedPasses(d, q, chars);
    case Bare(chars) => BarePasses(d, chars);
    case Parens(items) =>
      ItemsPass(items, d + 1);
      BracketPasses(d, '(', PrintItems(items), ')');
    case Array(items) =>
      ItemsPass(items, d + 1);
      BracketPasses(d, '[', PrintItems(items), ']');
    case Object(fields) =>
      FieldsPass(fields, d + 1);
      BracketPasses(d, '{', PrintFields(fields), '}');
  }

  /** Below the top level even the colons say nothing. */
  lemma {:induction false} ValuePasses(v: Value, d: int)
    requires WellFormed(v) && d >= 2
    ensures Keyless(Out(d), PrintValue(v), Out(d))
    decreases v, 1
  {
    match v
    case Both(first, second) =>
      ValuePasses(first, d);
      ValuePasses(second, d);
      KeylessBoth(d, PrintValue(first), PrintValue(second));
    case Cond(test, yes, no) =>
      ValuePasses(test, d);
      ValuePasses(yes, d);
      ValuePasses(no, d);
      CondPasses(d, PrintValue(test), PrintValue(yes), PrintValue(no));
    case _ => SimplePasses(v, d);
  }

  lemma {:induction false} CondPasses(d: int, test: string, yes: string, no: string)
    requires d >= 2 && Keyless(Out(d), test, Out(d)) && Keyless(Out(d), yes, Out(d)) && Keyless(Out(d), no, Out(d))
    ensures Keyless(Out(d), test + (("?" + yes) + (":" + no)), Out(d))
  {
    CharPasses(Step, IsKeyColon, Out(d), '?');
    KeylessBoth(d, "?", yes);
    CharPasses(Step, IsKeyColon, Out(d), ':');
    KeylessBoth(d, ":", no);
    KeylessBoth(d, "?" + yes, ":" + no);
    KeylessBoth(d, test, ("?" + yes) + (":" + no));
  }

  lemma {:induction false} ItemsPass(items: Items, d: int)
    requires WellFormedItems(items) && d >= 2
    ensures Keyless(Out(d), PrintItems(items), Out(d))
    decreases items, 0
  {
    match items
    case NoItems(end) => EndPasses(d, end);
    case Items(pre, head, post, tail) =>
      ValuePasses(head, d);
      ItemsPass(tail, d);
      PaddedPasses(d, pre, PrintValue(head), post);
      ThenPasses(d, pre + (PrintValue(head) + post), if tail.NoItems? then "" else ",", PrintItems(tail));
  }

  lemma {:induction false} FieldsPass(fields: Fields, d: int)
    requires WellFormedFields(fields) && d >= 2
    ensures Keyless(Out(d), PrintFields(fields), Out(d))
    decreases fields, 0
  {
    match fields
    case NoFields(end) => EndPasses(d, end);
    case Field(lead, mark, name, gap, pre, value, post, tail) =>
      var padded := pre + (PrintValue(value) + post);
      var rest := padded + (Separator(tail) + PrintFields(tail));
      ValuePasses(value, d);
      FieldsPass(tail, d);
      PaddedPasses(d, pre, PrintValue(value), post);
      ThenPasses(d, padded, Separator(tail), PrintFields(tail));
      CharPasses(Step, IsKeyColon, Out(d), ':');
      KeylessBoth(d, ":", rest);
      KeyPasses(d, lead, mark, name, gap);
      KeylessBoth(d, KeyText(lead, mark, name, gap), ":" + rest);
    case Shorthand(lead, name, post, tail) =>
      FieldsPass(tail, d);
      ShorthandPasses(d, lead, name, post);
      ThenPasses(d, lead + (name + post), Separator(tail), PrintFields(tail));
  }

  lemma {:induction false} ShorthandPasses(d: int, lead: string, name: string, post: string)
    requires Blanks(lead) && IsIdentifier(name) && Blanks(post)
    ensures Keyless(Out(d), lead + (name + post), Out(d))
  {
    BarePasses(d, name);
    PaddedPasses(d, lead, name, post);
  }

  // ----- The name in front of a colon -----

  /** No name is under way at the end of `before`. */
  predicate EndsName(before: string) { before == "" || !IsNameChar(before[|before| - 1]) }

  lemma {:induction false} BlanksDrop(s: string, gap: string)
    requires Blanks(gap) && (s == "" || !IsBlank(s[|s| - 1]))
    ensures DropBlanks(s + gap) == s
    decreases |gap|
  {
    if gap == "" {
      assert s + gap == s;
    } else {
      var shorter := gap[..|gap| - 1];
      assert gap[|gap| - 1] in gap && forall c :: c in shorter ==> c in gap;
      assert (s + gap)[..|s + gap| - 1] == s + shorter;
      BlanksDrop(s, shorter);
    }
  }

  lemma {:induction false} NameDrops(s: string, name: string)
    requires (forall c :: c in name ==> IsNameChar(c)) && (s == "" || !IsNameChar(s[|s| - 1]))
    ensures DropName(s + name) == s
    decreases |name|
  {
    if name == "" {
      assert s + name == s;
    } else {
      var shorter := name[..|name| - 1];
      assert name[|name| - 1] in name && forall c :: c in shorter ==> c in name;
      assert (s + name)[..|s + name| - 1] == s + shorter;
      NameDrops(s, shorter);
    }
  }

  lemma {:induction false} MarksDrop(mark: string, name: string)
    requires IsMarkText(mark) && IsIdentifier(name)
    ensures UnmarkRight(UnmarkLeft(mark + (name + mark))) == name
  {
    assert name[0] in name && name[|name| - 1] in name;
    if mark == "" {
      assert mark + (name + mark) == name;
    } else {
      assert (mark + (name + mark))[1..] == name + mark;
      assert UnmarkLeft(name + mark) == name + mark;
      assert (name + mark)[..|name + mark| - 1] == name;
      assert UnmarkRight(name) == name;
    }
  }

  lemma {:induction false} MarkedName(mark: string, name: string)
    requires IsMarkText(mark) && IsIdentifier(name)
    ensures var m := mark + (name + mark);
            m != "" && !IsBlank(m[|m| - 1]) && forall c :: c in m ==> IsNameChar(c)
  {
    var m := mark + (name + mark);
    assert name[|name| - 1] in name;
    assert m[|m| - 1] == if mark == "" then name[|name| - 1] else mark[0];
  }

  lemma {:induction false} LeadEnds(before: string, lead: string)
    requires Blanks(lead) && EndsName(before)
    ensures var s := before + lead; s == "" || !IsNameChar(s[|s| - 1])
  {
    if lead != "" {
      assert lead[|lead| - 1] in lead;
    }
  }

  lemma {:induction false} NameAfter(before: string, lead: string, m: string, gap: string)
    requires m != "" && !IsBlank(m[|m| - 1]) && (forall c :: c in m ==> IsNameChar(c)) && Blanks(gap)
    requires var s := before + lead; s == "" || !IsNameChar(s[|s| - 1])
    ensures NameIn(before + (lead + (m + gap))) == UnmarkRight(UnmarkLeft(m))
  {
    var s := before + lead;
    assert before + (lead + (m + gap)) == (s + m) + gap;
    assert DropBlanks((s + m) + gap) == s + m by {
      assert (s + m)[|s + m| - 1] == m[|m| - 1];
      BlanksDrop(s + m, gap);
    }
    NameDrops(s, m);
    assert (s + m)[|s|..] == m;
  }

  lemma {:induction false} KeyIsNamed(before: string, lead: string, mark: string, name: string, gap: string)
    requires IsKey(lead, mark, name, gap) && EndsName(before)
    ensures Named(before + KeyText(lead, mark, name, gap)) == {name}
  {
    var m := mark + (name + mark);
    MarkedName(mark, name);
    LeadEnds(before, lead);
    NameAfter(before, lead, m, gap);
    MarksDrop(mark, name);
  }

  // ----- The top level -----

  lemma {:induction false} BlanksDropLocal(before: string, c: char, y: string)
    requires !IsBlank(c)
    ensures DropBlanks(before + ([c] + y)) == before + DropBlanks([c] + y) && DropBlanks([c] + y) != ""
    decreases |y|
  {
    var s := [c] + y;
    assert (before + s)[|before + s| - 1] == s[|s| - 1];
    if y != "" && IsBlank(y[|y| - 1]) {
      assert s[..|s| - 1] == [c] + y[..|y| - 1];
      assert (before + s)[..|before + s| - 1] == before + s[..|s| - 1];
      BlanksDropLocal(before, c, y[..|y| - 1]);
    }
  }

  lemma {:induction false} NameDropLocal(before: string, c: char, y: string)
    requires !IsNameChar(c)
    ensures DropName(before + ([c] + y)) == before + DropName([c] + y)
    decreases |y|
  {
    var s := [c] + y;
    assert (before + s)[|before + s| - 1] == s[|s| - 1];
    if y != "" && IsNameChar(y[|y| - 1]) {
      assert s[..|s| - 1] == [c] + y[..|y| - 1];
      assert (before + s)[..|before + s| - 1] == before + s[..|s| - 1];
      NameDropLocal(before, c, y[..|y| - 1]);
    }
  }

  /** What stands in front of a question mark does not change the name behind it. */
  lemma {:induction false} NameLocal(before: string, y: string)
    ensures NameIn(before + ("?" + y)) == NameIn("?" + y)
  {
    var s := "?" + y;
    BlanksDropLocal(before, '?', y);
    var t := DropBlanks(s);
    assert t[0] == '?' && t == ['?'] + t[1..];
    NameDropLocal(before, '?', t[1..]);
    assert (before + t)[|before + DropName(t)|..] == t[|DropName(t)|..];
  }

  /** A value at the top level gives the names in front of its conditionals' colons. */
  lemma {:induction false} ValueKeys(v: Value, before: string, s: string)
    requires WellFormed(v)
    ensures Keys(Out(1), before, PrintValue(v) + s) == Leaks(v) + Keys(Out(1), before + PrintValue(v), s)
    decreases v
  {
    match v
    case Both(first, second) =>
      var a, b := PrintValue(first), PrintValue(second);
      ValueKeys(first, before, b + s);
      ValueKeys(second, before + a, s);
      assert (a + b) + s == a + (b + s) && before + a + b == before + (a + b);
    case Cond(test, yes, no) =>
      var t, y, n := PrintValue(test), PrintValue(yes), PrintValue(no);
      ValueKeys(test, before, "?" + (y + (":" + (n + s))));
      ValueKeys(yes, before + t + "?", ":" + (n + s));
      ValueKeys(no, before + t + ("?" + y) + ":", s);
      CondKeys(before, t, y, n, s, Leaks(test), Leaks(yes), Leaks(no));
    case _ =>
      SimplePasses(v, 1);
      KeysPass(Out(1), before, PrintValue(v), Out(1), s);
  }

  /** A conditional, when its three parts give `inTest`, `inYes` and `inNo`. */
  lemma {:induction false} CondKeys(before: string, t: string, y: string, n: string, s: string,
                                    inTest: set<string>, inYes: set<string>, inNo: set<string>)
    requires var rest := "?" + (y + (":" + (n + s)));
             Keys(Out(1), before, t + rest) == inTest + Keys(Out(1), before + t, rest)
    requires var rest := ":" + (n + s);
             Keys(Out(1), before + t + "?", y + rest) == inYes + Keys(Out(1), before + t + "?" + y, rest)
    requires var read := before + t + ("?" + y) + ":";
             Keys(Out(1), read, n + s) == inNo + Keys(Out(1), read + n, s)
    ensures var p := t + (("?" + y) + (":" + n));
            Keys(Out(1), before, p + s) ==
            inTest + (inYes + (Named("?" + y) + inNo)) + Keys(Out(1), before + p, s)
  {
    QuestionPasses(before + t, y + (":" + (n + s)));
    ColonLeaks(before + t, y, n + s);
    CondRegroup(before, t, y, n, s);
  }

  lemma {:induction false} CondRegroup(before: string, t: string, y: string, n: string, s: string)
    ensures (t + (("?" + y) + (":" + n))) + s == t + ("?" + (y + (":" + (n + s))))
    ensures before + t + ("?" + y) + ":" + n == before + (t + (("?" + y) + (":" + n)))
    ensures before + t + "?" + y == before + t + ("?" + y)
  {
  }

  lemma {:induction false} QuestionPasses(before: string, rest: string)
    ensures Keys(Out(1), before, "?" + rest) == Keys(Out(1), before + "?", rest)
  {
    CharPasses(Step, IsKeyColon, Out(1), '?');
    KeysPass(Out(1), before, "?", Out(1), rest);
  }

  lemma {:induction false} ColonLeaks(before: string, y: string, rest: string)
    ensures Keys(Out(1), before + ("?" + y), ":" + rest) ==
            Named("?" + y) + Keys(Out(1), before + ("?" + y) + ":", rest)
  {
    NameLocal(before, y);
    assert (":" + rest)[1..] == rest;
  }

  /** A value with blanks around it. */
  lemma {:induction false} PaddedKeys(pre: string, v: Value, post: string, before: string, s: string)
    requires Blanks(pre) && WellFormed(v) && Blanks(post)
    ensures var p := pre + (PrintValue(v) + post);
            Keys(Out(1), before, p + s) == Leaks(v) + Keys(Out(1), before + p, s)
  {
    var t := PrintValue(v);
    PaddedRegroup(before, pre, t, post, s);
    BarePasses(1, pre);
    KeysPass(Out(1), before, pre, Out(1), t + (post + s));
    ValueKeys(v, before + pre, post + s);
    BarePasses(1, post);
    KeysPass(Out(1), before + pre + t, post, Out(1), s);
  }

  lemma {:induction false} PaddedRegroup(before: string, pre: string, t: string, post: string, s: string)
    ensures (pre + (t + post)) + s == pre + (t + (post + s))
    ensures before + pre + t + post == before + (pre + (t + post))
  {
  }

  /** One field adds its own key and what its value leaks. */
  lemma {:induction false} FieldKey(before: string, lead: string, mark: string, name: string, gap: string, rest: string)
    requires IsKey(lead, mark, name, gap) && EndsName(before)
    ensures var k := KeyText(lead, mark, name, gap);
            Keys(Out(1), before, k + (":" + rest)) == {name} + Keys(Out(1), before + k + ":", rest)
  {
    var k := KeyText(lead, mark, name, gap);
    KeyPasses(1, lead, mark, name, gap);
    KeysPass(Out(1), before, k, Out(1), ":" + rest);
    KeyIsNamed(before, lead, mark, name, gap);
    assert (":" + rest)[1..] == rest;
  }

  lemma {:induction false} Regroup(k: string, v: string, comma: string, t: string)
    ensures (k + (":" + (v + (comma + t)))) + "}" == k + (":" + (v + (comma + (t + "}"))))
    ensures (v + (comma + t)) + "}" == v + (comma + (t + "}"))
  {
  }

  lemma {:induction false} EndKeys(before: string, end: string)
    requires IsEnd(end)
    ensures Keys(Out(1), before, end + "}") == {}
  {
    EndPasses(1, end);
    KeysPass(Out(1), before, end, Out(1), "}");
    assert "}"[1..] == "";
  }

  /** What stands behind a field, its separator first. */
  lemma {:induction false} TailKeys(tail: Fields, read: string)
    requires WellFormedFields(tail)
    ensures Keys(Out(1), read, Separator(tail) + (PrintFields(tail) + "}")) == KeySet(tail) + LeakedKeys(tail)
    decreases tail, 1
  {
    var s := PrintFields(tail) + "}";
    if tail.NoFields? {
      EndKeys(read, tail.end);
      assert Separator(tail) + s == s;
    } else {
      CharPasses(Step, IsKeyColon, Out(1), ',');
      KeysPass(Out(1), read, ",", Out(1), s);
      FieldsKeys(tail, read + ",");
    }
  }

  lemma {:induction false} FieldsKeys(fields: Fields, before: string)
    requires WellFormedFields(fields) && EndsName(before)
    ensures Keys(Out(1), before, PrintFields(fields) + "}") == KeySet(fields) + LeakedKeys(fields)
    decreases fields, 0
  {
    match fields
    case NoFields(end) => EndKeys(before, end);
    case Field(lead, mark, name, gap, pre, value, post, tail) =>
      var k := KeyText(lead, mark, name, gap);
      var v := pre + (PrintValue(value) + post);
      var rest := Separator(tail) + (PrintFields(tail) + "}");
      Regroup(k, v, Separator(tail), PrintFields(tail));
      FieldKey(before, lead, mark, name, gap, v + rest);
      PaddedKeys(pre, value, post, before + k + ":", rest);
      TailKeys(tail, before + k + ":" + v);
    case Shorthand(lead, name, post, tail) =>
      var v := lead + (name + post);
      ShorthandPasses(1, lead, name, post);
      Regroup("", v, Separator(tail), PrintFields(tail));
      KeysPass(Out(1), before, v, Out(1), Separator(tail) + (PrintFields(tail) + "}"));
      TailKeys(tail, before + v);
  }

  /** Every well-formed literal, with its braces or without them: exactly its top-level keys
      with a colon, and the names in front of the colons of its conditionals. */
  lemma {:induction false} KeysOfLiteral(fields: Fields)
    requires WellFormedFields(fields)
    ensures TopKeys("{" + (PrintFields(fields) + "}")) == KeySet(fields) + LeakedKeys(fields)
    ensures TopKeys(PrintFields(fields)) == KeySet(fields) + LeakedKeys(fields)
  {
    var body := "{" + (PrintFields(fields) + "}");
    assert Keys(Out(0), "", body) == KeySet(fields) + LeakedKeys(fields) by {
      assert body[1..] == PrintFields(fields) + "}";
      assert "" + "{" == "{";
      FieldsKeys(fields, "{");
    }
    assert Braced(body) == body by { BracesStay(body); }
    NotBraced(fields);
    assert "{" + PrintFields(fields) + "}" == body;
  }

  /** So the keys are found exactly when each that is written without a colon also stands in
      front of one, and each name in front of a conditional's colon is also a key. */
  lemma {:induction false} AllKeysIff(fields: Fields)
    requires WellFormedFields(fields)
    ensures TopKeys("{" + (PrintFields(fields) + "}")) == KeySet(fields) + Shorthands(fields) <==>
            && Shorthands(fields) <= KeySet(fields) + LeakedKeys(fields)
            && LeakedKeys(fields) <= KeySet(fields) + Shorthands(fields)
  {
    KeysOfLiteral(fields);
  }

  /** A key that is missed and a name that is not a key. */
  lemma {:induction false} KeyMissedNameTaken(body: string)
    requires body == "{a,b:c?d:e}"
    ensures TopKeys(body) == {"b", "d"}
  {
    var value := Cond(Bare("c"), Bare("d"), Bare("e"));
    var last := Field("", "", "b", "", "", value, "", NoFields(""));
    var fields := Shorthand("", "a", "", last);
    ExampleText(value, last);
    ExampleKeys(value, last);
    KeysOfLiteral(fields);
    assert "{" + (PrintFields(fields) + "}") == body;
  }

  lemma {:induction false} ExampleKeys(value: Value, last: Fields)
    requires value == Cond(Bare("c"), Bare("d"), Bare("e"))
    requires last == Field("", "", "b", "", "", value, "", NoFields(""))
    ensures var fields := Shorthand("", "a", "", last);
            WellFormedFields(fields) && KeySet(fields) + LeakedKeys(fields) == {"b", "d"}
  {
    ExampleLeaks(value);
    OneField("a", "b", value);
    assert WellFormed(value);
  }

  lemma {:induction false} OneField(a: string, b: string, value: Value)
    requires WellFormed(value) && IsIdentifier(a) && IsIdentifier(b)
    ensures var fields := Shorthand("", a, "", Field("", "", b, "", "", value, "", NoFields("")));
            WellFormedFields(fields) && KeySet(fields) == {b} && LeakedKeys(fields) == Leaks(value)
  {
    var end := NoFields("");
    var last := Field("", "", b, "", "", value, "", end);
    assert WellFormedFields(end) && KeySet(end) == {} && LeakedKeys(end) == {};
    assert WellFormedFields(last) && KeySet(last) == {b} && LeakedKeys(last) == Leaks(value);
  }

  lemma {:induction false} ExampleText(value: Value, last: Fields)
    requires value == Cond(Bare("c"), Bare("d"), Bare("e"))
    requires last == Field("", "", "b", "", "", value, "", NoFields(""))
    ensures "{" + (PrintFields(Shorthand("", "a", "", last)) + "}") == "{a,b:c?d:e}"
  {
    assert PrintValue(value) == "c?d:e" by { assert "c" + (("?" + "d") + (":" + "e")) == "c?d:e"; }
    assert KeyText("", "", "b", "") == "b";
    assert PrintFields(last) == "b:c?d:e" by { assert "b" + (":" + (("" + ("c?d:e" + "")) + ("" + ""))) == "b:c?d:e"; }
    assert ("" + ("a" + "")) + ("," + "b:c?d:e") == "a,b:c?d:e";
    assert "{" + ("a,b:c?d:e" + "}") == "{a,b:c?d:e}";
  }

  lemma {:induction false} ExampleLeaks(value: Value)
    requires value == Cond(Bare("c"), Bare("d"), Bare("e"))
    ensures Leaks(value) == {"d"}
  {
    assert DropBlanks("?" + "d") == "?d" && "?d"[..1] == "?" && "?d"[1..] == "d";
    assert DropName("?d") == "?";
    assert UnmarkRight(UnmarkLeft("d")) == "d";
  }

  lemma {:induction false} BracesStay(body: string)
    requires body != "" && body[0] == '{' && body[|body| - 1] == '}'
    ensures Strip(body) == body
  {
    assert StripLeft(body) == body;
  }

  lemma {:induction false} StripFirst(s: string)
    requires StripRight(s) != ""
    ensures s != "" && StripRight(s)[0] == s[0]
  {
    if s != "" && IsSpace(s[|s| - 1]) {
      StripFirst(s[..|s| - 1]);
    }
  }

  lemma {:induction false} LeadStrips(lead: string, s: string)
    requires Blanks(lead) && s != "" && !IsSpace(s[0])
    ensures StripLeft(lead + s) == s
  {
    if lead == "" {
      assert lead + s == s;
    } else {
      assert lead[0] in lead && forall c :: c in lead[1..] ==> c in lead;
      assert (lead + s)[1..] == lead[1..] + s;
      LeadStrips(lead[1..], s);
    }
  }

  /** What begins with blanks and then a character of a name does not look like an object. */
  lemma {:induction false} NameNotBraced(lead: string, m: string, rest: string)
    requires Blanks(lead) && m != "" && IsNameChar(m[0])
    ensures Braced(lead + (m + rest)) == "{" + (lead + (m + rest)) + "}"
  {
    var s := m + rest;
    assert s[0] == m[0];
    LeadStrips(lead, s);
    if StripRight(s) != "" {
      StripFirst(s);
    }
  }

  lemma {:induction false} LeftWithin(s: string)
    ensures forall c :: c in StripLeft(s) ==> c in s
  {
    if s != "" && IsSpace(s[0]) {
      LeftWithin(s[1..]);
    }
  }

  lemma {:induction false} RightWithin(s: string)
    ensures forall c :: c in StripRight(s) ==> c in s
  {
    if s != "" && IsSpace(s[|s| - 1]) {
      RightWithin(s[..|s| - 1]);
    }
  }

  lemma {:induction false} EndNotBraced(end: string)
    requires IsEnd(end)
    ensures Braced(end) == "{" + end + "}"
  {
    LeftWithin(end);
    RightWithin(StripLeft(end));
    if !Blanks(end) {
      assert forall c :: c in end ==> c == ',' || c in end[1..];
    }
    assert forall c :: c in end ==> c != '{';
    var t := Strip(end);
    assert t != "" ==> t[0] in t;
  }

  /** Fields without their braces do not look like an object. */
  lemma {:induction false} NotBraced(fields: Fields)
    requires WellFormedFields(fields)
    ensures Braced(PrintFields(fields)) == "{" + PrintFields(fields) + "}"
  {
    match fields
    case NoFields(end) => EndNotBraced(end);
    case Field(lead, mark, name, gap, pre, value, post, tail) =>
      var rest := ":" + ((pre + (PrintValue(value) + post)) + (Separator(tail) + PrintFields(tail)));
      var m := mark + (name + mark);
      assert PrintFields(fields) == lead + (m + (gap + rest));
      assert IsNameChar(m[0]) by {
        MarkedName(mark, name);
        assert m[0] in m;
      }
      NameNotBraced(lead, m, gap + rest);
    case Shorthand(lead, name, post, tail) =>
      var rest := Separator(tail) + PrintFields(tail);
      assert PrintFields(fields) == lead + (name + (post + rest));
      assert name[0] in name;
      NameNotBraced(lead, name, post + rest);
  }
}
