/** `balanced` and `split_top_level` undo the printing of an argument list. */
module CallArityLaws {
  import opened Strings
  import opened Splitting
  import opened CallArity

  // ----- What the two scans find -----

  /** No comma of `s` splits, scanned from `st`. */
  predicate NoTopComma(st: Scan, s: string)
    decreases |s|
  {
    s == "" || (!Splits(st, s[0]) && NoTopComma(Step(Joint, st, s[0]), s[1..]))
  }

  /** No parenthesis of `s` closes, scanned from `st`. */
  predicate NoClosing(st: Scan, s: string)
    decreases |s|
  {
    s == "" || (!Closes(st, s[0]) && NoClosing(Step(Parens, st, s[0]), s[1..]))
  }

  /** The scan passes over text that does not close. */
  lemma {:induction false} ClosingPasses(st: Scan, a: string, s: string, n: nat)
    requires NoClosing(st, a)
    ensures ClosingAt(st, a + s, n) == ClosingAt(After(Parens, st, a), s, n + |a|)
    decreases |a|
  {
    if a == "" {
      assert a + s == s;
    } else {
      assert (a + s)[1..] == a[1..] + s;
      ClosingPasses(Step(Parens, st, a[0]), a[1..], s, n + 1);
    }
  }

  /** The scan stops at the first closing parenthesis, and nowhere exactly when there is none. */
  lemma {:induction false} ClosingIsFirst(st: Scan, s: string, n: nat)
    ensures match ClosingAt(st, s, n)
            case None => NoClosing(st, s)
            case Some(k) =>
              NoClosing(st, s[..k - n]) && Closes(After(Parens, st, s[..k - n]), s[k - n])
    decreases |s|
  {
    if s != "" && !Closes(st, s[0]) {
      ClosingIsFirst(Step(Parens, st, s[0]), s[1..], n + 1);
      var r := ClosingAt(st, s, n);
      if r.Some? {
        assert s[..r.value - n][1..] == s[1..][..r.value - n - 1];
      }
    }
  }

  lemma {:induction false} PiecesPass(st: Scan, cur: string, a: string, s: string)
    requires NoTopComma(st, a)
    ensures Pieces(st, cur, a + s) == Pieces(After(Joint, st, a), cur + a, s)
    decreases |a|
  {
    if a == "" {
      assert a + s == s && cur + a == cur;
    } else {
      assert (a + s)[1..] == a[1..] + s;
      assert cur + [a[0]] + a[1..] == cur + a;
      PiecesPass(Step(Joint, st, a[0]), cur + [a[0]], a[1..], s);
    }
  }

  /** Nothing is lost: the raw pieces joined again are the text. */
  lemma {:induction false} PiecesConserve(st: Scan, cur: string, s: string)
    ensures Join(Pieces(st, cur, s), ",") == cur + s
    decreases |s|
  {
    if s == "" {
      assert cur + s == cur;
    } else if Splits(st, s[0]) {
      var rest := Pieces(st, "", s[1..]);
      PiecesConserve(st, "", s[1..]);
      assert ([cur] + rest)[1..] == rest;
      assert cur + ("," + ("" + s[1..])) == cur + s;
    } else {
      PiecesConserve(Step(Joint, st, s[0]), cur + [s[0]], s[1..]);
      assert cur + [s[0]] + s[1..] == cur + s;
    }
  }

  // ----- Printing and reading back -----

  predicate Trimmed(s: string) { s != "" && !IsSpace(s[0]) && !IsSpace(s[|s| - 1]) }

  /** Reads as one argument: its brackets and strings close, and no comma is outside them. */
  predicate IsArgument(a: string) {
    && Trimmed(a) && NoComment(a)
    && NoTopComma(OUTSIDE, a) && After(Joint, OUTSIDE, a) == OUTSIDE
    && NoClosing(INSIDE, a) && After(Parens, INSIDE, a) == INSIDE
  }

  predicate AreArguments(args: seq<string>) {
    forall i :: 0 <= i < |args| ==> IsArgument(args[i])
  }

  predicate AllTrimmed(args: seq<string>) { forall i :: 0 <= i < |args| ==> Trimmed(args[i]) }

  predicate NoComments(args: seq<string>) { forall i :: 0 <= i < |args| ==> NoComment(args[i]) }

  /** No argument splits, and each but the last leaves the scan where it began. */
  predicate Separable(args: seq<string>) {
    forall i :: 0 <= i < |args| ==>
      NoTopComma(OUTSIDE, args[i]) && (i < |args| - 1 ==> After(Joint, OUTSIDE, args[i]) == OUTSIDE)
  }

  function Print(args: seq<string>): string { Join(args, ", ") }

  lemma {:induction false} StripOne(a: string)
    requires Trimmed(a)
    ensures Strip(a) == a && Strip(" " + a) == a
  {
    assert (" " + a)[1..] == a;
    assert StripLeft(a) == a;
  }

  lemma {:induction false} NoCommentBoth(a: string, b: string)
    requires NoComment(a) && NoComment(b) && (b != "" ==> b[0] != '/')
    ensures NoComment(a + b)
    decreases |a|
  {
    if a == "" {
      assert a + b == b;
    } else {
      assert (a + b)[1..] == a[1..] + b;
      NoCommentBoth(a[1..], b);
    }
  }

  lemma {:induction false} PrintNoComment(args: seq<string>)
    requires NoComments(args)
    ensures NoComment(Print(args))
  {
    if |args| == 1 {
      assert args[0] == Print(args);
    } else if args != [] {
      PrintNoComment(args[1..]);
      var rest := Print(args[1..]);
      assert (", " + rest)[1..] == " " + rest && (" " + rest)[1..] == rest;
      assert NoComment(" " + rest);
      NoCommentBoth(args[0], ", " + rest);
    }
  }

  lemma {:induction false} KeepFirst(p: string, pieces: seq<string>)
    ensures Kept([p] + pieces) == (if Strip(p) == "" then [] else [Strip(p)]) + Kept(pieces)
  {
    assert ([p] + pieces)[1..] == pieces;
  }

  lemma {:induction false} CommaSplits(cur: string, rest: string)
    ensures Pieces(OUTSIDE, cur, ", " + rest) == [cur] + Pieces(OUTSIDE, " ", rest)
  {
    assert (", " + rest)[1..] == " " + rest && (" " + rest)[1..] == rest;
    assert "" + " " == " ";
  }

  /** Scanning a printed list, with a space or nothing in front, gives the list. */
  lemma {:induction false} KeptPieces(args: seq<string>, lead: string)
    requires args != [] && AllTrimmed(args) && Separable(args) && (lead == "" || lead == " ")
    ensures Kept(Pieces(OUTSIDE, lead, Print(args))) == args
    decreases |args|
  {
    var a := args[0];
    assert Strip(lead + a) == a by {
      StripOne(a);
      assert "" + a == a;
    }
    if |args| == 1 {
      PiecesPass(OUTSIDE, lead, a, "");
      assert a + "" == a;
      KeepFirst(lead + a, []);
      assert args == [a];
    } else {
      var rest := Print(args[1..]);
      PiecesPass(OUTSIDE, lead, a, ", " + rest);
      CommaSplits(lead + a, rest);
      KeepFirst(lead + a, Pieces(OUTSIDE, " ", rest));
      KeptPieces(args[1..], " ");
      assert args == [a] + args[1..];
    }
  }

  lemma {:induction false} NoClosingBoth(st: Scan, a: string, b: string)
    requires NoClosing(st, a) && NoClosing(After(Parens, st, a), b)
    ensures NoClosing(st, a + b)
    decreases |a|
  {
    if a == "" {
      assert a + b == b;
    } else {
      assert (a + b)[1..] == a[1..] + b;
      NoClosingBoth(Step(Parens, st, a[0]), a[1..], b);
    }
  }

  lemma {:induction false} PrintStaysInside(args: seq<string>)
    requires AreArguments(args)
    ensures NoClosing(INSIDE, Print(args)) && After(Parens, INSIDE, Print(args)) == INSIDE
  {
    if |args| == 1 {
      assert args[0] == Print(args);
    } else if args != [] {
      PrintStaysInside(args[1..]);
      var rest := Print(args[1..]);
      assert (", " + rest)[1..] == " " + rest && (" " + rest)[1..] == rest;
      assert NoClosing(INSIDE, " " + rest) && After(Parens, INSIDE, " " + rest) == INSIDE;
      assert NoClosing(INSIDE, ", " + rest) && After(Parens, INSIDE, ", " + rest) == INSIDE;
      NoClosingBoth(INSIDE, args[0], ", " + rest);
      AfterBoth(Parens, INSIDE, args[0], ", " + rest);
    }
  }

  /** `balanced` returns what stands between the parentheses exactly when nothing in it
      closes and the scan is inside, outside strings, at its end. */
  lemma {:induction false} ContentsIff(inner: string, rest: string)
    ensures Contents("(" + (inner + (")" + rest)), 1) == inner <==>
            NoClosing(INSIDE, inner) && After(Parens, INSIDE, inner) == INSIDE
  {
    var text, tail := "(" + (inner + (")" + rest)), ")" + rest;
    assert text[1..] == inner + tail;
    ClosingBySuffix(INSIDE, text, 1);
    if NoClosing(INSIDE, inner) {
      ClosingPasses(INSIDE, inner, tail, 1);
      assert text[1..1 + |inner|] == inner;
    } else {
      ClosesWithin(INSIDE, inner, tail, 1);
    }
  }

  lemma {:induction false} ClosesWithin(st: Scan, a: string, s: string, n: nat)
    requires !NoClosing(st, a)
    ensures ClosingAt(st, a + s, n).Some? && ClosingAt(st, a + s, n).value < n + |a|
    decreases |a|
  {
    assert (a + s)[1..] == a[1..] + s;
    if !Closes(st, a[0]) {
      ClosesWithin(Step(Parens, st, a[0]), a[1..], s, n + 1);
    }
  }

  /** The round trip: a printed call, whatever follows it, gives its arguments back. */
  lemma {:induction false} CallRoundTrip(args: seq<string>, rest: string)
    requires AreArguments(args)
    ensures Contents("(" + (Print(args) + (")" + rest)), 1) == Print(args)
    ensures Arguments(Print(args)) == args
  {
    PrintStaysInside(args);
    ContentsIff(Print(args), rest);
    PrintNoComment(args);
    StripKeeps(Print(args));
    if args != [] {
      KeptPieces(args, "");
    } else {
      assert Strip("") == "";
      KeepFirst("", []);
    }
  }
}
