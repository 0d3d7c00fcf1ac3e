/** Exactly which printed argument lists `split_top_level` reads back. */
module CallReading {
  import opened Strings
  import opened Splitting
  import opened CallArity
  import opened CallArityLaws

  // ----- What is read has no comment -----

  lemma {:induction false} CutClean(line: string)
    ensures NoComment(Cut(line)) && (Cut(line) != "" ==> line != "" && Cut(line)[0] == line[0])
  {
    if |line| >= 2 && !(line[0] == '/' && line[1] == '/') {
      CutClean(line[1..]);
      assert Cut(line)[1..] == Cut(line[1..]);
    }
  }

  lemma {:induction false} JoinClean(lines: seq<string>)
    ensures NoComment(Join(CutAll(lines), "\n"))
  {
    if lines != [] {
      CutClean(lines[0]);
      JoinClean(lines[1..]);
      if |lines| > 1 {
        var rest := Join(CutAll(lines[1..]), "\n");
        assert CutAll(lines)[1..] == CutAll(lines[1..]);
        assert ("\n" + rest)[1..] == rest;
        NoCommentBoth(Cut(lines[0]), "\n" + rest);
      }
    }
  }

  lemma {:induction false} NoCommentParts(a: string, b: string)
    requires NoComment(a + b)
    ensures NoComment(a) && NoComment(b)
    decreases |a|
  {
    if a == "" {
      assert a + b == b;
    } else {
      assert (a + b)[1..] == a[1..] + b;
      NoCommentParts(a[1..], b);
    }
  }

  lemma {:induction false} StripClean(s: string)
    requires NoComment(s)
    ensures NoComment(Strip(s))
  {
    StripLeftClean(s);
    StripRightClean(StripLeft(s));
  }

  lemma {:induction false} StripLeftClean(s: string)
    requires NoComment(s)
    ensures NoComment(StripLeft(s))
  {
    if s != "" && IsSpace(s[0]) {
      assert s == [s[0]] + s[1..];
      NoCommentParts([s[0]], s[1..]);
      StripLeftClean(s[1..]);
    }
  }

  lemma {:induction false} StripRightClean(s: string)
    requires NoComment(s)
    ensures NoComment(StripRight(s))
  {
    if s != "" && IsSpace(s[|s| - 1]) {
      assert s == s[..|s| - 1] + s[|s| - 1..];
      NoCommentParts(s[..|s| - 1], s[|s| - 1..]);
      StripRightClean(s[..|s| - 1]);
    }
  }

  lemma {:induction false} KeptClean(pieces: seq<string>, a: string)
    requires NoComment(Join(pieces, ",")) && a in Kept(pieces)
    ensures NoComment(a)
    decreases |pieces|
  {
    if |pieces| > 1 {
      NoCommentParts(pieces[0], "," + Join(pieces[1..], ","));
      NoCommentParts(",", Join(pieces[1..], ","));
    }
    if a == Strip(pieces[0]) {
      StripClean(pieces[0]);
    } else {
      KeptClean(pieces[1..], a);
    }
  }

  // ----- What is read does not split -----

  lemma {:induction false} NoTopCommaBoth(st: Scan, a: string, b: string)
    ensures NoTopComma(st, a + b) <==> NoTopComma(st, a) && NoTopComma(After(Joint, st, a), b)
    decreases |a|
  {
    if a == "" {
      assert a + b == b;
    } else {
      assert (a + b)[1..] == a[1..] + b;
      NoTopCommaBoth(Step(Joint, st, a[0]), a[1..], b);
    }
  }

  /** Every piece begins outside, so no piece splits again. */
  lemma {:induction false} PiecesWhole(st: Scan, cur: string, s: string, p: string)
    requires NoTopComma(OUTSIDE, cur) && After(Joint, OUTSIDE, cur) == st && p in Pieces(st, cur, s)
    ensures NoTopComma(OUTSIDE, p)
    decreases |s|
  {
    if s != "" {
      if Splits(st, s[0]) {
        if p != cur {
          PiecesWhole(st, "", s[1..], p);
        }
      } else {
        NoTopCommaBoth(OUTSIDE, cur, [s[0]]);
        AfterBoth(Joint, OUTSIDE, cur, [s[0]]);
        assert [s[0]][1..] == "";
        PiecesWhole(Step(Joint, st, s[0]), cur + [s[0]], s[1..], p);
      }
    }
  }

  lemma {:induction false} StripWhole(s: string)
    requires NoTopComma(OUTSIDE, s)
    ensures NoTopComma(OUTSIDE, Strip(s))
  {
    StripLeftWhole(s);
    StripRightWhole(StripLeft(s));
  }

  lemma {:induction false} StripLeftWhole(s: string)
    requires NoTopComma(OUTSIDE, s)
    ensures NoTopComma(OUTSIDE, StripLeft(s))
  {
    if s != "" && IsSpace(s[0]) {
      StripLeftWhole(s[1..]);
    }
  }

  lemma {:induction false} StripRightWhole(s: string)
    requires NoTopComma(OUTSIDE, s)
    ensures NoTopComma(OUTSIDE, StripRight(s))
  {
    if s != "" && IsSpace(s[|s| - 1]) {
      assert s == s[..|s| - 1] + s[|s| - 1..];
      NoTopCommaBoth(OUTSIDE, s[..|s| - 1], s[|s| - 1..]);
      StripRightWhole(s[..|s| - 1]);
    }
  }

  lemma {:induction false} KeptMember(pieces: seq<string>, a: string) returns (p: string)
    requires a in Kept(pieces)
    ensures p in pieces && a == Strip(p)
    decreases |pieces|
  {
    if a == Strip(pieces[0]) {
      p := pieces[0];
    } else {
      p := KeptMember(pieces[1..], a);
    }
  }

  // ----- What is read ends where the next begins -----

  lemma {:induction false} FirstPiece(st: Scan, cur: string, s: string)
    ensures cur <= Pieces(st, cur, s)[0]
    decreases |s|
  {
    if s != "" && !Splits(st, s[0]) {
      FirstPiece(Step(Joint, st, s[0]), cur + [s[0]], s[1..]);
    }
  }

  lemma {:induction false} StripRightKeeps(s: string, n: nat)
    requires 0 < n <= |s| && !IsSpace(s[n - 1])
    ensures n <= |StripRight(s)|
    decreases |s|
  {
    if IsSpace(s[|s| - 1]) {
      StripRightKeeps(s[..|s| - 1], n);
    }
  }

  /** A piece that goes on behind its comma is not the argument in front of it. */
  lemma {:induction false} LongerThan(lead: string, a: string, p: string)
    requires Trimmed(a) && (lead == "" || lead == " ") && lead + a + "," <= p
    ensures |a| < |Strip(p)|
  {
    var more := p[|lead| + |a| + 1..];
    var s := a + ("," + more);
    assert p == lead + s;
    assert StripLeft(s) == s;
    if lead == " " {
      assert p[1..] == s;
    } else {
      assert p == s;
    }
    assert s[|a|] == ',';
    StripRightKeeps(s, |a| + 1);
  }

  lemma {:induction false} ReadEnds(args: seq<string>, lead: string, i: nat)
    requires AllTrimmed(args) && (lead == "" || lead == " ") && i < |args| - 1
    requires forall j :: 0 <= j < |args| ==> NoTopComma(OUTSIDE, args[j])
    requires Kept(Pieces(OUTSIDE, lead, Print(args))) == args
    ensures After(Joint, OUTSIDE, args[i]) == OUTSIDE
    decreases |args|
  {
    if After(Joint, OUTSIDE, args[0]) != OUTSIDE {
      NotRead(args, lead);
    } else if i > 0 {
      ReadOn(args, lead);
      assert args == [args[0]] + args[1..];
      ReadEnds(args[1..], " ", i - 1);
    }
  }

  /** The first argument is read and the others follow. */
  lemma {:induction false} ReadOn(args: seq<string>, lead: string)
    requires |args| > 1 && Trimmed(args[0]) && (lead == "" || lead == " ")
    requires NoTopComma(OUTSIDE, args[0]) && After(Joint, OUTSIDE, args[0]) == OUTSIDE
    ensures Kept(Pieces(OUTSIDE, lead, Print(args))) == [args[0]] + Kept(Pieces(OUTSIDE, " ", Print(args[1..])))
  {
    var a, rest := args[0], Print(args[1..]);
    PiecesPass(OUTSIDE, lead, a, ", " + rest);
    CommaSplits(lead + a, rest);
    KeepFirst(lead + a, Pieces(OUTSIDE, " ", rest));
    StripOne(a);
    assert "" + a == a && Strip(lead + a) == a;
  }

  lemma {:induction false} NotRead(args: seq<string>, lead: string)
    requires |args| > 1 && Trimmed(args[0]) && (lead == "" || lead == " ")
    requires NoTopComma(OUTSIDE, args[0]) && After(Joint, OUTSIDE, args[0]) != OUTSIDE
    ensures Kept(Pieces(OUTSIDE, lead, Print(args))) != args
  {
    var a, rest := args[0], Print(args[1..]);
    PiecesPass(OUTSIDE, lead, a, ", " + rest);
    GoesOn(After(Joint, OUTSIDE, a), lead, a, rest);
    var pieces := Pieces(OUTSIDE, lead, Print(args));
    KeepFirst(pieces[0], pieces[1..]);
    assert pieces == [pieces[0]] + pieces[1..];
    assert Kept(pieces)[0] == Strip(pieces[0]);
  }

  /** Not outside, the comma does not split. */
  lemma {:induction false} GoesOn(st: Scan, lead: string, a: string, rest: string)
    requires st != OUTSIDE && Trimmed(a) && (lead == "" || lead == " ")
    ensures |a| < |Strip(Pieces(st, lead + a, ", " + rest)[0])|
  {
    assert !Splits(st, ',');
    assert (", " + rest)[1..] == " " + rest && (", " + rest)[0] == ',';
    var next := Pieces(Step(Joint, st, ','), lead + a + ",", " " + rest);
    assert lead + a + [','] == lead + a + ",";
    FirstPiece(Step(Joint, st, ','), lead + a + ",", " " + rest);
    LongerThan(lead, a, next[0]);
  }

  // ----- The exact conditions -----

  lemma {:induction false} ReadHasNoComments(args: seq<string>)
    requires Arguments(Print(args)) == args
    ensures NoComments(args)
  {
    var text := StripComments(Print(args));
    JoinClean(Split(Print(args), '\n'));
    PiecesConserve(OUTSIDE, "", text);
    assert "" + text == text;
    forall i | 0 <= i < |args| ensures NoComment(args[i]) {
      assert args[i] in args;
      KeptClean(Pieces(OUTSIDE, "", text), args[i]);
    }
  }

  lemma {:induction false} ReadDoesNotSplit(text: string, a: string)
    requires a in Kept(Pieces(OUTSIDE, "", text))
    ensures NoTopComma(OUTSIDE, a)
  {
    var p := KeptMember(Pieces(OUTSIDE, "", text), a);
    PiecesWhole(OUTSIDE, "", text, p);
    StripWhole(p);
  }

  /** A printed list of trimmed arguments is read back as that list exactly when no
      argument holds a `//`, none has a comma outside strings at joint depth zero, and
      each but the last leaves strings and joint depth as it found them. */
  lemma {:induction false} ReadBackIff(args: seq<string>)
    requires args != [] && AllTrimmed(args)
    ensures Arguments(Print(args)) == args <==> NoComments(args) && Separable(args)
  {
    if Arguments(Print(args)) == args {
      ReadHasNoComments(args);
      PrintNoComment(args);
      StripKeeps(Print(args));
      forall i | 0 <= i < |args| ensures NoTopComma(OUTSIDE, args[i]) {
        assert args[i] in args;
        ReadDoesNotSplit(Print(args), args[i]);
      }
      forall i | 0 <= i < |args| - 1 ensures After(Joint, OUTSIDE, args[i]) == OUTSIDE {
        ReadEnds(args, "", i);
      }
    } else if NoComments(args) && Separable(args) {
      PrintNoComment(args);
      StripKeeps(Print(args));
      KeptPieces(args, "");
    }
  }

  /** The whole path the check takes over a printed call: `balanced`, then `split_top_level`. */
  lemma {:induction false} CallReadIff(args: seq<string>, rest: string)
    requires args != [] && AllTrimmed(args)
    ensures var text := Print(args);
            Contents("(" + (text + (")" + rest)), 1) == text && Arguments(text) == args <==>
            && NoComments(args) && Separable(args)
            && NoClosing(INSIDE, text) && After(Parens, INSIDE, text) == INSIDE
  {
    ReadBackIff(args);
    ContentsIff(Print(args), rest);
  }

  // ----- Lists that are not read back -----

  /** An arrow lowers the joint depth below zero, and the comma behind it is not seen. */
  lemma {:induction false} ArrowHidesComma()
    ensures Arguments(Print(["a->b", "c"])) != ["a->b", "c"]
  {
    var args := ["a->b", "c"];
    ArrowDepth();
    assert args[0] == "a->b" && args[1] == "c";
    assert !Separable(args);
    ReadBackIff(args);
  }

  lemma {:induction false} ArrowReadsAsOne()
    ensures Arguments("a->b,c") == ["a->b,c"]
  {
    var one := ["a->b,c"];
    ArrowNoComma();
    assert one[0] == "a->b,c" && Print(one) == "a->b,c";
    assert NoComment("a->b,c");
    ReadBackIff(one);
  }

  lemma {:induction false} ArrowDepth()
    ensures After(Joint, OUTSIDE, "a->b") == Scan(-1, false, false)
  {
    assert "a->b"[1..] == "->b" && "->b"[1..] == ">b" && ">b"[1..] == "b" && "b"[1..] == "";
    assert After(Joint, Scan(-1, false, false), "b") == Scan(-1, false, false);
    assert After(Joint, OUTSIDE, ">b") == Scan(-1, false, false);
  }

  lemma {:induction false} ArrowNoComma()
    ensures NoTopComma(OUTSIDE, "a->b,c")
  {
    assert "a->b,c"[1..] == "->b,c" && "->b,c"[1..] == ">b,c" && ">b,c"[1..] == "b,c" && "b,c"[1..] == ",c" && ",c"[1..] == "c";
    assert NoTopComma(Scan(-1, false, false), ",c");
    assert NoTopComma(Scan(-1, false, false), "b,c");
    assert NoTopComma(OUTSIDE, ">b,c");
  }

  lemma {:induction false} CommentInside(a: string, b: string)
    requires !NoComment(b)
    ensures !NoComment(a + b)
  {
    if NoComment(a + b) {
      NoCommentParts(a, b);
    }
  }

  /** A `//` inside a string is cut like a comment. */
  lemma {:induction false} AddressIsCut()
    ensures Arguments(Print(["\"http://x\""])) != ["\"http://x\""]
  {
    var a := "\"http://x\"";
    assert a == "\"http:" + "//x\"";
    assert !NoComment("//x\"");
    CommentInside("\"http:", "//x\"");
    assert [a][0] == a;
    ReadBackIff([a]);
  }
}
