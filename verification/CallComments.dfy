/**
 A call written with one argument to a line and a comment behind each. For
 `split_top_level` the comments count for nothing, whatever they say; but `balanced`
 reads the call first and knows no comments, so a parenthesis or a quotation mark in
 one can end the call early or not at all.
 */
module CallComments {
  import opened Splitting
  import opened CallArity
  import opened CallArityLaws

  /** Arguments and comments that fit on lines. */
  predicate OnLines(args: seq<string>, comments: seq<string>) {
    && |args| == |comments| && AreArguments(args)
    && forall i :: 0 <= i < |args| ==> '\n' !in args[i] && '\n' !in comments[i]
  }

  function Lines(args: seq<string>, comments: seq<string>): (r: seq<string>)
    requires |args| == |comments|
    ensures |r| == |args|
  {
    if args == [] then [] else [args[0] + ", " + ("//" + comments[0])] + Lines(args[1..], comments[1..])
  }

  /** The lines without their comments. */
  function Bare(args: seq<string>): seq<string> {
    if args == [] then [] else [args[0] + ", "] + Bare(args[1..])
  }

  lemma {:induction false} CutAt(p: string, c: string)
    requires NoComment(p) && (p != "" ==> p[|p| - 1] != '/')
    ensures Cut(p + ("//" + c)) == p
  {
    var line := p + ("//" + c);
    if p == "" {
      assert line == "//" + c;
    } else {
      assert line[1..] == p[1..] + ("//" + c);
      CutAt(p[1..], c);
      assert line[0] == p[0] && (|p| > 1 ==> line[1] == p[1]);
      assert [p[0]] + p[1..] == p;
    }
  }

  lemma {:induction false} ArgumentLine(a: string, c: string)
    requires IsArgument(a)
    ensures Cut(a + ", " + ("//" + c)) == a + ", "
  {
    assert NoComment(", ");
    NoCommentBoth(a, ", ");
    CutAt(a + ", ", c);
  }

  lemma {:induction false} CommentsCut(args: seq<string>, comments: seq<string>)
    requires OnLines(args, comments)
    ensures CutAll(Lines(args, comments)) == Bare(args)
  {
    if args != [] {
      ArgumentLine(args[0], comments[0]);
      CommentsCut(args[1..], comments[1..]);
      assert Lines(args, comments)[1..] == Lines(args[1..], comments[1..]);
    }
  }

  lemma {:induction false} LinesStayLines(args: seq<string>, comments: seq<string>, i: nat)
    requires OnLines(args, comments) && i < |args|
    ensures '\n' !in Lines(args, comments)[i]
    decreases |args|
  {
    if i > 0 {
      LinesStayLines(args[1..], comments[1..], i - 1);
    }
  }

  lemma {:induction false} CutBoth(a: seq<string>, b: seq<string>)
    ensures CutAll(a + b) == CutAll(a) + CutAll(b)
  {
    if a == [] {
      assert a + b == b;
    } else {
      assert (a + b)[1..] == a[1..] + b;
      CutBoth(a[1..], b);
    }
  }

  lemma {:induction false} JoinEnd(lines: seq<string>)
    requires lines != []
    ensures Join(lines + [""], "\n") == Join(lines, "\n") + "\n"
  {
    if |lines| == 1 {
      assert (lines + [""])[1..] == [""] && Join([""], "\n") == "";
      assert "\n" + "" == "\n";
    } else {
      assert (lines + [""])[1..] == lines[1..] + [""];
      JoinEnd(lines[1..]);
      assert lines[0] + ("\n" + (Join(lines[1..], "\n") + "\n")) == lines[0] + ("\n" + Join(lines[1..], "\n")) + "\n";
    }
  }

  /** The text of the call, with or without a last line end. */
  function Written(args: seq<string>, comments: seq<string>, end: string): string
    requires |args| == |comments|
  {
    Join(Lines(args, comments), "\n") + end
  }

  lemma {:induction false} Stripped(args: seq<string>, comments: seq<string>, end: string)
    requires OnLines(args, comments) && args != [] && (end == "" || end == "\n")
    ensures StripComments(Written(args, comments, end)) == Join(Bare(args), "\n") + end
  {
    var lines := Lines(args, comments);
    forall p | p in lines ensures '\n' !in p {
      var i :| 0 <= i < |lines| && lines[i] == p;
      LinesStayLines(args, comments, i);
    }
    CommentsCut(args, comments);
    if end == "" {
      SplitJoin(lines, '\n');
      assert Written(args, comments, end) == Join(lines, "\n");
    } else {
      SplitJoin(lines + [""], '\n');
      JoinEnd(lines);
      CutBoth(lines, [""]);
      assert CutAll([""]) == [""];
      JoinEnd(Bare(args));
    }
  }

  /** The separator and the line end go in front of the next argument, and are stripped there. */
  lemma {:induction false} LeadStripped(lead: string, a: string)
    requires Trimmed(a) && (lead == "" || lead == " \n")
    ensures Strip(lead + a) == a
  {
    StripOne(a);
    if lead == "" {
      assert lead + a == a;
    } else {
      var s := lead + a;
      assert s[1..] == "\n" + a && s[1..][1..] == a;
      assert StripLeft("\n" + a) == a;
    }
  }

  lemma {:induction false} NewlineJoins(rest: string)
    ensures Pieces(OUTSIDE, " ", "\n" + rest) == Pieces(OUTSIDE, " \n", rest)
  {
    assert ("\n" + rest)[1..] == rest && " " + "\n" == " \n";
  }

  /** One argument and its comma, then whatever follows the comma's space. */
  lemma {:induction false} BareHead(lead: string, a: string, rest: string)
    requires IsArgument(a) && (lead == "" || lead == " \n")
    ensures Kept(Pieces(OUTSIDE, lead, a + (", " + rest))) == [a] + Kept(Pieces(OUTSIDE, " ", rest))
  {
    LeadStripped(lead, a);
    PiecesPass(OUTSIDE, lead, a, ", " + rest);
    CommaSplits(lead + a, rest);
    KeepFirst(lead + a, Pieces(OUTSIDE, " ", rest));
  }

  lemma {:induction false} NothingLeft(end: string)
    requires end == "" || end == "\n"
    ensures Kept(Pieces(OUTSIDE, " ", end)) == []
  {
    if end == "\n" {
      NewlineJoins("");
      assert "\n" + "" == "\n";
    }
    var cur := if end == "" then " " else " \n";
    assert StripLeft("\n") == "" && cur[1..] == end;
    assert Strip(cur) == "";
    KeepFirst(cur, []);
    assert [cur] + [] == [cur];
  }

  /** The text of the bare lines, argument by argument. */
  function BareText(args: seq<string>, end: string): string
    requires args != []
  {
    args[0] + (", " + if |args| == 1 then end else "\n" + BareText(args[1..], end))
  }

  lemma {:induction false} BareJoins(args: seq<string>, end: string)
    requires args != []
    ensures Join(Bare(args), "\n") + end == BareText(args, end)
  {
    assert Bare(args)[1..] == Bare(args[1..]);
    if |args| > 1 {
      BareJoins(args[1..], end);
      var rest := Join(Bare(args[1..]), "\n");
      assert args[0] + ", " + ("\n" + rest) + end == args[0] + (", " + ("\n" + (rest + end)));
    } else {
      assert args[0] + ", " + end == args[0] + (", " + end);
    }
  }

  lemma {:induction false} BarePieces(args: seq<string>, end: string, lead: string)
    requires args != [] && AreArguments(args) && (lead == "" || lead == " \n") && (end == "" || end == "\n")
    ensures Kept(Pieces(OUTSIDE, lead, BareText(args, end))) == args
    decreases |args|
  {
    var a := args[0];
    if |args| == 1 {
      BareHead(lead, a, end);
      NothingLeft(end);
      assert args == [a] + [];
    } else {
      var rest := BareText(args[1..], end);
      BareHead(lead, a, "\n" + rest);
      NewlineJoins(rest);
      BarePieces(args[1..], end, " \n");
      assert args == [a] + args[1..];
    }
  }

  /** Commented line by line, a text still has exactly its arguments. */
  lemma {:induction false} CommentsDoNotCount(args: seq<string>, comments: seq<string>, end: string)
    requires OnLines(args, comments) && args != [] && (end == "" || end == "\n")
    ensures Arguments(Written(args, comments, end)) == args
  {
    Stripped(args, comments, end);
    BareJoins(args, end);
    BarePieces(args, end, "");
  }

  // ----- The whole path -----

  /** A backslash escapes inside a string only. */
  lemma {:induction false} EscapedInString(st: Scan, s: string)
    requires st.escaped ==> st.quoted
    ensures After(Parens, st, s).escaped ==> After(Parens, st, s).quoted
    decreases |s|
  {
    if s != "" {
      EscapedInString(Step(Parens, st, s[0]), s[1..]);
    }
  }

  lemma {:induction false} LineEndPasses(text: string)
    ensures NoClosing(INSIDE, text + "\n") <==> NoClosing(INSIDE, text)
    ensures After(Parens, INSIDE, text + "\n") == INSIDE <==> After(Parens, INSIDE, text) == INSIDE
  {
    AfterBoth(Parens, INSIDE, text, "\n");
    EscapedInString(INSIDE, text);
    OneMore(After(Parens, INSIDE, text));
    if NoClosing(INSIDE, text) {
      NoClosingBoth(INSIDE, text, "\n");
    } else {
      ClosesStill(INSIDE, text, "\n");
    }
  }

  lemma {:induction false} OneMore(st: Scan)
    requires st.escaped ==> st.quoted
    ensures NoClosing(st, "\n")
    ensures After(Parens, st, "\n") == INSIDE <==> st == INSIDE
  {
    assert "\n"[1..] == "";
  }

  lemma {:induction false} ClosesStill(st: Scan, a: string, b: string)
    requires !NoClosing(st, a)
    ensures !NoClosing(st, a + b)
    decreases |a|
  {
    assert (a + b)[1..] == a[1..] + b;
    if !Closes(st, a[0]) {
      ClosesStill(Step(Parens, st, a[0]), a[1..], b);
    }
  }

  /** The arguments of a commented call, as the check counts them: `balanced` returns the
      text of the call exactly when no parenthesis in it closes, comments included, and
      the scan is inside and outside strings at its end; and then the arguments are those. */
  lemma {:induction false} CommentedCallIff(args: seq<string>, comments: seq<string>, rest: string)
    requires OnLines(args, comments) && args != []
    ensures var text := Written(args, comments, "");
            && (Contents("(" + (text + ("\n)" + rest)), 1) == text + "\n" <==>
                NoClosing(INSIDE, text) && After(Parens, INSIDE, text) == INSIDE)
            && Arguments(text + "\n") == args
  {
    var text := Written(args, comments, "");
    CommentsDoNotCount(args, comments, "\n");
    assert text + "\n" == Written(args, comments, "\n");
    ContentsIff(text + "\n", rest);
    LineEndPasses(text);
    assert (text + "\n") + (")" + rest) == text + ("\n)" + rest);
  }

  /** A comment with none of the three characters `balanced` looks at. */
  predicate IsHarmless(c: string) { '(' !in c && ')' !in c && '"' !in c }

  lemma {:induction false} HarmlessPasses(s: string)
    requires IsHarmless(s)
    ensures NoClosing(INSIDE, s) && After(Parens, INSIDE, s) == INSIDE
  {
    if s != "" {
      assert s[0] in s && forall c :: c in s[1..] ==> c in s;
      HarmlessPasses(s[1..]);
    }
  }

  lemma {:induction false} LinePasses(a: string, c: string)
    requires IsArgument(a) && IsHarmless(c)
    ensures var line := a + ", " + ("//" + c); NoClosing(INSIDE, line) && After(Parens, INSIDE, line) == INSIDE
  {
    var tail := ", //" + c;
    HarmlessPasses(tail);
    NoClosingBoth(INSIDE, a, tail);
    AfterBoth(Parens, INSIDE, a, tail);
    assert a + ", " + ("//" + c) == a + tail;
  }

  lemma {:induction false} LinesPass(args: seq<string>, comments: seq<string>)
    requires OnLines(args, comments) && args != [] && forall i :: 0 <= i < |comments| ==> IsHarmless(comments[i])
    ensures var text := Join(Lines(args, comments), "\n"); NoClosing(INSIDE, text) && After(Parens, INSIDE, text) == INSIDE
  {
    LinePasses(args[0], comments[0]);
    var line := args[0] + ", " + ("//" + comments[0]);
    assert Lines(args, comments)[1..] == Lines(args[1..], comments[1..]);
    if |args| > 1 {
      LinesPass(args[1..], comments[1..]);
      var rest := Join(Lines(args[1..], comments[1..]), "\n");
      HarmlessPasses("\n");
      NoClosingBoth(INSIDE, "\n", rest);
      AfterBoth(Parens, INSIDE, "\n", rest);
      NoClosingBoth(INSIDE, line, "\n" + rest);
      AfterBoth(Parens, INSIDE, line, "\n" + rest);
    }
  }

  /** Behind harmless comments the whole path reads the arguments back. */
  lemma {:induction false} HarmlessCommentsRead(args: seq<string>, comments: seq<string>, rest: string)
    requires OnLines(args, comments) && args != [] && forall i :: 0 <= i < |comments| ==> IsHarmless(comments[i])
    ensures var text := Written(args, comments, "");
            Arguments(Contents("(" + (text + ("\n)" + rest)), 1)) == args
  {
    LinesPass(args, comments);
    assert Written(args, comments, "") == Join(Lines(args, comments), "\n");
    CommentedCallIff(args, comments, rest);
  }

  /** A parenthesis in the first comment ends the call there. */
  lemma {:induction false} CommentEndsCall()
    ensures Written(["a", "b"], [")", ""], "\n") == "a, //)\nb, //\n"
    ensures Contents("(a, //)\nb, //\n)", 1) == "a, //"
  {
    LinesOfTwo();
    TextOfTwo();
    HarmlessPasses("a, //");
    ContentsIff("a, //", "\nb, //\n)");
  }

  lemma {:induction false} TextOfTwo()
    ensures "(a, //)\nb, //\n)" == "(" + ("a, //" + (")" + "\nb, //\n)"))
  {
  }

  lemma {:induction false} LinesOfTwo()
    ensures Written(["a", "b"], [")", ""], "\n") == "a, //)\nb, //\n"
  {
    var args, comments := ["a", "b"], [")", ""];
    assert args[1..] == ["b"] && comments[1..] == [""] && ["b"][1..] == [] && [""][1..] == [];
    assert Lines(["b"], [""]) == ["b, //"] by { assert "b" + ", " + ("//" + "") == "b, //"; }
    assert "a" + ", " + ("//" + ")") == "a, //)";
    assert Lines(args, comments) == ["a, //)", "b, //"];
    assert ["a, //)", "b, //"][1..] == ["b, //"];
    assert "a, //)" + ("\n" + "b, //") == "a, //)\nb, //";
  }
}
