/**
 Argument lists: `balanced` finds the closing parenthesis of a call and
 `split_top_level` splits what is inside on commas. Both track strings the same
 way and differ in which brackets they count.
 */
module CallArity {
  import opened Strings
  import opened Splitting

  // ----- What both scanners track -----

  /** The bracket depth, and whether the scan is in a string or behind a backslash in one. */
  datatype Scan = Scan(depth: int, quoted: bool, escaped: bool)

  predicate IsOpen(c: char) { c == '(' || c == '[' || c == '{' || c == '<' }

  predicate IsClose(c: char) { c == ')' || c == ']' || c == '}' || c == '>' }

  /** `split_top_level` counts all brackets together. */
  function Joint(c: char): int {
    if IsOpen(c) then 1 else if IsClose(c) then -1 else 0
  }

  /** `balanced` counts parentheses alone. */
  function Parens(c: char): int {
    if c == '(' then 1 else if c == ')' then -1 else 0
  }

  function Step(weight: char -> int, st: Scan, c: char): Scan {
    if st.escaped then Scan(st.depth, st.quoted, false)
    else if st.quoted then Scan(st.depth, c != '"', c == '\\')
    else if c == '"' then Scan(st.depth, true, false)
    else Scan(st.depth + weight(c), false, false)
  }

  function After(weight: char -> int, st: Scan, s: string): Scan
    decreases |s|
  {
    if s == "" then st else After(weight, Step(weight, st, s[0]), s[1..])
  }

  lemma {:induction false} AfterBoth(weight: char -> int, st: Scan, a: string, b: string)
    ensures After(weight, st, a + b) == After(weight, After(weight, st, a), b)
    decreases |a|
  {
    if a == "" {
      assert a + b == b;
    } else {
      assert (a + b)[1..] == a[1..] + b;
      AfterBoth(weight, Step(weight, st, a[0]), a[1..], b);
    }
  }

  const OUTSIDE := Scan(0, false, false)
  const INSIDE := Scan(1, false, false)

  // ----- Comments -----

  /** A line up to its first `//`. */
  function Cut(line: string): string {
    if |line| < 2 then line
    else if line[0] == '/' && line[1] == '/' then ""
    else [line[0]] + Cut(line[1..])
  }

  function CutAll(lines: seq<string>): seq<string> {
    if lines == [] then [] else [Cut(lines[0])] + CutAll(lines[1..])
  }

  function StripComments(text: string): string {
    Join(CutAll(Split(text, '\n')), "\n")
  }

  /** No `//` anywhere. */
  predicate NoComment(s: string) {
    |s| >= 2 ==> !(s[0] == '/' && s[1] == '/') && NoComment(s[1..])
  }

  lemma {:induction false} NothingToCut(s: string)
    requires NoComment(s)
    ensures CutAll(Split(s, '\n')) == Split(s, '\n')
  {
    if s != "" {
      var rest := Split(s[1..], '\n');
      NothingToCut(s[1..]);
      assert CutAll(rest) == rest && rest == [rest[0]] + rest[1..];
      assert CutAll(rest[1..]) == rest[1..] && Cut(rest[0]) == rest[0];
      if s[0] == '\n' {
        assert ([""] + rest)[1..] == rest;
      } else {
        var first := [s[0]] + rest[0];
        assert ([first] + rest[1..])[1..] == rest[1..];
        assert Cut(first) == first by {
          assert first[1..] == rest[0];
          if rest[0] != "" {
            FirstOfSplit(s[1..], '\n');
          }
        }
      }
    }
  }

  lemma {:induction false} FirstOfSplit(s: string, c: char)
    requires Split(s, c)[0] != ""
    ensures s != "" && Split(s, c)[0][0] == s[0]
  {
  }

  /** Text without comments goes through unchanged. */
  lemma {:induction false} StripKeeps(s: string)
    requires NoComment(s)
    ensures StripComments(s) == s
  {
    NothingToCut(s);
    JoinSplit(s, '\n');
  }

  // ----- Splitting on commas -----

  predicate Splits(st: Scan, c: char) { c == ',' && st.depth == 0 && !st.quoted && !st.escaped }

  /** The raw pieces of `s`, when `cur` of the first is already read. */
  function Pieces(st: Scan, cur: string, s: string): (r: seq<string>)
    ensures |r| > 0
    decreases |s|
  {
    if s == "" then [cur]
    else if Splits(st, s[0]) then [cur] + Pieces(st, "", s[1..])
    else Pieces(Step(Joint, st, s[0]), cur + [s[0]], s[1..])
  }

  /** The pieces stripped, without the empty ones. */
  function Kept(pieces: seq<string>): seq<string> {
    if pieces == [] then []
    else
      var s := Strip(pieces[0]);
      (if s == "" then [] else [s]) + Kept(pieces[1..])
  }

  function Arguments(text: string): seq<string> {
    Kept(Pieces(OUTSIDE, "", StripComments(text)))
  }

  /** The pieces still to come, standing at `i`. */
  function PiecesFrom(st: Scan, cur: string, text: string, i: nat): seq<string>
    decreases |text| - i
  {
    if i >= |text| then [cur]
    else if Splits(st, text[i]) then [cur] + PiecesFrom(st, "", text, i + 1)
    else PiecesFrom(Step(Joint, st, text[i]), cur + [text[i]], text, i + 1)
  }

  lemma {:induction false} PiecesBySuffix(st: Scan, cur: string, text: string, i: nat)
    requires i <= |text|
    ensures PiecesFrom(st, cur, text, i) == Pieces(st, cur, text[i..])
    decreases |text| - i
  {
    if i < |text| {
      assert text[i..][1..] == text[i + 1..];
      if Splits(st, text[i]) {
        PiecesBySuffix(st, "", text, i + 1);
      } else {
        PiecesBySuffix(Step(Joint, st, text[i]), cur + [text[i]], text, i + 1);
      }
    }
  }

  /** A backslash in a string takes the next character with it. */
  lemma {:induction false} PiecesEscape(depth: int, cur: string, text: string, i: nat, to: nat)
    requires i < |text| && text[i] == '\\' && to == if i + 2 <= |text| then i + 2 else |text|
    ensures PiecesFrom(Scan(depth, true, false), cur, text, i) == PiecesFrom(Scan(depth, true, false), cur + text[i..to], text, i + 2)
  {
    if i + 1 < |text| {
      assert cur + [text[i]] + [text[i + 1]] == cur + text[i..to];
    } else {
      assert text[i..to] == [text[i]];
    }
  }

  /** `split_top_level`. */
  method SplitTopLevel(raw: string) returns (args: seq<string>)
    ensures args == Arguments(raw)
  {
    var text := StripComments(raw);
    var out := [];
    var depth, cur, quote := 0, "", false;
    var i := 0;
    ghost var whole := PiecesFrom(OUTSIDE, "", text, 0);
    while i < |text|
      invariant 0 <= i
      invariant out + PiecesFrom(Scan(depth, quote, false), cur, text, i) == whole
      decreases |text| - i
    {
      var c := text[i];
      if quote {
        if c == '\\' {
          var to := if i + 2 <= |text| then i + 2 else |text|;
          PiecesEscape(depth, cur, text, i, to);
          cur := cur + text[i..to];
          i := i + 2;
          continue;
        }
        if c == '"' {
          quote := false;
        }
      } else if c == '"' {
        quote := true;
      } else if c == '(' || c == '[' || c == '{' || c == '<' {
        depth := depth + 1;
      } else if c == ')' || c == ']' || c == '}' || c == '>' {
        depth := depth - 1;
      } else if c == ',' && depth == 0 {
        Appended(out, cur, PiecesFrom(OUTSIDE, "", text, i + 1));
        out := out + [cur];
        cur := "";
        i := i + 1;
        continue;
      }
      cur := cur + [c];
      i := i + 1;
    }
    assert text[0..] == text;
    PiecesBySuffix(OUTSIDE, "", text, 0);
    args := Kept(out + [cur]);
  }

  lemma {:induction false} Appended(out: seq<string>, cur: string, rest: seq<string>)
    ensures out + ([cur] + rest) == out + [cur] + rest
  {
  }

  // ----- The closing parenthesis -----

  predicate Closes(st: Scan, c: char) { c == ')' && st.depth == 1 && !st.quoted && !st.escaped }

  /** How far the closing parenthesis is, `n` characters having been passed. */
  function ClosingAt(st: Scan, s: string, n: nat): (r: Option<nat>)
    ensures r.Some? ==> n <= r.value < n + |s|
    decreases |s|
  {
    if s == "" then None
    else if Closes(st, s[0]) then Some(n)
    else ClosingAt(Step(Parens, st, s[0]), s[1..], n + 1)
  }

  /** Where the closing parenthesis is, standing at `i`. */
  function ClosingFrom(st: Scan, text: string, i: nat): (r: Option<nat>)
    ensures r.Some? ==> i <= r.value < |text|
    decreases |text| - i
  {
    if i >= |text| then None
    else if Closes(st, text[i]) then Some(i)
    else ClosingFrom(Step(Parens, st, text[i]), text, i + 1)
  }

  lemma {:induction false} ClosingBySuffix(st: Scan, text: string, i: nat)
    requires i <= |text|
    ensures ClosingFrom(st, text, i) == ClosingAt(st, text[i..], i)
    decreases |text| - i
  {
    if i < |text| {
      assert text[i..][1..] == text[i + 1..];
      ClosingBySuffix(Step(Parens, st, text[i]), text, i + 1);
    }
  }

  /** What `balanced` returns. */
  function Contents(text: string, start: nat): string {
    var r := ClosingFrom(INSIDE, text, start);
    if r.Some? then text[start..r.value] else ""
  }

  /** `balanced`. */
  method Balanced(text: string, start: nat) returns (r: string)
    ensures r == Contents(text, start)
  {
    var depth, quote := 1, false;
    var i := start;
    ghost var target := ClosingFrom(INSIDE, text, start);
    while i < |text|
      invariant start <= i
      invariant target == ClosingFrom(Scan(depth, quote, false), text, i)
      decreases |text| - i
    {
      var c := text[i];
      if quote {
        if c == '\\' {
          i := i + 2;
          continue;
        }
        if c == '"' {
          quote := false;
        }
      } else if c == '"' {
        quote := true;
      } else if c == '(' {
        depth := depth + 1;
      } else if c == ')' {
        depth := depth - 1;
        if depth == 0 {
          return text[start..i];
        }
      }
      i := i + 1;
    }
    return "";
  }
}
