/** Python's `str.split` on one character, `str.join` and `str.strip`. */
module Splitting {
  import opened Strings

  function Split(s: string, c: char): (parts: seq<string>)
    ensures |parts| > 0
  {
    if s == "" then [""]
    else
      var rest := Split(s[1..], c);
      if s[0] == c then [""] + rest else [[s[0]] + rest[0]] + rest[1..]
  }

  function Join(parts: seq<string>, sep: string): string {
    if parts == [] then ""
    else if |parts| == 1 then parts[0]
    else parts[0] + (sep + Join(parts[1..], sep))
  }

  lemma {:induction false} JoinSplit(s: string, c: char)
    ensures Join(Split(s, c), [c]) == s
  {
    if s != "" {
      var rest := Split(s[1..], c);
      JoinSplit(s[1..], c);
      if s[0] == c {
        assert ([""] + rest)[1..] == rest;
        assert "" + ([c] + s[1..]) == s;
      } else {
        var parts := [[s[0]] + rest[0]] + rest[1..];
        assert parts[1..] == rest[1..];
        if |rest| > 1 {
          assert [s[0]] + rest[0] + ([c] + Join(rest[1..], [c])) == [s[0]] + (rest[0] + ([c] + Join(rest[1..], [c])));
        }
        assert [s[0]] + s[1..] == s;
      }
    }
  }

  /** A part without the separator comes back in front of what follows. */
  lemma {:induction false} SplitPart(p: string, c: char, s: string)
    requires c !in p
    ensures Split(p + s, c) == [p + Split(s, c)[0]] + Split(s, c)[1..]
  {
    if p == "" {
      assert p + s == s && p + Split(s, c)[0] == Split(s, c)[0];
      assert Split(s, c) == [Split(s, c)[0]] + Split(s, c)[1..];
    } else {
      assert (p + s)[1..] == p[1..] + s;
      SplitPart(p[1..], c, s);
      assert [p[0]] + (p[1..] + Split(s, c)[0]) == p + Split(s, c)[0];
    }
  }

  lemma {:induction false} SplitJoin(parts: seq<string>, c: char)
    requires parts != [] && forall p :: p in parts ==> c !in p
    ensures Split(Join(parts, [c]), c) == parts
  {
    var p := parts[0];
    if |parts| == 1 {
      SplitPart(p, c, "");
      assert p + "" == p;
      assert parts == [p];
    } else {
      var tail := [c] + Join(parts[1..], [c]);
      SplitJoin(parts[1..], c);
      assert tail[1..] == Join(parts[1..], [c]);
      assert Split(tail, c) == [""] + parts[1..];
      SplitPart(p, c, tail);
      assert p + "" == p;
      assert parts == [p] + parts[1..];
    }
  }

  function StripLeft(s: string): string {
    if s != "" && IsSpace(s[0]) then StripLeft(s[1..]) else s
  }

  function StripRight(s: string): string {
    if s != "" && IsSpace(s[|s| - 1]) then StripRight(s[..|s| - 1]) else s
  }

  function Strip(s: string): string { StripRight(StripLeft(s)) }

  /** Space, newline, tab or carriage return, by its code. */
  predicate IsBlankCode(n: int) { n == 32 || n == 10 || n == 9 || n == 13 }

  predicate AllBlank(s: string) { forall c :: c in s ==> IsBlankCode(c as int) }

  lemma {:induction false} StripLeftMeaning(s: string) returns (a: string)
    ensures s == a + StripLeft(s) && AllBlank(a)
    ensures var t := StripLeft(s); t == "" || !IsBlankCode(t[0] as int)
  {
    if s != "" && IsSpace(s[0]) {
      var b := StripLeftMeaning(s[1..]);
      a := [s[0]] + b;
      assert s == [s[0]] + s[1..];
    } else {
      a := "";
      assert s == a + s;
    }
  }

  lemma {:induction false} StripRightMeaning(s: string) returns (b: string)
    ensures s == StripRight(s) + b && AllBlank(b)
    ensures var t := StripRight(s); t == "" || (t[0] == s[0] && !IsBlankCode(t[|t| - 1] as int))
  {
    if s != "" && IsSpace(s[|s| - 1]) {
      var front := s[..|s| - 1];
      var a := StripRightMeaning(front);
      b := a + [s[|s| - 1]];
      assert s == front + [s[|s| - 1]];
      assert StripRight(s) + b == (StripRight(front) + a) + [s[|s| - 1]];
    } else {
      b := "";
      assert s == s + b;
    }
  }

  /** `str.strip` takes exactly the blanks at both ends. */
  lemma {:induction false} StripMeaning(s: string) returns (a: string, b: string)
    ensures s == a + Strip(s) + b && AllBlank(a) && AllBlank(b)
    ensures var t := Strip(s); t == "" || (!IsBlankCode(t[0] as int) && !IsBlankCode(t[|t| - 1] as int))
  {
    a := StripLeftMeaning(s);
    b := StripRightMeaning(StripLeft(s));
    assert a + (Strip(s) + b) == a + Strip(s) + b;
  }

  /** One separator between two lists of parts. */
  lemma {:induction false} JoinBoth(a: seq<string>, b: seq<string>, sep: string)
    requires a != [] && b != []
    ensures Join(a + b, sep) == Join(a, sep) + (sep + Join(b, sep))
  {
    var tail := sep + Join(b, sep);
    if |a| == 1 {
      assert (a + b)[1..] == b;
    } else {
      assert (a + b)[1..] == a[1..] + b;
      JoinBoth(a[1..], b, sep);
      Grouped(a[0], sep, Join(a[1..], sep), tail);
    }
  }

  lemma {:induction false} Grouped(a: string, sep: string, b: string, tail: string)
    ensures a + (sep + (b + tail)) == (a + (sep + b)) + tail
  {
  }
}
