/**
 The renaming of a Rust method name to its name on the bus. Two of the checks spell
 it `wire_name`; a third capitalises each word instead. Letters are ASCII.
 */
module WireNames {
  import opened Splitting

  predicate IsUpper(c: char) { 'A' <= c <= 'Z' }

  predicate IsLower(c: char) { 'a' <= c <= 'z' }

  predicate IsDigit(c: char) { '0' <= c <= '9' }

  function Upper(c: char): char { if IsLower(c) then c - 32 as char else c }

  function Lower(c: char): char { if IsUpper(c) then c + 32 as char else c }

  function Lowered(s: string): (r: string)
    ensures |r| == |s|
  {
    if s == "" then "" else [Lower(s[0])] + Lowered(s[1..])
  }

  lemma {:induction false} LoweredAt(s: string)
    ensures forall i :: 0 <= i < |s| ==> Lowered(s)[i] == Lower(s[i])
  {
    if s != "" {
      LoweredAt(s[1..]);
    }
  }

  /** `part[:1].upper() + part[1:]`. */
  function Raised(part: string): string {
    if part == "" then "" else [Upper(part[0])] + part[1..]
  }

  /** `str.capitalize`. */
  function Capitalized(part: string): string {
    if part == "" then "" else [Upper(part[0])] + Lowered(part[1..])
  }

  function ConcatRaised(parts: seq<string>): string {
    if parts == [] then "" else Raised(parts[0]) + ConcatRaised(parts[1..])
  }

  function ConcatCapitalized(parts: seq<string>): string {
    if parts == [] then "" else Capitalized(parts[0]) + ConcatCapitalized(parts[1..])
  }

  /** `wire_name`: the empty parts it filters out add nothing. */
  function WireName(fn: string): string { ConcatRaised(Split(fn, '_')) }

  /** The renaming inside `served`. */
  function ServedName(fn: string): string { ConcatCapitalized(Split(fn, '_')) }

  // ----- When the renamings agree -----

  /** No letter behind the first of its word is a capital. */
  predicate TailsLower(parts: seq<string>) {
    forall p :: p in parts ==> TailLower(p)
  }

  predicate TailLower(p: string) { forall i :: 1 <= i < |p| ==> !IsUpper(p[i]) }

  lemma {:induction false} TailLowerIff(p: string)
    requires p != ""
    ensures TailLower(p) <==> Lowered(p[1..]) == p[1..]
  {
    var t := p[1..];
    LoweredAt(t);
    if Lowered(t) == t {
      forall i | 1 <= i < |p| ensures !IsUpper(p[i]) {
        assert t[i - 1] == p[i] && Lower(t[i - 1]) == t[i - 1];
      }
    }
  }

  lemma {:induction false} ConcatsAgree(parts: seq<string>)
    ensures |ConcatRaised(parts)| == |ConcatCapitalized(parts)|
    ensures ConcatRaised(parts) == ConcatCapitalized(parts) <==> TailsLower(parts)
  {
    if parts != [] {
      var p, rest := parts[0], parts[1..];
      ConcatsAgree(rest);
      assert TailsLower(parts) <==> TailLower(p) && TailsLower(rest);
      PartsAgree(p);
      if ConcatRaised(parts) == ConcatCapitalized(parts) {
        SamePieces(Raised(p), Capitalized(p), ConcatRaised(rest), ConcatCapitalized(rest));
      }
    }
  }

  lemma {:induction false} PartsAgree(p: string)
    ensures |Raised(p)| == |Capitalized(p)|
    ensures Raised(p) == Capitalized(p) <==> TailLower(p)
  {
    if p != "" {
      TailLowerIff(p);
      assert Raised(p)[1..] == p[1..] && Capitalized(p)[1..] == Lowered(p[1..]);
    }
  }

  lemma {:induction false} SamePieces(a: string, b: string, s: string, t: string)
    requires |a| == |b| && a + s == b + t
    ensures a == b && s == t
  {
    assert a == (a + s)[..|a|] && b == (b + t)[..|a|];
    assert s == (a + s)[|a|..] && t == (b + t)[|a|..];
  }

  /** The checks agree on a name exactly when no word of it has a capital behind its first letter. */
  lemma {:induction false} RenamingsAgreeIff(fn: string)
    ensures WireName(fn) == ServedName(fn) <==> TailsLower(Split(fn, '_'))
  {
    ConcatsAgree(Split(fn, '_'));
  }

  // ----- The renaming one character at a time -----

  /** `first`: the next character begins a word. */
  function WireFrom(s: string, first: bool): string {
    if s == "" then ""
    else if s[0] == '_' then WireFrom(s[1..], true)
    else [if first then Upper(s[0]) else s[0]] + WireFrom(s[1..], false)
  }

  /** The wire name of some parts, the first as it is unless `first`. */
  function Wired(parts: seq<string>, first: bool): string
    requires parts != []
  {
    (if first then Raised(parts[0]) else parts[0]) + ConcatRaised(parts[1..])
  }

  lemma {:induction false} WireByChars(s: string, first: bool)
    ensures Wired(Split(s, '_'), first) == WireFrom(s, first)
    decreases |s|
  {
    if s != "" {
      if s[0] == '_' {
        WireByChars(s[1..], true);
      } else {
        WireByChars(s[1..], false);
      }
    }
  }

  // ----- The inverse -----

  /** A word of a snake_case name: a small letter, then small letters and digits. */
  predicate IsSegment(p: string) {
    p != "" && IsLower(p[0]) && forall c :: c in p ==> IsLower(c) || IsDigit(c)
  }

  predicate IsSnake(fn: string) { forall p :: p in Split(fn, '_') ==> IsSegment(p) }

  predicate IsPascal(w: string) {
    w != "" && IsUpper(w[0]) && forall c :: c in w ==> IsUpper(c) || IsLower(c) || IsDigit(c)
  }

  /** Underscores before the capitals behind the first, everything in small letters. */
  function Unwire(w: string): string {
    if w == "" then "" else [Lower(w[0])] + UnwireTail(w[1..])
  }

  function UnwireTail(s: string): string {
    if s == "" then ""
    else (if IsUpper(s[0]) then ['_', Lower(s[0])] else [s[0]]) + UnwireTail(s[1..])
  }

  /** `IsSnake` one character at a time. */
  predicate SnakeFrom(s: string, first: bool) {
    if s == "" then !first
    else if s[0] == '_' then !first && SnakeFrom(s[1..], true)
    else (IsLower(s[0]) || (!first && IsDigit(s[0]))) && SnakeFrom(s[1..], false)
  }

  /** Also a word whose first letter has been read. */
  predicate IsRest(p: string) { forall c :: c in p ==> IsLower(c) || IsDigit(c) }

  predicate AllSegments(parts: seq<string>) { forall p :: p in parts ==> IsSegment(p) }

  lemma {:induction false} SnakeByChars(s: string)
    ensures SnakeFrom(s, true) <==> IsSnake(s)
    ensures SnakeFrom(s, false) <==> IsRest(Split(s, '_')[0]) && AllSegments(Split(s, '_')[1..])
  {
    if s != "" {
      var rest := Split(s[1..], '_');
      SnakeByChars(s[1..]);
      if s[0] == '_' {
        assert ([""] + rest)[1..] == rest;
        assert "" in Split(s, '_');
      } else {
        var w := [s[0]] + rest[0];
        var parts := [w] + rest[1..];
        assert parts[1..] == rest[1..] && parts[0] == w && w[0] == s[0];
        assert IsRest(w) <==> (IsLower(s[0]) || IsDigit(s[0])) && IsRest(rest[0]) by {
          assert forall c :: c in w <==> c == s[0] || c in rest[0];
        }
        assert AllSegments(parts) <==> IsSegment(w) && AllSegments(rest[1..]) by {
          assert forall p :: p in parts <==> p == w || p in rest[1..];
        }
      }
    } else {
      assert "" in Split(s, '_');
    }
  }

  lemma {:induction false} UnwireChars(s: string)
    requires SnakeFrom(s, false)
    ensures UnwireTail(WireFrom(s, false)) == s
    decreases |s|
  {
    if s != "" {
      if s[0] == '_' {
        assert s[1..][1..] == s[2..];
        UnwireChars(s[2..]);
        var w := WireFrom(s[2..], false);
        assert WireFrom(s, false) == [Upper(s[1])] + w;
        assert ([Upper(s[1])] + w)[1..] == w;
        assert s == ['_', s[1]] + s[2..];
      } else {
        var w := WireFrom(s[1..], false);
        UnwireChars(s[1..]);
        assert ([s[0]] + w)[1..] == w;
      }
    }
  }

  /** `Unwire` takes every snake_case name back out of its wire name. */
  lemma {:induction false} UnwireUndoesWire(fn: string)
    requires IsSnake(fn)
    ensures Unwire(WireName(fn)) == fn
  {
    SnakeByChars(fn);
    WireByChars(fn, true);
    UnwireChars(fn[1..]);
    var w := WireFrom(fn[1..], false);
    assert ([Upper(fn[0])] + w)[1..] == w;
  }

  lemma {:induction false} WireChars(s: string)
    requires forall c :: c in s ==> IsUpper(c) || IsLower(c) || IsDigit(c)
    ensures SnakeFrom(UnwireTail(s), false) && WireFrom(UnwireTail(s), false) == s
  {
    if s != "" {
      var u := UnwireTail(s[1..]);
      assert SnakeFrom(u, false) && WireFrom(u, false) == s[1..] by {
        assert forall c :: c in s[1..] ==> c in s;
        WireChars(s[1..]);
      }
      if IsUpper(s[0]) {
      } else {
        assert ([s[0]] + u)[1..] == u;
      }
    }
  }

  /** And every PascalCase name is the wire name of its unwiring. */
  lemma {:induction false} WireUndoesUnwire(w: string)
    requires IsPascal(w)
    ensures IsSnake(Unwire(w)) && WireName(Unwire(w)) == w
  {
    var u, c := UnwireTail(w[1..]), Lower(w[0]);
    assert SnakeFrom(u, false) && WireFrom(u, false) == w[1..] by {
      assert forall d :: d in w[1..] ==> d in w;
      WireChars(w[1..]);
    }
    assert SnakeFrom([c] + u, true) && WireFrom([c] + u, true) == [Upper(c)] + w[1..] by {
      assert ([c] + u)[1..] == u;
    }
    SnakeByChars([c] + u);
    WireByChars([c] + u, true);
  }

  lemma {:induction false} WireFromIsPascal(s: string, c: char)
    requires SnakeFrom(s, false) && c in WireFrom(s, false)
    ensures IsUpper(c) || IsLower(c) || IsDigit(c)
    decreases |s|
  {
    if s[0] == '_' {
      assert s[1..][1..] == s[2..];
      assert WireFrom(s, false) == [Upper(s[1])] + WireFrom(s[2..], false);
      if c != Upper(s[1]) {
        WireFromIsPascal(s[2..], c);
      }
    } else if c != s[0] {
      WireFromIsPascal(s[1..], c);
    }
  }

  /** The wire names of snake_case names are PascalCase, and `served` spells them the same. */
  lemma {:induction false} WireIsPascal(fn: string)
    requires IsSnake(fn)
    ensures IsPascal(WireName(fn)) && WireName(fn) == ServedName(fn)
  {
    SnakeByChars(fn);
    WireByChars(fn, true);
    forall c | c in WireName(fn) ensures IsUpper(c) || IsLower(c) || IsDigit(c) {
      if c != Upper(fn[0]) {
        WireFromIsPascal(fn[1..], c);
      }
    }
    forall p | p in Split(fn, '_') ensures TailLower(p) {
      assert forall i :: 1 <= i < |p| ==> p[i] in p;
    }
    RenamingsAgreeIff(fn);
  }
}
