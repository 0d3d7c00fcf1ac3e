/**
 Test scopes: a stack of brace depths, one entry for every open brace
 that was the first after a `#[cfg(test)]` or `mod tests` marker. The laws hold for
 any marker test. Lines are laid end to end, each closed by a newline, so that a
 scope is a stretch of one text.
 */
module Scopes {
  import opened Braces

  // ----- Lines as one text -----

  function Flat(lines: seq<string>): string {
    if lines == [] then "" else Flat(lines[..|lines| - 1]) + lines[|lines| - 1] + "\n"
  }

  /** Where line `i` begins. */
  function Offset(lines: seq<string>, i: nat): nat
    requires i <= |lines|
  {
    if i == 0 then 0 else Offset(lines, i - 1) + |lines[i - 1]| + 1
  }

  lemma {:induction false} FlatLength(lines: seq<string>, n: nat)
    requires n <= |lines|
    ensures |Flat(lines[..n])| == Offset(lines, n)
  {
    if n > 0 {
      assert lines[..n][..n - 1] == lines[..n - 1];
      FlatLength(lines, n - 1);
    }
  }

  lemma {:induction false} FlatAt(lines: seq<string>, n: nat, i: nat, j: nat)
    requires i < n <= |lines| && j <= |lines[i]|
    ensures Offset(lines, i) + j < |Flat(lines[..n])|
    ensures Flat(lines[..n])[Offset(lines, i) + j] == if j < |lines[i]| then lines[i][j] else '\n'
    decreases n
  {
    assert lines[..n][..n - 1] == lines[..n - 1];
    FlatLength(lines, n - 1);
    if i < n - 1 {
      FlatAt(lines, n - 1, i, j);
    }
  }

  lemma {:induction false} OffsetsGrow(lines: seq<string>, i: nat, j: nat)
    requires i < j <= |lines|
    ensures Offset(lines, i) + |lines[i]| < Offset(lines, j)
    decreases j
  {
    if i < j - 1 {
      OffsetsGrow(lines, i, j - 1);
    }
  }

  // ----- What the trackers are for -----

  predicate NoOpen(flat: string, lo: nat, hi: nat) {
    hi <= |flat| && forall k :: lo <= k < hi ==> flat[k] != '{'
  }

  /** A marker among the first `n` lines is waiting for its brace at `p`. */
  ghost predicate Awaiting(lines: seq<string>, isMarker: string -> bool, n: nat, p: nat)
    requires n <= |lines|
  {
    exists m :: 0 <= m < n && isMarker(lines[m]) && Offset(lines, m) <= p && NoOpen(Flat(lines), Offset(lines, m), p)
  }

  /** The brace at `a` is the first after a marker. */
  ghost predicate TestBrace(lines: seq<string>, isMarker: string -> bool, a: nat) {
    a < |Flat(lines)| && Flat(lines)[a] == '{' && Awaiting(lines, isMarker, |lines|, a)
  }

  ghost function TestBraces(lines: seq<string>, isMarker: string -> bool): set<nat> {
    set a | 0 <= a < |Flat(lines)| && TestBrace(lines, isMarker, a)
  }

  /** The brace at `a` has not been closed before `p`: since then the depth never
      came back to what it was. */
  predicate StillOpen(flat: string, a: nat, p: nat)
    decreases p
  {
    && a < p <= |flat| && flat[a] == '{' && Depth(flat, a, p) > 0
    && (a + 1 < p ==> StillOpen(flat, a, p - 1))
  }

  /** Line `i` begins inside a test scope. */
  ghost predicate InTestScope(lines: seq<string>, isMarker: string -> bool, i: nat)
    requires i < |lines|
  {
    exists a: nat :: TestBrace(lines, isMarker, a) && StillOpen(Flat(lines), a, Offset(lines, i))
  }

  /** An open brace is one whose match, if it has one, is not behind us. */
  lemma {:induction false} StillOpenMeansUnmatched(flat: string, a: nat, p: nat)
    requires a < p <= |flat| && flat[a] == '{'
    ensures StillOpen(flat, a, p) <==> forall e: nat :: Matched(flat, a, e) ==> p <= e
    decreases p
  {
    AlwaysPositive(flat, a, p);
    if !StillOpen(flat, a, p) {
      var e := FirstZero(flat, a, p);
    }
  }

  lemma {:induction false} AlwaysPositive(flat: string, a: nat, p: nat)
    ensures StillOpen(flat, a, p) ==> forall k :: a < k <= p ==> Depth(flat, a, k) > 0
    decreases p
  {
    if StillOpen(flat, a, p) && a + 1 < p {
      AlwaysPositive(flat, a, p - 1);
    }
  }

  lemma {:induction false} FirstZero(flat: string, a: nat, p: nat) returns (e: nat)
    requires a < p <= |flat| && flat[a] == '{' && !StillOpen(flat, a, p)
    ensures Matched(flat, a, e) && e < p
    decreases p
  {
    assert Depth(flat, a, a + 1) == 1;
    if StillOpen(flat, a, p - 1) {
      AlwaysPositive(flat, a, p - 1);
      e := p - 1;
    } else {
      e := FirstZero(flat, a, p - 1);
    }
  }

  // ----- The invariant of the character loop -----

  /** At `p` the stack holds the depths of the braces of `tests` that are still open,
      which stand at `at`, innermost last. Below the innermost one, the stack is what
      it was when that brace was met. */
  ghost predicate Holds(flat: string, tests: set<nat>, p: nat, stack: seq<int>, at: seq<nat>)
    decreases |at|
  {
    && p <= |flat| && |stack| == |at|
    && if at == [] then NoneOpen(flat, tests, 0, p)
       else
         var n := |at| - 1;
         && at[n] in tests && StillOpen(flat, at[n], p) && stack[n] == Depth(flat, 0, at[n]) + 1
         && NoneOpen(flat, tests, at[n] + 1, p)
         && Holds(flat, tests, at[n], stack[..n], at[..n])
  }

  /** No brace of `tests` from `lo` on is open at `p`. */
  ghost predicate NoneOpen(flat: string, tests: set<nat>, lo: nat, p: nat) {
    forall a: nat :: lo <= a && a in tests ==> !StillOpen(flat, a, p)
  }

  lemma {:induction false} OpenStep(flat: string, a: nat, p: nat)
    requires a < p < |flat| && flat[a] == '{'
    ensures StillOpen(flat, a, p + 1) <==>
            StillOpen(flat, a, p) && !(flat[p] == '}' && Depth(flat, 0, p) == Depth(flat, 0, a) + 1)
  {
    DepthAdds(flat, 0, a, p);
    DepthAdds(flat, 0, a, p + 1);
  }

  lemma {:induction false} NoneOpenLater(flat: string, tests: set<nat>, lo: nat, p: nat)
    requires p < |flat| && NoneOpen(flat, tests, lo, p) && (flat[p] == '{' ==> p !in tests)
    ensures NoneOpen(flat, tests, lo, p + 1)
  {
    forall a: nat | lo <= a && a in tests ensures !StillOpen(flat, a, p + 1) {}
  }

  lemma {:induction false} PushStep(flat: string, tests: set<nat>, p: nat, stack: seq<int>, at: seq<nat>)
    requires p < |flat| && Holds(flat, tests, p, stack, at) && flat[p] == '{' && p in tests
    ensures Holds(flat, tests, p + 1, stack + [Depth(flat, 0, p + 1)], at + [p])
  {
    assert (at + [p])[..|at|] == at && (stack + [Depth(flat, 0, p + 1)])[..|at|] == stack;
    assert StillOpen(flat, p, p + 1);
  }

  lemma {:induction false} PassStep(flat: string, tests: set<nat>, p: nat, stack: seq<int>, at: seq<nat>)
    requires p < |flat| && Holds(flat, tests, p, stack, at) && (flat[p] == '{' ==> p !in tests)
    requires flat[p] == '}' ==> stack == [] || Depth(flat, 0, p) != stack[|stack| - 1]
    ensures Holds(flat, tests, p + 1, stack, at)
  {
    NoneOpenLater(flat, tests, if at == [] then 0 else at[|at| - 1] + 1, p);
    if at != [] {
      OpenStep(flat, at[|at| - 1], p);
    }
  }

  /** A scope around an open scope is open as long as it is, and one brace longer. */
  lemma {:induction false} OuterStaysOpen(flat: string, c: nat, a: nat, p: nat)
    requires StillOpen(flat, c, a) && StillOpen(flat, a, p)
    ensures StillOpen(flat, c, p) && Depth(flat, c, p) > 1
    decreases p
  {
    DepthAdds(flat, c, a, p);
    if a + 1 < p {
      OuterStaysOpen(flat, c, a, p - 1);
    } else {
      assert StillOpen(flat, c, a);
    }
  }

  lemma {:induction false} NoneOpenOuter(flat: string, tests: set<nat>, lo: nat, a: nat, p: nat)
    requires a < p <= |flat| && NoneOpen(flat, tests, lo, a) && NoneOpen(flat, tests, a + 1, p) && !StillOpen(flat, a, p)
    ensures NoneOpen(flat, tests, lo, p)
  {
    forall b: nat | lo <= b && b in tests ensures !StillOpen(flat, b, p) {
      if b < a && StillOpen(flat, b, p) {
        OpenEarlier(flat, b, a, p);
      }
    }
  }

  lemma {:induction false} OpenEarlier(flat: string, a: nat, p: nat, q: nat)
    requires a < p <= q && StillOpen(flat, a, q)
    ensures StillOpen(flat, a, p)
    decreases q
  {
    if p < q {
      OpenEarlier(flat, a, p, q - 1);
    }
  }

  /** The brace closes the innermost test scope, and no other. */
  lemma {:induction false} PopStep(flat: string, tests: set<nat>, p: nat, stack: seq<int>, at: seq<nat>)
    requires p < |flat| && Holds(flat, tests, p, stack, at)
    requires flat[p] == '}' && at != [] && Depth(flat, 0, p) == stack[|stack| - 1]
    ensures Holds(flat, tests, p + 1, stack[..|stack| - 1], at[..|at| - 1])
  {
    var n := |at| - 1;
    var a, below := at[n], at[..n];
    OpenStep(flat, a, p);
    NoneOpenLater(flat, tests, a + 1, p);
    NoneOpenOuter(flat, tests, if below == [] then 0 else below[n - 1] + 1, a, p + 1);
    if below != [] {
      OuterStaysOpen(flat, below[n - 1], a, p);
    }
  }

  lemma {:induction false} StackSorted(flat: string, tests: set<nat>, p: nat, stack: seq<int>, at: seq<nat>)
    requires Holds(flat, tests, p, stack, at)
    ensures forall j, k :: 0 <= j < k < |stack| ==> stack[j] < stack[k]
    ensures forall k :: 0 <= k < |stack| ==> stack[k] <= Depth(flat, 0, p)
    decreases |at|
  {
    if at != [] {
      var n := |at| - 1;
      StackSorted(flat, tests, at[n], stack[..n], at[..n]);
      assert forall k :: 0 <= k < n ==> stack[k] == stack[..n][k];
      DepthAdds(flat, 0, at[n], p);
    }
  }

  /** The three variables of a tracker. */
  datatype Tracker = Tracker(depth: int, stack: seq<int>, pending: bool)

  /** What one character does to them. */
  function See(t: Tracker, c: char): Tracker {
    if c == '{' then
      Tracker(t.depth + 1, if t.pending then t.stack + [t.depth + 1] else t.stack, false)
    else if c == '}' then
      var closes := t.stack != [] && t.depth == t.stack[|t.stack| - 1];
      t.(depth := t.depth - 1, stack := if closes then t.stack[..|t.stack| - 1] else t.stack)
    else t
  }

  function SeeChars(t: Tracker, line: string, j: nat): Tracker
    requires j <= |line|
  {
    if j == 0 then t else See(SeeChars(t, line, j - 1), line[j - 1])
  }

  function SeeLine(t: Tracker, line: string, marker: bool): Tracker {
    SeeChars(t.(pending := t.pending || marker), line, |line|)
  }

  /** The tracker before line `i` is looked at. */
  function AtLine(lines: seq<string>, isMarker: string -> bool, i: nat): Tracker
    requires i <= |lines|
  {
    if i == 0 then Tracker(0, [], false)
    else SeeLine(AtLine(lines, isMarker, i - 1), lines[i - 1], isMarker(lines[i - 1]))
  }

  /** The tracker agrees with the text up to `p`. */
  ghost predicate Tracks(flat: string, tests: set<nat>, p: nat, t: Tracker, at: seq<nat>) {
    Holds(flat, tests, p, t.stack, at) && t.depth == Depth(flat, 0, p)
  }

  lemma {:induction false} CharStep(flat: string, tests: set<nat>, p: nat, t: Tracker, at: seq<nat>) returns (at': seq<nat>)
    requires p < |flat| && Tracks(flat, tests, p, t, at)
    requires flat[p] == '{' ==> (p in tests <==> t.pending)
    ensures Tracks(flat, tests, p + 1, See(t, flat[p]), at')
  {
    if flat[p] == '{' && t.pending {
      at' := at + [p];
      PushStep(flat, tests, p, t.stack, at);
    } else if flat[p] == '}' && t.stack != [] && t.depth == t.stack[|t.stack| - 1] {
      at' := at[..|at| - 1];
      PopStep(flat, tests, p, t.stack, at);
    } else {
      at' := at;
      PassStep(flat, tests, p, t.stack, at);
    }
  }

  // ----- The pending flag -----

  lemma {:induction false} MarkerStep(lines: seq<string>, isMarker: string -> bool, i: nat)
    requires i < |lines| && Offset(lines, i) <= |Flat(lines)|
    ensures Awaiting(lines, isMarker, i + 1, Offset(lines, i)) <==>
            Awaiting(lines, isMarker, i, Offset(lines, i)) || isMarker(lines[i])
  {
    assert NoOpen(Flat(lines), Offset(lines, i), Offset(lines, i));
  }

  /** Within line `i` a mark still waits at `j` if one waited where the line began and
      no brace has come since; later lines' marks do not count yet. */
  lemma {:induction false} PendingInLine(lines: seq<string>, isMarker: string -> bool, i: nat, j: nat)
    requires i < |lines| && Offset(lines, i) <= j <= Offset(lines, i + 1) <= |Flat(lines)|
    ensures Awaiting(lines, isMarker, i + 1, j) <==>
            Awaiting(lines, isMarker, i + 1, Offset(lines, i)) && NoOpen(Flat(lines), Offset(lines, i), j)
    ensures j < Offset(lines, i + 1) ==> (Awaiting(lines, isMarker, |lines|, j) <==> Awaiting(lines, isMarker, i + 1, j))
  {
    var flat, p := Flat(lines), Offset(lines, i);
    forall m | 0 <= m <= i
      ensures Offset(lines, m) <= p
      ensures NoOpen(flat, Offset(lines, m), j) <==> NoOpen(flat, Offset(lines, m), p) && NoOpen(flat, p, j)
    {
      if m < i {
        OffsetsGrow(lines, m, i);
      }
    }
    forall m | i < m < |lines| ensures Offset(lines, i + 1) <= Offset(lines, m) {
      if i + 1 < m {
        OffsetsGrow(lines, i + 1, m);
      }
    }
  }

  // ----- The trackers -----

  lemma {:induction false} FlatLine(lines: seq<string>, i: nat)
    requires i < |lines|
    ensures Offset(lines, i + 1) == Offset(lines, i) + |lines[i]| + 1 <= |Flat(lines)|
    ensures forall j :: 0 <= j < |lines[i]| ==> Flat(lines)[Offset(lines, i) + j] == lines[i][j]
    ensures Flat(lines)[Offset(lines, i) + |lines[i]|] == '\n'
  {
    assert lines[..|lines|] == lines;
    FlatAt(lines, |lines|, i, |lines[i]|);
    forall j | 0 <= j < |lines[i]| ensures Flat(lines)[Offset(lines, i) + j] == lines[i][j] {
      FlatAt(lines, |lines|, i, j);
    }
  }

  /** The characters of one line, the first brace of which takes the pending mark. */
  lemma {:induction false} CharSteps(flat: string, tests: set<nat>, p: nat, t: Tracker, at: seq<nat>, line: string, j: nat)
    returns (at': seq<nat>)
    requires j <= |line| && p + |line| <= |flat| && Tracks(flat, tests, p, t, at)
    requires forall k :: 0 <= k < |line| ==> flat[p + k] == line[k]
    requires forall k :: p <= k < p + |line| && flat[k] == '{' ==> (k in tests <==> t.pending && NoOpen(flat, p, k))
    ensures var u := SeeChars(t, line, j);
            && Tracks(flat, tests, p + j, u, at')
            && u.pending == (t.pending && NoOpen(flat, p, p + j))
  {
    at' := at;
    if j > 0 {
      at' := CharSteps(flat, tests, p, t, at, line, j - 1);
      assert flat[p + (j - 1)] == line[j - 1];
      at' := CharStep(flat, tests, p + j - 1, SeeChars(t, line, j - 1), at');
    }
  }

  /** The tracker before line `i` holds the open test braces and the pending mark. */
  ghost predicate Faithful(lines: seq<string>, isMarker: string -> bool, i: nat, t: Tracker, at: seq<nat>)
    requires i <= |lines|
  {
    && Tracks(Flat(lines), TestBraces(lines, isMarker), Offset(lines, i), t, at)
    && t.pending == Awaiting(lines, isMarker, i, Offset(lines, i))
  }

  /** A line and the newline after it. */
  lemma {:induction false} WholeLine(flat: string, tests: set<nat>, p: nat, t: Tracker, at: seq<nat>, line: string)
    returns (at': seq<nat>)
    requires p + |line| < |flat| && flat[p + |line|] == '\n' && Tracks(flat, tests, p, t, at)
    requires forall k :: 0 <= k < |line| ==> flat[p + k] == line[k]
    requires forall k :: p <= k < p + |line| && flat[k] == '{' ==> (k in tests <==> t.pending && NoOpen(flat, p, k))
    ensures var u := SeeChars(t, line, |line|);
            && Tracks(flat, tests, p + |line| + 1, u, at')
            && u.pending == (t.pending && NoOpen(flat, p, p + |line| + 1))
  {
    at' := CharSteps(flat, tests, p, t, at, line, |line|);
    PassStep(flat, tests, p + |line|, SeeChars(t, line, |line|).stack, at');
  }

  /** What `WholeLine` needs to know of line `i`. */
  lemma {:induction false} LineTests(lines: seq<string>, isMarker: string -> bool, i: nat, pending: bool)
    requires i < |lines| && Offset(lines, i) + |lines[i]| < Offset(lines, i + 1) <= |Flat(lines)|
    requires pending == Awaiting(lines, isMarker, i + 1, Offset(lines, i))
    ensures forall k :: Offset(lines, i) <= k < Offset(lines, i) + |lines[i]| && Flat(lines)[k] == '{' ==>
              (k in TestBraces(lines, isMarker) <==> pending && NoOpen(Flat(lines), Offset(lines, i), k))
  {
    forall k | Offset(lines, i) <= k < Offset(lines, i) + |lines[i]| && Flat(lines)[k] == '{'
      ensures k in TestBraces(lines, isMarker) <==> pending && NoOpen(Flat(lines), Offset(lines, i), k)
    {
      PendingInLine(lines, isMarker, i, k);
    }
  }

  lemma {:induction false} LineStep(lines: seq<string>, isMarker: string -> bool, i: nat, t: Tracker, at: seq<nat>)
    returns (at': seq<nat>)
    requires i < |lines|
    requires Tracks(Flat(lines), TestBraces(lines, isMarker), Offset(lines, i), t, at)
    requires t.pending == Awaiting(lines, isMarker, i + 1, Offset(lines, i))
    ensures var u := SeeChars(t, lines[i], |lines[i]|);
            && Tracks(Flat(lines), TestBraces(lines, isMarker), Offset(lines, i + 1), u, at')
            && u.pending == Awaiting(lines, isMarker, i + 1, Offset(lines, i + 1))
  {
    FlatLine(lines, i);
    LineTests(lines, isMarker, i, t.pending);
    at' := WholeLine(Flat(lines), TestBraces(lines, isMarker), Offset(lines, i), t, at, lines[i]);
    PendingInLine(lines, isMarker, i, Offset(lines, i + 1));
  }

  lemma {:induction false} AlwaysFaithful(lines: seq<string>, isMarker: string -> bool, i: nat) returns (at: seq<nat>)
    requires i <= |lines|
    ensures Faithful(lines, isMarker, i, AtLine(lines, isMarker, i), at)
  {
    if i == 0 {
      at := [];
    } else {
      at := AlwaysFaithful(lines, isMarker, i - 1);
      var t := AtLine(lines, isMarker, i - 1);
      MarkerStep(lines, isMarker, i - 1);
      at := LineStep(lines, isMarker, i - 1, t.(pending := t.pending || isMarker(lines[i - 1])), at);
    }
  }

  /** The stack is non-empty exactly when the line begins inside a test scope; it is
      strictly increasing and bounded by the depth. */
  lemma {:induction false} StackMeaning(lines: seq<string>, isMarker: string -> bool, i: nat)
    requires i < |lines|
    ensures var t := AtLine(lines, isMarker, i);
            && (t.stack != [] <==> InTestScope(lines, isMarker, i))
            && (forall j, k :: 0 <= j < k < |t.stack| ==> t.stack[j] < t.stack[k])
            && (forall k :: 0 <= k < |t.stack| ==> t.stack[k] <= t.depth)
  {
    var at := AlwaysFaithful(lines, isMarker, i);
    var t := AtLine(lines, isMarker, i);
    StackSorted(Flat(lines), TestBraces(lines, isMarker), Offset(lines, i), t.stack, at);
    if at != [] {
      assert TestBrace(lines, isMarker, at[|at| - 1]);
    }
  }

  /** Once no test scope is open and no marker waits, every line up to the next marker
      is visible. */
  lemma {:induction false} VisibleAgain(lines: seq<string>, isMarker: string -> bool, i: nat, j: nat)
    requires i <= j < |lines| && !InTestScope(lines, isMarker, i)
    requires !Awaiting(lines, isMarker, i, Offset(lines, i))
    requires forall m :: i <= m < j ==> !isMarker(lines[m])
    ensures !InTestScope(lines, isMarker, j)
  {
    FlatLine(lines, j);
    if i < j {
      OffsetsGrow(lines, i, j);
    }
    forall a: nat | TestBrace(lines, isMarker, a) ensures !StillOpen(Flat(lines), a, Offset(lines, j)) {
      if StillOpen(Flat(lines), a, Offset(lines, j)) {
        if a < Offset(lines, i) {
          OpenEarlier(Flat(lines), a, Offset(lines, i), Offset(lines, j));
        } else {
          NoTestBraceBetween(lines, isMarker, i, j, a);
        }
      }
    }
  }

  lemma {:induction false} NoTestBraceBetween(lines: seq<string>, isMarker: string -> bool, i: nat, j: nat, a: nat)
    requires i <= j < |lines| && Offset(lines, i) <= a < Offset(lines, j) <= |Flat(lines)|
    requires !Awaiting(lines, isMarker, i, Offset(lines, i))
    requires forall m :: i <= m < j ==> !isMarker(lines[m])
    ensures !TestBrace(lines, isMarker, a)
  {
    var flat := Flat(lines);
    forall m | 0 <= m < |lines| && isMarker(lines[m]) && Offset(lines, m) <= a
      ensures !NoOpen(flat, Offset(lines, m), a)
    {
      if j < m {
        OffsetsGrow(lines, j, m);
      }
      if m < i {
        OffsetsGrow(lines, m, i);
        assert !NoOpen(flat, Offset(lines, m), Offset(lines, i));
      }
    }
  }
}
