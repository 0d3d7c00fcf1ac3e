/** Text that a scanner reads from one state to another without stopping. */
module Passing {

  /** From `st` the scan does not stop in `s`, and comes to `to`. */
  predicate Passes<S(==)>(step: (S, char) -> S, stop: (S, char) -> bool, st: S, s: string, to: S)
    decreases |s|
  {
    if s == "" then st == to
    else !stop(st, s[0]) && Passes(step, stop, step(st, s[0]), s[1..], to)
  }

  lemma {:induction false} PassesBoth<S>(step: (S, char) -> S, stop: (S, char) -> bool, st: S, a: string, mid: S, b: string, to: S)
    requires Passes(step, stop, st, a, mid) && Passes(step, stop, mid, b, to)
    ensures Passes(step, stop, st, a + b, to)
    decreases |a|
  {
    if a == "" {
      assert a + b == b;
    } else {
      assert (a + b)[1..] == a[1..] + b;
      PassesBoth(step, stop, step(st, a[0]), a[1..], mid, b, to);
    }
  }

  lemma {:induction false} CharPasses<S>(step: (S, char) -> S, stop: (S, char) -> bool, st: S, c: char)
    requires !stop(st, c)
    ensures Passes(step, stop, st, [c], step(st, c))
  {
    assert [c][1..] == "";
  }

  /** `left inner right`, when `inner` passes between the states behind the two. */
  lemma {:induction false} EnclosedPasses<S>(step: (S, char) -> S, stop: (S, char) -> bool, st: S, left: char, inner: string, mid: S, right: char)
    requires !stop(st, left) && Passes(step, stop, step(st, left), inner, mid) && !stop(mid, right)
    ensures Passes(step, stop, st, [left] + (inner + [right]), step(mid, right))
  {
    CharPasses(step, stop, mid, right);
    PassesBoth(step, stop, step(st, left), inner, mid, [right], step(mid, right));
    CharPasses(step, stop, st, left);
    PassesBoth(step, stop, st, [left], step(st, left), inner + [right], step(mid, right));
  }
}
