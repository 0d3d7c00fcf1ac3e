/** Small string vocabulary shared by the scanners. */
module Strings {

  datatype Option<+T> = None | Some(value: T)

  predicate OccursAt(hay: string, needle: string, i: int) {
    0 <= i <= |hay| - |needle| && forall k :: 0 <= k < |needle| ==> hay[i + k] == needle[k]
  }

  /** Python's `needle in hay`. */
  predicate Contains(hay: string, needle: string) {
    exists i | 0 <= i <= |hay| - |needle| :: OccursAt(hay, needle, i)
  }

  predicate IsSlice(hay: string, needle: string, i: nat) {
    i + |needle| <= |hay| && hay[i..i + |needle|] == needle
  }

  /** `needle` stands at `i` exactly when it is the slice there. */
  lemma {:induction false} OccursIff(hay: string, needle: string, i: nat)
    ensures OccursAt(hay, needle, i) <==> IsSlice(hay, needle, i)
  {
    if IsSlice(hay, needle, i) {
      forall k | 0 <= k < |needle| ensures hay[i + k] == needle[k] {
        assert hay[i..i + |needle|][k] == hay[i + k];
      }
    }
  }

  /** A text contains `needle` exactly when some slice of it is `needle`. */
  lemma {:induction false} ContainsIff(hay: string, needle: string)
    ensures Contains(hay, needle) <==> exists i: nat :: IsSlice(hay, needle, i)
  {
    forall i: nat ensures OccursAt(hay, needle, i) <==> IsSlice(hay, needle, i) {
      OccursIff(hay, needle, i);
    }
  }

  predicate IsSpace(c: char) {
    c == ' ' || c == '\n' || c == '\t' || c == '\r'
  }

  /** No quotation mark `q` of `s` is unescaped, and no backslash is left over. */
  predicate StaysIn(q: char, escaped: bool, s: string)
    decreases |s|
  {
    if s == "" then !escaped
    else if escaped then StaysIn(q, false, s[1..])
    else s[0] != q && StaysIn(q, s[0] == '\\', s[1..])
  }
}
