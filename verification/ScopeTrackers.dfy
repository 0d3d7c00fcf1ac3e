/** The test-scope trackers, as the gates run them. */
module ScopeTrackers {
  import opened Strings
  import opened Splitting
  import opened Scopes

  /** What opens a test scope at its next brace. */
  predicate IsMarker(line: string) {
    Contains(line, "#[cfg(test)]") || "mod tests" <= Strip(line)
  }

  /** The loop over the characters of one line. */
  method ReadLine(line: string, depth0: int, stack0: seq<int>, pending0: bool)
    returns (depth: int, stack: seq<int>, pending: bool)
    ensures Tracker(depth, stack, pending) == SeeChars(Tracker(depth0, stack0, pending0), line, |line|)
  {
    depth, stack, pending := depth0, stack0, pending0;
    for j := 0 to |line|
      invariant Tracker(depth, stack, pending) == SeeChars(Tracker(depth0, stack0, pending0), line, j)
    {
      var ch := line[j];
      if ch == '{' {
        depth := depth + 1;
        if pending {
          stack := stack + [depth];
          pending := false;
        }
      } else if ch == '}' {
        if stack != [] && depth == stack[|stack| - 1] {
          stack := stack[..|stack| - 1];
        }
        depth := depth - 1;
      }
    }
  }

  /** `test_scope_lines`: the lines that begin inside a test scope. */
  method TestScopeLines(lines: seq<string>) returns (inside: set<nat>)
    ensures forall i: nat :: i in inside <==> i < |lines| && InTestScope(lines, IsMarker, i)
  {
    inside := {};
    var depth, stack, pending := 0, [], false;
    for i := 0 to |lines|
      invariant Tracker(depth, stack, pending) == AtLine(lines, IsMarker, i)
      invariant forall k: nat :: k in inside <==> k < i && InTestScope(lines, IsMarker, k)
    {
      StackMeaning(lines, IsMarker, i);
      if stack != [] {
        inside := inside + {i};
      }
      if Contains(lines[i], "#[cfg(test)]") || "mod tests" <= Strip(lines[i]) {
        pending := true;
      }
      depth, stack, pending := ReadLine(lines[i], depth, stack, pending);
    }
  }

  /** `production_text` and `queries`: the same lines come out empty, every other line
      unchanged, none added or lost. */
  method ProductionLines(lines: seq<string>) returns (r: seq<string>)
    ensures |r| == |lines|
    ensures forall i: nat :: i < |lines| ==> r[i] == if InTestScope(lines, IsMarker, i) then "" else lines[i]
  {
    var inside: set<nat>, depth, stack, pending := {}, 0, [], false;
    for i := 0 to |lines|
      invariant Tracker(depth, stack, pending) == AtLine(lines, IsMarker, i)
      invariant forall k: nat :: k in inside <==> k < i && InTestScope(lines, IsMarker, k)
    {
      StackMeaning(lines, IsMarker, i);
      if stack != [] {
        inside := inside + {i};
      }
      if Contains(lines[i], "#[cfg(test)]") || "mod tests" <= Strip(lines[i]) {
        pending := true;
      }
      depth, stack, pending := ReadLine(lines[i], depth, stack, pending);
    }
    r := BlankLines(lines, inside);
  }

  method BlankLines(lines: seq<string>, inside: set<nat>) returns (r: seq<string>)
    ensures |r| == |lines|
    ensures forall i: nat :: i < |lines| ==> r[i] == if i in inside then "" else lines[i]
  {
    r := [];
    for i := 0 to |lines|
      invariant |r| == i
      invariant forall k: nat :: k < i ==> r[k] == if k in inside then "" else lines[k]
    {
      r := r + [if i in inside then "" else lines[i]];
    }
  }
}
