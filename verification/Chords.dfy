/** Keyboard chords: `Ctrl+Shift+R` as modifiers and a key, and the actions that press it. */
module Chords {
  import opened Strings
  import opened Splitting
  import WireNames

  // ----- Reading a chord -----

  /** The parts of a chord; a chord that ends on the separator ends on a plus key. */
  function Parts(chord: string): (parts: seq<string>)
    ensures parts != []
  {
    var parts := Split(chord, '+');
    if parts[|parts| - 1] == "" && |parts| > 1 then parts[..|parts| - 2] + ["+"] else parts
  }

  /** The codepoints of the names that `table` knows, in small letters; the others are passed over. */
  function Codes(names: seq<string>, table: map<string, string>): seq<string> {
    if names == [] then []
    else
      var name := WireNames.Lowered(names[0]);
      (if name in table then [table[name]] else []) + Codes(names[1..], table)
  }

  function Modifiers(chord: string, table: map<string, string>): seq<string> {
    Codes(Parts(chord)[..|Parts(chord)| - 1], table)
  }

  function Key(chord: string): string { WireNames.Lowered(Parts(chord)[|Parts(chord)| - 1]) }

  /** The name of a modifier or of a key other than plus. */
  predicate IsName(s: string) { s != "" && '+' !in s }

  predicate AreNames(names: seq<string>) { forall s :: s in names ==> IsName(s) }

  /** Joining a plus key is joining two empty parts. */
  lemma {:induction false} PlusIsTwoEmpties(names: seq<string>)
    ensures Join(names + ["+"], "+") == Join(names + ["", ""], "+")
  {
    if names == [] {
      assert names + ["+"] == ["+"] && names + ["", ""] == ["", ""];
      assert ["", ""][1..] == [""];
      assert "" + ("+" + "") == "+";
    } else {
      assert (names + ["+"])[1..] == names[1..] + ["+"];
      assert (names + ["", ""])[1..] == names[1..] + ["", ""];
      PlusIsTwoEmpties(names[1..]);
    }
  }

  lemma {:induction false} PartsOfName(names: seq<string>, key: string)
    requires AreNames(names) && IsName(key)
    ensures Parts(Join(names + [key], "+")) == names + [key]
  {
    SplitJoin(names + [key], '+');
  }

  lemma {:induction false} PartsOfPlus(names: seq<string>)
    requires AreNames(names)
    ensures Parts(Join(names + ["+"], "+")) == names + ["+"]
  {
    PlusIsTwoEmpties(names);
    SplitJoin(names + ["", ""], '+');
    assert (names + ["", ""])[..|names|] == names;
  }

  /** Reading a chord undoes joining it, also when its key is the plus. */
  lemma {:induction false} ReadingUndoesJoining(names: seq<string>, key: string, table: map<string, string>)
    requires AreNames(names) && (IsName(key) || key == "+")
    ensures var chord := Join(names + [key], "+");
            && Parts(chord) == names + [key]
            && Modifiers(chord, table) == Codes(names, table) && Key(chord) == WireNames.Lowered(key)
  {
    if key == "+" {
      PartsOfPlus(names);
    } else {
      PartsOfName(names, key);
    }
    assert (names + [key])[..|names|] == names;
  }

  /** One plus at the end is read as the key and costs the name before it. */
  lemma {:induction false} LonePlusDropsName(names: seq<string>, last: string)
    requires AreNames(names) && IsName(last)
    ensures Parts(Join(names + [last, ""], "+")) == names + ["+"]
  {
    SplitJoin(names + [last, ""], '+');
    assert (names + [last, ""])[..|names|] == names;
  }

  /** The chord ends in one plus with another character in front of it. */
  predicate EndsInLonePlus(chord: string) {
    |chord| >= 2 && chord[|chord| - 1] == '+' && chord[|chord| - 2] != '+'
  }

  /** The last part of a text, and whether the one before it is empty, by its last characters. */
  lemma {:induction false} LastPart(chord: string)
    ensures var ps := Split(chord, '+'); var n := |ps|;
            && (ps[n - 1] == "" <==> chord == "" || chord[|chord| - 1] == '+')
            && (n > 1 && ps[n - 1] == "" ==> (ps[n - 2] == "" <==> |chord| == 1 || chord[|chord| - 2] == '+'))
            && (n == 1 ==> ps == [chord])
    decreases |chord|
  {
    if chord != "" {
      var rest := Split(chord[1..], '+');
      LastPart(chord[1..]);
      if chord[0] == '+' {
        assert Split(chord, '+') == [""] + rest;
      } else {
        assert Split(chord, '+') == [[chord[0]] + rest[0]] + rest[1..];
        assert chord == [chord[0]] + chord[1..];
      }
    }
  }

  /** Reading loses nothing of a chord exactly when it does not end in one plus behind
      another character. */
  lemma {:induction false} NothingLostIff(chord: string)
    ensures Join(Parts(chord), "+") == chord <==> !EndsInLonePlus(chord)
  {
    var ps := Split(chord, '+');
    var n := |ps|;
    JoinSplit(chord, '+');
    LastPart(chord);
    if n > 1 && ps[n - 1] == "" {
      var names := ps[..n - 2];
      assert ps == names + [ps[n - 2], ""];
      PlusIsTwoEmpties(names);
      if ps[n - 2] != "" {
        JoinLonger(names, ps[n - 2]);
      }
    }
  }

  lemma {:induction false} JoinLonger(names: seq<string>, last: string)
    requires last != ""
    ensures |Join(names + ["", ""], "+")| < |Join(names + [last, ""], "+")|
  {
    if names == [] {
      assert names + ["", ""] == ["", ""] && names + [last, ""] == [last, ""];
      assert ["", ""][1..] == [""] && [last, ""][1..] == [""];
    } else {
      assert (names + ["", ""])[1..] == names[1..] + ["", ""];
      assert (names + [last, ""])[1..] == names[1..] + [last, ""];
      JoinLonger(names[1..], last);
    }
  }

  // ----- Pressing it -----

  datatype Action = Down(key: string) | Pause(ms: nat) | Up(key: string)

  function Downs(keys: seq<string>): seq<Action> {
    if keys == [] then [] else [Down(keys[0])] + Downs(keys[1..])
  }

  /** The modifiers let go in reverse. */
  function Ups(keys: seq<string>): seq<Action> {
    if keys == [] then [] else Ups(keys[1..]) + [Up(keys[0])]
  }

  function Tap(key: string): seq<Action> { [Down(key), Pause(60), Up(key)] }

  /** The actions `press_chord` sends. */
  function Actions(mods: seq<string>, key: string): seq<Action> {
    Downs(mods) + (Tap(key) + Ups(mods))
  }

  /** What is held after some actions, the last key pressed being the first let go; none
      when a key comes up out of turn. */
  function Held(actions: seq<Action>, held: seq<string>): Option<seq<string>>
    decreases |actions|
  {
    if actions == [] then Some(held)
    else
      match actions[0]
      case Down(k) => Held(actions[1..], held + [k])
      case Pause(_) => Held(actions[1..], held)
      case Up(k) => if held != [] && held[|held| - 1] == k then Held(actions[1..], held[..|held| - 1]) else None
  }

  lemma {:induction false} HeldBoth(a: seq<Action>, b: seq<Action>, held: seq<string>, mid: seq<string>)
    requires Held(a, held) == Some(mid)
    ensures Held(a + b, held) == Held(b, mid)
    decreases |a|
  {
    if a == [] {
      assert a + b == b;
    } else {
      assert (a + b)[1..] == a[1..] + b;
      match a[0]
      case Down(k) => HeldBoth(a[1..], b, held + [k], mid);
      case Pause(_) => HeldBoth(a[1..], b, held, mid);
      case Up(k) => HeldBoth(a[1..], b, held[..|held| - 1], mid);
    }
  }

  lemma {:induction false} DownsHold(keys: seq<string>, held: seq<string>)
    ensures Held(Downs(keys), held) == Some(held + keys)
  {
    if keys == [] {
      assert held + keys == held;
    } else {
      assert ([Down(keys[0])] + Downs(keys[1..]))[1..] == Downs(keys[1..]);
      assert held + [keys[0]] + keys[1..] == held + keys;
      DownsHold(keys[1..], held + [keys[0]]);
    }
  }

  lemma {:induction false} UpsRelease(keys: seq<string>, held: seq<string>)
    ensures Held(Ups(keys), held + keys) == Some(held)
  {
    if keys == [] {
      assert held + keys == held;
    } else {
      assert held + keys == (held + [keys[0]]) + keys[1..];
      UpsRelease(keys[1..], held + [keys[0]]);
      HeldBoth(Ups(keys[1..]), [Up(keys[0])], held + keys, held + [keys[0]]);
      assert [Up(keys[0])][1..] == [];
      assert (held + [keys[0]])[..|held|] == held;
    }
  }

  lemma {:induction false} TapHolds(key: string, held: seq<string>)
    ensures Held(Tap(key), held) == Some(held)
  {
    var all := held + [key];
    assert [Up(key)][1..] == [] && all[..|held|] == held;
    assert Held([Up(key)], all) == Some(held);
    assert [Pause(60), Up(key)][1..] == [Up(key)];
    assert Held([Pause(60), Up(key)], all) == Some(held);
    assert Tap(key)[1..] == [Pause(60), Up(key)];
  }

  lemma {:induction false} DownsAt(keys: seq<string>)
    ensures |Downs(keys)| == |keys|
  {
    if keys != [] {
      DownsAt(keys[1..]);
    }
  }

  /** The key goes down when exactly the modifiers are held, is held with them through a
      pause of 60 milliseconds and comes up first; every key comes up in turn and none is
      left held. */
  lemma {:induction false} ChordNests(mods: seq<string>, key: string, held: seq<string>)
    ensures var all, n := Actions(mods, key), |mods|;
            && |all| == 2 * n + 3 && all[n..n + 3] == [Down(key), Pause(60), Up(key)]
            && Held(all[..n], held) == Some(held + mods)
            && Held(all[..n + 1], held) == Some(held + mods + [key])
            && Held(all[..n + 3], held) == Some(held + mods)
            && Held(all, held) == Some(held)
  {
    var all, n := Actions(mods, key), |mods|;
    DownsAt(mods);
    UpsAt(mods);
    assert all[..n] == Downs(mods) && all[..n + 1] == Downs(mods) + [Down(key)] && all[..n + 3] == Downs(mods) + Tap(key);
    DownsHold(mods, held);
    HeldBoth(Downs(mods), [Down(key)], held, held + mods);
    assert [Down(key)][1..] == [];
    HeldBoth(Downs(mods), Tap(key), held, held + mods);
    TapHolds(key, held + mods);
    assert all == all[..n + 3] + Ups(mods);
    HeldBoth(all[..n + 3], Ups(mods), held, held + mods);
    UpsRelease(mods, held);
  }

  lemma {:induction false} UpsAt(keys: seq<string>)
    ensures |Ups(keys)| == |keys|
  {
    if keys != [] {
      UpsAt(keys[1..]);
    }
  }

  // ----- A chord, pressed -----

  /** `press_chord`. */
  function Press(chord: string, table: map<string, string>): seq<Action> {
    Actions(Modifiers(chord, table), Key(chord))
  }

  /** A name in small letters. */
  predicate IsLowered(name: string, r: string) {
    |r| == |name| && forall i :: 0 <= i < |name| ==> r[i] == WireNames.Lower(name[i])
  }

  lemma {:induction false} CodesBoth(a: seq<string>, b: seq<string>, table: map<string, string>)
    ensures Codes(a + b, table) == Codes(a, table) + Codes(b, table)
  {
    if a == [] {
      assert a + b == b;
    } else {
      assert (a + b)[1..] == a[1..] + b;
      CodesBoth(a[1..], b, table);
    }
  }

  /** The codepoints of the modifiers: list by list, each known name gives its own. */
  lemma {:induction false} CodesMeaning(a: seq<string>, name: string, small: string, b: seq<string>, table: map<string, string>)
    requires IsLowered(name, small)
    ensures Codes(a + [name] + b, table) ==
            Codes(a, table) + (if small in table then [table[small]] else []) + Codes(b, table)
  {
    WireNames.LoweredAt(name);
    assert small == WireNames.Lowered(name);
    assert ([name] + b)[1..] == b;
    CodesBoth(a, [name] + b, table);
    assert a + ([name] + b) == a + [name] + b;
  }

  lemma {:induction false} KnownCodes(names: seq<string>, small: seq<string>, table: map<string, string>)
    requires |small| == |names| && forall i :: 0 <= i < |names| ==> IsLowered(names[i], small[i]) && small[i] in table
    ensures Codes(names, table) == seq(|names|, i requires 0 <= i < |names| => table[small[i]])
  {
    if names != [] {
      WireNames.LoweredAt(names[0]);
      assert small[0] == WireNames.Lowered(names[0]);
      KnownCodes(names[1..], small[1..], table);
    }
  }

  /** A chord written as a menu writes it, of modifiers the table knows and a key: the key
      in small letters is pressed while exactly the modifiers are held, in their order. */
  lemma {:induction false} ChordPressed(names: seq<string>, small: seq<string>, key: string, smallKey: string, table: map<string, string>)
    requires AreNames(names) && (IsName(key) || key == "+") && IsLowered(key, smallKey)
    requires |small| == |names| && forall i :: 0 <= i < |names| ==> IsLowered(names[i], small[i]) && small[i] in table
    ensures var all := Press(Join(names + [key], "+"), table);
            var codes := seq(|names|, i requires 0 <= i < |names| => table[small[i]]);
            && |all| == 2 * |names| + 3
            && all[|names|..|names| + 3] == [Down(smallKey), Pause(60), Up(smallKey)]
            && Held(all[..|names|], []) == Some(codes) && Held(all, []) == Some([])
  {
    ReadingUndoesJoining(names, key, table);
    KnownCodes(names, small, table);
    WireNames.LoweredAt(key);
    assert smallKey == WireNames.Lowered(key);
    var codes := Codes(names, table);
    ChordNests(codes, smallKey, []);
    assert [] + codes == codes;
  }
}
