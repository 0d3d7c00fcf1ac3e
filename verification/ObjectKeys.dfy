/** The top-level keys of a JavaScript object literal, and printed literals. */
module ObjectKeys {
  import opened Splitting

  // ----- The scan -----

  /** Outside strings at some bracket depth, or inside a string. */
  datatype Scan = Out(depth: int) | In(depth: int, quote: char, escaped: bool)

  predicate IsQuote(c: char) { c == '"' || c == '\'' || c == '`' }

  predicate IsOpen(c: char) { c == '{' || c == '[' || c == '(' }

  predicate IsClose(c: char) { c == '}' || c == ']' || c == ')' }

  function Step(st: Scan, c: char): Scan {
    match st
    case Out(d) => if IsOpen(c) then Out(d + 1) else if IsClose(c) then Out(d - 1) else if IsQuote(c) then In(d, c, false) else st
    case In(d, q, escaped) => if escaped then In(d, q, false) else if c == q then Out(d) else In(d, q, c == '\\')
  }

  /** A colon that follows a top-level key. */
  predicate IsKeyColon(st: Scan, c: char) { c == ':' && st == Out(1) }

  // ----- The name before a colon -----

  predicate IsBlank(c: char) { c == ' ' || c == '\n' || c == '\t' }

  predicate IsNameChar(c: char) {
    'a' <= c <= 'z' || 'A' <= c <= 'Z' || '0' <= c <= '9' || c == '_' || c == '$' || IsMark(c)
  }

  /** By its code: the two marks, the dollar, digits, capitals, the underscore and small letters. */
  lemma {:induction false} NameCharIff(c: char)
    ensures IsNameChar(c) <==>
            var n := c as int;
            n == 34 || n == 36 || n == 39 || 48 <= n <= 57 || 65 <= n <= 90 || n == 95 || 97 <= n <= 122
  {
  }

  predicate IsMark(c: char) { c == '"' || c == '\'' }

  /** Past the blanks that end `s`. */
  function DropBlanks(s: string): (r: string)
    ensures |r| <= |s| && r == s[..|r|]
  {
    if s != "" && IsBlank(s[|s| - 1]) then DropBlanks(s[..|s| - 1]) else s
  }

  /** Past the name that ends `s`. */
  function DropName(s: string): (r: string)
    ensures |r| <= |s| && r == s[..|r|]
  {
    if s != "" && IsNameChar(s[|s| - 1]) then DropName(s[..|s| - 1]) else s
  }

  function UnmarkLeft(s: string): string {
    if s != "" && IsMark(s[0]) then UnmarkLeft(s[1..]) else s
  }

  function UnmarkRight(s: string): string {
    if s != "" && IsMark(s[|s| - 1]) then UnmarkRight(s[..|s| - 1]) else s
  }

  /** The name that ends `before`, without its quotation marks. */
  function NameIn(before: string): string {
    var s := DropBlanks(before);
    UnmarkRight(UnmarkLeft(s[|DropName(s)|..]))
  }

  function Named(before: string): set<string> {
    if NameIn(before) == "" then {} else {NameIn(before)}
  }

  /** The keys found in `s`, `before` being read already. */
  function Keys(st: Scan, before: string, s: string): set<string>
    decreases |s|
  {
    if s == "" then {}
    else
      (if IsKeyColon(st, s[0]) then Named(before) else {})
      + Keys(Step(st, s[0]), before + [s[0]], s[1..])
  }

  function Braced(body: string): string {
    if Strip(body) != "" && Strip(body)[0] == '{' then body else "{" + body + "}"
  }

  /** What `js_keys` returns. */
  function TopKeys(body: string): set<string> { Keys(Out(0), "", Braced(body)) }

  // ----- `js_keys` -----

  /** The keys still to be found, standing at `i`. */
  function KeysAt(st: Scan, body: string, i: nat): set<string> {
    if i <= |body| then Keys(st, body[..i], body[i..]) else {}
  }

  lemma {:induction false} KeysStep(st: Scan, body: string, i: nat)
    requires i < |body|
    ensures KeysAt(st, body, i) ==
            (if IsKeyColon(st, body[i]) then Named(body[..i]) else {}) + KeysAt(Step(st, body[i]), body, i + 1)
  {
    assert body[i..][1..] == body[i + 1..] && body[..i] + [body[i]] == body[..i + 1];
  }

  lemma {:induction false} KeysEscape(depth: int, quote: char, body: string, i: nat)
    ensures KeysAt(In(depth, quote, true), body, i) == KeysAt(In(depth, quote, false), body, i + 1)
  {
    if i < |body| {
      KeysStep(In(depth, quote, true), body, i);
    }
  }

  /** The inner loop over a string: the index of its closing quote, or past the end. */
  method SkipString(body: string, from: nat, depth: int, quote: char) returns (i: nat)
    requires IsQuote(quote)
    ensures from <= i
    ensures KeysAt(In(depth, quote, false), body, from) == KeysAt(Out(depth), body, i + 1)
  {
    i := from;
    ghost var target := KeysAt(In(depth, quote, false), body, from);
    while i < |body| && body[i] != quote
      invariant from <= i
      invariant target == KeysAt(In(depth, quote, false), body, i)
      decreases |body| - i
    {
      KeysStep(In(depth, quote, false), body, i);
      if body[i] == '\\' {
        KeysEscape(depth, quote, body, i + 1);
        i := i + 2;
      } else {
        i := i + 1;
      }
    }
    if i < |body| {
      KeysStep(In(depth, quote, false), body, i);
    }
  }

  /** Past the marks that begin a name. */
  function FirstBare(s: string, i: nat): (r: nat)
    requires i <= |s|
    ensures i <= r <= |s|
    decreases |s| - i
  {
    if i < |s| && IsMark(s[i]) then FirstBare(s, i + 1) else i
  }

  lemma {:induction false} UnmarkLeftBySlice(s: string, i: nat)
    requires i <= |s|
    ensures UnmarkLeft(s[i..]) == s[FirstBare(s, i)..]
    decreases |s| - i
  {
    if i < |s| && IsMark(s[i]) {
      assert s[i..][1..] == s[i + 1..];
      UnmarkLeftBySlice(s, i + 1);
    }
  }

  /** `str.strip` with the two quotation marks. */
  method StripMarks(s: string) returns (r: string)
    ensures r == UnmarkRight(UnmarkLeft(s))
  {
    var i := 0;
    while i < |s| && (s[i] == '"' || s[i] == '\'')
      invariant 0 <= i <= |s| && FirstBare(s, i) == FirstBare(s, 0)
    {
      i := i + 1;
    }
    UnmarkLeftBySlice(s, 0);
    assert s[0..] == s;
    var t := s[i..];
    var j := |t|;
    assert t[..j] == t;
    while j > 0 && (t[j - 1] == '"' || t[j - 1] == '\'')
      invariant 0 <= j <= |t| && UnmarkRight(t[..j]) == UnmarkRight(t)
    {
      assert t[..j][..j - 1] == t[..j - 1];
      j := j - 1;
    }
    r := t[..j];
  }

  /** The first backward loop: past the blanks in front of a colon. */
  method BlanksBack(body: string, i: nat) returns (j: nat)
    requires i <= |body|
    ensures j <= i && DropBlanks(body[..i]) == body[..j]
  {
    j := i;
    while j > 0 && (body[j - 1] == ' ' || body[j - 1] == '\n' || body[j - 1] == '\t')
      invariant 0 <= j <= i
      invariant DropBlanks(body[..j]) == DropBlanks(body[..i])
    {
      assert body[..j][..j - 1] == body[..j - 1];
      j := j - 1;
    }
  }

  /** The second: past the name. */
  method NameBack(body: string, j: nat) returns (k: nat)
    requires j <= |body|
    ensures k <= j && DropName(body[..j]) == body[..k]
  {
    k := j;
    while k > 0 && IsNameChar(body[k - 1])
      invariant 0 <= k <= j
      invariant DropName(body[..k]) == DropName(body[..j])
    {
      assert body[..k][..k - 1] == body[..k - 1];
      k := k - 1;
    }
  }

  /** The name in front of the colon at `i`. */
  method NameBefore(body: string, i: nat) returns (name: string)
    requires i <= |body|
    ensures name == NameIn(body[..i])
  {
    var j := BlanksBack(body, i);
    var k := NameBack(body, j);
    assert body[..j][k..] == body[k..j];
    name := StripMarks(body[k..j]);
  }

  /** `js_keys`. */
  method JsKeys(raw: string) returns (out: set<string>)
    ensures out == TopKeys(raw)
  {
    var body := Braced(raw);
    out := {};
    var depth, i := 0, 0;
    ghost var whole := KeysAt(Out(0), body, 0);
    assert body[..0] == "" && body[0..] == body;
    while i < |body|
      invariant 0 <= i
      invariant out + KeysAt(Out(depth), body, i) == whole
      decreases |body| - i
    {
      var c := body[i];
      KeysStep(Out(depth), body, i);
      if c == '{' || c == '[' || c == '(' {
        depth := depth + 1;
      } else if c == '}' || c == ']' || c == ')' {
        depth := depth - 1;
      } else if c == '"' || c == '\'' || c == '`' {
        i := SkipString(body, i + 1, depth, c);
      } else if depth == 1 && c == ':' {
        var name := NameBefore(body, i);
        if name != "" {
          out := out + {name};
        }
      }
      i := i + 1;
    }
  }
}
