/**
 The render harness as a state machine: one page, one window, and at any moment
 one outstanding continuation - a timer or a JavaScript evaluation - whose
 answer decides what is asked next. The page is adversarial: answers are
 arbitrary. Times are microseconds of the monotonic clock.
 */
module RenderModel {
  import opened Strings

  /** What `json.loads` can hand back. */
  datatype Json =
    | Null
    | Bool(b: bool)
    | Num(n: real)
    | Str(s: string)
    | Arr(items: seq<Json>)
    | Obj(fields: map<string, Json>)

  /** What a finished evaluation hands back: an exception, or a string together
      with what `json.loads` makes of it (`None` when it cannot be decoded). */
  datatype Answer = Raised | Text(s: string, parsed: Option<Json>)

  /** How reading a file ends: its text, an `OSError`, any other exception. */
  datatype FileRead = Readable | OsError | OtherError

  /** What the host answers synchronously while a callback runs. */
  datatype Host = Host(surface: int, axeSource: FileRead, probeSource: FileRead)

  /** The command line. An option that was not given, or was given empty, is the
      empty string or sequence: the source tests all of them for truth. */
  datatype Config = Config(
    width: int,
    settleMs: int,
    reflowMs: int,
    paintTimeout: int,
    typeInto: string,
    open: seq<string>,
    requireText: string,
    requireWidth: Option<int>,
    probe: bool,
    probeFile: bool,
    axe: bool)
  {
    predicate Probes() { probe || probeFile }
    predicate Audits() { axe && !Probes() }
  }

  /** The continuation the main loop is holding. `...Later` is a timer, `...Asked`
      and `...Sent` an evaluation. A callback that dies on an exception leaves
      nothing outstanding: `Stalled`. */
  datatype Stage =
    | Loading
    | PaintAsked | AwaitPaintLater
    | CheckStylesLater | StylesAsked
    | MeasureLater | MeasureAsked
    | TypeAsked
    | ClickLater | ClickAsked | RetryLater
    | FinishLater | TextAsked
    | ProbeSent | ProbeAsked | ReadProbeLater
    | AxeSent | PollAxeLater | AxeAsked
    | SnapshotAsked
    | Stalled
    | Done
  {
    predicate IsTimer() {
      || AwaitPaintLater? || CheckStylesLater? || MeasureLater? || ClickLater? || RetryLater?
      || FinishLater? || ReadProbeLater? || PollAxeLater?
    }

    predicate IsEvaluation() {
      || PaintAsked? || StylesAsked? || MeasureAsked? || TypeAsked? || ClickAsked? || TextAsked?
      || ProbeSent? || ProbeAsked? || AxeSent? || AxeAsked? || SnapshotAsked?
    }
  }

  datatype State = State(
    stage: Stage,
    status: int,
    textChecked: bool,
    pending: seq<string>,
    current: string,
    paintDeadline: int,
    openDeadline: int,
    probeDeadline: int,
    axeWaited: nat,
    axeFailures: nat,
    now: int,
    due: int)

  datatype Event =
    | LoadChanged(at: int, finished: bool)
    | LoadFailed(at: int)
    | GaveUp(at: int)
    | Tick(at: int, host: Host)
    | Answered(at: int, answer: Answer, host: Host)

  const OPEN_WAIT := 5_000_000
  const PROBE_WAIT := 10_000_000
  const PAINT_POLL := 120
  const CLICK_RETRY := 200
  const CLICK_GAP := 300
  const PROBE_POLL := 100
  const AXE_POLL := 200
  const AXE_LIMIT := 30_000
  const MIN_ZOOM := 0.2
  const MAX_ZOOM := 6.0
  const PROBE_PENDING := "arlen-probe-pending"

  function Start(): State {
    State(Loading, 1, false, [], "", 0, 0, 0, 0, 0, 0, 0)
  }

  // ----- Python's view of a JSON value -----

  predicate Truthy(v: Json) {
    match v
    case Null => false
    case Bool(b) => b
    case Num(n) => n != 0.0
    case Str(s) => s != ""
    case Arr(items) => items != []
    case Obj(fields) => fields != map[]
  }

  predicate IsNumber(v: Json) { v.Num? || v.Bool? }

  function AsReal(v: Json): real
    requires IsNumber(v)
  {
    match v
    case Num(n) => n
    case Bool(b) => if b then 1.0 else 0.0
  }

  /** `", ".join(raw[:6])` succeeds. */
  predicate Nameable(raw: Json) {
    || raw.Str?
    || (raw.Arr? && forall i | 0 <= i < |raw.items| && i < 6 :: raw.items[i].Str?)
  }

  /** One axe finding prints without raising. */
  predicate Printable(v: Json) {
    && v.Obj?
    && "id" in v.fields && "impact" in v.fields && "help" in v.fields && "n" in v.fields
    && ("data" in v.fields && Truthy(v.fields["data"]) ==>
          match v.fields["data"]
          case Obj(_) => true
          case Arr(items) => Str("contrastRatio") !in items
          case Str(s) => !Contains(s, "contrastRatio")
          case _ => false)
  }

  /** The number of findings in a decoded axe payload; `None` when counting or
      printing them raises. */
  function Findings(found: Json): Option<nat> {
    match found
    case Str("") => Some(0)
    case Obj(fields) => if fields == map[] then Some(0) else None
    case Arr(items) =>
      if forall i | 0 <= i < |items| :: Printable(items[i]) then Some(|items|) else None
    case _ => None
  }

  /** The zoom that brings a surface to the width asked for is in bounds, said without
      dividing. */
  predicate ZoomFits(cfg: Config, surface: int) {
    cfg.width > 0 && MIN_ZOOM * cfg.width as real <= surface as real <= MAX_ZOOM * cfg.width as real
  }

  lemma {:induction false} ZoomByDividing(cfg: Config, surface: int)
    requires surface > 0 && cfg.width != 0
    ensures ZoomFits(cfg, surface) <==> 0.2 <= surface as real / cfg.width as real <= 6.0
  {
    Dividing(surface as real, cfg.width as real, MIN_ZOOM, MAX_ZOOM);
  }

  lemma {:induction false} Dividing(s: real, w: real, lo: real, hi: real)
    requires s > 0.0 && w != 0.0
    ensures w > 0.0 ==> (lo <= s / w <==> lo * w <= s) && (s / w <= hi <==> s <= hi * w)
    ensures w < 0.0 ==> s / w < 0.0
  {
    var zoom := s / w;
    assert zoom * w == s;
    Product(zoom, w, lo);
    Product(zoom, w, hi);
    Product(zoom, w, 0.0);
  }

  lemma {:induction false} Product(zoom: real, w: real, b: real)
    ensures w > 0.0 ==> (b <= zoom <==> b * w <= zoom * w) && (zoom <= b <==> zoom * w <= b * w)
    ensures w < 0.0 && b <= zoom ==> zoom * w <= b * w
  {
  }

  function RawStyles(a: Answer): Json {
    if a.Text? && a.parsed.Some? then a.parsed.value else Arr([])
  }

  /** What unpacking the viewport gives: three values, or nothing to unpack, or a
      triple whose third member is a character or a key. */
  datatype Viewport = Unreadable | NotNumbers | Viewport(cssWidth: Json)

  function ReadViewport(a: Answer): Viewport {
    if a.Raised? || a.parsed.None? then Unreadable else
    match a.parsed.value
    case Arr(items) =>
      if |items| != 3 then Unreadable
      else if IsNumber(items[2]) then Viewport(items[0]) else NotNumbers
    case Str(s) => if |s| == 3 then NotNumbers else Unreadable
    case Obj(fields) => if |fields| == 3 then NotNumbers else Unreadable
    case _ => Unreadable
  }

  /** The page said that it has drawn something. */
  predicate SeesInk(a: Answer) { a.Text? && a.parsed.Some? && Truthy(a.parsed.value) }

  predicate Missing(a: Answer) { a.Text? && Contains(a.s, "missing") }

  // ----- The callbacks, in the order a run meets them -----

  function Fail(s: State, status: int): State {
    s.(stage := Done, status := status)
  }

  /** `GLib.timeout_add`, which takes an unsigned 32-bit interval and raises otherwise. */
  function After(s: State, ms: int, next: Stage): State {
    if 0 <= ms < 0x1_0000_0000 then s.(stage := next, due := s.now + 1000 * ms)
    else s.(stage := Stalled)
  }

  function OnLoad(cfg: Config, s: State, finished: bool): State {
    if finished then s.(paintDeadline := s.now + cfg.paintTimeout, stage := PaintAsked) else s
  }

  function OnPainted(cfg: Config, s: State, a: Answer): State {
    if !SeesInk(a) && s.now < s.paintDeadline then After(s, PAINT_POLL, AwaitPaintLater)
    else After(s, cfg.settleMs, CheckStylesLater)
  }

  function OnStylesChecked(cfg: Config, s: State, a: Answer, host: Host): State {
    var raw := RawStyles(a);
    if Truthy(raw) then if Nameable(raw) then Fail(s, 9) else s.(stage := Stalled)
    else SetWidth(cfg, s, host.surface)
  }

  function SetWidth(cfg: Config, s: State, surface: int): State {
    if surface <= 0 then Fail(s, 6)
    else if cfg.width == 0 then s.(stage := Stalled)
    else if !ZoomFits(cfg, surface) then Fail(s, 4)
    else After(s, cfg.reflowMs, MeasureLater)
  }

  function OnMeasured(cfg: Config, s: State, a: Answer, host: Host): State {
    match ReadViewport(a)
    case Unreadable => Fail(s, 6)
    case NotNumbers => s.(stage := Stalled)
    case Viewport(w) =>
      if cfg.requireWidth.Some? && !IsNumber(w) then s.(stage := Stalled)
      else if cfg.requireWidth.Some? && AsReal(w) < cfg.requireWidth.value as real then Fail(s, 4)
      else if cfg.typeInto != "" then s.(stage := TypeAsked)
      else if cfg.open != [] then ClickOpen(s.(pending := cfg.open))
      else Finish(cfg, s, host)
  }

  function OnTyped(cfg: Config, s: State, a: Answer): State {
    if a.Raised? then Fail(s, 6)
    else if Missing(a) then Fail(s, 5)
    else if cfg.open != [] then After(s.(pending := cfg.open), cfg.settleMs, ClickLater)
    else After(s, cfg.settleMs, FinishLater)
  }

  function ClickOpen(s: State): State {
    if s.pending == [] then s.(stage := Stalled)
    else s.(current := s.pending[0], pending := s.pending[1..],
            openDeadline := s.now + OPEN_WAIT, stage := ClickAsked)
  }

  function OnOpened(cfg: Config, s: State, a: Answer): State {
    if a.Raised? then Fail(s, 6)
    else if Missing(a) then
      if s.now < s.openDeadline then After(s, CLICK_RETRY, RetryLater) else Fail(s, 5)
    else if s.pending != [] then After(s, CLICK_GAP, ClickLater)
    else After(s, cfg.settleMs, FinishLater)
  }

  function Finish(cfg: Config, s: State, host: Host): State {
    if cfg.requireText != "" && !s.textChecked then s.(textChecked := true, stage := TextAsked)
    else if cfg.Probes() then RunProbe(cfg, s, host)
    else if cfg.axe then RunAxe(s, host)
    else s.(stage := SnapshotAsked)
  }

  function OnRequireText(cfg: Config, s: State, a: Answer, host: Host): State {
    if a.Raised? || !Contains(a.s, cfg.requireText) then Fail(s, 11) else Finish(cfg, s, host)
  }

  function RunProbe(cfg: Config, s: State, host: Host): State {
    if cfg.probeFile && !host.probeSource.Readable? then s.(stage := Stalled)
    else s.(probeDeadline := s.now + PROBE_WAIT, stage := ProbeSent)
  }

  function OnProbeStarted(s: State, a: Answer): State {
    if a.Raised? then Fail(s, 10) else s.(stage := ProbeAsked)
  }

  function OnProbe(s: State, a: Answer): State {
    if a.Raised? then Fail(s, 10)
    else if a.s == PROBE_PENDING then
      if s.now < s.probeDeadline then After(s, PROBE_POLL, ReadProbeLater) else Fail(s, 10)
    else s.(status := 0, stage := SnapshotAsked)
  }

  function RunAxe(s: State, host: Host): State {
    match host.axeSource
    case OsError => Fail(s, 8)
    case OtherError => s.(stage := Stalled)
    case Readable => s.(axeWaited := 0, stage := AxeSent)
  }

  function OnAxeStarted(s: State, a: Answer): State {
    if a.Raised? then Fail(s, 8) else After(s, AXE_POLL, PollAxeLater)
  }

  function PollAxe(s: State): State {
    var t := s.(axeWaited := s.axeWaited + AXE_POLL);
    if t.axeWaited > AXE_LIMIT then Fail(t, 8) else t.(stage := AxeAsked)
  }

  function OnAxe(s: State, a: Answer): State {
    if a.Raised? || "ERR:" <= a.s then Fail(s, 8)
    else if a.s == "" then After(s, AXE_POLL, PollAxeLater)
    else if a.s != "null" && a.parsed.None? then Fail(s, 8)
    else
      match Findings(if a.s == "null" then Arr([]) else a.parsed.value)
      case None => s.(stage := Stalled)
      case Some(n) => s.(axeFailures := n, stage := SnapshotAsked)
  }

  function OnSnapshot(s: State, a: Answer): State {
    if a.Raised? then Fail(s, 7)
    else s.(status := if s.axeFailures > 0 then 1 else 0, stage := Done)
  }

  // ----- The main loop -----

  /** The main loop can deliver `e`: nothing after `quit`, the clock is monotone, a
      timer is not early, an answer belongs to an outstanding evaluation, and the
      page finishes loading once. */
  predicate Enabled(s: State, e: Event) {
    && !s.stage.Done?
    && s.now <= e.at
    && match e
       case LoadChanged(_, finished) => finished ==> s.stage.Loading?
       case LoadFailed(_) => true
       case GaveUp(_) => true
       case Tick(at, _) => s.stage.IsTimer() && s.due <= at
       case Answered(_, _, _) => s.stage.IsEvaluation()
  }

  function OnTick(cfg: Config, s: State, host: Host): State
    requires s.stage.IsTimer()
  {
    match s.stage
    case AwaitPaintLater => s.(stage := PaintAsked)
    case CheckStylesLater => s.(stage := StylesAsked)
    case MeasureLater => s.(stage := MeasureAsked)
    case ClickLater => ClickOpen(s)
    case RetryLater => s.(stage := ClickAsked)
    case FinishLater => Finish(cfg, s, host)
    case ReadProbeLater => s.(stage := ProbeAsked)
    case PollAxeLater => PollAxe(s)
  }

  function OnAnswer(cfg: Config, s: State, a: Answer, host: Host): State
    requires s.stage.IsEvaluation()
  {
    match s.stage
    case PaintAsked => OnPainted(cfg, s, a)
    case StylesAsked => OnStylesChecked(cfg, s, a, host)
    case MeasureAsked => OnMeasured(cfg, s, a, host)
    case TypeAsked => OnTyped(cfg, s, a)
    case ClickAsked => OnOpened(cfg, s, a)
    case TextAsked => OnRequireText(cfg, s, a, host)
    case ProbeSent => OnProbeStarted(s, a)
    case ProbeAsked => OnProbe(s, a)
    case AxeSent => OnAxeStarted(s, a)
    case AxeAsked => OnAxe(s, a)
    case SnapshotAsked => OnSnapshot(s, a)
  }

  function Step(cfg: Config, s0: State, e: Event): State
    requires Enabled(s0, e)
  {
    var s := s0.(now := e.at);
    match e
    case LoadChanged(_, finished) => OnLoad(cfg, s, finished)
    case LoadFailed(_) => Fail(s, 9)
    case GaveUp(_) => Fail(s, 5)
    case Tick(_, host) => OnTick(cfg, s, host)
    case Answered(_, a, host) => OnAnswer(cfg, s, a, host)
  }

  /** A sequence of events the main loop can deliver from the start of a run. */
  predicate Possible(cfg: Config, run: seq<Event>)
    decreases |run|, 0
  {
    run == [] ||
    (Possible(cfg, run[..|run| - 1]) && Enabled(Reached(cfg, run[..|run| - 1]), run[|run| - 1]))
  }

  /** The state a run ends in. */
  function Reached(cfg: Config, run: seq<Event>): State
    requires Possible(cfg, run)
    decreases |run|, 1
  {
    if run == [] then Start()
    else Step(cfg, Reached(cfg, run[..|run| - 1]), run[|run| - 1])
  }

  lemma {:induction false} PossiblePrefix(cfg: Config, run: seq<Event>, k: nat)
    requires Possible(cfg, run) && k <= |run|
    ensures Possible(cfg, run[..k])
    decreases |run|
  {
    if k < |run| {
      assert run[..|run| - 1][..k] == run[..k];
      PossiblePrefix(cfg, run[..|run| - 1], k);
    } else {
      assert run[..k] == run;
    }
  }
}
