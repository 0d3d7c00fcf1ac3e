/** What every run of the render harness keeps, and what its exit status means. */
module RenderRuns {
  import opened Strings
  import opened RenderModel

  /** What the page and the window actually did during a run. */
  datatype Fact =
    | NoRawStyles
    | ZoomInBounds
    | WidthMet
    | Typed
    | Clicked(selector: string)
    | TextPresent
    | ProbeAnswered
    | AxeFound(n: nat)
    | PngWritten

  predicate MeetsWidth(cfg: Config, w: Json) {
    cfg.requireWidth.Some? ==> IsNumber(w) && cfg.requireWidth.value as real <= AsReal(w)
  }

  function AxeCount(a: Answer): Option<nat> {
    if a.Raised? || "ERR:" <= a.s || a.s == "" then None
    else if a.s == "null" then Some(0)
    else if a.parsed.None? then None
    else Findings(a.parsed.value)
  }

  /** The facts one delivered event establishes, read off the question that was
      outstanding and the answer alone. */
  function Observed(cfg: Config, s: State, e: Event): seq<Fact> {
    if !e.Answered? then [] else
    match s.stage
    case StylesAsked =>
      if Truthy(RawStyles(e.answer)) then []
      else if e.host.surface > 0 && ZoomFits(cfg, e.host.surface) then [NoRawStyles, ZoomInBounds]
      else [NoRawStyles]
    case MeasureAsked =>
      var v := ReadViewport(e.answer);
      if v.Viewport? && MeetsWidth(cfg, v.cssWidth) then [WidthMet] else []
    case TypeAsked => if e.answer.Text? && !Missing(e.answer) then [Typed] else []
    case ClickAsked => if e.answer.Text? && !Missing(e.answer) then [Clicked(s.current)] else []
    case TextAsked => if e.answer.Text? && Contains(e.answer.s, cfg.requireText) then [TextPresent] else []
    case ProbeAsked => if e.answer.Text? && e.answer.s != PROBE_PENDING then [ProbeAnswered] else []
    case AxeAsked => if AxeCount(e.answer).Some? then [AxeFound(AxeCount(e.answer).value)] else []
    case SnapshotAsked => if e.answer.Text? then [PngWritten] else []
    case _ => []
  }

  function Log(cfg: Config, run: seq<Event>): seq<Fact>
    requires Possible(cfg, run)
  {
    if run == [] then []
    else
      var before := run[..|run| - 1];
      Log(cfg, before) + Observed(cfg, Reached(cfg, before), run[|run| - 1])
  }

  // ----- The log a run must have -----

  function Clicks(selectors: seq<string>): (r: seq<Fact>)
    ensures |r| == |selectors|
    ensures PngWritten !in r
  {
    seq(|selectors|, i requires 0 <= i < |selectors| => Clicked(selectors[i]))
  }

  /** Everything up to the click queue. */
  function Sized(cfg: Config): seq<Fact> {
    [NoRawStyles, ZoomInBounds, WidthMet] + (if cfg.typeInto != "" then [Typed] else [])
  }

  function Opened(cfg: Config): seq<Fact> { Sized(cfg) + Clicks(cfg.open) }

  /** Everything that must have happened before the probe, the audit or the shot. */
  function Setup(cfg: Config): seq<Fact> {
    Opened(cfg) + (if cfg.requireText != "" then [TextPresent] else [])
  }

  /** The last question of the run, with the number of findings it was given. */
  function Asked(cfg: Config, n: nat): seq<Fact> {
    if cfg.Probes() then [ProbeAnswered] else if cfg.axe then [AxeFound(n)] else []
  }

  /** The complete log of a run that wrote its picture. */
  function Complete(cfg: Config, n: nat): seq<Fact> {
    Setup(cfg) + Asked(cfg, n) + [PngWritten]
  }

  /** `log` is an initial part of a complete log. */
  predicate InOrder(cfg: Config, log: seq<Fact>, n: nat) { log <= Complete(cfg, n) }

  // ----- The invariant -----

  /** The status and the findings before the quit, and stage by stage the exact log so far,
      the exact queue and the flag. */
  ghost predicate Consistent(cfg: Config, s: State, log: seq<Fact>) {
    && (!s.stage.Done? ==> (s.status == 1 || s.status == 0))
    && (!s.stage.Done? ==> (s.status == 0 <==> s.stage.SnapshotAsked? && cfg.Probes()))
    && (s.axeFailures > 0 ==> cfg.Audits() && (s.stage.SnapshotAsked? || s.stage.Done?))
    && InOrder(cfg, log, s.axeFailures)
    && Sizing(cfg, s, log) && Clicking(cfg, s, log) && Asking(cfg, s, log) && Ending(cfg, s, log)
  }

  ghost predicate Sizing(cfg: Config, s: State, log: seq<Fact>) {
    match s.stage
    case Loading => Early(s, log, [])
    case PaintAsked => Early(s, log, [])
    case AwaitPaintLater => Early(s, log, [])
    case CheckStylesLater => Early(s, log, [])
    case StylesAsked => Early(s, log, [])
    case MeasureLater => Early(s, log, [NoRawStyles, ZoomInBounds])
    case MeasureAsked => Early(s, log, [NoRawStyles, ZoomInBounds])
    case TypeAsked => cfg.typeInto != "" && Early(s, log, [NoRawStyles, ZoomInBounds, WidthMet])
    case _ => true
  }

  ghost predicate Clicking(cfg: Config, s: State, log: seq<Fact>) {
    match s.stage
    case ClickLater => Queued(cfg, s, log, s.pending) && s.pending != []
    case ClickAsked => Queued(cfg, s, log, [s.current] + s.pending)
    case RetryLater => Queued(cfg, s, log, [s.current] + s.pending)
    case FinishLater => Queued(cfg, s, log, []) && s.pending == []
    case _ => true
  }

  ghost predicate Asking(cfg: Config, s: State, log: seq<Fact>) {
    match s.stage
    case TextAsked => cfg.requireText != "" && s.textChecked && s.pending == [] && log == Opened(cfg)
    case ProbeSent => Final(cfg, s, log) && cfg.Probes()
    case ProbeAsked => Final(cfg, s, log) && cfg.Probes()
    case ReadProbeLater => Final(cfg, s, log) && cfg.Probes()
    case AxeSent => Final(cfg, s, log) && cfg.Audits() && s.axeWaited == 0
    case PollAxeLater => Final(cfg, s, log) && cfg.Audits() && s.axeWaited <= AXE_LIMIT
    case AxeAsked => Final(cfg, s, log) && cfg.Audits() && s.axeWaited <= AXE_LIMIT
    case _ => true
  }

  ghost predicate Ending(cfg: Config, s: State, log: seq<Fact>) {
    match s.stage
    case SnapshotAsked => s.pending == [] && log == Setup(cfg) + Asked(cfg, s.axeFailures)
    case Stalled => PngWritten !in log
    case Done =>
      if s.status == 0 || s.status == 1 then
        log == Complete(cfg, s.axeFailures) && (s.status == 0 <==> s.axeFailures == 0)
      else PngWritten !in log
    case _ => true
  }

  /** Before the click queue is filled. */
  ghost predicate Early(s: State, log: seq<Fact>, expected: seq<Fact>) {
    log == expected && !s.textChecked && s.pending == []
  }

  /** In the click queue: what is left to click is exactly what the log lacks. */
  ghost predicate Queued(cfg: Config, s: State, log: seq<Fact>, left: seq<string>) {
    && !s.textChecked
    && |left| <= |cfg.open|
    && left == cfg.open[|cfg.open| - |left|..]
    && log == Sized(cfg) + Clicks(cfg.open[..|cfg.open| - |left|])
  }

  ghost predicate Final(cfg: Config, s: State, log: seq<Fact>) {
    log == Setup(cfg) && s.pending == []
  }

  // ----- Small facts about logs -----

  lemma {:induction false} SetupOrder(cfg: Config, n: nat, k: nat)
    requires k <= |cfg.open|
    ensures InOrder(cfg, Sized(cfg) + Clicks(cfg.open[..k]), n)
    ensures InOrder(cfg, Opened(cfg), n)
    ensures InOrder(cfg, Setup(cfg), n)
    ensures InOrder(cfg, Setup(cfg) + Asked(cfg, n), n)
    ensures PngWritten !in Setup(cfg) + Asked(cfg, n)
  {
    assert Clicks(cfg.open[..k]) == Clicks(cfg.open)[..k];
    var c := Complete(cfg, n);
    assert c[..|Sized(cfg)| + k] == Sized(cfg) + Clicks(cfg.open)[..k];
    assert c[..|Opened(cfg)|] == Opened(cfg);
  }

  lemma {:induction false} NoPictureYet(cfg: Config, log: seq<Fact>, n: nat)
    requires InOrder(cfg, log, n) && |log| < |Complete(cfg, n)|
    ensures PngWritten !in log
  {
    SetupOrder(cfg, n, 0);
    assert log <= Setup(cfg) + Asked(cfg, n);
  }

  // ----- Every step keeps the invariant -----

  lemma {:induction false} RefusalKeeps(cfg: Config, s: State, log: seq<Fact>, status: int)
    requires status != 0 && status != 1
    requires InOrder(cfg, log, s.axeFailures) && |log| < |Complete(cfg, s.axeFailures)|
    requires s.axeFailures > 0 ==> cfg.Audits()
    ensures Consistent(cfg, Fail(s, status), log)
    ensures s.status == 1 && s.axeFailures == 0 ==> Consistent(cfg, s.(stage := Stalled), log)
  {
    NoPictureYet(cfg, log, s.axeFailures);
  }

  /** The last step, from the end of the click queue or from the text check. */
  lemma {:induction false} FinishKeeps(cfg: Config, s: State, host: Host, log: seq<Fact>)
    requires s.pending == [] && s.status == 1 && s.axeFailures == 0
    requires if s.textChecked then log == Setup(cfg) else log == Opened(cfg)
    ensures Consistent(cfg, Finish(cfg, s, host), log)
  {
    SetupOrder(cfg, 0, 0);
    RefusalKeeps(cfg, s, log, 8);
    if cfg.requireText == "" {
      assert Setup(cfg) == Opened(cfg);
    }
    assert Setup(cfg) + [] == Setup(cfg);
  }

  lemma {:induction false} ClickKeeps(cfg: Config, s: State, log: seq<Fact>)
    requires s.pending != [] && s.status == 1 && s.axeFailures == 0
    requires Queued(cfg, s, log, s.pending)
    ensures Consistent(cfg, ClickOpen(s), log)
  {
    SetupOrder(cfg, 0, |cfg.open| - |s.pending|);
    assert [s.pending[0]] + s.pending[1..] == s.pending;
  }

  lemma {:induction false} TickKeeps(cfg: Config, s: State, host: Host, log: seq<Fact>)
    requires Consistent(cfg, s, log) && s.stage.IsTimer()
    ensures Consistent(cfg, OnTick(cfg, s, host), log)
  {
    match s.stage
    case ClickLater => ClickKeeps(cfg, s, log);
    case FinishLater =>
      assert cfg.open[..|cfg.open|] == cfg.open;
      FinishKeeps(cfg, s, host, log);
    case PollAxeLater => PollKeeps(cfg, s, log);
    case AwaitPaintLater => AskKeeps(cfg, s, PaintAsked, log);
    case CheckStylesLater => AskKeeps(cfg, s, StylesAsked, log);
    case MeasureLater => AskKeeps(cfg, s, MeasureAsked, log);
    case RetryLater => AskKeeps(cfg, s, ClickAsked, log);
    case ReadProbeLater => AskKeeps(cfg, s, ProbeAsked, log);
  }

  /** The waits that end in a question and change nothing else. */
  lemma {:induction false} AskKeeps(cfg: Config, s: State, next: Stage, log: seq<Fact>)
    requires Consistent(cfg, s, log)
    requires match s.stage
             case AwaitPaintLater => next == PaintAsked
             case CheckStylesLater => next == StylesAsked
             case MeasureLater => next == MeasureAsked
             case RetryLater => next == ClickAsked
             case ReadProbeLater => next == ProbeAsked
             case _ => false
    ensures Consistent(cfg, s.(stage := next), log)
  {
  }

  lemma {:induction false} PollKeeps(cfg: Config, s: State, log: seq<Fact>)
    requires Consistent(cfg, s, log) && s.stage.PollAxeLater?
    ensures Consistent(cfg, PollAxe(s), log)
  {
    SetupOrder(cfg, 0, 0);
    RefusalKeeps(cfg, s.(axeWaited := s.axeWaited + AXE_POLL), log, 8);
  }

  /** The page is wide enough: on to typing, to the queue or to the end. */
  lemma {:induction false} WideEnoughKeeps(cfg: Config, s: State, host: Host, log: seq<Fact>)
    requires Consistent(cfg, s, log) && s.stage.MeasureAsked?
    ensures cfg.typeInto != "" ==> Consistent(cfg, s.(stage := TypeAsked), log + [WidthMet])
    ensures cfg.typeInto == "" && cfg.open != [] ==> Consistent(cfg, ClickOpen(s.(pending := cfg.open)), log + [WidthMet])
    ensures cfg.typeInto == "" && cfg.open == [] ==> Consistent(cfg, Finish(cfg, s, host), log + [WidthMet])
  {
    SetupOrder(cfg, 0, 0);
    var log' := log + [WidthMet];
    assert Clicks([]) == [];
    assert cfg.open[..0] == [] && cfg.open[0..] == cfg.open;
    assert Sized(cfg) + [] == Sized(cfg);
    if cfg.typeInto != "" {
      assert log' == Sized(cfg)[..3];
    } else if cfg.open != [] {
      assert log' == Sized(cfg);
      ClickKeeps(cfg, s.(pending := cfg.open), log');
    } else {
      assert log' == Sized(cfg);
      FinishKeeps(cfg, s, host, log');
    }
  }

  lemma {:induction false} MeasuredKeeps(cfg: Config, s: State, a: Answer, host: Host, log: seq<Fact>)
    requires Consistent(cfg, s, log) && s.stage.MeasureAsked?
    ensures Consistent(cfg, OnMeasured(cfg, s, a, host), log + Observed(cfg, s, Answered(s.now, a, host)))
  {
    var v := ReadViewport(a);
    if v.Viewport? && MeetsWidth(cfg, v.cssWidth) {
      WideEnoughKeeps(cfg, s, host, log);
      assert Observed(cfg, s, Answered(s.now, a, host)) == [WidthMet];
    } else {
      NarrowKeeps(cfg, s, log);
      assert log + [] == log;
    }
  }

  lemma {:induction false} NarrowKeeps(cfg: Config, s: State, log: seq<Fact>)
    requires Consistent(cfg, s, log) && s.stage.MeasureAsked?
    ensures Consistent(cfg, Fail(s, 6), log) && Consistent(cfg, Fail(s, 4), log)
    ensures Consistent(cfg, s.(stage := Stalled), log)
  {
    SetupOrder(cfg, 0, 0);
    RefusalKeeps(cfg, s, log, 6);
    RefusalKeeps(cfg, s, log, 4);
  }

  lemma {:induction false} TypedKeeps(cfg: Config, s: State, a: Answer, host: Host, log: seq<Fact>)
    requires Consistent(cfg, s, log) && s.stage.TypeAsked?
    ensures Consistent(cfg, OnTyped(cfg, s, a), log + Observed(cfg, s, Answered(s.now, a, host)))
  {
    if a.Raised? || Missing(a) {
      assert log + [] == log;
    } else {
      SetupOrder(cfg, 0, 0);
      assert log + [Typed] == Sized(cfg) == Sized(cfg) + Clicks(cfg.open[..0]);
      SettleKeeps(cfg, s.(pending := cfg.open), log + [Typed]);
    }
  }

  lemma {:induction false} OpenedKeeps(cfg: Config, s: State, a: Answer, host: Host, log: seq<Fact>)
    requires Consistent(cfg, s, log) && s.stage.ClickAsked?
    ensures Consistent(cfg, OnOpened(cfg, s, a), log + Observed(cfg, s, Answered(s.now, a, host)))
  {
    if a.Raised? || Missing(a) {
      assert log + [] == log;
      NoHitKeeps(cfg, s, a, log);
    } else {
      ClickLogged(cfg, s, log);
      SettleKeeps(cfg, s, log + [Clicked(s.current)]);
    }
  }

  lemma {:induction false} NoHitKeeps(cfg: Config, s: State, a: Answer, log: seq<Fact>)
    requires Consistent(cfg, s, log) && s.stage.ClickAsked? && (a.Raised? || Missing(a))
    ensures Consistent(cfg, OnOpened(cfg, s, a), log)
  {
    SetupOrder(cfg, 0, |cfg.open| - 1 - |s.pending|);
    RefusalKeeps(cfg, s, log, 6);
    RefusalKeeps(cfg, s, log, 5);
  }

  /** A click moves its selector from the queue to the log. */
  lemma {:induction false} ClickLogged(cfg: Config, s: State, log: seq<Fact>)
    requires Queued(cfg, s, log, [s.current] + s.pending)
    ensures Queued(cfg, s, log + [Clicked(s.current)], s.pending)
    ensures InOrder(cfg, log + [Clicked(s.current)], 0)
  {
    var k := |cfg.open| - |s.pending|;
    assert cfg.open[k - 1..] == [s.current] + s.pending;
    assert cfg.open[k..] == cfg.open[k - 1..][1..];
    assert cfg.open[..k] == cfg.open[..k - 1] + [s.current];
    assert Clicks(cfg.open[..k]) == Clicks(cfg.open[..k - 1]) + [Clicked(s.current)];
    SetupOrder(cfg, 0, k);
  }

  lemma {:induction false} SettleKeeps(cfg: Config, s: State, log: seq<Fact>)
    requires s.status == 1 && s.axeFailures == 0
    requires Queued(cfg, s, log, s.pending) && InOrder(cfg, log, 0)
    ensures s.pending != [] ==> Consistent(cfg, After(s, CLICK_GAP, ClickLater), log)
    ensures s.pending != [] ==> Consistent(cfg, After(s, cfg.settleMs, ClickLater), log)
    ensures s.pending == [] ==> Consistent(cfg, After(s, cfg.settleMs, FinishLater), log)
  {
    assert PngWritten !in log;
  }

  lemma {:induction false} TextKeeps(cfg: Config, s: State, a: Answer, host: Host, log: seq<Fact>)
    requires Consistent(cfg, s, log) && s.stage.TextAsked?
    ensures Consistent(cfg, OnRequireText(cfg, s, a, host), log + Observed(cfg, s, Answered(s.now, a, host)))
  {
    assert log + [] == log;
    RefusalKeeps(cfg, s, log, 11);
    if a.Text? && Contains(a.s, cfg.requireText) {
      assert log + [TextPresent] == Setup(cfg);
      FinishKeeps(cfg, s, host, Setup(cfg));
    }
  }

  lemma {:induction false} ProbeKeeps(cfg: Config, s: State, a: Answer, host: Host, log: seq<Fact>)
    requires Consistent(cfg, s, log) && (s.stage.ProbeSent? || s.stage.ProbeAsked?)
    ensures Consistent(cfg, OnAnswer(cfg, s, a, host),
                       log + Observed(cfg, s, Answered(s.now, a, host)))
  {
    assert log + [] == log;
    SetupOrder(cfg, 0, 0);
  }

  lemma {:induction false} AxeKeeps(cfg: Config, s: State, a: Answer, host: Host, log: seq<Fact>)
    requires Consistent(cfg, s, log) && s.stage.AxeAsked?
    ensures Consistent(cfg, OnAxe(s, a), log + Observed(cfg, s, Answered(s.now, a, host)))
  {
    if AxeCount(a).Some? {
      AuditKeeps(cfg, s, AxeCount(a).value, log);
    } else {
      assert log + [] == log;
      NoAuditKeeps(cfg, s, log);
    }
  }

  lemma {:induction false} AuditKeeps(cfg: Config, s: State, n: nat, log: seq<Fact>)
    requires Consistent(cfg, s, log) && s.stage.AxeAsked?
    ensures Consistent(cfg, s.(axeFailures := n, stage := SnapshotAsked), log + [AxeFound(n)])
  {
    SetupOrder(cfg, n, 0);
    assert log + [AxeFound(n)] == Setup(cfg) + Asked(cfg, n);
  }

  lemma {:induction false} NoAuditKeeps(cfg: Config, s: State, log: seq<Fact>)
    requires Consistent(cfg, s, log) && s.stage.AxeAsked?
    ensures Consistent(cfg, Fail(s, 8), log) && Consistent(cfg, s.(stage := Stalled), log)
    ensures Consistent(cfg, After(s, AXE_POLL, PollAxeLater), log)
  {
    SetupOrder(cfg, 0, 0);
    RefusalKeeps(cfg, s, log, 8);
  }

  lemma {:induction false} AxeStartedKeeps(cfg: Config, s: State, a: Answer, host: Host, log: seq<Fact>)
    requires Consistent(cfg, s, log) && s.stage.AxeSent?
    ensures Consistent(cfg, OnAxeStarted(s, a), log + Observed(cfg, s, Answered(s.now, a, host)))
  {
    assert log + [] == log;
  }

  lemma {:induction false} SnapshotKeeps(cfg: Config, s: State, a: Answer, host: Host, log: seq<Fact>)
    requires Consistent(cfg, s, log) && s.stage.SnapshotAsked?
    ensures Consistent(cfg, OnSnapshot(s, a), log + Observed(cfg, s, Answered(s.now, a, host)))
  {
    assert log + [] == log;
  }

  lemma {:induction false} PaintedKeeps(cfg: Config, s: State, a: Answer, host: Host, log: seq<Fact>)
    requires Consistent(cfg, s, log) && s.stage.PaintAsked?
    ensures Consistent(cfg, OnPainted(cfg, s, a), log + Observed(cfg, s, Answered(s.now, a, host)))
  {
    assert log + [] == log;
    WaitKeeps(cfg, s, AwaitPaintLater, s.now + 1000 * PAINT_POLL, log);
    WaitKeeps(cfg, s, CheckStylesLater, s.now + 1000 * cfg.settleMs, log);
    WaitKeeps(cfg, s, Stalled, s.due, log);
  }

  lemma {:induction false} WaitKeeps(cfg: Config, s: State, next: Stage, due: int, log: seq<Fact>)
    requires Consistent(cfg, s, log) && s.stage.PaintAsked?
    requires next.AwaitPaintLater? || next.CheckStylesLater? || next.Stalled?
    ensures Consistent(cfg, s.(stage := next, due := due), log)
  {
  }

  lemma {:induction false} AnswerKeeps(cfg: Config, s: State, a: Answer, host: Host, log: seq<Fact>)
    requires Consistent(cfg, s, log) && s.stage.IsEvaluation()
    ensures Consistent(cfg, OnAnswer(cfg, s, a, host),
                       log + Observed(cfg, s, Answered(s.now, a, host)))
  {
    match s.stage
    case PaintAsked => PaintedKeeps(cfg, s, a, host, log);
    case StylesAsked => StylesKeeps(cfg, s, a, host, log);
    case MeasureAsked => MeasuredKeeps(cfg, s, a, host, log);
    case TypeAsked => TypedKeeps(cfg, s, a, host, log);
    case ClickAsked => OpenedKeeps(cfg, s, a, host, log);
    case TextAsked => TextKeeps(cfg, s, a, host, log);
    case ProbeSent => ProbeKeeps(cfg, s, a, host, log);
    case ProbeAsked => ProbeKeeps(cfg, s, a, host, log);
    case AxeSent => AxeStartedKeeps(cfg, s, a, host, log);
    case AxeAsked => AxeKeeps(cfg, s, a, host, log);
    case SnapshotAsked => SnapshotKeeps(cfg, s, a, host, log);
  }

  lemma {:induction false} StylesKeeps(cfg: Config, s: State, a: Answer, host: Host, log: seq<Fact>)
    requires Consistent(cfg, s, log) && s.stage.StylesAsked?
    ensures Consistent(cfg, OnStylesChecked(cfg, s, a, host), log + Observed(cfg, s, Answered(s.now, a, host)))
  {
    SetupOrder(cfg, 0, 0);
    assert log + [] == log;
    var log' := log + Observed(cfg, s, Answered(s.now, a, host));
    assert log' == [] || log' == [NoRawStyles] || log' == [NoRawStyles, ZoomInBounds];
    RefusalKeeps(cfg, s, log', 9);
    RefusalKeeps(cfg, s, log', 6);
    RefusalKeeps(cfg, s, log', 4);
  }

  lemma {:induction false} LoadKeeps(cfg: Config, s: State, deadline: int, log: seq<Fact>)
    requires Consistent(cfg, s, log) && s.stage.Loading?
    ensures Consistent(cfg, s.(paintDeadline := deadline, stage := PaintAsked), log)
  {
  }

  lemma {:induction false} EndKeeps(cfg: Config, s: State, status: int, log: seq<Fact>)
    requires Consistent(cfg, s, log) && !s.stage.Done? && status != 0 && status != 1
    ensures Consistent(cfg, Fail(s, status), log)
  {
    Unfinished(cfg, s, log);
    RefusalKeeps(cfg, s, log, status);
  }

  /** The load events and the timeout, at any stage. */
  lemma {:induction false} SignalKeeps(cfg: Config, s: State, e: Event, log: seq<Fact>)
    requires Enabled(s, e) && !e.Tick? && !e.Answered? && Consistent(cfg, s, log)
    ensures Consistent(cfg, Step(cfg, s, e), log)
  {
    var t := s.(now := e.at);
    ClockKeeps(cfg, s, e.at, log);
    match e
    case LoadChanged(_, finished) =>
      if finished {
        LoadKeeps(cfg, t, t.now + cfg.paintTimeout, log);
      }
    case LoadFailed(_) => EndKeeps(cfg, t, 9, log);
    case GaveUp(_) => EndKeeps(cfg, t, 5, log);
  }

  /** A run that has not quit has not its whole log. */
  lemma {:induction false} Unfinished(cfg: Config, s: State, log: seq<Fact>)
    requires Consistent(cfg, s, log) && !s.stage.Done?
    ensures |log| < |Complete(cfg, s.axeFailures)|
  {
    var c := Complete(cfg, s.axeFailures);
    assert c[|c| - 1] == PngWritten;
    SetupOrder(cfg, s.axeFailures, 0);
    assert PngWritten !in log;
  }

  lemma {:induction false} TimerKeeps(cfg: Config, s: State, e: Event, log: seq<Fact>)
    requires Enabled(s, e) && e.Tick? && Consistent(cfg, s, log)
    ensures Consistent(cfg, Step(cfg, s, e), log)
  {
    ClockKeeps(cfg, s, e.at, log);
    TickKeeps(cfg, s.(now := e.at), e.host, log);
  }

  lemma {:induction false} ReplyKeeps(cfg: Config, s: State, e: Event, log: seq<Fact>)
    requires Enabled(s, e) && e.Answered? && Consistent(cfg, s, log)
    ensures Consistent(cfg, Step(cfg, s, e), log + Observed(cfg, s, e))
  {
    ClockKeeps(cfg, s, e.at, log);
    AnswerKeeps(cfg, s.(now := e.at), e.answer, e.host, log);
  }

  lemma {:induction false} StepKeeps(cfg: Config, s: State, e: Event, log: seq<Fact>)
    requires Enabled(s, e) && Consistent(cfg, s, log)
    ensures Consistent(cfg, Step(cfg, s, e), log + Observed(cfg, s, e))
  {
    if e.Answered? {
      ReplyKeeps(cfg, s, e, log);
    } else {
      assert log + [] == log;
      if e.Tick? {
        TimerKeeps(cfg, s, e, log);
      } else {
        SignalKeeps(cfg, s, e, log);
      }
    }
  }

  lemma {:induction false} ClockKeeps(cfg: Config, s: State, at: int, log: seq<Fact>)
    requires Consistent(cfg, s, log)
    ensures Consistent(cfg, s.(now := at), log)
  {
    var t := s.(now := at);
    assert Sizing(cfg, t, log);
    assert Clicking(cfg, t, log);
    assert Asking(cfg, t, log);
  }

  lemma {:induction false} AlwaysConsistent(cfg: Config, run: seq<Event>)
    requires Possible(cfg, run)
    ensures Consistent(cfg, Reached(cfg, run), Log(cfg, run))
  {
    if run == [] {
      SetupOrder(cfg, 0, 0);
    } else {
      var before := run[..|run| - 1];
      AlwaysConsistent(cfg, before);
      StepKeeps(cfg, Reached(cfg, before), run[|run| - 1], Log(cfg, before));
    }
  }

  // ----- What the exit status means -----

  /** Over every run that quit: status 0 is exactly the complete log with nothing
      found, status 1 exactly the complete log with findings, and any other
      status leaves no picture behind. */
  lemma {:induction false} ExitStatus(cfg: Config, run: seq<Event>)
    requires Possible(cfg, run) && Reached(cfg, run).stage.Done?
    ensures Reached(cfg, run).status == 0 <==> Log(cfg, run) == Complete(cfg, 0)
    ensures Reached(cfg, run).status == 1 <==>
            cfg.Audits() && exists n: nat :: n > 0 && Log(cfg, run) == Complete(cfg, n)
    ensures PngWritten in Log(cfg, run) <==> Reached(cfg, run).status in {0, 1}
  {
    AlwaysConsistent(cfg, run);
    var s, log := Reached(cfg, run), Log(cfg, run);
    forall n: nat | log == Complete(cfg, n)
      ensures PngWritten in log && (cfg.Audits() ==> log[|Setup(cfg)|] == AxeFound(n))
    {
      assert log[|log| - 1] == PngWritten;
    }
  }

  /** Over every run, quit or not: the log is an initial part of a complete one,
      and the probe, the audit and the picture wait for the whole set-up - no
      click pending, typing done, the text seen. */
  lemma {:induction false} NothingStartsEarly(cfg: Config, run: seq<Event>)
    requires Possible(cfg, run)
    ensures exists n: nat :: InOrder(cfg, Log(cfg, run), n)
    ensures var s := Reached(cfg, run);
            s.stage in {ProbeSent, ProbeAsked, ReadProbeLater, AxeSent, PollAxeLater, AxeAsked, SnapshotAsked}
            ==> Setup(cfg) <= Log(cfg, run) && s.pending == []
    ensures Reached(cfg, run).stage.TextAsked? ==>
              Log(cfg, run) == Opened(cfg) && Reached(cfg, run).textChecked
  {
    AlwaysConsistent(cfg, run);
  }

  /** The status is 0 before `quit` exactly while a probe's picture is being
      taken, so a run cut off anywhere else does not report success. */
  lemma {:induction false} EarlyZero(cfg: Config, run: seq<Event>)
    requires Possible(cfg, run) && !Reached(cfg, run).stage.Done?
    ensures Reached(cfg, run).status == 0 <==> Reached(cfg, run).stage.SnapshotAsked? && cfg.Probes()
    ensures PngWritten !in Log(cfg, run)
  {
    AlwaysConsistent(cfg, run);
  }
}
