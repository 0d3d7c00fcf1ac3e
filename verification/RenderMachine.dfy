/**
 The harness object itself: fields updated one callback at a time, beside a ghost log of
 what the page and the window did. The class invariant ties the log to the fields at
 every stage; `Run` is the main loop, and what it returns is what the process exits with.
 */
module RenderMachine {
  import opened Strings
  import opened RenderModel
  import opened RenderRuns

  /** The questions that prepare the page. */
  predicate BelongsToSetup(stage: Stage) {
    stage.PaintAsked? || stage.StylesAsked? || stage.MeasureAsked? || stage.TypeAsked? || stage.ClickAsked?
  }

  /** The element was there. */
  predicate Landed(a: Answer) { a.Text? && !Missing(a) }

  class Render {
    const cfg: Config
    var stage: Stage
    var status: int
    var textChecked: bool
    var pending: seq<string>
    var current: string
    var paintDeadline: int
    var openDeadline: int
    var probeDeadline: int
    var axeWaited: nat
    var axeFailures: nat
    var now: int
    var due: int
    ghost var log: seq<Fact>

    function View(): State
      reads this
    {
      State(stage, status, textChecked, pending, current, paintDeadline, openDeadline,
            probeDeadline, axeWaited, axeFailures, now, due)
    }

    ghost predicate Valid()
      reads this
    {
      Consistent(cfg, View(), log)
    }

    constructor (args: Config)
      ensures Valid() && View() == Start() && cfg == args && log == []
    {
      cfg := args;
      stage, status, textChecked := Loading, 1, false;
      pending, current := [], "";
      paintDeadline, openDeadline, probeDeadline := 0, 0, 0;
      axeWaited, axeFailures := 0, 0;
      now, due := 0, 0;
      log := [];
    }

    method Refuse(code: int)
      modifies this
      ensures View() == Fail(old(View()), code) && log == old(log)
    {
      status := code;
      stage := Done;
    }

    method TimeoutAdd(ms: int, next: Stage)
      modifies this
      ensures View() == After(old(View()), ms, next) && log == old(log)
    {
      if 0 <= ms < 0x1_0000_0000 {
        stage, due := next, now + 1000 * ms;
      } else {
        stage := Stalled;
      }
    }

    /** The paint poll never ends the run and learns nothing that the log keeps. */
    method Painted(a: Answer)
      requires Valid() && stage.PaintAsked?
      modifies this
      ensures Valid() && View() == OnPainted(cfg, old(View()), a)
      ensures log == old(log) == [] && !stage.Done? && status == 1
    {
      PaintedKeeps(cfg, View(), a, Host(0, Readable, Readable), log);
      assert log + [] == log;
      if !SeesInk(a) && now < paintDeadline {
        TimeoutAdd(PAINT_POLL, AwaitPaintLater);
        return;
      }
      TimeoutAdd(cfg.settleMs, CheckStylesLater);
    }

    /** The page is measured only after clean styles and a zoom in bounds, and a run that
        quits here leaves no picture. */
    method StylesChecked(a: Answer, host: Host)
      requires Valid() && stage.StylesAsked?
      modifies this
      ensures Valid() && View() == OnStylesChecked(cfg, old(View()), a, host)
      ensures log == old(log) + Observed(cfg, old(View()), Answered(now, a, host))
      ensures stage.MeasureLater? ==> log == [NoRawStyles, ZoomInBounds]
      ensures stage.Done? ==> status in {4, 6, 9} && PngWritten !in log
    {
      StylesKeeps(cfg, View(), a, host, log);
      log := log + Observed(cfg, View(), Answered(now, a, host));
      var raw := RawStyles(a);
      if Truthy(raw) {
        if Nameable(raw) {
          Refuse(9);
        } else {
          stage := Stalled;
        }
        return;
      }
      SetPageWidth(host.surface);
    }

    method SetPageWidth(surface: int)
      modifies this
      ensures View() == SetWidth(cfg, old(View()), surface) && log == old(log)
    {
      if surface <= 0 {
        Refuse(6);
        return;
      }
      if cfg.width == 0 {
        stage := Stalled;
        return;
      }
      var zoom := surface as real / cfg.width as real;
      ZoomByDividing(cfg, surface);
      if !(MIN_ZOOM <= zoom <= MAX_ZOOM) {
        Refuse(4);
        return;
      }
      TimeoutAdd(cfg.reflowMs, MeasureLater);
    }

    /** Typing, clicking and the last questions start only on a page wide enough. */
    method Measured(a: Answer, host: Host)
      requires Valid() && stage.MeasureAsked?
      modifies this
      ensures Valid() && View() == OnMeasured(cfg, old(View()), a, host)
      ensures log == old(log) + Observed(cfg, old(View()), Answered(now, a, host))
      ensures !stage.Done? && !stage.Stalled? ==> log == [NoRawStyles, ZoomInBounds, WidthMet]
      ensures stage.ClickAsked? ==> [current] + pending == cfg.open
    {
      MeasuredMeans(cfg, View(), a, host, log);
      log := log + Observed(cfg, View(), Answered(now, a, host));
      match ReadViewport(a) {
        case Unreadable =>
          Refuse(6);
        case NotNumbers =>
          stage := Stalled;
        case Viewport(w) =>
          if cfg.requireWidth.Some? {
            if !IsNumber(w) {
              stage := Stalled;
              return;
            }
            if AsReal(w) < cfg.requireWidth.value as real {
              Refuse(4);
              return;
            }
          }
          if cfg.typeInto != "" {
            stage := TypeAsked;
            return;
          }
          if cfg.open != [] {
            pending := cfg.open;
            ClickNext();
            return;
          }
          FinishRun(host);
      }
    }

    /** Typing is logged exactly when the field was there, and then the whole list of
        selectors is queued. */
    method TypedInto(a: Answer)
      requires Valid() && stage.TypeAsked?
      modifies this
      ensures Valid() && View() == OnTyped(cfg, old(View()), a)
      ensures log == old(log) + (if Landed(a) then [Typed] else [])
      ensures Typed in log ==> log == Sized(cfg) && pending == cfg.open
      ensures Typed !in log ==> stage.Done? && status in {5, 6}
    {
      TypedMeans(cfg, View(), a, log);
      log := log + (if Landed(a) then [Typed] else []);
      if a.Raised? {
        Refuse(6);
        return;
      }
      if Missing(a) {
        Refuse(5);
        return;
      }
      if cfg.open != [] {
        pending := cfg.open;
        TimeoutAdd(cfg.settleMs, ClickLater);
        return;
      }
      TimeoutAdd(cfg.settleMs, FinishLater);
    }

    /** The head of the queue becomes the current selector; the queue is not empty. */
    method ClickNext()
      requires pending != []
      modifies this
      ensures View() == ClickOpen(old(View())) && log == old(log)
      ensures [current] + pending == old(pending)
    {
      current, pending := pending[0], pending[1..];
      openDeadline := now + OPEN_WAIT;
      stage := ClickAsked;
    }

    /** A click that landed moves its selector from the queue to the log; one that did not
        leaves both as they were. */
    method ClickAnswered(a: Answer)
      requires Valid() && stage.ClickAsked?
      modifies this
      ensures Valid() && View() == OnOpened(cfg, old(View()), a)
      ensures log == old(log) + (if Landed(a) then [Clicked(current)] else [])
      ensures log + Clicks(if Landed(a) then pending else [current] + pending) == Opened(cfg)
    {
      OpenedMeans(cfg, View(), a, log);
      log := log + (if Landed(a) then [Clicked(current)] else []);
      if a.Raised? {
        Refuse(6);
        return;
      }
      if Missing(a) {
        if now < openDeadline {
          TimeoutAdd(CLICK_RETRY, RetryLater);
          return;
        }
        Refuse(5);
        return;
      }
      if pending != [] {
        TimeoutAdd(CLICK_GAP, ClickLater);
        return;
      }
      TimeoutAdd(cfg.settleMs, FinishLater);
    }

    /** The probe, the audit and the picture wait for the whole set-up. */
    method FinishRun(host: Host)
      requires pending == [] && status == 1 && axeFailures == 0
      requires if textChecked then log == Setup(cfg) else log == Opened(cfg)
      modifies this
      ensures Valid() && View() == Finish(cfg, old(View()), host) && log == old(log)
      ensures stage.TextAsked? <==> cfg.requireText != "" && !old(textChecked)
      ensures !stage.TextAsked? ==> log == Setup(cfg)
    {
      FinishKeeps(cfg, View(), host, log);
      assert Opened(cfg) + [] == Opened(cfg);
      if cfg.requireText != "" && !textChecked {
        textChecked := true;
        stage := TextAsked;
        return;
      }
      if cfg.Probes() {
        if cfg.probeFile && !host.probeSource.Readable? {
          stage := Stalled;
          return;
        }
        probeDeadline := now + PROBE_WAIT;
        stage := ProbeSent;
      } else if cfg.axe {
        match host.axeSource {
          case OsError => Refuse(8);
          case OtherError => stage := Stalled;
          case Readable => axeWaited, stage := 0, AxeSent;
        }
      } else {
        stage := SnapshotAsked;
      }
    }

    /** The run goes on exactly when the page says the text, and then the set-up is whole. */
    method TextRead(a: Answer, host: Host)
      requires Valid() && stage.TextAsked?
      modifies this
      ensures Valid() && View() == OnRequireText(cfg, old(View()), a, host)
      ensures if a.Text? && Contains(a.s, cfg.requireText) then log == Setup(cfg) && !stage.TextAsked?
              else log == Opened(cfg) && stage.Done? && status == 11
    {
      if a.Raised? || !Contains(a.s, cfg.requireText) {
        TextKeeps(cfg, View(), a, host, log);
        assert log + [] == log;
        Refuse(11);
        return;
      }
      log := log + [TextPresent];
      FinishRun(host);
    }

    method ProbeStarted(a: Answer)
      requires Valid() && stage.ProbeSent?
      modifies this
      ensures Valid() && View() == OnProbeStarted(old(View()), a) && log == old(log)
    {
      ProbeKeeps(cfg, View(), a, Host(0, Readable, Readable), log);
      assert log + [] == log;
      if a.Raised? {
        Refuse(10);
        return;
      }
      stage := ProbeAsked;
    }

    /** The status is set to 0 exactly when the probe has answered, behind the whole set-up. */
    method ProbeRead(a: Answer)
      requires Valid() && stage.ProbeAsked?
      modifies this
      ensures Valid() && View() == OnProbe(old(View()), a)
      ensures log == Setup(cfg) + (if a.Text? && a.s != PROBE_PENDING then [ProbeAnswered] else [])
      ensures status == 0 <==> ProbeAnswered in log
    {
      ProbeKeeps(cfg, View(), a, Host(0, Readable, Readable), log);
      NothingAsked(cfg);
      assert log + [] == log;
      if a.Raised? {
        Refuse(10);
        return;
      }
      if a.s == PROBE_PENDING {
        if now < probeDeadline {
          TimeoutAdd(PROBE_POLL, ReadProbeLater);
          return;
        }
        Refuse(10);
        return;
      }
      log := log + [ProbeAnswered];
      status := 0;
      stage := SnapshotAsked;
    }

    method AxeStarted(a: Answer)
      requires Valid() && stage.AxeSent?
      modifies this
      ensures Valid() && View() == OnAxeStarted(old(View()), a) && log == old(log)
    {
      AxeStartedKeeps(cfg, View(), a, Host(0, Readable, Readable), log);
      assert log + [] == log;
      if a.Raised? {
        Refuse(8);
        return;
      }
      TimeoutAdd(AXE_POLL, PollAxeLater);
    }

    method AxePolled()
      requires Valid() && stage.PollAxeLater?
      modifies this
      ensures Valid() && View() == PollAxe(old(View())) && log == old(log)
      ensures stage.AxeAsked? <==> old(axeWaited) + AXE_POLL <= AXE_LIMIT
    {
      PollKeeps(cfg, View(), log);
      axeWaited := axeWaited + AXE_POLL;
      if axeWaited > AXE_LIMIT {
        Refuse(8);
        return;
      }
      stage := AxeAsked;
    }

    /** The picture is taken exactly when the audit was read, with its findings counted. */
    method AxeRead(a: Answer)
      requires Valid() && stage.AxeAsked?
      modifies this
      ensures Valid() && View() == OnAxe(old(View()), a)
      ensures log == Setup(cfg) + (if AxeCount(a).Some? then [AxeFound(AxeCount(a).value)] else [])
      ensures stage.SnapshotAsked? <==> AxeFound(axeFailures) in log
    {
      AuditMeans(cfg, View(), a, log);
      log := log + (if AxeCount(a).Some? then [AxeFound(AxeCount(a).value)] else []);
      if a.Raised? || "ERR:" <= a.s {
        Refuse(8);
        return;
      }
      if a.s == "" {
        TimeoutAdd(AXE_POLL, PollAxeLater);
        return;
      }
      if a.s != "null" && a.parsed.None? {
        Refuse(8);
        return;
      }
      match Findings(if a.s == "null" then Arr([]) else a.parsed.value) {
        case None => stage := Stalled;
        case Some(n) => axeFailures, stage := n, SnapshotAsked;
      }
    }

    /** A picture written completes the log, and the status says whether there were findings. */
    method SnapshotTaken(a: Answer)
      requires Valid() && stage.SnapshotAsked?
      modifies this
      ensures Valid() && View() == OnSnapshot(old(View()), a) && stage.Done?
      ensures if a.Text? then log == Complete(cfg, axeFailures) && status in {0, 1} else log == old(log) && status == 7
      ensures a.Text? ==> (status == 0 <==> axeFailures == 0)
    {
      SnapshotKeeps(cfg, View(), a, Host(0, Readable, Readable), log);
      assert log + [] == log;
      if a.Raised? {
        Refuse(7);
        return;
      }
      log := log + [PngWritten];
      status := if axeFailures > 0 then 1 else 0;
      stage := Done;
    }

    method DeliverTick(host: Host)
      requires Valid() && stage.IsTimer()
      modifies this
      ensures Valid() && View() == OnTick(cfg, old(View()), host) && log == old(log)
    {
      TickKeeps(cfg, View(), host, log);
      match stage {
        case AwaitPaintLater => stage := PaintAsked;
        case CheckStylesLater => stage := StylesAsked;
        case MeasureLater => stage := MeasureAsked;
        case ClickLater => ClickNext();
        case RetryLater => stage := ClickAsked;
        case FinishLater =>
          AllClicked(cfg, View(), log);
          FinishRun(host);
        case ReadProbeLater => stage := ProbeAsked;
        case PollAxeLater => AxePolled();
      }
    }

    method DeliverAnswer(a: Answer, host: Host)
      requires Valid() && stage.IsEvaluation()
      modifies this
      ensures Valid() && View() == OnAnswer(cfg, old(View()), a, host)
      ensures log == old(log) + Observed(cfg, old(View()), Answered(now, a, host))
    {
      if BelongsToSetup(stage) {
        DeliverSetup(a, host);
      } else {
        DeliverLast(a, host);
      }
    }

    method DeliverSetup(a: Answer, host: Host)
      requires Valid() && BelongsToSetup(stage)
      modifies this
      ensures Valid() && View() == OnAnswer(cfg, old(View()), a, host)
      ensures log == old(log) + Observed(cfg, old(View()), Answered(now, a, host))
    {
      assert log + [] == log;
      match stage {
        case PaintAsked => Painted(a);
        case StylesAsked => StylesChecked(a, host);
        case MeasureAsked => Measured(a, host);
        case TypeAsked => TypedInto(a);
        case ClickAsked => ClickAnswered(a);
      }
    }

    method DeliverLast(a: Answer, host: Host)
      requires Valid() && stage.IsEvaluation() && !BelongsToSetup(stage)
      modifies this
      ensures Valid() && View() == OnAnswer(cfg, old(View()), a, host)
      ensures log == old(log) + Observed(cfg, old(View()), Answered(now, a, host))
    {
      assert log + [] == log;
      match stage {
        case TextAsked => TextRead(a, host);
        case ProbeSent => ProbeStarted(a);
        case ProbeAsked => ProbeRead(a);
        case AxeSent => AxeStarted(a);
        case AxeAsked => AxeRead(a);
        case SnapshotAsked => SnapshotTaken(a);
      }
    }

    /** The load events and the timeout establish nothing. */
    method Signal(e: Event)
      requires Valid() && Enabled(View(), e) && !e.Tick? && !e.Answered?
      modifies this
      ensures Valid() && View() == Step(cfg, old(View()), e) && log == old(log)
    {
      SignalKeeps(cfg, View(), e, log);
      now := e.at;
      match e {
        case LoadChanged(_, finished) =>
          if finished {
            paintDeadline := now + cfg.paintTimeout;
            stage := PaintAsked;
          }
        case LoadFailed(_) => Refuse(9);
        case GaveUp(_) => Refuse(5);
      }
    }

    method Fire(e: Event)
      requires Valid() && Enabled(View(), e) && e.Tick?
      modifies this
      ensures Valid() && View() == Step(cfg, old(View()), e) && log == old(log)
    {
      ClockKeeps(cfg, View(), e.at, log);
      SeenThen(cfg, View(), e);
      now := e.at;
      DeliverTick(e.host);
    }

    method Reply(e: Event)
      requires Valid() && Enabled(View(), e) && e.Answered?
      modifies this
      ensures Valid() && View() == Step(cfg, old(View()), e)
      ensures log == old(log) + Observed(cfg, old(View()), e)
    {
      ClockKeeps(cfg, View(), e.at, log);
      SeenThen(cfg, View(), e);
      now := e.at;
      DeliverAnswer(e.answer, e.host);
    }

    /** Every event keeps the invariant and logs exactly what it established. */
    method Deliver(e: Event)
      requires Valid() && Enabled(View(), e)
      modifies this
      ensures Valid() && View() == Step(cfg, old(View()), e)
      ensures log == old(log) + Observed(cfg, old(View()), e)
    {
      if e.Answered? {
        Reply(e);
        return;
      }
      assert log + [] == log;
      if e.Tick? {
        Fire(e);
      } else {
        Signal(e);
      }
    }

    /** The main loop over the events of one run. A run that quits with 0 has the
        complete log; one that quits with neither 0 nor 1 left no picture. */
    method Run(run: seq<Event>) returns (exit: int)
      requires Valid() && View() == Start() && log == [] && Possible(cfg, run)
      modifies this
      ensures Valid() && View() == Reached(cfg, run) && log == Log(cfg, run) && exit == status
      ensures stage.Done? ==> (exit == 0 <==> log == Complete(cfg, 0))
      ensures stage.Done? ==> (PngWritten in log <==> exit in {0, 1})
    {
      for i := 0 to |run|
        invariant Possible(cfg, run[..i])
        invariant Valid() && View() == Reached(cfg, run[..i]) && log == Log(cfg, run[..i])
      {
        PossiblePrefix(cfg, run, i + 1);
        assert run[..i + 1][..i] == run[..i];
        Deliver(run[i]);
      }
      assert run[..|run|] == run;
      if stage.Done? {
        ExitStatus(cfg, run);
      }
      exit := status;
    }
  }

  /** What the log lacks of the clicks is what is left in the queue. */
  lemma {:induction false} ClicksLeft(cfg: Config, s: State, log: seq<Fact>, left: seq<string>)
    requires Queued(cfg, s, log, left)
    ensures log + Clicks(left) == Opened(cfg)
    ensures left != [] ==> log + [Clicked(left[0])] + Clicks(left[1..]) == Opened(cfg)
  {
    var k := |cfg.open| - |left|;
    assert Clicks(cfg.open) == Clicks(cfg.open[..k]) + Clicks(left);
    if left != [] {
      assert Clicks(left) == [Clicked(left[0])] + Clicks(left[1..]);
    }
  }

  lemma {:induction false} MeasuredMeans(cfg: Config, s: State, a: Answer, host: Host, log: seq<Fact>)
    requires Consistent(cfg, s, log) && s.stage.MeasureAsked?
    ensures Consistent(cfg, OnMeasured(cfg, s, a, host), log + Observed(cfg, s, Answered(s.now, a, host)))
    ensures log == [NoRawStyles, ZoomInBounds]
    ensures s.pending == [] && s.status == 1 && s.axeFailures == 0 && !s.textChecked
    ensures cfg.typeInto == "" && cfg.open == [] ==> log + [WidthMet] == Opened(cfg)
  {
    MeasuredKeeps(cfg, s, a, host, log);
    assert Clicks([]) == [];
  }

  lemma {:induction false} TypedMeans(cfg: Config, s: State, a: Answer, log: seq<Fact>)
    requires Consistent(cfg, s, log) && s.stage.TypeAsked?
    ensures var t, l := OnTyped(cfg, s, a), log + (if Landed(a) then [Typed] else []);
            && Consistent(cfg, t, l)
            && (Typed in l ==> l == Sized(cfg) && t.pending == cfg.open)
            && (Typed !in l ==> t.stage.Done? && t.status in {5, 6})
  {
    TypedKeeps(cfg, s, a, Host(0, Readable, Readable), log);
  }

  lemma {:induction false} OpenedMeans(cfg: Config, s: State, a: Answer, log: seq<Fact>)
    requires Consistent(cfg, s, log) && s.stage.ClickAsked?
    ensures var l := log + (if Landed(a) then [Clicked(s.current)] else []);
            && Consistent(cfg, OnOpened(cfg, s, a), l)
            && l + Clicks(if Landed(a) then s.pending else [s.current] + s.pending) == Opened(cfg)
  {
    OpenedKeeps(cfg, s, a, Host(0, Readable, Readable), log);
    assert log + [] == log;
    ClicksLeft(cfg, s, log, [s.current] + s.pending);
  }

  lemma {:induction false} AuditMeans(cfg: Config, s: State, a: Answer, log: seq<Fact>)
    requires Consistent(cfg, s, log) && s.stage.AxeAsked?
    ensures var t, l := OnAxe(s, a), log + (if AxeCount(a).Some? then [AxeFound(AxeCount(a).value)] else []);
            && Consistent(cfg, t, l)
            && (t.stage.SnapshotAsked? <==> AxeFound(t.axeFailures) in l)
    ensures log == Setup(cfg)
  {
    AxeKeeps(cfg, s, a, Host(0, Readable, Readable), log);
    NothingAsked(cfg);
  }

  /** What an event establishes does not depend on the clock. */
  lemma {:induction false} SeenThen(cfg: Config, s: State, e: Event)
    requires Enabled(s, e) && (e.Tick? || e.Answered?)
    ensures e.Tick? ==> Observed(cfg, s, e) == [] && Step(cfg, s, e) == OnTick(cfg, s.(now := e.at), e.host)
    ensures e.Answered? ==>
              && Observed(cfg, s.(now := e.at), Answered(e.at, e.answer, e.host)) == Observed(cfg, s, e)
              && Step(cfg, s, e) == OnAnswer(cfg, s.(now := e.at), e.answer, e.host)
  {
  }

  lemma {:induction false} AllClicked(cfg: Config, s: State, log: seq<Fact>)
    requires Consistent(cfg, s, log) && s.stage.FinishLater?
    ensures log == Opened(cfg) && !s.textChecked && s.pending == []
  {
    ClicksLeft(cfg, s, log, []);
    assert Clicks([]) == [];
  }

  lemma {:induction false} NothingAsked(cfg: Config)
    ensures ProbeAnswered !in Setup(cfg)
    ensures forall n: nat :: AxeFound(n) !in Setup(cfg)
  {
  }
}
