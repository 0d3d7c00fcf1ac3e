/**
 Where a run of the render harness dies on an exception, and what each exit status is
 the answer to: both exactly, for every run.
 */
module RenderCauses {
  import opened Strings
  import opened RenderModel
  import opened RenderRuns
  import opened RenderEnds

  // ----- What the proofs need of a reachable state -----

  predicate Fits(ms: int) { 0 <= ms < 0x1_0000_0000 }

  predicate BeforePainted(stage: Stage) {
    match stage
    case Loading | PaintAsked | AwaitPaintLater | Stalled | Done => true
    case _ => false
  }

  predicate BeforeSized(stage: Stage) {
    BeforePainted(stage) || stage.CheckStylesLater? || stage.StylesAsked?
  }

  /** The settle was a possible interval once the page has painted, and the reflow once the
      width is set. */
  predicate Timed(cfg: Config, s: State) {
    && (BeforePainted(s.stage) || Fits(cfg.settleMs))
    && (BeforeSized(s.stage) || Fits(cfg.reflowMs))
  }

  /** The flags, the queue and the audit's clock, as far as the next step needs them. */
  predicate Regular(cfg: Config, s: State) {
    && Timed(cfg, s)
    && (s.stage.MeasureAsked? || s.stage.FinishLater? ==> !s.textChecked)
    && (s.stage.TextAsked? ==> s.textChecked)
    && (s.stage.ClickLater? ==> s.pending != [])
    && (s.stage.PollAxeLater? ==> s.axeWaited <= AXE_LIMIT && s.axeWaited % AXE_POLL == 0)
  }

  lemma {:induction false} TickTimed(cfg: Config, s: State, host: Host)
    requires Timed(cfg, s) && s.stage.IsTimer()
    ensures Timed(cfg, OnTick(cfg, s, host))
  {
  }

  lemma {:induction false} AnswerTimed(cfg: Config, s: State, a: Answer, host: Host)
    requires Timed(cfg, s) && s.stage.IsEvaluation()
    ensures Timed(cfg, OnAnswer(cfg, s, a, host))
  {
  }

  lemma {:induction false} AlwaysTimed(cfg: Config, run: seq<Event>)
    requires Possible(cfg, run)
    ensures Timed(cfg, Reached(cfg, run))
  {
    if run != [] {
      var before, e := run[..|run| - 1], run[|run| - 1];
      AlwaysTimed(cfg, before);
      var t := Reached(cfg, before).(now := e.at);
      if e.Tick? {
        TickTimed(cfg, t, e.host);
      } else if e.Answered? {
        AnswerTimed(cfg, t, e.answer, e.host);
      }
    }
  }

  lemma {:induction false} AlwaysRegular(cfg: Config, run: seq<Event>)
    requires Possible(cfg, run)
    ensures Regular(cfg, Reached(cfg, run))
  {
    AlwaysTimed(cfg, run);
    AlwaysConsistent(cfg, run);
    AxeReadsBounded(cfg, run);
    FlagsAgree(cfg, Reached(cfg, run), Log(cfg, run));
    ClockAgrees(Reached(cfg, run), AxeReads(cfg, run));
  }

  lemma {:induction false} FlagsAgree(cfg: Config, s: State, log: seq<Fact>)
    requires Consistent(cfg, s, log)
    ensures s.stage.MeasureAsked? || s.stage.FinishLater? ==> !s.textChecked
    ensures s.stage.TextAsked? ==> s.textChecked
    ensures s.stage.ClickLater? ==> s.pending != []
    ensures s.stage.PollAxeLater? ==> s.axeWaited <= AXE_LIMIT
  {
  }

  lemma {:induction false} ClockAgrees(s: State, readings: nat)
    requires ReadsAgree(s, readings)
    ensures s.stage.PollAxeLater? ==> s.axeWaited % AXE_POLL == 0
  {
  }

  // ----- Where a run dies -----

  /** The last question cannot be put: its source cannot be read. */
  predicate SourceDies(cfg: Config, host: Host) {
    (cfg.probeFile && !host.probeSource.Readable?) || (cfg.Audits() && host.axeSource.OtherError?)
  }

  /** The exceptions nobody catches. */
  predicate Dies(cfg: Config, s: State, e: Event) {
    match e
    case Tick(_, host) => s.stage.FinishLater? && cfg.requireText == "" && SourceDies(cfg, host)
    case Answered(at, a, host) =>
      (match s.stage
       case PaintAsked => (SeesInk(a) || s.paintDeadline <= at) && !Fits(cfg.settleMs)
       case StylesAsked =>
         if Truthy(RawStyles(a)) then !Nameable(RawStyles(a))
         else host.surface > 0 && (cfg.width == 0 || (ZoomFits(cfg, host.surface) && !Fits(cfg.reflowMs)))
       case MeasureAsked => MeasureDies(cfg, ReadViewport(a), host)
       case TextAsked => a.Text? && Contains(a.s, cfg.requireText) && SourceDies(cfg, host)
       case AxeAsked => a.Text? && a.parsed.Some? && AuditDies(a.s, a.parsed.value)
       case _ => false)
    case _ => false
  }

  predicate MeasureDies(cfg: Config, v: Viewport, host: Host) {
    || v.NotNumbers?
    || (v.Viewport? && cfg.requireWidth.Some? && !IsNumber(v.cssWidth))
    || (v.Viewport? && MeetsWidth(cfg, v.cssWidth) && cfg.typeInto == "" && cfg.open == [] &&
        cfg.requireText == "" && SourceDies(cfg, host))
  }

  predicate AuditDies(payload: string, found: Json) {
    payload != "" && payload != "null" && !("ERR:" <= payload) && Findings(found).None?
  }

  lemma {:induction false} FinishDies(cfg: Config, s: State, host: Host)
    ensures Finish(cfg, s, host).stage.Stalled? <==>
            (cfg.requireText == "" || s.textChecked) && SourceDies(cfg, host)
  {
  }

  lemma {:induction false} TickDies(cfg: Config, s: State, host: Host)
    requires Regular(cfg, s) && s.stage.IsTimer()
    ensures OnTick(cfg, s, host).stage.Stalled? <==> Dies(cfg, s, Tick(s.now, host))
  {
    FinishDies(cfg, s, host);
  }

  lemma {:induction false} MeasuredDies(cfg: Config, s: State, a: Answer, host: Host)
    requires Regular(cfg, s) && s.stage.MeasureAsked?
    ensures OnMeasured(cfg, s, a, host).stage.Stalled? <==> MeasureDies(cfg, ReadViewport(a), host)
  {
    FinishDies(cfg, s, host);
  }

  lemma {:induction false} AxeDies(cfg: Config, s: State, a: Answer)
    ensures OnAxe(s, a).stage.Stalled? <==> a.Text? && a.parsed.Some? && AuditDies(a.s, a.parsed.value)
  {
  }

  lemma {:induction false} AnswerDies(cfg: Config, s: State, a: Answer, host: Host)
    requires Regular(cfg, s) && s.stage.IsEvaluation()
    ensures OnAnswer(cfg, s, a, host).stage.Stalled? <==> Dies(cfg, s, Answered(s.now, a, host))
  {
    match s.stage
    case MeasureAsked => MeasuredDies(cfg, s, a, host);
    case TextAsked => FinishDies(cfg, s, host);
    case AxeAsked => AxeDies(cfg, s, a);
    case _ =>
  }

  lemma {:induction false} StepDies(cfg: Config, s: State, e: Event)
    requires Enabled(s, e) && Regular(cfg, s) && !s.stage.Stalled?
    ensures Step(cfg, s, e).stage.Stalled? <==> Dies(cfg, s, e)
  {
    var t := s.(now := e.at);
    if e.Tick? {
      TickDies(cfg, t, e.host);
    } else if e.Answered? {
      AnswerDies(cfg, t, e.answer, e.host);
    }
  }

  /** From a reachable state that has not stalled, a step stalls exactly on one of those
      exceptions; a click is never taken from an empty queue. */
  lemma {:induction false} DiesIff(cfg: Config, run: seq<Event>, e: Event)
    requires Possible(cfg, run) && Enabled(Reached(cfg, run), e) && !Reached(cfg, run).stage.Stalled?
    ensures Step(cfg, Reached(cfg, run), e).stage.Stalled? <==> Dies(cfg, Reached(cfg, run), e)
    ensures Reached(cfg, run).stage.ClickLater? ==> Reached(cfg, run).pending != []
  {
    AlwaysRegular(cfg, run);
    StepDies(cfg, Reached(cfg, run), e);
  }

  ghost predicate DiesAt(cfg: Config, run: seq<Event>, k: nat) {
    k < |run| && Possible(cfg, run[..k]) && Enabled(Reached(cfg, run[..k]), run[k]) &&
    Dies(cfg, Reached(cfg, run[..k]), run[k])
  }

  ghost predicate NoiseFrom(run: seq<Event>, k: nat) { forall j :: k <= j < |run| ==> IsNoise(run[j]) }

  ghost predicate Died(cfg: Config, run: seq<Event>) {
    exists k: nat :: DiesAt(cfg, run, k) && NoiseFrom(run, k + 1)
  }

  lemma {:induction false} DiesEarlier(cfg: Config, run: seq<Event>, k: nat)
    requires k < |run| - 1
    ensures DiesAt(cfg, run, k) <==> DiesAt(cfg, run[..|run| - 1], k)
    ensures NoiseFrom(run, k + 1) <==> NoiseFrom(run[..|run| - 1], k + 1) && IsNoise(run[|run| - 1])
  {
    assert run[..|run| - 1][..k] == run[..k];
  }

  lemma {:induction false} DiedStep(cfg: Config, run: seq<Event>)
    requires run != []
    ensures Died(cfg, run) <==>
            DiesAt(cfg, run, |run| - 1) || (Died(cfg, run[..|run| - 1]) && IsNoise(run[|run| - 1]))
  {
    var n := |run| - 1;
    if Died(cfg, run) {
      var k: nat :| DiesAt(cfg, run, k) && NoiseFrom(run, k + 1);
      if k < n {
        DiesEarlier(cfg, run, k);
      }
    }
    if Died(cfg, run[..n]) && IsNoise(run[n]) {
      var k: nat :| DiesAt(cfg, run[..n], k) && NoiseFrom(run[..n], k + 1);
      DiesEarlier(cfg, run, k);
    }
    assert NoiseFrom(run, n + 1);
  }

  lemma {:induction false} StalledStays(cfg: Config, s: State, e: Event)
    requires Enabled(s, e) && s.stage.Stalled?
    ensures Step(cfg, s, e).stage.Stalled? <==> IsNoise(e)
    ensures !Dies(cfg, s, e)
  {
  }

  /** Nothing is outstanding and the run has not quit exactly when one of those exceptions
      was raised and nothing but load events came after it. */
  lemma {:induction false} StalledIff(cfg: Config, run: seq<Event>)
    requires Possible(cfg, run)
    ensures Reached(cfg, run).stage.Stalled? <==> Died(cfg, run)
  {
    if run != [] {
      var before, e := run[..|run| - 1], run[|run| - 1];
      StalledIff(cfg, before);
      DiedStep(cfg, run);
      if Reached(cfg, before).stage.Stalled? {
        StalledStays(cfg, Reached(cfg, before), e);
      } else {
        AlwaysRegular(cfg, before);
        StepDies(cfg, Reached(cfg, before), e);
      }
    }
  }

  /** No command line is safe from it: if the settle is a possible interval, a style
      answer that is a number kills the run, and if it is not, the first paint does. */
  lemma {:induction false} AnyRunCanStall(cfg: Config) returns (run: seq<Event>)
    ensures Possible(cfg, run) && Reached(cfg, run).stage.Stalled?
    ensures !Fits(cfg.settleMs) ==> |run| == 2
  {
    var one := Text("1", Some(Num(1.0)));
    var host := Host(0, Readable, Readable);
    run := [LoadChanged(0, true)];
    assert run[..|run| - 1] == [];
    Extended(cfg, run, Answered(0, one, host));
    run := run + [Answered(0, one, host)];
    if Fits(cfg.settleMs) {
      var at := 1000 * cfg.settleMs;
      Extended(cfg, run, Tick(at, host));
      run := run + [Tick(at, host)];
      Extended(cfg, run, Answered(at, one, host));
      run := run + [Answered(at, one, host)];
    }
  }

  // ----- What each status is the answer to -----

  /** The axe script cannot be opened when its turn comes. */
  predicate ScriptMissing(cfg: Config, s: State, e: Event) {
    && cfg.Audits()
    && match e
       case Tick(_, host) => s.stage.FinishLater? && cfg.requireText == "" && host.axeSource.OsError?
       case Answered(_, a, host) =>
         && host.axeSource.OsError?
         && (|| (s.stage.TextAsked? && a.Text? && Contains(a.s, cfg.requireText))
             || (s.stage.MeasureAsked? && cfg.requireText == "" && cfg.typeInto == "" && cfg.open == [] &&
                 ReadViewport(a).Viewport? && MeetsWidth(cfg, ReadViewport(a).cssWidth)))
       case _ => false
  }

  /** What `e`, delivered in `s`, must be for the run to quit with `code`. */
  predicate Cause(cfg: Config, s: State, e: Event, code: int) {
    match code
    case 0 => s.stage.SnapshotAsked? && e.Answered? && e.answer.Text? && s.axeFailures == 0
    case 1 => s.stage.SnapshotAsked? && e.Answered? && e.answer.Text? && s.axeFailures > 0
    case 4 =>
      e.Answered? &&
      ((s.stage.StylesAsked? && !Truthy(RawStyles(e.answer)) && e.host.surface > 0 && cfg.width != 0 &&
        !ZoomFits(cfg, e.host.surface)) ||
       (s.stage.MeasureAsked? && TooNarrow(cfg, ReadViewport(e.answer))))
    case 5 =>
      || e.GaveUp?
      || (s.stage.TypeAsked? && e.Answered? && Missing(e.answer))
      || (s.stage.ClickAsked? && e.Answered? && Missing(e.answer) && s.openDeadline <= e.at)
    case 6 =>
      e.Answered? &&
      ((s.stage.StylesAsked? && !Truthy(RawStyles(e.answer)) && e.host.surface <= 0) ||
       (s.stage.MeasureAsked? && ReadViewport(e.answer).Unreadable?) ||
       ((s.stage.TypeAsked? || s.stage.ClickAsked?) && e.answer.Raised?))
    case 7 => s.stage.SnapshotAsked? && e.Answered? && e.answer.Raised?
    case 8 =>
      || ScriptMissing(cfg, s, e)
      || (s.stage.AxeSent? && e.Answered? && e.answer.Raised?)
      || (s.stage.AxeAsked? && e.Answered? && AuditUnreadable(e.answer))
      || (s.stage.PollAxeLater? && e.Tick? && s.axeWaited == AXE_LIMIT)
    case 9 => e.LoadFailed? || (s.stage.StylesAsked? && e.Answered? && NamesStyles(RawStyles(e.answer)))
    case 10 =>
      || (s.stage.ProbeSent? && e.Answered? && e.answer.Raised?)
      || (s.stage.ProbeAsked? && e.Answered? &&
          (e.answer.Raised? || (e.answer.s == PROBE_PENDING && s.probeDeadline <= e.at)))
    case 11 => s.stage.TextAsked? && e.Answered? && !(e.answer.Text? && Contains(e.answer.s, cfg.requireText))
    case _ => false
  }

  predicate TooNarrow(cfg: Config, v: Viewport) {
    && v.Viewport? && cfg.requireWidth.Some? && IsNumber(v.cssWidth)
    && AsReal(v.cssWidth) < cfg.requireWidth.value as real
  }

  predicate AuditUnreadable(a: Answer) {
    a.Raised? || "ERR:" <= a.s || (a.s != "" && a.s != "null" && a.parsed.None?)
  }

  predicate NamesStyles(raw: Json) { Truthy(raw) && Nameable(raw) }

  predicate Quits(s: State, code: int) { s.stage.Done? && s.status == code }

  lemma {:induction false} FinishCause(cfg: Config, s: State, host: Host, code: int)
    requires !s.stage.Done?
    ensures Quits(Finish(cfg, s, host), code) <==>
            code == 8 && (cfg.requireText == "" || s.textChecked) && cfg.Audits() && host.axeSource.OsError?
  {
  }

  lemma {:induction false} TickCause(cfg: Config, s: State, host: Host, code: int)
    requires Regular(cfg, s) && s.stage.IsTimer()
    ensures Quits(OnTick(cfg, s, host), code) <==> Cause(cfg, s, Tick(s.now, host), code)
  {
    FinishCause(cfg, s, host, code);
  }

  lemma {:induction false} MeasuredCause(cfg: Config, s: State, a: Answer, host: Host, code: int)
    requires Regular(cfg, s) && s.stage.MeasureAsked?
    ensures Quits(OnMeasured(cfg, s, a, host), code) <==> Cause(cfg, s, Answered(s.now, a, host), code)
  {
    FinishCause(cfg, s, host, code);
  }

  lemma {:induction false} StylesCause(cfg: Config, s: State, a: Answer, host: Host, code: int)
    requires s.stage.StylesAsked?
    ensures Quits(OnStylesChecked(cfg, s, a, host), code) <==> Cause(cfg, s, Answered(s.now, a, host), code)
  {
  }

  lemma {:induction false} TextCause(cfg: Config, s: State, a: Answer, host: Host, code: int)
    requires Regular(cfg, s) && s.stage.TextAsked?
    ensures Quits(OnRequireText(cfg, s, a, host), code) <==> Cause(cfg, s, Answered(s.now, a, host), code)
  {
    FinishCause(cfg, s, host, code);
  }

  lemma {:induction false} QueueCause(cfg: Config, s: State, a: Answer, host: Host, code: int)
    ensures s.stage.TypeAsked? ==> (Quits(OnTyped(cfg, s, a), code) <==> Cause(cfg, s, Answered(s.now, a, host), code))
    ensures s.stage.ClickAsked? ==> (Quits(OnOpened(cfg, s, a), code) <==> Cause(cfg, s, Answered(s.now, a, host), code))
  {
  }

  lemma {:induction false} ProbeCause(cfg: Config, s: State, a: Answer, host: Host, code: int)
    ensures s.stage.ProbeSent? ==> (Quits(OnProbeStarted(s, a), code) <==> Cause(cfg, s, Answered(s.now, a, host), code))
    ensures s.stage.ProbeAsked? ==> (Quits(OnProbe(s, a), code) <==> Cause(cfg, s, Answered(s.now, a, host), code))
  {
  }

  lemma {:induction false} AxeCause(cfg: Config, s: State, a: Answer, host: Host, code: int)
    ensures s.stage.AxeSent? ==> (Quits(OnAxeStarted(s, a), code) <==> Cause(cfg, s, Answered(s.now, a, host), code))
    ensures s.stage.AxeAsked? ==> (Quits(OnAxe(s, a), code) <==> Cause(cfg, s, Answered(s.now, a, host), code))
  {
  }

  lemma {:induction false} AnswerCause(cfg: Config, s: State, a: Answer, host: Host, code: int)
    requires Regular(cfg, s) && s.stage.IsEvaluation()
    ensures Quits(OnAnswer(cfg, s, a, host), code) <==> Cause(cfg, s, Answered(s.now, a, host), code)
  {
    match s.stage
    case StylesAsked => StylesCause(cfg, s, a, host, code);
    case MeasureAsked => MeasuredCause(cfg, s, a, host, code);
    case TypeAsked => QueueCause(cfg, s, a, host, code);
    case ClickAsked => QueueCause(cfg, s, a, host, code);
    case TextAsked => TextCause(cfg, s, a, host, code);
    case ProbeSent => ProbeCause(cfg, s, a, host, code);
    case ProbeAsked => ProbeCause(cfg, s, a, host, code);
    case AxeSent => AxeCause(cfg, s, a, host, code);
    case AxeAsked => AxeCause(cfg, s, a, host, code);
    case PaintAsked =>
    case SnapshotAsked =>
  }

  lemma {:induction false} ClockCause(cfg: Config, s: State, e: Event, code: int)
    ensures Cause(cfg, s.(now := e.at), e, code) <==> Cause(cfg, s, e, code)
  {
  }

  lemma {:induction false} StepCause(cfg: Config, s: State, e: Event, code: int)
    requires Enabled(s, e) && Regular(cfg, s)
    ensures Quits(Step(cfg, s, e), code) <==> Cause(cfg, s, e, code)
  {
    var t := s.(now := e.at);
    ClockCause(cfg, s, e, code);
    if e.Tick? {
      TickCause(cfg, t, e.host, code);
    } else if e.Answered? {
      AnswerCause(cfg, t, e.answer, e.host, code);
    }
  }

  /** Over every run: it has quit with `code` exactly when its last event is a cause of that
      code in the state before; no other code exists. */
  lemma {:induction false} StatusIff(cfg: Config, run: seq<Event>, code: int)
    requires Possible(cfg, run) && run != []
    ensures Quits(Reached(cfg, run), code) <==>
            Cause(cfg, Reached(cfg, run[..|run| - 1]), run[|run| - 1], code)
  {
    AlwaysRegular(cfg, run[..|run| - 1]);
    StepCause(cfg, Reached(cfg, run[..|run| - 1]), run[|run| - 1], code);
  }

  // ----- The timeout's message -----

  predicate FinishedLoading(run: seq<Event>) { exists i :: 0 <= i < |run| && run[i].LoadChanged? && run[i].finished }

  lemma {:induction false} LoadingIff(cfg: Config, run: seq<Event>)
    requires Possible(cfg, run) && !Reached(cfg, run).stage.Done?
    ensures Reached(cfg, run).stage.Loading? <==> !FinishedLoading(run)
  {
    if run != [] {
      var n := |run| - 1;
      LoadingIff(cfg, run[..n]);
      assert FinishedLoading(run) <==> FinishedLoading(run[..n]) || (run[n].LoadChanged? && run[n].finished);
      NotBackToLoading(cfg, Reached(cfg, run[..n]), run[n]);
    }
  }

  lemma {:induction false} NotBackToLoading(cfg: Config, s: State, e: Event)
    requires Enabled(s, e)
    ensures Step(cfg, s, e).stage.Loading? <==> s.stage.Loading? && IsNoise(e)
  {
  }

  /** The timeout ends any run that has not quit with 5 and the words that the page never
      finished loading; they are true exactly in the stage `Loading`. */
  lemma {:induction false} TimeoutIsRightIff(cfg: Config, run: seq<Event>, at: int)
    requires Possible(cfg, run) && !Reached(cfg, run).stage.Done? && Reached(cfg, run).now <= at
    ensures Possible(cfg, run + [GaveUp(at)]) && Quits(Reached(cfg, run + [GaveUp(at)]), 5)
    ensures !FinishedLoading(run + [GaveUp(at)]) <==> Reached(cfg, run).stage.Loading?
  {
    Extended(cfg, run, GaveUp(at));
    LoadingIff(cfg, run);
    var longer := run + [GaveUp(at)];
    assert forall i :: 0 <= i < |run| ==> longer[i] == run[i];
  }

  /** A load that fails ends any run that has not quit with 9. */
  lemma {:induction false} FailedLoadEnds(cfg: Config, run: seq<Event>, at: int)
    requires Possible(cfg, run) && !Reached(cfg, run).stage.Done? && Reached(cfg, run).now <= at
    ensures Possible(cfg, run + [LoadFailed(at)]) && Quits(Reached(cfg, run + [LoadFailed(at)]), 9)
  {
    Extended(cfg, run, LoadFailed(at));
  }

  /** A page that has finished loading, and a run that says that it never did. */
  lemma {:induction false} TimeoutAfterLoading(cfg: Config)
    ensures var run := [LoadChanged(0, true), GaveUp(60_000_000)];
            FinishedLoading(run) && Possible(cfg, run) && Quits(Reached(cfg, run), 5)
  {
    var loaded := [LoadChanged(0, true)];
    assert loaded[..0] == [];
    TimeoutIsRightIff(cfg, loaded, 60_000_000);
    assert loaded + [GaveUp(60_000_000)] == [LoadChanged(0, true), GaveUp(60_000_000)];
  }
}
