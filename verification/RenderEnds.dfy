/**
 How runs of the render harness end: how long they can be, where they die on an
 exception, and what each exit status is the answer to.
 */
module RenderEnds {
  import opened RenderModel
  import opened RenderRuns

  // ----- How long a run can be -----

  /** Timers of `period` milliseconds it takes to cover `gap` microseconds. */
  function Polls(gap: int, period: int): (r: nat)
    requires period > 0
    decreases gap
  {
    if gap <= 0 then 0 else 1 + Polls(gap - 1000 * period, period)
  }

  lemma {:induction false} PollsMonotone(small: int, large: int, period: int)
    requires period > 0 && small <= large
    ensures Polls(small, period) <= Polls(large, period)
    decreases large
  {
    if large > 0 {
      PollsMonotone(small - 1000 * period, large - 1000 * period, period);
    }
  }

  lemma {:induction false} PollsBound(gap: int, period: int, k: nat)
    requires period > 0 && gap <= 1000 * period * k
    ensures Polls(gap, period) <= k
    decreases k
  {
    if gap > 0 {
      assert k > 0;
      assert 1000 * period * (k - 1) == 1000 * period * k - 1000 * period;
      PollsBound(gap - 1000 * period, period, k - 1);
    }
  }

  /** Callbacks left at most, stage by stage. */
  function Rank(cfg: Config, s: State): nat {
    var clicks := 402 + 60 * |s.pending|;
    var sizing := 404 + 60 * |cfg.open|;
    match s.stage
    case Loading => sizing + 5 + 2 * Polls(cfg.paintTimeout, PAINT_POLL)
    case AwaitPaintLater => sizing + 5 + 2 * Polls(s.paintDeadline - s.due, PAINT_POLL)
    case PaintAsked => sizing + 4 + 2 * Polls(s.paintDeadline - s.now, PAINT_POLL)
    case CheckStylesLater => sizing + 3
    case StylesAsked => sizing + 2
    case MeasureLater => sizing + 1
    case MeasureAsked => sizing
    case TypeAsked => sizing - 1
    case ClickLater => clicks
    case RetryLater => clicks + 2 + 2 * Polls(s.openDeadline - s.due, CLICK_RETRY)
    case ClickAsked => clicks + 1 + 2 * Polls(s.openDeadline - s.now, CLICK_RETRY)
    case FinishLater => 401
    case TextAsked => 400
    case ProbeSent => 4 + 2 * Polls(s.probeDeadline - s.now, PROBE_POLL)
    case ReadProbeLater => 4 + 2 * Polls(s.probeDeadline - s.due, PROBE_POLL)
    case ProbeAsked => 3 + 2 * Polls(s.probeDeadline - s.now, PROBE_POLL)
    case AxeSent => 304
    case PollAxeLater => 3 + 2 * AxeReadsLeft(s)
    case AxeAsked => 4 + 2 * AxeReadsLeft(s)
    case SnapshotAsked => 2
    case Stalled => 1
    case Done => 0
  }

  function AxeReadsLeft(s: State): nat {
    if s.axeWaited <= AXE_LIMIT then (AXE_LIMIT - s.axeWaited) / AXE_POLL else 0
  }

  /** A load event that is not the finish changes nothing. */
  predicate IsNoise(e: Event) { e.LoadChanged? && !e.finished }

  lemma {:induction false} ClockLowersRank(cfg: Config, s: State, at: int)
    requires s.now <= at
    ensures Rank(cfg, s.(now := at)) <= Rank(cfg, s)
  {
    PollsMonotone(s.paintDeadline - at, s.paintDeadline - s.now, PAINT_POLL);
    PollsMonotone(s.openDeadline - at, s.openDeadline - s.now, CLICK_RETRY);
    PollsMonotone(s.probeDeadline - at, s.probeDeadline - s.now, PROBE_POLL);
  }

  lemma {:induction false} FirstWait(now: int, wait: int, period: int, k: nat)
    requires period > 0 && wait == 1000 * period * k
    ensures Polls(now + wait - now, period) <= k
  {
    PollsBound(wait, period, k);
  }

  /** The waits that start here are five and ten seconds long. */
  lemma {:induction false} FinishRank(cfg: Config, s: State, host: Host)
    ensures Rank(cfg, Finish(cfg, s, host)) <= 400
    ensures s.textChecked ==> Rank(cfg, Finish(cfg, s, host)) < 400
  {
    FirstWait(s.now, PROBE_WAIT, PROBE_POLL, 100);
  }

  lemma {:induction false} ClickRank(cfg: Config, s: State)
    ensures Rank(cfg, ClickOpen(s)) < 402 + 60 * |s.pending|
  {
    FirstWait(s.now, OPEN_WAIT, CLICK_RETRY, 25);
  }

  /** The part of the invariant that the count needs. */
  predicate Settled(s: State) {
    && (s.stage.TextAsked? ==> s.textChecked)
    && (s.stage.AxeSent? ==> s.axeWaited == 0)
  }

  /** A poll that comes back later than it was due has not more polls ahead of it. */
  lemma {:induction false} PollLowersRank(cfg: Config, s: State)
    requires s.due <= s.now
    ensures s.stage.AwaitPaintLater? ==> Rank(cfg, s.(stage := PaintAsked)) < Rank(cfg, s)
    ensures s.stage.RetryLater? ==> Rank(cfg, s.(stage := ClickAsked)) < Rank(cfg, s)
    ensures s.stage.ReadProbeLater? ==> Rank(cfg, s.(stage := ProbeAsked)) < Rank(cfg, s)
  {
    PollsMonotone(s.paintDeadline - s.now, s.paintDeadline - s.due, PAINT_POLL);
    PollsMonotone(s.openDeadline - s.now, s.openDeadline - s.due, CLICK_RETRY);
    PollsMonotone(s.probeDeadline - s.now, s.probeDeadline - s.due, PROBE_POLL);
  }

  lemma {:induction false} TickLowersRank(cfg: Config, s: State, host: Host)
    requires Settled(s) && s.stage.IsTimer() && s.due <= s.now
    ensures Rank(cfg, OnTick(cfg, s, host)) < Rank(cfg, s)
  {
    match s.stage
    case FinishLater => FinishRank(cfg, s, host);
    case ClickLater => ClickRank(cfg, s);
    case _ => PollLowersRank(cfg, s);
  }

  lemma {:induction false} SizingLowersRank(cfg: Config, s: State, a: Answer, host: Host)
    requires s.stage in {PaintAsked, StylesAsked}
    ensures Rank(cfg, OnAnswer(cfg, s, a, host)) < Rank(cfg, s)
  {
  }

  lemma {:induction false} MeasureLowersRank(cfg: Config, s: State, a: Answer, host: Host)
    requires s.stage.MeasureAsked?
    ensures Rank(cfg, OnMeasured(cfg, s, a, host)) < Rank(cfg, s)
  {
    FinishRank(cfg, s, host);
    ClickRank(cfg, s.(pending := cfg.open));
  }

  lemma {:induction false} QueueLowersRank(cfg: Config, s: State, a: Answer, host: Host)
    requires s.stage in {TypeAsked, ClickAsked}
    ensures Rank(cfg, OnAnswer(cfg, s, a, host)) < Rank(cfg, s)
  {
  }

  lemma {:induction false} LastLowersRank(cfg: Config, s: State, a: Answer, host: Host)
    requires s.stage in {ProbeSent, ProbeAsked, AxeSent, SnapshotAsked} && Settled(s)
    ensures Rank(cfg, OnAnswer(cfg, s, a, host)) < Rank(cfg, s)
  {
  }

  lemma {:induction false} AuditLowersRank(cfg: Config, s: State, a: Answer)
    requires s.stage.AxeAsked?
    ensures Rank(cfg, OnAxe(s, a)) < Rank(cfg, s)
  {
  }

  lemma {:induction false} AnswerLowersRank(cfg: Config, s: State, a: Answer, host: Host)
    requires Settled(s) && s.stage.IsEvaluation()
    ensures Rank(cfg, OnAnswer(cfg, s, a, host)) < Rank(cfg, s)
  {
    if s.stage in {PaintAsked, StylesAsked} {
      SizingLowersRank(cfg, s, a, host);
    } else if s.stage.MeasureAsked? {
      MeasureLowersRank(cfg, s, a, host);
    } else if s.stage in {TypeAsked, ClickAsked} {
      QueueLowersRank(cfg, s, a, host);
    } else if s.stage.TextAsked? {
      FinishRank(cfg, s, host);
    } else if s.stage.AxeAsked? {
      AuditLowersRank(cfg, s, a);
    } else {
      LastLowersRank(cfg, s, a, host);
    }
  }

  lemma {:induction false} StepLowersRank(cfg: Config, s: State, e: Event)
    requires Settled(s) && Enabled(s, e)
    ensures if IsNoise(e) then Rank(cfg, Step(cfg, s, e)) <= Rank(cfg, s)
            else Rank(cfg, Step(cfg, s, e)) < Rank(cfg, s)
  {
    var t := s.(now := e.at);
    ClockLowersRank(cfg, s, e.at);
    match e
    case Tick(_, host) => TickLowersRank(cfg, t, host);
    case Answered(_, a, host) => AnswerLowersRank(cfg, t, a, host);
    case _ =>
  }

  function Callbacks(run: seq<Event>): nat {
    if run == [] then 0
    else Callbacks(run[..|run| - 1]) + if IsNoise(run[|run| - 1]) then 0 else 1
  }

  lemma {:induction false} RunsSpendRank(cfg: Config, run: seq<Event>)
    requires Possible(cfg, run)
    ensures Callbacks(run) + Rank(cfg, Reached(cfg, run)) <= Rank(cfg, Start())
  {
    if run != [] {
      var before := run[..|run| - 1];
      RunsSpendRank(cfg, before);
      AlwaysConsistent(cfg, before);
      StepLowersRank(cfg, Reached(cfg, before), run[|run| - 1]);
    }
  }

  /** Whatever the page answers, the number of callbacks is bounded by the command line
      alone, without help from the load timeout. */
  lemma {:induction false} CallbacksBounded(cfg: Config, run: seq<Event>)
    requires Possible(cfg, run)
    ensures Callbacks(run) <= 409 + 60 * |cfg.open| + 2 * Polls(cfg.paintTimeout, PAINT_POLL)
  {
    RunsSpendRank(cfg, run);
  }

  // ----- The audit is read at most 150 times -----

  function AxeReads(cfg: Config, run: seq<Event>): nat
    requires Possible(cfg, run)
  {
    if run == [] then 0
    else
      var before := run[..|run| - 1];
      AxeReads(cfg, before) +
      if Reached(cfg, before).stage.PollAxeLater? && Reached(cfg, run).stage.AxeAsked? then 1 else 0
  }

  predicate BeforeAudit(stage: Stage) {
    match stage
    case Loading | PaintAsked | AwaitPaintLater | CheckStylesLater | StylesAsked | MeasureLater => true
    case MeasureAsked | TypeAsked | ClickLater | ClickAsked | RetryLater | FinishLater | TextAsked => true
    case _ => false
  }

  predicate ReadsAgree(s: State, readings: nat) {
    && readings <= 150
    && (BeforeAudit(s.stage) || s.stage.AxeSent? ==> readings == 0)
    && (s.stage.AxeSent? ==> s.axeWaited == 0)
    && (s.stage.PollAxeLater? || s.stage.AxeAsked? ==> s.axeWaited == 200 * readings)
  }

  lemma {:induction false} StepKeepsReads(cfg: Config, s: State, e: Event, readings: nat)
    requires Enabled(s, e) && ReadsAgree(s, readings)
    ensures ReadsAgree(Step(cfg, s, e),
                       readings + if s.stage.PollAxeLater? && Step(cfg, s, e).stage.AxeAsked? then 1 else 0)
  {
  }

  /** The audit is read at most 150 times, and the 30-second refusal comes only
      after exactly 150 unanswered reads. */
  lemma {:induction false} AxeReadsBounded(cfg: Config, run: seq<Event>)
    requires Possible(cfg, run)
    ensures ReadsAgree(Reached(cfg, run), AxeReads(cfg, run))
    ensures forall e: Event :: Enabled(Reached(cfg, run), e) && Reached(cfg, run).stage.PollAxeLater? && e.Tick? ==>
              (Step(cfg, Reached(cfg, run), e).stage.Done? <==> AxeReads(cfg, run) == 150)
  {
    if run != [] {
      var before := run[..|run| - 1];
      AxeReadsBounded(cfg, before);
      StepKeepsReads(cfg, Reached(cfg, before), run[|run| - 1], AxeReads(cfg, before));
    }
  }

  // ----- The text is asked for at most once -----

  function TextAsks(cfg: Config, run: seq<Event>): nat
    requires Possible(cfg, run)
  {
    if run == [] then 0
    else
      var before := run[..|run| - 1];
      TextAsks(cfg, before) +
      if !Reached(cfg, before).stage.TextAsked? && Reached(cfg, run).stage.TextAsked? then 1 else 0
  }

  predicate AsksAgree(s: State, asks: nat) {
    && asks == (if s.textChecked then 1 else 0)
    && (s.stage.TextAsked? ==> s.textChecked)
  }

  lemma {:induction false} StepKeepsAsks(cfg: Config, s: State, e: Event, asks: nat)
    requires Enabled(s, e) && AsksAgree(s, asks)
    ensures AsksAgree(Step(cfg, s, e),
                      asks + if !s.stage.TextAsked? && Step(cfg, s, e).stage.TextAsked? then 1 else 0)
  {
  }

  /** Over every run `finish` asks for the text at most once, though it is entered again
      from the check's own callback; and the flag says whether it has. */
  lemma {:induction false} TextAskedOnce(cfg: Config, run: seq<Event>)
    requires Possible(cfg, run)
    ensures TextAsks(cfg, run) <= 1
    ensures AsksAgree(Reached(cfg, run), TextAsks(cfg, run))
  {
    if run != [] {
      var before := run[..|run| - 1];
      TextAskedOnce(cfg, before);
      StepKeepsAsks(cfg, Reached(cfg, before), run[|run| - 1], TextAsks(cfg, before));
    }
  }

  // ----- Progress -----

  /** A page and a window: how long they take and what they answer, for every history. */
  datatype Page = Page(delay: seq<Event> -> nat, answer: seq<Event> -> Answer, host: seq<Event> -> Host)

  /** The event the main loop delivers next when the page behaves like this. */
  function Next(cfg: Config, page: Page, run: seq<Event>): (e: Event)
    requires Possible(cfg, run) && !(Reached(cfg, run).stage.Stalled? || Reached(cfg, run).stage.Done?)
    ensures Enabled(Reached(cfg, run), e) && !IsNoise(e) && !e.GaveUp? && !e.LoadFailed?
  {
    var s := Reached(cfg, run);
    var at := s.now + page.delay(run);
    if s.stage.Loading? then LoadChanged(at, true)
    else if s.stage.IsTimer() then Tick(if s.due <= at then at else s.due, page.host(run))
    else Answered(at, page.answer(run), page.host(run))
  }

  /** `last` goes on from `run` as the page dictates. */
  ghost predicate Follows(cfg: Config, page: Page, run: seq<Event>, last: seq<Event>)
    requires Possible(cfg, last)
    decreases |last|
  {
    last == run ||
    (|run| < |last| &&
     var before := last[..|last| - 1];
     && !(Reached(cfg, before).stage.Stalled? || Reached(cfg, before).stage.Done?)
     && last[|last| - 1] == Next(cfg, page, before)
     && Follows(cfg, page, run, before))
  }

  lemma {:induction false} Extended(cfg: Config, run: seq<Event>, e: Event)
    requires Possible(cfg, run) && Enabled(Reached(cfg, run), e)
    ensures Possible(cfg, run + [e]) && Reached(cfg, run + [e]) == Step(cfg, Reached(cfg, run), e)
  {
    assert (run + [e])[..|run + [e]| - 1] == run;
  }

  lemma {:induction false} FollowsTwice(cfg: Config, page: Page, run: seq<Event>, mid: seq<Event>, last: seq<Event>)
    requires Possible(cfg, mid) && Possible(cfg, last)
    requires Follows(cfg, page, run, mid) && Follows(cfg, page, mid, last)
    ensures Follows(cfg, page, run, last)
    decreases |last|
  {
    if last != mid {
      FollowsTwice(cfg, page, run, mid, last[..|last| - 1]);
    }
  }

  /** Every run ends. From any history and for any page, without the timeout and without a
      failed load, the run comes within its measure to a state where nothing is
      outstanding: it has quit, or a callback has died. */
  lemma {:induction false} EveryRunEnds(cfg: Config, page: Page, run: seq<Event>) returns (last: seq<Event>)
    requires Possible(cfg, run)
    ensures Possible(cfg, last) && Follows(cfg, page, run, last)
    ensures Reached(cfg, last).stage.Done? || Reached(cfg, last).stage.Stalled?
    ensures |last| - |run| <= Rank(cfg, Reached(cfg, run))
    decreases Rank(cfg, Reached(cfg, run))
  {
    var s := Reached(cfg, run);
    if s.stage.Done? || s.stage.Stalled? {
      last := run;
    } else {
      var e := Next(cfg, page, run);
      Extended(cfg, run, e);
      AlwaysConsistent(cfg, run);
      StepLowersRank(cfg, s, e);
      last := EveryRunEnds(cfg, page, run + [e]);
      assert (run + [e])[..|run + [e]| - 1] == run;
      assert Follows(cfg, page, run, run + [e]);
      FollowsTwice(cfg, page, run, run + [e], last);
    }
  }

  /** A state has a callback to come exactly when it is past loading and neither quit nor
      stalled. */
  lemma {:induction false} Progress(s: State)
    ensures (exists e: Event :: (e.Tick? || e.Answered?) && Enabled(s, e)) <==>
            !(s.stage.Loading? || s.stage.Stalled? || s.stage.Done?)
  {
    var host := Host(0, Readable, Readable);
    if s.stage.IsTimer() {
      assert Enabled(s, Tick(if s.due <= s.now then s.now else s.due, host));
    } else if s.stage.IsEvaluation() {
      assert Enabled(s, Answered(s.now, Raised, host));
    }
  }
}
