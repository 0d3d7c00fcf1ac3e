/**
 What the answers of the page mean, read off their text and their JSON: the predicates of
 the model are tied here to the values themselves, and the waits to the clock.
 */
module RenderAnswers {
  import opened Strings
  import opened RenderModel
  import opened RenderRuns
  import opened RenderEnds
  import opened RenderCauses

  // ----- JSON values as Python sees them -----

  /** Everything is true but the six empty values. */
  lemma {:induction false} TruthyIff(v: Json)
    ensures Truthy(v) <==> v !in {Null, Bool(false), Num(0.0), Str(""), Arr([]), Obj(map[])}
  {
  }

  ghost predicate IsNumeric(v: Json) { (exists n :: v == Num(n)) || v == Bool(false) || v == Bool(true) }

  lemma {:induction false} NumberIff(v: Json)
    ensures IsNumber(v) <==> IsNumeric(v)
    ensures v.Num? ==> AsReal(v) == v.n
    ensures v == Bool(true) ==> AsReal(v) == 1.0
    ensures v == Bool(false) ==> AsReal(v) == 0.0
  {
    if v.Num? {
      assert v == Num(v.n);
    }
  }

  /** The viewport is read from a list of three whose last is a number; it has its first as
      the width, whatever the second is. */
  lemma {:induction false} ViewportIff(a: Answer, w: Json)
    ensures ReadViewport(a) == Viewport(w) <==>
            exists h, d :: a.Text? && a.parsed == Some(Arr([w, h, d])) && IsNumeric(d)
  {
    if ReadViewport(a) == Viewport(w) {
      var items := a.parsed.value.items;
      NumberIff(items[2]);
      assert items == [items[0], items[1], items[2]];
    }
    forall h, d | a.Text? && a.parsed == Some(Arr([w, h, d])) && IsNumeric(d) ensures ReadViewport(a) == Viewport(w) {
      NumberIff(d);
    }
  }

  /** Three things of which the last is no number can be unpacked and not used: the run dies.
      A string gives its characters and an object its keys. */
  lemma {:induction false} ViewportDiesIff(a: Answer)
    ensures ReadViewport(a).NotNumbers? <==>
            && a.Text? && a.parsed.Some?
            && (|| (exists w, h, d :: a.parsed.value == Arr([w, h, d]) && !IsNumeric(d))
                || (exists x: char, y: char, z: char :: a.parsed.value == Str([x, y, z]))
                || (a.parsed.value.Obj? && |a.parsed.value.fields.Keys| == 3))
  {
    if a.Text? && a.parsed.Some? {
      var v := a.parsed.value;
      if v.Arr? && |v.items| == 3 {
        NumberIff(v.items[2]);
        assert v == Arr([v.items[0], v.items[1], v.items[2]]);
      }
      if v.Str? && |v.s| == 3 {
        assert v == Str([v.s[0], v.s[1], v.s[2]]);
      }
      assert v.Obj? ==> |v.fields| == |v.fields.Keys|;
    }
  }

  lemma {:induction false} MissingIff(a: Answer)
    ensures Missing(a) <==> a.Text? && exists i: nat :: IsSlice(a.s, "missing", i)
  {
    if a.Text? {
      ContainsIff(a.s, "missing");
    }
  }

  // ----- The questions, answered as the page answers them -----

  /** The paint poll: anything but a true value, an exception included, polls again until
      the deadline. */
  lemma {:induction false} InkAnswered(cfg: Config, s: State, at: int, a: Answer, host: Host)
    requires s.stage.PaintAsked? && s.now <= at
    ensures Step(cfg, s, Answered(at, a, host)).stage.AwaitPaintLater? <==>
            && at < s.paintDeadline
            && (a.Raised? || a.parsed.None? || a.parsed.value in {Null, Bool(false), Num(0.0), Str(""), Arr([]), Obj(map[])})
  {
    if a.Text? && a.parsed.Some? {
      TruthyIff(a.parsed.value);
    }
  }

  /** The list of raw stylesheets: any name ends the run with 9, or kills it when one of the
      first six is not a string; an empty list lets it go on to the width. */
  lemma {:induction false} StylesAnswered(cfg: Config, s: State, at: int, text: string, items: seq<Json>, host: Host)
    requires s.stage.StylesAsked? && s.now <= at
    ensures var t := Step(cfg, s, Answered(at, Text(text, Some(Arr(items))), host));
            && (items != [] ==> if exists i :: 0 <= i < |items| && i < 6 && !items[i].Str? then t.stage.Stalled? else Quits(t, 9))
            && (items == [] ==> !Quits(t, 9) && (host.surface <= 0 ==> Quits(t, 6)))
  {
  }

  /** Another true value ends the run with 9 when it is a string and kills it otherwise. */
  lemma {:induction false} StylesOther(cfg: Config, s: State, at: int, text: string, v: Json, host: Host)
    requires s.stage.StylesAsked? && s.now <= at && !v.Arr?
    requires v !in {Null, Bool(false), Num(0.0), Str(""), Obj(map[])}
    ensures var t := Step(cfg, s, Answered(at, Text(text, Some(v)), host));
            if v.Str? then Quits(t, 9) else t.stage.Stalled?
  {
    TruthyIff(v);
  }

  /** No answer that can be decoded is as good as an empty list. */
  lemma {:induction false} StylesUnread(cfg: Config, s: State, at: int, a: Answer, text: string, host: Host)
    requires s.stage.StylesAsked? && s.now <= at && (a.Raised? || a.parsed.None?)
    ensures Step(cfg, s, Answered(at, a, host)) == Step(cfg, s, Answered(at, Text(text, Some(Arr([]))), host))
  {
  }

  /** What `finish` starts, by the options given. */
  lemma {:induction false} LastQuestion(cfg: Config, s: State, host: Host)
    requires cfg.requireText == "" || s.textChecked
    requires !s.stage.Done? && !s.stage.Stalled?
    ensures var t := Finish(cfg, s, host);
            if cfg.probe || cfg.probeFile then
              if cfg.probeFile && host.probeSource != Readable then t.stage == Stalled else t.stage == ProbeSent
            else if cfg.axe then
              match host.axeSource { case Readable => t.stage == AxeSent case OsError => Quits(t, 8) case OtherError => t.stage == Stalled }
            else t.stage == SnapshotAsked
  {
  }

  /** The viewport, answered with three numbers: the run is refused exactly when the first is
      smaller than the width required. */
  lemma {:induction false} WidthAnswered(cfg: Config, s: State, at: int, text: string, w: real, h: real, d: real, host: Host)
    requires s.stage.MeasureAsked? && s.now <= at
    ensures var e := Answered(at, Text(text, Some(Arr([Num(w), Num(h), Num(d)]))), host);
            && (Quits(Step(cfg, s, e), 4) <==> cfg.requireWidth.Some? && w < cfg.requireWidth.value as real)
            && (Observed(cfg, s, e) == [WidthMet] <==> (cfg.requireWidth.Some? ==> cfg.requireWidth.value as real <= w))
  {
    var items := [Num(w), Num(h), Num(d)];
    assert |items| == 3 && items[0] == Num(w) && items[2] == Num(d);
    FinishCause(cfg, s.(now := at), host, 4);
  }

  /** Typing and clicking, answered with `missing` somewhere in the text or without it. */
  lemma {:induction false} ElementAnswered(cfg: Config, s: State, at: int, text: string, parsed: Option<Json>, host: Host)
    requires (s.stage.TypeAsked? || s.stage.ClickAsked?) && s.now <= at
    ensures var e := Answered(at, Text(text, parsed), host);
            var fact := if s.stage.TypeAsked? then Typed else Clicked(s.current);
            if exists i: nat :: IsSlice(text, "missing", i)
            then Observed(cfg, s, e) == [] && (s.stage.TypeAsked? ==> Quits(Step(cfg, s, e), 5))
            else Observed(cfg, s, e) == [fact] && !Step(cfg, s, e).stage.Done?
  {
    MissingIff(Text(text, parsed));
  }

  /** The text of the page: the run goes on exactly when the words are a slice of it. */
  lemma {:induction false} TextAnswered(cfg: Config, s: State, at: int, text: string, parsed: Option<Json>, host: Host)
    requires s.stage.TextAsked? && s.now <= at
    ensures var e := Answered(at, Text(text, parsed), host);
            if exists i: nat :: IsSlice(text, cfg.requireText, i) then Observed(cfg, s, e) == [TextPresent]
            else Quits(Step(cfg, s, e), 11)
  {
    ContainsIff(text, cfg.requireText);
  }

  /** The probe: every text but one is its answer. */
  lemma {:induction false} ProbeAnswers(cfg: Config, s: State, at: int, text: string, parsed: Option<Json>, host: Host)
    requires s.stage.ProbeAsked? && s.now <= at
    ensures var e := Answered(at, Text(text, parsed), host);
            && (Step(cfg, s, e).stage.SnapshotAsked? <==> text != "arlen-probe-pending")
            && (Observed(cfg, s, e) == [ProbeAnswered] <==> text != "arlen-probe-pending")
  {
  }

  // ----- The findings of an audit -----

  /** What a finding holds under `data` makes looking for the contrast raise. */
  ghost predicate Chokes(d: Json) {
    || d == Bool(true)
    || (exists n :: d == Num(n) && n != 0.0)
    || (exists items :: d == Arr(items) && Str("contrastRatio") in items)
    || (exists s :: d == Str(s) && exists i: nat :: IsSlice(s, "contrastRatio", i))
  }

  /** An object with the four fields that are printed, and nothing under `data` to choke on. */
  ghost predicate IsFinding(v: Json) {
    exists fields :: v == Obj(fields) && {"id", "impact", "help", "n"} <= fields.Keys
                     && ("data" in fields ==> !Chokes(fields["data"]))
  }

  lemma {:induction false} DataIff(d: Json)
    ensures Chokes(d) <==> Truthy(d) && match d
                                        case Obj(_) => false
                                        case Arr(items) => Str("contrastRatio") in items
                                        case Str(s) => Contains(s, "contrastRatio")
                                        case _ => true
  {
    if d.Str? {
      ContainsIff(d.s, "contrastRatio");
    }
  }

  lemma {:induction false} FindingIff(v: Json)
    ensures Printable(v) <==> IsFinding(v)
  {
    if v.Obj? {
      if "data" in v.fields {
        DataIff(v.fields["data"]);
      }
      assert {"id", "impact", "help", "n"} <= v.fields.Keys <==>
             "id" in v.fields && "impact" in v.fields && "help" in v.fields && "n" in v.fields;
    }
  }

  /** A payload that is a list, as the audit sends it. */
  predicate IsListing(a: Answer, items: seq<Json>) {
    a.Text? && a.s != "" && a.s != "null" && !("ERR:" <= a.s) && a.parsed == Some(Arr(items))
  }

  /** The findings are counted, each once; one that cannot be printed kills the run. */
  lemma {:induction false} AuditCounted(cfg: Config, s: State, at: int, a: Answer, items: seq<Json>, host: Host)
    requires s.stage.AxeAsked? && s.now <= at && IsListing(a, items)
    ensures var e := Answered(at, a, host);
            if forall i :: 0 <= i < |items| ==> IsFinding(items[i])
            then && Observed(cfg, s, e) == [AxeFound(|items|)]
                 && Step(cfg, s, e) == s.(now := at, axeFailures := |items|, stage := SnapshotAsked)
            else Observed(cfg, s, e) == [] && Step(cfg, s, e).stage.Stalled?
  {
    forall i | 0 <= i < |items| ensures Printable(items[i]) <==> IsFinding(items[i]) {
      FindingIff(items[i]);
    }
  }

  /** A payload that is decoded to anything but a list counts as nothing when it is an empty
      string or object, and kills the run otherwise. */
  lemma {:induction false} OtherPayload(cfg: Config, s: State, at: int, text: string, v: Json, host: Host)
    requires s.stage.AxeAsked? && s.now <= at && !v.Arr?
    requires text != "" && text != "null" && !("ERR:" <= text)
    ensures var t := Step(cfg, s, Answered(at, Text(text, Some(v)), host));
            if v == Str("") || v == Obj(map[]) then t == s.(now := at, axeFailures := 0, stage := SnapshotAsked)
            else t.stage.Stalled?
  {
  }

  predicate Counted(s: State, n: nat) {
    s.axeFailures == n && (s.stage.SnapshotAsked? || s.stage.Done?)
  }

  lemma {:induction false} StepKeepsCount(cfg: Config, s: State, e: Event, n: nat)
    requires Enabled(s, e) && Counted(s, n)
    ensures Counted(Step(cfg, s, e), n)
  {
  }

  /** The event at `k` answers the audit with a list of findings. */
  ghost predicate AuditedAt(cfg: Config, run: seq<Event>, k: nat, items: seq<Json>) {
    && k < |run| && Possible(cfg, run[..k + 1]) && Possible(cfg, run[..k]) && Reached(cfg, run[..k]).stage.AxeAsked?
    && run[k].Answered? && IsListing(run[k].answer, items) && forall i :: 0 <= i < |items| ==> IsFinding(items[i])
  }

  lemma {:induction false} CountedAfter(cfg: Config, run: seq<Event>, k: nat, items: seq<Json>)
    requires Possible(cfg, run) && AuditedAt(cfg, run, k, items)
    ensures Counted(Reached(cfg, run), |items|)
    decreases |run|
  {
    var n := |run| - 1;
    if k == n {
      AuditCounted(cfg, Reached(cfg, run[..k]), run[k].at, run[k].answer, items, run[k].host);
    } else {
      assert run[..n][..k] == run[..k] && run[..n][..k + 1] == run[..k + 1];
      CountedAfter(cfg, run[..n], k, items);
      StepKeepsCount(cfg, Reached(cfg, run[..n]), run[n], |items|);
    }
  }

  /** A run whose audit was answered with a list of findings, and whose picture was written,
      exits 0 exactly when the list is empty, and 1 otherwise. */
  lemma {:induction false} AuditDecides(cfg: Config, run: seq<Event>, k: nat, items: seq<Json>)
    requires Possible(cfg, run) && AuditedAt(cfg, run, k, items)
    ensures PngWritten in Log(cfg, run) ==> Quits(Reached(cfg, run), if items == [] then 0 else 1)
  {
    CountedAfter(cfg, run, k, items);
    AlwaysConsistent(cfg, run);
    if !Reached(cfg, run).stage.Done? {
      EarlyZero(cfg, run);
    }
  }

  // ----- How long the harness waits -----

  /** When the page finished loading, when the selector at hand was first looked for, and
      when the probe was sent. */
  datatype Times = Times(loaded: int, asked: int, sent: int)

  function Noted(w: Times, s: State, t: State, at: int): Times {
    Times(if s.stage.Loading? && t.stage.PaintAsked? then at else w.loaded,
          if t.stage.ClickAsked? && !s.stage.ClickAsked? && !s.stage.RetryLater? then at else w.asked,
          if t.stage.ProbeSent? && !s.stage.ProbeSent? then at else w.sent)
  }

  function Since(cfg: Config, run: seq<Event>): Times
    requires Possible(cfg, run)
  {
    if run == [] then Times(0, 0, 0)
    else
      var before := run[..|run| - 1];
      Noted(Since(cfg, before), Reached(cfg, before), Reached(cfg, run), run[|run| - 1].at)
  }

  /** The deadlines, in microseconds. */
  predicate Waiting(cfg: Config, s: State, w: Times) {
    && (s.stage.PaintAsked? || s.stage.AwaitPaintLater? ==> s.paintDeadline == w.loaded + cfg.paintTimeout)
    && (s.stage.ClickAsked? || s.stage.RetryLater? ==> s.openDeadline == w.asked + 5_000_000)
    && (s.stage.ProbeSent? || s.stage.ProbeAsked? || s.stage.ReadProbeLater? ==> s.probeDeadline == w.sent + 10_000_000)
  }

  lemma {:induction false} TickWaits(cfg: Config, s: State, host: Host, w: Times)
    requires s.stage.IsTimer() && Waiting(cfg, s, w)
    ensures Waiting(cfg, OnTick(cfg, s, host), Noted(w, s, OnTick(cfg, s, host), s.now))
  {
  }

  /** The questions before the click queue, and the queue. */
  predicate AsksEarly(stage: Stage) {
    stage.PaintAsked? || stage.StylesAsked? || stage.TypeAsked? || stage.ClickAsked?
  }

  lemma {:induction false} EarlyWaits(cfg: Config, s: State, a: Answer, host: Host, w: Times)
    requires AsksEarly(s.stage) && Waiting(cfg, s, w)
    ensures Waiting(cfg, OnAnswer(cfg, s, a, host), Noted(w, s, OnAnswer(cfg, s, a, host), s.now))
  {
  }

  lemma {:induction false} FinishWaits(cfg: Config, s: State, a: Answer, host: Host, w: Times)
    requires (s.stage.MeasureAsked? || s.stage.TextAsked?) && Waiting(cfg, s, w)
    ensures Waiting(cfg, OnAnswer(cfg, s, a, host), Noted(w, s, OnAnswer(cfg, s, a, host), s.now))
  {
  }

  lemma {:induction false} LateWaits(cfg: Config, s: State, a: Answer, host: Host, w: Times)
    requires s.stage.ProbeSent? || s.stage.ProbeAsked? || s.stage.AxeSent? || s.stage.AxeAsked? || s.stage.SnapshotAsked?
    requires Waiting(cfg, s, w)
    ensures Waiting(cfg, OnAnswer(cfg, s, a, host), Noted(w, s, OnAnswer(cfg, s, a, host), s.now))
  {
  }

  lemma {:induction false} AnswerWaits(cfg: Config, s: State, a: Answer, host: Host, w: Times)
    requires s.stage.IsEvaluation() && Waiting(cfg, s, w)
    ensures Waiting(cfg, OnAnswer(cfg, s, a, host), Noted(w, s, OnAnswer(cfg, s, a, host), s.now))
  {
    if AsksEarly(s.stage) {
      EarlyWaits(cfg, s, a, host, w);
    } else if s.stage.MeasureAsked? || s.stage.TextAsked? {
      FinishWaits(cfg, s, a, host, w);
    } else {
      LateWaits(cfg, s, a, host, w);
    }
  }

  lemma {:induction false} StepWaits(cfg: Config, s: State, e: Event, w: Times)
    requires Enabled(s, e) && Waiting(cfg, s, w)
    ensures Waiting(cfg, Step(cfg, s, e), Noted(w, s, Step(cfg, s, e), e.at))
  {
    var t := s.(now := e.at);
    if e.Tick? {
      TickWaits(cfg, t, e.host, w);
    } else if e.Answered? {
      AnswerWaits(cfg, t, e.answer, e.host, w);
    }
  }

  lemma {:induction false} AlwaysWaiting(cfg: Config, run: seq<Event>)
    requires Possible(cfg, run)
    ensures Waiting(cfg, Reached(cfg, run), Since(cfg, run))
  {
    if run != [] {
      var before := run[..|run| - 1];
      AlwaysWaiting(cfg, before);
      StepWaits(cfg, Reached(cfg, before), run[|run| - 1], Since(cfg, before));
    }
  }

  /** Over every run: a missing selector is refused exactly when five seconds have passed
      since it was first looked for, a pending probe exactly when ten have passed since it
      was sent, and a page without ink is waited for exactly until the paint timeout. */
  lemma {:induction false} PatienceIff(cfg: Config, run: seq<Event>, e: Event)
    requires Possible(cfg, run) && Enabled(Reached(cfg, run), e) && e.Answered?
    ensures var s, w := Reached(cfg, run), Since(cfg, run);
            && (s.stage.ClickAsked? && e.answer.Text? && (exists i: nat :: IsSlice(e.answer.s, "missing", i)) ==>
                  (Quits(Step(cfg, s, e), 5) <==> w.asked + 5_000_000 <= e.at))
            && (s.stage.ProbeAsked? && e.answer.Text? && e.answer.s == "arlen-probe-pending" ==>
                  (Quits(Step(cfg, s, e), 10) <==> w.sent + 10_000_000 <= e.at))
            && (s.stage.PaintAsked? && e.answer.Text? && e.answer.parsed == Some(Bool(false)) ==>
                  (Step(cfg, s, e).stage.AwaitPaintLater? <==> e.at < w.loaded + cfg.paintTimeout))
  {
    AlwaysWaiting(cfg, run);
    MissingIff(e.answer);
  }

  /** The interval of a timer, in milliseconds; `from` is the stage that set it. */
  function Interval(cfg: Config, from: Stage, timer: Stage): int {
    match timer
    case AwaitPaintLater => 120
    case CheckStylesLater => cfg.settleMs
    case MeasureLater => cfg.reflowMs
    case ClickLater => if from.TypeAsked? then cfg.settleMs else 300
    case RetryLater => 200
    case FinishLater => cfg.settleMs
    case ReadProbeLater => 100
    case PollAxeLater => 200
    case _ => 0
  }

  predicate IsDue(cfg: Config, s: State, t: State) {
    t.stage.IsTimer() ==> t.now == s.now && t.due == s.now + 1000 * Interval(cfg, s.stage, t.stage)
  }

  lemma {:induction false} EarlyDue(cfg: Config, s: State, a: Answer, host: Host)
    requires AsksEarly(s.stage)
    ensures IsDue(cfg, s, OnAnswer(cfg, s, a, host))
  {
  }

  lemma {:induction false} LateDue(cfg: Config, s: State, a: Answer, host: Host)
    requires s.stage.IsEvaluation() && !AsksEarly(s.stage)
    ensures IsDue(cfg, s, OnAnswer(cfg, s, a, host))
  {
  }

  /** A timer that a callback sets is due its whole interval later, and not before. */
  lemma {:induction false} TimersWait(cfg: Config, s: State, e: Event, later: int, host: Host)
    requires Enabled(s, e) && e.Answered? && Step(cfg, s, e).stage.IsTimer()
    ensures var t := Step(cfg, s, e);
            Enabled(t, Tick(later, host)) <==> e.at <= later && e.at + 1000 * Interval(cfg, s.stage, t.stage) <= later
  {
    if AsksEarly(s.stage) {
      EarlyDue(cfg, s.(now := e.at), e.answer, e.host);
    } else {
      LateDue(cfg, s.(now := e.at), e.answer, e.host);
    }
  }
}
