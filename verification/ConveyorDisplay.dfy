// What the conveyor firmware owes its observers, beyond not publishing anything wrong: the
// request is made when a brick lies on the entry and taken back when the jam clock runs out,
// and what was published last is the state of the device.
module ConveyorDisplay {
  import opened Common
  import opened ConveyorModel
  import opened ConveyorProofs
  import opened ConveyorProgress

  // ---------- What the events show ----------

  datatype Panel = Panel(
    ok: bool,
    ratio: Option<real>,      // published last
    motor: bool,
    withdrawn: bool,          // the jam clock ran out since the last brick was placed
    finished: bool)

  const BLANK := Panel(true, None, false, false, false)

  function Show(p: Panel, e: Event): Panel {
    match e
    case Ratio(ratio) => p.(ratio := Some(ratio), ok := p.ok && p.ratio != Some(ratio))
    case TurnedOn => p.(motor := true, ok := p.ok && !p.motor)
    case TurnedOff => p.(motor := false, ok := p.ok && p.motor)
    case MotorStopped => p.(motor := false, ok := p.ok && p.motor)
    case Withdrawn => p.(withdrawn := true)
    case Placed => p.(withdrawn := false, ok := p.ok && !p.finished)
    case Finished => p.(finished := true, ok := p.ok && !p.finished)
    case _ => p
  }

  function Shown(trace: seq<Event>): Panel {
    if trace == [] then BLANK else Show(Shown(trace[..|trace| - 1]), trace[|trace| - 1])
  }

  lemma ShownEmit(s: State, e: Event)
    ensures Shown(Emit(s, e).trace) == Show(Shown(s.trace), e)
  {
    assert (s.trace + [e])[..|s.trace|] == s.trace;
  }

  lemma ShownEnRoute(s: State, state: bool)
    ensures Shown(PublishEnRoute(s, state).trace) == Shown(s.trace)
  {
    ShownEmit(s.(enRoute := state, enRouteKnown := true), EnRoute(state));
  }

  lemma ShownRatio(s: State, ratio: real)
    requires s.ratioKnown && Shown(s.trace).ratio == Some(s.redRatio)
    ensures Shown(PublishRatio(s, ratio).trace) == Shown(s.trace).(ratio := Some(ratio))
  {
    ShownEmit(s.(redRatio := ratio, ratioKnown := true), Ratio(ratio));
  }

  // The panel shows the device, and a brick on the entry is requested, about to be, or was
  // until the jam clock ran out.
  predicate PanelOk(s: State, a: Abs) {
    && Shown(s.trace) == Panel(true, Some(s.redRatio), s.motorOn, Shown(s.trace).withdrawn, a.phase.Ended?)
    && (a.phase.OnEntry? && !a.requesting ==> s.enRoute || Shown(s.trace).withdrawn)
  }

  // ---------- Preservation ----------

  lemma CommandShows(s: State, a: Abs, state: bool)
    requires PanelOk(s, a)
    ensures PanelOk(OnFanCommand(s, state), AbsCommand(a, s, state))
  {
    ShownEmit(s.(motorOn := state), if state then TurnedOn else TurnedOff);
  }

  lemma PlaceShows(s: State, a: Abs, t: Tick)
    requires Firing(s, a, t) && PanelOk(s, a) && t.script == Bench && a.phase.ToBePlaced?
    ensures PanelOk(OnTick(s, t), AbsTick(a, s, Bench))
  {
    ShownEmit(s.(onBelt := BrickFor(s.completed), entryOccupied := true), Placed);
  }

  lemma ReleaseShows(s: State, a: Abs)
    requires WorldOk(s, a) && PanelOk(s, a) && a.phase.Releasing?
    ensures PanelOk(OnBench(s, BENCH_RELEASED), AbsTick(a, s, Bench))
  {
    ShownRatio(s, NO_READING);
    var released := PublishRatio(s, NO_READING).(completed := s.completed + 1);
    ReleasedShows(s, released, a);
  }

  lemma ReleasedShows(s: State, released: State, a: Abs)
    requires a.phase.Releasing? && PanelOk(s, a)
    requires released.motorOn == s.motorOn && released.redRatio == NO_READING && released.cycles == s.cycles
    requires Shown(released.trace) == Shown(s.trace).(ratio := Some(NO_READING))
    requires released.completed == s.completed + 1
    ensures PanelOk(if released.cycles <= 0 || released.completed < released.cycles
                    then After(released, Bench, BENCH_PLACE) else Emit(released, Finished), AbsTick(a, s, Bench))
  {
    ShownEmit(released, Finished);
  }

  lemma BenchShows(s: State, a: Abs, t: Tick)
    requires Firing(s, a, t) && PanelOk(s, a) && t.script == Bench
    ensures PanelOk(OnTick(s, t), AbsTick(a, s, Bench))
  {
    if a.phase.ToBePlaced? {
      PlaceShows(s, a, t);
    } else if a.phase.Dwelling? {
      ShownEmit(s, Lifted);
    } else {
      ReleaseShows(s, a);
    }
  }

  lemma TravelShows(s: State, a: Abs, t: Tick)
    requires Firing(s, a, t) && PanelOk(s, a) && t.script == Travel
    ensures PanelOk(OnTick(s, t), AbsTick(a, s, Travel))
  {
    var seen := s.(exitOccupied := true, atExit := s.onBelt);
    ShownEmit(seen, Arrived);
    ShownEnRoute(Stop(Emit(seen, Arrived), Jam), false);
  }

  lemma CaptureShows(s: State, a: Abs, t: Tick)
    requires Firing(s, a, t) && PanelOk(s, a) && t.script == Capture
    ensures PanelOk(OnTick(s, t), AbsTick(a, s, Capture))
  {
    ShownEmit(s, Measured(s.captureSampled));
    ShownRatio(Emit(s, Measured(s.captureSampled)), s.atExit);
  }

  lemma JamShows(s: State, a: Abs, t: Tick)
    requires Firing(s, a, t) && PanelOk(s, a) && t.script == Jam
    ensures PanelOk(OnTick(s, t), AbsTick(a, s, Jam))
  {
    ShownEnRoute(s, false);
    ShownEmit(PublishEnRoute(s, false), Withdrawn);
    ShownEmit(s.(motorOn := false), MotorStopped);
  }

  lemma RequestShows(s: State, a: Abs, t: Tick)
    requires Firing(s, a, t) && PanelOk(s, a) && (t.script == RequestRun || t.script == ExitHold)
    ensures PanelOk(OnTick(s, t), AbsTick(a, s, t.script))
  {
    ShownEnRoute(s, true);
  }

  lemma TickShows(s: State, a: Abs, t: Tick)
    requires Firing(s, a, t) && PanelOk(s, a)
    ensures PanelOk(OnTick(s, t), AbsTick(a, s, t.script))
  {
    match t.script
    case RequestRun => RequestShows(s, a, t);
    case ExitHold => RequestShows(s, a, t);
    case Travel => TravelShows(s, a, t);
    case Capture => CaptureShows(s, a, t);
    case Jam => JamShows(s, a, t);
    case Bench => BenchShows(s, a, t);
  }

  lemma StepShows(s: State, a: Abs, input: Input)
    requires Inv(s, a) && PanelOk(s, a)
    ensures PanelOk(Step(s, input), AbsStep(a, s, input))
  {
    match input
    case Command(state) => CommandShows(s, a, state);
    case Timer(t) => if t in s.pending { TimerShows(s, a, t); }
  }

  lemma TimerShows(s: State, a: Abs, t: Tick)
    requires Inv(s, a) && PanelOk(s, a) && t in s.pending
    ensures PanelOk(Step(s, Timer(t)), AbsStep(a, s, Timer(t)))
  {
    TakeTimers(s, LivesOf(a), t);
    var taken := s.(pending := s.pending - multiset{t});
    if t.gen == s.gens.Of(t.script) {
      TickShows(taken, a, t);
      assert AbsTick(a, taken, t.script) == AbsTick(a, s, t.script);
    }
  }

  lemma {:induction false} RunShows(s: State, a: Abs, inputs: seq<Input>) returns (b: Abs)
    requires Inv(s, a) && PanelOk(s, a)
    ensures Inv(Run(s, inputs), b) && PanelOk(Run(s, inputs), b)
    decreases |inputs|
  {
    b := a;
    if inputs == [] {
    } else {
      StepPreserves(s, a, inputs[0]);
      StepShows(s, a, inputs[0]);
      b := RunShows(Step(s, inputs[0]), AbsStep(a, s, inputs[0]), inputs[1..]);
    }
  }

  lemma BootShows(cycles: int)
    ensures PanelOk(Boot(cycles), Abs(ToBePlaced, false, false, Off))
  {
    var s := FRESH.(cycles := cycles);
    ShownEnRoute(s, false);
    ShownEmit(PublishEnRoute(s, false).(redRatio := NO_READING, ratioKnown := true), Ratio(NO_READING));
  }

  lemma ReachableShows(s: State) returns (a: Abs)
    requires Reachable(s)
    ensures Inv(s, a) && PanelOk(s, a)
  {
    var cycles, inputs :| s == Run(Boot(cycles), inputs);
    BootOk(cycles);
    BootShows(cycles);
    a := RunShows(Boot(cycles), Abs(ToBePlaced, false, false, Off), inputs);
  }

  // ---------- The request ----------

  // A request tick of the current generation that finds a brick on the entry leaves the
  // belt requested, and publishes that unless it was already.
  lemma BrickIsRequested(s: State, t: Tick)
    requires Reachable(s) && s.entryOccupied
    requires t in s.pending && t.script == RequestRun && t.gen == s.gens.Of(RequestRun)
    ensures var n := Step(s, Timer(t));
            n.enRoute && n.trace == s.trace + (if s.enRoute then [] else [EnRoute(true)])
  {
    var a := ReachablePhase(s);
    assert s.trace + [] == s.trace;
  }

  predicate Requesting(s: State) {
    Live(s, RequestRun, 0) in s.pending
  }

  // A brick on the entry whose belt is not requested has a request tick pending, or its
  // request was withdrawn since it was placed: no brick is forgotten.
  lemma NoBrickIsForgotten(s: State) returns (k: nat)
    requires Reachable(s) && s.entryOccupied && !s.enRoute && !Requesting(s)
    ensures k < |s.trace| && s.trace[k].Withdrawn? && forall j | k < j < |s.trace| :: !s.trace[j].Placed?
  {
    var a := ReachableShows(s);
    if a.requesting { LiveIsPending(s, a, RequestRun); }
    k := WithdrawnAt(s.trace);
  }

  lemma {:induction false} WithdrawnAt(trace: seq<Event>) returns (k: nat)
    requires Shown(trace).withdrawn
    ensures k < |trace| && trace[k].Withdrawn? && forall j | k < j < |trace| :: !trace[j].Placed?
  {
    k := |trace| - 1;
    if !trace[k].Withdrawn? { k := WithdrawnAt(trace[..k]); }
  }

  // Placing a brick and the exit hold over one that came too early both set a request going.
  lemma PlacedBrickIsRequested(s: State, t: Tick)
    requires Reachable(s) && t in s.pending && t.gen == s.gens.Of(t.script)
    requires t == Live(s, Bench, BENCH_PLACE) || (t.script == ExitHold && s.entryOccupied && !s.enRoute)
    ensures var n := Step(s, Timer(t)); n.entryOccupied && Requesting(n)
    ensures t.script.Bench? ==> Step(s, Timer(t)).onBelt == BrickFor(s.completed)
  {
    var a := ReachablePhase(s);
    TakeTimers(s, LivesOf(a), t);
    LiveFires(s, a, t);
  }

  // ---------- The jam clock ----------

  // When the jam clock runs out the request is taken back before that is logged.
  lemma WithdrawalIsPublished(s: State, k: nat) returns (j: nat)
    requires Reachable(s) && k < |s.trace| && s.trace[k].Withdrawn?
    ensures j < k && s.trace[j] == EnRoute(false) && forall m | j < m < k :: !s.trace[m].EnRoute?
  {
    PublicationsAreAccepted(s);
    AcceptedAt(s.trace, k);
    j := EnRouteAt(s.trace[..k]);
  }

  lemma {:induction false} EnRouteAt(trace: seq<Event>) returns (j: nat)
    requires Watched(trace).lastEnRoute.Some?
    ensures j < |trace| && trace[j] == EnRoute(Watched(trace).lastEnRoute.value)
    ensures forall m | j < m < |trace| :: !trace[m].EnRoute?
  {
    j := |trace| - 1;
    if !trace[j].EnRoute? { j := EnRouteAt(trace[..j]); }
  }

  // Turning the motor on starts the jam clock. Its first tick withdraws the request and its
  // second stops the motor; the motor cannot be left running for want of a tick.
  lemma JamClockStopsTheMotor(s: State)
    requires Reachable(s) && !s.motorOn
    ensures var on := Step(s, Command(true));
            var withdrawn := Step(on, Timer(Live(on, Jam, 0)));
            var off := Step(withdrawn, Timer(Live(withdrawn, Jam, 1)));
            && on.motorOn && on.trace == s.trace + [TurnedOn]
            && withdrawn.motorOn && !withdrawn.enRoute
            && withdrawn.trace == on.trace + (if on.enRoute then [EnRoute(false)] else []) + [Withdrawn]
            && !off.motorOn && off.trace == withdrawn.trace + [MotorStopped]
  {
    var a := ReachablePhase(s);
    var on := Step(s, Command(true));
    StepPreserves(s, a, Command(true));
    var b := AbsStep(a, s, Command(true));
    LiveIsPending(on, b, Jam);
    FirstJamTick(on, b);
    var t := Timer(Live(on, Jam, 0));
    StepPreserves(on, b, t);
    LiveIsPending(Step(on, t), AbsStep(b, on, t), Jam);
    LiveFires(Step(on, t), AbsStep(b, on, t), Live(Step(on, t), Jam, 1));
  }

  lemma FirstJamTick(s: State, a: Abs)
    requires Inv(s, a) && a.jam == Armed && Live(s, Jam, 0) in s.pending
    ensures var n := Step(s, Timer(Live(s, Jam, 0)));
            && AbsStep(a, s, Timer(Live(s, Jam, 0))) == a.(jam := Withdrew)
            && n.motorOn && !n.enRoute
            && n.trace == s.trace + (if s.enRoute then [EnRoute(false)] else []) + [Withdrawn]
  {
    LiveFires(s, a, Live(s, Jam, 0));
    assert s.trace + [] == s.trace;
  }

  // ---------- What was published last ----------

  predicate IsMotorEvent(e: Event) {
    e.TurnedOn? || e.TurnedOff? || e.MotorStopped?
  }

  lemma {:induction false} RatioAt(trace: seq<Event>) returns (j: nat)
    requires Shown(trace).ratio.Some?
    ensures j < |trace| && trace[j] == Ratio(Shown(trace).ratio.value)
    ensures forall m | j < m < |trace| :: !trace[m].Ratio?
  {
    j := |trace| - 1;
    if !trace[j].Ratio? { j := RatioAt(trace[..j]); }
  }

  lemma {:induction false} MotorAt(trace: seq<Event>) returns (j: int)
    ensures -1 <= j < |trace| && forall m | j < m < |trace| :: !IsMotorEvent(trace[m])
    ensures if j < 0 then !Shown(trace).motor
            else IsMotorEvent(trace[j]) && (trace[j].TurnedOn? <==> Shown(trace).motor)
  {
    j := |trace| - 1;
    if j >= 0 && !IsMotorEvent(trace[j]) { j := MotorAt(trace[..j]); }
  }

  // In every reachable state the en-route state and the ratio published last are the
  // firmware's own, and the last motor event says whether its motor is on.
  lemma PublishedIsCurrent(s: State) returns (enRoute: nat, ratio: nat, motor: int)
    requires Reachable(s)
    ensures enRoute < |s.trace| && s.trace[enRoute] == EnRoute(s.enRoute)
    ensures forall m | enRoute < m < |s.trace| :: !s.trace[m].EnRoute?
    ensures ratio < |s.trace| && s.trace[ratio] == Ratio(s.redRatio)
    ensures forall m | ratio < m < |s.trace| :: !s.trace[m].Ratio?
    ensures -1 <= motor < |s.trace| && forall m | motor < m < |s.trace| :: !IsMotorEvent(s.trace[m])
    ensures s.motorOn <==> motor >= 0 && s.trace[motor].TurnedOn?
  {
    var a := ReachableShows(s);
    enRoute := EnRouteAt(s.trace);
    ratio := RatioAt(s.trace);
    motor := MotorAt(s.trace);
  }

  // A reading stays published until its brick has been released, and then no longer.
  lemma ReadingIsShownUntilRelease(s: State) returns (a: Abs)
    requires Reachable(s)
    ensures Inv(s, a) && Shown(s.trace).ok
    ensures s.redRatio == if a.phase.Dwelling? || a.phase.Releasing? then BrickFor(s.completed) else NO_READING
  {
    a := ReachableShows(s);
  }

  // A fan command sets the motor, and is logged exactly if it changes it.
  lemma CommandSetsTheMotor(s: State, state: bool)
    ensures var n := Step(s, Command(state));
            && n.motorOn == state
            && n.trace == s.trace + (if state == s.motorOn then [] else [if state then TurnedOn else TurnedOff])
  {
    assert s.trace + [] == s.trace;
  }

  // ---------- The end of the sequence ----------

  lemma {:induction false} FinishedAt(trace: seq<Event>) returns (k: nat)
    requires Shown(trace).finished
    ensures k < |trace| && trace[k].Finished?
  {
    k := |trace| - 1;
    if !trace[k].Finished? { k := FinishedAt(trace[..k]); }
  }

  lemma {:induction false} FinishedIsShown(trace: seq<Event>, k: nat)
    requires k < |trace| && trace[k].Finished?
    ensures Shown(trace).finished
    decreases |trace|
  {
    if k < |trace| - 1 { FinishedIsShown(trace[..|trace| - 1], k); }
  }

  lemma RestartKeepsCycles(s: State, script: Script, step: nat)
    ensures Restart(s, script, step).cycles == s.cycles && Restart(s, script, step).trace == s.trace
  {
  }

  lemma RatioKeepsCycles(s: State, ratio: real)
    ensures PublishRatio(s, ratio).cycles == s.cycles
  {
  }

  lemma BenchKeepsCycles(s: State, step: nat)
    ensures OnBench(s, step).cycles == s.cycles
  {
    if step == BENCH_PLACE {
      RestartKeepsCycles(Emit(s.(onBelt := BrickFor(s.completed), entryOccupied := true), Placed), RequestRun, 0);
    } else if step == BENCH_LIFT {
      RestartKeepsCycles(Stop(Emit(s, Lifted).(exitOccupied := false), Capture), Bench, BENCH_RELEASED);
    } else if step == BENCH_RELEASED {
      RatioKeepsCycles(s, NO_READING);
    }
  }

  lemma ArrivalKeepsCycles(s: State)
    ensures OnArrival(s).cycles == s.cycles
  {
    RestartKeepsCycles(Landed(s), Capture, 0);
    RestartKeepsCycles(Restart(Landed(s), Capture, 0), ExitHold, 0);
  }

  lemma CaptureKeepsCycles(s: State, step: nat)
    ensures OnCapture(s, step).cycles == s.cycles
  {
    if step < CAPTURE_SAMPLES {
    } else if s.captureSampled < MIN_USABLE_SAMPLES {
      RatioKeepsCycles(Emit(s, Rejected(s.captureSampled)), NO_READING);
    } else {
      RatioKeepsCycles(Emit(s, Measured(s.captureSampled)), s.atExit);
    }
  }

  lemma RestKeepCycles(s: State, t: Tick)
    requires !t.script.Bench? && !t.script.Capture? && !t.script.Travel?
    ensures OnTick(s, t).cycles == s.cycles
  {
  }

  lemma TickKeepsCycles(s: State, t: Tick)
    ensures OnTick(s, t).cycles == s.cycles
  {
    match t.script
    case Bench => BenchKeepsCycles(s, t.step);
    case Capture => CaptureKeepsCycles(s, t.step);
    case Travel => ArrivalKeepsCycles(s);
    case _ => RestKeepCycles(s, t);
  }

  lemma CyclesStay(s: State, input: Input)
    ensures Step(s, input).cycles == s.cycles
  {
    if input.Timer? && input.tick in s.pending {
      TickKeepsCycles(s.(pending := s.pending - multiset{input.tick}), input.tick);
    }
  }

  lemma {:induction false} CyclesNeverChange(s: State, inputs: seq<Input>)
    ensures Run(s, inputs).cycles == s.cycles
    decreases |inputs|
  {
    if inputs == [] {
    } else {
      CyclesStay(s, inputs[0]);
      CyclesNeverChange(Step(s, inputs[0]), inputs[1..]);
    }
  }

  // In every run the sequence is declared finished exactly when as many bricks as asked for
  // have been completed, never more; asked for none, it goes on for ever.
  lemma SequenceFinishesExactly(cycles: int, inputs: seq<Input>)
    ensures var s := Run(Boot(cycles), inputs);
            && ((exists k :: 0 <= k < |s.trace| && s.trace[k].Finished?) <==> 0 < cycles <= s.completed)
            && (cycles > 0 ==> s.completed <= cycles)
  {
    var s := Run(Boot(cycles), inputs);
    CyclesNeverChange(Boot(cycles), inputs);
    assert Boot(cycles).cycles == cycles && Reachable(s);
    var a := ReachableShows(s);
    if Shown(s.trace).finished { var k := FinishedAt(s.trace); }
    forall k | 0 <= k < |s.trace| && s.trace[k].Finished? ensures Shown(s.trace).finished {
      FinishedIsShown(s.trace, k);
    }
  }

  // ---------- Guards that no run needs ----------

  // A sample counts only with a brick at the exit; a capture with fewer than three of them
  // is rejected, with no reading and no brick to lift; and the backstop leaves a motor alone
  // that is off. No run comes to any of this, but it is what the handlers do.
  lemma HandlersGuardThemselves(s: State, step: nat)
    ensures !s.exitOccupied && step < 5 ==> OnCapture(s, step) == After(s, Capture, step + 1)
    ensures step >= 5 && s.captureSampled < 3 ==>
              && OnCapture(s, step).redRatio == NO_READING && OnCapture(s, step).pending == s.pending
              && s.trace + [Rejected(s.captureSampled)] <= OnCapture(s, step).trace
    ensures step >= 5 && s.captureSampled >= 3 ==> OnCapture(s, step).redRatio == s.atExit
    ensures step > 1 || (step == 1 && !s.motorOn) ==> OnJam(s, step) == s
    ensures step > 2 ==> OnBench(s, step) == s
    ensures step > 1 ==> OnTravel(s, step) == s
  {
  }
}
