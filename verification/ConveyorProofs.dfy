// Whatever order timers fire in and whenever the motor is commanded, the firmware
// follows one brick through a fixed cycle of phases, and what it publishes is accepted
// by a specification automaton that sees nothing but the events.
module ConveyorProofs {
  import opened Common
  import opened ConveyorModel

  // ---------- The specification automaton over published events ----------

  datatype JamClock = Off | Armed | Withdrew

  datatype Monitor = Monitor(
    ok: bool,
    lastEnRoute: Option<bool>,
    carried: bool,            // a brick is placed and has not arrived
    atExit: bool,             // a brick has arrived and has not been lifted
    jam: JamClock,            // of the current motor-on period
    readings: nat,
    unread: bool)              // a measurement has not been published yet

  const START := Monitor(true, None, false, false, Off, 0, false)

  function Watch(m: Monitor, e: Event): Monitor {
    match e
    // Alternating, false first, and true only while a brick is on the belt.
    case EnRoute(state) =>
      m.(lastEnRoute := Some(state),
         ok := m.ok && (if m.lastEnRoute.None? then !state else m.lastEnRoute.value != state) && (state ==> m.carried))
    // A reading is published once per measurement, while its brick is at the exit, and
    // is the one of the brick in turn.
    case Ratio(ratio) =>
      if ratio < 0.0 then m.(ok := m.ok && ratio == NO_READING && !m.atExit && !m.unread)
      else m.(readings := m.readings + 1, unread := false,
              ok := m.ok && m.atExit && m.unread && ratio == BrickFor(m.readings))
    case Measured(samples) => m.(unread := true, ok := m.ok && !m.unread && samples == CAPTURE_SAMPLES)
    case Rejected(_) => m.(ok := false)
    // One jam clock per motor-on period: it may withdraw once, with the request taken back
    // by then, and may stop the motor only after that; arrival and turning off cancel it.
    case TurnedOn => m.(jam := Armed, ok := m.ok && m.jam == Off)
    case TurnedOff => m.(jam := Off)
    case Arrived => m.(jam := Off, atExit := true, carried := false, ok := m.ok && m.carried && !m.atExit)
    case Withdrawn => m.(jam := Withdrew, ok := m.ok && m.jam == Armed && m.lastEnRoute == Some(false))
    case MotorStopped => m.(jam := Off, ok := m.ok && m.jam == Withdrew)
    case Placed => m.(carried := true, ok := m.ok && !m.carried && !m.atExit)
    case Lifted => m.(atExit := false, ok := m.ok && m.atExit)
    case Finished => m
  }

  function Watched(trace: seq<Event>): Monitor {
    if trace == [] then START else Watch(Watched(trace[..|trace| - 1]), trace[|trace| - 1])
  }

  lemma WatchedEmit(s: State, e: Event)
    ensures Watched(Emit(s, e).trace) == Watch(Watched(s.trace), e)
  {
    assert (s.trace + [e])[..|s.trace|] == s.trace;
  }

  // ---------- Phases ----------

  datatype Phase =
    | ToBePlaced
    | OnEntry(clearing: bool)        // clearing: the belt is carrying it out of the beam
    | InTransit(moving: bool)        // not moving: stranded between the sensors
    | Capturing(step: nat)
    | Dwelling
    | Releasing
    | Ended

  // The phase of the brick and which of the other timers are live.
  datatype Abs = Abs(phase: Phase, requesting: bool, holding: bool, jam: JamClock)

  // The step each script's only live timer will run, if it has one.
  datatype Lives = Lives(requestRun: Option<nat>, travel: Option<nat>, capture: Option<nat>,
                         exitHold: Option<nat>, jam: Option<nat>, bench: Option<nat>) {
    function Of(s: Script): Option<nat> {
      match s
      case RequestRun => requestRun
      case Travel => travel
      case Capture => capture
      case ExitHold => exitHold
      case Jam => jam
      case Bench => bench
    }

    function With(s: Script, live: Option<nat>): Lives {
      match s
      case RequestRun => this.(requestRun := live)
      case Travel => this.(travel := live)
      case Capture => this.(capture := live)
      case ExitHold => this.(exitHold := live)
      case Jam => this.(jam := live)
      case Bench => this.(bench := live)
    }
  }

  function LivesOf(a: Abs): Lives {
    Lives(
      if a.requesting then Some(0) else None,
      if a.phase == OnEntry(true) then Some(TRAVEL_CLEAR_ENTRY)
      else if a.phase == InTransit(true) then Some(TRAVEL_ARRIVE) else None,
      if a.phase.Capturing? then Some(a.phase.step) else None,
      if a.holding then Some(0) else None,
      if a.jam == Armed then Some(0) else if a.jam == Withdrew then Some(1) else None,
      if a.phase.ToBePlaced? then Some(BENCH_PLACE)
      else if a.phase.Dwelling? then Some(BENCH_LIFT)
      else if a.phase.Releasing? then Some(BENCH_RELEASED) else None)
  }

  // Each script has exactly the live timer it should have, once, and no timer belongs
  // to a generation still to come.
  ghost predicate TimersIn(pending: multiset<Tick>, gens: Gens, lives: Lives) {
    && (forall t | t in pending :: t.gen <= gens.Of(t.script))
    && (forall t: Tick | t.gen == gens.Of(t.script) ::
          pending[t] == if lives.Of(t.script) == Some(t.step) then 1 else 0)
  }

  ghost predicate TimersOk(s: State, lives: Lives) {
    TimersIn(s.pending, s.gens, lives)
  }

  lemma AfterTimers(s: State, lives: Lives, script: Script, step: nat)
    requires TimersOk(s, lives) && lives.Of(script) == None
    ensures TimersOk(After(s, script, step), lives.With(script, Some(step)))
  {
  }

  lemma StopTimers(s: State, lives: Lives, script: Script)
    requires TimersOk(s, lives)
    ensures TimersOk(Stop(s, script), lives.With(script, None))
  {
    var n := Stop(s, script);
    forall t: Tick | t.gen == n.gens.Of(t.script)
      ensures n.pending[t] == if lives.With(script, None).Of(t.script) == Some(t.step) then 1 else 0
    {
      if t.script == script { assert t !in s.pending; } else { assert t.gen == s.gens.Of(t.script); }
    }
  }

  lemma RestartTimers(s: State, lives: Lives, script: Script, step: nat)
    requires TimersOk(s, lives)
    ensures TimersOk(Restart(s, script, step), lives.With(script, Some(step)))
  {
    StopTimers(s, lives, script);
    AfterTimers(Stop(s, script), lives.With(script, None), script, step);
  }

  // Removing a tick from the channel: a live one leaves its script without a timer.
  lemma TakeTimers(s: State, lives: Lives, t: Tick)
    requires TimersOk(s, lives) && t in s.pending
    ensures var taken := s.(pending := s.pending - multiset{t});
            if t.gen == s.gens.Of(t.script)
            then lives.Of(t.script) == Some(t.step) && TimersOk(taken, lives.With(t.script, None))
            else TimersOk(taken, lives)
  {
  }

  // ---------- The invariant ----------

  predicate Carried(phase: Phase) { phase.OnEntry? || phase.InTransit? }

  predicate AtExit(phase: Phase) { phase.Capturing? || phase.Dwelling? }

  predicate Read(phase: Phase) { phase.Dwelling? || phase.Releasing? }

  predicate WorldOk(s: State, a: Abs) {
    && (s.entryOccupied <==> a.phase.OnEntry?)
    && (s.exitOccupied <==> AtExit(a.phase))
    && (Carried(a.phase) ==> s.onBelt == BrickFor(s.completed))
    && (AtExit(a.phase) ==> s.atExit == BrickFor(s.completed))
    && (a.phase.Capturing? ==> a.phase.step <= CAPTURE_SAMPLES && s.captureSampled == a.phase.step)
    && s.enRouteKnown && s.ratioKnown
    && (s.enRoute ==> Carried(a.phase))
    && s.redRatio == (if Read(a.phase) then BrickFor(s.completed) else NO_READING)
    && (a.jam != Off ==> s.motorOn)
    && (a.phase.Ended? <==> 0 < s.cycles <= s.completed)
    && (s.cycles > 0 ==> s.completed <= s.cycles)
  }

  // The published events, as the automaton sees them.
  predicate TraceOk(s: State, a: Abs) {
    Watched(s.trace) ==
      Monitor(true, Some(s.enRoute), Carried(a.phase), AtExit(a.phase), a.jam,
              s.completed + (if Read(a.phase) then 1 else 0), false)
  }

  ghost predicate Inv(s: State, a: Abs) {
    TimersOk(s, LivesOf(a)) && WorldOk(s, a) && TraceOk(s, a)
  }

  // ---------- Phase steps ----------

  function AbsCommand(a: Abs, s: State, state: bool): Abs {
    if state == s.motorOn then a
    else if !state then
      a.(jam := Off,
         phase := match a.phase
                  case OnEntry(_) => OnEntry(false)
                  case InTransit(_) => InTransit(false)
                  case other => other)
    else a.(jam := Armed, phase := if a.phase.OnEntry? then OnEntry(true) else a.phase)
  }

  // The step taken when the live timer of a script fires.
  function AbsTick(a: Abs, s: State, script: Script): Abs {
    match script
    case RequestRun => a.(requesting := false)
    case ExitHold => a.(holding := false, requesting := a.requesting || (s.entryOccupied && !s.enRoute))
    case Jam => a.(jam := if a.jam == Armed then Withdrew else Off)
    case Travel =>
      if a.phase.OnEntry? then a.(phase := InTransit(true))
      else a.(phase := Capturing(0), holding := true, jam := Off)
    case Capture =>
      if !a.phase.Capturing? then a
      else a.(phase := if a.phase.step < CAPTURE_SAMPLES then Capturing(a.phase.step + 1) else Dwelling)
    case Bench =>
      match a.phase
      case ToBePlaced => a.(phase := OnEntry(false), requesting := true)
      case Dwelling => a.(phase := Releasing)
      case _ => a.(phase := if s.cycles <= 0 || s.completed + 1 < s.cycles then ToBePlaced else Ended)
  }

  function AbsStep(a: Abs, s: State, input: Input): Abs {
    match input
    case Command(state) => AbsCommand(a, s, state)
    case Timer(t) => if t in s.pending && t.gen == s.gens.Of(t.script) then AbsTick(a, s, t.script) else a
  }

  lemma PublishEnRouteTrace(s: State, state: bool)
    requires s.enRouteKnown && Watched(s.trace).lastEnRoute == Some(s.enRoute)
    requires state ==> Watched(s.trace).carried
    ensures var n := PublishEnRoute(s, state);
            && n == s.(enRoute := state, trace := n.trace)
            && Watched(n.trace) == Watched(s.trace).(lastEnRoute := Some(state))
  {
    WatchedEmit(s.(enRoute := state, enRouteKnown := true), EnRoute(state));
  }

  // A value other than the published one is pushed; nothing else changes.
  lemma PublishRatioTrace(s: State, ratio: real)
    requires s.redRatio != ratio
    ensures var n := PublishRatio(s, ratio);
            && n == s.(redRatio := ratio, ratioKnown := true, trace := n.trace)
            && Watched(n.trace) == Watch(Watched(s.trace), Ratio(ratio))
  {
    WatchedEmit(s.(redRatio := ratio, ratioKnown := true), Ratio(ratio));
  }

  // ---------- Preservation, handler by handler ----------

  lemma TurnOffPreserves(s: State, a: Abs)
    requires Inv(s, a) && s.motorOn
    ensures Inv(OnFanCommand(s, false), AbsCommand(a, s, false))
  {
    var off := Emit(s.(motorOn := false), TurnedOff);
    WatchedEmit(s.(motorOn := false), TurnedOff);
    StopTimers(off, LivesOf(a), Jam);
    StopTimers(Stop(off, Jam), LivesOf(a).With(Jam, None), Travel);
    assert LivesOf(AbsCommand(a, s, false)) == LivesOf(a).With(Jam, None).With(Travel, None);
  }

  lemma TurnOnPreserves(s: State, a: Abs)
    requires Inv(s, a) && !s.motorOn
    ensures Inv(OnFanCommand(s, true), AbsCommand(a, s, true))
  {
    var on := Emit(s.(motorOn := true), TurnedOn);
    WatchedEmit(s.(motorOn := true), TurnedOn);
    var timed := LivesOf(a).With(Jam, Some(0));
    RestartTimers(on, LivesOf(a), Jam, 0);
    if s.entryOccupied {
      RestartTimers(Restart(on, Jam, 0), timed, Travel, TRAVEL_CLEAR_ENTRY);
      assert LivesOf(AbsCommand(a, s, true)) == timed.With(Travel, Some(TRAVEL_CLEAR_ENTRY));
    } else {
      assert LivesOf(AbsCommand(a, s, true)) == timed;
    }
  }

  lemma CommandPreserves(s: State, a: Abs, state: bool)
    requires Inv(s, a)
    ensures Inv(OnFanCommand(s, state), AbsCommand(a, s, state))
  {
    if state != s.motorOn {
      if state { TurnOnPreserves(s, a); } else { TurnOffPreserves(s, a); }
    }
  }

  // The hypotheses under which a live tick reaches its handler: its timer is gone.
  ghost predicate Firing(s: State, a: Abs, t: Tick) {
    && t.gen == s.gens.Of(t.script)
    && LivesOf(a).Of(t.script) == Some(t.step)
    && TimersOk(s, LivesOf(a).With(t.script, None))
    && WorldOk(s, a) && TraceOk(s, a)
  }

  lemma RequestPreserves(s: State, a: Abs, t: Tick)
    requires Firing(s, a, t) && t.script == RequestRun
    ensures Inv(OnTick(s, t), AbsTick(a, s, RequestRun))
  {
    if s.entryOccupied { PublishEnRouteTrace(s, true); }
    assert LivesOf(AbsTick(a, s, RequestRun)) == LivesOf(a).With(RequestRun, None);
  }

  lemma HoldPreserves(s: State, a: Abs, t: Tick)
    requires Firing(s, a, t) && t.script == ExitHold
    ensures Inv(OnTick(s, t), AbsTick(a, s, ExitHold))
  {
    var lives := LivesOf(a).With(ExitHold, None);
    if s.entryOccupied && !s.enRoute {
      RestartTimers(s, lives, RequestRun, 0);
      assert LivesOf(AbsTick(a, s, ExitHold)) == lives.With(RequestRun, Some(0));
    } else {
      assert LivesOf(AbsTick(a, s, ExitHold)) == lives;
    }
  }

  lemma JamPreserves(s: State, a: Abs, t: Tick)
    requires Firing(s, a, t) && t.script == Jam
    ensures Inv(OnTick(s, t), AbsTick(a, s, Jam))
  {
    var lives := LivesOf(a).With(Jam, None);
    if t.step == 0 {
      PublishEnRouteTrace(s, false);
      var quiet := PublishEnRoute(s, false);
      WatchedEmit(quiet, Withdrawn);
      AfterTimers(Emit(quiet, Withdrawn), lives, Jam, 1);
      assert LivesOf(AbsTick(a, s, Jam)) == lives.With(Jam, Some(1));
    } else {
      WatchedEmit(s.(motorOn := false), MotorStopped);
      assert LivesOf(AbsTick(a, s, Jam)) == lives;
    }
  }

  // The brick reaches the exit sensor, up to the point where its scripts are started.
  function Landed(s: State): State {
    PublishEnRoute(Stop(Emit(s.(exitOccupied := true, atExit := s.onBelt), Arrived), Jam), false).(captureSampled := 0)
  }

  lemma LandedTrace(s: State, a: Abs)
    requires a.phase == InTransit(true) && WorldOk(s, a) && TraceOk(s, a)
    ensures WorldOk(Landed(s), AbsTick(a, s, Travel)) && TraceOk(Landed(s), AbsTick(a, s, Travel))
  {
    var seen := s.(exitOccupied := true, atExit := s.onBelt);
    WatchedEmit(seen, Arrived);
    PublishEnRouteTrace(Stop(Emit(seen, Arrived), Jam), false);
  }

  lemma ArrivalPreserves(s: State, a: Abs)
    requires a.phase == InTransit(true) && WorldOk(s, a) && TraceOk(s, a)
    requires TimersOk(s, LivesOf(a).With(Travel, None))
    ensures Inv(OnArrival(s), AbsTick(a, s, Travel))
  {
    var lives := LivesOf(a).With(Travel, None).With(Jam, None);
    StopTimers(Emit(s.(exitOccupied := true, atExit := s.onBelt), Arrived), LivesOf(a).With(Travel, None), Jam);
    LandedTrace(s, a);
    assert TimersOk(Landed(s), lives);
    RestartTimers(Landed(s), lives, Capture, 0);
    RestartTimers(Restart(Landed(s), Capture, 0), lives.With(Capture, Some(0)), ExitHold, 0);
    assert LivesOf(AbsTick(a, s, Travel)) == lives.With(Capture, Some(0)).With(ExitHold, Some(0));
  }

  lemma TravelPreserves(s: State, a: Abs, t: Tick)
    requires Firing(s, a, t) && t.script == Travel
    ensures Inv(OnTick(s, t), AbsTick(a, s, Travel))
  {
    if t.step == TRAVEL_CLEAR_ENTRY {
      AfterTimers(s.(entryOccupied := false), LivesOf(a).With(Travel, None), Travel, TRAVEL_ARRIVE);
      assert LivesOf(AbsTick(a, s, Travel)) == LivesOf(a).With(Travel, None).With(Travel, Some(TRAVEL_ARRIVE));
    } else {
      ArrivalPreserves(s, a);
    }
  }

  lemma SamplePreserves(s: State, a: Abs, t: Tick)
    requires Firing(s, a, t) && t.script == Capture && t.step < CAPTURE_SAMPLES
    ensures Inv(OnTick(s, t), AbsTick(a, s, Capture))
  {
    var lives := LivesOf(a).With(Capture, None);
    AfterTimers(s.(captureSampled := s.captureSampled + 1), lives, Capture, t.step + 1);
    assert LivesOf(AbsTick(a, s, Capture)) == lives.With(Capture, Some(t.step + 1));
  }

  function MeasuredState(s: State): State {
    PublishRatio(Emit(s, Measured(s.captureSampled)), s.atExit)
  }

  lemma MeasureTrace(s: State, a: Abs)
    requires a.phase == Capturing(CAPTURE_SAMPLES) && WorldOk(s, a) && TraceOk(s, a)
    ensures WorldOk(MeasuredState(s), a.(phase := Dwelling)) && TraceOk(MeasuredState(s), a.(phase := Dwelling))
    ensures MeasuredState(s).pending == s.pending && MeasuredState(s).gens == s.gens
  {
    WatchedEmit(s, Measured(s.captureSampled));
    PublishRatioTrace(Emit(s, Measured(s.captureSampled)), s.atExit);
  }

  lemma MeasurePreserves(s: State, a: Abs, t: Tick)
    requires Firing(s, a, t) && t.script == Capture && t.step >= CAPTURE_SAMPLES
    ensures Inv(OnTick(s, t), AbsTick(a, s, Capture))
  {
    var lives := LivesOf(a).With(Capture, None);
    MeasureTrace(s, a);
    AfterTimers(MeasuredState(s), lives, Bench, BENCH_LIFT);
    assert OnTick(s, t) == After(MeasuredState(s), Bench, BENCH_LIFT);
    assert LivesOf(AbsTick(a, s, Capture)) == lives.With(Bench, Some(BENCH_LIFT));
  }

  lemma CapturePreserves(s: State, a: Abs, t: Tick)
    requires Firing(s, a, t) && t.script == Capture
    ensures Inv(OnTick(s, t), AbsTick(a, s, Capture))
  {
    if t.step < CAPTURE_SAMPLES { SamplePreserves(s, a, t); } else { MeasurePreserves(s, a, t); }
  }

  lemma PlacePreserves(s: State, a: Abs, t: Tick)
    requires Firing(s, a, t) && t.script == Bench && a.phase.ToBePlaced?
    ensures Inv(OnTick(s, t), AbsTick(a, s, Bench))
  {
    var lives := LivesOf(a).With(Bench, None);
    var placed := s.(onBelt := BrickFor(s.completed), entryOccupied := true);
    WatchedEmit(placed, Placed);
    RestartTimers(Emit(placed, Placed), lives, RequestRun, 0);
    assert LivesOf(AbsTick(a, s, Bench)) == lives.With(RequestRun, Some(0));
  }

  lemma LiftPreserves(s: State, a: Abs, t: Tick)
    requires Firing(s, a, t) && t.script == Bench && a.phase.Dwelling?
    ensures Inv(OnTick(s, t), AbsTick(a, s, Bench))
  {
    var lives := LivesOf(a).With(Bench, None);
    WatchedEmit(s, Lifted);
    var lifted := Emit(s, Lifted).(exitOccupied := false);
    StopTimers(lifted, lives, Capture);
    RestartTimers(Stop(lifted, Capture), lives.With(Capture, None), Bench, BENCH_RELEASED);
    assert LivesOf(AbsTick(a, s, Bench)) == lives.With(Capture, None).With(Bench, Some(BENCH_RELEASED));
  }

  lemma ReleaseTrace(s: State, a: Abs)
    requires a.phase.Releasing? && WorldOk(s, a) && TraceOk(s, a)
    ensures var n := PublishRatio(s, NO_READING);
            && n == s.(redRatio := NO_READING, ratioKnown := true, trace := n.trace)
            && Watched(n.trace) == Watched(s.trace)
  {
    PublishRatioTrace(s, NO_READING);
  }

  lemma ReleasePreserves(s: State, a: Abs, t: Tick)
    requires Firing(s, a, t) && t.script == Bench && a.phase.Releasing?
    ensures Inv(OnTick(s, t), AbsTick(a, s, Bench))
  {
    if s.cycles <= 0 || s.completed + 1 < s.cycles { ReleaseThenPlace(s, a, t); } else { ReleaseTheLast(s, a, t); }
  }

  lemma ReleaseThenPlace(s: State, a: Abs, t: Tick)
    requires Firing(s, a, t) && t.script == Bench && a.phase.Releasing?
    requires s.cycles <= 0 || s.completed + 1 < s.cycles
    ensures Inv(OnTick(s, t), AbsTick(a, s, Bench))
  {
    var lives := LivesOf(a).With(Bench, None);
    ReleaseTrace(s, a);
    var released := PublishRatio(s, NO_READING).(completed := s.completed + 1);
    assert TimersOk(released, lives);
    AfterTimers(released, lives, Bench, BENCH_PLACE);
    assert OnTick(s, t) == After(released, Bench, BENCH_PLACE);
    assert LivesOf(AbsTick(a, s, Bench)) == lives.With(Bench, Some(BENCH_PLACE));
  }

  lemma ReleaseTheLast(s: State, a: Abs, t: Tick)
    requires Firing(s, a, t) && t.script == Bench && a.phase.Releasing?
    requires !(s.cycles <= 0 || s.completed + 1 < s.cycles)
    ensures Inv(OnTick(s, t), AbsTick(a, s, Bench))
  {
    var lives := LivesOf(a).With(Bench, None);
    ReleaseTrace(s, a);
    var released := PublishRatio(s, NO_READING).(completed := s.completed + 1);
    assert TimersOk(released, lives);
    WatchedEmit(released, Finished);
    assert OnTick(s, t) == Emit(released, Finished);
    assert LivesOf(AbsTick(a, s, Bench)) == lives;
  }

  lemma TickPreserves(s: State, a: Abs, t: Tick)
    requires Firing(s, a, t)
    ensures Inv(OnTick(s, t), AbsTick(a, s, t.script))
  {
    match t.script
    case RequestRun => RequestPreserves(s, a, t);
    case Travel => TravelPreserves(s, a, t);
    case Capture => CapturePreserves(s, a, t);
    case ExitHold => HoldPreserves(s, a, t);
    case Jam => JamPreserves(s, a, t);
    case Bench =>
      if a.phase.ToBePlaced? { PlacePreserves(s, a, t); }
      else if a.phase.Dwelling? { LiftPreserves(s, a, t); }
      else { ReleasePreserves(s, a, t); }
  }

  lemma StepPreserves(s: State, a: Abs, input: Input)
    requires Inv(s, a)
    ensures Inv(Step(s, input), AbsStep(a, s, input))
  {
    match input
    case Command(state) => CommandPreserves(s, a, state);
    case Timer(t) => if t in s.pending { TimerPreserves(s, a, t); }
  }

  lemma TimerPreserves(s: State, a: Abs, t: Tick)
    requires Inv(s, a) && t in s.pending
    ensures Inv(Step(s, Timer(t)), AbsStep(a, s, Timer(t)))
  {
    TakeTimers(s, LivesOf(a), t);
    var taken := s.(pending := s.pending - multiset{t});
    if t.gen == s.gens.Of(t.script) {
      TickPreserves(taken, a, t);
      assert AbsTick(a, taken, t.script) == AbsTick(a, s, t.script);
    }
  }

  lemma BootOk(cycles: int)
    ensures Inv(Boot(cycles), Abs(ToBePlaced, false, false, Off))
  {
    var s := FRESH.(cycles := cycles);
    WatchedEmit(s.(enRoute := false, enRouteKnown := true), EnRoute(false));
    var quiet := PublishEnRoute(s, false);
    WatchedEmit(quiet.(redRatio := NO_READING, ratioKnown := true), Ratio(NO_READING));
    var none := Lives(None, None, None, None, None, None);
    assert TimersOk(PublishRatio(quiet, NO_READING), none);
    RestartTimers(PublishRatio(quiet, NO_READING), none, Bench, BENCH_PLACE);
    assert LivesOf(Abs(ToBePlaced, false, false, Off)) == none.With(Bench, Some(BENCH_PLACE));
  }

  lemma {:induction false} RunPreserves(s: State, a: Abs, inputs: seq<Input>) returns (b: Abs)
    requires Inv(s, a)
    ensures Inv(Run(s, inputs), b)
    decreases |inputs|
  {
    b := a;
    if inputs == [] {
    } else {
      StepPreserves(s, a, inputs[0]);
      b := RunPreserves(Step(s, inputs[0]), AbsStep(a, s, inputs[0]), inputs[1..]);
    }
  }

  // ---------- Main results ----------

  // Every run, with any interleaving of motor commands and timers, is a run of the
  // phase machine.
  lemma EveryRunFollowsThePhases(cycles: int, inputs: seq<Input>) returns (a: Abs)
    ensures Inv(Run(Boot(cycles), inputs), a)
  {
    BootOk(cycles);
    a := RunPreserves(Boot(cycles), Abs(ToBePlaced, false, false, Off), inputs);
  }

  // A state some run reaches from boot.
  ghost predicate Reachable(s: State) {
    exists cycles, inputs :: s == Run(Boot(cycles), inputs)
  }

  lemma ReachablePhase(s: State) returns (a: Abs)
    requires Reachable(s)
    ensures Inv(s, a)
  {
    var cycles, inputs :| s == Run(Boot(cycles), inputs);
    a := EveryRunFollowsThePhases(cycles, inputs);
  }

  // The state determines the phase: a brick is in exactly one.
  lemma PhaseIsUnique(s: State, a: Abs, b: Abs)
    requires Inv(s, a) && Inv(s, b)
    ensures a == b
  {
    assert forall script :: LivesOf(a).Of(script) == LivesOf(b).Of(script) by {
      forall script ensures LivesOf(a).Of(script) == LivesOf(b).Of(script) {
        SameLives(s, LivesOf(a), LivesOf(b), script);
      }
    }
    assert LivesOf(a).Of(Travel) == LivesOf(b).Of(Travel) && LivesOf(a).Of(Capture) == LivesOf(b).Of(Capture);
    assert LivesOf(a).Of(Bench) == LivesOf(b).Of(Bench) && LivesOf(a).Of(RequestRun) == LivesOf(b).Of(RequestRun);
    assert LivesOf(a).Of(ExitHold) == LivesOf(b).Of(ExitHold);
  }

  lemma SameLives(s: State, one: Lives, two: Lives, script: Script)
    requires TimersOk(s, one) && TimersOk(s, two)
    ensures one.Of(script) == two.Of(script)
  {
    var gen := s.gens.Of(script);
    if one.Of(script).Some? {
      assert s.pending[Tick(script, gen, one.Of(script).value)] == 1;
    }
    if two.Of(script).Some? {
      assert s.pending[Tick(script, gen, two.Of(script).value)] == 1;
    }
  }

  // A script never has two ticks of its current generation.
  lemma AtMostOneLiveTick(s: State, t: Tick, u: Tick)
    requires Reachable(s) && t in s.pending && u in s.pending && t.script == u.script
             && t.gen == u.gen == s.gens.Of(t.script)
    ensures t == u && s.pending[t] == 1
  {
    var a := ReachablePhase(s);
  }

  // The two beams are never both occupied.
  lemma BeamsAreExclusive(s: State)
    requires Reachable(s)
    ensures !(s.entryOccupied && s.exitOccupied)
  {
    var a := ReachablePhase(s);
  }

  // The motor is requested only while a brick is on the entry beam or between the beams.
  lemma RequestOnlyWhileCarried(s: State) returns (a: Abs)
    requires Reachable(s)
    ensures Inv(s, a)
    ensures s.enRoute ==> a.phase.OnEntry? || a.phase.InTransit?
    ensures s.enRoute ==> !s.exitOccupied && s.onBelt == BrickFor(s.completed)
  {
    a := ReachablePhase(s);
  }

  // A live capture tick at step k finds exactly k samples, with the brick still there,
  // so a capture that completes has all five and is never rejected.
  lemma CaptureCountsEverySample(s: State, t: Tick)
    requires Reachable(s) && t in s.pending && t.script == Capture && t.gen == s.gens.Of(Capture)
    ensures s.captureSampled == t.step <= CAPTURE_SAMPLES && s.exitOccupied
  {
    var a := ReachablePhase(s);
  }

  // While a jam tick is live the motor is on: the guard of the backstop always holds.
  lemma BackstopFindsMotorOn(s: State, t: Tick)
    requires Reachable(s) && t in s.pending && t.script == Jam && t.gen == s.gens.Of(Jam)
    ensures s.motorOn
  {
    var a := ReachablePhase(s);
  }

  // Everything the firmware publishes is accepted by the automaton.
  lemma PublicationsAreAccepted(s: State)
    requires Reachable(s)
    ensures Watched(s.trace).ok
  {
    var a := ReachablePhase(s);
  }

  // ---------- What acceptance means for a list of events ----------

  predicate IsReading(e: Event) { e.Ratio? && e.ratio >= 0.0 }

  function Readings(trace: seq<Event>): (r: seq<real>) {
    if trace == [] then []
    else
      var last := trace[|trace| - 1];
      Readings(trace[..|trace| - 1]) + if IsReading(last) then [last.ratio] else []
  }

  // The published readings are those of the bricks in rotation, in order, none lost or
  // repeated.
  lemma {:induction false} ReadingsFollowTheRotation(trace: seq<Event>)
    requires Watched(trace).ok
    ensures |Readings(trace)| == Watched(trace).readings
    ensures forall k | 0 <= k < |Readings(trace)| :: Readings(trace)[k] == BrickFor(k)
  {
    if trace == [] {
    } else {
      ReadingsFollowTheRotation(trace[..|trace| - 1]);
    }
  }

  lemma ReadingsCountBricks(s: State) returns (a: Abs)
    requires Reachable(s)
    ensures Inv(s, a)
            && |Readings(s.trace)| == s.completed + (if a.phase.Dwelling? || a.phase.Releasing? then 1 else 0)
            && forall k | 0 <= k < |Readings(s.trace)| :: Readings(s.trace)[k] == [48.0, 29.0, 35.0, 26.0][k % 4]
  {
    a := ReachablePhase(s);
    ReadingsFollowTheRotation(s.trace);
  }

  lemma {:induction false} AcceptedPrefix(trace: seq<Event>, k: nat)
    requires Watched(trace).ok && k <= |trace|
    ensures Watched(trace[..k]).ok
    decreases |trace|
  {
    if k < |trace| {
      assert trace[..|trace| - 1][..k] == trace[..k];
      AcceptedPrefix(trace[..|trace| - 1], k);
    } else {
      assert trace[..k] == trace;
    }
  }

  // Every event of a run was acceptable when it was published.
  lemma AcceptedAt(trace: seq<Event>, k: nat)
    requires Watched(trace).ok && k < |trace|
    ensures Watched(trace[..k]).ok && Watch(Watched(trace[..k]), trace[k]).ok
  {
    AcceptedPrefix(trace, k + 1);
    AcceptedPrefix(trace, k);
    assert trace[..k + 1][..k] == trace[..k];
  }

  // No capture is ever rejected, and each averages exactly five samples.
  lemma NoCaptureIsRejected(s: State, k: nat)
    requires Reachable(s) && k < |s.trace|
    ensures var e := s.trace[k];
            !e.Rejected? && (e.Measured? ==> e.samples == CAPTURE_SAMPLES)
  {
    var trace := s.trace;
    PublicationsAreAccepted(s);
    AcceptedAt(trace, k);
  }

  // Between two en-route publications with none between them the value flips.
  lemma {:induction false} LastEnRoute(trace: seq<Event>, i: nat)
    requires i < |trace| && trace[i].EnRoute?
    requires forall m | i < m < |trace| :: !trace[m].EnRoute?
    ensures Watched(trace).lastEnRoute == Some(trace[i].state)
    decreases |trace|
  {
    if i == |trace| - 1 {
    } else {
      LastEnRoute(trace[..|trace| - 1], i);
    }
  }

  lemma {:induction false} NoEnRoute(trace: seq<Event>)
    requires forall m | 0 <= m < |trace| :: !trace[m].EnRoute?
    ensures Watched(trace).lastEnRoute == None
  {
    if trace == [] {
    } else {
      NoEnRoute(trace[..|trace| - 1]);
    }
  }

  lemma EnRouteAlternates(s: State, i: nat, j: nat)
    requires Reachable(s)
    requires var trace := s.trace;
             && i < j < |trace| && trace[i].EnRoute? && trace[j].EnRoute?
             && forall m | i < m < j :: !trace[m].EnRoute?
    ensures var trace := s.trace; trace[i].state != trace[j].state
  {
    var trace := s.trace;
    PublicationsAreAccepted(s);
    AcceptedAt(trace, j);
    LastEnRoute(trace[..j], i);
  }

  lemma FirstEnRouteIsFalse(s: State, j: nat)
    requires Reachable(s)
    requires var trace := s.trace;
             j < |trace| && trace[j].EnRoute? && forall m | 0 <= m < j :: !trace[m].EnRoute?
    ensures !s.trace[j].state
  {
    var trace := s.trace;
    PublicationsAreAccepted(s);
    AcceptedAt(trace, j);
    NoEnRoute(trace[..j]);
  }

  predicate EndsMotorPeriod(e: Event) {
    e.TurnedOn? || e.TurnedOff? || e.Arrived? || e.MotorStopped?
  }

  // What the automaton's jam clock remembers: the turn-on of the current period and,
  // once it has run out, the withdrawal.
  lemma {:induction false} JamHistory(trace: seq<Event>) returns (on: nat, withdrawn: nat)
    requires Watched(trace).ok && Watched(trace).jam != Off
    ensures on < |trace| && trace[on].TurnedOn?
    ensures forall m | on < m < |trace| :: !EndsMotorPeriod(trace[m])
    ensures Watched(trace).jam == Withdrew ==> on < withdrawn < |trace| && trace[withdrawn].Withdrawn?
    ensures Watched(trace).jam == Armed ==> forall m | on < m < |trace| :: !trace[m].Withdrawn?
  {
    var n := |trace| - 1;
    var last := trace[n];
    on, withdrawn := n, n;
    if last.TurnedOn? {
    } else {
      var before, earlier := JamHistory(trace[..n]);
      on := before;
      if !last.Withdrawn? { withdrawn := earlier; }
    }
  }

  // The firmware stops the motor only in a motor-on period in which it has withdrawn
  // its request, and with no arrival, no fan-off and no earlier stop since turn-on.
  lemma MotorStopIsJustified(s: State, k: nat) returns (on: nat, withdrawn: nat)
    requires Reachable(s) && k < |s.trace| && s.trace[k].MotorStopped?
    ensures var trace := s.trace;
            && on < withdrawn < k && trace[on].TurnedOn? && trace[withdrawn].Withdrawn?
            && forall m | on < m < k :: !EndsMotorPeriod(trace[m])
  {
    var trace := s.trace;
    PublicationsAreAccepted(s);
    AcceptedAt(trace, k);
    on, withdrawn := JamHistory(trace[..k]);
  }

  // A reading is published only while its brick is at the exit: it has arrived, and has
  // not been lifted since.
  lemma {:induction false} ExitHistory(trace: seq<Event>) returns (arrived: nat)
    requires Watched(trace).ok && Watched(trace).atExit
    ensures arrived < |trace| && trace[arrived].Arrived?
    ensures forall m | arrived < m < |trace| :: !trace[m].Lifted? && !trace[m].Arrived?
  {
    var n := |trace| - 1;
    arrived := n;
    if trace[n].Arrived? {
    } else {
      arrived := ExitHistory(trace[..n]);
    }
  }

  lemma ReadingIsTakenAtTheExit(s: State, k: nat) returns (arrived: nat)
    requires Reachable(s) && k < |s.trace| && IsReading(s.trace[k])
    ensures var trace := s.trace;
            && arrived < k && trace[arrived].Arrived?
            && (forall m | arrived < m < k :: !trace[m].Lifted? && !trace[m].Arrived?)
            && trace[k].ratio == BrickFor(|Readings(trace[..k])|)
  {
    var trace := s.trace;
    PublicationsAreAccepted(s);
    AcceptedAt(trace, k);
    ReadingsFollowTheRotation(trace[..k]);
    arrived := ExitHistory(trace[..k]);
  }

  // ---------- A stranded brick ----------

  lemma StrandedStep(s: State, a: Abs, input: Input)
    requires Inv(s, a) && a.phase == InTransit(false)
    ensures AbsStep(a, s, input).phase == InTransit(false)
    ensures Step(s, input).completed == s.completed
    ensures Step(s, input).entryOccupied == s.entryOccupied == false
  {
    if input.Timer? && input.tick in s.pending {
      TakeTimers(s, LivesOf(a), input.tick);
    }
  }

  // Nothing that can still happen moves a stranded brick, places another or completes it.
  lemma {:induction false} StrandedForever(s: State, a: Abs, inputs: seq<Input>)
    requires Inv(s, a) && a.phase == InTransit(false)
    ensures Run(s, inputs).completed == s.completed
    ensures !Run(s, inputs).entryOccupied && !Run(s, inputs).exitOccupied
    ensures Readings(Run(s, inputs).trace) == Readings(s.trace)
    decreases |inputs|
  {
    if inputs == [] {
    } else {
      var next := Step(s, inputs[0]);
      StepPreserves(s, a, inputs[0]);
      StrandedStep(s, a, inputs[0]);
      StrandedForever(next, AbsStep(a, s, inputs[0]), inputs[1..]);
      ReadingsFollowTheRotation(s.trace);
      ReadingsFollowTheRotation(next.trace);
    }
  }
}
