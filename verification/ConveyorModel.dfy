// The conveyor firmware of cmd/conveyor-sim-server/conveyor_device.go as a function
// of its state: what one timer tick and one fan command do. Timers are not timed: a
// scheduled tick may fire at any later moment and in any order.
module ConveyorModel {

  datatype Script = RequestRun | Travel | Capture | ExitHold | Jam | Bench

  datatype Tick = Tick(script: Script, gen: int, step: nat)

  // The current generation of every script.
  datatype Gens = Gens(requestRun: int, travel: int, capture: int, exitHold: int, jam: int, bench: int) {
    function Of(s: Script): int {
      match s
      case RequestRun => requestRun
      case Travel => travel
      case Capture => capture
      case ExitHold => exitHold
      case Jam => jam
      case Bench => bench
    }

    function Bump(s: Script): Gens {
      match s
      case RequestRun => this.(requestRun := requestRun + 1)
      case Travel => this.(travel := travel + 1)
      case Capture => this.(capture := capture + 1)
      case ExitHold => this.(exitHold := exitHold + 1)
      case Jam => this.(jam := jam + 1)
      case Bench => this.(bench := bench + 1)
    }
  }

  // What the outside can see of the firmware, in order: the states it pushes, the
  // motor commands it accepts and the logged sensor events.
  datatype Event =
    | EnRoute(state: bool)
    | Ratio(ratio: real)
    | MotorStopped                       // the backstop's FanStateResponse
    | TurnedOn
    | TurnedOff
    | Arrived
    | Withdrawn                          // the jam clock ran out
    | Rejected(samples: nat)             // a capture without enough samples
    | Measured(samples: nat)             // a capture that is published
    | Placed
    | Lifted
    | Finished

  const BENCH_PLACE := 0
  const BENCH_LIFT := 1
  const BENCH_RELEASED := 2
  const TRAVEL_CLEAR_ENTRY := 0
  const TRAVEL_ARRIVE := 1
  const CAPTURE_SAMPLES := 5
  const MIN_USABLE_SAMPLES := 3
  const NO_READING := -1.0

  // The red ratio of the brick placed for the k-th cycle (brickRotation).
  function BrickFor(completed: nat): (ratio: real)
    ensures ratio > 0.0
  {
    if completed % 4 == 0 then 48.0
    else if completed % 4 == 1 then 29.0
    else if completed % 4 == 2 then 35.0
    else 26.0
  }

  datatype State = State(
    gens: Gens,
    pending: multiset<Tick>,      // scheduled timers and ticks waiting in the channel
    entryOccupied: bool,
    exitOccupied: bool,
    motorOn: bool,
    onBelt: real,
    atExit: real,
    enRoute: bool,
    enRouteKnown: bool,
    redRatio: real,
    ratioKnown: bool,
    captureSampled: nat,
    cycles: int,
    completed: nat,
    trace: seq<Event>)

  function Emit(s: State, e: Event): State {
    s.(trace := s.trace + [e])
  }

  function After(s: State, script: Script, step: nat): State {
    s.(pending := s.pending + multiset{Tick(script, s.gens.Of(script), step)})
  }

  function Stop(s: State, script: Script): State {
    s.(gens := s.gens.Bump(script))
  }

  function Restart(s: State, script: Script, step: nat): State {
    After(Stop(s, script), script, step)
  }

  function PublishEnRoute(s: State, state: bool): State {
    if s.enRouteKnown && state == s.enRoute then s
    else Emit(s.(enRoute := state, enRouteKnown := true), EnRoute(state))
  }

  function PublishRatio(s: State, ratio: real): State {
    if s.ratioKnown && ratio == s.redRatio then s
    else Emit(s.(redRatio := ratio, ratioKnown := true), Ratio(ratio))
  }

  function OnBench(s: State, step: nat): State {
    if step == BENCH_PLACE then
      Restart(Emit(s.(onBelt := BrickFor(s.completed), entryOccupied := true), Placed), RequestRun, 0)
    else if step == BENCH_LIFT then
      Restart(Stop(Emit(s, Lifted).(exitOccupied := false), Capture), Bench, BENCH_RELEASED)
    else if step == BENCH_RELEASED then
      var released := PublishRatio(s, NO_READING).(completed := s.completed + 1);
      if s.cycles <= 0 || released.completed < s.cycles then After(released, Bench, BENCH_PLACE)
      else Emit(released, Finished)
    else s
  }

  function OnArrival(s: State): State {
    var stopped := Stop(Emit(s.(exitOccupied := true, atExit := s.onBelt), Arrived), Jam);
    Restart(Restart(PublishEnRoute(stopped, false).(captureSampled := 0), Capture, 0), ExitHold, 0)
  }

  function OnTravel(s: State, step: nat): State {
    if step == TRAVEL_CLEAR_ENTRY then After(s.(entryOccupied := false), Travel, TRAVEL_ARRIVE)
    else if step == TRAVEL_ARRIVE then OnArrival(s)
    else s
  }

  function OnCapture(s: State, step: nat): State {
    if step < CAPTURE_SAMPLES then
      After(s.(captureSampled := if s.exitOccupied then s.captureSampled + 1 else s.captureSampled), Capture, step + 1)
    else if s.captureSampled < MIN_USABLE_SAMPLES then
      PublishRatio(Emit(s, Rejected(s.captureSampled)), NO_READING)
    else
      After(PublishRatio(Emit(s, Measured(s.captureSampled)), s.atExit), Bench, BENCH_LIFT)
  }

  function OnJam(s: State, step: nat): State {
    if step == 0 then After(Emit(PublishEnRoute(s, false), Withdrawn), Jam, 1)
    else if step == 1 && s.motorOn then Emit(s.(motorOn := false), MotorStopped)
    else s
  }

  function OnTick(s: State, t: Tick): State {
    match t.script
    case Bench => OnBench(s, t.step)
    case RequestRun => if s.entryOccupied then PublishEnRoute(s, true) else s
    case Travel => OnTravel(s, t.step)
    case Capture => OnCapture(s, t.step)
    case ExitHold => if s.entryOccupied && !s.enRoute then Restart(s, RequestRun, 0) else s
    case Jam => OnJam(s, t.step)
  }

  function OnFanCommand(s: State, state: bool): State {
    if state == s.motorOn then s
    else if !state then Stop(Stop(Emit(s.(motorOn := false), TurnedOff), Jam), Travel)
    else
      var on := Restart(Emit(s.(motorOn := true), TurnedOn), Jam, 0);
      if s.entryOccupied then Restart(on, Travel, TRAVEL_CLEAR_ENTRY) else on
  }

  // A pending tick reaches the run loop; a stale generation is dropped.
  function Fire(s: State, t: Tick): State
    requires t in s.pending
  {
    var taken := s.(pending := s.pending - multiset{t});
    if t.gen != s.gens.Of(t.script) then taken else OnTick(taken, t)
  }

  const FRESH := State(Gens(0, 0, 0, 0, 0, 0), multiset{}, false, false, false, 0.0, 0.0,
                       false, false, NO_READING, false, 0, 0, 0, [])

  // The boot sequence of run, before its loop.
  function Boot(cycles: int): State {
    Restart(PublishRatio(PublishEnRoute(FRESH.(cycles := cycles), false), NO_READING), Bench, BENCH_PLACE)
  }

  datatype Input = Command(state: bool) | Timer(tick: Tick)

  // A timer that is not pending cannot fire: the input is ignored.
  function Step(s: State, input: Input): State {
    match input
    case Command(state) => OnFanCommand(s, state)
    case Timer(t) => if t in s.pending then Fire(s, t) else s
  }

  function Run(s: State, inputs: seq<Input>): State
    decreases |inputs|
  {
    if inputs == [] then s else Run(Step(s, inputs[0]), inputs[1..])
  }
}
