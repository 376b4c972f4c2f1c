// When the conveyor can still finish a brick. The comment in onFanCommand says that after
// the belt is stopped travel restarts from the entry; a brick between the sensors is
// stranded instead, and this is the only way, the end of the bench sequence aside, in
// which the firmware stops making progress.
module ConveyorProgress {
  import opened Common
  import opened ConveyorModel
  import opened ConveyorProofs

  // Some continuation, by commands and timers in some order, completes one more brick.
  ghost predicate CanComplete(s: State) {
    exists inputs :: Run(s, inputs).completed > s.completed
  }

  predicate Stuck(phase: Phase) {
    phase == InTransit(false) || phase.Ended?
  }

  // ---------- Every other phase can go on ----------

  function Live(s: State, script: Script, step: nat): Tick {
    Tick(script, s.gens.Of(script), step)
  }

  // The input that moves a brick to its next phase; the motor is started, after stopping
  // it if it runs, for a brick on the entry that the belt is not carrying.
  function Helpful(s: State, phase: Phase): Input {
    match phase
    case ToBePlaced => Timer(Live(s, Bench, BENCH_PLACE))
    case OnEntry(clearing) => if clearing then Timer(Live(s, Travel, TRAVEL_CLEAR_ENTRY)) else Command(!s.motorOn)
    case InTransit(_) => Timer(Live(s, Travel, TRAVEL_ARRIVE))
    case Capturing(step) => Timer(Live(s, Capture, step))
    case Dwelling => Timer(Live(s, Bench, BENCH_LIFT))
    case _ => Timer(Live(s, Bench, BENCH_RELEASED))
  }

  // How many helpful inputs are still to come before the brick is completed.
  function Distance(s: State, phase: Phase): int {
    match phase
    case ToBePlaced => CAPTURE_SAMPLES + 9
    case OnEntry(clearing) => CAPTURE_SAMPLES + (if clearing then 5 else if s.motorOn then 7 else 6)
    case InTransit(_) => CAPTURE_SAMPLES + 4
    case Capturing(step) => CAPTURE_SAMPLES + 3 - step
    case Dwelling => 2
    case _ => 1
  }

  lemma LiveIsPending(s: State, a: Abs, script: Script)
    requires Inv(s, a) && LivesOf(a).Of(script).Some?
    ensures Live(s, script, LivesOf(a).Of(script).value) in s.pending
  {
    assert s.pending[Live(s, script, LivesOf(a).Of(script).value)] == 1;
  }

  // What a helpful input does to the phase and to the count.
  ghost predicate Helps(s: State, a: Abs, n: State, b: Abs) {
    || n.completed == s.completed + 1
    || (n.completed == s.completed && !Stuck(b.phase) && 0 < Distance(n, b.phase) < Distance(s, a.phase))
  }

  lemma HelpfulCommand(s: State, a: Abs)
    requires WorldOk(s, a) && a.phase == OnEntry(false)
    ensures Helps(s, a, Step(s, Command(!s.motorOn)), AbsStep(a, s, Command(!s.motorOn)))
  {
  }

  // A live tick leads to the next phase, and only the last bench tick counts the brick.
  lemma HelpfulTick(s: State, a: Abs, t: Tick)
    requires WorldOk(s, a) && !Stuck(a.phase) && Helpful(s, a.phase) == Timer(t)
    ensures Helps(s, a, OnTick(s, t), AbsTick(a, s, t.script))
  {
    match t.script
    case Bench =>
    case Travel =>
    case Capture =>
  }

  lemma LiveFires(s: State, a: Abs, t: Tick)
    requires t in s.pending && t.gen == s.gens.Of(t.script)
    ensures var taken := s.(pending := s.pending - multiset{t});
            && Step(s, Timer(t)) == OnTick(taken, t)
            && AbsStep(a, s, Timer(t)) == AbsTick(a, taken, t.script)
  {
  }

  lemma HelpfulTimer(s: State, a: Abs, t: Tick)
    requires WorldOk(s, a) && !Stuck(a.phase) && Helpful(s, a.phase) == Timer(t) && t in s.pending
    ensures Helps(s, a, Step(s, Timer(t)), AbsStep(a, s, Timer(t)))
  {
    var taken := s.(pending := s.pending - multiset{t});
    LiveFires(s, a, t);
    HelpfulTick(taken, a, t);
    assert Distance(taken, a.phase) == Distance(s, a.phase);
  }

  lemma HelpfulStep(s: State, a: Abs) returns (b: Abs)
    requires Inv(s, a) && !Stuck(a.phase)
    ensures b == AbsStep(a, s, Helpful(s, a.phase))
    ensures var n := Step(s, Helpful(s, a.phase)); Inv(n, b) && Helps(s, a, n, b)
  {
    var input := Helpful(s, a.phase);
    HelpfulHelps(s, a);
    StepPreserves(s, a, input);
    b := AbsStep(a, s, input);
  }

  lemma HelpfulHelps(s: State, a: Abs)
    requires Inv(s, a) && !Stuck(a.phase)
    ensures var input := Helpful(s, a.phase); Helps(s, a, Step(s, input), AbsStep(a, s, input))
  {
    match Helpful(s, a.phase)
    case Command(_) => HelpfulCommand(s, a);
    case Timer(t) =>
      LiveIsPending(s, a, t.script);
      HelpfulTimer(s, a, t);
  }

  lemma {:induction false} OneMoreBrick(s: State, a: Abs) returns (inputs: seq<Input>)
    requires Inv(s, a) && !Stuck(a.phase)
    ensures Run(s, inputs).completed == s.completed + 1
    decreases Distance(s, a.phase)
  {
    var input := Helpful(s, a.phase);
    var n := Step(s, input);
    var b := HelpfulStep(s, a);
    if n.completed == s.completed + 1 {
      inputs := [];
      assert Run(n, []) == n;
    } else {
      inputs := OneMoreBrick(n, b);
    }
    assert ([input] + inputs)[1..] == inputs;
    inputs := [input] + inputs;
  }

  // ---------- Nothing else can ----------

  lemma {:induction false} EndedForever(s: State, a: Abs, inputs: seq<Input>)
    requires Inv(s, a) && a.phase.Ended?
    ensures Run(s, inputs).completed == s.completed
    decreases |inputs|
  {
    if inputs == [] {
    } else {
      EndedStep(s, a, inputs[0]);
      EndedForever(Step(s, inputs[0]), AbsStep(a, s, inputs[0]), inputs[1..]);
    }
  }

  lemma EndedStep(s: State, a: Abs, input: Input)
    requires Inv(s, a) && a.phase.Ended?
    ensures Inv(Step(s, input), AbsStep(a, s, input))
    ensures AbsStep(a, s, input).phase.Ended? && Step(s, input).completed == s.completed
  {
    StepPreserves(s, a, input);
    if input.Timer? && input.tick in s.pending { TakeTimers(s, LivesOf(a), input.tick); }
  }

  // A brick can still be completed exactly unless it is stranded or the sequence is over.
  lemma CompletesExactlyUnlessStuck(s: State, a: Abs)
    requires Inv(s, a)
    ensures CanComplete(s) <==> a.phase != InTransit(false) && !a.phase.Ended?
  {
    if !Stuck(a.phase) {
      var inputs := OneMoreBrick(s, a);
    } else {
      forall inputs ensures Run(s, inputs).completed == s.completed {
        if a.phase.Ended? { EndedForever(s, a, inputs); } else { StrandedForever(s, a, inputs); }
      }
    }
  }

  // The same in the firmware's own fields: a brick on the entry beam, or a current tick of
  // the bench, of travel or of the capture.
  predicate Moves(s: State, t: Tick) {
    t.gen == s.gens.Of(t.script) && (t.script.Bench? || t.script.Travel? || t.script.Capture?)
  }

  lemma CompletesExactlyWhenSomethingMoves(s: State)
    requires Reachable(s)
    ensures CanComplete(s) <==> s.entryOccupied || exists t :: t in s.pending && Moves(s, t)
  {
    var a := ReachablePhase(s);
    CompletesExactlyUnlessStuck(s, a);
    var lives := LivesOf(a);
    if !Stuck(a.phase) && !s.entryOccupied {
      var input := Helpful(s, a.phase);
      LiveIsPending(s, a, input.tick.script);
      assert Moves(s, input.tick);
    }
    if Stuck(a.phase) {
      forall t | t in s.pending ensures !Moves(s, t) { TakeTimers(s, lives, t); }
    }
  }

  // ---------- Turning the motor off ----------

  // Of a device that could go on, turning the motor off strands the brick exactly when the
  // motor is on and the brick is due at the exit: it left the entry beam and did not arrive.
  lemma TurningOffStrandsExactlyInTransit(s: State)
    requires Reachable(s) && CanComplete(s)
    ensures !CanComplete(Step(s, Command(false))) <==> s.motorOn && Live(s, Travel, TRAVEL_ARRIVE) in s.pending
  {
    var a := ReachablePhase(s);
    CompletesExactlyUnlessStuck(s, a);
    StepPreserves(s, a, Command(false));
    CompletesExactlyUnlessStuck(Step(s, Command(false)), AbsStep(a, s, Command(false)));
    if a.phase == InTransit(true) { LiveIsPending(s, a, Travel); }
    if Live(s, Travel, TRAVEL_ARRIVE) in s.pending { TakeTimers(s, LivesOf(a), Live(s, Travel, TRAVEL_ARRIVE)); }
  }

  // It happens: the first brick is placed, the motor turned on, the brick leaves the entry
  // beam, the motor is turned off.
  lemma FirstBrickCanBeStranded(cycles: int) returns (inputs: seq<Input>)
    ensures var s := Run(Boot(cycles), inputs);
            && |inputs| == 4 && inputs[1] == Command(true) && inputs[3] == Command(false)
            && s.completed == 0 && !s.entryOccupied && !s.exitOccupied
            && !CanComplete(s)
            && !CanComplete(Step(s, Command(true)))
  {
    var s0, a0 := Boot(cycles), Abs(ToBePlaced, false, false, Off);
    BootOk(cycles);
    var i0, i1, i2, s3, a3 := FirstBrickLeavesEntry(s0, a0);
    StepPreserves(s3, a3, Command(false));
    StrandedStaysStranded(Step(s3, Command(false)), AbsStep(a3, s3, Command(false)));
    inputs := [i0, i1, i2, Command(false)];
    FourInputs(s0, i0, i1, i2, Command(false));
  }

  lemma FirstBrickLeavesEntry(s0: State, a0: Abs) returns (i0: Input, i1: Input, i2: Input, s3: State, a3: Abs)
    requires Inv(s0, a0) && a0 == Abs(ToBePlaced, false, false, Off) && !s0.motorOn && s0.completed == 0
    ensures i1 == Command(true) && s3 == Step(Step(Step(s0, i0), i1), i2)
    ensures Inv(s3, a3) && a3.phase == InTransit(true) && s3.motorOn && s3.completed == 0
  {
    i0 := Helpful(s0, a0.phase);
    var a1 := HelpfulStep(s0, a0);
    var s1 := Step(s0, i0);
    i1 := Helpful(s1, a1.phase);
    var a2 := HelpfulStep(s1, a1);
    var s2 := Step(s1, i1);
    i2 := Helpful(s2, a2.phase);
    a3 := HelpfulStep(s2, a2);
    s3 := Step(s2, i2);
  }

  lemma StrandedStaysStranded(s: State, a: Abs)
    requires Inv(s, a) && a.phase == InTransit(false)
    ensures !CanComplete(s) && !CanComplete(Step(s, Command(true)))
  {
    CompletesExactlyUnlessStuck(s, a);
    StepPreserves(s, a, Command(true));
    CompletesExactlyUnlessStuck(Step(s, Command(true)), AbsStep(a, s, Command(true)));
  }

  lemma RunCons(s: State, input: Input, rest: seq<Input>)
    ensures Run(s, [input] + rest) == Run(Step(s, input), rest)
  {
    assert ([input] + rest)[1..] == rest;
  }

  lemma TwoInputs(s: State, a: Input, b: Input, rest: seq<Input>)
    ensures Run(s, [a, b] + rest) == Run(Step(Step(s, a), b), rest)
  {
    RunCons(s, a, [b] + rest);
    RunCons(Step(s, a), b, rest);
    assert [a] + ([b] + rest) == [a, b] + rest;
  }

  lemma FourInputs(s: State, a: Input, b: Input, c: Input, d: Input)
    ensures Run(s, [a, b, c, d]) == Step(Step(Step(Step(s, a), b), c), d)
  {
    TwoInputs(s, a, b, [c, d]);
    TwoInputs(Step(Step(s, a), b), c, d, []);
    assert [a, b] + [c, d] == [a, b, c, d] && [c, d] + [] == [c, d];
  }
}
