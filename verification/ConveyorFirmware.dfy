// The firmware object: the fields of conveyorFirmware, updated in place by the
// handlers of its run loop, each proved to do what ConveyorModel says.
module ConveyorFirmware {
  import opened Common
  import opened ConveyorModel
  import opened ConveyorProofs
  import opened ConveyorProgress
  import opened ConveyorDisplay

  // What the publications of a run say of the state it ends in: they are acceptable,
  // the readings are those of the bricks in rotation, what is shown last is what the
  // fields hold, and a brick waiting at the entry has its request pending or withdrawn.
  ghost predicate Published(s: State) {
    && Watched(s.trace).ok
    && s.completed <= |Readings(s.trace)| <= s.completed + 1
    && (forall k | 0 <= k < |Readings(s.trace)| :: Readings(s.trace)[k] == [48.0, 29.0, 35.0, 26.0][k % 4])
    && !(s.entryOccupied && s.exitOccupied)
    && Watched(s.trace).lastEnRoute == Some(s.enRoute)
    && Shown(s.trace).ratio == Some(s.redRatio)
    && Shown(s.trace).motor == s.motorOn
    && (s.entryOccupied && !s.enRoute ==> Live(s, RequestRun, 0) in s.pending || Shown(s.trace).withdrawn)
  }

  class Firmware {
    var gens: Gens
    var entryOccupied: bool
    var exitOccupied: bool
    var motorOn: bool
    var onBelt: real
    var atExit: real
    var enRoute: bool
    var enRouteKnown: bool
    var redRatio: real
    var ratioKnown: bool
    var captureSampled: nat
    var cycles: int
    var completed: nat

    // Armed timers together with the ticks waiting in the channel.
    var pending: multiset<Tick>

    // What has been pushed and logged so far.
    ghost var trace: seq<Event>

    ghost function Now(): State
      reads this
    {
      State(gens, pending, entryOccupied, exitOccupied, motorOn, onBelt, atExit, enRoute, enRouteKnown,
            redRatio, ratioKnown, captureSampled, cycles, completed, trace)
    }

    constructor (cycles: int)
      ensures Now() == FRESH.(cycles := cycles)
    {
      this.gens := Gens(0, 0, 0, 0, 0, 0);
      this.entryOccupied, this.exitOccupied, this.motorOn := false, false, false;
      this.onBelt, this.atExit := 0.0, 0.0;
      this.enRoute, this.enRouteKnown := false, false;
      this.redRatio, this.ratioKnown := NO_READING, false;
      this.captureSampled, this.completed := 0, 0;
      this.cycles := cycles;
      this.pending := multiset{};
      this.trace := [];
    }

    method Schedule(script: Script, step: nat)
      modifies this`pending
      ensures Now() == After(old(Now()), script, step)
    {
      pending := pending + multiset{Tick(script, gens.Of(script), step)};
    }

    method RestartScript(script: Script, step: nat)
      modifies this`pending, this`gens
      ensures Now() == Restart(old(Now()), script, step)
    {
      gens := gens.Bump(script);
      Schedule(script, step);
    }

    method StopScript(script: Script)
      modifies this`gens
      ensures Now() == Stop(old(Now()), script)
    {
      gens := gens.Bump(script);
    }

    method ReportEnRoute(state: bool)
      modifies this
      ensures Now() == PublishEnRoute(old(Now()), state)
    {
      if enRouteKnown && state == enRoute { return; }
      enRoute := state;
      enRouteKnown := true;
      trace := trace + [EnRoute(state)];
    }

    method ReportRatio(ratio: real)
      modifies this
      ensures Now() == PublishRatio(old(Now()), ratio)
    {
      if ratioKnown && ratio == redRatio { return; }
      redRatio := ratio;
      ratioKnown := true;
      trace := trace + [Ratio(ratio)];
    }

    method PlaceBrick()
      modifies this
      ensures Now() == OnBench(old(Now()), BENCH_PLACE)
    {
      onBelt := BrickFor(completed);
      entryOccupied := true;
      trace := trace + [Placed];
      RestartScript(RequestRun, 0);
    }

    method LiftBrick()
      modifies this
      ensures Now() == OnBench(old(Now()), BENCH_LIFT)
    {
      ghost var before := Now();
      trace := trace + [Lifted];
      exitOccupied := false;
      assert Now() == Emit(before, Lifted).(exitOccupied := false);
      StopScript(Capture);
      RestartScript(Bench, BENCH_RELEASED);
    }

    method ReleaseExit()
      modifies this
      ensures Now() == OnBench(old(Now()), BENCH_RELEASED)
    {
      CountRelease();
      if cycles <= 0 || completed < cycles {
        Schedule(Bench, BENCH_PLACE);
        return;
      }
      trace := trace + [Finished];
    }

    method CountRelease()
      modifies this
      ensures Now() == PublishRatio(old(Now()), NO_READING).(completed := old(completed) + 1)
    {
      ReportRatio(NO_READING);
      completed := completed + 1;
    }

    method HandleBench(step: nat)
      modifies this
      ensures Now() == OnBench(old(Now()), step)
    {
      if step == BENCH_PLACE {
        PlaceBrick();
      } else if step == BENCH_LIFT {
        LiftBrick();
      } else if step == BENCH_RELEASED {
        ReleaseExit();
      }
    }

    method HandleArrival()
      modifies this
      ensures Now() == OnArrival(old(Now()))
    {
      NoteArrival();
      ReportEnRoute(false);
      StartCapture();
    }

    method NoteArrival()
      modifies this
      ensures Now() == Stop(Emit(old(Now()).(exitOccupied := true, atExit := old(onBelt)), Arrived), Jam)
    {
      exitOccupied := true;
      atExit := onBelt;
      trace := trace + [Arrived];
      StopScript(Jam);
    }

    method StartCapture()
      modifies this
      ensures Now() == Restart(Restart(old(Now()).(captureSampled := 0), Capture, 0), ExitHold, 0)
    {
      captureSampled := 0;
      RestartScript(Capture, 0);
      RestartScript(ExitHold, 0);
    }

    method HandleTravel(step: nat)
      modifies this
      ensures Now() == OnTravel(old(Now()), step)
    {
      if step == TRAVEL_CLEAR_ENTRY {
        entryOccupied := false;
        Schedule(Travel, TRAVEL_ARRIVE);
      } else if step == TRAVEL_ARRIVE {
        HandleArrival();
      }
    }

    method HandleCapture(step: nat)
      modifies this
      ensures Now() == OnCapture(old(Now()), step)
    {
      if step < CAPTURE_SAMPLES {
        if exitOccupied { captureSampled := captureSampled + 1; }
        Schedule(Capture, step + 1);
        return;
      }
      ConcludeCapture();
    }

    method ConcludeCapture()
      modifies this
      ensures Now() == OnCapture(old(Now()), CAPTURE_SAMPLES)
    {
      ghost var before := Now();
      if captureSampled < MIN_USABLE_SAMPLES {
        trace := trace + [Rejected(captureSampled)];
        ReportRatio(NO_READING);
        return;
      }
      trace := trace + [Measured(captureSampled)];
      assert Now() == Emit(before, Measured(before.captureSampled));
      ReportRatio(atExit);
      Schedule(Bench, BENCH_LIFT);
    }

    method HandleJam(step: nat)
      modifies this
      ensures Now() == OnJam(old(Now()), step)
    {
      if step == 0 {
        ReportEnRoute(false);
        trace := trace + [Withdrawn];
        Schedule(Jam, 1);
      } else if step == 1 {
        if !motorOn { return; }
        motorOn := false;
        trace := trace + [MotorStopped];
      }
    }

    method HandleTick(t: Tick)
      modifies this
      ensures Now() == OnTick(old(Now()), t)
    {
      match t.script
      case Bench => HandleBench(t.step);
      case RequestRun => if entryOccupied { ReportEnRoute(true); }
      case Travel => HandleTravel(t.step);
      case Capture => HandleCapture(t.step);
      case ExitHold => if entryOccupied && !enRoute { RestartScript(RequestRun, 0); }
      case Jam => HandleJam(t.step);
    }

    method HandleFanCommand(state: bool)
      modifies this
      ensures Now() == OnFanCommand(old(Now()), state)
    {
      if state == motorOn { return; }
      motorOn := state;
      if !state {
        trace := trace + [TurnedOff];
        StopScript(Jam);
        StopScript(Travel);
        return;
      }
      trace := trace + [TurnedOn];
      RestartScript(Jam, 0);
      if entryOccupied { RestartScript(Travel, TRAVEL_CLEAR_ENTRY); }
    }

    // The run loop, over the commands and ticks that its channels deliver in turn. A
    // tick is delivered only if its timer is pending. Whatever they are, the published
    // events are acceptable and the readings are those of the bricks in rotation.
    method Loop(inputs: seq<Input>)
      modifies this
      requires Now() == FRESH.(cycles := cycles)
      ensures Now() == Run(Boot(old(cycles)), inputs)
      ensures Published(Now())
    {
      ReportEnRoute(false);
      ReportRatio(NO_READING);
      RestartScript(Bench, BENCH_PLACE);
      ghost var booted := Now();
      var i := 0;
      while i < |inputs|
        invariant 0 <= i <= |inputs|
        invariant Run(Now(), inputs[i..]) == Run(booted, inputs)
      {
        ghost var before := Now();
        assert inputs[i..][0] == inputs[i] && inputs[i..][1..] == inputs[i + 1..];
        match inputs[i] {
          case Command(state) => HandleFanCommand(state);
          case Timer(t) => if t in pending { Take(t); }
        }
        assert Now() == Step(before, inputs[i]);
        i := i + 1;
      }
      RunsArePublished(Now(), old(cycles), inputs);
    }

    lemma RunsArePublished(s: State, cycles: int, inputs: seq<Input>)
      requires s == Run(Boot(cycles), inputs)
      ensures Published(s)
    {
      assert Reachable(s);
      BeamsAreExclusive(s);
      var a := ReadingsCountBricks(s);
      var b := ReachableShows(s);
      if b.requesting { LiveIsPending(s, b, RequestRun); }
    }

    method Take(t: Tick)
      requires t in pending
      modifies this
      ensures Now() == Fire(old(Now()), t)
    {
      pending := pending - multiset{t};
      if t.gen != gens.Of(t.script) { return; }
      HandleTick(t);
    }
  }
}
