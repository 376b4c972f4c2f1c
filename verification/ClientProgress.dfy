// What the probe protocol of client.go owes its callers beyond safety: every call can
// return, an answered one can succeed, a failed keepalive closes the client, and the close
// reason names the shutdown that came first.
module ClientProgress {
  import opened Common
  import opened ClientSession
  import opened ClientSessionProofs

  // ---------- Keepalive ----------

  // A keepalive probe that failed still has its loop to shut the client down, unless that
  // has happened; and no watchdog is left armed behind a call.
  predicate Tidy(c: Call, stage: Stage) {
    && (c.category == Keepalive && c.pc.Returned? && c.pc.outcome != Success && c.pc.outcome != NotStarted ==>
          c.loopDue || stage.DoneClosed?)
    && (c.pc.Unguarded? || c.pc.Removed? || c.pc.Returned? ==> !c.watchdog.Armed?)
  }

  ghost predicate AllTidy(s: State) {
    forall i | 0 <= i < |s.calls| :: Tidy(s.calls[i], s.stage)
  }

  lemma AdvanceTidy(c: Call, a: Move, token: bool, stage: Stage)
    requires Advance(c, a, token, stage).Some? && ProgressOk(c) && Tidy(c, stage)
    ensures Tidy(Advance(c, a, token, stage).value, stage)
  {
  }

  lemma CallerTidy(s: State, a: Move, i: nat)
    requires CallsOk(s) && AllTidy(s) && i < |s.calls| && CallerStep(s, a, i).Some?
    ensures AllTidy(CallerStep(s, a, i).value)
  {
    assert CallOk(s.calls[i], s.stage);
    AdvanceTidy(s.calls[i], a, s.gate.At(LaneOf(s.calls[i].category)), s.stage);
  }

  lemma FinishTidy(s: State, actor: Actor)
    requires AllTidy(s) && Step(s, FinishShutdown(actor)).Some?
    ensures AllTidy(Step(s, FinishShutdown(actor)).value)
  {
  }

  lemma StepTidy(s: State, a: Action)
    requires CallsOk(s) && AllTidy(s) && Step(s, a).Some?
    ensures AllTidy(Step(s, a).value)
  {
    match a
    case Act(i, move) => CallerTidy(s, move, i);
    case FinishShutdown(actor) => FinishTidy(s, actor);
    case _ =>
  }

  lemma {:induction false} RunTidy(s: State, actions: seq<Action>)
    requires Inv(s) && AllTidy(s) && Run(s, actions).Some?
    ensures AllTidy(Run(s, actions).value)
    decreases |actions|
  {
    if actions == [] {
    } else {
      StepPreserves(s, actions[0]);
      StepTidy(s, actions[0]);
      RunTidy(Step(s, actions[0]).value, actions[1..]);
    }
  }

  // A keepalive probe that returned anything but success or "not started" closes the client:
  // its loop is about to call shutdown with that failure, or done is closed already. While
  // the client is open nothing stands in the way of that shutdown.
  lemma FailedKeepaliveCloses(s: State, i: nat)
    requires Reachable(s) && i < |s.calls| && s.calls[i].category == Keepalive && s.calls[i].pc.Returned?
    requires s.calls[i].pc.outcome != Success && s.calls[i].pc.outcome != NotStarted
    ensures Due(s, LoopOf(i)) == Some(LoopFailure(i)) || s.stage == DoneClosed
    ensures s.stage == Open ==>
              Step(s, BeginShutdown(LoopOf(i))) == Some(s.(stage := ReasonSet, reason := Some(LoopFailure(i))))
  {
    var actions :| Run(INITIAL, actions) == Some(s);
    RunTidy(INITIAL, actions);
  }

  // So does any exchange that has expired, whoever asked for it: its watchdog is about to call
  // shutdown with the call's category, or done is closed already. What expired in flight is
  // never just given up.
  lemma ExpiredCallCloses(s: State, i: nat)
    requires Reachable(s) && i < |s.calls| && s.calls[i].pc == Returned(Expired)
    ensures Due(s, WatchdogOf(i)) == Some(Expiry(s.calls[i].category, i)) || s.stage == DoneClosed
    ensures s.stage == Open ==>
              Step(s, BeginShutdown(WatchdogOf(i)))
              == Some(s.(stage := ReasonSet, reason := Some(Expiry(s.calls[i].category, i))))
  {
    ReachableInv(s);
    assert CallOk(s.calls[i], s.stage);
  }

  // A call that has returned has stopped its watchdog, or the watchdog had started and found
  // the verdict taken or took it itself.
  lemma NoWatchdogOutlivesItsCall(s: State, i: nat)
    requires Reachable(s) && i < |s.calls| && s.calls[i].pc.Returned?
    ensures Step(s, Act(i, WatchdogStart)) == None
  {
    var actions :| Run(INITIAL, actions) == Some(s);
    RunTidy(INITIAL, actions);
  }

  // ---------- Calls that come too late ----------

  // It never passes the gate: its context was over, or the client closed, before it looked.
  predicate Barred(c: Call, stage: Stage) {
    && !c.acquired
    && (match c.pc
        case CheckingContext => c.ended || stage.DoneClosed?
        case CheckingDone => stage.DoneClosed?
        case Returned(outcome) => outcome == NotStarted || outcome == Closed
        case _ => false)
  }

  lemma BarredMove(c: Call, a: Move, token: bool, stage: Stage)
    requires Barred(c, stage) && CallOk(c, stage) && Advance(c, a, token, stage).Some?
    ensures Barred(Advance(c, a, token, stage).value, stage)
  {
  }

  lemma BarredStep(s: State, a: Action, i: nat)
    requires i < |s.calls| && Barred(s.calls[i], s.stage) && CallOk(s.calls[i], s.stage) && Step(s, a).Some?
    ensures var n := Step(s, a).value; i < |n.calls| && Barred(n.calls[i], n.stage)
  {
    match a
    case Act(j, move) => if j == i { BarredMove(s.calls[i], move, s.gate.At(LaneOf(s.calls[i].category)), s.stage); }
    case FinishShutdown(actor) =>
    case _ =>
  }

  // Neither an ended context nor a closed client ever races the free gate into sending.
  lemma {:induction false} TooLateToStart(s: State, actions: seq<Action>, i: nat)
    requires Inv(s) && i < |s.calls| && Barred(s.calls[i], s.stage) && Run(s, actions).Some?
    ensures var t := Run(s, actions).value;
            && i < |t.calls| && !t.calls[i].acquired && !t.calls[i].sent
            && (t.calls[i].pc.Returned? ==> t.calls[i].pc.outcome == NotStarted || t.calls[i].pc.outcome == Closed)
    decreases |actions|
  {
    assert CallOk(s.calls[i], s.stage);
    if actions == [] {
    } else {
      StepPreserves(s, actions[0]);
      BarredStep(s, actions[0], i);
      TooLateToStart(Step(s, actions[0]).value, actions[1..], i);
    }
  }

  // ---------- Every call can return ----------

  function StagesLeft(stage: Stage): nat {
    match stage
    case Open => 4
    case ReasonSet => 3
    case Disconnected => 2
    case FramerClosed => 1
    case DoneClosed => 0
  }

  function StepsLeft(c: Call, stage: Stage): nat {
    match c.pc
    case CheckingContext => 16
    case CheckingDone => 15
    case Waiting => 14
    case Holding => 13
    case Registered => 12
    case Guarded => 11
    case Awaiting => 10
    case Responded => 10
    case ShuttingDown => 4 + StagesLeft(stage)
    case Leaving(_) => 3
    case Unguarded(_) => 2
    case Removed(_) => 1
    case Returned(_) => 0
  }

  // A step of the call itself, or of the shutdown it has called.
  predicate OwnAction(a: Action, i: nat) {
    match a
    case Act(j, move) => j == i && !move.EndContext?
    case BeginShutdown(actor) => actor == Caller(i)
    case FinishShutdown(actor) => actor == Caller(i)
    case CloseStep => true
    case _ => false
  }

  function NextAction(c: Call, stage: Stage, i: nat): Action {
    match c.pc
    case CheckingContext => Act(i, CheckContext)
    case CheckingDone => Act(i, CheckDone)
    case Waiting => Act(i, if c.ended then GiveUpWaiting else SeeDoneWaiting)
    case Holding => Act(i, Register)
    case Registered => Act(i, Install)
    case Guarded => Act(i, SendFail)
    case Awaiting => Act(i, if c.ended then Expire else SeeDone)
    case Responded => Act(i, Decide)
    case ShuttingDown =>
      if stage.Open? then BeginShutdown(Caller(i))
      else if stage.DoneClosed? then FinishShutdown(Caller(i)) else CloseStep
    case Leaving(_) => Act(i, StopWatchdog)
    case Unguarded(_) => Act(i, RemoveHandler)
    case _ => Act(i, ReleaseGate)
  }

  predicate MustLeave(s: State, i: nat) {
    i < |s.calls| && (s.calls[i].ended || s.stage.DoneClosed?)
  }

  lemma OwnMoveHelps(c: Call, a: Move, token: bool, stage: Stage)
    requires (c.ended || stage.DoneClosed?) && !c.pc.Returned? && !c.pc.ShuttingDown?
    requires NextAction(c, stage, 0) == Act(0, a)
    ensures !a.EndContext? && Advance(c, a, token, stage).Some?
    ensures var d := Advance(c, a, token, stage).value;
            (d.ended || stage.DoneClosed?) && StepsLeft(d, stage) < StepsLeft(c, stage)
  {
  }

  lemma ShutdownHelps(s: State, i: nat)
    requires MustLeave(s, i) && s.calls[i].pc.ShuttingDown?
    ensures var a := NextAction(s.calls[i], s.stage, i);
            && OwnAction(a, i) && Step(s, a).Some?
            && var n := Step(s, a).value;
               MustLeave(n, i) && StepsLeft(n.calls[i], n.stage) < StepsLeft(s.calls[i], s.stage)
  {
  }

  lemma NextActionHelps(s: State, i: nat) returns (a: Action)
    requires MustLeave(s, i) && !s.calls[i].pc.Returned?
    ensures OwnAction(a, i) && Step(s, a).Some?
    ensures var n := Step(s, a).value;
            MustLeave(n, i) && StepsLeft(n.calls[i], n.stage) < StepsLeft(s.calls[i], s.stage)
  {
    a := NextAction(s.calls[i], s.stage, i);
    if s.calls[i].pc.ShuttingDown? {
      ShutdownHelps(s, i);
    } else {
      OwnMoveHelps(s.calls[i], a.move, s.gate.At(LaneOf(s.calls[i].category)), s.stage);
    }
  }

  // Whatever everyone else does or has done, a call whose context has ended, and any call
  // once the client has closed, can return by its own steps alone: it waits for nobody.
  lemma {:induction false} EveryCallCanReturn(s: State, i: nat) returns (actions: seq<Action>, t: State)
    requires i < |s.calls| && (s.calls[i].ended || s.stage.DoneClosed?)
    ensures Run(s, actions) == Some(t) && i < |t.calls| && t.calls[i].pc.Returned?
    ensures forall a | a in actions :: OwnAction(a, i)
    decreases StepsLeft(s.calls[i], s.stage)
  {
    if s.calls[i].pc.Returned? {
      actions, t := [], s;
    } else {
      var a := NextActionHelps(s, i);
      var rest, end := EveryCallCanReturn(Step(s, a).value, i);
      assert ([a] + rest)[1..] == rest;
      actions, t := [a] + rest, end;
    }
  }

  // ---------- Two lanes ----------

  // Pings, the keepalive's included, and DeviceInfo calls do not stand in each other's way: a
  // call passes its gate exactly if its own lane's token is there, and touches nothing of the
  // other lane.
  lemma LanesAreIndependent(s: State, i: nat, move: Move)
    requires i < |s.calls|
    ensures Step(s, Act(i, Acquire)).Some?
       <==> s.calls[i].pc.Waiting? && (if s.calls[i].category == DeviceInfo then s.gate.info else s.gate.ping)
    ensures Step(s, Act(i, move)).Some? ==>
              var n := Step(s, Act(i, move)).value;
              if s.calls[i].category == DeviceInfo
              then n.gate.ping == s.gate.ping && n.unanswered.ping == s.unanswered.ping
              else n.gate.info == s.gate.info && n.unanswered.info == s.unanswered.info
  {
  }

  // And a response reaches only calls that asked for its kind.
  lemma ResponsesKeepToTheirKind(s: State, lane: Lane, t: nat)
    requires Step(s, ReadResponse(lane)).Some? && Step(s, ReadResponse(lane)).value.reader.Delivering?
    requires t in Step(s, ReadResponse(lane)).value.reader.targets
    ensures t < |s.calls| && (s.calls[t].category == DeviceInfo <==> lane == InfoLane)
  {
  }

  // ---------- The framer ----------

  predicate NoneSentSince(s: State, t: State) {
    && |s.calls| <= |t.calls|
    && (forall i | 0 <= i < |s.calls| :: t.calls[i].sent == s.calls[i].sent)
    && (forall i | |s.calls| <= i < |t.calls| :: !t.calls[i].sent)
  }

  // A request goes out only while the framer is open, and then the send can succeed.
  lemma SendsWhileFramerOpen(s: State, i: nat)
    requires i < |s.calls| && s.calls[i].pc.Guarded?
    ensures Step(s, Act(i, SendOk)).Some? <==> s.stage.Open? || s.stage.ReasonSet? || s.stage.Disconnected?
  {
  }

  lemma SilentStep(s: State, a: Action)
    requires (s.stage.FramerClosed? || s.stage.DoneClosed?) && Step(s, a).Some?
    ensures var n := Step(s, a).value; (n.stage.FramerClosed? || n.stage.DoneClosed?) && NoneSentSince(s, n)
  {
    match a
    case Act(i, move) => assert move.SendOk? ==> Step(s, a) == None;
    case FinishShutdown(actor) =>
    case _ =>
  }

  lemma {:induction false} NothingIsSentAfterTheFramerCloses(s: State, actions: seq<Action>)
    requires (s.stage.FramerClosed? || s.stage.DoneClosed?) && Run(s, actions).Some?
    ensures NoneSentSince(s, Run(s, actions).value)
    decreases |actions|
  {
    if actions == [] {
    } else {
      SilentStep(s, actions[0]);
      NothingIsSentAfterTheFramerCloses(Step(s, actions[0]).value, actions[1..]);
    }
  }

  // ---------- The stages of shutdown ----------

  lemma StageStep(s: State, a: Action)
    requires Step(s, a).Some?
    ensures StagesLeft(Step(s, a).value.stage) <= StagesLeft(s.stage) <= StagesLeft(Step(s, a).value.stage) + 1
  {
    if a.FinishShutdown? { assert Step(s, a).value.stage == s.stage; }
  }

  // Shutdown does one thing after the other, in every run: the reason is set first, then the
  // connected flag is cleared and the framer closed, and only then done.
  lemma {:induction false} ShutdownSkipsNothing(s: State, actions: seq<Action>, stage: Stage) returns (k: nat)
    requires Run(s, actions).Some?
    requires StagesLeft(Run(s, actions).value.stage) <= StagesLeft(stage) <= StagesLeft(s.stage)
    ensures k <= |actions| && Run(s, actions[..k]).Some? && Run(s, actions[..k]).value.stage == stage
    decreases |actions|
  {
    if s.stage == stage {
      k := 0;
      assert actions[..0] == [];
    } else {
      StageStep(s, actions[0]);
      var rest := ShutdownSkipsNothing(Step(s, actions[0]).value, actions[1..], stage);
      k := rest + 1;
      assert actions[..k][0] == actions[0] && actions[..k][1..] == actions[1..][..rest];
    }
  }

  // ---------- The close reason ----------

  function FirstShutdown(actions: seq<Action>): Option<Actor> {
    if actions == [] then None
    else if actions[0].BeginShutdown? then Some(actions[0].actor)
    else FirstShutdown(actions[1..])
  }

  // The reason an actor gives: Close gives none, a caller and its watchdog their category,
  // the keepalive loop its own failure.
  predicate GivenBy(reason: Option<Reason>, actor: Actor, calls: seq<Call>) {
    match actor
    case Closer => reason == Some(NilReason)
    case Other => reason == Some(External)
    case LoopOf(i) => reason == Some(LoopFailure(i))
    case Caller(i) => i < |calls| && reason == Some(Expiry(calls[i].category, i))
    case WatchdogOf(i) => i < |calls| && reason == Some(Expiry(calls[i].category, i))
  }

  lemma CategoriesStay(s: State, a: Action)
    requires Inv(s) && Step(s, a).Some?
    ensures var n := Step(s, a).value;
            |s.calls| <= |n.calls| && forall i | 0 <= i < |s.calls| :: n.calls[i].category == s.calls[i].category
  {
    if a.Act? {
      assert CallOk(s.calls[a.call], s.stage);
      AdvanceKeeps(s.calls[a.call], a.move, s.gate.At(LaneOf(s.calls[a.call].category)), s.stage);
    }
  }

  lemma {:induction false} ReasonStaysGiven(s: State, actions: seq<Action>, actor: Actor)
    requires Inv(s) && s.stage != Open && GivenBy(s.reason, actor, s.calls) && Run(s, actions).Some?
    ensures var t := Run(s, actions).value; t.stage != Open && GivenBy(t.reason, actor, t.calls)
    decreases |actions|
  {
    if actions == [] {
    } else {
      StepPreserves(s, actions[0]);
      ReasonIsWrittenOnce(s, actions[0]);
      CategoriesStay(s, actions[0]);
      ReasonStaysGiven(Step(s, actions[0]).value, actions[1..], actor);
    }
  }

  // In every run the client stays open, without a reason, until the first call of shutdown,
  // and from then on has the reason which that call gave.
  lemma {:induction false} ReasonIsTheFirstShutdowns(s: State, actions: seq<Action>)
    requires Inv(s) && s.stage == Open && Run(s, actions).Some?
    ensures var t := Run(s, actions).value;
            match FirstShutdown(actions)
            case None => t.stage == Open && t.reason == None
            case Some(actor) => t.stage != Open && GivenBy(t.reason, actor, t.calls)
    decreases |actions|
  {
    if actions == [] {
    } else {
      var n := Step(s, actions[0]).value;
      StepPreserves(s, actions[0]);
      if actions[0].BeginShutdown? {
        ReasonStaysGiven(n, actions[1..], actions[0].actor);
      } else {
        ReasonIsTheFirstShutdowns(n, actions[1..]);
      }
    }
  }

  // ---------- Shutdown returns ----------

  predicate ShutdownAction(a: Action, actor: Actor) {
    a.CloseStep? || a == BeginShutdown(actor) || a == FinishShutdown(actor)
  }

  lemma {:induction false} ClosesUp(s: State, actor: Actor) returns (actions: seq<Action>, t: State)
    requires s.stage != Open
    ensures Run(s, actions) == Some(t) && t == s.(stage := DoneClosed) && forall a | a in actions :: a.CloseStep?
    decreases StagesLeft(s.stage)
  {
    if s.stage.DoneClosed? {
      actions, t := [], s;
    } else {
      var rest, end := ClosesUp(Step(s, CloseStep).value, actor);
      assert ([CloseStep] + rest)[1..] == rest;
      actions, t := [CloseStep] + rest, end;
    }
  }

  lemma BegunShutdownReturns(s: State, actor: Actor) returns (actions: seq<Action>, t: State)
    requires s.stage != Open && Due(s, actor).Some?
    ensures Run(s, actions) == Some(t) && forall a | a in actions :: ShutdownAction(a, actor)
    ensures t == Resume(s, actor).(stage := DoneClosed)
  {
    var closing, closed := ClosesUp(s, actor);
    t := Step(closed, FinishShutdown(actor)).value;
    RunAppend(s, closing, FinishShutdown(actor));
    actions := closing + [FinishShutdown(actor)];
  }

  // Close, the reader and the context can always call shutdown, a caller, its watchdog and the
  // keepalive loop when they owe one. Whoever calls it gets back from it with the client
  // closed, for its own reason if it was the first, and then owes it no more.
  lemma ShutdownReturns(s: State, actor: Actor) returns (actions: seq<Action>, t: State)
    requires actor.Closer? || actor.Other? || Due(s, actor).Some?
    ensures Run(s, actions) == Some(t) && forall a | a in actions :: ShutdownAction(a, actor)
    ensures t.stage == DoneClosed && |t.calls| == |s.calls|
    ensures if s.stage == Open then GivenBy(t.reason, actor, s.calls) else t.reason == s.reason
    ensures actor.Closer? || actor.Other? ==> t.calls == s.calls
    ensures !actor.Closer? && !actor.Other? ==> Due(t, actor) == None
  {
    if s.stage == Open {
      var begin := BeginShutdown(actor);
      var rest, end := BegunShutdownReturns(Step(s, begin).value, actor);
      assert ([begin] + rest)[1..] == rest;
      actions, t := [begin] + rest, end;
    } else {
      actions, t := BegunShutdownReturns(s, actor);
    }
  }

  // And a watchdog that has started is soon done with: it owes a shutdown, or it retires.
  lemma StartedWatchdogDecides(s: State, i: nat)
    requires i < |s.calls| && s.calls[i].watchdog.Started?
    ensures Step(s, Act(i, WatchdogSwap)).Some?
    ensures var c := Step(s, Act(i, WatchdogSwap)).value.calls[i];
            && c.verdict != Undecided
            && c.watchdog == if s.calls[i].verdict.Undecided? then ShutdownDue else Retired
  {
  }

  // ---------- An answered probe ----------

  // A client at rest as far as one lane goes: open, its gate free, nothing owed or under way.
  predicate AtRest(s: State, lane: Lane) {
    s.stage.Open? && s.reader.Idle? && s.gate.At(lane) && s.unanswered.At(lane) == []
  }

  function Sent(category: Category): Call {
    Call(category, Awaiting, false, Armed, Undecided, true, true, None, None, false)
  }

  lemma StartAndEnter(s: State, category: Category) returns (n: State)
    requires Reachable(s) && AtRest(s, LaneOf(category))
    ensures Reachable(n)
    ensures n == s.(calls := s.calls + [NewCall(category).(pc := Holding, acquired := true)],
                    gate := s.gate.With(LaneOf(category), false))
  {
    var i := |s.calls|;
    n := Extend(s, Start(category));
    n := Extend(n, Act(i, CheckContext));
    n := Extend(n, Act(i, CheckDone));
    n := Extend(n, Act(i, Acquire));
    assert n.calls == s.calls + [NewCall(category).(pc := Holding, acquired := true)];
  }

  lemma HookAndSend(s: State, i: nat) returns (n: State)
    requires Reachable(s) && s.stage.Open? && i < |s.calls|
    requires s.calls[i] == NewCall(s.calls[i].category).(pc := Holding, acquired := true)
    requires s.unanswered.At(LaneOf(s.calls[i].category)) == []
    ensures Reachable(n)
    ensures var lane := LaneOf(s.calls[i].category);
            n == Put(s, i, Sent(s.calls[i].category))
                 .(handlers := s.handlers + {i}, unanswered := s.unanswered.With(lane, [i]))
  {
    n := Extend(s, Act(i, Register));
    n := Extend(n, Act(i, Install));
    n := Extend(n, Act(i, SendOk));
    assert [] + [i] == [i];
    assert n.calls == s.calls[i := Sent(s.calls[i].category)];
  }

  lemma StartAndSend(s: State, category: Category) returns (n: State)
    requires Reachable(s) && AtRest(s, LaneOf(category))
    ensures Reachable(n)
    ensures var lane, i := LaneOf(category), |s.calls|;
            n == s.(calls := s.calls + [Sent(category)], gate := s.gate.With(lane, false),
                    handlers := s.handlers + {i}, unanswered := s.unanswered.With(lane, [i]))
  {
    n := StartAndEnter(s, category);
    n := HookAndSend(n, |s.calls|);
    assert n.calls == s.calls + [Sent(category)];
  }

  lemma AnswerArrives(s: State, i: nat) returns (n: State)
    requires Reachable(s) && i < |s.calls| && s.calls[i] == Sent(s.calls[i].category)
    requires i in s.handlers && s.reader.Idle? && s.unanswered.At(LaneOf(s.calls[i].category)) == [i]
    ensures Reachable(n)
    ensures var lane, response := LaneOf(s.calls[i].category), Response(s.nextSerial, i);
            n == Put(s, i, s.calls[i].(slot := Some(response)))
                 .(unanswered := s.unanswered.With(lane, []), nextSerial := s.nextSerial + 1)
  {
    var lane := LaneOf(s.calls[i].category);
    ProbesAreSerialized(s, lane);
    assert i in Targets(s, lane);
    assert Targets(s, lane) == {i} && [i][1..] == [];
    n := Extend(s, ReadResponse(lane));
    assert n == s.(unanswered := s.unanswered.With(lane, []), nextSerial := s.nextSerial + 1,
                   reader := Delivering(lane, Response(s.nextSerial, i), {i}));
    n := Extend(n, Deliver(i));
  }

  lemma ResponseIsTaken(s: State, i: nat) returns (n: State)
    requires Reachable(s) && i < |s.calls| && s.calls[i].slot.Some?
    requires s.calls[i] == Sent(s.calls[i].category).(slot := s.calls[i].slot)
    ensures Reachable(n)
    ensures n == Put(s, i, Sent(s.calls[i].category)
                           .(pc := Leaving(Success), verdict := Completed, took := s.calls[i].slot))
  {
    n := Extend(s, Act(i, TakeResponse));
    n := Extend(n, Act(i, Decide));
    assert n.calls == s.calls[i := n.calls[i]];
  }

  lemma SuccessUnhooks(s: State, i: nat) returns (n: State)
    requires Reachable(s) && i < |s.calls| && s.calls[i].pc == Leaving(Success) && s.calls[i].watchdog.Armed?
    ensures Reachable(n)
    ensures n == Put(s, i, s.calls[i].(watchdog := Retired, pc := Removed(Success))).(handlers := s.handlers - {i})
  {
    n := Extend(s, Act(i, StopWatchdog));
    n := Extend(n, Act(i, RemoveHandler));
    assert n.calls == s.calls[i := n.calls[i]];
  }

  lemma SuccessLeaves(s: State, i: nat) returns (n: State)
    requires Reachable(s) && i < |s.calls| && s.calls[i].pc == Leaving(Success) && s.calls[i].watchdog.Armed?
    ensures Reachable(n)
    ensures var c := Return(s.calls[i].(watchdog := Retired), Success);
            n == Put(s, i, c).(gate := s.gate.With(LaneOf(c.category), true), handlers := s.handlers - {i})
  {
    n := SuccessUnhooks(s, i);
    n := Extend(n, Act(i, ReleaseGate));
    assert n.calls == s.calls[i := n.calls[i]];
  }

  // From rest, a probe that is sent and answered succeeds on that answer, owes no shutdown,
  // and leaves the lane at rest for the next one.
  lemma AnsweredProbeSucceeds(s: State, category: Category) returns (n: State)
    requires Reachable(s) && AtRest(s, LaneOf(category))
    ensures Reachable(n) && AtRest(n, LaneOf(category)) && |n.calls| == |s.calls| + 1
    ensures var c := n.calls[|s.calls|];
            && c.category == category && c.pc == Returned(Success) && !c.loopDue
            && c.took == Some(Response(s.nextSerial, |s.calls|))
  {
    n := StartAndSend(s, category);
    n := AnswerArrives(n, |s.calls|);
    n := ResponseIsTaken(n, |s.calls|);
    n := SuccessLeaves(n, |s.calls|);
  }
}
