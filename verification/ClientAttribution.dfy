// Whose response a probe succeeds on, client.go. The protocol does not say which request a
// response answers, so a late response can satisfy a later probe; whether it does is
// decided when the later one registers its hook.
module ClientAttribution {
  import opened Common
  import opened ClientSession
  import opened ClientSessionProofs

  function LaneAt(s: State, i: nat): Lane
    requires i < |s.calls|
  {
    LaneOf(s.calls[i].category)
  }

  predicate IsTarget(r: Reader, i: nat) {
    r.Delivering? && i in r.targets
  }

  // ---------- Before the hook is registered ----------

  // A call that holds the gate and has no hook yet has received nothing and is sent nothing.
  ghost predicate Unhooked(s: State) {
    forall i | 0 <= i < |s.calls| && s.calls[i].pc.Holding? :: !Answered(s.calls[i]) && !IsTarget(s.reader, i)
  }

  lemma UnhookedCaller(s: State, a: Move, i: nat)
    requires Inv(s) && Unhooked(s) && i < |s.calls| && CallerStep(s, a, i).Some?
    ensures Unhooked(CallerStep(s, a, i).value)
  {
    assert CallOk(s.calls[i], s.stage);
  }

  lemma UnhookedRead(s: State, lane: Lane)
    requires HooksOk(s) && Unhooked(s) && Step(s, ReadResponse(lane)).Some?
    ensures Unhooked(Step(s, ReadResponse(lane)).value)
  {
  }

  lemma UnhookedStep(s: State, a: Action)
    requires Inv(s) && Unhooked(s) && Step(s, a).Some?
    ensures Unhooked(Step(s, a).value)
  {
    match a
    case Act(i, move) => UnhookedCaller(s, move, i);
    case ReadResponse(lane) => UnhookedRead(s, lane);
    case _ =>
  }

  lemma {:induction false} UnhookedRun(s: State, actions: seq<Action>)
    requires Inv(s) && Unhooked(s) && Run(s, actions).Some?
    ensures Unhooked(Run(s, actions).value)
    decreases |actions|
  {
    if actions == [] {
    } else {
      StepPreserves(s, actions[0]);
      UnhookedStep(s, actions[0]);
      UnhookedRun(Step(s, actions[0]).value, actions[1..]);
    }
  }

  lemma ReachableUnhooked(s: State)
    requires Reachable(s)
    ensures Unhooked(s)
  {
    var actions :| Run(INITIAL, actions) == Some(s);
    UnhookedRun(INITIAL, actions);
  }

  // Starting a call and shutting down touch no response and no request.
  lemma OthersKeepCalls(s: State, a: Action, n: State, i: nat)
    requires !a.Act? && !a.ReadResponse? && !a.Deliver? && Step(s, a) == Some(n) && i < |s.calls|
    ensures n.reader == s.reader && n.unanswered == s.unanswered && i < |n.calls|
    ensures var c, d := s.calls[i], n.calls[i];
            && d.category == c.category && d.slot == c.slot && d.took == c.took
            && (Before(d) <==> Before(c)) && (d.pc.Holding? <==> c.pc.Holding?)
            && (Holds(d) <==> Holds(c)) && (Hooked(d) <==> Hooked(c))
  {
  }

  // ---------- Nothing owed when the hook is registered ----------

  // The call gets only its own responses, and while it holds the gate only it is owed any.
  ghost predicate Clear(s: State, i: nat) {
    && i < |s.calls| && !Before(s.calls[i])
    && Own(s.calls[i], i)
    && (IsTarget(s.reader, i) ==> s.reader.response.request == i)
    && (Holds(s.calls[i]) ==> OnlyOwed(s.unanswered.At(LaneAt(s, i)), i))
  }

  predicate OnlyOwed(owed: seq<nat>, i: nat) {
    forall k | 0 <= k < |owed| :: owed[k] == i
  }

  lemma CallerOwns(s: State, a: Move, j: nat, i: nat)
    requires i < |s.calls| && j < |s.calls| && CallerStep(s, a, j).Some? && !Before(s.calls[i]) && Own(s.calls[i], i)
    ensures var n := CallerStep(s, a, j).value;
            && i < |n.calls| && !Before(n.calls[i]) && Own(n.calls[i], i)
            && (Holds(n.calls[i]) ==> Holds(s.calls[i]))
            && n.reader == s.reader && n.calls[i].category == s.calls[i].category
  {
    var c := s.calls[j];
    AdvanceOwn(c, a, s.gate.At(LaneAt(s, j)), s.stage, j);
    if i == j { AdvanceForward(c, a, s.gate.At(LaneAt(s, j)), s.stage); }
  }

  // A call does not come back to before the gate, and passes through it once.
  lemma AdvanceForward(c: Call, a: Move, token: bool, stage: Stage)
    requires Advance(c, a, token, stage).Some? && !Before(c)
    ensures var n := Advance(c, a, token, stage).value;
            !Before(n) && (Holds(n) ==> Holds(c))
  {
  }

  // Two holders on one lane are one, so while a call holds the gate nobody else sends there.
  lemma HolderOwed(s: State, a: Move, j: nat, i: nat)
    requires Inv(s) && i < |s.calls| && j < |s.calls| && CallerStep(s, a, j).Some? && Holds(s.calls[i])
    requires OnlyOwed(s.unanswered.At(LaneAt(s, i)), i)
    ensures OnlyOwed(CallerStep(s, a, j).value.unanswered.At(LaneAt(s, i)), i)
  {
    if a.SendOk? && LaneAt(s, i) == LaneAt(s, j) { OneHolder(s, LaneAt(s, i), i, j); }
  }

  lemma ClearCaller(s: State, a: Move, j: nat, i: nat)
    requires Inv(s) && Clear(s, i) && j < |s.calls| && CallerStep(s, a, j).Some?
    ensures Clear(CallerStep(s, a, j).value, i)
  {
    CallerOwns(s, a, j, i);
    if Holds(s.calls[i]) { HolderOwed(s, a, j, i); }
  }

  lemma ClearRead(s: State, lane: Lane, i: nat)
    requires Inv(s) && Clear(s, i) && Step(s, ReadResponse(lane)).Some?
    ensures Clear(Step(s, ReadResponse(lane)).value, i)
  {
    assert i in Targets(s, lane) ==> Holds(s.calls[i]) && lane == LaneAt(s, i);
  }

  lemma ClearDeliver(s: State, j: nat, i: nat)
    requires Clear(s, i) && Step(s, Deliver(j)).Some?
    ensures Clear(Step(s, Deliver(j)).value, i)
  {
  }

  lemma ClearOther(s: State, a: Action, i: nat)
    requires !a.Act? && !a.ReadResponse? && !a.Deliver?
    requires CallsOk(s) && Clear(s, i) && Step(s, a).Some?
    ensures Clear(Step(s, a).value, i)
  {
    var n := Step(s, a).value;
    OthersKeepCalls(s, a, n, i);
  }

  lemma ClearStep(s: State, a: Action, i: nat)
    requires Inv(s) && Clear(s, i) && Step(s, a).Some?
    ensures Clear(Step(s, a).value, i)
  {
    match a
    case Act(j, move) => ClearCaller(s, move, j, i);
    case ReadResponse(lane) => ClearRead(s, lane, i);
    case Deliver(j) => ClearDeliver(s, j, i);
    case _ => ClearOther(s, a, i);
  }

  // ---------- Something owed when the hook is registered ----------

  // The first response the call has, is being sent, or is next to be read for it answers
  // another request.
  ghost predicate Stale(s: State, i: nat) {
    && i < |s.calls| && !Before(s.calls[i]) && !s.calls[i].pc.Holding?
    && (s.calls[i].took.Some? ==> s.calls[i].took.value.request != i)
    && (s.calls[i].took.None? && s.calls[i].slot.Some? ==> s.calls[i].slot.value.request != i)
    && (!Answered(s.calls[i]) ==>
          if IsTarget(s.reader, i) then s.reader.response.request != i
          else Hooked(s.calls[i]) ==> OwedFirst(s.unanswered.At(LaneAt(s, i)), i))
  }

  predicate OwedFirst(owed: seq<nat>, i: nat) {
    owed != [] && owed[0] != i
  }

  lemma StaleCaller(s: State, a: Move, j: nat, i: nat)
    requires CallsOk(s) && Stale(s, i) && j < |s.calls| && CallerStep(s, a, j).Some?
    ensures Stale(CallerStep(s, a, j).value, i)
  {
    assert CallOk(s.calls[i], s.stage);
  }

  lemma StaleRead(s: State, lane: Lane, i: nat)
    requires HooksOk(s) && Stale(s, i) && Step(s, ReadResponse(lane)).Some?
    ensures Stale(Step(s, ReadResponse(lane)).value, i)
  {
    assert i in Targets(s, lane) <==> Hooked(s.calls[i]) && lane == LaneAt(s, i);
  }

  lemma StaleDeliver(s: State, j: nat, i: nat)
    requires ReaderOk(s) && Stale(s, i) && Step(s, Deliver(j)).Some?
    ensures Stale(Step(s, Deliver(j)).value, i)
  {
  }

  lemma StaleOther(s: State, a: Action, i: nat)
    requires !a.Act? && !a.ReadResponse? && !a.Deliver?
    requires CallsOk(s) && Stale(s, i) && Step(s, a).Some?
    ensures Stale(Step(s, a).value, i)
  {
    var n := Step(s, a).value;
    OthersKeepCalls(s, a, n, i);
  }

  lemma StaleStep(s: State, a: Action, i: nat)
    requires Inv(s) && Stale(s, i) && Step(s, a).Some?
    ensures Stale(Step(s, a).value, i)
  {
    match a
    case Act(j, move) => StaleCaller(s, move, j, i);
    case ReadResponse(lane) => StaleRead(s, lane, i);
    case Deliver(j) => StaleDeliver(s, j, i);
    case _ => StaleOther(s, a, i);
  }

  // ---------- The exact condition ----------

  lemma {:induction false} RunKeepsBoth(s: State, actions: seq<Action>, t: State, i: nat)
    requires Inv(s) && Run(s, actions) == Some(t)
    ensures Inv(t)
    ensures Clear(s, i) ==> Clear(t, i)
    ensures Stale(s, i) ==> Stale(t, i)
    decreases |actions|
  {
    if actions == [] {
    } else {
      var next := Step(s, actions[0]).value;
      StepPreserves(s, actions[0]);
      if Clear(s, i) { ClearStep(s, actions[0], i); }
      if Stale(s, i) { StaleStep(s, actions[0], i); }
      RunKeepsBoth(next, actions[1..], t, i);
    }
  }

  lemma RegisteredClearOrStale(s: State, i: nat, n: State)
    requires Inv(s) && Unhooked(s) && Step(s, Act(i, Register)) == Some(n)
    ensures if s.unanswered.At(LaneAt(s, i)) == [] then Clear(n, i) else Stale(n, i)
  {
    assert CallOk(s.calls[i], s.stage);
    assert OwedOk(s, PingLane) && OwedOk(s, InfoLane);
  }

  // A probe or device-info call that succeeds does so on the response to its own request
  // if and only if no response was owed on its lane when it registered its hook: as many
  // had been read as requests had been sent. Nothing is assumed of the rest of the run,
  // in which other calls may expire and the client may close.
  lemma {:induction false} SuccessIsItsOwnExactlyWhen(s: State, i: nat, n: State, after: seq<Action>, t: State)
    requires Reachable(s) && Step(s, Act(i, Register)) == Some(n) && Run(n, after) == Some(t)
    requires i < |t.calls| && Left(t.calls[i], Success)
    ensures i < |s.calls| && t.calls[i].took.Some?
    ensures t.calls[i].took.value.request == i <==> s.unanswered.At(LaneAt(s, i)) == []
  {
    ReachableInv(s);
    ReachableUnhooked(s);
    StepPreserves(s, Act(i, Register));
    RegisteredClearOrStale(s, i, n);
    RunKeepsBoth(n, after, t, i);
    assert CallOk(t.calls[i], t.stage);
  }
}
