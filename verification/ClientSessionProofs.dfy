// What every reachable state of the probe protocol keeps, and what follows for
// callers: mutual exclusion, one winner of the verdict, response attribution, and
// a close reason that is written once.
module ClientSessionProofs {
  import opened Common
  import opened ClientSession

  // ---------- Counting over calls ----------

  datatype Measure = HoldersIn(lane: Lane) | DebtIn(lane: Lane) | HeldDebtIn(lane: Lane) | ExpiredIn(lane: Lane)

  predicate Holds(c: Call) {
    !Before(c) && !c.pc.Returned?
  }

  predicate Hooked(c: Call) {
    Holds(c) && !c.pc.Holding? && !c.pc.Removed?
  }

  predicate Answered(c: Call) {
    c.slot.Some? || c.took.Some?
  }

  // The caller has sent and nothing has arrived for it yet.
  predicate InDebt(c: Call) {
    Holds(c) && c.sent && !Answered(c)
  }

  // The verdict expired, but the shutdown it owes has not run.
  predicate ExpiryPending(c: Call) {
    c.watchdog.ShutdownDue? || c.pc.ShuttingDown?
  }

  function Weight(m: Measure, c: Call): int {
    if LaneOf(c.category) != m.lane then 0
    else
      match m
      case HoldersIn(_) => if Holds(c) then 1 else 0
      case DebtIn(_) =>
        if Holds(c) then (if c.sent then 1 else 0) - (if Answered(c) then 1 else 0)
        else if c.watchdog.ShutdownDue? then 1 else 0
      case HeldDebtIn(_) => if InDebt(c) then 1 else 0
      case ExpiredIn(_) => if ExpiryPending(c) then 1 else 0
  }

  function Sum(m: Measure, calls: seq<Call>): int {
    if calls == [] then 0 else Weight(m, calls[0]) + Sum(m, calls[1..])
  }

  lemma {:induction false} SumUpdate(m: Measure, calls: seq<Call>, i: nat, c: Call)
    requires i < |calls|
    ensures Sum(m, calls[i := c]) == Sum(m, calls) - Weight(m, calls[i]) + Weight(m, c)
  {
    if i == 0 {
      assert calls[0 := c][1..] == calls[1..];
    } else {
      SumUpdate(m, calls[1..], i - 1, c);
      assert calls[i := c][1..] == calls[1..][i - 1 := c];
    }
  }

  lemma {:induction false} SumAppend(m: Measure, calls: seq<Call>, c: Call)
    ensures Sum(m, calls + [c]) == Sum(m, calls) + Weight(m, c)
  {
    if calls == [] {
      assert calls + [c] == [c];
    } else {
      SumAppend(m, calls[1..], c);
      assert (calls + [c])[1..] == calls[1..] + [c];
    }
  }

  // A count of one leaves room for a single call of weight one.
  lemma {:induction false} CountUnique(m: Measure, calls: seq<Call>, i: nat, j: nat)
    requires m.HoldersIn? && Sum(m, calls) <= 1
    requires i < j < |calls| && Weight(m, calls[i]) == 1
    ensures Weight(m, calls[j]) == 0
  {
    var idle := calls[i].(pc := CheckingContext);
    SumUpdate(m, calls, i, idle);
    CountMember(m, calls[i := idle], j);
  }

  lemma {:induction false} CountNonNegative(m: Measure, calls: seq<Call>)
    requires !m.DebtIn?
    ensures Sum(m, calls) >= 0
  {
    if calls == [] {
    } else {
      CountNonNegative(m, calls[1..]);
    }
  }

  lemma {:induction false} CountMember(m: Measure, calls: seq<Call>, i: nat)
    requires !m.DebtIn? && i < |calls|
    ensures Sum(m, calls) >= Weight(m, calls[i])
  {
    if i == 0 {
      CountNonNegative(m, calls[1..]);
    } else {
      CountMember(m, calls[1..], i - 1);
    }
  }

  lemma {:induction false} CountWitness(m: Measure, calls: seq<Call>) returns (i: nat)
    requires Sum(m, calls) > 0
    ensures i < |calls| && Weight(m, calls[i]) > 0
  {
    if Weight(m, calls[0]) > 0 {
      i := 0;
    } else {
      var k := CountWitness(m, calls[1..]);
      i := k + 1;
    }
  }

  // Debt splits into what the holder still waits for and expiries not yet shut down.
  lemma {:induction false} DebtSplit(lane: Lane, calls: seq<Call>)
    ensures Sum(DebtIn(lane), calls) <= Sum(HeldDebtIn(lane), calls) + Sum(ExpiredIn(lane), calls)
  {
    if calls == [] {
    } else {
      DebtSplit(lane, calls[1..]);
    }
  }

  // ---------- What every call keeps ----------

  predicate Before(c: Call) {
    c.pc.CheckingContext? || c.pc.CheckingDone? || c.pc.Waiting?
  }

  predicate Left(c: Call, outcome: Outcome) {
    (c.pc.Leaving? || c.pc.Unguarded? || c.pc.Removed? || c.pc.Returned?) && c.pc.outcome == outcome
  }

  // What a program point says about the gate, the request and the response.
  predicate ProgressOk(c: Call) {
    && (Before(c) || Left(c, NotStarted) ==> !c.acquired)
    && (Holds(c) ==> c.acquired)
    && (!c.acquired ==> !c.sent && !Answered(c) && c.watchdog.NotInstalled?)
    && (!c.acquired && c.pc.Returned? ==> Left(c, NotStarted) || Left(c, Closed))
    && (c.pc.Holding? || c.pc.Registered? || c.pc.Guarded? ==> !c.sent && c.took.None?)
    && (c.pc.Holding? || c.pc.Registered? ==> c.watchdog.NotInstalled?)
    && (c.pc.Awaiting? || c.pc.ShuttingDown? ==> c.sent && c.took.None?)
    && (c.pc.Responded? ==> c.sent && c.took.Some?)
    && (Left(c, Success) ==> c.sent && c.took.Some?)
    && (Left(c, SendFailed) ==> c.acquired && !c.sent)
    && (Left(c, Expired) ==> c.acquired)
    && (Left(c, NotStarted) ==> c.pc.Returned?)
    && (c.loopDue ==> c.category == Keepalive && c.pc.Returned? && !Left(c, Success) && !Left(c, NotStarted))
  }

  // What the verdict says about the outcome and about the shutdown it may owe.
  predicate VerdictOk(c: Call, stage: Stage) {
    && (c.watchdog.NotInstalled? && !c.acquired ==> c.verdict.Undecided?)
    && (Left(c, Success) <==> c.verdict.Completed?)
    && (Left(c, Expired) ==> c.verdict.TimedOut?)
    && (Left(c, Closed) ==> stage.DoneClosed?)
    && (ExpiryPending(c) ==> c.verdict.TimedOut?)
    && !(c.watchdog.ShutdownDue? && c.pc.ShuttingDown?)
    && (c.verdict.TimedOut? ==> ExpiryPending(c) || stage.DoneClosed?)
  }

  predicate CallOk(c: Call, stage: Stage) {
    ProgressOk(c) && VerdictOk(c, stage)
  }

  ghost predicate CallsOk(s: State) {
    forall i | 0 <= i < |s.calls| :: CallOk(s.calls[i], s.stage)
  }

  // ---------- Gates and hooks ----------

  ghost predicate GateOk(s: State, lane: Lane) {
    Sum(HoldersIn(lane), s.calls) + (if s.gate.At(lane) then 1 else 0) == 1
  }

  ghost predicate HooksOk(s: State) {
    && (forall i | i in s.handlers :: i < |s.calls| && Hooked(s.calls[i]))
    && (forall i | 0 <= i < |s.calls| && Hooked(s.calls[i]) :: i in s.handlers)
  }

  ghost predicate ReaderOk(s: State) {
    s.reader.Delivering? ==>
      && s.reader.targets != {}
      && (forall t | t in s.reader.targets ::
            t < |s.calls| && LaneOf(s.calls[t].category) == s.reader.lane && s.calls[t].acquired)
      && (forall t, u | t in s.reader.targets && u in s.reader.targets :: t == u)
  }

  // ---------- Response serials ----------

  predicate Owns(c: Call, serial: nat) {
    (c.slot.Some? && c.slot.value.serial == serial) || (c.took.Some? && c.took.value.serial == serial)
  }

  ghost predicate SerialsOk(s: State) {
    && (forall i, k: nat | 0 <= i < |s.calls| && Owns(s.calls[i], k) :: k < s.nextSerial)
    && (forall i, j, k: nat | 0 <= i < j < |s.calls| && Owns(s.calls[i], k) :: !Owns(s.calls[j], k))
    && (s.reader.Delivering? ==>
          && s.reader.response.serial < s.nextSerial
          && (forall i | 0 <= i < |s.calls| :: !Owns(s.calls[i], s.reader.response.serial)))
  }

  // ---------- Debt ----------

  ghost predicate InFlight(s: State, lane: Lane) {
    s.reader.Delivering? && s.reader.lane == lane
    && exists t | t in s.reader.targets :: t < |s.calls| && Holds(s.calls[t])
  }

  ghost predicate DebtOk(s: State, lane: Lane) {
    s.stage != DoneClosed ==>
      |s.unanswered.At(lane)| + (if InFlight(s, lane) then 1 else 0) <= Sum(DebtIn(lane), s.calls)
  }

  ghost predicate OrderOk(s: State, lane: Lane) {
    var owed := s.unanswered.At(lane);
    forall i | 0 <= i < |s.calls| && LaneOf(s.calls[i].category) == lane
               && Holds(s.calls[i]) && s.calls[i].sent && owed != [] :: owed[|owed| - 1] == i
  }

  // A request is outstanding once, and its call has sent it.
  ghost predicate OwedOk(s: State, lane: Lane) {
    var owed := s.unanswered.At(lane);
    && (forall k | 0 <= k < |owed| ::
          owed[k] < |s.calls| && s.calls[owed[k]].sent && LaneOf(s.calls[owed[k]].category) == lane)
    && (forall j, k | 0 <= j < k < |owed| :: owed[j] != owed[k])
  }

  ghost predicate ReasonOk(s: State) {
    && (s.stage == Open <==> s.reason.None?)
    && (s.reason.Some? ==>
          match s.reason.value
          case Expiry(category, i) =>
            i < |s.calls| && s.calls[i].category == category && s.calls[i].verdict == TimedOut && s.calls[i].acquired
          case LoopFailure(i) =>
            i < |s.calls| && s.calls[i].category == Keepalive && s.calls[i].acquired
            && (Left(s.calls[i], SendFailed) || Left(s.calls[i], Expired))
          case _ => true)
  }

  ghost predicate Inv(s: State) {
    && CallsOk(s)
    && GateOk(s, PingLane) && GateOk(s, InfoLane)
    && HooksOk(s)
    && ReaderOk(s)
    && SerialsOk(s)
    && DebtOk(s, PingLane) && DebtOk(s, InfoLane)
    && OrderOk(s, PingLane) && OrderOk(s, InfoLane)
    && OwedOk(s, PingLane) && OwedOk(s, InfoLane)
    && ReasonOk(s)
  }

  // ---------- Preservation: the actions of one caller ----------

  // One call stays well formed.
  lemma AdvanceProgress(c: Call, a: Move, token: bool, stage: Stage)
    requires Advance(c, a, token, stage).Some? && ProgressOk(c) && VerdictOk(c, stage)
    ensures ProgressOk(Advance(c, a, token, stage).value)
  {
  }

  lemma AdvanceVerdict(c: Call, a: Move, token: bool, stage: Stage)
    requires Advance(c, a, token, stage).Some? && ProgressOk(c) && VerdictOk(c, stage)
    ensures VerdictOk(Advance(c, a, token, stage).value, stage)
  {
  }

  // What a call has done is not undone.
  lemma AdvanceKeeps(c: Call, a: Move, token: bool, stage: Stage)
    requires Advance(c, a, token, stage).Some? && CallOk(c, stage)
    ensures var n := Advance(c, a, token, stage).value;
            && n.category == c.category
            && (c.acquired ==> n.acquired)
            && (c.verdict != Undecided ==> n.verdict == c.verdict)
            && (c.pc.Returned? ==> n.pc == c.pc)
  {
  }

  // A call moves in and out of the gate and of the hook table only by the actions
  // that also change those, gains no response, and sends once.
  lemma AdvanceEffects(c: Call, a: Move, token: bool, stage: Stage)
    requires Advance(c, a, token, stage).Some? && CallOk(c, stage)
    ensures var n := Advance(c, a, token, stage).value;
            && (Holds(n) <==> if a.Acquire? then true else if a.ReleaseGate? then false else Holds(c))
            && (a.Acquire? ==> !Holds(c) && token && !c.acquired)
            && (a.ReleaseGate? ==> Holds(c))
            && (Hooked(n) <==> if a.Register? then true else if a.RemoveHandler? then false else Hooked(c))
            && (n.sent <==> c.sent || a.SendOk?)
            && (a.SendOk? ==> Holds(c) && !c.sent)
            && (forall k: nat :: Owns(n, k) ==> Owns(c, k))
  {
  }

  // What an action may do to the debt of its call until done closes: it grows with
  // the request sent, and otherwise never shrinks.
  lemma AdvanceDebt(c: Call, a: Move, token: bool, stage: Stage, lane: Lane)
    requires Advance(c, a, token, stage).Some? && CallOk(c, stage) && stage != DoneClosed
    ensures var n := Advance(c, a, token, stage).value;
            Weight(DebtIn(lane), n) - Weight(DebtIn(lane), c)
              >= if a.SendOk? && LaneOf(c.category) == lane then 1 else 0
  {
  }

  lemma CallerGate(s: State, a: Move, i: nat, lane: Lane)
    requires i < |s.calls| && CallerStep(s, a, i).Some?
    requires CallOk(s.calls[i], s.stage) && GateOk(s, lane)
    ensures GateOk(CallerStep(s, a, i).value, lane)
  {
    var c := s.calls[i];
    var n := CallerStep(s, a, i).value.calls[i];
    AdvanceKeeps(c, a, s.gate.At(LaneOf(c.category)), s.stage);
    AdvanceEffects(c, a, s.gate.At(LaneOf(c.category)), s.stage);
    SumUpdate(HoldersIn(lane), s.calls, i, n);
    CountMember(HoldersIn(lane), s.calls, i);
  }

  lemma CallerHooks(s: State, a: Move, i: nat)
    requires i < |s.calls| && CallerStep(s, a, i).Some?
    requires CallOk(s.calls[i], s.stage) && HooksOk(s)
    ensures HooksOk(CallerStep(s, a, i).value)
  {
    AdvanceEffects(s.calls[i], a, s.gate.At(LaneOf(s.calls[i].category)), s.stage);
  }

  lemma CallerDebt(s: State, a: Move, i: nat, lane: Lane)
    requires i < |s.calls| && CallerStep(s, a, i).Some?
    requires CallOk(s.calls[i], s.stage) && ReaderOk(s) && DebtOk(s, lane)
    ensures DebtOk(CallerStep(s, a, i).value, lane)
  {
    var c := s.calls[i];
    var n := CallerStep(s, a, i).value;
    AdvanceEffects(c, a, s.gate.At(LaneOf(c.category)), s.stage);
    if s.stage != DoneClosed {
      AdvanceDebt(c, a, s.gate.At(LaneOf(c.category)), s.stage, lane);
      SumUpdate(DebtIn(lane), s.calls, i, n.calls[i]);
      if InFlight(n, lane) {
        var t :| t in n.reader.targets && t < |n.calls| && Holds(n.calls[t]);
        assert t in s.reader.targets && s.calls[t].acquired && Holds(s.calls[t]);
        assert InFlight(s, lane);
      }
    }
  }

  lemma CallerOrder(s: State, a: Move, i: nat, lane: Lane)
    requires i < |s.calls| && CallerStep(s, a, i).Some?
    requires CallOk(s.calls[i], s.stage) && GateOk(s, lane) && OrderOk(s, lane)
    ensures OrderOk(CallerStep(s, a, i).value, lane)
  {
    var c := s.calls[i];
    var n := CallerStep(s, a, i).value;
    AdvanceKeeps(c, a, s.gate.At(LaneOf(c.category)), s.stage);
    AdvanceEffects(c, a, s.gate.At(LaneOf(c.category)), s.stage);
    forall j | 0 <= j < |n.calls| && LaneOf(n.calls[j].category) == lane && Holds(n.calls[j]) && n.calls[j].sent
               && n.unanswered.At(lane) != []
      ensures n.unanswered.At(lane)[|n.unanswered.At(lane)| - 1] == j
    {
      if j != i && a.SendOk? && LaneOf(c.category) == lane { OneHolder(s, lane, i, j); }
    }
  }

  lemma CallerOwed(s: State, a: Move, i: nat, lane: Lane)
    requires i < |s.calls| && CallerStep(s, a, i).Some?
    requires CallOk(s.calls[i], s.stage) && OwedOk(s, lane)
    ensures OwedOk(CallerStep(s, a, i).value, lane)
  {
    var c := s.calls[i];
    AdvanceKeeps(c, a, s.gate.At(LaneOf(c.category)), s.stage);
    AdvanceEffects(c, a, s.gate.At(LaneOf(c.category)), s.stage);
  }

  lemma OneHolder(s: State, lane: Lane, i: nat, j: nat)
    requires GateOk(s, lane) && i < |s.calls| && j < |s.calls|
    requires Holds(s.calls[i]) && LaneOf(s.calls[i].category) == lane
    requires Holds(s.calls[j]) && LaneOf(s.calls[j].category) == lane
    ensures i == j
  {
    if i < j {
      CountUnique(HoldersIn(lane), s.calls, i, j);
    } else if j < i {
      CountUnique(HoldersIn(lane), s.calls, j, i);
    }
  }

  lemma CallerCalls(s: State, a: Move, i: nat)
    requires i < |s.calls| && CallerStep(s, a, i).Some?
    requires CallsOk(s)
    ensures CallsOk(CallerStep(s, a, i).value)
  {
    var c := s.calls[i];
    assert CallOk(c, s.stage);
    AdvanceProgress(c, a, s.gate.At(LaneOf(c.category)), s.stage);
    AdvanceVerdict(c, a, s.gate.At(LaneOf(c.category)), s.stage);
  }

  lemma CallerReaderReason(s: State, a: Move, i: nat)
    requires i < |s.calls| && CallerStep(s, a, i).Some?
    requires CallOk(s.calls[i], s.stage) && ReaderOk(s) && ReasonOk(s)
    ensures ReaderOk(CallerStep(s, a, i).value) && ReasonOk(CallerStep(s, a, i).value)
  {
    AdvanceKeeps(s.calls[i], a, s.gate.At(LaneOf(s.calls[i].category)), s.stage);
  }

  lemma CallerSerials(s: State, a: Move, i: nat)
    requires i < |s.calls| && CallerStep(s, a, i).Some?
    requires CallOk(s.calls[i], s.stage) && SerialsOk(s)
    ensures SerialsOk(CallerStep(s, a, i).value)
  {
    AdvanceEffects(s.calls[i], a, s.gate.At(LaneOf(s.calls[i].category)), s.stage);
    SerialsKept(s, CallerStep(s, a, i).value);
  }

  lemma CallerPreserves(s: State, a: Move, i: nat)
    requires Inv(s) && i < |s.calls| && CallerStep(s, a, i).Some?
    ensures Inv(CallerStep(s, a, i).value)
  {
    assert CallOk(s.calls[i], s.stage);
    CallerCalls(s, a, i);
    CallerReaderReason(s, a, i);
    CallerGate(s, a, i, PingLane);
    CallerGate(s, a, i, InfoLane);
    CallerHooks(s, a, i);
    CallerDebt(s, a, i, PingLane);
    CallerDebt(s, a, i, InfoLane);
    CallerOrder(s, a, i, PingLane);
    CallerOrder(s, a, i, InfoLane);
    CallerOwed(s, a, i, PingLane);
    CallerOwed(s, a, i, InfoLane);
    CallerSerials(s, a, i);
  }

  // ---------- Preservation: arrivals, shutdown and the reader ----------

  // Serials survive any change under which no call gains a response.
  lemma SerialsKept(s: State, n: State)
    requires SerialsOk(s) && |n.calls| == |s.calls| && n.nextSerial == s.nextSerial && n.reader == s.reader
    requires forall i, k: nat | 0 <= i < |s.calls| && Owns(n.calls[i], k) :: Owns(s.calls[i], k)
    ensures SerialsOk(n)
  {
  }

  lemma StartSerials(s: State, category: Category)
    requires SerialsOk(s)
    ensures SerialsOk(Step(s, Start(category)).value)
  {
    var n := Step(s, Start(category)).value;
    assert forall k: nat :: !Owns(NewCall(category), k);
    assert forall i | 0 <= i < |s.calls| :: n.calls[i] == s.calls[i];
  }

  lemma StartGate(s: State, category: Category, lane: Lane)
    requires GateOk(s, lane)
    ensures GateOk(Step(s, Start(category)).value, lane)
  {
    SumAppend(HoldersIn(lane), s.calls, NewCall(category));
  }

  lemma StartLane(s: State, category: Category, lane: Lane)
    requires Inv(s)
    ensures var n := Step(s, Start(category)).value;
            GateOk(n, lane) && DebtOk(n, lane) && OrderOk(n, lane)
  {
    var n := Step(s, Start(category)).value;
    assert GateOk(s, lane) && DebtOk(s, lane) && OrderOk(s, lane);
    StartGate(s, category, lane);
    SumAppend(DebtIn(lane), s.calls, NewCall(category));
    if InFlight(n, lane) {
      var t :| t in n.reader.targets && t < |n.calls| && Holds(n.calls[t]);
      assert t < |s.calls| && n.calls[t] == s.calls[t];
      assert InFlight(s, lane);
    }
  }

  lemma StartCalls(s: State, category: Category)
    requires CallsOk(s) && HooksOk(s) && ReaderOk(s) && ReasonOk(s)
    ensures var n := Step(s, Start(category)).value;
            CallsOk(n) && HooksOk(n) && ReaderOk(n) && ReasonOk(n)
  {
    var n := Step(s, Start(category)).value;
    assert forall i | 0 <= i < |s.calls| :: n.calls[i] == s.calls[i];
  }

  lemma StartPreserves(s: State, category: Category)
    requires Inv(s)
    ensures Inv(Step(s, Start(category)).value)
  {
    var n := Step(s, Start(category)).value;
    StartCalls(s, category);
    OwedKept(s, n, PingLane);
    OwedKept(s, n, InfoLane);
    StartLane(s, category, PingLane);
    StartLane(s, category, InfoLane);
    StartSerials(s, category);
  }

  // Shutdown only moves the stage forward: no part that reads the calls is affected.
  lemma StagePreserves(s: State, n: State)
    requires Inv(s) && n.stage != Open && (s.stage == DoneClosed ==> n.stage == DoneClosed)
    requires n == s.(stage := n.stage, reason := n.reason) && ReasonOk(n)
    ensures Inv(n)
  {
    forall i | 0 <= i < |n.calls| ensures CallOk(n.calls[i], n.stage) {
      assert CallOk(s.calls[i], s.stage);
    }
    SerialsKept(s, n);
    assert GateOk(s, PingLane) && GateOk(s, InfoLane) && OrderOk(s, PingLane) && OrderOk(s, InfoLane);
    assert OwedOk(s, PingLane) && OwedOk(s, InfoLane);
  }

  lemma BeginPreserves(s: State, actor: Actor)
    requires Inv(s) && Step(s, BeginShutdown(actor)).Some?
    ensures Inv(Step(s, BeginShutdown(actor)).value)
  {
    var n := Step(s, BeginShutdown(actor)).value;
    if actor.Caller? || actor.WatchdogOf? || actor.LoopOf? {
      assert CallOk(s.calls[actor.call], s.stage);
    }
    StagePreserves(s, n);
  }

  // What a finished shutdown may change in the call it returns to.
  predicate Resumed(c: Call, n: Call) {
    || (c.pc.ShuttingDown? && n == c.(pc := Leaving(Expired)))
    || (c.watchdog.ShutdownDue? && n == c.(watchdog := Retired))
    || (c.loopDue && n == c.(loopDue := false))
  }

  lemma FinishLane(s: State, i: nat, c: Call, lane: Lane)
    requires i < |s.calls| && s.stage == DoneClosed && Resumed(s.calls[i], c)
    requires GateOk(s, lane) && OrderOk(s, lane) && OwedOk(s, lane)
    ensures GateOk(Put(s, i, c), lane) && OrderOk(Put(s, i, c), lane) && OwedOk(Put(s, i, c), lane)
            && DebtOk(Put(s, i, c), lane)
  {
    SumUpdate(HoldersIn(lane), s.calls, i, c);
  }

  lemma FinishCall(s: State, i: nat, c: Call)
    requires i < |s.calls| && s.stage == DoneClosed && Resumed(s.calls[i], c)
    requires CallsOk(s) && HooksOk(s) && ReaderOk(s) && ReasonOk(s)
    ensures CallsOk(Put(s, i, c)) && HooksOk(Put(s, i, c)) && ReaderOk(Put(s, i, c)) && ReasonOk(Put(s, i, c))
  {
    assert CallOk(s.calls[i], s.stage);
  }

  lemma ResumePreserves(s: State, i: nat, c: Call)
    requires Inv(s) && i < |s.calls| && s.stage == DoneClosed && Resumed(s.calls[i], c)
    ensures Inv(Put(s, i, c))
  {
    FinishCall(s, i, c);
    FinishLane(s, i, c, PingLane);
    FinishLane(s, i, c, InfoLane);
    assert forall k: nat :: Owns(c, k) ==> Owns(s.calls[i], k);
    SerialsKept(s, Put(s, i, c));
  }

  lemma FinishPreserves(s: State, actor: Actor)
    requires Inv(s) && Step(s, FinishShutdown(actor)).Some?
    ensures Inv(Step(s, FinishShutdown(actor)).value)
  {
    match actor
    case Caller(i) => ResumePreserves(s, i, s.calls[i].(pc := Leaving(Expired)));
    case WatchdogOf(i) => ResumePreserves(s, i, s.calls[i].(watchdog := Retired));
    case LoopOf(i) => ResumePreserves(s, i, s.calls[i].(loopDue := false));
    case _ =>
  }

  lemma ReadLane(s: State, read: Lane, lane: Lane)
    requires ReaderOk(s) && GateOk(s, lane) && DebtOk(s, lane) && OrderOk(s, lane)
    requires Step(s, ReadResponse(read)).Some?
    ensures var n := Step(s, ReadResponse(read)).value;
            GateOk(n, lane) && DebtOk(n, lane) && OrderOk(n, lane)
  {
    var n := Step(s, ReadResponse(read)).value;
    assert n.unanswered.At(lane) == if lane == read then s.unanswered.At(lane)[1..] else s.unanswered.At(lane);
    if InFlight(n, lane) { assert lane == read; }
  }

  // The requests outstanding are those of calls that have sent; a read removes one.
  lemma OwedKept(s: State, n: State, lane: Lane)
    requires OwedOk(s, lane) && |n.calls| >= |s.calls|
    requires forall i | 0 <= i < |s.calls| ::
      n.calls[i].category == s.calls[i].category && n.calls[i].sent == s.calls[i].sent
    requires n.unanswered.At(lane) == s.unanswered.At(lane)
          || (s.unanswered.At(lane) != [] && n.unanswered.At(lane) == s.unanswered.At(lane)[1..])
    ensures OwedOk(n, lane)
  {
  }

  lemma ReadTargets(s: State, lane: Lane)
    requires GateOk(s, lane) && HooksOk(s) && CallsOk(s)
    ensures forall t | t in Targets(s, lane) :: t < |s.calls| && Holds(s.calls[t]) && s.calls[t].acquired
    ensures forall t, u | t in Targets(s, lane) && u in Targets(s, lane) :: t == u
  {
    forall t | t in Targets(s, lane) ensures s.calls[t].acquired {
      assert CallOk(s.calls[t], s.stage);
    }
    forall t, u | t in Targets(s, lane) && u in Targets(s, lane) ensures t == u {
      OneHolder(s, lane, t, u);
    }
  }

  lemma ReadSerials(s: State, lane: Lane)
    requires SerialsOk(s) && Step(s, ReadResponse(lane)).Some?
    ensures SerialsOk(Step(s, ReadResponse(lane)).value)
  {
  }

  lemma ReadPreserves(s: State, lane: Lane)
    requires Inv(s) && Step(s, ReadResponse(lane)).Some?
    ensures Inv(Step(s, ReadResponse(lane)).value)
  {
    var n := Step(s, ReadResponse(lane)).value;
    assert GateOk(s, PingLane) && DebtOk(s, PingLane) && OrderOk(s, PingLane) && OwedOk(s, PingLane);
    assert GateOk(s, InfoLane) && DebtOk(s, InfoLane) && OrderOk(s, InfoLane) && OwedOk(s, InfoLane);
    ReadTargets(s, lane);
    ReadSerials(s, lane);
    OwedKept(s, n, PingLane);
    OwedKept(s, n, InfoLane);
    ReadLane(s, lane, PingLane);
    ReadLane(s, lane, InfoLane);
    assert n.calls == s.calls && n.stage == s.stage && n.reason == s.reason && n.handlers == s.handlers;
    assert CallsOk(n) && HooksOk(n) && ReasonOk(n);
  }

  lemma DeliverGate(s: State, t: nat, lane: Lane)
    requires Inv(s) && Step(s, Deliver(t)).Some?
    ensures GateOk(Step(s, Deliver(t)).value, lane)
  {
    var n := Step(s, Deliver(t)).value;
    assert GateOk(s, lane);
    SumUpdate(HoldersIn(lane), s.calls, t, n.calls[t]);
  }

  lemma DeliverDebt(s: State, t: nat, lane: Lane)
    requires Inv(s) && Step(s, Deliver(t)).Some?
    ensures DebtOk(Step(s, Deliver(t)).value, lane)
  {
    var n := Step(s, Deliver(t)).value;
    assert s.reader.targets - {t} == {};
    assert DebtOk(s, lane);
    SumUpdate(DebtIn(lane), s.calls, t, n.calls[t]);
    if Holds(s.calls[t]) { assert InFlight(s, s.reader.lane); }
  }

  lemma DeliverLane(s: State, t: nat, lane: Lane)
    requires Inv(s) && Step(s, Deliver(t)).Some?
    ensures var n := Step(s, Deliver(t)).value;
            GateOk(n, lane) && DebtOk(n, lane) && OrderOk(n, lane)
  {
    assert OrderOk(s, lane);
    DeliverGate(s, t, lane);
    DeliverDebt(s, t, lane);
  }

  lemma DeliverSerials(s: State, t: nat)
    requires ReaderOk(s) && SerialsOk(s) && Step(s, Deliver(t)).Some?
    ensures SerialsOk(Step(s, Deliver(t)).value)
  {
    var n := Step(s, Deliver(t)).value;
    assert s.reader.targets - {t} == {};
    assert forall k: nat :: Owns(n.calls[t], k) ==> Owns(s.calls[t], k) || k == s.reader.response.serial;
    assert forall i | 0 <= i < |s.calls| && i != t :: n.calls[i] == s.calls[i];
  }

  lemma DeliverCalls(s: State, t: nat)
    requires CallsOk(s) && HooksOk(s) && ReaderOk(s) && ReasonOk(s) && Step(s, Deliver(t)).Some?
    ensures var n := Step(s, Deliver(t)).value;
            CallsOk(n) && HooksOk(n) && ReaderOk(n) && ReasonOk(n)
  {
    assert CallOk(s.calls[t], s.stage);
  }

  lemma DeliverPreserves(s: State, t: nat)
    requires Inv(s) && Step(s, Deliver(t)).Some?
    ensures Inv(Step(s, Deliver(t)).value)
  {
    var n := Step(s, Deliver(t)).value;
    DeliverCalls(s, t);
    OwedKept(s, n, PingLane);
    OwedKept(s, n, InfoLane);
    DeliverLane(s, t, PingLane);
    DeliverLane(s, t, InfoLane);
    DeliverSerials(s, t);
  }

  lemma StepPreserves(s: State, a: Action)
    requires Inv(s) && Step(s, a).Some?
    ensures Inv(Step(s, a).value)
  {
    match a
    case Start(category) => StartPreserves(s, category);
    case BeginShutdown(actor) => BeginPreserves(s, actor);
    case FinishShutdown(actor) => FinishPreserves(s, actor);
    case CloseStep => StagePreserves(s, Step(s, a).value);
    case ReadResponse(lane) => ReadPreserves(s, lane);
    case Deliver(t) => DeliverPreserves(s, t);
    case Act(i, move) => CallerPreserves(s, move, i);
  }

  // Every run of the session keeps the invariant.
  lemma {:induction false} RunPreserves(s: State, actions: seq<Action>)
    requires Inv(s) && Run(s, actions).Some?
    ensures Inv(Run(s, actions).value)
    decreases |actions|
  {
    if actions == [] {
    } else {
      StepPreserves(s, actions[0]);
      RunPreserves(Step(s, actions[0]).value, actions[1..]);
    }
  }

  ghost predicate Reachable(s: State) {
    exists actions :: Run(INITIAL, actions) == Some(s)
  }

  lemma ReachableInv(s: State)
    requires Reachable(s)
    ensures Inv(s)
  {
    var actions :| Run(INITIAL, actions) == Some(s);
    RunPreserves(INITIAL, actions);
  }

  // ---------- Main results ----------

  // Serialization: each lane has exactly one token, in the gate or with a caller,
  // and at most one completion hook is registered for its message ID.
  lemma ProbesAreSerialized(s: State, lane: Lane)
    requires Reachable(s)
    ensures Sum(HoldersIn(lane), s.calls) + (if s.gate.At(lane) then 1 else 0) == 1
    ensures forall i, j | i in Targets(s, lane) && j in Targets(s, lane) :: i == j
    ensures forall i | i in Targets(s, lane) :: Holds(s.calls[i])
  {
    ReachableInv(s);
    forall i, j | i in Targets(s, lane) && j in Targets(s, lane) ensures i == j {
      OneHolder(s, lane, i, j);
    }
  }

  // Two calls that both succeeded consumed two different responses.
  lemma SuccessesConsumeDistinctResponses(s: State, i: nat, j: nat)
    requires Reachable(s) && i < j < |s.calls|
    requires Left(s.calls[i], Success) && Left(s.calls[j], Success)
    ensures s.calls[i].took.Some? && s.calls[j].took.Some?
    ensures s.calls[i].took.value.serial != s.calls[j].took.value.serial
  {
    ReachableInv(s);
    assert CallOk(s.calls[i], s.stage) && CallOk(s.calls[j], s.stage);
    assert Owns(s.calls[i], s.calls[i].took.value.serial);
  }

  // Exactly one of completion and expiry wins. A call that reports success owes no
  // shutdown, nor does its watchdog, and it is not why the client closed; an expired
  // verdict coexists with a closed client or with a shutdown still to return.
  lemma OneWinner(s: State, i: nat)
    requires Reachable(s) && i < |s.calls|
    ensures Left(s.calls[i], Success) ==>
      && s.calls[i].verdict == Completed && !ExpiryPending(s.calls[i]) && !s.calls[i].loopDue
      && s.reason != Some(Expiry(s.calls[i].category, i)) && s.reason != Some(LoopFailure(i))
    ensures s.calls[i].verdict == TimedOut ==>
      || s.stage == DoneClosed
      || Due(s, WatchdogOf(i)) == Some(Expiry(s.calls[i].category, i))
      || Due(s, Caller(i)) == Some(Expiry(s.calls[i].category, i))
  {
    ReachableInv(s);
    assert CallOk(s.calls[i], s.stage);
  }

  // Until done closes the peer owes at most one response to the current
  // holder, plus one for each expiry whose shutdown has not returned.
  lemma UnansweredIsBounded(s: State, lane: Lane)
    requires Reachable(s) && s.stage != DoneClosed
    ensures |s.unanswered.At(lane)| <= Sum(HeldDebtIn(lane), s.calls) + Sum(ExpiredIn(lane), s.calls)
    ensures Sum(HeldDebtIn(lane), s.calls) <= 1
  {
    ReachableInv(s);
    UnansweredBound(s, lane);
  }

  lemma UnansweredBound(s: State, lane: Lane)
    requires Inv(s) && s.stage != DoneClosed
    ensures |s.unanswered.At(lane)| <= Sum(HeldDebtIn(lane), s.calls) + Sum(ExpiredIn(lane), s.calls)
    ensures Sum(HeldDebtIn(lane), s.calls) <= 1
  {
    assert DebtOk(s, lane);
    DebtSplit(lane, s.calls);
    HeldDebtAtMostHolders(lane, s.calls);
    assert GateOk(s, lane);
  }

  lemma {:induction false} HeldDebtAtMostHolders(lane: Lane, calls: seq<Call>)
    ensures Sum(HeldDebtIn(lane), calls) <= Sum(HoldersIn(lane), calls)
  {
    if calls == [] {
    } else {
      HeldDebtAtMostHolders(lane, calls[1..]);
    }
  }

  // Attribution, one read: before done closes, and with no expiry pending, a response that
  // is read answers the request of the caller holding the gate, and reaches it alone.
  lemma ResponseBelongsToHolder(s: State, lane: Lane) returns (holder: nat)
    requires Inv(s) && s.stage != DoneClosed && Step(s, ReadResponse(lane)).Some?
    requires Sum(ExpiredIn(lane), s.calls) == 0
    ensures holder < |s.calls| && InDebt(s.calls[holder]) && LaneOf(s.calls[holder].category) == lane
    ensures s.unanswered.At(lane) == [holder] && Targets(s, lane) == {holder}
  {
    UnansweredBound(s, lane);
    holder := CountWitness(HeldDebtIn(lane), s.calls);
    assert OrderOk(s, lane) && GateOk(s, lane);
    assert CallOk(s.calls[holder], s.stage);
    CountMember(ExpiredIn(lane), s.calls, holder);
    assert Hooked(s.calls[holder]);
    forall t | t in Targets(s, lane) ensures t == holder { OneHolder(s, lane, t, holder); }
    assert HooksOk(s);
    assert holder in Targets(s, lane);
  }

  // The exact condition for one read: the response about to reach a hook answers that
  // caller's own request if and only if the caller is in debt and no other request is
  // outstanding.
  lemma ReadIsAttributedExactlyWhen(s: State, lane: Lane, target: nat)
    requires Reachable(s)
    requires Step(s, ReadResponse(lane)).Some? && target in Targets(s, lane)
    ensures Step(s, ReadResponse(lane)).value.reader.response.request == target
            <==> s.calls[target].sent && |s.unanswered.At(lane)| == 1
  {
    ReachableInv(s);
    assert OrderOk(s, lane) && HooksOk(s) && OwedOk(s, lane);
  }

  // The close reason is written by one shutdown and never changes after that; it is
  // final before done can be observed.
  lemma ReasonIsWrittenOnce(s: State, a: Action)
    requires Inv(s) && Step(s, a).Some? && s.stage != Open
    ensures Step(s, a).value.reason == s.reason && Step(s, a).value.stage != Open
  {
  }

  lemma {:induction false} FirstShutdownWins(s: State, actions: seq<Action>)
    requires Reachable(s) && s.stage != Open && Run(s, actions).Some?
    ensures s.reason.Some?
    ensures Run(s, actions).value.reason == s.reason
    ensures Run(s, actions).value.stage != Open
  {
    ReachableInv(s);
    ReasonStays(s, actions);
  }

  lemma {:induction false} ReasonStays(s: State, actions: seq<Action>)
    requires Inv(s) && s.stage != Open && Run(s, actions).Some?
    ensures Run(s, actions).value.reason == s.reason && Run(s, actions).value.stage != Open
    decreases |actions|
  {
    if actions == [] {
    } else {
      StepPreserves(s, actions[0]);
      ReasonIsWrittenOnce(s, actions[0]);
      ReasonStays(Step(s, actions[0]).value, actions[1..]);
    }
  }

  // CloseReason, which an observer of done reads: nil exactly when Close won.
  predicate IsKeepaliveReason(reason: Reason) {
    reason.LoopFailure? || (reason.Expiry? && reason.category == Keepalive)
  }

  // A keepalive close reason means a keepalive probe really held the gate.
  lemma KeepaliveReasonHadTheGate(s: State) returns (probe: nat)
    requires Reachable(s) && s.reason.Some? && IsKeepaliveReason(s.reason.value)
    ensures probe < |s.calls| && s.calls[probe].category == Keepalive && s.calls[probe].acquired
    ensures !Left(s.calls[probe], Success) && !Left(s.calls[probe], NotStarted)
  {
    ReachableInv(s);
    probe := s.reason.value.call;
    assert CallOk(s.calls[probe], s.stage);
  }

  // ---------- Attribution over whole runs ----------

  ghost predicate NoneTimedOut(s: State, lane: Lane) {
    forall i | 0 <= i < |s.calls| && LaneOf(s.calls[i].category) == lane :: !s.calls[i].verdict.TimedOut?
  }

  predicate Own(c: Call, i: nat) {
    (c.slot.Some? ==> c.slot.value.request == i) && (c.took.Some? ==> c.took.value.request == i)
  }

  ghost predicate Attributed(s: State, lane: Lane) {
    && (forall i | 0 <= i < |s.calls| && LaneOf(s.calls[i].category) == lane :: Own(s.calls[i], i))
    && (s.reader.Delivering? && s.reader.lane == lane ==>
          forall t | t in s.reader.targets :: s.reader.response.request == t)
  }

  ghost predicate AttributedUnlessTimedOut(s: State, lane: Lane) {
    s.stage != DoneClosed && NoneTimedOut(s, lane) ==> Attributed(s, lane)
  }

  lemma {:induction false} NothingPending(lane: Lane, calls: seq<Call>)
    requires forall i | 0 <= i < |calls| && LaneOf(calls[i].category) == lane :: !ExpiryPending(calls[i])
    ensures Sum(ExpiredIn(lane), calls) == 0
  {
    if calls == [] {
    } else {
      assert forall i | 0 <= i < |calls[1..]| :: calls[1..][i] == calls[i + 1];
      NothingPending(lane, calls[1..]);
    }
  }

  // No action of a caller brings in a response, and a verdict never stops being expired.
  lemma AdvanceOwn(c: Call, a: Move, token: bool, stage: Stage, i: nat)
    requires Advance(c, a, token, stage).Some?
    ensures var n := Advance(c, a, token, stage).value;
            && (Own(c, i) ==> Own(n, i))
            && (c.verdict.TimedOut? ==> n.verdict.TimedOut?)
            && n.category == c.category
  {
  }

  lemma CallerAttributed(s: State, a: Move, i: nat, lane: Lane)
    requires i < |s.calls| && CallerStep(s, a, i).Some? && AttributedUnlessTimedOut(s, lane)
    ensures AttributedUnlessTimedOut(CallerStep(s, a, i).value, lane)
  {
    var c := s.calls[i];
    var n := CallerStep(s, a, i).value;
    AdvanceOwn(c, a, s.gate.At(LaneOf(c.category)), s.stage, i);
    if NoneTimedOut(n, lane) {
      forall j | 0 <= j < |s.calls| && LaneOf(s.calls[j].category) == lane ensures !s.calls[j].verdict.TimedOut? {
        assert !n.calls[j].verdict.TimedOut?;
      }
    }
  }

  lemma ReadAttributed(s: State, read: Lane, lane: Lane)
    requires Inv(s) && Step(s, ReadResponse(read)).Some? && AttributedUnlessTimedOut(s, lane)
    ensures AttributedUnlessTimedOut(Step(s, ReadResponse(read)).value, lane)
  {
    if read == lane && s.stage != DoneClosed && NoneTimedOut(s, lane) {
      forall i | 0 <= i < |s.calls| && LaneOf(s.calls[i].category) == lane ensures !ExpiryPending(s.calls[i]) {
        assert CallOk(s.calls[i], s.stage);
      }
      NothingPending(lane, s.calls);
      var holder := ResponseBelongsToHolder(s, lane);
    }
  }

  lemma DeliverAttributed(s: State, t: nat, lane: Lane)
    requires Inv(s) && Step(s, Deliver(t)).Some? && AttributedUnlessTimedOut(s, lane)
    ensures AttributedUnlessTimedOut(Step(s, Deliver(t)).value, lane)
  {
    var n := Step(s, Deliver(t)).value;
    if NoneTimedOut(n, lane) {
      forall j | 0 <= j < |s.calls| && LaneOf(s.calls[j].category) == lane ensures !s.calls[j].verdict.TimedOut? {
        assert !n.calls[j].verdict.TimedOut?;
      }
    }
  }

  // The other actions change no verdict, no response and no request.
  lemma OtherAttributed(s: State, a: Action, lane: Lane)
    requires !a.Act? && !a.ReadResponse? && !a.Deliver?
    requires Inv(s) && Step(s, a).Some? && AttributedUnlessTimedOut(s, lane)
    ensures AttributedUnlessTimedOut(Step(s, a).value, lane)
  {
    var n := Step(s, a).value;
    if NoneTimedOut(n, lane) {
      forall j | 0 <= j < |s.calls| && LaneOf(s.calls[j].category) == lane ensures !s.calls[j].verdict.TimedOut? {
        assert !n.calls[j].verdict.TimedOut?;
      }
    }
  }

  lemma StepAttributed(s: State, a: Action, lane: Lane)
    requires Inv(s) && Step(s, a).Some? && AttributedUnlessTimedOut(s, lane)
    ensures AttributedUnlessTimedOut(Step(s, a).value, lane)
  {
    match a
    case Act(i, move) => CallerAttributed(s, move, i, lane);
    case ReadResponse(read) => ReadAttributed(s, read, lane);
    case Deliver(t) => DeliverAttributed(s, t, lane);
    case _ => OtherAttributed(s, a, lane);
  }

  lemma {:induction false} RunAttributed(s: State, actions: seq<Action>, lane: Lane)
    requires Inv(s) && AttributedUnlessTimedOut(s, lane) && Run(s, actions).Some?
    ensures AttributedUnlessTimedOut(Run(s, actions).value, lane)
    decreases |actions|
  {
    if actions == [] {
    } else {
      StepPreserves(s, actions[0]);
      StepAttributed(s, actions[0], lane);
      RunAttributed(Step(s, actions[0]).value, actions[1..], lane);
    }
  }

  // What is left of attribution once done is closed, when no further request is sent: the
  // calls that have sent theirs get their own response, even if others wait in vain.
  ghost predicate SentAttributed(s: State, lane: Lane) {
    NoneTimedOut(s, lane) ==> SendersOwn(s, lane) && OneOwedToSender(s, lane)
  }

  ghost predicate OneOwedToSender(s: State, lane: Lane) {
    forall i | 0 <= i < |s.calls| && LaneOf(s.calls[i].category) == lane && Holds(s.calls[i]) && s.calls[i].sent ::
      |s.unanswered.At(lane)| <= 1
  }

  lemma OpenOwesOne(s: State, lane: Lane)
    requires Inv(s) && s.stage != DoneClosed && NoneTimedOut(s, lane)
    ensures |s.unanswered.At(lane)| <= 1
  {
    forall i | 0 <= i < |s.calls| && LaneOf(s.calls[i].category) == lane ensures !ExpiryPending(s.calls[i]) {
      assert CallOk(s.calls[i], s.stage);
    }
    NothingPending(lane, s.calls);
    UnansweredBound(s, lane);
  }

  lemma EarlierNoneTimedOut(s: State, a: Action, lane: Lane)
    requires Step(s, a).Some? && NoneTimedOut(Step(s, a).value, lane)
    ensures NoneTimedOut(s, lane)
  {
    var n := Step(s, a).value;
    if a.Act? {
      AdvanceOwn(s.calls[a.call], a.move, s.gate.At(LaneOf(s.calls[a.call].category)), s.stage, a.call);
    }
    forall j | 0 <= j < |s.calls| && LaneOf(s.calls[j].category) == lane ensures !s.calls[j].verdict.TimedOut? {
      assert !n.calls[j].verdict.TimedOut?;
    }
  }

  // After the close nobody becomes a sender, and the requests owed only get fewer.
  lemma ClosedSends(s: State, a: Action, lane: Lane)
    requires CallsOk(s) && s.stage == DoneClosed && Step(s, a).Some? && OneOwedToSender(s, lane)
    ensures OneOwedToSender(Step(s, a).value, lane)
  {
    var n := Step(s, a).value;
    if a.Act? {
      assert CallOk(s.calls[a.call], s.stage);
      ClosedCaller(s, a.move, a.call);
    }
    assert |n.unanswered.At(lane)| <= |s.unanswered.At(lane)|;
    forall i | 0 <= i < |n.calls| && LaneOf(n.calls[i].category) == lane && Holds(n.calls[i]) && n.calls[i].sent
      ensures |n.unanswered.At(lane)| <= 1
    {
      assert i < |s.calls| && Holds(s.calls[i]) && s.calls[i].sent;
    }
  }

  lemma ClosedCaller(s: State, a: Move, i: nat)
    requires s.stage == DoneClosed && i < |s.calls| && CallerStep(s, a, i).Some? && ProgressOk(s.calls[i])
    ensures var n := CallerStep(s, a, i).value;
            && n.unanswered == s.unanswered && |n.calls| == |s.calls|
            && (n.calls[i].sent <==> s.calls[i].sent) && n.calls[i].category == s.calls[i].category
            && (n.calls[i].sent && Holds(n.calls[i]) ==> Holds(s.calls[i]))
            && forall j | 0 <= j < |s.calls| && j != i :: n.calls[j] == s.calls[j]
  {
  }

  // The two claims about responses, of the calls that have sent.
  ghost predicate SendersOwn(s: State, lane: Lane) {
    && (forall i | 0 <= i < |s.calls| && LaneOf(s.calls[i].category) == lane && s.calls[i].sent :: Own(s.calls[i], i))
    && (s.reader.Delivering? && s.reader.lane == lane ==>
          forall t | t in s.reader.targets && t < |s.calls| && s.calls[t].sent :: s.reader.response.request == t)
  }

  lemma SentCaller(s: State, a: Move, i: nat, lane: Lane)
    requires i < |s.calls| && CallerStep(s, a, i).Some? && SendersOwn(s, lane)
    requires s.stage != DoneClosed ==> Attributed(s, lane)
    ensures SendersOwn(CallerStep(s, a, i).value, lane)
  {
    var c := s.calls[i];
    AdvanceOwn(c, a, s.gate.At(LaneOf(c.category)), s.stage, i);
    SentBefore(s, a, i);
  }

  // Nothing but a send, which a closed client does not make, makes a call one that has sent.
  lemma SentBefore(s: State, a: Move, i: nat)
    requires i < |s.calls| && CallerStep(s, a, i).Some?
    ensures var n := CallerStep(s, a, i).value;
            && n.reader == s.reader && |n.calls| == |s.calls|
            && (n.calls[i].sent ==> s.calls[i].sent || (a.SendOk? && s.stage != DoneClosed))
            && forall j | 0 <= j < |s.calls| && j != i :: n.calls[j] == s.calls[j]
  {
  }

  lemma SentRead(s: State, read: Lane, lane: Lane)
    requires Inv(s) && Step(s, ReadResponse(read)).Some? && SendersOwn(s, lane) && OneOwedToSender(s, lane)
    ensures SendersOwn(Step(s, ReadResponse(read)).value, lane)
  {
    var n := Step(s, ReadResponse(read)).value;
    if read == lane && n.reader.Delivering? {
      forall t | t in n.reader.targets && s.calls[t].sent ensures n.reader.response.request == t {
        assert OrderOk(s, lane) && HooksOk(s);
        assert t in s.handlers && Hooked(s.calls[t]);
      }
    }
  }

  lemma SentDeliver(s: State, t: nat, lane: Lane)
    requires Step(s, Deliver(t)).Some? && SendersOwn(s, lane) && ReaderOk(s)
    ensures SendersOwn(Step(s, Deliver(t)).value, lane)
  {
  }

  lemma SentOther(s: State, a: Action, lane: Lane)
    requires !a.Act? && !a.ReadResponse? && !a.Deliver? && Step(s, a).Some? && SendersOwn(s, lane)
    ensures SendersOwn(Step(s, a).value, lane)
  {
  }

  lemma OneOwedStep(s: State, a: Action, lane: Lane)
    requires Inv(s) && Step(s, a).Some? && OneOwedToSender(s, lane) && NoneTimedOut(s, lane)
    requires NoneTimedOut(Step(s, a).value, lane)
    ensures OneOwedToSender(Step(s, a).value, lane)
  {
    var n := Step(s, a).value;
    StepPreserves(s, a);
    if n.stage != DoneClosed {
      OpenOwesOne(n, lane);
    } else if s.stage == DoneClosed {
      ClosedSends(s, a, lane);
    } else {
      OpenOwesOne(s, lane);
      assert a.CloseStep?;
    }
  }

  lemma SentStep(s: State, a: Action, lane: Lane)
    requires Inv(s) && Step(s, a).Some? && AttributedUnlessTimedOut(s, lane) && SentAttributed(s, lane)
    ensures SentAttributed(Step(s, a).value, lane)
  {
    var n := Step(s, a).value;
    if NoneTimedOut(n, lane) {
      EarlierNoneTimedOut(s, a, lane);
      OneOwedStep(s, a, lane);
      match a
      case Act(i, move) => SentCaller(s, move, i, lane);
      case ReadResponse(read) => SentRead(s, read, lane);
      case Deliver(t) => SentDeliver(s, t, lane);
      case _ => SentOther(s, a, lane);
    }
  }

  lemma {:induction false} RunSent(s: State, actions: seq<Action>, lane: Lane)
    requires Inv(s) && AttributedUnlessTimedOut(s, lane) && SentAttributed(s, lane) && Run(s, actions).Some?
    ensures SentAttributed(Run(s, actions).value, lane)
    decreases |actions|
  {
    if actions == [] {
    } else {
      StepPreserves(s, actions[0]);
      StepAttributed(s, actions[0], lane);
      SentStep(s, actions[0], lane);
      RunSent(Step(s, actions[0]).value, actions[1..], lane);
    }
  }

  // Over every run in which no exchange of the lane has expired, before and after the
  // client closes, a caller that succeeded consumed the response to its own request.
  lemma SuccessConsumesItsOwnResponse(s: State, i: nat)
    requires Reachable(s) && i < |s.calls|
    requires NoneTimedOut(s, LaneOf(s.calls[i].category)) && Left(s.calls[i], Success)
    ensures s.calls[i].took.Some? && s.calls[i].took.value.request == i
  {
    ReachableInv(s);
    assert CallOk(s.calls[i], s.stage);
    var actions :| Run(INITIAL, actions) == Some(s);
    RunSent(INITIAL, actions, LaneOf(s.calls[i].category));
  }

  // The documentation of Ping says a late response can never satisfy a later probe.
  // It can, in the gap between the watchdog's verdict and its shutdown: here probe 1
  // succeeds on the response to probe 0.
  lemma Extend(s: State, a: Action) returns (n: State)
    requires Reachable(s) && Step(s, a).Some?
    ensures n == Step(s, a).value && Reachable(n)
  {
    n := Step(s, a).value;
    var actions :| Run(INITIAL, actions) == Some(s);
    RunAppend(INITIAL, actions, a);
  }

  lemma {:induction false} RunAppend(s: State, actions: seq<Action>, a: Action)
    requires Run(s, actions).Some?
    ensures Run(s, actions + [a]) == Step(Run(s, actions).value, a)
    decreases |actions|
  {
    if actions == [] {
      assert [a][1..] == [];
      assert actions + [a] == [a];
      if Step(s, a).Some? { assert Run(Step(s, a).value, []) == Some(Step(s, a).value); }
    } else {
      assert (actions + [a])[0] == actions[0] && (actions + [a])[1..] == actions[1..] + [a];
      RunAppend(Step(s, actions[0]).value, actions[1..], a);
    }
  }

  const HOLDING_PROBE := NewCall(Ping).(pc := Holding, acquired := true)
  const SENT_PROBE := Call(Ping, Awaiting, false, Armed, Undecided, true, true, None, None, false)
  const TIMED_OUT_PROBE := SENT_PROBE.(ended := true, watchdog := ShutdownDue, verdict := TimedOut)
  const UNGUARDED_PROBE := TIMED_OUT_PROBE.(pc := Unguarded(Expired))
  const EXPIRED_PROBE := TIMED_OUT_PROBE.(pc := Returned(Expired))

  lemma EnterProbe(s: State, i: nat) returns (n: State)
    requires Reachable(s) && i < |s.calls| && s.calls[i] == NewCall(Ping) && s.gate.ping && s.stage == Open
    ensures Reachable(n) && n == Put(s, i, HOLDING_PROBE).(gate := s.gate.(ping := false))
  {
    n := Extend(s, Act(i, CheckContext));
    n := Extend(n, Act(i, CheckDone));
    n := Extend(n, Act(i, Acquire));
    assert n.calls == s.calls[i := HOLDING_PROBE];
  }

  lemma SendProbe(s: State, i: nat) returns (n: State)
    requires Reachable(s) && i < |s.calls| && s.calls[i] == HOLDING_PROBE && s.stage == Open
    ensures Reachable(n)
    ensures n == Put(s, i, SENT_PROBE)
                 .(handlers := s.handlers + {i}, unanswered := s.unanswered.(ping := s.unanswered.ping + [i]))
  {
    n := Extend(s, Act(i, Register));
    n := Extend(n, Act(i, Install));
    n := Extend(n, Act(i, SendOk));
    assert n.calls == s.calls[i := SENT_PROBE];
  }

  // The context ends and the watchdog wins the verdict, stopping short of its shutdown.
  lemma TimeOutProbe(s: State, i: nat) returns (n: State)
    requires Reachable(s) && i < |s.calls| && s.calls[i] == SENT_PROBE
    ensures Reachable(n) && n == Put(s, i, TIMED_OUT_PROBE)
  {
    n := Extend(s, Act(i, EndContext));
    n := Extend(n, Act(i, WatchdogStart));
    n := Extend(n, Act(i, WatchdogSwap));
    assert n.calls == s.calls[i := TIMED_OUT_PROBE];
  }

  lemma LeaveProbe(s: State, i: nat) returns (n: State)
    requires Reachable(s) && i < |s.calls| && s.calls[i] == TIMED_OUT_PROBE
    ensures Reachable(n)
    ensures n == Put(s, i, EXPIRED_PROBE).(gate := s.gate.(ping := true), handlers := s.handlers - {i})
  {
    n := UnguardProbe(s, i);
    n := Extend(n, Act(i, RemoveHandler));
    n := Extend(n, Act(i, ReleaseGate));
    assert n.calls == s.calls[i := EXPIRED_PROBE];
  }

  lemma UnguardProbe(s: State, i: nat) returns (n: State)
    requires Reachable(s) && i < |s.calls| && s.calls[i] == TIMED_OUT_PROBE
    ensures Reachable(n) && n == Put(s, i, UNGUARDED_PROBE)
  {
    n := Extend(s, Act(i, Expire));
    n := Extend(n, Act(i, StopWatchdog));
    assert n.calls == s.calls[i := UNGUARDED_PROBE];
  }

  lemma ReceiveStale(s: State) returns (n: State)
    requires Reachable(s) && |s.calls| == 2 && s.calls[0] == EXPIRED_PROBE && s.calls[1] == SENT_PROBE
    requires s.handlers == {1} && s.reader == Idle && s.nextSerial == 0 && s.unanswered.ping == [0, 1]
    ensures Reachable(n) && |n.calls| == 2 && n.stage == s.stage
    ensures Left(n.calls[1], Success) && n.calls[1].took == Some(Response(0, 0))
  {
    assert Targets(s, PingLane) == {1};
    n := Extend(s, ReadResponse(PingLane));
    n := Extend(n, Deliver(1));
    n := AcceptStale(n);
  }

  lemma AcceptStale(s: State) returns (n: State)
    requires Reachable(s) && |s.calls| == 2 && s.calls[1] == SENT_PROBE.(slot := Some(Response(0, 0)))
    ensures Reachable(n) && |n.calls| == 2 && n.stage == s.stage
    ensures Left(n.calls[1], Success) && n.calls[1].took == Some(Response(0, 0))
  {
    n := Extend(s, Act(1, TakeResponse));
    n := Extend(n, Act(1, Decide));
  }

  lemma LateResponseCanSatisfyALaterProbe() returns (s: State)
    ensures Reachable(s) && s.stage == Open && |s.calls| == 2
    ensures Left(s.calls[1], Success) && s.calls[1].took == Some(Response(0, 0))
  {
    assert Run(INITIAL, []) == Some(INITIAL);
    s := Extend(INITIAL, Start(Ping));
    s := Extend(s, Start(Ping));
    s := EnterProbe(s, 0);
    s := SendProbe(s, 0);
    s := TimeOutProbe(s, 0);
    s := LeaveProbe(s, 0);
    s := EnterProbe(s, 1);
    s := SendProbe(s, 1);
    s := ReceiveStale(s);
  }
}
