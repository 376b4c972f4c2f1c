// WaitForCommandExpectations as it interleaves with arriving commands and with other
// waiters: simulator/command_expectations.go. The lock makes looking, giving up and
// recording single steps; sleeping on a channel and being cancelled happen between them.
module CommandWaiters {
  import opened Common
  import opened Expectations

  datatype Waiter =
    | Looking
    | Asleep(channel: nat)
    | GivingUp                                 // the context or the device is done
    | Returned(status: Status, seen: nat)      // with the number of commands seen by then

  datatype System<+C> = System(
    expectations: seq<Expectation<C>>,
    history: seq<Arrival<C>>,
    channel: nat,
    waiters: seq<Waiter>)

  datatype Move = Look | Wake | Cancel | Conclude

  datatype Action<+C> =
    | Arrive(arrival: Arrival<C>)
    | Call                                     // someone starts waiting
    | Move(waiter: nat, move: Move)

  function Initial<C>(es: seq<Expectation<C>>): System<C> {
    System(es, [], 0, [])
  }

  function MoveWaiter<C(==)>(s: System<C>, w: Waiter, move: Move): Option<Waiter> {
    match move
    case Look =>
      if !w.Looking? then None
      else if StatusOf(s.expectations, s.history).Pending? then Some(Asleep(s.channel))
      else Some(Returned(StatusOf(s.expectations, s.history), |s.history|))
    case Wake =>
      if w.Asleep? && w.channel < s.channel then Some(Looking) else None
    case Cancel =>
      if w.Asleep? then Some(GivingUp) else None
    case Conclude =>
      if w.GivingUp? then Some(Returned(StatusOnGivingUp(s.expectations, s.history), |s.history|)) else None
  }

  // None when the action is not possible in the state.
  function Step<C(==)>(s: System<C>, a: Action<C>): Option<System<C>> {
    match a
    case Arrive(arrival) => Some(s.(history := s.history + [arrival], channel := s.channel + 1))
    case Call => Some(s.(waiters := s.waiters + [Looking]))
    case Move(i, move) =>
      if i >= |s.waiters| then None
      else
        match MoveWaiter(s, s.waiters[i], move)
        case None => None
        case Some(w) => Some(s.(waiters := s.waiters[i := w]))
  }

  function Run<C(==)>(s: System<C>, actions: seq<Action<C>>): Option<System<C>>
    decreases |actions|
  {
    if actions == [] then Some(s)
    else
      match Run(s, actions[..|actions| - 1])
      case None => None
      case Some(before) => Step(before, actions[|actions| - 1])
  }

  // ---------- The invariant ----------

  ghost predicate WaiterFits<C>(es: seq<Expectation<C>>, history: seq<Arrival<C>>, w: Waiter) {
    match w
    case Asleep(channel) => channel <= |history| && StatusOf(es, history[..channel]) == Pending
    case Returned(status, seen) =>
      && seen <= |history|
      && !status.Pending?
      && (status == StatusOf(es, history[..seen]) || status == StatusOnGivingUp(es, history[..seen]))
    case _ => true
  }

  ghost predicate Consistent<C>(s: System<C>) {
    && s.channel == |s.history|
    && forall i | 0 <= i < |s.waiters| :: WaiterFits(s.expectations, s.history, s.waiters[i])
  }

  lemma StepConsistent<C>(s: System<C>, a: Action<C>)
    requires Consistent(s) && Step(s, a).Some?
    ensures Consistent(Step(s, a).value) && Step(s, a).value.expectations == s.expectations
  {
    var t := Step(s, a).value;
    forall i | 0 <= i < |t.waiters|
      ensures WaiterFits(t.expectations, t.history, t.waiters[i])
    {
      if a.Arrive? {
        assert WaiterFits(s.expectations, s.history, s.waiters[i]);
        assert forall k | 0 <= k <= |s.history| :: t.history[..k] == s.history[..k];
      } else {
        assert s.history[..|s.history|] == s.history;
      }
    }
  }

  lemma {:induction false} RunConsistent<C>(es: seq<Expectation<C>>, actions: seq<Action<C>>)
    requires Run(Initial(es), actions).Some?
    ensures Consistent(Run(Initial(es), actions).value)
    ensures Run(Initial(es), actions).value.expectations == es
    decreases |actions|
  {
    if actions == [] {
    } else {
      RunConsistent(es, actions[..|actions| - 1]);
      StepConsistent(Run(Initial(es), actions[..|actions| - 1]).value, actions[|actions| - 1]);
    }
  }

  // ---------- What every run satisfies ----------

  // A waiter whose channel is still open has missed nothing: the outcome is undecided.
  // So once it is decided, every sleeping waiter can wake up.
  lemma {:induction false} NoWaiterSleepsThroughTheOutcome<C>(es: seq<Expectation<C>>, actions: seq<Action<C>>, i: nat)
    requires Run(Initial(es), actions).Some?
    requires i < |Run(Initial(es), actions).value.waiters|
    requires Run(Initial(es), actions).value.waiters[i].Asleep?
    ensures var s := Run(Initial(es), actions).value;
            MoveWaiter(s, s.waiters[i], Wake) == None ==> StatusOf(es, s.history) == Pending
  {
    RunConsistent(es, actions);
    var s := Run(Initial(es), actions).value;
    assert WaiterFits(es, s.history, s.waiters[i]);
    assert s.history[..|s.history|] == s.history;
  }

  // A wait that returned nil did so when exactly the whole expanded list had arrived and
  // none of it was dropped.
  lemma {:induction false} SuccessMeansTheWholeList<C>(es: seq<Expectation<C>>, actions: seq<Action<C>>, i: nat)
    requires Run(Initial(es), actions).Some?
    requires i < |Run(Initial(es), actions).value.waiters|
    requires var w := Run(Initial(es), actions).value.waiters[i]; w.Returned? && w.status == Complete
    ensures var s := Run(Initial(es), actions).value;
            var seen := s.waiters[i].seen;
            && seen <= |s.history|
            && (es == [] || (Commands(s.history[..seen]) == Expand(es) && AllQueued(s.history[..seen])))
  {
    RunConsistent(es, actions);
    var s := Run(Initial(es), actions).value;
    assert WaiterFits(es, s.history, s.waiters[i]);
    CompleteExactlyOnTheWholeList(es, s.history[..s.waiters[i].seen]);
  }

  // An error other than a missing command is final: it is still what every later look
  // reports, so any two waiters that get one get the same.
  lemma {:induction false} ReportedErrorsAgree<C>(es: seq<Expectation<C>>, actions: seq<Action<C>>, i: nat, j: nat)
    requires Run(Initial(es), actions).Some?
    requires i < |Run(Initial(es), actions).value.waiters| && j < |Run(Initial(es), actions).value.waiters|
    requires var w := Run(Initial(es), actions).value.waiters[i];
             w.Returned? && w.status.Failing? && w.status.failure.code != Missing
    requires var w := Run(Initial(es), actions).value.waiters[j];
             w.Returned? && w.status.Failing? && w.status.failure.code != Missing
    ensures var s := Run(Initial(es), actions).value;
            s.waiters[i].status == s.waiters[j].status == StatusOf(es, s.history)
  {
    RunConsistent(es, actions);
    var s := Run(Initial(es), actions).value;
    assert WaiterFits(es, s.history, s.waiters[i]) && WaiterFits(es, s.history, s.waiters[j]);
    ErrorIsStillReported(es, s.history, s.waiters[i].seen);
    ErrorIsStillReported(es, s.history, s.waiters[j].seen);
  }

  lemma ErrorIsStillReported<C>(es: seq<Expectation<C>>, history: seq<Arrival<C>>, seen: nat)
    requires seen <= |history|
    ensures StatusOf(es, history[..seen]).Failing? ==> StatusOf(es, history) == StatusOf(es, history[..seen])
  {
    if Verdict(es, history[..seen]).Some? {
      VerdictIsSticky(es, history[..seen], history[seen..]);
      assert history[..seen] + history[seen..] == history;
    }
  }

  // A waiter that was told a command is missing had seen a proper beginning of the list.
  lemma {:induction false} MissingMeansAProperPrefix<C>(es: seq<Expectation<C>>, actions: seq<Action<C>>, i: nat)
    requires WellFormed(es) && Run(Initial(es), actions).Some?
    requires i < |Run(Initial(es), actions).value.waiters|
    requires var w := Run(Initial(es), actions).value.waiters[i];
             w.Returned? && w.status.Failing? && w.status.failure.code == Missing
    ensures var s := Run(Initial(es), actions).value;
            var seen := s.waiters[i].seen;
            && seen <= |s.history| && seen < |Expand(es)|
            && Commands(s.history[..seen]) == Expand(es)[..seen] && AllQueued(s.history[..seen])
  {
    RunConsistent(es, actions);
    var s := Run(Initial(es), actions).value;
    var seen := s.waiters[i].seen;
    assert WaiterFits(es, s.history, s.waiters[i]);
    MissingNamesThePlace(es, s.history[..seen]);
    NoVerdictIsMissing(es, s.history[..seen]);
  }

  lemma NoVerdictIsMissing<C>(es: seq<Expectation<C>>, history: seq<Arrival<C>>)
    ensures StatusOf(es, history).Failing? ==> StatusOf(es, history).failure.code != Missing
  {
  }

  // Once the outcome is decided, any waiter that has not returned or been cancelled returns
  // it, by its own steps.
  lemma DecidedOutcomeIsReturned<C>(s: System<C>, i: nat) returns (actions: seq<Action<C>>, t: System<C>)
    requires Consistent(s) && i < |s.waiters| && (s.waiters[i].Looking? || s.waiters[i].Asleep?)
    requires !StatusOf(s.expectations, s.history).Pending?
    ensures Run(s, actions) == Some(t) && forall a | a in actions :: a.Move? && a.waiter == i && !a.move.Cancel?
    ensures i < |t.waiters| && t.waiters[i] == Returned(StatusOf(s.expectations, s.history), |s.history|)
    ensures t.history == s.history
  {
    assert WaiterFits(s.expectations, s.history, s.waiters[i]);
    assert s.history[..|s.history|] == s.history;
    var look: Action<C> := Move(i, Look);
    assert Run(s, []) == Some(s) && [look][..0] == [];
    if s.waiters[i].Looking? {
      actions, t := [look], Step(s, look).value;
    } else {
      var wake: Action<C> := Move(i, Wake);
      var awake := Step(s, wake).value;
      assert [wake][..0] == [] && Run(s, [wake]) == Some(awake) && [wake, look][..1] == [wake];
      actions, t := [wake, look], Step(awake, look).value;
    }
  }

  // A sleeping waiter whose context ends returns what giving up says, by its own steps.
  lemma CancelledWaiterReturns<C>(s: System<C>, i: nat)
    requires i < |s.waiters| && s.waiters[i].Asleep?
    ensures var t := Run(s, [Move(i, Cancel), Move(i, Conclude)]);
            var returned := Returned(StatusOnGivingUp(s.expectations, s.history), |s.history|);
            t == Some(s.(waiters := s.waiters[i := returned]))
  {
    var cancel: Action<C>, conclude: Action<C> := Move(i, Cancel), Move(i, Conclude);
    var leaving := Step(s, cancel).value;
    assert Run(s, []) == Some(s) && [cancel][..0] == [];
    assert Run(s, [cancel]) == Some(leaving) && [cancel, conclude][..1] == [cancel];
    assert leaving == s.(waiters := s.waiters[i := GivingUp]);
    var returned := Returned(StatusOnGivingUp(s.expectations, s.history), |s.history|);
    assert leaving.waiters[i := returned] == s.waiters[i := returned];
    assert Step(leaving, conclude) == Some(leaving.(waiters := leaving.waiters[i := returned]));
  }

  // ---------- What can happen, and what cannot ----------

  // Commands arrive and waiters come at any time. A waiter looks once it is called or woken,
  // wakes only after something has arrived since it looked, and gives up only if cancelled
  // while asleep.
  lemma MovesExactlyWhen<C>(s: System<C>, i: nat, arrival: Arrival<C>)
    ensures Step(s, Arrive(arrival)) == Some(s.(history := s.history + [arrival], channel := s.channel + 1))
    ensures Step(s, Call) == Some(s.(waiters := s.waiters + [Looking]))
    ensures Step(s, Move(i, Look)).Some? <==> i < |s.waiters| && s.waiters[i].Looking?
    ensures Step(s, Move(i, Wake)).Some?
       <==> i < |s.waiters| && s.waiters[i].Asleep? && s.waiters[i].channel < s.channel
    ensures Step(s, Move(i, Cancel)).Some? <==> i < |s.waiters| && s.waiters[i].Asleep?
    ensures Step(s, Move(i, Conclude)).Some? <==> i < |s.waiters| && s.waiters[i].GivingUp?
  {
  }

  // What a waiter has returned is final.
  lemma {:induction false} ReturnedStays<C>(s: System<C>, actions: seq<Action<C>>, i: nat)
    requires i < |s.waiters| && s.waiters[i].Returned? && Run(s, actions).Some?
    ensures var t := Run(s, actions).value; i < |t.waiters| && t.waiters[i] == s.waiters[i]
    decreases |actions|
  {
    if actions == [] {
    } else {
      ReturnedStays(s, actions[..|actions| - 1], i);
    }
  }
}
