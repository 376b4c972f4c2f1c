// What the life cycle of simulator/simulator.go promises beyond its bounds: who is let in,
// that dropping and closing reach every connection, and that Close can always finish.
module LifecycleProgress {
  import opened Common
  import opened Lifecycle

  // ---------- Who is let in ----------

  // With the lock free, a connection becomes a session exactly if the device has not been
  // closed and serves fewer than 64; otherwise nothing changes.
  lemma StartsExactlyWhen(d: Device, connection: nat)
    requires d.lock.Free? && connection !in d.tasks
    ensures var checked := Step(d, Starting(Check));
            && checked.Some?
            && (d.done ==> checked == Some(d))
            && (!d.done ==>
                  Step(checked.value, Starting(Commit(connection))) ==
                  if d.sessionTasks >= 64 then Some(d)
                  else Some(d.(connections := d.connections + {connection}, sessionTasks := d.sessionTasks + 1,
                               waitGroup := d.waitGroup + 1, tasks := d.tasks[connection := Serving])))
  {
  }

  // And Serve registers its listener exactly if the device is open and has fewer than 8. When
  // it returns the place is free again.
  lemma ListensExactlyWhen(d: Device, listener: nat)
    requires d.lock.Free? && listener !in d.listeners && listener !in d.closedListeners
    ensures var checked := Step(d, Listening(CheckListen));
            && checked.Some?
            && (d.done ==> checked == Some(d))
            && (!d.done ==>
                  Step(checked.value, Listening(CommitListen(listener))) ==
                  if |d.listeners| >= 8 then Some(d) else Some(d.(listeners := d.listeners + {listener})))
    ensures var e := d.(listeners := d.listeners + {listener});
            Step(e, Listening(Unlisten(listener))) == Some(d.(closedListeners := d.closedListeners + {listener}))
  {
    assert (d.listeners + {listener}) - {listener} == d.listeners;
  }

  // While somebody holds the lock nobody else takes it, and nothing that it guards changes but
  // by the holder's commit.
  lemma LockIsExclusive(d: Device, a: Action)
    requires !d.lock.Free? && Step(d, a).Some?
    ensures var e := Step(d, a).value;
            || (d.lock.ForStart? && a.Starting? && a.start.Commit? && e.lock.Free? && e.listeners == d.listeners)
            || (d.lock.ForListener? && a.Listening? && a.listen.CommitListen? && e.lock.Free?
                && e.connections == d.connections && e.sessionTasks == d.sessionTasks)
            || (e.lock == d.lock && e.connections == d.connections && e.sessionTasks == d.sessionTasks
                && e.listeners == d.listeners)
  {
  }

  // ---------- Sessions ----------

  // A session records commands exactly while it serves.
  lemma RecordsExactlyWhileServing(d: Device, t: nat)
    ensures Step(d, Task(t, Record)) == if t in d.tasks && d.tasks[t].Serving? then Some(d) else None
  {
  }

  ghost predicate EndedAreClosed(d: Device) {
    forall t | t in d.tasks && !d.tasks[t].Serving? :: t in d.closed
  }

  lemma EndedStayClosed(d: Device, a: Action)
    requires EndedAreClosed(d) && Step(d, a).Some?
    ensures EndedAreClosed(Step(d, a).value)
  {
    match a
    case Starting(start) =>
    case Task(t, move) =>
    case Listening(listen) =>
    case Close(closing) =>
    case _ =>
  }

  // In every run a session that no longer serves has had its connection closed.
  lemma {:induction false} EndedSessionsAreClosed(actions: seq<Action>)
    requires Run(FRESH, actions).Some?
    ensures var d := Run(FRESH, actions).value;
            forall t | t in d.tasks && !d.tasks[t].Serving? :: t in d.closed
    decreases |actions|
  {
    if actions == [] {
    } else {
      EndedSessionsAreClosed(actions[..|actions| - 1]);
      EndedStayClosed(Run(FRESH, actions[..|actions| - 1]).value, actions[|actions| - 1]);
    }
  }

  // A connection is closed by the session it belongs to, by DropConnections, once it has been
  // taken out, or by Close.
  lemma ClosedOnlyBy(d: Device, a: Action, c: nat)
    requires Step(d, a).Some? && c !in d.closed && c in Step(d, a).value.closed
    ensures || (a == Task(c, Quit) && c in d.tasks && d.tasks[c].Serving?)
            || (a == CloseDropped(c) && c in d.dropping)
            || (a == Close(CloseAll) && c in d.connections && d.closer.DoneClosed?)
  {
  }

  // ---------- Dropping connections ----------

  // A connection that is dropped stays with DropConnections until it has been closed.
  ghost predicate BeingDropped(d: Device, dropped: set<nat>) {
    forall c | c in dropped :: c in d.dropping || c in d.closed
  }

  lemma DroppingGoesOn(d: Device, a: Action, dropped: set<nat>)
    requires BeingDropped(d, dropped) && Step(d, a).Some?
    ensures BeingDropped(Step(d, a).value, dropped)
  {
    match a
    case Starting(start) =>
    case Task(t, move) =>
    case Listening(listen) =>
    case Close(closing) =>
    case _ =>
  }

  lemma {:induction false} DroppedAreClosed(d: Device, actions: seq<Action>, dropped: set<nat>)
    requires BeingDropped(d, dropped) && Run(d, actions).Some?
    ensures BeingDropped(Run(d, actions).value, dropped)
    decreases |actions|
  {
    if actions == [] {
    } else {
      DroppedAreClosed(d, actions[..|actions| - 1], dropped);
      DroppingGoesOn(Run(d, actions[..|actions| - 1]).value, actions[|actions| - 1], dropped);
    }
  }

  // DropConnections takes every connection there is, and once it has got through its list
  // each of them has been closed, whatever happened meanwhile. Each can be closed at once.
  lemma DropClosesEveryConnection(d: Device, actions: seq<Action>)
    requires d.lock.Free? && (Step(d, Drop).Some? ==> Run(Step(d, Drop).value, actions).Some?)
    ensures Step(d, Drop).Some? && Step(d, Drop).value.connections == {}
    ensures var e := Run(Step(d, Drop).value, actions).value;
            && (forall c | c in d.connections && c !in e.closed :: Step(e, CloseDropped(c)).Some?)
            && (e.dropping == {} ==> d.connections <= e.closed)
  {
    DroppedAreClosed(Step(d, Drop).value, actions, d.connections);
  }

  // ---------- Close ----------

  lemma {:induction false} RunSplit(d: Device, a: seq<Action>, b: seq<Action>)
    ensures Run(d, a + b) == match Run(d, a) case None => None case Some(e) => Run(e, b)
    decreases |b|
  {
    if b == [] {
      assert a + b == a;
    } else {
      RunSplit(d, a, b[..|b| - 1]);
      assert (a + b)[..|a + b| - 1] == a + b[..|b| - 1];
    }
  }

  lemma FirstThenRest(d: Device, a: Action, rest: seq<Action>)
    requires Step(d, a).Some?
    ensures Run(d, [a] + rest) == Run(Step(d, a).value, rest)
  {
    assert [a][..0] == [] && Run(d, []) == Some(d);
    RunSplit(d, [a], rest);
  }

  lemma {:induction false} AboveAll(s: set<nat>) returns (n: nat)
    ensures forall x | x in s :: x < n
    decreases |s|
  {
    if s == {} {
      n := 0;
    } else {
      var x :| x in s;
      var m := AboveAll(s - {x});
      n := if m <= x then x + 1 else m;
      assert forall y | y in s :: y == x || y in s - {x};
    }
  }

  ghost function ServingOf(tasks: map<nat, Phase>): set<nat> {
    set t | t in tasks && tasks[t].Serving?
  }

  // What the tasks still have to do: a serving one three steps, a leaving one two, and one
  // that has left one.
  ghost function TaskSteps(d: Device): nat {
    |ServingOf(d.tasks)| + |Booked(d.tasks)| + |Running(d.tasks)|
  }

  function CloserSteps(closer: Closer): nat {
    match closer
    case NotClosing => 4
    case DoneClosed => 3
    case AllClosed => 2
    case Waited => 1
    case Finished => 0
  }

  // The steps of a device that is being closed: whoever holds the lock commits, connections
  // that were to be dropped are closed, tasks whose connection is closed end, and Close goes on.
  predicate Winds(d: Device, a: Action) {
    match a
    case Starting(start) => start.Commit?
    case Listening(listen) => listen.CommitListen?
    case CloseDropped(_) => true
    case Task(t, move) => if move.Quit? then t in d.closed else !move.Record?
    case Close(_) => true
    case Drop => false
  }

  predicate Unwinding(d: Device, actions: seq<Action>)
    decreases |actions|
  {
    actions != [] ==>
      Winds(d, actions[0]) && Step(d, actions[0]).Some? && Unwinding(Step(d, actions[0]).value, actions[1..])
  }

  function LockSteps(d: Device): nat {
    if d.lock.Free? then 0 else 1
  }

  ghost predicate Nearer(e: Device, d: Device) {
    || CloserSteps(e.closer) < CloserSteps(d.closer)
    || (e.closer == d.closer
        && (LockSteps(e) < LockSteps(d)
            || (LockSteps(e) == LockSteps(d)
                && (TaskSteps(e) < TaskSteps(d) || (TaskSteps(e) == TaskSteps(d) && |e.dropping| < |d.dropping|)))))
  }

  lemma LockIsReleased(d: Device) returns (a: Action)
    requires Sound(d) && d.closer.DoneClosed? && !d.lock.Free?
    ensures Winds(d, a) && Step(d, a).Some? && Nearer(Step(d, a).value, d)
    ensures Step(d, a).value.closer == d.closer
  {
    var connection := AboveAll(d.tasks.Keys);
    var listener := AboveAll(d.listeners + d.closedListeners);
    assert listener !in d.listeners && listener !in d.closedListeners;
    a := if d.lock.ForStart? then Starting(Commit(connection)) else Listening(CommitListen(listener));
  }

  lemma ServingMovesOn(d: Device, t: nat) returns (a: Action)
    requires Sound(d) && d.closer.AllClosed? && t in d.tasks && d.tasks[t].Serving?
    ensures Winds(d, a) && Step(d, a).Some? && Nearer(Step(d, a).value, d)
    ensures Step(d, a).value.closer == d.closer
  {
    if t in d.closed {
      a := Task(t, Quit);
      CountMove(d.tasks, t, Leaving);
      assert ServingOf(d.tasks[t := Leaving]) == ServingOf(d.tasks) - {t};
    } else {
      a := CloseDropped(t);
      assert t in d.dropping;
    }
  }

  lemma LeavingMovesOn(d: Device, t: nat)
    requires d.lock.Free? && t in d.tasks && d.tasks[t].Leaving?
    ensures Step(d, Task(t, Leave)).Some? && Nearer(Step(d, Task(t, Leave)).value, d)
  {
    CountMove(d.tasks, t, Left);
    assert ServingOf(d.tasks[t := Left]) == ServingOf(d.tasks);
  }

  lemma LeftMovesOn(d: Device, t: nat)
    requires t in d.tasks && d.tasks[t].Left?
    ensures Step(d, Task(t, Tell)).Some? && Nearer(Step(d, Task(t, Tell)).value, d)
  {
    CountMove(d.tasks, t, Gone);
    assert ServingOf(d.tasks[t := Gone]) == ServingOf(d.tasks);
  }

  lemma TaskMovesOn(d: Device, t: nat) returns (a: Action)
    requires Sound(d) && d.closer.AllClosed? && t in d.tasks && !d.tasks[t].Gone?
    ensures Winds(d, a) && Step(d, a).Some? && Nearer(Step(d, a).value, d)
    ensures Step(d, a).value.closer == d.closer
  {
    match d.tasks[t]
    case Serving =>
      a := ServingMovesOn(d, t);
    case Leaving =>
      a := Task(t, Leave);
      LeavingMovesOn(d, t);
    case Left =>
      a := Task(t, Tell);
      LeftMovesOn(d, t);
  }

  lemma ClosingMovesOn(d: Device) returns (a: Action)
    requires Sound(d) && !d.closer.NotClosing? && !d.closer.Finished?
    ensures Winds(d, a) && Step(d, a).Some? && Nearer(Step(d, a).value, d)
    ensures !Step(d, a).value.closer.NotClosing?
  {
    match d.closer
    case DoneClosed =>
      if d.lock.Free? { a := Close(CloseAll); } else { a := LockIsReleased(d); }
    case AllClosed =>
      if d.waitGroup == 0 {
        a := Close(Wait);
      } else {
        var t :| t in Running(d.tasks);
        a := TaskMovesOn(d, t);
      }
    case Waited => a := Close(CloseCommands);
  }

  // Close that has begun can always finish: whoever holds the lock only has to commit, and
  // every session only has to notice that its connection has been closed.
  lemma {:induction false} CloseCanFinish(d: Device) returns (actions: seq<Action>, e: Device)
    requires Sound(d) && !d.closer.NotClosing?
    ensures Run(d, actions) == Some(e) && Unwinding(d, actions)
    ensures e.closer.Finished? && e.commandsClosed && forall t | t in e.tasks :: e.tasks[t].Gone?
    decreases CloserSteps(d.closer), LockSteps(d), TaskSteps(d), |d.dropping|
  {
    if d.closer.Finished? {
      actions, e := [], d;
      forall t | t in e.tasks ensures e.tasks[t].Gone? { assert t !in Running(e.tasks); }
    } else {
      var a := ClosingMovesOn(d);
      StepSound(d, a);
      var rest, end := CloseCanFinish(Step(d, a).value);
      FirstThenRest(d, a, rest);
      assert ([a] + rest)[1..] == rest;
      actions, e := [a] + rest, end;
    }
  }
}
