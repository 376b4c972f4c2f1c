// The life of a simulated device: starting sessions, their exit, dropping connections and
// Close, simulator/simulator.go. Each step is one critical section or one atomic action;
// starting a session or a listener checks for closure and commits in two steps under the
// device lock, because closing the done channel does not take that lock.
module Lifecycle {
  import opened Common

  const MAX_CONNECTIONS := 64
  const MAX_LISTENERS := 8

  datatype Phase =
    | Serving
    | Leaving        // its connection is closed, its bookkeeping still to do
    | Left           // out of the books, the wait group not yet told
    | Gone

  datatype Closer = NotClosing | DoneClosed | AllClosed | Waited | Finished

  // Who is between its check and its commit.
  datatype Lock = Free | ForStart | ForListener

  // A session task and its connection share a number.
  datatype Device = Device(
    lock: Lock,
    done: bool,
    connections: set<nat>,
    dropping: set<nat>,          // removed by DropConnections, to be closed
    closed: set<nat>,            // connections that have been closed
    listeners: set<nat>,
    closedListeners: set<nat>,
    sessionTasks: int,
    waitGroup: int,
    tasks: map<nat, Phase>,
    closer: Closer,
    commandsClosed: bool)

  datatype Start = Check | Commit(connection: nat)
  datatype Listen = CheckListen | CommitListen(listener: nat) | Unlisten(listener: nat)
  datatype Move = Record | Quit | Leave | Tell
  datatype Closing = CloseDone | CloseAll | Wait | CloseCommands
  datatype Action =
    | Starting(start: Start)
    | Task(task: nat, move: Move)
    | Listening(listen: Listen)
    | Drop
    | CloseDropped(connection: nat)
    | Close(closing: Closing)

  const FRESH := Device(Free, false, {}, {}, {}, {}, {}, 0, 0, map[], NotClosing, false)

  // startConnection; a refusal only releases the lock.
  function StartStep(d: Device, start: Start): Option<Device> {
    match start
    case Check => if !d.lock.Free? then None else Some(d.(lock := if d.done then Free else ForStart))
    case Commit(c) =>
      if !d.lock.ForStart? || c in d.tasks then None
      else if d.sessionTasks >= MAX_CONNECTIONS then Some(d.(lock := Free))
      else Some(d.(lock := Free, connections := d.connections + {c}, sessionTasks := d.sessionTasks + 1,
                   waitGroup := d.waitGroup + 1, tasks := d.tasks[c := Serving]))
  }

  // Serve, which registers its listener like a start and removes it when it returns.
  function ListenStep(d: Device, listen: Listen): Option<Device> {
    match listen
    case CheckListen => if !d.lock.Free? then None else Some(d.(lock := if d.done then Free else ForListener))
    case CommitListen(l) =>
      if !d.lock.ForListener? || l in d.listeners || l in d.closedListeners then None
      else if |d.listeners| >= MAX_LISTENERS then Some(d.(lock := Free))
      else Some(d.(lock := Free, listeners := d.listeners + {l}))
    case Unlisten(l) =>
      if !d.lock.Free? || l !in d.listeners then None
      else Some(d.(listeners := d.listeners - {l}, closedListeners := d.closedListeners + {l}))
  }

  // A task that serves may record a command, which sends on the commands channel; when it
  // ends it runs the deferred steps of serve.
  function TaskStep(d: Device, t: nat, move: Move): Option<Device> {
    if t !in d.tasks then None
    else
      match move
      case Record => if d.tasks[t].Serving? then Some(d) else None
      case Quit =>
        if d.tasks[t].Serving? then Some(d.(tasks := d.tasks[t := Leaving], closed := d.closed + {t})) else None
      case Leave =>
        if d.tasks[t].Leaving? && d.lock.Free?
        then Some(d.(tasks := d.tasks[t := Left], connections := d.connections - {t},
                     sessionTasks := d.sessionTasks - 1))
        else None
      case Tell =>
        if d.tasks[t].Left? then Some(d.(tasks := d.tasks[t := Gone], waitGroup := d.waitGroup - 1)) else None
  }

  // Close runs once; only its second step takes the lock.
  function CloseStep(d: Device, closing: Closing): Option<Device> {
    match closing
    case CloseDone => if d.closer.NotClosing? then Some(d.(done := true, closer := DoneClosed)) else None
    case CloseAll =>
      if d.closer.DoneClosed? && d.lock.Free?
      then Some(d.(closer := AllClosed, closed := d.closed + d.connections,
                   closedListeners := d.closedListeners + d.listeners))
      else None
    case Wait => if d.closer.AllClosed? && d.waitGroup == 0 then Some(d.(closer := Waited)) else None
    case CloseCommands => if d.closer.Waited? then Some(d.(closer := Finished, commandsClosed := true)) else None
  }

  function Step(d: Device, a: Action): Option<Device> {
    match a
    case Starting(start) => StartStep(d, start)
    case Task(t, move) => TaskStep(d, t, move)
    case Listening(listen) => ListenStep(d, listen)
    case Drop =>
      if !d.lock.Free? then None else Some(d.(connections := {}, dropping := d.dropping + d.connections))
    case CloseDropped(c) =>
      if c in d.dropping then Some(d.(dropping := d.dropping - {c}, closed := d.closed + {c})) else None
    case Close(closing) => CloseStep(d, closing)
  }

  function Run(d: Device, actions: seq<Action>): Option<Device>
    decreases |actions|
  {
    if actions == [] then Some(d)
    else
      match Run(d, actions[..|actions| - 1])
      case None => None
      case Some(before) => Step(before, actions[|actions| - 1])
  }

  // ---------- The invariant ----------

  // Session tasks still in the books, and those the wait group still counts.
  ghost function Booked(tasks: map<nat, Phase>): set<nat> {
    set t | t in tasks && (tasks[t].Serving? || tasks[t].Leaving?)
  }

  ghost function Running(tasks: map<nat, Phase>): set<nat> {
    set t | t in tasks && !tasks[t].Gone?
  }

  ghost predicate Counted(tasks: map<nat, Phase>, sessionTasks: int, waitGroup: int) {
    && sessionTasks == |Booked(tasks)|
    && waitGroup == |Running(tasks)|
  }

  // The lock is never held once Close has had it, so no start can be under way.
  predicate Ordered(closer: Closer, done: bool, lock: Lock, waitGroup: int, commandsClosed: bool) {
    && (done <==> !closer.NotClosing?)
    && (closer.AllClosed? || closer.Waited? || closer.Finished? ==> lock.Free?)
    && (closer.Waited? || closer.Finished? ==> waitGroup == 0)
    && (commandsClosed <==> closer.Finished?)
  }

  // A serving task's connection is known to whoever will close it.
  ghost predicate Reachable(tasks: map<nat, Phase>, connections: set<nat>, dropping: set<nat>, closed: set<nat>) {
    forall t | t in tasks && tasks[t].Serving? :: t in connections || t in dropping || t in closed
  }

  ghost predicate Sound(d: Device) {
    && Counted(d.tasks, d.sessionTasks, d.waitGroup)
    && d.sessionTasks <= MAX_CONNECTIONS
    && |d.listeners| <= MAX_LISTENERS
    && d.connections <= Booked(d.tasks)
    && Ordered(d.closer, d.done, d.lock, d.waitGroup, d.commandsClosed)
    && Reachable(d.tasks, d.connections, d.dropping, d.closed)
    && (d.closer.AllClosed? || d.closer.Waited? || d.closer.Finished? ==>
          d.connections <= d.closed && d.listeners <= d.closedListeners)
  }

  lemma CountOneMore(tasks: map<nat, Phase>, t: nat)
    requires t !in tasks
    ensures |Booked(tasks[t := Serving])| == |Booked(tasks)| + 1
    ensures |Running(tasks[t := Serving])| == |Running(tasks)| + 1
  {
    assert Booked(tasks[t := Serving]) == Booked(tasks) + {t};
    assert Running(tasks[t := Serving]) == Running(tasks) + {t};
  }

  lemma CountMove(tasks: map<nat, Phase>, t: nat, to: Phase)
    requires t in tasks
    requires match to
             case Serving => false
             case Leaving => tasks[t].Serving?
             case Left => tasks[t].Leaving?
             case Gone => tasks[t].Left?
    ensures Booked(tasks[t := to]) == if to.Left? then Booked(tasks) - {t} else Booked(tasks)
    ensures Running(tasks[t := to]) == if to.Gone? then Running(tasks) - {t} else Running(tasks)
    ensures |Booked(tasks[t := to])| == if to.Left? then |Booked(tasks)| - 1 else |Booked(tasks)|
    ensures |Running(tasks[t := to])| == if to.Gone? then |Running(tasks)| - 1 else |Running(tasks)|
  {
  }

  lemma StartSound(d: Device, start: Start)
    requires Sound(d) && StartStep(d, start).Some?
    ensures Sound(StartStep(d, start).value)
  {
    if start.Commit? {
      CountOneMore(d.tasks, start.connection);
      assert Booked(d.tasks) <= Booked(d.tasks[start.connection := Serving]);
    }
  }

  lemma TaskSound(d: Device, t: nat, move: Move)
    requires Sound(d) && TaskStep(d, t, move).Some?
    ensures Sound(TaskStep(d, t, move).value)
  {
    match move
    case Record =>
    case Quit => CountMove(d.tasks, t, Leaving);
    case Leave => CountMove(d.tasks, t, Left);
    case Tell =>
      CountMove(d.tasks, t, Gone);
      assert t in Running(d.tasks);
  }

  lemma ListenSound(d: Device, listen: Listen)
    requires Sound(d) && ListenStep(d, listen).Some?
    ensures Sound(ListenStep(d, listen).value)
  {
  }

  lemma CloseSound(d: Device, closing: Closing)
    requires Sound(d) && CloseStep(d, closing).Some?
    ensures Sound(CloseStep(d, closing).value)
  {
  }

  lemma DropSound(d: Device, a: Action)
    requires Sound(d) && (a.Drop? || a.CloseDropped?) && Step(d, a).Some?
    ensures Sound(Step(d, a).value)
  {
  }

  lemma StepSound(d: Device, a: Action)
    requires Sound(d) && Step(d, a).Some?
    ensures Sound(Step(d, a).value)
  {
    match a
    case Starting(start) => StartSound(d, start);
    case Task(t, move) => TaskSound(d, t, move);
    case Listening(listen) => ListenSound(d, listen);
    case Close(closing) => CloseSound(d, closing);
    case _ => DropSound(d, a);
  }

  lemma {:induction false} RunSound(actions: seq<Action>)
    requires Run(FRESH, actions).Some?
    ensures Sound(Run(FRESH, actions).value)
    decreases |actions|
  {
    if actions == [] {
      assert Booked(map[]) == {} && Running(map[]) == {};
    } else {
      RunSound(actions[..|actions| - 1]);
      StepSound(Run(FRESH, actions[..|actions| - 1]).value, actions[|actions| - 1]);
    }
  }

  // ---------- What every run satisfies ----------

  lemma {:induction false} ResourcesAreBounded(actions: seq<Action>)
    requires Run(FRESH, actions).Some?
    ensures var d := Run(FRESH, actions).value;
            |d.connections| <= d.sessionTasks <= MAX_CONNECTIONS && d.sessionTasks <= d.waitGroup
              && |d.listeners| <= MAX_LISTENERS
  {
    RunSound(actions);
    var d := Run(FRESH, actions).value;
    SubsetSize(d.connections, Booked(d.tasks));
    SubsetSize(Booked(d.tasks), Running(d.tasks));
  }

  lemma {:induction false} SubsetSize(a: set<nat>, b: set<nat>)
    requires a <= b
    ensures |a| <= |b|
    decreases |a|
  {
    if a == {} {
    } else {
      var x :| x in a;
      SubsetSize(a - {x}, b - {x});
    }
  }

  // No command is recorded on a closed channel: when the channel is closed, every task is
  // gone.
  lemma {:induction false} NoSendOnAClosedChannel(actions: seq<Action>)
    requires Run(FRESH, actions).Some? && Run(FRESH, actions).value.commandsClosed
    ensures var d := Run(FRESH, actions).value;
            && (forall t | t in d.tasks :: d.tasks[t].Gone?)
            && (forall t :: Step(d, Task(t, Record)) == None)
  {
    RunSound(actions);
    var d := Run(FRESH, actions).value;
    forall t | t in d.tasks
      ensures d.tasks[t].Gone?
    {
      assert t !in Running(d.tasks);
    }
  }

  // From the moment Close has closed everything, no session starts.
  lemma {:induction false} NothingStartsAfterClose(actions: seq<Action>, a: Action)
    requires Run(FRESH, actions).Some? && Step(Run(FRESH, actions).value, a).Some?
    requires var closer := Run(FRESH, actions).value.closer; closer.AllClosed? || closer.Waited? || closer.Finished?
    ensures var d := Run(FRESH, actions).value;
            var e := Step(d, a).value;
            e.tasks.Keys == d.tasks.Keys && e.lock.Free?
  {
    RunSound(actions);
  }

  // And nothing is left for a session to block on: its connection is closed, or
  // DropConnections has it and is about to close it; every listener is closed.
  lemma {:induction false} CloseReachesEverything(actions: seq<Action>)
    requires Run(FRESH, actions).Some?
    requires var closer := Run(FRESH, actions).value.closer; closer.AllClosed? || closer.Waited? || closer.Finished?
    ensures var d := Run(FRESH, actions).value;
            && (forall t | t in d.tasks && d.tasks[t].Serving? :: t in d.closed || t in d.dropping)
            && d.listeners <= d.closedListeners
  {
    RunSound(actions);
  }

  // The check for closure alone would not do: a start that passed it may still commit
  // after done is closed, and only the lock keeps Close from overtaking it.
  lemma StartMayCommitAfterDone()
    ensures var actions := [Starting(Check), Close(CloseDone), Starting(Commit(0))];
            && Run(FRESH, actions).Some?
            && Run(FRESH, actions).value.done
            && Run(FRESH, actions).value.sessionTasks == 1
            && Run(FRESH, [Starting(Check), Close(CloseDone), Close(CloseAll)]) == None
  {
    var d1 := FRESH.(lock := ForStart);
    var d2 := d1.(done := true, closer := DoneClosed);
    assert Run(FRESH, []) == Some(FRESH);
    assert [Starting(Check)][..0] == [];
    assert Run(FRESH, [Starting(Check)]) == Some(d1);
    assert [Starting(Check), Close(CloseDone)][..1] == [Starting(Check)];
    assert Run(FRESH, [Starting(Check), Close(CloseDone)]) == Some(d2);
    assert [Starting(Check), Close(CloseDone), Starting(Commit(0))][..2] == [Starting(Check), Close(CloseDone)];
    assert [Starting(Check), Close(CloseDone), Close(CloseAll)][..2] == [Starting(Check), Close(CloseDone)];
  }
}
