// From the connection to the application, client.go: a reader that queues messages, a
// dispatcher that applies them to the registry and to the listing in progress, callers of
// ListEntities, and a shutdown that anyone may start. Each step is one atomic action of
// one of them; the bounded queue never makes the reader wait.
module Dispatch {
  import opened Common
  import opened Entities
  import opened EntityRegistry
  import opened Listing

  datatype Reason = QueueFull | ReadFailed | Closed | OtherFailure

  datatype Phase = Open | Reasoned(reason: Reason) | Done(reason: Reason)

  datatype Reader =
    | Reading
    | Offering(message: Message)
    | Failing(cause: Reason)
    | Stopping                       // in shutdown, until done is closed
    | Stopped

  datatype Dispatcher =
    | Top
    | Choosing                       // done was not closed a moment ago
    | Holding(message: Message)      // taken off the queue
    | Applying(message: Message)     // done was not closed after it was taken
    | Filing(message: Message)       // in the registry, not yet in the listing
    | Calling
    | Exited

  // How a ListEntities call goes on once it is registered.
  datatype Caller =
    | Registered                     // its request is still to be sent
    | Waiting
    | Deciding(outcome: Option<seq<Message>>)
    | Returned(outcome: Option<seq<Message>>)

  datatype Client = Client(
    capacity: nat,
    phase: Phase,
    reader: Reader,
    dispatcher: Dispatcher,
    queue: seq<Message>,
    read: seq<Message>,              // queueable messages read from the connection
    applied: seq<Message>,           // applied to the registry
    handled: seq<Message>,           // and passed to the listing
    refused: seq<Message>,           // read but not queued
    discarded: seq<Message>,         // taken off the queue but not applied
    overflowed: bool,
    lostRace: bool,                  // the reader's own shutdown came second
    slot: Slot,
    callers: map<nat, Caller>,
    requests: seq<nat>)              // listing requests sent, by call

  datatype ReaderMove = Read(message: Message) | ReadError | Enqueue | SeeDone | Overflow | Shut | Finish
  datatype DispatchMove = Check | Take | NoticeDone | CheckAgain | Apply | File | Called
  datatype CallerMove = Register | Send | Complete | Fail | Leave

  datatype Action =
    | ByReader(r: ReaderMove)
    | ByDispatcher(d: DispatchMove)
    | ByCaller(id: nat, c: CallerMove)
    | Shutdown(reason: Reason)
    | CloseDone

  function Initial(capacity: nat): Client {
    Client(capacity, Open, Reading, Top, [], [], [], [], [], [], false, false, EMPTY, map[], [])
  }

  // readLoop; with room in the queue and done closed either case may be taken, and a full
  // queue is only noticed while done is open.
  function ReaderStep(s: Client, move: ReaderMove): Option<Client> {
    match move
    case Read(m) => if s.reader.Reading? then Some(s.(reader := Offering(m), read := s.read + [m])) else None
    case ReadError => if s.reader.Reading? then Some(s.(reader := Failing(ReadFailed))) else None
    case Enqueue =>
      if s.reader.Offering? && |s.queue| < s.capacity
      then Some(s.(reader := Reading, queue := s.queue + [s.reader.message])) else None
    case SeeDone =>
      if s.reader.Offering? && s.phase.Done?
      then Some(s.(reader := Stopped, refused := [s.reader.message])) else None
    case Overflow =>
      if s.reader.Offering? && |s.queue| >= s.capacity && !s.phase.Done?
      then Some(s.(reader := Failing(QueueFull), refused := [s.reader.message], overflowed := true)) else None
    case Shut =>
      if !s.reader.Failing? then None
      else if s.phase.Open? then Some(s.(reader := Stopping, phase := Reasoned(s.reader.cause)))
      else Some(s.(reader := Stopping, lostRace := true))
    case Finish => if s.reader.Stopping? && s.phase.Done? then Some(s.(reader := Stopped)) else None
  }

  // dispatchLoop
  function DispatcherStep(s: Client, move: DispatchMove): Option<Client> {
    match move
    case Check => if s.dispatcher.Top? then Some(s.(dispatcher := if s.phase.Done? then Exited else Choosing)) else None
    case Take =>
      if s.dispatcher.Choosing? && s.queue != []
      then Some(s.(dispatcher := Holding(s.queue[0]), queue := s.queue[1..])) else None
    case NoticeDone =>
      if (s.dispatcher.Choosing? || s.dispatcher.Calling?) && s.phase.Done?
      then Some(s.(dispatcher := Exited)) else None
    case CheckAgain =>
      if !s.dispatcher.Holding? then None
      else if s.phase.Done? then Some(s.(dispatcher := Exited, discarded := [s.dispatcher.message]))
      else Some(s.(dispatcher := Applying(s.dispatcher.message)))
    case Apply =>
      if s.dispatcher.Applying?
      then Some(s.(dispatcher := Filing(s.dispatcher.message), applied := s.applied + [s.dispatcher.message])) else None
    case File =>
      if s.dispatcher.Filing?
      then Some(s.(dispatcher := Calling, handled := s.handled + [s.dispatcher.message],
                   slot := Handle(s.slot, s.dispatcher.message)))
      else None
    case Called => if s.dispatcher.Calling? then Some(s.(dispatcher := Top)) else None
  }

  // ListEntitiesWithTimeout; it may fail at any time, sending its request or when its
  // listing is complete already.
  function CallerStep(s: Client, id: nat, move: CallerMove): Option<Client> {
    match move
    case Register =>
      if id in s.callers then None
      else
        (match Begin(s.slot, id, |s.handled|)
         case None => None
         case Some(slot) => Some(s.(slot := slot, callers := s.callers[id := Registered])))
    case Send =>
      if id in s.callers && s.callers[id].Registered? && !s.phase.Done?
      then Some(s.(callers := s.callers[id := Waiting], requests := s.requests + [id])) else None
    case Complete =>
      if id in s.callers && s.callers[id].Waiting? && id in s.slot.all && s.slot.all[id].closes > 0
      then Some(s.(callers := s.callers[id := Deciding(Some(s.slot.all[id].messages))])) else None
    case Fail =>
      if id in s.callers && (s.callers[id].Registered? || s.callers[id].Waiting?)
      then Some(s.(callers := s.callers[id := Deciding(None)])) else None
    case Leave =>
      if id in s.callers && s.callers[id].Deciding?
      then Some(s.(callers := s.callers[id := Returned(s.callers[id].outcome)], slot := Release(s.slot, id))) else None
  }

  function Step(s: Client, a: Action): Option<Client> {
    match a
    case ByReader(r) => ReaderStep(s, r)
    case ByDispatcher(d) => DispatcherStep(s, d)
    case ByCaller(id, c) => CallerStep(s, id, c)
    case Shutdown(reason) => if s.phase.Open? then Some(s.(phase := Reasoned(reason))) else None
    case CloseDone => if s.phase.Reasoned? then Some(s.(phase := Done(s.phase.reason))) else None
  }

  function Run(s: Client, actions: seq<Action>): Option<Client>
    decreases |actions|
  {
    if actions == [] then Some(s)
    else
      match Run(s, actions[..|actions| - 1])
      case None => None
      case Some(before) => Step(before, actions[|actions| - 1])
  }

  // ---------- The invariant ----------

  function Held(d: Dispatcher): (r: seq<Message>) {
    match d
    case Holding(m) => [m]
    case Applying(m) => [m]
    case _ => []
  }

  function Offered(r: Reader): seq<Message> {
    if r.Offering? then [r.message] else []
  }

  // Where every message read is, in the order read.
  predicate Conserved(read: seq<Message>, applied: seq<Message>, dispatcher: Dispatcher, discarded: seq<Message>,
                      queue: seq<Message>, reader: Reader, refused: seq<Message>)
  {
    && read == applied + Held(dispatcher) + discarded + queue + Offered(reader) + refused
    && (discarded != [] ==> dispatcher.Exited?)
    && (refused != [] ==> reader.Failing? || reader.Stopping? || reader.Stopped?)
    && |discarded| <= 1 && |refused| <= 1
  }

  // Only a client that closes, or is closed, refuses or discards.
  predicate LossesClose(phase: Phase, reader: Reader, dispatcher: Dispatcher, refused: seq<Message>,
                        overflowed: bool, lostRace: bool) {
    && (refused != [] ==> overflowed || phase.Done?)
    && (reader.Stopped? || dispatcher.Exited? ==> phase.Done?)
    && (overflowed ==> reader == Failing(QueueFull) || reader.Stopping? || reader.Stopped?)
    && (reader.Stopping? ==> !phase.Open?)
    && (overflowed && (reader.Stopping? || reader.Stopped?) ==> !phase.Open? && (lostRace || phase.reason == QueueFull))
  }

  predicate Filed(applied: seq<Message>, handled: seq<Message>, dispatcher: Dispatcher) {
    applied == handled + (if dispatcher.Filing? then [dispatcher.message] else [])
  }

  // A call keeps the slot until its listing completes; a successful one has what
  // its completed listing held.
  ghost predicate CallersFit(callers: map<nat, Caller>, slot: Slot) {
    forall id | id in callers ::
      && id in slot.all
      && ((callers[id].Registered? || callers[id].Waiting?) && slot.all[id].closes == 0 ==> slot.current == Some(id))
      && (callers[id].Deciding? || callers[id].Returned? ==>
            (callers[id].outcome.Some? ==>
               slot.all[id].closes == 1 && callers[id].outcome.value == slot.all[id].messages))
  }

  ghost predicate Sound(s: Client) {
    && |s.queue| <= s.capacity
    && Conserved(s.read, s.applied, s.dispatcher, s.discarded, s.queue, s.reader, s.refused)
    && LossesClose(s.phase, s.reader, s.dispatcher, s.refused, s.overflowed, s.lostRace)
    && Filed(s.applied, s.handled, s.dispatcher)
    && Exact(s.slot, s.handled)
    && CallersFit(s.callers, s.slot)
  }

  lemma ReaderConserves(s: Client, move: ReaderMove)
    requires Conserved(s.read, s.applied, s.dispatcher, s.discarded, s.queue, s.reader, s.refused)
    requires |s.queue| <= s.capacity && ReaderStep(s, move).Some?
    ensures var t := ReaderStep(s, move).value;
            && Conserved(t.read, t.applied, t.dispatcher, t.discarded, t.queue, t.reader, t.refused)
            && |t.queue| <= t.capacity
  {
    var taken := s.applied + Held(s.dispatcher) + s.discarded;
    match move
    case Read(m) => assert taken + s.queue + [] + [] == taken + s.queue;
    case Enqueue =>
      var m := s.reader.message;
      assert taken + s.queue + [m] == taken + (s.queue + [m]) + [];
    case SeeDone => assert taken + s.queue + [s.reader.message] + [] == taken + s.queue + [] + [s.reader.message];
    case Overflow => assert taken + s.queue + [s.reader.message] + [] == taken + s.queue + [] + [s.reader.message];
    case _ =>
  }

  lemma ReaderLosses(s: Client, move: ReaderMove)
    requires LossesClose(s.phase, s.reader, s.dispatcher, s.refused, s.overflowed, s.lostRace)
    requires ReaderStep(s, move).Some?
    ensures var t := ReaderStep(s, move).value;
            LossesClose(t.phase, t.reader, t.dispatcher, t.refused, t.overflowed, t.lostRace)
  {
  }

  lemma ReaderLeavesTheRest(s: Client, move: ReaderMove)
    requires ReaderStep(s, move).Some?
    ensures var t := ReaderStep(s, move).value;
            && t.applied == s.applied && t.handled == s.handled && t.dispatcher == s.dispatcher
            && t.slot == s.slot && t.callers == s.callers
  {
  }

  lemma ReaderSound(s: Client, move: ReaderMove)
    requires Sound(s) && ReaderStep(s, move).Some?
    ensures Sound(ReaderStep(s, move).value)
  {
    ReaderConserves(s, move);
    ReaderLosses(s, move);
    ReaderLeavesTheRest(s, move);
  }

  lemma DispatcherConserves(s: Client, move: DispatchMove)
    requires Conserved(s.read, s.applied, s.dispatcher, s.discarded, s.queue, s.reader, s.refused)
    requires DispatcherStep(s, move).Some?
    ensures var t := DispatcherStep(s, move).value;
            Conserved(t.read, t.applied, t.dispatcher, t.discarded, t.queue, t.reader, t.refused)
  {
    match move
    case Take =>
      assert s.applied + [] + [] + s.queue == s.applied + [s.queue[0]] + [] + s.queue[1..];
    case CheckAgain =>
      if s.phase.Done? {
        var m := s.dispatcher.message;
        assert s.applied + [m] + [] == s.applied + [] + [m];
      }
    case Apply =>
      var m := s.dispatcher.message;
      assert s.applied + [m] == (s.applied + [m]) + [];
    case _ =>
  }

  lemma DispatcherLosses(s: Client, move: DispatchMove)
    requires LossesClose(s.phase, s.reader, s.dispatcher, s.refused, s.overflowed, s.lostRace)
    requires |s.queue| <= s.capacity && Filed(s.applied, s.handled, s.dispatcher) && DispatcherStep(s, move).Some?
    ensures var t := DispatcherStep(s, move).value;
            && LossesClose(t.phase, t.reader, t.dispatcher, t.refused, t.overflowed, t.lostRace)
            && |t.queue| <= t.capacity && Filed(t.applied, t.handled, t.dispatcher)
  {
  }

  lemma DispatcherLists(s: Client, move: DispatchMove)
    requires Exact(s.slot, s.handled) && CallersFit(s.callers, s.slot) && DispatcherStep(s, move).Some?
    ensures var t := DispatcherStep(s, move).value;
            Exact(t.slot, t.handled) && CallersFit(t.callers, t.slot)
  {
    if move.File? {
      HandleExact(s.slot, s.handled, s.dispatcher.message);
      HandleKeepsCompleted(s, s.dispatcher.message);
    }
  }

  lemma DispatcherSound(s: Client, move: DispatchMove)
    requires Sound(s) && DispatcherStep(s, move).Some?
    ensures Sound(DispatcherStep(s, move).value)
  {
    DispatcherConserves(s, move);
    DispatcherLosses(s, move);
    DispatcherLists(s, move);
  }

  lemma HandleKeepsCompleted(s: Client, m: Message)
    requires CallersFit(s.callers, s.slot) && Exact(s.slot, s.handled)
    ensures CallersFit(s.callers, Handle(s.slot, m))
  {
    forall id | id in s.callers && id in s.slot.all
      ensures id in Handle(s.slot, m).all
      ensures s.slot.all[id].closes == 1 ==> Handle(s.slot, m).all[id] == s.slot.all[id]
      ensures (s.callers[id].Registered? || s.callers[id].Waiting?) && Handle(s.slot, m).all[id].closes == 0
              ==> Handle(s.slot, m).current == Some(id)
    {
      assert Fits(s.slot.all[id], s.slot.current == Some(id), s.handled);
    }
  }

  lemma RegisterFits(callers: map<nat, Caller>, s: Slot, id: nat, handled: nat)
    requires CallersFit(callers, s) && Begin(s, id, handled).Some?
    ensures CallersFit(callers[id := Registered], Begin(s, id, handled).value)
  {
  }

  // A call that gives up or returns, and has nothing or what its listing held.
  lemma MoveOnFits(callers: map<nat, Caller>, s: Slot, id: nat, to: Caller)
    requires CallersFit(callers, s) && id in callers
    requires match to
             case Registered => false
             case Waiting => callers[id].Registered?
             case Deciding(outcome) => Outcome(s.all[id], outcome)
             case Returned(outcome) => Outcome(s.all[id], outcome)
    ensures CallersFit(callers[id := to], s)
  {
  }

  predicate Outcome(l: Listing, outcome: Option<seq<Message>>) {
    outcome.Some? ==> l.closes == 1 && outcome.value == l.messages
  }

  lemma ReleaseFits(callers: map<nat, Caller>, s: Slot, id: nat)
    requires CallersFit(callers, s) && id in callers && callers[id].Returned?
    ensures CallersFit(callers, Release(s, id))
  {
  }

  lemma CallerLists(s: Client, id: nat, move: CallerMove)
    requires Exact(s.slot, s.handled) && CallersFit(s.callers, s.slot) && CallerStep(s, id, move).Some?
    ensures var t := CallerStep(s, id, move).value;
            Exact(t.slot, t.handled) && CallersFit(t.callers, t.slot)
  {
    match move
    case Register =>
      BeginExact(s.slot, id, s.handled);
      RegisterFits(s.callers, s.slot, id, |s.handled|);
    case Complete =>
      assert Fits(s.slot.all[id], s.slot.current == Some(id), s.handled);
      MoveOnFits(s.callers, s.slot, id, Deciding(Some(s.slot.all[id].messages)));
    case Send => MoveOnFits(s.callers, s.slot, id, Waiting);
    case Fail => MoveOnFits(s.callers, s.slot, id, Deciding(None));
    case Leave =>
      var returned := Returned(s.callers[id].outcome);
      MoveOnFits(s.callers, s.slot, id, returned);
      ReleaseExact(s.slot, id, s.handled);
      ReleaseFits(s.callers[id := returned], s.slot, id);
  }

  lemma CallerLeavesTheRest(s: Client, id: nat, move: CallerMove)
    requires CallerStep(s, id, move).Some?
    ensures var t := CallerStep(s, id, move).value;
            t == s.(slot := t.slot, callers := t.callers, requests := t.requests)
  {
  }

  lemma CallerSound(s: Client, id: nat, move: CallerMove)
    requires Sound(s) && CallerStep(s, id, move).Some?
    ensures Sound(CallerStep(s, id, move).value)
  {
    CallerLists(s, id, move);
    CallerLeavesTheRest(s, id, move);
  }

  lemma StepSound(s: Client, a: Action)
    requires Sound(s) && Step(s, a).Some?
    ensures Sound(Step(s, a).value)
  {
    match a
    case ByReader(r) => ReaderSound(s, r);
    case ByDispatcher(d) => DispatcherSound(s, d);
    case ByCaller(id, c) => CallerSound(s, id, c);
    case _ =>
  }

  lemma {:induction false} RunSound(s: Client, actions: seq<Action>)
    requires Sound(s) && Run(s, actions).Some?
    ensures Sound(Run(s, actions).value)
    decreases |actions|
  {
    if actions == [] {
    } else {
      RunSound(s, actions[..|actions| - 1]);
      StepSound(Run(s, actions[..|actions| - 1]).value, actions[|actions| - 1]);
    }
  }

  lemma InitialSound(capacity: nat)
    ensures Sound(Initial(capacity))
  {
  }

  // ---------- What every run satisfies ----------

  // The registry gets the messages read in order, without a gap or a repetition; what it
  // has not got is in hand, queued, or the two messages that closing may cost.
  lemma {:induction false} AppliedIsAPrefixOfRead(capacity: nat, actions: seq<Action>)
    requires Run(Initial(capacity), actions).Some?
    ensures var s := Run(Initial(capacity), actions).value;
            && s.applied <= s.read
            && |s.queue| <= capacity
            && (!s.phase.Done? && !s.overflowed ==>
                  s.read == s.applied + Held(s.dispatcher) + s.queue + Offered(s.reader))
  {
    InitialSound(capacity);
    RunSound(Initial(capacity), actions);
    CapacityIsFixed(Initial(capacity), actions);
    var s := Run(Initial(capacity), actions).value;
    PrefixOfParts(s.applied, Held(s.dispatcher), s.discarded, s.queue, Offered(s.reader), s.refused);
  }

  lemma PrefixOfParts(a: seq<Message>, b: seq<Message>, c: seq<Message>, d: seq<Message>, e: seq<Message>,
                      f: seq<Message>)
    ensures a <= a + b + c + d + e + f
    ensures c == [] && f == [] ==> a + b + c + d + e + f == a + b + d + e
  {
    if c == [] { assert a + b + c == a + b; }
    if f == [] { assert a + b + c + d + e + f == a + b + c + d + e; }
  }

  lemma {:induction false} CapacityIsFixed(s: Client, actions: seq<Action>)
    requires Run(s, actions).Some?
    ensures Run(s, actions).value.capacity == s.capacity
    decreases |actions|
  {
    if actions == [] {
    } else {
      CapacityIsFixed(s, actions[..|actions| - 1]);
    }
  }

  // A message that found the queue full closes the client: with that reason, unless
  // another shutdown was there first.
  lemma {:induction false} OverflowCloses(capacity: nat, actions: seq<Action>)
    requires Run(Initial(capacity), actions).Some? && Run(Initial(capacity), actions).value.overflowed
    ensures var s := Run(Initial(capacity), actions).value;
            && (s.reader == Failing(QueueFull) || !s.phase.Open?)
            && (s.reader.Stopped? ==> s.phase.Done?)
            && (s.reader != Failing(QueueFull) && !s.lostRace ==> s.phase.reason == QueueFull)
  {
    InitialSound(capacity);
    RunSound(Initial(capacity), actions);
  }

  predicate InHand(d: Dispatcher) {
    d.Applying?
  }

  lemma StepAfterDone(s: Client, a: Action)
    requires s.phase.Done? && Step(s, a).Some?
    ensures var t := Step(s, a).value;
            && t.phase == s.phase
            && s.applied <= t.applied
            && |t.applied| + (if InHand(t.dispatcher) then 1 else 0)
               <= |s.applied| + (if InHand(s.dispatcher) then 1 else 0)
  {
  }

  // After done is closed, at most the one message already past both checks is applied.
  lemma {:induction false} AtMostOneAppliedAfterDone(s: Client, actions: seq<Action>)
    requires s.phase.Done? && Run(s, actions).Some?
    ensures var t := Run(s, actions).value;
            && t.phase == s.phase
            && s.applied <= t.applied
            && |t.applied| + (if InHand(t.dispatcher) then 1 else 0)
               <= |s.applied| + (if InHand(s.dispatcher) then 1 else 0)
    decreases |actions|
  {
    if actions == [] {
    } else {
      AtMostOneAppliedAfterDone(s, actions[..|actions| - 1]);
      StepAfterDone(Run(s, actions[..|actions| - 1]).value, actions[|actions| - 1]);
    }
  }

  // ---------- A reader that has given up ----------

  predicate GivenUp(r: Reader) {
    r.Failing? || r.Stopping? || r.Stopped?
  }

  lemma GivenUpStays(s: Client, a: Action)
    requires GivenUp(s.reader) && Step(s, a).Some?
    ensures var t := Step(s, a).value; GivenUp(t.reader) && t.read == s.read && |t.queue| <= |s.queue|
  {
    match a
    case ByReader(r) =>
    case ByDispatcher(d) =>
    case ByCaller(id, c) => CallerLeavesTheRest(s, id, c);
    case _ =>
  }

  // After a full queue or a failed read, nothing more is read or queued.
  lemma {:induction false} NothingIsReadAfterAFailure(s: Client, actions: seq<Action>)
    requires GivenUp(s.reader) && Run(s, actions).Some?
    ensures var t := Run(s, actions).value; GivenUp(t.reader) && t.read == s.read && |t.queue| <= |s.queue|
    decreases |actions|
  {
    if actions == [] {
    } else {
      NothingIsReadAfterAFailure(s, actions[..|actions| - 1]);
      GivenUpStays(Run(s, actions[..|actions| - 1]).value, actions[|actions| - 1]);
    }
  }

  // The reader then closes the client with its own cause, if nobody was faster, and only
  // once done is closed does it stop.
  lemma FailingReaderCloses(s: Client)
    requires s.reader.Failing? && s.phase.Open?
    ensures var t := Run(s, [ByReader(Shut), CloseDone, ByReader(Finish)]);
            t == Some(s.(reader := Stopped, phase := Done(s.reader.cause)))
    ensures forall r :: ReaderStep(s, r).Some? <==> r == Shut
    ensures Run(s, [ByReader(Shut), ByReader(Finish)]) == None
  {
    var shut, done := s.(reader := Stopping, phase := Reasoned(s.reader.cause)), Done(s.reader.cause);
    assert Run(s, []) == Some(s) && [ByReader(Shut)][..0] == [];
    assert Run(s, [ByReader(Shut)]) == Some(shut);
    assert [ByReader(Shut), CloseDone][..1] == [ByReader(Shut)];
    assert [ByReader(Shut), ByReader(Finish)][..1] == [ByReader(Shut)];
    assert Run(s, [ByReader(Shut), CloseDone]) == Some(shut.(phase := done));
    assert [ByReader(Shut), CloseDone, ByReader(Finish)][..2] == [ByReader(Shut), CloseDone];
  }

  // The reader is never made to wait: a message it offers is queued if there is room, and
  // overflows if there is none, unless done is closed, which it may notice instead.
  lemma ReaderNeverWaits(s: Client)
    requires s.reader.Offering?
    ensures ReaderStep(s, Enqueue).Some? <==> |s.queue| < s.capacity
    ensures ReaderStep(s, SeeDone).Some? <==> s.phase.Done?
    ensures ReaderStep(s, Overflow).Some? <==> |s.queue| >= s.capacity && !s.phase.Done?
    ensures ReaderStep(s, Enqueue).Some? || ReaderStep(s, SeeDone).Some? || ReaderStep(s, Overflow).Some?
  {
  }

  // ---------- Closing ends it all ----------

  function ReasonOf(p: Phase): Option<Reason> {
    if p.Open? then None else Some(p.reason)
  }

  lemma ReasonStaysOneStep(s: Client, a: Action)
    requires !s.phase.Open? && Step(s, a).Some?
    ensures ReasonOf(Step(s, a).value.phase) == ReasonOf(s.phase)
  {
    match a
    case ByReader(r) =>
    case ByDispatcher(d) =>
    case ByCaller(id, c) => CallerLeavesTheRest(s, id, c);
    case _ =>
  }

  // The first reason is the reason for good.
  lemma {:induction false} FirstReasonStays(s: Client, actions: seq<Action>)
    requires !s.phase.Open? && Run(s, actions).Some?
    ensures ReasonOf(Run(s, actions).value.phase) == ReasonOf(s.phase)
    decreases |actions|
  {
    if actions == [] {
    } else {
      FirstReasonStays(s, actions[..|actions| - 1]);
      ReasonStaysOneStep(Run(s, actions[..|actions| - 1]).value, actions[|actions| - 1]);
    }
  }

  // An open client can be closed by anyone, for the reason given and without any other effect.
  lemma AnyoneCanClose(s: Client, reason: Reason)
    requires s.phase.Open?
    ensures Run(s, [Shutdown(reason), CloseDone]) == Some(s.(phase := Done(reason)))
  {
    assert Run(s, []) == Some(s) && [Shutdown(reason)][..0] == [];
    assert Run(s, [Shutdown(reason)]) == Some(s.(phase := Reasoned(reason)));
    assert [Shutdown(reason), CloseDone][..1] == [Shutdown(reason)];
  }

  function ExitSteps(d: Dispatcher): nat {
    match d
    case Exited => 0
    case Applying(_) => 3
    case Filing(_) => 2
    case _ => 1
  }

  // Once done is closed the dispatcher can end by its own steps.
  lemma {:induction false} DispatcherCanExit(s: Client) returns (actions: seq<Action>, t: Client)
    requires s.phase.Done?
    ensures Run(s, actions) == Some(t) && t.dispatcher.Exited? && forall a | a in actions :: a.ByDispatcher?
    decreases ExitSteps(s.dispatcher)
  {
    if s.dispatcher.Exited? {
      actions, t := [], s;
    } else {
      var a := ByDispatcher(match s.dispatcher
                            case Top => Check
                            case Holding(_) => CheckAgain
                            case Applying(_) => Apply
                            case Filing(_) => File
                            case _ => NoticeDone);
      var rest, end := DispatcherCanExit(Step(s, a).value);
      FirstThenRest(s, a, rest);
      actions, t := [a] + rest, end;
    }
  }

  function StopSteps(r: Reader): nat {
    match r
    case Stopped => 0
    case Stopping => 1
    case Failing(_) => 2
    case Reading => 3
    case Offering(_) => 1
  }

  // And so can the reader, whose connection then only gives errors.
  lemma {:induction false} ReaderCanStop(s: Client) returns (actions: seq<Action>, t: Client)
    requires s.phase.Done?
    ensures Run(s, actions) == Some(t) && t.reader.Stopped? && t.read == s.read
    ensures forall a | a in actions :: a.ByReader?
    decreases StopSteps(s.reader)
  {
    if s.reader.Stopped? {
      actions, t := [], s;
    } else {
      var a := ByReader(match s.reader
                        case Reading => ReadError
                        case Offering(_) => SeeDone
                        case Failing(_) => Shut
                        case _ => Finish);
      var rest, end := ReaderCanStop(Step(s, a).value);
      FirstThenRest(s, a, rest);
      actions, t := [a] + rest, end;
    }
  }

  lemma FirstThenRest(s: Client, a: Action, rest: seq<Action>)
    requires Step(s, a).Some?
    ensures Run(s, [a] + rest) == Run(Step(s, a).value, rest)
  {
    RunSplit(s, [a], rest);
    assert [a][..0] == [] && Run(s, []) == Some(s);
  }

  // A listing call can give up at any time, and a call that leaves gives the slot up if it
  // still has it, and nobody else's.
  lemma CallsLeave(s: Client, id: nat)
    requires id in s.callers
    ensures s.callers[id].Registered? || s.callers[id].Waiting? ==>
              CallerStep(s, id, Fail) == Some(s.(callers := s.callers[id := Deciding(None)]))
    ensures s.callers[id].Deciding? ==>
              && CallerStep(s, id, Leave).Some?
              && var t := CallerStep(s, id, Leave).value;
                 && t.callers == s.callers[id := Returned(s.callers[id].outcome)] && t.slot.all == s.slot.all
                 && t.slot.current == (if s.slot.current == Some(id) then None else s.slot.current)
  {
  }

  // ---------- Everything read gets through ----------

  function Rank(d: Dispatcher): nat {
    match d
    case Top => 2
    case Choosing => 1
    case Holding(_) => 7
    case Applying(_) => 6
    case Filing(_) => 5
    case Calling => 3
    case Exited => 0
  }

  function Behind(s: Client): nat {
    Rank(s.dispatcher) + 10 * |s.queue| + (if s.reader.Offering? then 11 else 0)
  }

  predicate CaughtUp(s: Client) {
    s.dispatcher.Choosing? && s.queue == [] && !s.reader.Offering?
  }

  // What the dispatcher does next, or the reader with a message for the empty queue.
  function Onward(s: Client): Action {
    match s.dispatcher
    case Top => ByDispatcher(Check)
    case Choosing => if s.queue != [] then ByDispatcher(Take) else ByReader(Enqueue)
    case Holding(_) => ByDispatcher(CheckAgain)
    case Applying(_) => ByDispatcher(Apply)
    case Filing(_) => ByDispatcher(File)
    case _ => ByDispatcher(Called)
  }

  lemma OnwardHelps(s: Client)
    requires Sound(s) && s.capacity > 0 && !s.phase.Done? && !s.overflowed && !CaughtUp(s)
    ensures Step(s, Onward(s)).Some?
    ensures var t := Step(s, Onward(s)).value;
            && t.capacity == s.capacity && t.phase == s.phase && t.overflowed == s.overflowed && t.read == s.read
            && t.callers == s.callers && Behind(t) < Behind(s)
  {
  }

  lemma CaughtUpHasAll(s: Client)
    requires Sound(s) && !s.phase.Done? && !s.overflowed && CaughtUp(s)
    ensures s.applied == s.read && s.handled == s.read
  {
    PrefixOfParts(s.applied, Held(s.dispatcher), s.discarded, s.queue, Offered(s.reader), s.refused);
    assert s.applied + [] + [] + [] == s.applied;
  }

  predicate DeliversOnly(a: Action) {
    a.ByDispatcher? || a == ByReader(Enqueue)
  }

  // Until done closes, and unless the queue overflowed, everything read can still reach the
  // registry and the listing, by the steps of the dispatcher and what the reader has in hand.
  lemma {:induction false} EverythingReadCanBeApplied(s: Client) returns (actions: seq<Action>, t: Client)
    requires Sound(s) && s.capacity > 0 && !s.phase.Done? && !s.overflowed
    ensures Run(s, actions) == Some(t) && forall a | a in actions :: DeliversOnly(a)
    ensures t.applied == t.handled == s.read && t.callers == s.callers && t.phase == s.phase
    decreases Behind(s)
  {
    if CaughtUp(s) {
      CaughtUpHasAll(s);
      actions, t := [], s;
    } else {
      var a := Onward(s);
      OnwardHelps(s);
      StepSound(s, a);
      var rest, end := EverythingReadCanBeApplied(Step(s, a).value);
      FirstThenRest(s, a, rest);
      actions, t := [a] + rest, end;
    }
  }

  // ---------- Listings ----------

  lemma {:induction false} RunSplit(s: Client, a: seq<Action>, b: seq<Action>)
    ensures Run(s, a + b) == match Run(s, a) case None => None case Some(t) => Run(t, b)
    decreases |b|
  {
    if b == [] {
      assert a + b == a;
    } else {
      RunSplit(s, a, b[..|b| - 1]);
      assert (a + b)[..|a + b| - 1] == a + b[..|b| - 1];
    }
  }

  lemma StepKeepsStart(s: Client, a: Action, id: nat)
    requires Step(s, a).Some? && id in s.slot.all
    ensures var t := Step(s, a).value;
            id in t.slot.all && t.slot.all[id].start == s.slot.all[id].start && s.handled <= t.handled
  {
    match a
    case ByReader(r) => ReaderLeavesTheRest(s, r);
    case ByDispatcher(d) => DispatcherKeepsStart(s, d, id);
    case ByCaller(j, c) => CallerKeepsStart(s, j, c, id);
    case _ =>
  }

  lemma DispatcherKeepsStart(s: Client, move: DispatchMove, id: nat)
    requires DispatcherStep(s, move).Some? && id in s.slot.all
    ensures var t := DispatcherStep(s, move).value;
            id in t.slot.all && t.slot.all[id].start == s.slot.all[id].start && s.handled <= t.handled
  {
  }

  lemma CallerKeepsStart(s: Client, j: nat, move: CallerMove, id: nat)
    requires CallerStep(s, j, move).Some? && id in s.slot.all
    ensures var t := CallerStep(s, j, move).value;
            id in t.slot.all && t.slot.all[id].start == s.slot.all[id].start && s.handled == t.handled
  {
  }

  // A registered listing keeps its place for good.
  lemma {:induction false} StartStays(s: Client, actions: seq<Action>, id: nat)
    requires Run(s, actions).Some? && id in s.slot.all
    ensures var t := Run(s, actions).value;
            id in t.slot.all && t.slot.all[id].start == s.slot.all[id].start && s.handled <= t.handled
    decreases |actions|
  {
    if actions == [] {
    } else {
      StartStays(s, actions[..|actions| - 1], id);
      StepKeepsStart(Run(s, actions[..|actions| - 1]).value, actions[|actions| - 1], id);
    }
  }

  // Whatever other calls, time-outs and stray completions a run contains, a call that
  // succeeds returns the list entities applied between its registration and the next
  // completion, each completes at most once, and one still waiting can succeed exactly when
  // there has been such a completion.
  lemma {:induction false} ListingReturnsItsWindow(capacity: nat, before: seq<Action>, id: nat, after: seq<Action>)
    requires Run(Initial(capacity), before).Some?
    requires Step(Run(Initial(capacity), before).value, ByCaller(id, Register)).Some?
    requires Run(Step(Run(Initial(capacity), before).value, ByCaller(id, Register)).value, after).Some?
    ensures var s := Run(Initial(capacity), before).value;
            var t := Run(Step(s, ByCaller(id, Register)).value, after).value;
            var start := |s.handled|;
            && id in t.callers && id in t.slot.all && t.slot.all[id].closes <= 1
            && start <= |t.handled| && t.handled <= t.applied
            && (t.callers[id].Waiting? ==>
                  (CallerStep(t, id, Complete).Some? <==> NextDone(t.handled, start) < |t.handled|))
            && (t.callers[id].Returned? && t.callers[id].outcome.Some? ==>
                  var end := NextDone(t.applied, start);
                  && end < |t.applied|
                  && t.callers[id].outcome.value == ListEntities(t.applied[start..end])
                  && (exists at :: Selects(t.applied[start..end], t.callers[id].outcome.value, at))
                  && forall m :: m in t.callers[id].outcome.value
                       <==> m in t.applied[start..end] && (m.Listed? || m.ListedOther?))
  {
    InitialSound(capacity);
    var s := Run(Initial(capacity), before).value;
    RunSound(Initial(capacity), before);
    var registered := Step(s, ByCaller(id, Register)).value;
    StepSound(s, ByCaller(id, Register));
    RunSound(registered, after);
    StartStays(registered, after, id);
    CallerStays(registered, after, id);
    WindowIsReturned(Run(registered, after).value, id, |s.handled|);
  }

  lemma WindowIsReturned(t: Client, id: nat, start: nat)
    requires Sound(t) && id in t.callers && id in t.slot.all && t.slot.all[id].start == start
    ensures t.slot.all[id].closes <= 1 && start <= |t.handled| && t.handled <= t.applied
    ensures t.callers[id].Waiting? ==>
              (CallerStep(t, id, Complete).Some? <==> NextDone(t.handled, start) < |t.handled|)
    ensures t.callers[id].Returned? && t.callers[id].outcome.Some? ==>
              var end := NextDone(t.applied, start);
              && end < |t.applied|
              && t.callers[id].outcome.value == ListEntities(t.applied[start..end])
              && (exists at :: Selects(t.applied[start..end], t.callers[id].outcome.value, at))
              && forall m :: m in t.callers[id].outcome.value
                   <==> m in t.applied[start..end] && (m.Listed? || m.ListedOther?)
  {
    assert Fits(t.slot.all[id], t.slot.current == Some(id), t.handled);
    WindowInPrefix(t.handled, t.applied, start);
    var at := ListEntitiesSelects(t.applied[start..NextDone(t.applied, start)]);
  }

  lemma {:induction false} CallerStays(s: Client, actions: seq<Action>, id: nat)
    requires Run(s, actions).Some? && id in s.callers
    ensures id in Run(s, actions).value.callers
    decreases |actions|
  {
    if actions == [] {
    } else {
      CallerStays(s, actions[..|actions| - 1], id);
    }
  }

  lemma {:induction false} WindowInPrefix(handled: seq<Message>, applied: seq<Message>, start: nat)
    requires handled <= applied && start <= |handled|
    ensures var end := NextDone(handled, start);
            end < |handled| ==> NextDone(applied, start) == end && applied[start..end] == handled[start..end]
    decreases |handled| - start
  {
    if start == |handled| || handled[start].ListingDone? {
    } else {
      WindowInPrefix(handled, applied, start + 1);
    }
  }

  lemma {:induction false} NextDoneBounds(handled: seq<Message>, start: nat, k: nat)
    requires start <= k < |handled| && handled[k].ListingDone?
    ensures NextDone(handled, start) <= k
    decreases k - start
  {
    if start < k && !handled[start].ListingDone? { NextDoneBounds(handled, start + 1, k); }
  }

  // A waiting call whose completion has been read can return what was listed, by the steps
  // of the dispatcher and its own.
  lemma AnsweredListingCanReturn(s: Client, id: nat, k: nat) returns (actions: seq<Action>, t: Client)
    requires Sound(s) && s.capacity > 0 && !s.phase.Done? && !s.overflowed
    requires id in s.callers && s.callers[id].Waiting? && id in s.slot.all
    requires s.slot.all[id].start <= k < |s.read| && s.read[k].ListingDone?
    ensures Run(s, actions) == Some(t)
    ensures id in t.callers && t.callers[id].Returned? && t.callers[id].outcome.Some?
  {
    var delivered, u := EverythingReadCanBeApplied(s);
    RunSound(s, delivered);
    StartStays(s, delivered, id);
    NextDoneBounds(u.handled, u.slot.all[id].start, k);
    assert Fits(u.slot.all[id], u.slot.current == Some(id), u.handled);
    var back;
    back, t := CompletedCallReturns(u, id);
    RunSplit(s, delivered, back);
    actions := delivered + back;
  }

  lemma CompletedCallReturns(u: Client, id: nat) returns (back: seq<Action>, t: Client)
    requires id in u.callers && u.callers[id].Waiting? && Step(u, ByCaller(id, Complete)).Some?
    ensures Run(u, back) == Some(t)
    ensures id in t.callers && t.callers[id].Returned? && t.callers[id].outcome.Some?
  {
    back := [ByCaller(id, Complete), ByCaller(id, Leave)];
    var deciding := Step(u, ByCaller(id, Complete)).value;
    t := Step(deciding, ByCaller(id, Leave)).value;
    assert back[..1] == [ByCaller(id, Complete)] && back[..1][..0] == [] && Run(u, []) == Some(u);
  }

  // Every entity of a known family in such a result is already in the registry.
  lemma ListedEntitiesAreRegistered(applied: seq<Message>, start: nat, end: nat, d: Description)
    requires start <= end <= |applied|
    requires Listed(d) in ListEntities(applied[start..end])
    ensures EntryAfter(applied, d.identity).Some?
  {
    ListEntitiesAreThere(applied[start..end], Listed(d));
    var k :| 0 <= k < end - start && applied[start..end][k] == Listed(d);
    assert Lists(applied[start + k], d.identity);
  }

  lemma {:induction false} ListEntitiesAreThere(messages: seq<Message>, m: Message)
    requires m in ListEntities(messages)
    ensures m in messages && IsListEntity(m)
    decreases |messages|
  {
    var last := |messages| - 1;
    if m in ListEntities(messages[..last]) {
      ListEntitiesAreThere(messages[..last], m);
      assert m in messages[..last];
    } else {
      assert m == messages[last];
    }
  }
}
