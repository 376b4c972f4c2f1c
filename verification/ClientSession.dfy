// The probe protocol of client.go: Ping, the keepalive probe and DeviceInfo share
// one shape. A caller takes a one-token gate, registers a completion hook, installs
// a watchdog on its context, sends, and waits; a compare-and-swap verdict decides
// between completion and expiry; expiry must be followed by a shutdown.
//
// The goroutines (callers, watchdogs, the keepalive loop, the reader, the closer)
// are interleaved one atomic action at a time. Responses carry no correlation ID:
// the peer is assumed to answer every delivered request once, in order.
module ClientSession {
  import opened Common

  datatype Category = Ping | Keepalive | DeviceInfo

  // Each lane owns a gate, a message ID and the requests the peer still owes.
  datatype Lane = PingLane | InfoLane

  datatype PerLane<T> = PerLane(ping: T, info: T) {
    function At(lane: Lane): T {
      if lane == PingLane then ping else info
    }

    function With(lane: Lane, value: T): PerLane<T> {
      if lane == PingLane then this.(ping := value) else this.(info := value)
    }
  }

  datatype Outcome = Success | NotStarted | Closed | SendFailed | Expired

  datatype Verdict = Undecided | Completed | TimedOut

  // Where a caller stands inside probe or DeviceInfo.
  datatype Pc =
    | CheckingContext
    | CheckingDone
    | Waiting
    | Holding
    | Registered
    | Guarded
    | Awaiting
    | Responded
    | ShuttingDown
    | Leaving(outcome: Outcome)
    | Unguarded(outcome: Outcome)
    | Removed(outcome: Outcome)
    | Returned(outcome: Outcome)

  // The watchdog goroutine. ShutdownDue lies between winning the verdict and
  // calling shutdown.
  datatype Watchdog = NotInstalled | Armed | Started | ShutdownDue | Retired

  // A response as the peer meant it: a serial number, and the request it answers.
  // Neither is on the wire.
  datatype Response = Response(serial: nat, request: nat)

  datatype Call = Call(
    category: Category,
    pc: Pc,
    ended: bool,            // the context has ended
    watchdog: Watchdog,
    verdict: Verdict,
    acquired: bool,         // the gate was taken
    sent: bool,             // the request reached the peer
    slot: Option<Response>, // the buffered response channel
    took: Option<Response>, // the response the caller received from its channel
    loopDue: bool)          // the keepalive loop still has to shut the client down

  datatype Reason =
    | NilReason                          // Close
    | Expiry(category: Category, call: nat)
    | LoopFailure(call: nat)             // keepaliveLoop, always ErrKeepalive
    | External                           // reader, context or dispatcher

  // sync.Once around shutdown, field by field in the order it writes them.
  datatype Stage = Open | ReasonSet | Disconnected | FramerClosed | DoneClosed

  datatype Reader = Idle | Delivering(lane: Lane, response: Response, targets: set<nat>)

  datatype State = State(
    calls: seq<Call>,
    gate: PerLane<bool>,               // the token is in the channel
    handlers: set<nat>,                // registered completion hooks, by call
    unanswered: PerLane<seq<nat>>,     // delivered requests without a read response
    reader: Reader,
    nextSerial: nat,
    stage: Stage,
    reason: Option<Reason>)

  datatype Actor = Caller(call: nat) | WatchdogOf(call: nat) | LoopOf(call: nat) | Closer | Other

  // The steps of one caller and of its watchdog, in program order.
  datatype Move =
    | EndContext
    | CheckContext
    | CheckDone
    | GiveUpWaiting
    | SeeDoneWaiting
    | Acquire
    | Register
    | Install
    | SendOk
    | SendFail
    | TakeResponse
    | Decide
    | Expire
    | SeeDone
    | StopWatchdog
    | RemoveHandler
    | ReleaseGate
    | WatchdogStart
    | WatchdogSwap

  datatype Action =
    | Start(category: Category)
    | Act(call: nat, move: Move)
    | BeginShutdown(actor: Actor)
    | FinishShutdown(actor: Actor)
    | CloseStep
    | ReadResponse(lane: Lane)
    | Deliver(target: nat)

  function LaneOf(category: Category): Lane {
    if category == DeviceInfo then InfoLane else PingLane
  }

  const INITIAL := State([], PerLane(true, true), {}, PerLane([], []), Idle, 0, Open, None)

  function NewCall(category: Category): Call {
    Call(category, CheckingContext, false, NotInstalled, Undecided, false, false, None, None, false)
  }

  function Put(s: State, i: nat, c: Call): State
    requires i < |s.calls|
  {
    s.(calls := s.calls[i := c])
  }

  // A caller that leaves with an outcome after the gate: the keepalive loop turns
  // every failure it sees into a shutdown (keepaliveLoop), except "not started".
  function Return(c: Call, outcome: Outcome): Call {
    c.(pc := Returned(outcome),
       loopDue := c.category == Keepalive && outcome != Success && outcome != NotStarted)
  }

  // How one call changes. A caller reads the shared state only through whether its
  // gate holds the token and how far shutdown has progressed.
  function Advance(c: Call, a: Move, token: bool, stage: Stage): Option<Call> {
    match a
    case EndContext => Some(c.(ended := true))
    case CheckContext =>
      if !c.pc.CheckingContext? then None
      else Some(if c.ended then Return(c, NotStarted) else c.(pc := CheckingDone))
    case CheckDone =>
      if !c.pc.CheckingDone? then None
      else Some(if stage.DoneClosed? then Return(c, Closed) else c.(pc := Waiting))
    case GiveUpWaiting => if c.pc.Waiting? && c.ended then Some(Return(c, NotStarted)) else None
    case SeeDoneWaiting => if c.pc.Waiting? && stage.DoneClosed? then Some(Return(c, Closed)) else None
    case Acquire => if c.pc.Waiting? && token then Some(c.(pc := Holding, acquired := true)) else None
    case Register => if c.pc.Holding? then Some(c.(pc := Registered)) else None
    case Install => if c.pc.Registered? then Some(c.(pc := Guarded, watchdog := Armed)) else None
    case SendOk =>
      if !c.pc.Guarded? || stage.FramerClosed? || stage.DoneClosed? then None
      else Some(c.(pc := Awaiting, sent := true))
    case SendFail => if c.pc.Guarded? then Some(c.(pc := Leaving(SendFailed))) else None
    case TakeResponse =>
      if !c.pc.Awaiting? || c.slot.None? then None
      else Some(c.(pc := Responded, slot := None, took := c.slot))
    case Decide =>
      if !c.pc.Responded? then None
      else if c.verdict.Undecided? then Some(c.(pc := Leaving(Success), verdict := Completed))
      else Some(c.(pc := Leaving(Expired)))
    case Expire =>
      if !c.pc.Awaiting? || !c.ended then None
      else if c.verdict.Undecided? then Some(c.(pc := ShuttingDown, verdict := TimedOut))
      else Some(c.(pc := Leaving(Expired)))
    case SeeDone => if c.pc.Awaiting? && stage.DoneClosed? then Some(c.(pc := Leaving(Closed))) else None
    case StopWatchdog =>
      if !c.pc.Leaving? then None
      else Some(c.(pc := Unguarded(c.pc.outcome), watchdog := if c.watchdog.Armed? then Retired else c.watchdog))
    case RemoveHandler => if c.pc.Unguarded? then Some(c.(pc := Removed(c.pc.outcome))) else None
    case ReleaseGate => if c.pc.Removed? then Some(Return(c, c.pc.outcome)) else None
    case WatchdogStart => if c.watchdog.Armed? && c.ended then Some(c.(watchdog := Started)) else None
    case WatchdogSwap =>
      if !c.watchdog.Started? then None
      else if c.verdict.Undecided? then Some(c.(watchdog := ShutdownDue, verdict := TimedOut))
      else Some(c.(watchdog := Retired))
  }

  // The action of one caller, with what it does to the gate, to its own hook and to
  // the requests the peer has to answer.
  function CallerStep(s: State, a: Move, i: nat): Option<State>
    requires i < |s.calls|
  {
    var lane := LaneOf(s.calls[i].category);
    match Advance(s.calls[i], a, s.gate.At(lane), s.stage)
    case None => None
    case Some(c) => Some(s.(
      calls := s.calls[i := c],
      gate := if a.Acquire? then s.gate.With(lane, false)
              else if a.ReleaseGate? then s.gate.With(lane, true)
              else s.gate,
      handlers := if a.Register? then s.handlers + {i}
                  else if a.RemoveHandler? then s.handlers - {i}
                  else s.handlers,
      unanswered := if a.SendOk? then s.unanswered.With(lane, s.unanswered.At(lane) + [i]) else s.unanswered))
  }

  // Whether an actor is about to call shutdown, and with which reason.
  function Due(s: State, actor: Actor): Option<Reason> {
    match actor
    case Caller(i) =>
      if i < |s.calls| && s.calls[i].pc == ShuttingDown then Some(Expiry(s.calls[i].category, i)) else None
    case WatchdogOf(i) =>
      if i < |s.calls| && s.calls[i].watchdog == ShutdownDue then Some(Expiry(s.calls[i].category, i)) else None
    case LoopOf(i) =>
      if i < |s.calls| && s.calls[i].loopDue then Some(LoopFailure(i)) else None
    case Closer => Some(NilReason)
    case Other => Some(External)
  }

  // What the actor does once shutdown has returned to it.
  function Resume(s: State, actor: Actor): State
    requires Due(s, actor).Some?
  {
    match actor
    case Caller(i) => Put(s, i, s.calls[i].(pc := Leaving(Expired)))
    case WatchdogOf(i) => Put(s, i, s.calls[i].(watchdog := Retired))
    case LoopOf(i) => Put(s, i, s.calls[i].(loopDue := false))
    case Closer => s
    case Other => s
  }

  // The hooks deliverDirect copies under the handler lock for one message ID.
  function Targets(s: State, lane: Lane): (r: set<nat>) {
    set i | i in s.handlers && i < |s.calls| && LaneOf(s.calls[i].category) == lane
  }

  // One atomic action, or None where it is not enabled.
  function Step(s: State, a: Action): Option<State> {
    match a
    case Start(category) => Some(s.(calls := s.calls + [NewCall(category)]))
    case Act(i, move) => if i < |s.calls| then CallerStep(s, move, i) else None
    case BeginShutdown(actor) =>
      if s.stage != Open || Due(s, actor).None? then None
      else Some(s.(stage := ReasonSet, reason := Due(s, actor)))
    case FinishShutdown(actor) =>
      if s.stage != DoneClosed || Due(s, actor).None? then None else Some(Resume(s, actor))
    case CloseStep =>
      if s.stage == ReasonSet then Some(s.(stage := Disconnected))
      else if s.stage == Disconnected then Some(s.(stage := FramerClosed))
      else if s.stage == FramerClosed then Some(s.(stage := DoneClosed))
      else None
    case ReadResponse(lane) =>
      if !s.reader.Idle? || s.unanswered.At(lane) == [] then None
      else
        var rest := s.(unanswered := s.unanswered.With(lane, s.unanswered.At(lane)[1..]),
                       nextSerial := s.nextSerial + 1);
        Some(if Targets(s, lane) == {} then rest
             else rest.(reader := Delivering(lane, Response(s.nextSerial, s.unanswered.At(lane)[0]), Targets(s, lane))))
    case Deliver(t) =>
      if !s.reader.Delivering? || t !in s.reader.targets || t >= |s.calls| then None
      else
        var c := s.calls[t];
        var rest := s.reader.targets - {t};
        Some(Put(s, t, if c.slot.None? then c.(slot := Some(s.reader.response)) else c)
             .(reader := if rest == {} then Idle else s.reader.(targets := rest)))
  }

  function Run(s: State, actions: seq<Action>): Option<State>
    decreases |actions|
  {
    if actions == [] then Some(s)
    else match Step(s, actions[0])
         case None => None
         case Some(next) => Run(next, actions[1..])
  }
}
