// The shaped connection of simulator/network.go: one-shot delay, fragment and coalesce
// flags, a bounded frame queue, and the counter that decides whether a frame is handed
// to the writer synchronously. The critical sections are functions of the connection;
// the sender, the writer and the stopper interleave between them.
module NetworkModel {
  import opened Common

  const QUEUE_SIZE := 64

  datatype NetworkAction = FragmentFrame | CoalesceSegments | DelayReply

  datatype Frame = Frame(
    segments: seq<seq<Byte>>,
    fragment: bool,
    coalesce: bool,
    delayTarget: nat,           // zero: not delayed
    asynchronous: bool,
    done: nat)                  // which completion channel the frame owns

  // The fields guarded by the connection's mutex, and its frame channel.
  datatype Conn = Conn(
    stopped: bool,
    fragmentNext: bool,
    coalesceNext: bool,
    delayNextTarget: nat,
    frameActive: bool,
    fragmentActive: bool,
    coalesceActive: bool,
    delayActive: nat,
    segments: seq<seq<Byte>>,
    asyncFrames: nat,
    frames: seq<Frame>,
    nextDone: nat)

  const IDLE_CONN := Conn(false, false, false, 0, false, false, false, 0, [], 0, [], 0)

  function Arm(c: Conn, action: NetworkAction, now: nat, delay: nat): Conn {
    match action
    case FragmentFrame => c.(fragmentNext := true)
    case CoalesceSegments => c.(coalesceNext := true)
    case DelayReply => c.(delayNextTarget := now + delay)
  }

  function BeginFrame(c: Conn): Conn {
    c.(frameActive := true,
       fragmentActive := c.fragmentNext, fragmentNext := false,
       coalesceActive := c.coalesceNext, coalesceNext := false,
       delayActive := c.delayNextTarget, delayNextTarget := 0,
       segments := [])
  }

  // The locked part of endFrame: the frame it builds, and the connection after it.
  function BuiltFrame(c: Conn): Frame {
    Frame(c.segments, c.fragmentActive, c.coalesceActive, c.delayActive,
          c.delayActive > 0 || c.asyncFrames > 0, c.nextDone)
  }

  function EndFrame(c: Conn): Conn {
    c.(asyncFrames := if BuiltFrame(c).asynchronous then c.asyncFrames + 1 else c.asyncFrames,
       frameActive := false, fragmentActive := false, coalesceActive := false, delayActive := 0,
       segments := [], nextDone := c.nextDone + 1)
  }

  datatype Enqueued = Accepted | RefusedClosed | RefusedFull

  function EnqueueOutcome(c: Conn): Enqueued {
    if c.stopped then RefusedClosed
    else if |c.frames| < QUEUE_SIZE then Accepted
    else RefusedFull
  }

  function Enqueue(c: Conn, frame: Frame): Conn {
    if EnqueueOutcome(c) == Accepted then c.(frames := c.frames + [frame]) else c
  }

  function FinishAsync(c: Conn, frame: Frame): Conn {
    if frame.asynchronous && c.asyncFrames > 0 then c.(asyncFrames := c.asyncFrames - 1) else c
  }

  // The payloads writeFrame passes to writeAll, in order.
  function Chunks(frame: Frame): seq<seq<Byte>> {
    if frame.coalesce then [Flatten(frame.segments)]
    else if frame.fragment then SingleBytes(Flatten(frame.segments))
    else frame.segments
  }

  function SingleBytes(bytes: seq<Byte>): (r: seq<seq<Byte>>) {
    seq(|bytes|, i requires 0 <= i < |bytes| => [bytes[i]])
  }

  // ---------- Threads ----------

  // Senders hold the session's write mutex across a frame, so there is one at a time.
  datatype Sender =
    | Resting
    | InFrame
    | Built(frame: Frame)        // endFrame's critical section done, not yet enqueued
    | Refused(frame: Frame, full: bool)   // the frame will not be sent
    | Overflowed                 // the queue was full: the connection must stop
    | Awaiting(done: nat)        // a synchronous frame is with the writer

  datatype Writer =
    | Ready
    | Delaying(frame: Frame)
    | Writing(frame: Frame, chunks: seq<seq<Byte>>)
    | Wrote(frame: Frame, failed: bool)        // writeFrame has returned
    | Signalled(frame: Frame, failed: bool)    // its done channel has been served
    | Failing
    | Exited

  datatype State = State(
    now: nat,
    conn: Conn,
    sender: Sender,
    writer: Writer,
    signals: set<nat>,           // completion channels holding a value
    accepted: seq<Frame>,        // every frame ever enqueued, in send order
    begun: nat,                  // how many of them the writer has taken
    out: seq<Byte>)              // bytes handed to the underlying connection

  const INITIAL := State(0, IDLE_CONN, Resting, Ready, {}, [], 0, [])

  datatype SenderOp =
    | Begin
    | Segment(payload: seq<Byte>)
    | End(framerFailed: bool)
    | Submit
    | GiveUp                     // a refused frame leaves the asynchronous count
    | StopOnOverflow
    | ReceiveDone
    | AbandonWait

  datatype WriterOp =
    | Dequeue
    | DelayOver
    | DelayStopped
    | WriteSome(count: nat)
    | WriteFails(count: nat)     // an error, possibly after some bytes
    | FinishWrite
    | SignalDone
    | FinishFrame
    | WriterStops
    | WriterExits

  datatype Action =
    | AdvanceClock(delta: nat)
    | ArmFault(action: NetworkAction, delay: nat)
    | Stop
    | Send(send: SenderOp)
    | Drive(drive: WriterOp)

  function SenderStep(s: State, a: SenderOp): Option<State> {
    match a
    case Begin =>
      if s.sender.Resting? then Some(s.(sender := InFrame, conn := BeginFrame(s.conn))) else None
    case Segment(payload) =>
      if !s.sender.InFrame? || s.conn.stopped then None
      else Some(s.(conn := s.conn.(segments := s.conn.segments + [payload])))
    case End(framerFailed) =>
      if !s.sender.InFrame? then None
      else
        var frame := BuiltFrame(s.conn);
        Some(s.(conn := EndFrame(s.conn), sender := if framerFailed then Refused(frame, false) else Built(frame)))
    case Submit =>
      if !s.sender.Built? then None
      else if EnqueueOutcome(s.conn) != Accepted then
        Some(s.(sender := Refused(s.sender.frame, EnqueueOutcome(s.conn) == RefusedFull)))
      else Some(s.(conn := Enqueue(s.conn, s.sender.frame),
                   accepted := s.accepted + [s.sender.frame],
                   sender := if s.sender.frame.asynchronous then Resting else Awaiting(s.sender.frame.done)))
    case GiveUp =>
      if !s.sender.Refused? then None
      else Some(s.(conn := FinishAsync(s.conn, s.sender.frame),
                   sender := if s.sender.full then Overflowed else Resting))
    case StopOnOverflow =>
      if s.sender.Overflowed? then Some(s.(conn := s.conn.(stopped := true), sender := Resting)) else None
    case ReceiveDone =>
      if s.sender.Awaiting? && s.sender.done in s.signals then Some(s.(sender := Resting)) else None
    case AbandonWait =>
      if s.sender.Awaiting? && s.conn.stopped then Some(s.(sender := Resting)) else None
  }

  function WriterStep(s: State, a: WriterOp): Option<State> {
    match a
    case Dequeue =>
      if !s.writer.Ready? || s.conn.frames == [] then None
      else
        var frame := s.conn.frames[0];
        Some(s.(conn := s.conn.(frames := s.conn.frames[1..]), begun := s.begun + 1,
                writer := if frame.delayTarget > 0 then Delaying(frame) else Writing(frame, Chunks(frame))))
    case DelayOver =>
      if s.writer.Delaying? && s.now >= s.writer.frame.delayTarget
      then Some(s.(writer := Writing(s.writer.frame, Chunks(s.writer.frame)))) else None
    case DelayStopped =>
      if s.writer.Delaying? && s.conn.stopped then Some(s.(writer := Wrote(s.writer.frame, true))) else None
    case WriteSome(count) =>
      if !s.writer.Writing? || s.writer.chunks == [] || count > |s.writer.chunks[0]| then None
      else if s.writer.chunks[0] != [] && count == 0 then None
      else
        var rest := s.writer.chunks[0][count..];
        Some(s.(out := s.out + s.writer.chunks[0][..count],
                writer := s.writer.(chunks := if rest == [] then s.writer.chunks[1..]
                                              else [rest] + s.writer.chunks[1..])))
    case WriteFails(count) =>
      if !s.writer.Writing? || s.writer.chunks == [] || count > |s.writer.chunks[0]| then None
      else Some(s.(out := s.out + s.writer.chunks[0][..count], writer := Wrote(s.writer.frame, true)))
    case FinishWrite =>
      if s.writer.Writing? && s.writer.chunks == [] then Some(s.(writer := Wrote(s.writer.frame, false))) else None
    case SignalDone =>
      if !s.writer.Wrote? then None
      else Some(s.(signals := if s.writer.frame.asynchronous then s.signals else s.signals + {s.writer.frame.done},
                   writer := Signalled(s.writer.frame, s.writer.failed)))
    case FinishFrame =>
      if !s.writer.Signalled? then None
      else Some(s.(conn := FinishAsync(s.conn, s.writer.frame),
                   writer := if s.writer.failed then Failing else Ready))
    case WriterStops =>
      if s.writer.Failing? then Some(s.(conn := s.conn.(stopped := true), writer := Exited)) else None
    case WriterExits =>
      if s.writer.Ready? && s.conn.stopped then Some(s.(writer := Exited)) else None
  }

  function Step(s: State, a: Action): Option<State> {
    match a
    case AdvanceClock(delta) => Some(s.(now := s.now + delta))
    case ArmFault(action, delay) => Some(s.(conn := Arm(s.conn, action, s.now, delay)))
    case Stop => Some(s.(conn := s.conn.(stopped := true)))
    case Send(send) => SenderStep(s, send)
    case Drive(drive) => WriterStep(s, drive)
  }

  function Run(s: State, actions: seq<Action>): Option<State>
    decreases |actions|
  {
    if actions == [] then Some(s)
    else match Step(s, actions[0])
         case None => None
         case Some(next) => Run(next, actions[1..])
  }
}
