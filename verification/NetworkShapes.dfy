// What arming a fault does to the frames of simulator/network.go: it shapes the next frame
// begun, as armed, and no other.
module NetworkShapes {
  import opened Common
  import opened NetworkModel
  import opened NetworkConn

  datatype Shape = Shape(fragment: bool, coalesce: bool, delayTarget: nat)

  const PLAIN := Shape(false, false, 0)

  function ShapeOf(f: Frame): Shape {
    Shape(f.fragment, f.coalesce, f.delayTarget)
  }

  // What the frame being collected will be, and what the next one is armed to be.
  function Active(c: Conn): Shape {
    Shape(c.fragmentActive, c.coalesceActive, c.delayActive)
  }

  function Armed(c: Conn): Shape {
    Shape(c.fragmentNext, c.coalesceNext, c.delayNextTarget)
  }

  predicate NoArming(actions: seq<Action>) {
    forall i | 0 <= i < |actions| :: !actions[i].ArmFault?
  }

  // The payloads written while a frame is collected.
  function Payloads(actions: seq<Action>): (r: seq<seq<Byte>>) {
    if actions == [] then []
    else (if actions[0].Send? && actions[0].send.Segment? then [actions[0].send.payload] else [])
         + Payloads(actions[1..])
  }

  // Between its begin and its end a frame keeps the shape it was armed with and collects
  // what is written, whatever else happens, arming the next frame included.
  lemma {:induction false} FrameIsBuiltAsArmed(s: State, actions: seq<Action>)
    requires s.sender.InFrame? && Run(s, actions).Some?
    requires forall i | 0 <= i < |actions| :: !(actions[i].Send? && actions[i].send.End?)
    ensures var t := Run(s, actions).value;
            && t.sender.InFrame?
            && Active(t.conn) == Active(s.conn)
            && t.conn.segments == s.conn.segments + Payloads(actions)
    decreases |actions|
  {
    if actions == [] {
      assert s.conn.segments + [] == s.conn.segments;
    } else {
      var next := Step(s, actions[0]).value;
      var first := if actions[0].Send? && actions[0].send.Segment? then [actions[0].send.payload] else [];
      CollectingStep(s, actions[0], next);
      FrameIsBuiltAsArmed(next, actions[1..]);
      assert next.conn.segments + Payloads(actions[1..]) == s.conn.segments + (first + Payloads(actions[1..]));
    }
  }

  lemma CollectingStep(s: State, a: Action, t: State)
    requires s.sender.InFrame? && Step(s, a) == Some(t) && !(a.Send? && a.send.End?)
    ensures && t.sender.InFrame?
            && Active(t.conn) == Active(s.conn)
            && t.conn.segments == s.conn.segments + (if a.Send? && a.send.Segment? then [a.send.payload] else [])
  {
    if a.Drive? { WriterLeavesTheSender(s, a.drive); }
  }

  lemma WriterLeavesTheSender(s: State, a: WriterOp)
    requires WriterStep(s, a).Some?
    ensures var t := WriterStep(s, a).value;
            && t.sender == s.sender && t.accepted == s.accepted
            && Active(t.conn) == Active(s.conn) && Armed(t.conn) == Armed(s.conn) && t.conn.segments == s.conn.segments
  {
  }

  // The frame a begin and an end enclose has exactly the shape armed before the begin.
  lemma ArmingShapesTheNextFrame(s: State, actions: seq<Action>)
    requires s.sender.Resting?
    requires Run(Step(s, Send(Begin)).value, actions).Some?
    requires forall i | 0 <= i < |actions| :: !(actions[i].Send? && actions[i].send.End?)
    ensures var t := Run(Step(s, Send(Begin)).value, actions).value;
            && Step(t, Send(End(false))).Some?
            && Step(t, Send(End(false))).value.sender.Built?
            && var frame := Step(t, Send(End(false))).value.sender.frame;
               ShapeOf(frame) == Armed(s.conn) && frame.segments == Payloads(actions)
  {
    FrameIsBuiltAsArmed(Step(s, Send(Begin)).value, actions);
  }

  lemma WaitingStep(s: State, a: Action)
    requires Step(s, a).Some? && !a.ArmFault? && !(a.Send? && a.send.Begin?)
    ensures Armed(Step(s, a).value.conn) == Armed(s.conn)
  {
    match a
    case Send(send) => SenderKeepsArming(s, send);
    case Drive(drive) => WriterLeavesTheSender(s, drive);
    case _ =>
  }

  lemma SenderKeepsArming(s: State, a: SenderOp)
    requires SenderStep(s, a).Some? && !a.Begin?
    ensures Armed(SenderStep(s, a).value.conn) == Armed(s.conn)
  {
  }

  // Until the next frame begins an arming stays as it is.
  lemma {:induction false} ArmingWaits(s: State, actions: seq<Action>)
    requires NoArming(actions) && Run(s, actions).Some?
    requires forall i | 0 <= i < |actions| :: !(actions[i].Send? && actions[i].send.Begin?)
    ensures Armed(Run(s, actions).value.conn) == Armed(s.conn)
    decreases |actions|
  {
    if actions == [] {
    } else {
      WaitingStep(s, actions[0]);
      ArmingWaits(Step(s, actions[0]).value, actions[1..]);
    }
  }

  // From the arming on: whatever happens before the next frame begins and while it is
  // collected, that frame is written one byte at a time after a fragment fault, in one
  // piece after a coalesce fault, and is held until the delay counted from the arming is
  // over after a delay fault; and anything armed before is kept.
  lemma ArmedFaultShapesTheNextFrame(s: State, action: NetworkAction, delay: nat, waiting: seq<Action>, ready: State,
                                     inside: seq<Action>, collected: State)
    requires NoArming(waiting) && forall i | 0 <= i < |waiting| :: !(waiting[i].Send? && waiting[i].send.Begin?)
    requires Run(Step(s, ArmFault(action, delay)).value, waiting) == Some(ready) && ready.sender.Resting?
    requires forall i | 0 <= i < |inside| :: !(inside[i].Send? && inside[i].send.End?)
    requires Run(Step(ready, Send(Begin)).value, inside) == Some(collected)
    ensures Step(collected, Send(End(false))).Some? && Step(collected, Send(End(false))).value.sender.Built?
    ensures var frame := Step(collected, Send(End(false))).value.sender.frame;
            var was, chunks, bytes := Armed(s.conn), Chunks(frame), Flatten(Payloads(inside));
            match action
            case FragmentFrame =>
              && frame.delayTarget == was.delayTarget
              && (if was.coalesce then chunks == [bytes]
                  else |chunks| == |bytes| && forall i | 0 <= i < |bytes| :: chunks[i] == [bytes[i]])
            case CoalesceSegments => frame.delayTarget == was.delayTarget && chunks == [bytes]
            case DelayReply =>
              && frame.delayTarget == s.now + delay
              && (if was.coalesce then chunks == [bytes]
                  else if was.fragment then
                    |chunks| == |bytes| && forall i | 0 <= i < |bytes| :: chunks[i] == [bytes[i]]
                  else chunks == Payloads(inside))
  {
    ArmingWaits(Step(s, ArmFault(action, delay)).value, waiting);
    ArmingShapesTheNextFrame(ready, inside);
  }

  // The shape the sender's frame has, if it has one.
  predicate SenderShape(t: Sender, c: Conn, shape: Shape) {
    match t
    case InFrame => Active(c) == shape
    case Built(frame) => ShapeOf(frame) == shape
    case _ => true
  }

  // From the frame with this shape on: it may still be to come, and all others are plain.
  ghost predicate OneShot(s: State, base: nat, shape: Shape) {
    && base <= |s.accepted|
    && Armed(s.conn) == PLAIN
    && (SenderShape(s.sender, s.conn, PLAIN) || (|s.accepted| == base && SenderShape(s.sender, s.conn, shape)))
    && (|s.accepted| > base ==> ShapeOf(s.accepted[base]) == shape || ShapeOf(s.accepted[base]) == PLAIN)
    && forall k | base < k < |s.accepted| :: ShapeOf(s.accepted[k]) == PLAIN
  }

  lemma OneShotSend(s: State, a: SenderOp, base: nat, shape: Shape)
    requires OneShot(s, base, shape) && SenderStep(s, a).Some?
    ensures OneShot(SenderStep(s, a).value, base, shape)
  {
  }

  lemma OneShotStep(s: State, a: Action, base: nat, shape: Shape)
    requires OneShot(s, base, shape) && !a.ArmFault? && Step(s, a).Some?
    ensures OneShot(Step(s, a).value, base, shape)
  {
    match a
    case Send(send) => OneShotSend(s, send, base, shape);
    case Drive(drive) => WriterLeavesTheSender(s, drive);
    case _ =>
  }

  // Once a frame has begun, no later frame is shaped until something is armed again.
  lemma {:induction false} ArmingShapesNoOtherFrame(s: State, actions: seq<Action>, base: nat, shape: Shape)
    requires OneShot(s, base, shape) && NoArming(actions) && Run(s, actions).Some?
    ensures OneShot(Run(s, actions).value, base, shape)
    decreases |actions|
  {
    if actions == [] {
    } else {
      OneShotStep(s, actions[0], base, shape);
      ArmingShapesNoOtherFrame(Step(s, actions[0]).value, actions[1..], base, shape);
    }
  }

  lemma ArmingIsOneShot(s: State, actions: seq<Action>)
    requires s.sender.Resting? && NoArming(actions)
    requires Run(Step(s, Send(Begin)).value, actions).Some?
    ensures var t := Run(Step(s, Send(Begin)).value, actions).value;
            && |s.accepted| <= |t.accepted|
            && (forall k | |s.accepted| < k < |t.accepted| :: ShapeOf(t.accepted[k]) == PLAIN)
            && Armed(t.conn) == PLAIN
  {
    ArmingShapesNoOtherFrame(Step(s, Send(Begin)).value, actions, |s.accepted|, Armed(s.conn));
  }

  // What the shapes mean for the writes: coalesced, one write; fragmented, one byte each;
  // plain, one per segment; and the same bytes every time.
  lemma ShapesOfWrites(frame: Frame)
    ensures frame.coalesce ==> |Chunks(frame)| == 1
    ensures !frame.coalesce && frame.fragment ==>
              |Chunks(frame)| == |Flatten(frame.segments)|
                && forall i | 0 <= i < |Chunks(frame)| :: |Chunks(frame)[i]| == 1
    ensures !frame.coalesce && !frame.fragment ==> Chunks(frame) == frame.segments
    ensures Flatten(Chunks(frame)) == Flatten(frame.segments)
  {
    ChunksFlatten(frame);
  }
}
