// What the shaped connection of simulator/network.go still does: everything accepted can be
// written, a sender that waits gets its answer, and a full queue or a failed write stops
// the connection.
module NetworkProgress {
  import opened Common
  import opened NetworkModel
  import opened NetworkConn
  import opened NetworkProofs

  // ---------- The writer can finish ----------

  function Rank(w: Writer): nat {
    match w
    case Delaying(_) => 5
    case Writing(_, _) => 4
    case Wrote(_, _) => 3
    case Signalled(_, _) => 2
    case _ => 1
  }

  function ChunksLeft(w: Writer): nat {
    if w.Writing? then |w.chunks| else 0
  }

  function TimeLeft(s: State): nat {
    if s.writer.Delaying? && s.now < s.writer.frame.delayTarget then s.writer.frame.delayTarget - s.now else 0
  }

  // The clock and a writer that meets no error and is not stopped.
  predicate Healthy(a: Action) {
    || a.AdvanceClock?
    || (a.Drive? && !a.drive.DelayStopped? && !a.drive.WriteFails? && !a.drive.WriterStops? && !a.drive.WriterExits?)
  }

  function Onward(s: State): Action {
    match s.writer
    case Delaying(frame) => if TimeLeft(s) > 0 then AdvanceClock(TimeLeft(s)) else Drive(DelayOver)
    case Writing(_, chunks) => if chunks == [] then Drive(FinishWrite) else Drive(WriteSome(|chunks[0]|))
    case Wrote(_, _) => Drive(SignalDone)
    case Signalled(_, _) => Drive(FinishFrame)
    case _ => Drive(Dequeue)
  }

  predicate Drained(s: State) {
    s.writer.Ready? && s.conn.frames == []
  }

  lemma OnwardHelps(s: State)
    requires !Failed(s.writer) && !Drained(s)
    ensures Healthy(Onward(s)) && Step(s, Onward(s)).Some?
    ensures var n := Step(s, Onward(s)).value;
            && !Failed(n.writer) && n.accepted == s.accepted && n.sender == s.sender
            && n.conn.stopped == s.conn.stopped
            && (|n.conn.frames| < |s.conn.frames|
                || (|n.conn.frames| == |s.conn.frames|
                    && (Rank(n.writer) < Rank(s.writer)
                        || (Rank(n.writer) == Rank(s.writer)
                            && (ChunksLeft(n.writer) < ChunksLeft(s.writer)
                                || (ChunksLeft(n.writer) == ChunksLeft(s.writer) && TimeLeft(n) < TimeLeft(s)))))))
  {
  }

  // Unless the writer has failed, time and the writer alone can bring out every byte
  // accepted so far, after which nothing counts as under way but what the sender holds.
  lemma {:induction false} EverythingAcceptedCanBeWritten(s: State) returns (actions: seq<Action>, t: State)
    requires Inv(s) && !Failed(s.writer)
    ensures Run(s, actions) == Some(t) && forall a | a in actions :: Healthy(a)
    ensures Inv(t) && Drained(t) && t.accepted == s.accepted && t.sender == s.sender
    ensures t.conn.stopped == s.conn.stopped
    ensures t.out == Bytes(s.accepted) && t.conn.asyncFrames == SenderAsync(s.sender)
    decreases |s.conn.frames|, Rank(s.writer), ChunksLeft(s.writer), TimeLeft(s)
  {
    if Drained(s) {
      actions, t := [], s;
      assert s.accepted[..s.begun] == s.accepted;
    } else {
      var a := Onward(s);
      OnwardHelps(s);
      StepPreserves(s, a);
      var rest, end := EverythingAcceptedCanBeWritten(Step(s, a).value);
      assert ([a] + rest)[1..] == rest;
      actions, t := [a] + rest, end;
    }
  }

  // ---------- Senders that wait ----------

  // A sender waits for the only frame under way, and no longer than until it is reported on.
  ghost predicate AwaitIn(flight: seq<Frame>, signals: set<nat>, sender: Sender) {
    sender.Awaiting? ==>
      && |flight| <= 1
      && (if flight == [] then sender.done in signals else flight[0].done == sender.done && !flight[0].asynchronous)
  }

  ghost predicate AwaitOk(s: State) {
    AwaitIn(InFlight(s), s.signals, s.sender) && (s.writer.Exited? ==> s.conn.stopped)
  }

  lemma SenderKeepsAwait(s: State, a: SenderOp)
    requires Inv(s) && AwaitOk(s) && SenderStep(s, a).Some?
    ensures AwaitOk(SenderStep(s, a).value)
  {
    SenderInFlight(s, a);
  }

  lemma WriterKeepsAwait(s: State, a: WriterOp)
    requires AwaitOk(s) && WriterStep(s, a).Some?
    ensures AwaitOk(WriterStep(s, a).value)
  {
    assert WriterStep(s, a).value.writer.Exited? ==> WriterStep(s, a).value.conn.stopped;
    if a.SignalDone? { SignalReaches(s); } else { WriterInFlight(s, a); }
  }

  lemma SignalReaches(s: State)
    requires s.writer.Wrote? && AwaitOk(s)
    ensures AwaitOk(WriterStep(s, SignalDone).value)
  {
    var n := WriterStep(s, SignalDone).value;
    assert InFlight(s) == [s.writer.frame] + InFlight(n);
  }

  lemma StepKeepsAwait(s: State, a: Action)
    requires Inv(s) && AwaitOk(s) && Step(s, a).Some?
    ensures AwaitOk(Step(s, a).value)
  {
    match a
    case Send(send) => SenderKeepsAwait(s, send);
    case Drive(drive) => WriterKeepsAwait(s, drive);
    case _ => EnvironmentKeepsAwait(s, a);
  }

  lemma EnvironmentKeepsAwait(s: State, a: Action)
    requires AwaitOk(s) && Step(s, a).Some? && !a.Send? && !a.Drive?
    ensures AwaitOk(Step(s, a).value)
  {
    EnvironmentUntouched(s, a);
    UntouchedAwait(s, Step(s, a).value);
  }

  lemma UntouchedAwait(s: State, n: State)
    requires Untouched(s, n) && AwaitOk(s)
    ensures AwaitOk(n)
  {
    assert InFlight(n) == InFlight(s);
  }

  lemma {:induction false} RunKeepsAwait(s: State, actions: seq<Action>)
    requires Inv(s) && AwaitOk(s) && Run(s, actions).Some?
    ensures Inv(Run(s, actions).value) && AwaitOk(Run(s, actions).value)
    decreases |actions|
  {
    if actions == [] {
    } else {
      StepPreserves(s, actions[0]);
      StepKeepsAwait(s, actions[0]);
      RunKeepsAwait(Step(s, actions[0]).value, actions[1..]);
    }
  }

  lemma ReachableAwait(s: State)
    requires Reachable(s)
    ensures Inv(s) && AwaitOk(s)
  {
    var actions :| Run(INITIAL, actions) == Some(s);
    InitialInv();
    RunKeepsAwait(INITIAL, actions);
  }

  // A frame is sent synchronously exactly if it is not delayed and no asynchronous one is
  // under way; otherwise the sender does not wait.
  lemma WaitsExactlyWhenNothingIsDelayed(s: State)
    requires Reachable(s) && s.sender.InFrame?
    ensures var frame := Step(s, Send(End(false))).value.sender.frame;
            frame.asynchronous <==>
              || frame.delayTarget > 0
              || (Busy(s.writer) && s.writer.frame.asynchronous)
              || exists f :: f in s.conn.frames && f.asynchronous
  {
    ReachableInv(s);
    CountsSome(s.conn.frames);
  }

  lemma {:induction false} CountsSome(frames: seq<Frame>)
    ensures CountAsync(frames) > 0 <==> exists f :: f in frames && f.asynchronous
  {
    if frames == [] {
    } else {
      CountsSome(frames[1..]);
      assert frames == [frames[0]] + frames[1..];
    }
  }

  lemma NobodyElseIsServed(flight: seq<Frame>, signals: set<nat>, nextDone: nat, sender: Sender)
    requires SignalsIn(flight, signals, nextDone, sender) && AwaitIn(flight, signals, sender)
    requires sender.Awaiting? && sender.done in signals
    ensures flight == []
  {
  }

  // A synchronous send that is told it is done, by a writer that has not failed, has every
  // byte ever accepted on the connection.
  lemma DoneMeansWritten(s: State)
    requires Reachable(s) && Step(s, Send(ReceiveDone)).Some?
    ensures s.conn.frames == []
    ensures !Failed(s.writer) ==> s.out == Bytes(s.accepted)
  {
    ReachableAwait(s);
    NobodyElseIsServed(InFlight(s), s.signals, s.conn.nextDone, s.sender);
    assert s.accepted[..s.begun] == s.accepted;
  }

  // Nor does a sender wait for ever: a healthy writer reports on the frame, and a failed one
  // stops the connection, which ends the wait.
  lemma WaitingSenderCanReturn(s: State) returns (actions: seq<Action>, t: State)
    requires Reachable(s) && s.sender.Awaiting?
    ensures Run(s, actions) == Some(t) && t.sender.Resting?
    ensures !Failed(s.writer) ==> t.out == Bytes(s.accepted)
    ensures forall a | a in actions :: a.AdvanceClock? || a.Drive? || a == Send(ReceiveDone) || a == Send(AbandonWait)
  {
    ReachableAwait(s);
    if Failed(s.writer) {
      actions, t := FailedWriterStops(s);
      actions, t := ThenSend(s, actions, t, AbandonWait);
    } else {
      actions, t := EverythingAcceptedCanBeWritten(s);
      RunKeepsAwait(s, actions);
      actions, t := ThenSend(s, actions, t, ReceiveDone);
    }
  }

  lemma ThenSend(s: State, before: seq<Action>, u: State, op: SenderOp) returns (actions: seq<Action>, t: State)
    requires Run(s, before) == Some(u) && SenderStep(u, op).Some?
    ensures actions == before + [Send(op)] && Run(s, actions) == Some(t) && Some(t) == SenderStep(u, op)
  {
    actions, t := before + [Send(op)], SenderStep(u, op).value;
    RunAppend(s, before, Send(op));
  }

  lemma {:induction false} RunAppend(s: State, actions: seq<Action>, a: Action)
    requires Run(s, actions).Some?
    ensures Run(s, actions + [a]) == Step(Run(s, actions).value, a)
    decreases |actions|
  {
    if actions == [] {
      assert [] + [a] == [a] && [a][1..] == [];
      if Step(s, a).Some? { assert Run(Step(s, a).value, []) == Some(Step(s, a).value); }
    } else {
      assert (actions + [a])[0] == actions[0] && (actions + [a])[1..] == actions[1..] + [a];
      RunAppend(Step(s, actions[0]).value, actions[1..], a);
    }
  }

  // ---------- Collecting a frame ----------

  // Between frames nothing is kept and no shape is in force.
  predicate Collecting(s: State) {
    && (s.conn.frameActive <==> s.sender.InFrame?)
    && (!s.conn.frameActive ==>
          !s.conn.fragmentActive && !s.conn.coalesceActive && s.conn.delayActive == 0 && s.conn.segments == [])
  }

  lemma CollectingStays(s: State, a: Action)
    requires Collecting(s) && Step(s, a).Some?
    ensures Collecting(Step(s, a).value)
  {
    match a
    case Send(send) =>
    case Drive(drive) =>
    case _ =>
  }

  // The connection keeps what is written to it exactly while its sender is inside a frame.
  lemma {:induction false} CollectsExactlyInAFrame(actions: seq<Action>, s: State)
    requires Run(INITIAL, actions) == Some(s)
    ensures s.conn.frameActive <==> s.sender.InFrame?
    ensures !s.conn.frameActive ==>
              !s.conn.fragmentActive && !s.conn.coalesceActive && s.conn.delayActive == 0 && s.conn.segments == []
  {
    CollectingRun(INITIAL, actions);
  }

  lemma {:induction false} CollectingRun(s: State, actions: seq<Action>)
    requires Collecting(s) && Run(s, actions).Some?
    ensures Collecting(Run(s, actions).value)
    decreases |actions|
  {
    if actions == [] {
    } else {
      CollectingStays(s, actions[0]);
      CollectingRun(Step(s, actions[0]).value, actions[1..]);
    }
  }

  // What is written inside a frame is kept, in order, unless the connection has stopped.
  lemma WrittenInAFrameIsKept(s: State, payload: seq<Byte>)
    requires s.sender.InFrame?
    ensures Step(s, Send(Segment(payload))) ==
            if s.conn.stopped then None
            else Some(s.(conn := s.conn.(segments := s.conn.segments + [payload])))
  {
  }

  // A frame that could not be made is forgotten: the connection is as between frames, with
  // the count of asynchronous frames it had, and nothing has been accepted.
  lemma FailedFrameIsForgotten(s: State)
    requires s.sender.InFrame?
    ensures var t := Run(s, [Send(End(true)), Send(GiveUp)]);
            && t.Some? && t.value.sender.Resting? && t.value.accepted == s.accepted
            && t.value.conn.asyncFrames == s.conn.asyncFrames && t.value.conn.frames == s.conn.frames
            && t.value.conn.stopped == s.conn.stopped
  {
    var ended := Step(s, Send(End(true))).value;
    RunTwo(s, Send(End(true)), ended, Send(GiveUp));
  }

  lemma RunTwo(s: State, a: Action, t: State, b: Action)
    requires Step(s, a) == Some(t)
    ensures Run(s, [a, b]) == Step(t, b)
  {
    assert [a, b][1..] == [b] && [b][1..] == [];
    if Step(t, b).Some? { assert Run(Step(t, b).value, []) == Some(Step(t, b).value); }
  }

  // A refused frame leaves the asynchronous count again, and its sender goes on; one refused
  // because the queue was full stops the connection first.
  lemma RefusedSenderGoesOn(s: State)
    requires s.sender.Refused?
    ensures var t := if s.sender.full then Run(s, [Send(GiveUp), Send(StopOnOverflow)]) else Run(s, [Send(GiveUp)]);
            && t.Some? && t.value.sender.Resting? && t.value.accepted == s.accepted
            && t.value.conn.stopped == (s.conn.stopped || s.sender.full)
            && (s.sender.frame.asynchronous && s.conn.asyncFrames > 0 ==>
                  t.value.conn.asyncFrames == s.conn.asyncFrames - 1)
  {
    var gone := Step(s, Send(GiveUp)).value;
    RunTwo(s, Send(GiveUp), gone, Send(StopOnOverflow));
    assert [Send(GiveUp)][1..] == [] && Run(gone, []) == Some(gone);
  }

  // ---------- One frame with the writer ----------

  // A frame that is taken is written at once if it is not delayed; a delayed one waits, until
  // its target or until the connection is stopped.
  lemma TakenFrames(s: State)
    ensures s.writer.Ready? && s.conn.frames != [] ==>
              var frame := s.conn.frames[0];
              && Step(s, Drive(Dequeue)).Some?
              && Step(s, Drive(Dequeue)).value.writer ==
                 if frame.delayTarget == 0 then Writing(frame, Chunks(frame)) else Delaying(frame)
    ensures s.writer.Delaying? ==>
              && (Step(s, Drive(DelayOver)).Some? <==> s.writer.frame.delayTarget <= s.now)
              && (Step(s, Drive(DelayStopped)).Some? <==> s.conn.stopped)
              && (s.conn.stopped ==> Step(s, Drive(DelayStopped)) == Some(s.(writer := Wrote(s.writer.frame, true))))
  {
  }

  // Of the chunk in hand a write takes some bytes, at least one if there are any, or fails,
  // and then the frame is done with.
  lemma OneWrite(s: State, count: nat)
    requires s.writer.Writing? && s.writer.chunks != [] && count <= |s.writer.chunks[0]|
    ensures Step(s, Drive(WriteSome(count))).Some? <==> count > 0 || s.writer.chunks[0] == []
    ensures Step(s, Drive(WriteSome(count))).Some? ==>
              Step(s, Drive(WriteSome(count))).value.out == s.out + s.writer.chunks[0][..count]
    ensures Step(s, Drive(WriteFails(count))) ==
            Some(s.(out := s.out + s.writer.chunks[0][..count], writer := Wrote(s.writer.frame, true)))
  {
  }

  // ---------- Failures stop the connection ----------

  lemma {:induction false} FailedWriterStops(s: State) returns (actions: seq<Action>, t: State)
    requires Failed(s.writer) && (s.writer.Exited? ==> s.conn.stopped)
    ensures Run(s, actions) == Some(t) && t.writer.Exited? && t.conn.stopped
    ensures t.sender == s.sender && t.accepted == s.accepted && t.out == s.out
    ensures forall a | a in actions :: a.Drive?
    decreases Rank(s.writer), s.writer.Failing?
  {
    if s.writer.Exited? {
      actions, t := [], s;
    } else {
      var a := Drive(if s.writer.Wrote? then SignalDone else if s.writer.Signalled? then FinishFrame else WriterStops);
      var rest, end := FailedWriterStops(Step(s, a).value);
      assert ([a] + rest)[1..] == rest;
      actions, t := [a] + rest, end;
    }
  }

  function EndSteps(w: Writer): nat {
    match w
    case Delaying(_) => 6
    case Writing(_, _) => 5
    case Wrote(_, _) => 4
    case Signalled(_, _) => 3
    case Ready => 2
    case Failing => 1
    case Exited => 0
  }

  lemma {:induction false} StoppedWriterEnds(s: State) returns (actions: seq<Action>, t: State)
    requires s.conn.stopped
    ensures Run(s, actions) == Some(t) && t.writer.Exited? && t.out == s.out && t.conn.stopped
    ensures forall a | a in actions :: a.Drive? && !a.drive.WriteSome?
    decreases EndSteps(s.writer)
  {
    if s.writer.Exited? {
      actions, t := [], s;
    } else {
      var a := Drive(match s.writer
                     case Delaying(_) => DelayStopped
                     case Writing(_, chunks) => if chunks == [] then FinishWrite else WriteFails(0)
                     case Wrote(_, _) => SignalDone
                     case Signalled(_, _) => FinishFrame
                     case Ready => WriterExits
                     case _ => WriterStops);
      assert s.writer.Writing? && s.writer.chunks != [] ==> s.out + s.writer.chunks[0][..0] == s.out;
      var rest, end := StoppedWriterEnds(Step(s, a).value);
      assert ([a] + rest)[1..] == rest;
      actions, t := [a] + rest, end;
    }
  }

  // Stopping a connection ends its writer, wherever it is, without another byte: what Close
  // waits for comes about by the writer's own steps.
  lemma StopEndsTheWriter(s: State) returns (actions: seq<Action>, t: State)
    ensures Step(s, Stop).Some? && Run(Step(s, Stop).value, actions) == Some(t)
    ensures t.writer.Exited? && t.out == s.out && t.conn.stopped
    ensures forall a | a in actions :: a.Drive? && !a.drive.WriteSome?
  {
    actions, t := StoppedWriterEnds(Step(s, Stop).value);
  }

  lemma SilentStep(s: State, a: Action)
    requires Failed(s.writer) && Step(s, a).Some?
    ensures var n := Step(s, a).value;
            && Failed(n.writer) && n.out == s.out && (s.conn.stopped ==> n.conn.stopped)
            && ((s.writer.Exited? ==> s.conn.stopped) ==> (n.writer.Exited? ==> n.conn.stopped))
  {
    match a
    case Send(send) =>
    case Drive(drive) =>
    case _ =>
  }

  // After a failed write, or a wait cut short, nothing more is written, in any run, and the
  // writer does not end without the connection stopped.
  lemma {:induction false} NothingIsWrittenAfterAFailure(s: State, actions: seq<Action>)
    requires Failed(s.writer) && !s.writer.Exited? && Run(s, actions).Some?
    ensures var t := Run(s, actions).value; t.out == s.out && (t.writer.Exited? ==> t.conn.stopped)
  {
    SilentRun(s, actions);
  }

  lemma {:induction false} SilentRun(s: State, actions: seq<Action>)
    requires Failed(s.writer) && (s.writer.Exited? ==> s.conn.stopped) && Run(s, actions).Some?
    ensures var t := Run(s, actions).value; t.out == s.out && (t.writer.Exited? ==> t.conn.stopped)
    decreases |actions|
  {
    if actions == [] {
    } else {
      SilentStep(s, actions[0]);
      SilentRun(Step(s, actions[0]).value, actions[1..]);
    }
  }

  // What becomes of a finished frame: refused once stopped, refused as too many with 64
  // waiting, and otherwise queued last.
  lemma SubmitOutcome(s: State)
    requires s.sender.Built?
    ensures var n := Step(s, Send(Submit)).value;
            if s.conn.stopped then n == s.(sender := Refused(s.sender.frame, false))
            else if |s.conn.frames| >= 64 then n == s.(sender := Refused(s.sender.frame, true))
            else
              && n.accepted == s.accepted + [s.sender.frame] && n.conn.frames == s.conn.frames + [s.sender.frame]
              && n.sender == if s.sender.frame.asynchronous then Resting else Awaiting(s.sender.frame.done)
  {
  }

  predicate OverflowPending(s: State) {
    s.conn.stopped || s.sender.Overflowed? || (s.sender.Refused? && s.sender.full)
  }

  lemma OverflowStaysPending(s: State, a: Action)
    requires OverflowPending(s) && Step(s, a).Some?
    ensures OverflowPending(Step(s, a).value)
  {
    match a
    case Send(send) =>
    case Drive(drive) =>
    case _ =>
  }

  // A frame too many stops the connection before its sender can send another.
  lemma {:induction false} FullQueueStopsTheConnection(s: State, actions: seq<Action>)
    requires OverflowPending(s) && Run(s, actions).Some?
    ensures var t := Run(s, actions).value; t.sender.Resting? || t.sender.InFrame? || t.sender.Built? ==> t.conn.stopped
    decreases |actions|
  {
    if actions == [] {
    } else {
      OverflowStaysPending(s, actions[0]);
      FullQueueStopsTheConnection(Step(s, actions[0]).value, actions[1..]);
    }
  }
}
