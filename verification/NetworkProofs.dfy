// In every run of the shaped connection the bytes on the wire are a prefix of the
// frames sent, in send order; the asynchronous counter counts; a synchronous frame
// finds an empty queue; and nothing overtakes a delayed frame.
module NetworkProofs {
  import opened Common
  import opened NetworkModel
  import opened NetworkConn

  function Bytes(frames: seq<Frame>): (r: seq<Byte>) {
    if frames == [] then [] else Flatten(frames[0].segments) + Bytes(frames[1..])
  }

  lemma {:induction false} BytesAppend(a: seq<Frame>, b: seq<Frame>)
    ensures Bytes(a + b) == Bytes(a) + Bytes(b)
  {
    if a == [] {
      assert a + b == b;
    } else {
      BytesAppend(a[1..], b);
      HeadAndTail(a, b);
      ConcatAssociates(Flatten(a[0].segments), Bytes(a[1..]), Bytes(b));
    }
  }

  lemma BytesTake(frames: seq<Frame>, i: nat)
    requires i < |frames|
    ensures Bytes(frames[..i + 1]) == Bytes(frames[..i]) + Flatten(frames[i].segments)
  {
    BytesAppend(frames[..i], [frames[i]]);
    assert frames[..i] + [frames[i]] == frames[..i + 1];
    assert Bytes([frames[i]]) == Flatten(frames[i].segments) + Bytes([]);
  }

  lemma BytesMonotone(frames: seq<Frame>, i: nat, j: nat)
    requires i <= j <= |frames|
    ensures Bytes(frames[..i]) <= Bytes(frames[..j])
  {
    BytesAppend(frames[..i], frames[i..j]);
    assert frames[..i] + frames[i..j] == frames[..j];
  }

  // ---------- Transparency ----------

  predicate Busy(w: Writer) {
    w.Delaying? || w.Writing? || w.Wrote? || w.Signalled?
  }

  predicate Failed(w: Writer) {
    (w.Wrote? && w.failed) || (w.Signalled? && w.failed) || w.Failing? || w.Exited?
  }

  // What the writer still has to hand over of the frame it has taken.
  function Left(w: Writer): seq<Byte> {
    match w
    case Delaying(frame) => Flatten(frame.segments)
    case Writing(_, chunks) => Flatten(chunks)
    case _ => []
  }

  ghost predicate OrderOk(s: State) {
    && s.begun <= |s.accepted|
    && s.conn.frames == s.accepted[s.begun..]
    && (Busy(s.writer) ==> s.begun > 0 && s.writer.frame == s.accepted[s.begun - 1])
  }

  ghost predicate BytesOk(s: State) {
    && s.begun <= |s.accepted|
    && (if Failed(s.writer) then s.out <= Bytes(s.accepted[..s.begun])
        else s.out + Left(s.writer) == Bytes(s.accepted[..s.begun]))
  }

  // ---------- The asynchronous count ----------

  function CountAsync(frames: seq<Frame>): nat {
    if frames == [] then 0 else (if frames[0].asynchronous then 1 else 0) + CountAsync(frames[1..])
  }

  lemma {:induction false} CountAsyncAppend(frames: seq<Frame>, f: Frame)
    ensures CountAsync(frames + [f]) == CountAsync(frames) + if f.asynchronous then 1 else 0
  {
    if frames == [] {
      assert frames + [f] == [f];
    } else {
      CountAsyncAppend(frames[1..], f);
      assert (frames + [f])[1..] == frames[1..] + [f];
    }
  }

  function SenderAsync(t: Sender): nat {
    if (t.Built? || t.Refused?) && t.frame.asynchronous then 1 else 0
  }

  function WriterAsync(w: Writer): nat {
    if Busy(w) && w.frame.asynchronous then 1 else 0
  }

  // Asynchronous frames begun and not finished: with the sender, queued, or with the
  // writer.
  ghost predicate CountIn(async: nat, sender: Sender, frames: seq<Frame>, writer: Writer) {
    && async == SenderAsync(sender) + CountAsync(frames) + WriterAsync(writer)
    && |frames| <= QUEUE_SIZE
  }

  ghost predicate CountOk(s: State) {
    CountIn(s.conn.asyncFrames, s.sender, s.conn.frames, s.writer)
  }

  // ---------- Synchronous frames ----------

  predicate Carrying(w: Writer) {
    w.Delaying? || w.Writing? || w.Wrote?
  }

  // Frames the writer has not reported back on yet.
  function InFlight(s: State): seq<Frame> {
    (if Carrying(s.writer) then [s.writer.frame] else []) + s.conn.frames
  }

  // While the connection is open, a synchronous frame travels alone, and its sender is
  // waiting for it.
  ghost predicate SyncIn(flight: seq<Frame>, sender: Sender) {
    && (forall f | f in flight && !f.asynchronous :: flight == [f] && sender == Awaiting(f.done))
    && (sender.Built? && !sender.frame.asynchronous ==> flight == [])
  }

  ghost predicate SyncOk(s: State) {
    !s.conn.stopped ==> SyncIn(InFlight(s), s.sender)
  }

  // Completion channels are owned by one frame each and served after it.
  ghost predicate SignalsIn(flight: seq<Frame>, signals: set<nat>, nextDone: nat, sender: Sender) {
    && (forall i, j | 0 <= i < j < |flight| :: flight[i].done < flight[j].done)
    && (forall i | 0 <= i < |flight| :: flight[i].done < nextDone && flight[i].done !in signals)
    && (forall d | d in signals :: d < nextDone)
    && (sender.Built? ==>
          && sender.frame.done < nextDone && sender.frame.done !in signals
          && forall i | 0 <= i < |flight| :: flight[i].done < sender.frame.done)
  }

  ghost predicate SignalsOk(s: State) {
    SignalsIn(InFlight(s), s.signals, s.conn.nextDone, s.sender)
  }

  // A delayed frame is asynchronous.
  ghost predicate TargetsIn(flight: seq<Frame>, sender: Sender) {
    && (forall f | f in flight && f.delayTarget > 0 :: f.asynchronous)
    && (sender.Built? && sender.frame.delayTarget > 0 ==> sender.frame.asynchronous)
  }

  ghost predicate TargetsOk(s: State) {
    TargetsIn(InFlight(s), s.sender)
  }

  // ---------- Delay ----------

  ghost predicate DelayOk(s: State) {
    && s.begun <= |s.accepted|
    // Every frame the writer has gone past or is writing was due.
    && (!Failed(s.writer) ==>
          forall k | 0 <= k < s.begun && !(s.writer.Delaying? && k == s.begun - 1) ::
            s.accepted[k].delayTarget <= s.now)
    // Nothing of a frame that is not due, or of any later one, has been written.
    && (forall k | 0 <= k < |s.accepted| && s.accepted[k].delayTarget > s.now ::
          |s.out| <= |Bytes(s.accepted[..k])|)
  }

  ghost predicate Inv(s: State) {
    OrderOk(s) && BytesOk(s) && CountOk(s) && SignalsOk(s) && TargetsOk(s) && SyncOk(s) && DelayOk(s)
  }

  // ---------- Preservation: the sender ----------

  lemma SenderKeepsOrder(s: State, a: SenderOp)
    requires OrderOk(s) && BytesOk(s) && SenderStep(s, a).Some?
    ensures OrderOk(SenderStep(s, a).value) && BytesOk(SenderStep(s, a).value)
  {
    var n := SenderStep(s, a).value;
    assert n.accepted[..n.begun] == s.accepted[..s.begun];
    if n.accepted != s.accepted {
      assert n.accepted[n.begun..] == s.accepted[s.begun..] + [s.sender.frame];
    }
  }

  lemma SenderKeepsCount(s: State, a: SenderOp)
    requires CountOk(s) && SenderStep(s, a).Some?
    ensures CountOk(SenderStep(s, a).value)
  {
    if a.Submit? { CountAsyncAppend(s.conn.frames, s.sender.frame); }
  }

  // What a sender action does to the frames in flight.
  lemma SenderInFlight(s: State, a: SenderOp)
    requires SenderStep(s, a).Some?
    ensures InFlight(SenderStep(s, a).value)
            == InFlight(s) + if a.Submit? && EnqueueOutcome(s.conn) == Accepted then [s.sender.frame] else []
  {
  }

  lemma SenderKeepsSignals(s: State, a: SenderOp)
    requires SignalsOk(s) && TargetsOk(s) && SenderStep(s, a).Some?
    ensures SignalsOk(SenderStep(s, a).value) && TargetsOk(SenderStep(s, a).value)
  {
    SenderInFlight(s, a);
  }

  lemma NoAsyncMeansAllSync(frames: seq<Frame>, f: Frame)
    requires CountAsync(frames) == 0 && f in frames
    ensures !f.asynchronous
  {
    if f == frames[0] {
    } else {
      NoAsyncMeansAllSync(frames[1..], f);
    }
  }

  // Without asynchronous frames, a sender that is not waiting finds nothing in flight.
  lemma NothingInFlight(s: State)
    requires CountOk(s) && SyncOk(s) && s.conn.asyncFrames == 0 && !s.conn.stopped && !s.sender.Awaiting?
    ensures InFlight(s) == []
  {
    if InFlight(s) != [] {
      var f := InFlight(s)[0];
      if !Carrying(s.writer) { NoAsyncMeansAllSync(s.conn.frames, f); }
    }
  }

  lemma SubmittedTravelsAlone(flight: seq<Frame>, frame: Frame)
    requires SyncIn(flight, Built(frame))
    ensures SyncIn(flight + [frame], if frame.asynchronous then Resting else Awaiting(frame.done))
  {
    assert forall f | f in flight + [frame] :: f in flight || f == frame;
    if !frame.asynchronous { assert flight + [frame] == [frame]; }
  }

  lemma ReceivedFramesAreGone(flight: seq<Frame>, signals: set<nat>, nextDone: nat, done: nat)
    requires SyncIn(flight, Awaiting(done)) && SignalsIn(flight, signals, nextDone, Awaiting(done)) && done in signals
    ensures SyncIn(flight, Resting)
  {
    forall f | f in flight ensures f.asynchronous {
      assert f.done !in signals;
    }
  }

  lemma SenderKeepsSync(s: State, a: SenderOp)
    requires CountOk(s) && SignalsOk(s) && SyncOk(s) && SenderStep(s, a).Some?
    ensures SyncOk(SenderStep(s, a).value)
  {
    var n := SenderStep(s, a).value;
    SenderInFlight(s, a);
    if !n.conn.stopped {
      match a
      case Submit => SubmittedTravelsAlone(InFlight(s), s.sender.frame);
      case End(_) => if s.conn.asyncFrames == 0 { NothingInFlight(s); }
      case ReceiveDone => ReceivedFramesAreGone(InFlight(s), s.signals, s.conn.nextDone, s.sender.done);
      case _ =>
    }
  }

  lemma SenderKeepsDelay(s: State, a: SenderOp)
    requires OrderOk(s) && BytesOk(s) && DelayOk(s) && SenderStep(s, a).Some?
    ensures DelayOk(SenderStep(s, a).value)
  {
    var n := SenderStep(s, a).value;
    if n.accepted != s.accepted {
      BytesMonotone(s.accepted, s.begun, |s.accepted|);
      forall k | 0 <= k < |n.accepted| ensures n.accepted[..k] == s.accepted[..k] {}
    }
  }

  lemma SenderPreserves(s: State, a: SenderOp)
    requires Inv(s) && SenderStep(s, a).Some?
    ensures Inv(SenderStep(s, a).value)
  {
    SenderKeepsOrder(s, a);
    SenderKeepsCount(s, a);
    SenderKeepsSignals(s, a);
    SenderKeepsSync(s, a);
    SenderKeepsDelay(s, a);
  }

  // ---------- Preservation: the writer ----------

  lemma ChunkTaken(chunks: seq<seq<Byte>>, count: nat)
    requires chunks != [] && count <= |chunks[0]|
    ensures var rest := chunks[0][count..];
            && chunks[0][..count] + Flatten(if rest == [] then chunks[1..] else [rest] + chunks[1..]) == Flatten(chunks)
            && chunks[0][..count] <= Flatten(chunks)
  {
    var rest := chunks[0][count..];
    assert chunks[0] == chunks[0][..count] + rest;
    assert ([rest] + chunks[1..])[1..] == chunks[1..];
    assert chunks[0][..count] + (rest + Flatten(chunks[1..])) == Flatten(chunks);
  }

  lemma DequeueKeepsOrder(s: State)
    requires OrderOk(s) && BytesOk(s) && WriterStep(s, Dequeue).Some?
    ensures OrderOk(WriterStep(s, Dequeue).value) && BytesOk(WriterStep(s, Dequeue).value)
  {
    BytesTake(s.accepted, s.begun);
    ChunksFlatten(s.conn.frames[0]);
  }

  // Bytes move from what is left to what is out.
  lemma BytesMove(out: seq<Byte>, taken: seq<Byte>, left: seq<Byte>)
    ensures (out + taken) + left == out + (taken + left)
    ensures out + taken <= out + (taken + left)
  {
  }

  lemma WriteSomeKeepsOrder(s: State, count: nat)
    requires OrderOk(s) && BytesOk(s) && WriterStep(s, WriteSome(count)).Some?
    ensures OrderOk(WriterStep(s, WriteSome(count)).value) && BytesOk(WriterStep(s, WriteSome(count)).value)
  {
    var n := WriterStep(s, WriteSome(count)).value;
    ChunkTaken(s.writer.chunks, count);
    BytesMove(s.out, s.writer.chunks[0][..count], Left(n.writer));
  }

  lemma WriteFailsKeepsOrder(s: State, count: nat)
    requires OrderOk(s) && BytesOk(s) && WriterStep(s, WriteFails(count)).Some?
    ensures OrderOk(WriterStep(s, WriteFails(count)).value) && BytesOk(WriterStep(s, WriteFails(count)).value)
  {
    var chunks := s.writer.chunks;
    var taken := chunks[0][..count];
    assert Flatten(chunks) == taken + (chunks[0][count..] + Flatten(chunks[1..]));
    BytesMove(s.out, taken, chunks[0][count..] + Flatten(chunks[1..]));
  }

  lemma WriterKeepsOrder(s: State, a: WriterOp)
    requires OrderOk(s) && BytesOk(s) && WriterStep(s, a).Some?
    ensures OrderOk(WriterStep(s, a).value) && BytesOk(WriterStep(s, a).value)
  {
    if a.Dequeue? {
      DequeueKeepsOrder(s);
    } else if a.WriteSome? {
      WriteSomeKeepsOrder(s, a.count);
    } else if a.WriteFails? {
      WriteFailsKeepsOrder(s, a.count);
    } else if a.DelayOver? {
      ChunksFlatten(s.writer.frame);
    }
  }

  lemma WriterKeepsCount(s: State, a: WriterOp)
    requires CountOk(s) && WriterStep(s, a).Some?
    ensures CountOk(WriterStep(s, a).value)
  {
  }

  // What a writer action does to the frames in flight and to the completion channels.
  lemma WriterInFlight(s: State, a: WriterOp)
    requires WriterStep(s, a).Some?
    ensures var n := WriterStep(s, a).value;
            && n.sender == s.sender && n.conn.nextDone == s.conn.nextDone
            && (s.conn.stopped ==> n.conn.stopped)
            && (if a.SignalDone? then InFlight(s) != [] && InFlight(n) == InFlight(s)[1..]
                                      && (n.signals == s.signals || n.signals == s.signals + {InFlight(s)[0].done})
                else InFlight(n) == InFlight(s) && n.signals == s.signals)
  {
  }

  // Completion bookkeeping survives when the head of the flight reports back.
  lemma FlightShrinks(s: State, n: State)
    requires SignalsOk(s) && TargetsOk(s) && SyncOk(s)
    requires n.sender == s.sender && n.conn.nextDone == s.conn.nextDone && (s.conn.stopped ==> n.conn.stopped)
    requires || (InFlight(n) == InFlight(s) && n.signals == s.signals)
             || (InFlight(s) != [] && InFlight(n) == InFlight(s)[1..]
                 && (n.signals == s.signals || n.signals == s.signals + {InFlight(s)[0].done}))
    ensures SignalsOk(n) && TargetsOk(n) && SyncOk(n)
  {
    if InFlight(n) != InFlight(s) {
      HeadSignalled(InFlight(s), s.signals, s.conn.nextDone, s.sender);
      assert forall f | f in InFlight(n) :: f in InFlight(s);
    }
  }

  lemma HeadSignalled(flight: seq<Frame>, signals: set<nat>, nextDone: nat, sender: Sender)
    requires flight != [] && SignalsIn(flight, signals, nextDone, sender)
    ensures SignalsIn(flight[1..], signals + {flight[0].done}, nextDone, sender)
    ensures SignalsIn(flight[1..], signals, nextDone, sender)
  {
  }

  lemma WriterKeepsDelay(s: State, a: WriterOp)
    requires OrderOk(s) && BytesOk(s) && DelayOk(s) && WriterStep(s, a).Some?
    ensures DelayOk(WriterStep(s, a).value)
  {
    var n := WriterStep(s, a).value;
    if n.out != s.out {
      WriterKeepsOrder(s, a);
      forall k | 0 <= k < |n.accepted| && n.accepted[k].delayTarget > n.now
        ensures |n.out| <= |Bytes(n.accepted[..k])|
      {
        BytesMonotone(s.accepted, s.begun, k);
      }
    }
  }

  lemma WriterPreserves(s: State, a: WriterOp)
    requires Inv(s) && WriterStep(s, a).Some?
    ensures Inv(WriterStep(s, a).value)
  {
    WriterKeepsOrder(s, a);
    WriterKeepsCount(s, a);
    WriterInFlight(s, a);
    FlightShrinks(s, WriterStep(s, a).value);
    WriterKeepsDelay(s, a);
  }

  // The clock, arming and stopping touch neither the frames nor the bytes.
  ghost predicate Untouched(s: State, n: State) {
    && n.sender == s.sender && n.writer == s.writer && n.signals == s.signals
    && n.accepted == s.accepted && n.begun == s.begun && n.out == s.out && n.now >= s.now
    && n.conn.frames == s.conn.frames && n.conn.asyncFrames == s.conn.asyncFrames
    && n.conn.nextDone == s.conn.nextDone && (s.conn.stopped ==> n.conn.stopped)
  }

  lemma UntouchedOrder(s: State, n: State)
    requires Untouched(s, n) && OrderOk(s) && BytesOk(s) && CountOk(s)
    ensures OrderOk(n) && BytesOk(n) && CountOk(n)
  {
  }

  lemma UntouchedFlight(s: State, n: State)
    requires Untouched(s, n) && SignalsOk(s) && TargetsOk(s) && SyncOk(s)
    ensures SignalsOk(n) && TargetsOk(n) && SyncOk(n)
  {
    assert InFlight(n) == InFlight(s);
  }

  lemma UntouchedPreserves(s: State, n: State)
    requires Untouched(s, n) && Inv(s)
    ensures Inv(n)
  {
    UntouchedOrder(s, n);
    UntouchedDelay(s, n);
    UntouchedFlight(s, n);
  }

  lemma UntouchedDelay(s: State, n: State)
    requires Untouched(s, n) && DelayOk(s)
    ensures DelayOk(n)
  {
  }

  lemma EnvironmentUntouched(s: State, a: Action)
    requires !a.Send? && !a.Drive?
    ensures Step(s, a).Some? && Untouched(s, Step(s, a).value)
  {
  }

  lemma StepPreserves(s: State, a: Action)
    requires Inv(s) && Step(s, a).Some?
    ensures Inv(Step(s, a).value)
  {
    match a
    case Send(send) => SenderPreserves(s, send);
    case Drive(drive) => WriterPreserves(s, drive);
    case _ =>
      EnvironmentUntouched(s, a);
      UntouchedPreserves(s, Step(s, a).value);
  }

  lemma {:induction false} RunPreserves(s: State, actions: seq<Action>)
    requires Inv(s) && Run(s, actions).Some?
    ensures Inv(Run(s, actions).value)
    decreases |actions|
  {
    if actions == [] {
    } else {
      StepPreserves(s, actions[0]);
      RunPreserves(Step(s, actions[0]).value, actions[1..]);
    }
  }

  lemma InitialInv()
    ensures Inv(INITIAL)
  {
    assert InFlight(INITIAL) == [];
  }

  ghost predicate Reachable(s: State) {
    exists actions :: Run(INITIAL, actions) == Some(s)
  }

  lemma ReachableInv(s: State)
    requires Reachable(s)
    ensures Inv(s)
  {
    var actions :| Run(INITIAL, actions) == Some(s);
    InitialInv();
    RunPreserves(INITIAL, actions);
  }

  // ---------- Main results ----------

  // Byte transparency: for any mix of delay, fragmentation, coalescing, partial writes,
  // errors and stopping, the bytes handed to the connection are a prefix of the frames
  // sent, end to end; and once a healthy writer has nothing left they are all of it.
  lemma ShapingIsTransparent(s: State)
    requires Reachable(s)
    ensures s.out <= Bytes(s.accepted)
    ensures s.writer.Ready? && s.conn.frames == [] ==> s.out == Bytes(s.accepted)
  {
    ReachableInv(s);
    BytesMonotone(s.accepted, s.begun, |s.accepted|);
    assert s.accepted[..|s.accepted|] == s.accepted;
    if s.writer.Ready? && s.conn.frames == [] {
      assert s.accepted[..s.begun] == s.accepted;
    }
  }

  // The counter equals the asynchronous frames begun and not finished, and the queue
  // never exceeds its bound.
  lemma AsynchronousFramesAreCounted(s: State)
    requires Reachable(s)
    ensures s.conn.asyncFrames == SenderAsync(s.sender) + CountAsync(s.conn.frames) + WriterAsync(s.writer)
    ensures |s.conn.frames| <= QUEUE_SIZE
  {
    ReachableInv(s);
  }

  // On an open connection a synchronous frame is enqueued only when nothing else is
  // queued or being written, so it never meets a full queue.
  lemma SynchronousFrameFindsEmptyQueue(s: State)
    requires Reachable(s) && !s.conn.stopped && s.sender.Built? && !s.sender.frame.asynchronous
    ensures s.conn.frames == [] && !Carrying(s.writer)
    ensures EnqueueOutcome(s.conn) == Accepted
  {
    ReachableInv(s);
  }

  // No byte of a frame that is not due, nor of any frame sent after it, is on the wire.
  lemma NothingOvertakesADelayedFrame(s: State, k: nat)
    requires Reachable(s) && k < |s.accepted| && s.accepted[k].delayTarget > s.now
    ensures s.out <= Bytes(s.accepted[..k])
  {
    ReachableInv(s);
    ShapingIsTransparent(s);
    BytesAppend(s.accepted[..k], s.accepted[k..]);
    assert s.accepted[..k] + s.accepted[k..] == s.accepted;
  }
}
