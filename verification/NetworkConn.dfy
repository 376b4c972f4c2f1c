// The connection object of simulator/network.go: its locked sections update the fields
// in place as NetworkModel says, and its writer hands every chunk over in order.
module NetworkConn {
  import opened Common
  import opened ByteStreams
  import opened NetworkModel

  // The virtual clock as a writer sees it: it moves forward by itself.
  class SharedClock {
    var now: nat

    constructor ()
      ensures now == 0
    {
      now := 0;
    }

    method Pass()
      modifies this
      ensures old(now) <= now
    {
      var passed: nat :| 0 <= passed;
      now := now + passed;
    }
  }

  class ShapedConn {
    const sink: Sink
    const clock: SharedClock
    var stopped: bool
    var fragmentNext: bool
    var coalesceNext: bool
    var delayNextTarget: nat
    var frameActive: bool
    var fragmentActive: bool
    var coalesceActive: bool
    var delayActive: nat
    var segments: seq<seq<Byte>>
    var asyncFrames: nat
    var frames: seq<Frame>
    var nextDone: nat
    ghost var times: seq<nat>        // when each write to the connection was made

    ghost function Now(): Conn
      reads this
    {
      Conn(stopped, fragmentNext, coalesceNext, delayNextTarget, frameActive, fragmentActive, coalesceActive,
           delayActive, segments, asyncFrames, frames, nextDone)
    }

    constructor (sink: Sink, clock: SharedClock)
      ensures Now() == IDLE_CONN && this.sink == sink && this.clock == clock
    {
      this.sink := sink;
      this.clock := clock;
      stopped, fragmentNext, coalesceNext, delayNextTarget := false, false, false, 0;
      frameActive, fragmentActive, coalesceActive, delayActive := false, false, false, 0;
      segments, asyncFrames, frames, nextDone, times := [], 0, [], 0, [];
    }

    method ArmNext(action: NetworkAction, now: nat, delay: nat)
      modifies this
      ensures Now() == Arm(old(Now()), action, now, delay)
      ensures fragmentNext == (old(fragmentNext) || action.FragmentFrame?)
      ensures coalesceNext == (old(coalesceNext) || action.CoalesceSegments?)
      ensures delayNextTarget == if action.DelayReply? then now + delay else old(delayNextTarget)
    {
      match action
      case FragmentFrame => fragmentNext := true;
      case CoalesceSegments => coalesceNext := true;
      case DelayReply => delayNextTarget := now + delay;
    }

    method BeginNextFrame()
      modifies this
      ensures Now() == BeginFrame(old(Now()))
      ensures fragmentActive == old(fragmentNext) && coalesceActive == old(coalesceNext)
      ensures delayActive == old(delayNextTarget) && frameActive && segments == []
      ensures !fragmentNext && !coalesceNext && delayNextTarget == 0
    {
      frameActive := true;
      fragmentActive := fragmentNext;
      fragmentNext := false;
      coalesceActive := coalesceNext;
      coalesceNext := false;
      delayActive := delayNextTarget;
      delayNextTarget := 0;
      segments := [];
    }

    // Inside a frame the payload is kept for the writer, a closed connection refuses it,
    // and outside a frame it goes straight to the underlying connection.
    method WritePayload(payload: seq<Byte>) returns (written: int, failed: bool)
      modifies this, sink
      ensures old(stopped) ==> failed && Now() == old(Now()) && sink.out == old(sink.out)
      ensures !old(stopped) && old(frameActive) ==>
        !failed && written == |payload| && sink.out == old(sink.out)
        && Now() == old(Now()).(segments := old(segments) + [payload])
      ensures !old(stopped) && !old(frameActive) ==>
        && 0 <= written <= |payload| && sink.out == old(sink.out) + payload[..written] && Now() == old(Now())
        && failed == sink.fails(old(sink.writes)) && sink.writes == old(sink.writes) + 1
    {
      if stopped { return 0, true; }
      if frameActive {
        segments := segments + [payload];
        return |payload|, false;
      }
      written, failed := sink.Write(payload);
    }

    method BuildFrame() returns (frame: Frame)
      modifies this
      ensures frame == BuiltFrame(old(Now())) && Now() == EndFrame(old(Now()))
      ensures frame.segments == old(segments) && frame.delayTarget == old(delayActive)
      ensures frame.fragment == old(fragmentActive) && frame.coalesce == old(coalesceActive)
      ensures frame.asynchronous == (old(delayActive) > 0 || old(asyncFrames) > 0)
      ensures asyncFrames == old(asyncFrames) + (if frame.asynchronous then 1 else 0) && !frameActive
    {
      var asynchronous := delayActive > 0 || asyncFrames > 0;
      frame := Frame(segments, fragmentActive, coalesceActive, delayActive, asynchronous, nextDone);
      if asynchronous { asyncFrames := asyncFrames + 1; }
      nextDone := nextDone + 1;
      frameActive := false;
      fragmentActive := false;
      coalesceActive := false;
      delayActive := 0;
      segments := [];
    }

    method EnqueueFrame(frame: Frame) returns (outcome: Enqueued)
      modifies this
      ensures outcome == if old(stopped) then RefusedClosed else if |old(frames)| < 64 then Accepted else RefusedFull
      ensures frames == old(frames) + (if outcome == Accepted then [frame] else [])
      ensures outcome == EnqueueOutcome(old(Now())) && Now() == Enqueue(old(Now()), frame)
    {
      if stopped { return RefusedClosed; }
      if |frames| < QUEUE_SIZE {
        frames := frames + [frame];
        return Accepted;
      }
      return RefusedFull;
    }

    method FinishAsyncFrame(frame: Frame)
      modifies this
      ensures Now() == FinishAsync(old(Now()), frame)
      ensures asyncFrames ==
              if frame.asynchronous && old(asyncFrames) > 0 then old(asyncFrames) - 1 else old(asyncFrames)
    {
      if !frame.asynchronous { return; }
      if asyncFrames > 0 { asyncFrames := asyncFrames - 1; }
    }

    // The writes made since then were all made at this time or later.
    twostate predicate WroteSince(start: nat)
      reads this, clock
    {
      && old(times) <= times && start <= clock.now
      && forall k | |old(times)| <= k < |times| :: start <= times[k]
    }

    // What may happen between two steps of the writer: time passes, and another goroutine
    // stops the connection.
    method Interrupted()
      modifies clock, this`stopped
      ensures old(clock.now) <= clock.now && (old(stopped) ==> stopped)
    {
      clock.Pass();
      if * { stopped := true; }
    }

    // How writing stands since then: it has only gone on if every write was good, and has only
    // failed because the connection was stopped or the last write was not good.
    twostate predicate Tried(start: nat, failed: bool)
      reads this, clock, sink
    {
      && WroteSince(start) && (sink.out != old(sink.out) ==> times != old(times))
      && (old(stopped) ==> stopped)
      && (if failed then stopped || sink.GoodUpTo(true) else sink.GoodUpTo(false))
    }

    method WriteAll(payload: seq<Byte>) returns (failed: bool)
      modifies sink, clock, this`times, this`stopped
      ensures Tried(old(clock.now), failed)
      ensures old(stopped) && payload != [] ==> failed && sink.out == old(sink.out)
      ensures !failed ==> sink.out == old(sink.out) + payload
      ensures old(sink.out) <= sink.out <= old(sink.out) + payload
    {
      var rest := payload;
      while |rest| > 0
        invariant Tried(old(clock.now), false)
        invariant old(stopped) ==> rest == payload && sink.out == old(sink.out)
        invariant sink.out + rest == old(sink.out) + payload
        invariant old(sink.out) <= sink.out
        decreases |rest|
      {
        Interrupted();
        if stopped { return true; }
        times := times + [clock.now];
        var written, error := sink.Write(rest);
        if error || written <= 0 { return true; }
        rest := rest[written..];
      }
      return false;
    }

    // Each segment with its own write. The payloads offered to WriteAll are recorded.
    method WriteSegments(parts: seq<seq<Byte>>) returns (failed: bool, ghost calls: seq<seq<Byte>>)
      modifies sink, clock, this`times, this`stopped
      ensures Tried(old(clock.now), failed)
      ensures calls <= parts && (!failed ==> calls == parts)
      ensures !failed ==> sink.out == old(sink.out) + Flatten(parts)
      ensures old(sink.out) <= sink.out <= old(sink.out) + Flatten(parts)
    {
      var i := 0;
      while i < |parts|
        invariant 0 <= i <= |parts|
        invariant Tried(old(clock.now), false)
        invariant sink.out == old(sink.out) + Flatten(parts[..i])
      {
        FlattenTake(parts, i);
        var error := WriteAll(parts[i]);
        if error { return true, parts[..i + 1]; }
        i := i + 1;
      }
      assert parts[..i] == parts;
      return false, parts;
    }

    // Every byte of a segment with its own write.
    method WriteBytes(segment: seq<Byte>) returns (failed: bool, ghost calls: seq<seq<Byte>>)
      modifies sink, clock, this`times, this`stopped
      ensures Tried(old(clock.now), failed)
      ensures calls <= SingleBytes(segment) && (!failed ==> calls == SingleBytes(segment))
      ensures !failed ==> sink.out == old(sink.out) + segment
      ensures old(sink.out) <= sink.out <= old(sink.out) + segment
    {
      var j := 0;
      while j < |segment|
        invariant 0 <= j <= |segment|
        invariant Tried(old(clock.now), false)
        invariant sink.out == old(sink.out) + segment[..j]
      {
        ghost var before := sink.out;
        assert segment[..j] + [segment[j]] == segment[..j + 1];
        assert before + [segment[j]] == old(sink.out) + segment[..j + 1];
        var error := WriteAll([segment[j]]);
        if error { return true, SingleBytes(segment)[..j + 1]; }
        j := j + 1;
      }
      assert segment[..j] == segment;
      return false, SingleBytes(segment);
    }

    // Every byte of every segment with its own write.
    method WriteFragments(parts: seq<seq<Byte>>) returns (failed: bool, ghost calls: seq<seq<Byte>>)
      modifies sink, clock, this`times, this`stopped
      ensures Tried(old(clock.now), failed)
      ensures calls <= SingleBytes(Flatten(parts)) && (!failed ==> calls == SingleBytes(Flatten(parts)))
      ensures !failed ==> sink.out == old(sink.out) + Flatten(parts)
      ensures old(sink.out) <= sink.out <= old(sink.out) + Flatten(parts)
    {
      calls := [];
      var i := 0;
      while i < |parts|
        invariant 0 <= i <= |parts|
        invariant Tried(old(clock.now), false)
        invariant sink.out == old(sink.out) + Flatten(parts[..i])
        invariant calls == SingleBytes(Flatten(parts[..i]))
      {
        FlattenTake(parts, i);
        ghost var done := Flatten(parts[..i]);
        assert SingleBytes(done + parts[i]) == SingleBytes(done) + SingleBytes(parts[i]);
        var error, more := WriteBytes(parts[i]);
        calls := calls + more;
        if error {
          FragmentsBehind(done, parts[i], Flatten(parts), more, calls);
          return true, calls;
        }
        i := i + 1;
      }
      assert parts[..i] == parts;
      return false, calls;
    }

    // All segments in one buffer, with one write.
    method WriteCoalesced(parts: seq<seq<Byte>>) returns (failed: bool, ghost calls: seq<seq<Byte>>)
      modifies sink, clock, this`times, this`stopped
      ensures Tried(old(clock.now), failed)
      ensures calls == [Flatten(parts)]
      ensures !failed ==> sink.out == old(sink.out) + Flatten(parts)
      ensures old(sink.out) <= sink.out <= old(sink.out) + Flatten(parts)
    {
      var payload := [];
      for i := 0 to |parts|
        modifies {}
        invariant payload == Flatten(parts[..i])
      {
        FlattenTake(parts, i);
        payload := payload + parts[i];
      }
      assert parts[..|parts|] == parts;
      failed := WriteAll(payload);
      calls := [payload];
    }

    // The wait for a delayed frame: it ends at the target, or because the connection was
    // stopped.
    method WaitFor(target: nat) returns (cut: bool)
      modifies clock, this`stopped
      ensures old(clock.now) <= clock.now && (old(stopped) ==> stopped)
      ensures if cut then stopped else target <= clock.now
    {
      Interrupted();
      if clock.now < target {
        stopped := true;
        return true;
      }
      cut := *;
      cut := cut && stopped;
    }

    // writeFrame: a delayed frame first waits for its target, or for the connection to
    // stop. Then exactly the chunks of its shape are offered, with every write made at the
    // target or later, and whatever the shape the bytes are its segments end to end. It
    // fails only if the connection is stopped or a write is not good.
    method WriteFrame(frame: Frame) returns (failed: bool, ghost calls: seq<seq<Byte>>)
      modifies sink, clock, this`times, this`stopped
      ensures old(times) <= times && (sink.out != old(sink.out) ==> times != old(times))
      ensures forall k | |old(times)| <= k < |times| :: frame.delayTarget <= times[k]
      ensures if failed then stopped || sink.GoodUpTo(true) else sink.GoodUpTo(false)
      ensures old(stopped) ==> stopped
      ensures calls <= Chunks(frame) && (!failed ==> calls == Chunks(frame))
      ensures !failed ==> sink.out == old(sink.out) + Flatten(frame.segments)
      ensures old(sink.out) <= sink.out <= old(sink.out) + Flatten(frame.segments)
    {
      if frame.delayTarget > 0 {
        var cut := WaitFor(frame.delayTarget);
        if cut { return true, []; }
      }
      if frame.coalesce {
        failed, calls := WriteCoalesced(frame.segments);
      } else if frame.fragment {
        failed, calls := WriteFragments(frame.segments);
      } else {
        failed, calls := WriteSegments(frame.segments);
      }
    }
  }

  lemma FragmentsBehind(done: seq<Byte>, part: seq<Byte>, all: seq<Byte>, more: seq<seq<Byte>>, calls: seq<seq<Byte>>)
    requires done + part <= all && more <= SingleBytes(part) && calls == SingleBytes(done) + more
    ensures calls <= SingleBytes(all)
  {
    assert calls <= SingleBytes(done + part);
    assert SingleBytes(done + part) <= SingleBytes(all);
  }

  lemma FlattenTake(parts: seq<seq<Byte>>, i: nat)
    requires i < |parts|
    ensures Flatten(parts[..i + 1]) == Flatten(parts[..i]) + parts[i]
    ensures Flatten(parts[..i + 1]) <= Flatten(parts)
  {
    FlattenAppend(parts[..i], [parts[i]]);
    assert parts[..i] + [parts[i]] == parts[..i + 1];
    FlattenOne(parts[i]);
    FlattenPrefix(parts, i + 1);
  }

  lemma FlattenOne(part: seq<Byte>)
    ensures Flatten([part]) == part
  {
    assert Flatten([part]) == part + Flatten([]);
  }

  lemma FlattenPrefix(parts: seq<seq<Byte>>, i: nat)
    requires i <= |parts|
    ensures Flatten(parts[..i]) <= Flatten(parts)
  {
    FlattenAppend(parts[..i], parts[i..]);
    assert parts[..i] + parts[i..] == parts;
  }

  lemma {:induction false} SingleBytesFlatten(bytes: seq<Byte>)
    ensures Flatten(SingleBytes(bytes)) == bytes
  {
    if bytes == [] {
    } else {
      assert SingleBytes(bytes)[1..] == SingleBytes(bytes[1..]);
      SingleBytesFlatten(bytes[1..]);
    }
  }

  // Shaping is invisible in the bytes: however a frame is cut, its chunks are its
  // segments end to end.
  lemma ChunksFlatten(frame: Frame)
    ensures Flatten(Chunks(frame)) == Flatten(frame.segments)
  {
    if frame.coalesce {
      FlattenOne(Flatten(frame.segments));
    } else if frame.fragment {
      SingleBytesFlatten(Flatten(frame.segments));
    }
  }
}
