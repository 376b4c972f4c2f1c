// Virtual time, simulator/clock.go: a manual clock that wakes waiters and moves the
// timelines of its devices. An advance is atomic with respect to other advances.
module VirtualClock {
  import opened Common
  import opened Entities
  import opened StateLog
  import opened DeviceStore

  const MAX_DURATION := 0x7FFF_FFFF_FFFF_FFFF

  datatype ClockError = Backwards | TooFar

  // The events that fall due between two times.
  function DueBetween(timeline: seq<Event>, earlier: int, later: int): (r: seq<Event>) {
    var first, end := CountDue(timeline, earlier), CountDue(timeline, later);
    if first <= end then timeline[first..end] else []
  }

  lemma DueBetweenSplits(timeline: seq<Event>, t0: int, t1: int, t2: int)
    requires t0 <= t1 <= t2
    ensures DueBetween(timeline, t0, t1) + DueBetween(timeline, t1, t2) == DueBetween(timeline, t0, t2)
  {
    DueGrows(timeline, t0, t1);
    DueGrows(timeline, t1, t2);
  }

  // They are exactly the events with a time in the interval, in declaration order.
  lemma DueBetweenIsTheInterval(timeline: seq<Event>, earlier: int, later: int)
    requires Sorted(timeline) && earlier <= later
    ensures var first := CountDue(timeline, earlier);
            && (forall i | 0 <= i < |timeline| ::
                  earlier < timeline[i].at <= later <==> first <= i < first + |DueBetween(timeline, earlier, later)|)
            && (forall k | 0 <= k < |DueBetween(timeline, earlier, later)| ::
                  first + k < |timeline| && DueBetween(timeline, earlier, later)[k] == timeline[first + k])
  {
    DueAreFirst(timeline, earlier);
    DueAreFirst(timeline, later);
    DueGrows(timeline, earlier, later);
    var first, end := CountDue(timeline, earlier), CountDue(timeline, later);
    assert DueBetween(timeline, earlier, later) == timeline[first..end];
  }

  // The waiters an advance leaves registered, and those it wakes.
  function Waiting(waiters: map<nat, int>, now: int): map<nat, int> {
    map w | w in waiters && waiters[w] > now :: waiters[w]
  }

  function Overdue(waiters: map<nat, int>, now: int): set<nat> {
    set w | w in waiters && waiters[w] <= now
  }

  lemma WakingSplits(waiters: map<nat, int>, t1: int, t2: int)
    requires t1 <= t2
    ensures Waiting(Waiting(waiters, t1), t2) == Waiting(waiters, t2)
    ensures Overdue(waiters, t1) + Overdue(Waiting(waiters, t1), t2) == Overdue(waiters, t2)
  {
  }

  lemma FiredConcat(a: seq<Event>, b: seq<Event>)
    ensures Fired(a) + Fired(b) == Fired(a + b)
    ensures StatesOf(a) + StatesOf(b) == StatesOf(a + b)
  {
  }

  class Clock {
    var now: int
    var devices: seq<Device>
    var waiters: map<nat, int>       // the target of each waiter still registered
    var woken: set<nat>              // the waiters whose channel was closed
    var nextWaiter: nat

    ghost function Sessions(): set<Session>
      reads this, devices
    {
      set d, s | d in devices && s in d.connections :: s
    }

    // Devices share nothing.
    ghost predicate Separate()
      reads this, devices
    {
      forall i, j | 0 <= i < j < |devices| ::
        devices[i] != devices[j] && devices[i].connections !! devices[j].connections
    }

    // Every timeline has been followed exactly up to now, and no waiter is overdue.
    ghost predicate Valid()
      reads this, devices, Sessions()
    {
      && 0 <= now <= MAX_DURATION
      && Separate()
      && (forall d | d in devices :: d.Valid() && d.timelineIndex == CountDue(d.timeline, now))
      && (forall w | w in waiters :: waiters[w] > now && w !in woken && w < nextWaiter)
      && (forall w | w in woken :: w < nextWaiter)
    }

    // What an advance does once the clock is set: the waiters, and for every device the
    // events of the interval, committed and delivered in order.
    twostate predicate CaughtUp()
      reads this, devices, Sessions()
    {
      && devices == old(devices) && nextWaiter == old(nextWaiter)
      && WaitersServed()
      && forall d | d in devices :: Moved(d, old(now), now)
    }

    // A waiter whose target has come is woken and forgotten; any other waits on.
    twostate predicate WaitersServed()
      reads this
    {
      && (forall w :: w in waiters <==> w in old(waiters) && old(waiters)[w] > now)
      && (forall w | w in waiters :: waiters[w] == old(waiters)[w])
      && (forall w :: w in woken <==> w in old(woken) || (w in old(waiters) && old(waiters)[w] <= now))
    }

    twostate predicate Moved(d: Device, earlier: int, later: int)
      reads d, d.connections
    {
      && d.connections == old(d.connections)
      && d.timelineIndex == CountDue(d.timeline, later)
      && d.log == old(d.log) + Fired(DueBetween(d.timeline, earlier, later))
      && forall s | s in d.connections ::
           s.subscribed == old(s.subscribed) && s.Received(StatesOf(DueBetween(d.timeline, earlier, later)))
    }

    constructor ()
      ensures Valid() && now == 0 && devices == [] && waiters == map[] && woken == {}
    {
      now, devices, waiters, woken, nextWaiter := 0, [], map[], {}, 0;
    }

    method Advance(delta: int) returns (error: Option<ClockError>)
      requires Valid()
      modifies this`now, this`waiters, this`woken, devices`currentStates, devices`stateOrder, devices`timelineIndex,
               devices`log, Sessions()`sent, Sessions()`lossy, Sessions()`sends
      ensures Valid()
      ensures error == if delta < 0 then Some(Backwards)
                       else if old(now) + delta > MAX_DURATION then Some(TooFar)
                       else None
      ensures error.Some? ==> unchanged(this) && forall d | d in devices :: Untouched(d)
      ensures error.None? ==> now == old(now) + delta && CaughtUp()
    {
      if delta < 0 { return Some(Backwards); }
      if delta > MAX_DURATION - now { return Some(TooFar); }
      var target := now + delta;
      MoveTo(target);
      return None;
    }

    method AdvanceTo(target: int) returns (error: Option<ClockError>)
      requires Valid() && target <= MAX_DURATION
      modifies this`now, this`waiters, this`woken, devices`currentStates, devices`stateOrder, devices`timelineIndex,
               devices`log, Sessions()`sent, Sessions()`lossy, Sessions()`sends
      ensures Valid()
      ensures error == if target < old(now) then Some(Backwards) else None
      ensures error.Some? ==> unchanged(this) && forall d | d in devices :: Untouched(d)
      ensures error.None? ==> now == target && CaughtUp()
    {
      if target < now { return Some(Backwards); }
      MoveTo(target);
      return None;
    }

    method MoveTo(target: int)
      requires Valid() && now <= target <= MAX_DURATION
      modifies this`now, this`waiters, this`woken, devices`currentStates, devices`stateOrder, devices`timelineIndex,
               devices`log, Sessions()`sent, Sessions()`lossy, Sessions()`sends
      ensures Valid() && now == target && CaughtUp()
    {
      now := target;
      WakeDue();
      MoveDevices(old(now));
    }

    // Brings every timeline from an earlier time up to now.
    method MoveDevices(ghost earlier: int)
      requires Separate() && earlier <= now
      requires forall d | d in devices :: d.Valid() && d.timelineIndex == CountDue(d.timeline, earlier)
      modifies devices`currentStates, devices`stateOrder, devices`timelineIndex, devices`log,
        Sessions()`sent, Sessions()`lossy, Sessions()`sends
      ensures forall d | d in devices :: d.Valid() && Moved(d, earlier, now)
    {
      for i := 0 to |devices|
        invariant Separate()
        invariant forall k | 0 <= k < i :: devices[k].Valid() && Moved(devices[k], earlier, now)
        invariant forall k | i <= k < |devices| :: Untouched(devices[k])
      {
        assert devices[i] in devices && devices[i].connections <= old(Sessions());
        MoveAt(i, devices[i], earlier);
      }
    }

    method MoveAt(i: nat, d: Device, ghost earlier: int)
      requires i < |devices| && d == devices[i] && Separate() && earlier <= now
      requires d.Valid() && d.timelineIndex == CountDue(d.timeline, earlier)
      modifies d`currentStates, d`stateOrder, d`timelineIndex, d`log,
               d.connections`sent, d.connections`lossy, d.connections`sends
      ensures d.Valid() && Moved(d, earlier, now)
      ensures forall k | 0 <= k < |devices| && k != i :: Untouched(devices[k])
    {
      MoveOne(d, earlier);
    }

    method MoveOne(d: Device, ghost earlier: int)
      requires earlier <= now && d.Valid() && d.timelineIndex == CountDue(d.timeline, earlier)
      modifies d`currentStates, d`stateOrder, d`timelineIndex, d`log,
               d.connections`sent, d.connections`lossy, d.connections`sends
      ensures d.Valid() && Moved(d, earlier, now)
    {
      DueGrows(d.timeline, earlier, now);
      d.AdvanceTimeline(now);
    }

    twostate predicate Untouched(d: Device)
      reads d, d.connections
    {
      unchanged(d) && forall s | s in d.connections :: unchanged(s)
    }

    // Closes the channel of every waiter whose target has come.
    method WakeDue()
      modifies this`waiters, this`woken
      ensures WaitersServed()
      ensures waiters == Waiting(old(waiters), now)
      ensures woken == old(woken) + Overdue(old(waiters), now)
    {
      var rest := waiters.Keys;
      while rest != {}
        invariant rest <= old(waiters).Keys
        invariant waiters == (map w | w in old(waiters) && (w in rest || old(waiters)[w] > now) :: old(waiters)[w])
        invariant woken == old(woken) + (set w | w in old(waiters) && w !in rest && old(waiters)[w] <= now)
        decreases |rest|
      {
        var w :| w in rest;
        if waiters[w] <= now {
          waiters := waiters - {w};
          woken := woken + {w};
        }
        rest := rest - {w};
      }
    }

    // waitUntil up to the point where it blocks: nothing to wait for, or a new waiter.
    method BeginWait(target: int) returns (waiter: Option<nat>)
      requires Valid()
      modifies this`waiters, this`nextWaiter
      ensures Valid()
      ensures old(now) >= target ==> waiter == None && waiters == old(waiters) && nextWaiter == old(nextWaiter)
      ensures old(now) < target ==>
                waiter == Some(old(nextWaiter)) && waiters == old(waiters)[old(nextWaiter) := target]
    {
      if now >= target { return None; }
      waiter := Some(nextWaiter);
      waiters := waiters[nextWaiter := target];
      nextWaiter := nextWaiter + 1;
    }

    // The other way out of waitUntil: the connection stops, and the waiter is forgotten.
    method StopWait(waiter: nat)
      requires Valid()
      modifies this`waiters
      ensures Valid() && waiters == old(waiters) - {waiter}
    {
      waiters := waiters - {waiter};
    }

    // A new device joins and its timeline catches up with the clock.
    method Register(device: Device)
      requires Valid() && device.Valid() && device.timelineIndex == 0
      requires device !in devices && forall d | d in devices :: d.connections !! device.connections
      modifies this`devices, device`currentStates, device`stateOrder, device`log, device`timelineIndex,
               device.connections`sent, device.connections`lossy, device.connections`sends
      ensures Valid() && devices == old(devices) + [device]
      ensures device.log == old(device.log) + Fired(device.timeline[..CountDue(device.timeline, now)])
      ensures forall s | s in device.connections ::
                s.Received(StatesOf(device.timeline[..CountDue(device.timeline, now)]))
    {
      devices := devices + [device];
      device.AdvanceTimeline(now);
    }

    // The first registration of a device is undone; its timeline stops.
    method Unregister(device: Device)
      requires Valid()
      modifies this`devices
      ensures Valid()
      ensures device !in old(devices) ==> devices == old(devices)
      ensures device in old(devices) ==>
                exists i :: 0 <= i < |old(devices)| && old(devices)[i] == device
                  && devices == old(devices)[..i] + old(devices)[i + 1..]
    {
      for i := 0 to |devices|
        invariant device !in devices[..i]
      {
        if devices[i] == device {
          devices := devices[..i] + devices[i + 1..];
          return;
        }
      }
    }
  }

  // Advancing in two steps or in one makes no difference: the same clock, waiters,
  // stores, timeline positions and pushes to every subscriber.
  method AdvanceInTwo(clock: Clock, a: int, b: int)
    requires clock.Valid() && a >= 0 && b >= 0 && clock.now + a + b <= MAX_DURATION
    modifies clock`now, clock`waiters, clock`woken, clock.devices`currentStates, clock.devices`stateOrder,
             clock.devices`timelineIndex, clock.devices`log,
             clock.Sessions()`sent, clock.Sessions()`lossy, clock.Sessions()`sends
    ensures clock.Valid() && clock.now == old(clock.now) + a + b && clock.CaughtUp()
  {
    var first := clock.Advance(a);
    ghost var t0, t1 := old(clock.now), clock.now;
    assert clock.devices == old(clock.devices) && clock.Sessions() == old(clock.Sessions());
    label Between:
    var second := clock.Advance(b);
    ghost var t2 := clock.now;
    assert clock.WaitersServed();
    assert forall d | d in clock.devices :: clock.Moved(d, t0, t2) by {
      forall d | d in clock.devices
        ensures d.log == old(d.log) + Fired(DueBetween(d.timeline, t0, t2))
      {
        LogSplits(old(d.log), old@Between(d.log), d.log, d.timeline, t0, t1, t2);
      }
      forall d, s | d in clock.devices && s in d.connections
        ensures s.Received(StatesOf(DueBetween(d.timeline, t0, t2)))
      {
        DeliverySplits(d.timeline, t0, t1, t2, s.fails, old(s.Now()));
      }
    }
  }

  // A wait ends with the advance that reaches its target, and not before.
  method WaitThenAdvance(clock: Clock, target: int, delta: int) returns (waiter: Option<nat>)
    requires clock.Valid() && delta >= 0 && clock.now + delta <= MAX_DURATION
    modifies clock`now, clock`waiters, clock`woken, clock`nextWaiter, clock.devices`currentStates,
             clock.devices`stateOrder, clock.devices`timelineIndex, clock.devices`log,
             clock.Sessions()`sent, clock.Sessions()`lossy, clock.Sessions()`sends
    ensures clock.Valid() && clock.now == old(clock.now) + delta
    ensures waiter.None? <==> target <= old(clock.now)
    ensures waiter.Some? ==> (waiter.value in clock.woken <==> target <= clock.now)
    ensures waiter.Some? ==> (waiter.value in clock.waiters <==> clock.now < target)
  {
    waiter := clock.BeginWait(target);
    assert clock.Sessions() == old(clock.Sessions());
    var error := clock.Advance(delta);
  }

  lemma LogSplits(log0: seq<Commit<Session>>, log1: seq<Commit<Session>>, log2: seq<Commit<Session>>,
                  timeline: seq<Event>, t0: int, t1: int, t2: int)
    requires t0 <= t1 <= t2
    requires log1 == log0 + Fired(DueBetween(timeline, t0, t1)) && log2 == log1 + Fired(DueBetween(timeline, t1, t2))
    ensures log2 == log0 + Fired(DueBetween(timeline, t0, t2))
  {
    DueBetweenSplits(timeline, t0, t1, t2);
    FiredConcat(DueBetween(timeline, t0, t1), DueBetween(timeline, t1, t2));
  }

  lemma DeliverySplits(timeline: seq<Event>, t0: int, t1: int, t2: int, fails: nat -> bool, start: Sending)
    requires t0 <= t1 <= t2
    ensures SendEach(fails, SendEach(fails, start, StatesOf(DueBetween(timeline, t0, t1))),
                     StatesOf(DueBetween(timeline, t1, t2)))
            == SendEach(fails, start, StatesOf(DueBetween(timeline, t0, t2)))
  {
    var early, late := DueBetween(timeline, t0, t1), DueBetween(timeline, t1, t2);
    DueBetweenSplits(timeline, t0, t1, t2);
    FiredConcat(early, late);
    SendEachSplits(fails, start, StatesOf(early), StatesOf(late));
  }
}
