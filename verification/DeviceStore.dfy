// The simulated device's latest-state store, its state subscriptions and its timeline,
// simulator/simulator.go. One lock serializes every commit with the sends that belong to
// it, so each operation here is one such critical section. The ghost log is the reference:
// what every subscriber has been sent is a function of it.
module DeviceStore {
  import opened Common
  import opened Entities
  import opened StateLog

  datatype Event = Event(at: int, state: State)

  ghost predicate Sorted(timeline: seq<Event>) {
    forall i, j | 0 <= i < j < |timeline| :: timeline[i].at <= timeline[j].at
  }

  // How many events are due at a time.
  function CountDue(timeline: seq<Event>, now: int): (r: nat)
    ensures r <= |timeline|
  {
    if timeline == [] then 0
    else CountDue(timeline[..|timeline| - 1], now) + (if timeline[|timeline| - 1].at <= now then 1 else 0)
  }

  // Of a sorted timeline they are the first ones.
  lemma {:induction false} DueAreFirst(timeline: seq<Event>, now: int)
    requires Sorted(timeline)
    ensures forall i | 0 <= i < |timeline| :: timeline[i].at <= now <==> i < CountDue(timeline, now)
  {
    if timeline == [] {
    } else {
      DueAreFirst(timeline[..|timeline| - 1], now);
    }
  }

  lemma {:induction false} DueGrows(timeline: seq<Event>, earlier: int, later: int)
    requires earlier <= later
    ensures CountDue(timeline, earlier) <= CountDue(timeline, later)
    decreases |timeline|
  {
    if timeline == [] {
    } else {
      DueGrows(timeline[..|timeline| - 1], earlier, later);
    }
  }

  // The device's own commits, which no session has commanded.
  function Announced(states: seq<State>): (r: seq<Commit<Session>>)
    ensures |r| == |states|
  {
    seq(|states|, i requires 0 <= i < |states| => Commit(states[i], None))
  }

  lemma AnnouncedOneMore(states: seq<State>, state: State)
    ensures Announced(states + [state]) == Announced(states) + [Commit(state, None)]
  {
  }

  // What a run of timeline events commits.
  function Fired(events: seq<Event>): (r: seq<Commit<Session>>)
    ensures |r| == |events|
  {
    Announced(StatesOf(events))
  }

  function StatesOf(events: seq<Event>): (r: seq<State>)
    ensures |r| == |events|
  {
    seq(|events|, i requires 0 <= i < |events| => events[i].state)
  }

  // A store of latest states, and the order of their first commits, mirror a log.
  ghost predicate Mirrors(states: map<Identity, State>, order: seq<Identity>, log: seq<Commit<Session>>) {
    && (forall id :: Stored(log, id) == if id in states then Some(states[id]) else None)
    && order == OrderOf(log)
  }

  lemma MirrorsOneMore(states: map<Identity, State>, order: seq<Identity>, log: seq<Commit<Session>>,
                       c: Commit<Session>)
    requires Mirrors(states, order, log)
    ensures var id := IdentityOf(c.state);
            Mirrors(states[id := c.state], if id in states then order else order + [id], log + [c])
  {
    var added := states[IdentityOf(c.state) := c.state];
    forall id
      ensures Stored(log + [c], id) == if id in added then Some(added[id]) else None
    {
      StoredAppend(log, c, id);
    }
    OrderIsOfTheStored(log, IdentityOf(c.state));
    OrderOneMore(log, c);
  }

  lemma OrderOneMore(log: seq<Commit<Session>>, c: Commit<Session>)
    ensures var id := IdentityOf(c.state);
            OrderOf(log + [c]) == if id in OrderOf(log) then OrderOf(log) else OrderOf(log) + [id]
  {
    assert (log + [c])[..|log|] == log;
  }

  ghost predicate UpToDate(sent: seq<State>, mark: nat, since: nat, session: Session, log: seq<Commit<Session>>) {
    since <= |log| && mark <= |sent| && sent[mark..] == Stream(log, since, session)
  }

  lemma UpToDateOneMore(sent: seq<State>, mark: nat, since: nat, session: Session, log: seq<Commit<Session>>,
                        c: Commit<Session>)
    requires UpToDate(sent, mark, since, session, log)
    ensures UpToDate(sent + (if Visible(c, session) then [c.state] else []), mark, since, session, log + [c])
  {
    StreamAppend(log, c, since, session);
  }

  // ---------- Sending ----------

  // What has become of a session's sends: the states that went out, how many sends were
  // tried, and whether one has failed since it subscribed.
  datatype Sending = Sending(sent: seq<State>, sends: nat, lossy: bool)

  // Each state is tried once, in order; the connection decides which sends fail.
  function SendEach(fails: nat -> bool, before: Sending, states: seq<State>): Sending
    decreases |states|
  {
    if states == [] then before
    else
      var last := |states| - 1;
      var s := SendEach(fails, before, states[..last]);
      if fails(s.sends) then Sending(s.sent, s.sends + 1, true)
      else Sending(s.sent + [states[last]], s.sends + 1, s.lossy)
  }

  // Nothing is lost but by a failed send, and nothing is sent out of order or twice.
  lemma {:induction false} SentUnlessFailed(fails: nat -> bool, before: Sending, states: seq<State>)
    ensures var after := SendEach(fails, before, states);
            && after.sends == before.sends + |states|
            && (after.lossy <==> before.lossy || exists k :: before.sends <= k < after.sends && fails(k))
            && ((forall k | before.sends <= k < after.sends :: !fails(k)) ==> after.sent == before.sent + states)
            && before.sent <= after.sent
    decreases |states|
  {
    if states == [] {
      assert before.sent + [] == before.sent;
    } else {
      var last := |states| - 1;
      SentUnlessFailed(fails, before, states[..last]);
      assert (before.sent + states[..last]) + [states[last]] == before.sent + states;
    }
  }

  lemma {:induction false} SendEachSplits(fails: nat -> bool, before: Sending, a: seq<State>, b: seq<State>)
    ensures SendEach(fails, before, a + b) == SendEach(fails, SendEach(fails, before, a), b)
    decreases |b|
  {
    if b == [] {
      assert a + b == a;
    } else {
      var last := |b| - 1;
      assert (a + b)[..|a + b| - 1] == a + b[..last];
      SendEachSplits(fails, before, a, b[..last]);
    }
  }

  lemma SendOneMore(fails: nat -> bool, before: Sending, states: seq<State>, state: State)
    ensures var s := SendEach(fails, before, states);
            SendEach(fails, before, states + [state]) ==
            if fails(s.sends) then Sending(s.sent, s.sends + 1, true)
            else Sending(s.sent + [state], s.sends + 1, s.lossy)
  {
    assert (states + [state])[..|states|] == states;
  }

  lemma SendNext(fails: nat -> bool, before: Sending, states: seq<State>, i: nat)
    requires i < |states|
    ensures var s := SendEach(fails, before, states[..i]);
            && SendEach(fails, before, states[..i + 1]) == SendEach(fails, s, [states[i]])
            && SendEach(fails, s, [states[i]]).sends == s.sends + 1
  {
    SendEachSplits(fails, before, states[..i], [states[i]]);
    assert states[..i] + [states[i]] == states[..i + 1];
    SentUnlessFailed(fails, SendEach(fails, before, states[..i]), [states[i]]);
  }

  // The values a fan or light command starts from: those stored, or zeroes.
  function FanIn(states: map<Identity, State>, key: nat): FanValues {
    var id := Identity(Fan, key);
    if id in states && states[id].FanState? then states[id].fan else ZERO_FAN
  }

  function LightIn(states: map<Identity, State>, key: nat): LightValues {
    var id := Identity(Light, key);
    if id in states && states[id].LightState? then states[id].light else ZERO_LIGHT
  }

  class Session {
    const fails: nat -> bool        // which of its sends the connection will refuse
    var subscribed: bool
    var sends: nat                  // sends tried
    ghost var sent: seq<State>      // the states it was sent
    ghost var mark: nat             // how many of them precede its last subscription
    ghost var since: nat            // how long the log was at that subscription
    ghost var lossy: bool           // a send has failed since then

    constructor (fails: nat -> bool)
      ensures !subscribed && sent == [] && sends == 0 && this.fails == fails
    {
      this.fails := fails;
      subscribed, sends, sent, mark, since, lossy := false, 0, [], 0, 0, false;
    }

    ghost function Now(): Sending
      reads this
    {
      Sending(sent, sends, lossy)
    }

    method Send(state: State) returns (ok: bool)
      modifies this`sent, this`lossy, this`sends
      ensures ok <==> !fails(old(sends))
      ensures Now() == SendEach(fails, old(Now()), [state])
    {
      SendOneMore(fails, Now(), [], state);
      assert [] + [state] == [state];
      ok := !fails(sends);
      sends := sends + 1;
      if ok { sent := sent + [state]; } else { lossy := true; }
    }

    // Sends in order until one fails.
    method SendAll(states: seq<State>) returns (ok: bool)
      modifies this`sent, this`lossy, this`sends
      ensures ok ==> Now() == SendEach(fails, old(Now()), states)
      ensures ok <==> forall k | old(sends) <= k < old(sends) + |states| :: !fails(k)
      ensures !ok ==> old(sends) < sends <= old(sends) + |states|
      ensures !ok ==> Now() == SendEach(fails, old(Now()), states[..sends - old(sends)]) && fails(sends - 1)
    {
      for i := 0 to |states|
        invariant Now() == SendEach(fails, old(Now()), states[..i]) && sends == old(sends) + i
        invariant forall k | old(sends) <= k < sends :: !fails(k)
      {
        SendNext(fails, old(Now()), states, i);
        var sent := Send(states[i]);
        if !sent { return false; }
      }
      assert states[..|states|] == states;
      return true;
    }

    ghost predicate Follows(log: seq<Commit<Session>>)
      reads this
    {
      subscribed && !lossy ==> UpToDate(sent, mark, since, this, log)
    }

    // If it has subscribed, each of these states was tried once, in order; otherwise nothing.
    twostate predicate Received(states: seq<State>)
      reads this
    {
      Now() == if subscribed then SendEach(fails, old(Now()), states) else old(Now())
    }
  }

  class Device {
    const timeline: seq<Event>
    var currentStates: map<Identity, State>
    var stateOrder: seq<Identity>
    var timelineIndex: nat
    var connections: set<Session>
    ghost var log: seq<Commit<Session>>

    ghost predicate StoreMatches()
      reads this
    {
      Mirrors(currentStates, stateOrder, log)
    }

    // The store is what the log says, and so is what every connected subscriber was sent.
    ghost predicate Valid()
      reads this, connections
    {
      && Sorted(timeline)
      && timelineIndex <= |timeline|
      && StoreMatches()
      && forall s | s in connections :: s.Follows(log)
    }

    constructor (initial: seq<State>, timeline: seq<Event>)
      requires Sorted(timeline)
      ensures Valid() && this.timeline == timeline && timelineIndex == 0 && connections == {}
      ensures log == Announced(initial)
    {
      this.timeline := timeline;
      currentStates, stateOrder, timelineIndex, connections, log := map[], [], 0, {}, [];
      new;
      for i := 0 to |initial|
        invariant StoreMatches() && connections == {} && timelineIndex == 0
        invariant log == Announced(initial[..i])
      {
        Store(initial[i], None);
        AnnouncedOneMore(initial[..i], initial[i]);
        assert initial[..i] + [initial[i]] == initial[..i + 1];
      }
      assert initial[..|initial|] == initial;
    }

    // storeStateLocked
    method Store(state: State, ghost writer: Option<Session>)
      requires StoreMatches()
      modifies this`currentStates, this`stateOrder, this`log
      ensures StoreMatches() && log == old(log) + [Commit(state, writer)]
    {
      var identity := IdentityOf(state);
      MirrorsOneMore(currentStates, stateOrder, log, Commit(state, writer));
      if identity !in currentStates { stateOrder := stateOrder + [identity]; }
      currentStates := currentStates[identity := state];
      log := log + [Commit(state, writer)];
    }

    // stateSnapshotLocked
    method TakeSnapshot() returns (snapshot: seq<State>)
      requires StoreMatches()
      ensures snapshot == Snapshot(log)
    {
      snapshot := [];
      for i := 0 to |stateOrder|
        invariant snapshot == Snapshot(log)[..i]
      {
        OrderIsOfTheStored(log, stateOrder[i]);
        if stateOrder[i] in currentStates { snapshot := snapshot + [currentStates[stateOrder[i]]]; }
      }
    }

    method Connect(fails: nat -> bool) returns (session: Session)
      requires Valid()
      modifies this`connections
      ensures Valid() && fresh(session) && connections == old(connections) + {session}
      ensures !session.subscribed && session.sent == [] && session.fails == fails
    {
      session := new Session(fails);
      connections := connections + {session};
    }

    // A session's task ends, or a connection is dropped.
    method Disconnect(gone: set<Session>)
      requires Valid()
      modifies this`connections
      ensures Valid() && connections == old(connections) - gone
    {
      connections := connections - gone;
    }

    // The SubscribeStatesRequest case of serve; a client may subscribe again.
    method Subscribe(session: Session) returns (ok: bool)
      requires Valid()
      modifies session
      ensures Valid() && session.subscribed
      ensures ok <==> forall k | old(session.sends) <= k < old(session.sends) + |Snapshot(log)| :: !session.fails(k)
      ensures ok ==> !session.lossy && session.sent == old(session.sent) + Snapshot(log)
      ensures !ok ==> session.lossy
      ensures session.since == |log| && session.mark == |old(session.sent)|
    {
      session.subscribed := true;
      session.since, session.mark, session.lossy := |log|, |session.sent|, false;
      var snapshot := TakeSnapshot();
      StreamAtSubscription(log, session);
      ok := SendSnapshot(session, snapshot);
    }

    method SendSnapshot(session: Session, snapshot: seq<State>) returns (ok: bool)
      modifies session`sent, session`lossy, session`sends
      ensures ok <==> forall k | old(session.sends) <= k < old(session.sends) + |snapshot| :: !session.fails(k)
      ensures ok ==> session.lossy == old(session.lossy) && session.sent == old(session.sent) + snapshot
      ensures !ok ==> session.lossy
    {
      ghost var before := session.Now();
      ok := session.SendAll(snapshot);
      SentUnlessFailed(session.fails, before, snapshot);
      SentUnlessFailed(session.fails, before, snapshot[..session.sends - before.sends]);
    }

    // A command's state is committed and echoed to the session that sent it, to no other.
    method StoreAndSend(session: Session, state: State) returns (ok: bool)
      requires Valid()
      modifies this`currentStates, this`stateOrder, this`log, session`sent, session`lossy, session`sends
      ensures Valid() && log == old(log) + [Commit(state, Some(session))]
      ensures ok <==> !session.fails(old(session.sends))
      ensures session.Now() == SendEach(session.fails, old(session.Now()), [state])
    {
      Store(state, Some(session));
      ok := session.Send(state);
      FollowsEcho(Commit(state, Some(session)));
    }

    twostate lemma FollowsEcho(c: Commit<Session>)
      requires c.writer.Some? && connections == old(connections)
      requires forall s | s in connections ::
                 old(s.Follows(log)) && s.subscribed == old(s.subscribed) && s.mark == old(s.mark)
                 && s.since == old(s.since)
      requires forall s | s in connections ::
                 s.Now() == if c.writer == Some(s) then SendEach(s.fails, old(s.Now()), [c.state]) else old(s.Now())
      ensures forall s | s in connections :: s.Follows(old(log) + [c])
    {
      forall s | s in connections && s.subscribed && !s.lossy
        ensures s.Follows(old(log) + [c])
      {
        SentUnlessFailed(s.fails, old(s.Now()), [c.state]);
        UpToDateOneMore(old(s.sent), s.mark, s.since, s, old(log), c);
        assert old(s.sent) + [] == old(s.sent);
      }
    }

    // Sends a state to every connected subscriber; a failure is that session's own.
    method SendToSubscribers(state: State)
      modifies connections`sent, connections`lossy, connections`sends
      ensures forall s | s in connections :: s.Received([state])
    {
      var rest := connections;
      while rest != {}
        invariant rest <= connections
        invariant forall s | s in connections - rest :: s.Received([state])
        invariant forall s | s in rest :: s.Now() == old(s.Now())
        decreases |rest|
      {
        var s :| s in rest;
        if s.subscribed { var _ := s.Send(state); }
        rest := rest - {s};
      }
    }

    // Commits a state and sends it to every connected subscriber.
    method Broadcast(state: State)
      requires Valid()
      modifies this`currentStates, this`stateOrder, this`log, connections`sent, connections`lossy, connections`sends
      ensures Valid() && log == old(log) + [Commit(state, None)]
      ensures forall s | s in connections :: s.Received([state])
    {
      Store(state, None);
      SendToSubscribers(state);
      FollowsPush(Commit(state, None));
    }

    twostate lemma FollowsPush(c: Commit<Session>)
      requires c.writer == None && connections == old(connections)
      requires forall s | s in connections ::
                 old(s.Follows(log)) && s.Received([c.state])
                 && s.subscribed == old(s.subscribed) && s.mark == old(s.mark) && s.since == old(s.since)
      ensures forall s | s in connections :: s.Follows(old(log) + [c])
    {
      forall s | s in connections && s.subscribed && !s.lossy
        ensures s.Follows(old(log) + [c])
      {
        SentUnlessFailed(s.fails, old(s.Now()), [c.state]);
        UpToDateOneMore(old(s.sent), s.mark, s.since, s, old(log), c);
      }
    }

    method CurrentFan(key: nat) returns (values: FanValues)
      requires StoreMatches()
      ensures values == FanIn(currentStates, key)
      ensures Identity(Fan, key) in currentStates ==> currentStates[Identity(Fan, key)] == FanState(key, values)
      ensures Identity(Fan, key) !in currentStates ==> values == ZERO_FAN
    {
      var id := Identity(Fan, key);
      if id !in currentStates { return ZERO_FAN; }
      StoredUnderItsIdentity(id);
      return currentStates[id].fan;
    }

    method CurrentLight(key: nat) returns (values: LightValues)
      requires StoreMatches()
      ensures values == LightIn(currentStates, key)
      ensures Identity(Light, key) in currentStates ==> currentStates[Identity(Light, key)] == LightState(key, values)
      ensures Identity(Light, key) !in currentStates ==> values == ZERO_LIGHT
    {
      var id := Identity(Light, key);
      if id !in currentStates { return ZERO_LIGHT; }
      StoredUnderItsIdentity(id);
      return currentStates[id].light;
    }

    lemma StoredUnderItsIdentity(id: Identity)
      requires StoreMatches() && id in currentStates
      ensures IdentityOf(currentStates[id]) == id
    {
      assert Stored(log, id) == Some(currentStates[id]);
    }

    // The SwitchCommandRequest and NumberCommandRequest cases of serve.
    method SwitchCommanded(session: Session, key: nat, on: bool) returns (ok: bool)
      requires Valid()
      modifies this`currentStates, this`stateOrder, this`log, session`sent, session`lossy, session`sends
      ensures Valid() && log == old(log) + [Commit(SwitchState(key, on), Some(session))]
      ensures ok <==> !session.fails(old(session.sends))
      ensures session.Now() == SendEach(session.fails, old(session.Now()), [SwitchState(key, on)])
    {
      ok := StoreAndSend(session, SwitchState(key, on));
    }

    method NumberCommanded(session: Session, key: nat, value: real) returns (ok: bool)
      requires Valid()
      modifies this`currentStates, this`stateOrder, this`log, session`sent, session`lossy, session`sends
      ensures Valid() && log == old(log) + [Commit(NumberState(key, value, false), Some(session))]
      ensures ok <==> !session.fails(old(session.sends))
      ensures session.Now() == SendEach(session.fails, old(session.Now()), [NumberState(key, value, false)])
    {
      ok := StoreAndSend(session, NumberState(key, value, false));
    }

    // The FanCommandRequest case of serve.
    method FanCommanded(session: Session, command: FanCommand) returns (ok: bool)
      requires Valid()
      modifies this`currentStates, this`stateOrder, this`log, session`sent, session`lossy, session`sends
      ensures Valid()
      ensures var id := Identity(Fan, command.key);
              var values := FanIn(old(currentStates), command.key);
              var state := FanState(command.key, FanAfter(values, command));
              && (id in old(currentStates) ==> old(currentStates)[id] == FanState(command.key, values))
              && (id !in old(currentStates) ==> values == ZERO_FAN)
              && log == old(log) + [Commit(state, Some(session))]
              && (ok <==> !session.fails(old(session.sends)))
              && session.Now() == SendEach(session.fails, old(session.Now()), [state])
    {
      var values := CurrentFan(command.key);
      values := ApplyFan(values, command);
      ok := StoreAndSend(session, FanState(command.key, values));
    }

    // The LightCommandRequest case of serve.
    method LightCommanded(session: Session, command: LightCommand) returns (ok: bool)
      requires Valid()
      modifies this`currentStates, this`stateOrder, this`log, session`sent, session`lossy, session`sends
      ensures Valid()
      ensures var id := Identity(Light, command.key);
              var values := LightIn(old(currentStates), command.key);
              var state := LightState(command.key, LightAfter(values, command));
              && (id in old(currentStates) ==> old(currentStates)[id] == LightState(command.key, values))
              && (id !in old(currentStates) ==> values == ZERO_LIGHT)
              && log == old(log) + [Commit(state, Some(session))]
              && (ok <==> !session.fails(old(session.sends)))
              && session.Now() == SendEach(session.fails, old(session.Now()), [state])
    {
      var values := CurrentLight(command.key);
      values := ApplyLight(values, command);
      ok := StoreAndSend(session, LightState(command.key, values));
    }

    // Since the log and the sessions were as recorded, exactly these events have fired.
    ghost predicate FiredSince(earlier: seq<Commit<Session>>, start: map<Session, Sending>,
                               fired: seq<Event>)
      reads this, connections
    {
      && log == earlier + Fired(fired)
      && forall s | s in connections ::
           s in start && s.Now() == if s.subscribed then SendEach(s.fails, start[s], StatesOf(fired)) else start[s]
    }

    // The next event is committed and pushed, on top of those fired before.
    method FireNext(ghost earlier: seq<Commit<Session>>, ghost start: map<Session, Sending>,
                    ghost fired: seq<Event>)
      requires Valid() && timelineIndex < |timeline| && FiredSince(earlier, start, fired)
      modifies this`currentStates, this`stateOrder, this`log, this`timelineIndex,
               connections`sent, connections`lossy, connections`sends
      ensures Valid() && timelineIndex == old(timelineIndex) + 1
      ensures FiredSince(earlier, start, fired + [timeline[old(timelineIndex)]])
    {
      var event := timeline[timelineIndex];
      timelineIndex := timelineIndex + 1;
      Broadcast(event.state);
      FiredOneMore(fired, event);
      forall s | s in connections
        ensures s in start
        ensures s.Now() == if s.subscribed then SendEach(s.fails, start[s], StatesOf(fired + [event])) else start[s]
      {
        SendEachSplits(s.fails, start[s], StatesOf(fired), [event.state]);
      }
    }

    // Every event due by now, in order, each committed and pushed once.
    method AdvanceTimeline(now: int)
      requires Valid()
      modifies this`currentStates, this`stateOrder, this`log, this`timelineIndex,
               connections`sent, connections`lossy, connections`sends
      ensures Valid()
      ensures timelineIndex ==
              if old(timelineIndex) < CountDue(timeline, now) then CountDue(timeline, now) else old(timelineIndex)
      ensures log == old(log) + Fired(timeline[old(timelineIndex)..timelineIndex])
      ensures forall s | s in connections :: s.Received(StatesOf(timeline[old(timelineIndex)..timelineIndex]))
    {
      FireDue(now, log, map s | s in connections :: s.Now());
      StopsWhereDueEnds(timeline, now, old(timelineIndex), timelineIndex);
    }

    // Fires one event after the other and stops at the first that is not due.
    method FireDue(now: int, ghost earlier: seq<Commit<Session>>, ghost start: map<Session, Sending>)
      requires Valid() && FiredSince(earlier, start, [])
      modifies this`currentStates, this`stateOrder, this`log, this`timelineIndex,
               connections`sent, connections`lossy, connections`sends
      ensures Valid() && old(timelineIndex) <= timelineIndex
      ensures forall i | old(timelineIndex) <= i < timelineIndex :: timeline[i].at <= now
      ensures timelineIndex < |timeline| ==> timeline[timelineIndex].at > now
      ensures FiredSince(earlier, start, timeline[old(timelineIndex)..timelineIndex])
    {
      ghost var first := timelineIndex;
      assert timeline[first..first] == [];
      while timelineIndex < |timeline|
        invariant Valid() && first <= timelineIndex
        invariant forall i | first <= i < timelineIndex :: timeline[i].at <= now
        invariant FiredSince(earlier, start, timeline[first..timelineIndex])
        decreases |timeline| - timelineIndex
      {
        if timeline[timelineIndex].at > now { break; }
        assert timeline[first..timelineIndex] + [timeline[timelineIndex]] == timeline[first..timelineIndex + 1];
        FireNext(earlier, start, timeline[first..timelineIndex]);
      }
    }
  }

  lemma StopsWhereDueEnds(timeline: seq<Event>, now: int, first: nat, end: nat)
    requires Sorted(timeline) && first <= end <= |timeline|
    requires forall i | first <= i < end :: timeline[i].at <= now
    requires end < |timeline| ==> timeline[end].at > now
    ensures end == if first < CountDue(timeline, now) then CountDue(timeline, now) else first
  {
    DueAreFirst(timeline, now);
  }

  // A connected subscriber that no send to has failed can read the device's own state of an
  // entity off what it was sent, unless another session wrote that state since.
  lemma SubscriberShowsTheStore(device: Device, session: Session, id: Identity)
    requires device.Valid() && session in device.connections
    requires session.subscribed && !session.lossy
    requires LastWriterIsHeard(device.log, session.since, session, id)
    ensures session.mark <= |session.sent|
    ensures Shown(session.sent[session.mark..], id) ==
            if id in device.currentStates then Some(device.currentStates[id]) else None
  {
    assert session.Follows(device.log);
    StreamAgreesWithTheStore(device.log, session.since, session, id);
  }

  lemma FiredOneMore(events: seq<Event>, event: Event)
    ensures Fired(events + [event]) == Fired(events) + [Commit(event.state, None)]
    ensures StatesOf(events + [event]) == StatesOf(events) + [event.state]
  {
  }
}
