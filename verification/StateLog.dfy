// The state traffic of a simulated device seen as a log: every committed state with the
// session that commanded it, if any. The store, the snapshot and the stream one session
// is sent are all read off the log; this is the reference for the device that keeps only
// the latest states (simulator/simulator.go).
module StateLog {
  import opened Common
  import opened Entities

  // A timeline event or a pushed state has no writer; a command's state has its session.
  datatype Commit<+S> = Commit(state: State, writer: Option<S>)

  // The position after the last state of an identity, or 0.
  function LastOf(states: seq<State>, id: Identity): (r: nat)
    ensures r <= |states|
    ensures r > 0 ==> IdentityOf(states[r - 1]) == id
    ensures forall i | r <= i < |states| :: IdentityOf(states[i]) != id
  {
    if states == [] then 0
    else if IdentityOf(states[|states| - 1]) == id then |states|
    else LastOf(states[..|states| - 1], id)
  }

  // What an observer of these states takes an identity's state to be: the last one seen.
  function Shown(states: seq<State>, id: Identity): Option<State> {
    var last := LastOf(states, id);
    if last == 0 then None else Some(states[last - 1])
  }

  lemma ShownAppend(states: seq<State>, s: State, id: Identity)
    ensures Shown(states + [s], id) == if IdentityOf(s) == id then Some(s) else Shown(states, id)
  {
    assert (states + [s])[..|states|] == states;
  }

  lemma {:induction false} ShownConcat(a: seq<State>, b: seq<State>, id: Identity)
    ensures Shown(a + b, id) == if Shown(b, id).Some? then Shown(b, id) else Shown(a, id)
    decreases |b|
  {
    if b == [] {
      assert a + b == a;
    } else {
      var last := |b| - 1;
      assert a + b == (a + b[..last]) + [b[last]];
      assert b == b[..last] + [b[last]];
      ShownAppend(a + b[..last], b[last], id);
      ShownAppend(b[..last], b[last], id);
      ShownConcat(a, b[..last], id);
    }
  }

  function States<S>(log: seq<Commit<S>>): (r: seq<State>)
    ensures |r| == |log|
  {
    seq(|log|, i requires 0 <= i < |log| => log[i].state)
  }

  // The store: the last committed state of each identity.
  function Stored<S>(log: seq<Commit<S>>, id: Identity): Option<State> {
    Shown(States(log), id)
  }

  lemma StoredAppend<S>(log: seq<Commit<S>>, c: Commit<S>, id: Identity)
    ensures Stored(log + [c], id) == if IdentityOf(c.state) == id then Some(c.state) else Stored(log, id)
  {
    assert States(log + [c]) == States(log) + [c.state];
    ShownAppend(States(log), c.state, id);
  }

  // Identities in the order of their first commit.
  function OrderOf<S>(log: seq<Commit<S>>): (r: seq<Identity>)
    ensures forall i, j | 0 <= i < j < |r| :: r[i] != r[j]
    ensures forall i | 0 <= i < |log| :: IdentityOf(log[i].state) in r
    ensures forall id | id in r :: exists i :: 0 <= i < |log| && IdentityOf(log[i].state) == id
    decreases |log|
  {
    if log == [] then []
    else
      var last := |log| - 1;
      var earlier := OrderOf(log[..last]);
      var id := IdentityOf(log[last].state);
      if id in earlier then earlier else earlier + [id]
  }

  lemma OrderIsOfTheStored<S>(log: seq<Commit<S>>, id: Identity)
    ensures id in OrderOf(log) <==> Stored(log, id).Some?
  {
    var states := States(log);
    if id in OrderOf(log) {
      var i :| 0 <= i < |log| && IdentityOf(log[i].state) == id;
      assert IdentityOf(states[i]) == id;
    }
    if Stored(log, id).Some? {
      assert IdentityOf(log[LastOf(states, id) - 1].state) == id;
    }
  }

  // What a new subscriber is sent first.
  function Snapshot<S>(log: seq<Commit<S>>): (r: seq<State>)
    ensures |r| == |OrderOf(log)|
  {
    var order := OrderOf(log);
    seq(|order|, i requires 0 <= i < |order| =>
      OrderIsOfTheStored(log, order[i]);
      Stored(log, order[i]).value)
  }

  // The snapshot shows the whole store and nothing else, each identity once.
  lemma SnapshotShowsTheStore<S>(log: seq<Commit<S>>, id: Identity)
    ensures Shown(Snapshot(log), id) == Stored(log, id)
    ensures forall i, j | 0 <= i < j < |Snapshot(log)| :: IdentityOf(Snapshot(log)[i]) != IdentityOf(Snapshot(log)[j])
  {
    var order, snapshot := OrderOf(log), Snapshot(log);
    forall i | 0 <= i < |order|
      ensures IdentityOf(snapshot[i]) == order[i] && Some(snapshot[i]) == Stored(log, order[i])
    {
      OrderIsOfTheStored(log, order[i]);
    }
    OrderIsOfTheStored(log, id);
    if Stored(log, id).Some? {
      var i :| 0 <= i < |order| && order[i] == id;
      assert IdentityOf(snapshot[i]) == id;
      assert LastOf(snapshot, id) == i + 1;
    }
  }

  // ---------- One session's stream ----------

  // A state without a writer goes to every subscriber, a command's only to its session.
  predicate Visible<S(==)>(c: Commit<S>, session: S) {
    c.writer.None? || c.writer.value == session
  }

  function Relevant<S(==)>(log: seq<Commit<S>>, session: S): (r: seq<State>)
    decreases |log|
  {
    if log == [] then []
    else
      var last := |log| - 1;
      Relevant(log[..last], session) + (if Visible(log[last], session) then [log[last].state] else [])
  }

  // What a session has been sent that subscribed when the log was this long.
  function Stream<S(==)>(log: seq<Commit<S>>, since: nat, session: S): (r: seq<State>)
    requires since <= |log|
  {
    Snapshot(log[..since]) + Relevant(log[since..], session)
  }

  lemma StreamAppend<S>(log: seq<Commit<S>>, c: Commit<S>, since: nat, session: S)
    requires since <= |log|
    ensures Stream(log + [c], since, session) ==
            Stream(log, since, session) + (if Visible(c, session) then [c.state] else [])
  {
    var more := log + [c];
    assert more[..since] == log[..since];
    assert more[since..][..|log| - since] == log[since..];
    assert more[since..][|log| - since] == c;
  }

  lemma StreamAtSubscription<S>(log: seq<Commit<S>>, session: S)
    ensures Stream(log, |log|, session) == Snapshot(log)
  {
    assert log[..|log|] == log;
  }

  // The commits of an identity that one session has heard of: those before it subscribed
  // and those visible to it since.
  predicate Heard<S(==)>(log: seq<Commit<S>>, since: nat, session: S, i: nat)
    requires i < |log|
  {
    i < since || Visible(log[i], session)
  }

  // The position after the last heard commit of an identity, or 0.
  function LastHeard<S(==)>(log: seq<Commit<S>>, since: nat, session: S, id: Identity): (r: nat)
    ensures r <= |log|
    ensures r > 0 ==> IdentityOf(log[r - 1].state) == id && Heard(log, since, session, r - 1)
    ensures forall i | r <= i < |log| :: !(IdentityOf(log[i].state) == id && Heard(log, since, session, i))
    decreases |log|
  {
    if log == [] then 0
    else
      var last := |log| - 1;
      if IdentityOf(log[last].state) == id && Heard(log, since, session, last) then |log|
      else
        var r := LastHeard(log[..last], since, session, id);
        assert r > 0 ==> Heard(log[..last], since, session, r - 1);
        assert forall i | r <= i < last :: Heard(log, since, session, i) == Heard(log[..last], since, session, i);
        r
  }

  function HeardState<S(==)>(log: seq<Commit<S>>, since: nat, session: S, id: Identity): Option<State> {
    var last := LastHeard(log, since, session, id);
    if last == 0 then None else Some(log[last - 1].state)
  }

  lemma HeardStateAppend<S>(log: seq<Commit<S>>, c: Commit<S>, since: nat, session: S, id: Identity)
    requires since <= |log|
    ensures HeardState(log + [c], since, session, id) ==
            if IdentityOf(c.state) == id && Visible(c, session) then Some(c.state)
            else HeardState(log, since, session, id)
  {
    assert (log + [c])[..|log|] == log;
  }

  // The stream shows, of every identity, exactly the last commit the session heard of.
  lemma {:induction false} StreamShowsTheLastHeard<S>(log: seq<Commit<S>>, since: nat, session: S, id: Identity)
    requires since <= |log|
    ensures Shown(Stream(log, since, session), id) == HeardState(log, since, session, id)
    decreases |log|
  {
    if since == |log| {
      StreamAtSubscription(log, session);
      SnapshotShowsTheStore(log, id);
      HeardAllBefore(log, session, id);
    } else {
      var earlier, c := log[..|log| - 1], log[|log| - 1];
      assert log == earlier + [c];
      StreamShowsTheLastHeard(earlier, since, session, id);
      StreamShowsOneMore(earlier, c, since, session, id);
      HeardStateAppend(earlier, c, since, session, id);
    }
  }

  lemma StreamShowsOneMore<S>(log: seq<Commit<S>>, c: Commit<S>, since: nat, session: S, id: Identity)
    requires since <= |log|
    ensures Shown(Stream(log + [c], since, session), id) ==
            if IdentityOf(c.state) == id && Visible(c, session) then Some(c.state)
            else Shown(Stream(log, since, session), id)
  {
    StreamAppend(log, c, since, session);
    var stream := Stream(log, since, session);
    ShownAppend(stream, c.state, id);
    assert stream + [] == stream;
  }

  // The last writer of an identity, if it has one, is known to the session.
  predicate LastWriterIsHeard<S(==)>(log: seq<Commit<S>>, since: nat, session: S, id: Identity) {
    var last := LastOf(States(log), id);
    last == 0 || Heard(log, since, session, last - 1)
  }

  lemma HeardAllBefore<S>(log: seq<Commit<S>>, session: S, id: Identity)
    ensures HeardState(log, |log|, session, id) == Stored(log, id)
  {
    LastWriterHeard(log, |log|, session, id);
  }

  lemma LastWriterHeard<S>(log: seq<Commit<S>>, since: nat, session: S, id: Identity)
    requires LastWriterIsHeard(log, since, session, id)
    ensures HeardState(log, since, session, id) == Stored(log, id)
  {
    var states := States(log);
    var heard, last := LastHeard(log, since, session, id), LastOf(states, id);
    assert forall i | 0 <= i < |log| :: states[i] == log[i].state;
    assert heard <= last;
    assert last > 0 ==> IdentityOf(log[last - 1].state) == id;
  }

  // So it shows the device's own state of an identity if the last writer of that identity
  // is not another session, or wrote before the subscription.
  lemma {:induction false} StreamAgreesWithTheStore<S>(log: seq<Commit<S>>, since: nat, session: S, id: Identity)
    requires since <= |log| && LastWriterIsHeard(log, since, session, id)
    ensures Shown(Stream(log, since, session), id) == Stored(log, id)
  {
    StreamShowsTheLastHeard(log, since, session, id);
    LastWriterHeard(log, since, session, id);
  }

  // Otherwise it does only by chance: when the last state heard of is the same.
  lemma {:induction false} StreamAgreesExactlyWhen<S>(log: seq<Commit<S>>, since: nat, session: S, id: Identity)
    requires since <= |log|
    ensures Shown(Stream(log, since, session), id) == Stored(log, id)
       <==> LastWriterIsHeard(log, since, session, id) || HeardState(log, since, session, id) == Stored(log, id)
  {
    StreamShowsTheLastHeard(log, since, session, id);
    if LastWriterIsHeard(log, since, session, id) { LastWriterHeard(log, since, session, id); }
  }

  // And it does not notice what another session writes afterwards.
  lemma AnotherSessionsCommandGoesUnseen<S>(log: seq<Commit<S>>, since: nat, session: S, other: S, s: State)
    requires since <= |log| && other != session
    ensures var more := log + [Commit(s, Some(other))];
            && Stored(more, IdentityOf(s)) == Some(s)
            && Stream(more, since, session) == Stream(log, since, session)
            && (Shown(Stream(more, since, session), IdentityOf(s)) == Stored(more, IdentityOf(s))
                <==> Shown(Stream(log, since, session), IdentityOf(s)) == Some(s))
  {
    var c := Commit(s, Some(other));
    StoredAppend(log, c, IdentityOf(s));
    StreamAppend(log, c, since, session);
    assert Stream(log, since, session) + [] == Stream(log, since, session);
  }
}
