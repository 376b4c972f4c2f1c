// The client's registry against the device's store: a session that lists the entities
// and then subscribes ends up with the device's own states (entities.go and
// simulator/simulator.go together).
module Replication {
  import opened Common
  import opened Entities
  import opened EntityRegistry
  import opened StateLog

  function Listings(entities: seq<Description>): (r: seq<Message>)
    ensures |r| == |entities|
  {
    seq(|entities|, i requires 0 <= i < |entities| => Listed(entities[i]))
  }

  function Reporting(states: seq<State>): (r: seq<Message>)
    ensures |r| == |states|
  {
    seq(|states|, i requires 0 <= i < |states| => Reported(states[i]))
  }

  // Validation refuses two entities with one identity.
  ghost predicate DistinctIdentities(entities: seq<Description>) {
    forall i, j | 0 <= i < j < |entities| :: entities[i].identity != entities[j].identity
  }

  // A listing leaves the entity as listed, with no state yet.
  lemma {:induction false} ListingDescribes(before: seq<Message>, entities: seq<Description>, d: Description)
    requires DistinctIdentities(entities) && d in entities
    ensures EntryAfter(before + Listings(entities), d.identity) == Some(Entry(Trimmed(d), ZeroState(d.identity)))
    decreases |entities|
  {
    var last := |entities| - 1;
    var earlier := entities[..last];
    assert before + Listings(entities) == (before + Listings(earlier)) + [Listed(entities[last])];
    EntryAfterOneMore(before + Listings(earlier), Listed(entities[last]), d.identity);
    if entities[last] != d {
      assert d in earlier;
      var k :| 0 <= k < last && earlier[k] == d;
      assert entities[k].identity != entities[last].identity;
      ListingDescribes(before, earlier, d);
    }
  }

  // Messages that do not list the entity again keep its description.
  lemma {:induction false} DescriptionStays(history: seq<Message>, more: seq<Message>, id: Identity)
    requires EntryAfter(history, id).Some?
    requires forall i | 0 <= i < |more| :: !Lists(more[i], id)
    ensures EntryAfter(history + more, id).Some?
    ensures EntryAfter(history + more, id).value.description == EntryAfter(history, id).value.description
    decreases |more|
  {
    if more == [] {
      assert history + more == history;
    } else {
      var last := |more| - 1;
      assert history + more == (history + more[..last]) + [more[last]];
      DescriptionStays(history, more[..last], id);
      EntryAfterOneMore(history + more[..last], more[last], id);
    }
  }

  // The states of one identity among the messages, and among states, in order.
  function ReportsOf(messages: seq<Message>, id: Identity): (r: seq<State>) {
    if messages == [] then []
    else
      var last := |messages| - 1;
      ReportsOf(messages[..last], id) + (if Reports(messages[last], id) then [messages[last].state] else [])
  }

  function StatesAbout(states: seq<State>, id: Identity): (r: seq<State>) {
    if states == [] then []
    else
      var last := |states| - 1;
      StatesAbout(states[..last], id) + (if IdentityOf(states[last]) == id then [states[last]] else [])
  }

  // Only they matter for what an observer takes an identity's state to be.
  lemma {:induction false} ShownIsTheLastAbout(states: seq<State>, id: Identity)
    ensures var about := StatesAbout(states, id);
            Shown(states, id) == if about == [] then None else Some(about[|about| - 1])
  {
    if states == [] {
    } else {
      ShownIsTheLastAbout(states[..|states| - 1], id);
    }
  }

  // Messages that do not list an entity leave it with the last state they report of it.
  lemma {:induction false} ReportsShow(history: seq<Message>, more: seq<Message>, id: Identity)
    requires EntryAfter(history, id).Some?
    requires forall i | 0 <= i < |more| :: !Lists(more[i], id)
    ensures var before, after, reports := EntryAfter(history, id), EntryAfter(history + more, id), ReportsOf(more, id);
            after == Some(before.value.(
              state := if reports == [] then before.value.state else Some(reports[|reports| - 1])))
    decreases |more|
  {
    if more == [] {
      assert history + more == history;
    } else {
      var last := |more| - 1;
      assert history + more == (history + more[..last]) + [more[last]];
      ReportsShow(history, more[..last], id);
      EntryAfterOneMore(history + more[..last], more[last], id);
    }
  }

  lemma {:induction false} ReportingReports(states: seq<State>, id: Identity)
    ensures ReportsOf(Reporting(states), id) == StatesAbout(states, id)
  {
    if states == [] {
    } else {
      ReportingReports(states[..|states| - 1], id);
      assert Reporting(states)[..|states| - 1] == Reporting(states[..|states| - 1]);
    }
  }

  // A client that lists the entities once and then subscribes: whatever else it was sent
  // before, in between or mixed with the states, its registry holds the device's state of
  // every listed entity that has one, as long as that entity's last writer is not another
  // session since.
  lemma {:induction false} RegistryAgreesWithTheStore<S>(
      before: seq<Message>, entities: seq<Description>, between: seq<Message>, after: seq<Message>,
      log: seq<Commit<S>>, since: nat, session: S, d: Description)
    requires DistinctIdentities(entities) && d in entities && since <= |log|
    requires forall i | 0 <= i < |between| :: !Lists(between[i], d.identity)
    requires forall i | 0 <= i < |after| :: !Lists(after[i], d.identity)
    requires ReportsOf(after, d.identity) == StatesAbout(Stream(log, since, session), d.identity)
    ensures Stored(log, d.identity).Some? && LastWriterIsHeard(log, since, session, d.identity) ==>
              EntryAfter(before + Listings(entities) + between + after, d.identity)
              == Some(Entry(Trimmed(d), Stored(log, d.identity)))
  {
    RegistryShows(before, entities, between, after, Stream(log, since, session), d);
    if Stored(log, d.identity).Some? && LastWriterIsHeard(log, since, session, d.identity) {
      StreamAgreesWithTheStore(log, since, session, d.identity);
    }
  }

  // Whatever the states are: the registry shows what they show.
  lemma {:induction false} RegistryShows(
      before: seq<Message>, entities: seq<Description>, between: seq<Message>, after: seq<Message>,
      states: seq<State>, d: Description)
    requires DistinctIdentities(entities) && d in entities
    requires forall i | 0 <= i < |between| :: !Lists(between[i], d.identity)
    requires forall i | 0 <= i < |after| :: !Lists(after[i], d.identity)
    requires ReportsOf(after, d.identity) == StatesAbout(states, d.identity)
    ensures Shown(states, d.identity).Some? ==>
              EntryAfter(before + Listings(entities) + between + after, d.identity)
              == Some(Entry(Trimmed(d), Shown(states, d.identity)))
  {
    ListingDescribes(before, entities, d);
    DescriptionStays(before + Listings(entities), between, d.identity);
    ReportsShow(before + Listings(entities) + between, after, d.identity);
    ShownIsTheLastAbout(states, d.identity);
  }

  // The states of the stream and nothing else are one such continuation.
  lemma StreamAloneWillDo<S>(log: seq<Commit<S>>, since: nat, session: S, id: Identity)
    requires since <= |log|
    ensures var after := Reporting(Stream(log, since, session));
            && (forall i | 0 <= i < |after| :: !Lists(after[i], id))
            && ReportsOf(after, id) == StatesAbout(Stream(log, since, session), id)
  {
    ReportingReports(Stream(log, since, session), id);
  }

  // Listing again afterwards loses the state until it is next reported: what was reported
  // before plays no part.
  lemma ListingAgainForgetsTheState(history: seq<Message>, d: Description, more: seq<Message>)
    requires forall i | 0 <= i < |more| :: !Lists(more[i], d.identity)
    ensures var reports := ReportsOf(more, d.identity);
            EntryAfter(history + [Listed(d)] + more, d.identity) ==
            Some(Entry(Trimmed(d), if reports == [] then ZeroState(d.identity) else Some(reports[|reports| - 1])))
  {
    EntryAfterOneMore(history, Listed(d), d.identity);
    ReportsShow(history + [Listed(d)], more, d.identity);
  }
}
