// A client listing entities and its peer, client.go. The protocol does not say which request
// an entity or a completion answers; here a peer that answers the requests it receives once
// each, in order, keeps account of it.
module ListingAnswers {
  import opened Common
  import opened Entities
  import opened Listing
  import Dispatch

  // ---------- A client and such a peer ----------

  datatype System = System(
    client: Dispatch.Client,
    owed: seq<nat>,                  // requests not completely answered, by call
    origins: seq<Option<nat>>)       // the request each message read was sent in answer to

  datatype PeerMove = Entity(message: Message) | Completion | Unrelated(message: Message)

  datatype Event = ByPeer(p: PeerMove) | ByClient(a: Dispatch.Action)

  function Initial(capacity: nat): System {
    System(Dispatch.Initial(capacity), [], [])
  }

  // An entity or the completion of some listing.
  predicate IsPart(m: Message) {
    IsListEntity(m) || m.ListingDone?
  }

  // The client's action that goes with an event.
  function ActionOf(e: Event): Dispatch.Action {
    match e
    case ByPeer(Entity(m)) => Dispatch.ByReader(Dispatch.Read(m))
    case ByPeer(Completion) => Dispatch.ByReader(Dispatch.Read(ListingDone))
    case ByPeer(Unrelated(m)) => Dispatch.ByReader(Dispatch.Read(m))
    case ByClient(a) => a
  }

  // What the peer may send: parts of the answer to its oldest request, and anything else.
  predicate Allowed(owed: seq<nat>, e: Event) {
    match e
    case ByPeer(Entity(m)) => owed != [] && IsListEntity(m)
    case ByPeer(Completion) => owed != []
    case ByPeer(Unrelated(m)) => !IsPart(m)
    case ByClient(a) => !(a.ByReader? && a.r.Read?)
  }

  function OwedAfter(owed: seq<nat>, e: Event): seq<nat> {
    match e
    case ByPeer(Completion) => if owed == [] then [] else owed[1..]
    case ByClient(ByCaller(id, Send)) => owed + [id]
    case _ => owed
  }

  function OriginsAfter(owed: seq<nat>, origins: seq<Option<nat>>, e: Event): seq<Option<nat>> {
    match e
    case ByClient(_) => origins
    case ByPeer(Unrelated(_)) => origins + [None]
    case ByPeer(_) => origins + [if owed == [] then None else Some(owed[0])]
  }

  function Step(s: System, e: Event): Option<System> {
    if !Allowed(s.owed, e) then None
    else
      match Dispatch.Step(s.client, ActionOf(e))
      case None => None
      case Some(client) => Some(System(client, OwedAfter(s.owed, e), OriginsAfter(s.owed, s.origins, e)))
  }

  function Run(s: System, events: seq<Event>): Option<System>
    decreases |events|
  {
    if events == [] then Some(s)
    else
      match Run(s, events[..|events| - 1])
      case None => None
      case Some(before) => Step(before, events[|events| - 1])
  }

  // ---------- Counting completions ----------

  function Completions(messages: seq<Message>): nat {
    if messages == [] then 0
    else Completions(messages[..|messages| - 1]) + (if messages[|messages| - 1].ListingDone? then 1 else 0)
  }

  lemma CompletionsOneMore(messages: seq<Message>, m: Message)
    ensures Completions(messages + [m]) == Completions(messages) + (if m.ListingDone? then 1 else 0)
  {
    assert (messages + [m])[..|messages|] == messages;
  }

  lemma {:induction false} CompletionsGrow(messages: seq<Message>, i: nat, j: nat)
    requires i <= j <= |messages|
    ensures Completions(messages[..i]) <= Completions(messages[..j])
    ensures (forall k | i <= k < j :: !messages[k].ListingDone?) ==>
              Completions(messages[..i]) == Completions(messages[..j])
    decreases j
  {
    if i == j {
    } else {
      CompletionsGrow(messages, i, j - 1);
      assert messages[..j] == messages[..j - 1] + [messages[j - 1]];
      CompletionsOneMore(messages[..j - 1], messages[j - 1]);
    }
  }

  lemma CompletionsOfPrefix(a: seq<Message>, b: seq<Message>)
    requires a <= b
    ensures Completions(a) <= Completions(b)
  {
    CompletionsGrow(b, |a|, |b|);
    assert b[..|a|] == a && b[..|b|] == b;
  }

  // ---------- The account ----------

  // The k-th completion read, with the entities before it, answers the k-th request.
  ghost predicate Attributed(read: seq<Message>, requests: seq<nat>, origins: seq<Option<nat>>) {
    && |origins| == |read|
    && forall k | 0 <= k < |read| ::
         if IsPart(read[k]) then
           Completions(read[..k]) < |requests| && origins[k] == Some(requests[Completions(read[..k])])
         else origins[k] == None
  }

  ghost predicate Accounted(s: System) {
    && Attributed(s.client.read, s.client.requests, s.origins)
    && Completions(s.client.read) <= |s.client.requests|
    && s.owed == s.client.requests[Completions(s.client.read)..]
  }

  // A call sends one request.
  ghost predicate Requested(requests: seq<nat>, callers: map<nat, Dispatch.Caller>) {
    && (forall i, j | 0 <= i < j < |requests| :: requests[i] != requests[j])
    && (forall i | 0 <= i < |requests| :: requests[i] in callers && !callers[requests[i]].Registered?)
  }

  ghost predicate Inv(s: System) {
    Dispatch.Sound(s.client) && Accounted(s) && Requested(s.client.requests, s.client.callers)
  }

  lemma AttributedOneMore(read: seq<Message>, requests: seq<nat>, origins: seq<Option<nat>>, m: Message)
    requires Attributed(read, requests, origins)
    requires IsPart(m) ==> Completions(read) < |requests|
    ensures Attributed(read + [m], requests, origins + [if IsPart(m) then Some(requests[Completions(read)]) else None])
  {
    var more := read + [m];
    forall k | 0 <= k < |more| ensures more[..k] == if k < |read| then read[..k] else read {
    }
  }

  // What a client action leaves alone, when it is not a read and not a request.
  lemma ClientKeeps(c: Dispatch.Client, a: Dispatch.Action)
    requires Dispatch.Step(c, a).Some? && !(a.ByReader? && a.r.Read?)
    ensures var d := Dispatch.Step(c, a).value;
            && d.read == c.read
            && d.requests == c.requests + (if a.ByCaller? && a.c.Send? then [a.id] else [])
  {
  }

  lemma CallersKeep(c: Dispatch.Client, a: Dispatch.Action)
    requires Requested(c.requests, c.callers) && Dispatch.Step(c, a).Some?
    ensures var d := Dispatch.Step(c, a).value; Requested(d.requests, d.callers)
  {
    match a
    case ByReader(r) => ReaderGrows(c, r, Dispatch.Step(c, a).value);
    case ByDispatcher(m) => DispatcherGrows(c, m, Dispatch.Step(c, a).value);
    case ByCaller(id, m) => CallerRequests(c, id, m);
    case _ =>
  }

  lemma CallerRequests(c: Dispatch.Client, id: nat, m: Dispatch.CallerMove)
    requires Requested(c.requests, c.callers) && Dispatch.CallerStep(c, id, m).Some?
    ensures var d := Dispatch.CallerStep(c, id, m).value; Requested(d.requests, d.callers)
  {
    var d := Dispatch.CallerStep(c, id, m).value;
    if m.Send? {
      assert d.requests == c.requests + [id] && id !in c.requests;
    } else {
      assert d.requests == c.requests;
    }
  }

  lemma PeerReads(s: System, p: PeerMove, m: Message)
    requires Step(s, ByPeer(p)).Some?
    requires m == match p case Entity(m) => m case Completion => ListingDone case Unrelated(m) => m
    ensures var t := Step(s, ByPeer(p)).value;
            && t.client.read == s.client.read + [m] && t.client.requests == s.client.requests
            && (IsPart(m) ==> s.owed != [])
            && t.owed == (if m.ListingDone? then s.owed[1..] else s.owed)
            && t.origins == s.origins + [if IsPart(m) then Some(s.owed[0]) else None]
  {
  }

  lemma PeerAccounted(s: System, p: PeerMove)
    requires Accounted(s) && Step(s, ByPeer(p)).Some?
    ensures Accounted(Step(s, ByPeer(p)).value)
  {
    var m := match p case Entity(m) => m case Completion => ListingDone case Unrelated(m) => m;
    PeerReads(s, p, m);
    CompletionsOneMore(s.client.read, m);
    AttributedOneMore(s.client.read, s.client.requests, s.origins, m);
  }

  lemma ClientAccounted(s: System, a: Dispatch.Action)
    requires Accounted(s) && Step(s, ByClient(a)).Some?
    ensures Accounted(Step(s, ByClient(a)).value)
  {
    ClientKeeps(s.client, a);
  }

  lemma StepInv(s: System, e: Event, t: System)
    requires Inv(s)
    ensures Step(s, e) == Some(t) ==> Inv(t)
  {
    if Step(s, e) == Some(t) {
      Dispatch.StepSound(s.client, ActionOf(e));
      CallersKeep(s.client, ActionOf(e));
      match e
      case ByPeer(p) => PeerAccounted(s, p);
      case ByClient(a) => ClientAccounted(s, a);
    }
  }

  lemma {:induction false} RunInv(s: System, events: seq<Event>, t: System)
    requires Inv(s) && Run(s, events) == Some(t)
    ensures Inv(t)
    decreases |events|
  {
    if events == [] {
    } else {
      var before := Run(s, events[..|events| - 1]).value;
      RunInv(s, events[..|events| - 1], before);
      StepInv(before, events[|events| - 1], t);
    }
  }

  lemma InitialInv(capacity: nat)
    ensures Inv(Initial(capacity))
  {
    Dispatch.InitialSound(capacity);
  }

  // ---------- Runs of the system are runs of the client ----------

  function Actions(events: seq<Event>): (r: seq<Dispatch.Action>)
    ensures |r| == |events|
  {
    seq(|events|, i requires 0 <= i < |events| => ActionOf(events[i]))
  }

  lemma StepIsClientStep(s: System, e: Event, t: System)
    requires Step(s, e) == Some(t)
    ensures Dispatch.Step(s.client, ActionOf(e)) == Some(t.client)
  {
  }

  lemma {:induction false} ClientRuns(s: System, events: seq<Event>, t: System)
    requires Run(s, events) == Some(t)
    ensures Dispatch.Run(s.client, Actions(events)) == Some(t.client)
    decreases |events|
  {
    if events == [] {
    } else {
      var last := |events| - 1;
      var before := Run(s, events[..last]).value;
      ClientRuns(s, events[..last], before);
      StepIsClientStep(before, events[last], t);
      assert Actions(events)[..last] == Actions(events[..last]);
      assert Actions(events)[last] == ActionOf(events[last]);
    }
  }

  lemma ActionGrows(c: Dispatch.Client, a: Dispatch.Action, d: Dispatch.Client)
    requires Dispatch.Step(c, a) == Some(d)
    ensures c.read <= d.read && c.requests <= d.requests && c.handled <= d.handled
    ensures forall id | id in c.callers :: id in d.callers && (d.callers[id].Registered? ==> c.callers[id].Registered?)
  {
    match a
    case ByReader(r) => ReaderGrows(c, r, d);
    case ByDispatcher(m) => DispatcherGrows(c, m, d);
    case ByCaller(id, m) => CallerGrows(c, id, m, d);
    case _ =>
  }

  lemma ReaderGrows(c: Dispatch.Client, r: Dispatch.ReaderMove, d: Dispatch.Client)
    requires Dispatch.ReaderStep(c, r) == Some(d)
    ensures c.read <= d.read && c.requests == d.requests && c.handled == d.handled && c.callers == d.callers
  {
  }

  lemma DispatcherGrows(c: Dispatch.Client, m: Dispatch.DispatchMove, d: Dispatch.Client)
    requires Dispatch.DispatcherStep(c, m) == Some(d)
    ensures c.read == d.read && c.requests == d.requests && c.handled <= d.handled && c.callers == d.callers
  {
  }

  lemma CallerGrows(c: Dispatch.Client, j: nat, m: Dispatch.CallerMove, d: Dispatch.Client)
    requires Dispatch.CallerStep(c, j, m) == Some(d)
    ensures c.read == d.read && c.requests <= d.requests && c.handled == d.handled
    ensures forall id | id in c.callers :: id in d.callers && (d.callers[id].Registered? ==> c.callers[id].Registered?)
  {
  }

  // What only ever grows: what was read, requested and handled, and the calls; and no call
  // goes back to before its request.
  ghost predicate Grown(s: System, t: System) {
    && s.client.read <= t.client.read && s.client.requests <= t.client.requests
    && s.client.handled <= t.client.handled
    && forall id | id in s.client.callers ::
         id in t.client.callers && (t.client.callers[id].Registered? ==> s.client.callers[id].Registered?)
  }

  lemma StepGrows(s: System, e: Event, t: System)
    requires Step(s, e) == Some(t)
    ensures Grown(s, t)
  {
    ActionGrows(s.client, ActionOf(e), t.client);
  }

  lemma {:induction false} RunGrows(s: System, events: seq<Event>, t: System)
    requires Run(s, events) == Some(t)
    ensures Grown(s, t)
    decreases |events|
  {
    if events == [] {
    } else {
      var before := Run(s, events[..|events| - 1]).value;
      RunGrows(s, events[..|events| - 1], before);
      StepGrows(before, events[|events| - 1], t);
    }
  }

  // ---------- Reachable systems ----------

  ghost predicate LeadsTo(s: System, t: System) {
    exists events :: Run(s, events) == Some(t)
  }

  ghost predicate Reachable(s: System) {
    exists capacity :: LeadsTo(Initial(capacity), s)
  }

  lemma LeadsToKeeps(s: System, t: System)
    requires LeadsTo(s, t)
    ensures Grown(s, t)
    ensures Inv(s) ==> Inv(t)
  {
    var events :| Run(s, events) == Some(t);
    RunGrows(s, events, t);
    if Inv(s) { RunInv(s, events, t); }
  }

  lemma ReachableInv(s: System)
    requires Reachable(s)
    ensures Inv(s)
  {
    var capacity :| LeadsTo(Initial(capacity), s);
    InitialInv(capacity);
    LeadsToKeeps(Initial(capacity), s);
  }
}
