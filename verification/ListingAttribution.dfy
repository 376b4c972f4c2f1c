// Whose answer a listing returns, client.go. A call can return another call's answer, and
// the condition under which it returns its own is one it could check when it sends.
module ListingAttribution {
  import opened Common
  import opened Entities
  import opened Listing
  import opened ListingAnswers
  import Dispatch

  // ---------- Main results ----------

  function RegisterBy(id: nat): Event {
    ByClient(Dispatch.ByCaller(id, Dispatch.Register))
  }

  function SendBy(id: nat): Event {
    ByClient(Dispatch.ByCaller(id, Dispatch.Send))
  }

  // One call: the system before and after it registers, before and after it sends its
  // request, and some time later.
  datatype Call = Call(idle: System, registered: System, sending: System, sent: System, later: System)

  ghost predicate OneCall(id: nat, c: Call) {
    && Reachable(c.idle)
    && Step(c.idle, RegisterBy(id)) == Some(c.registered)
    && LeadsTo(c.registered, c.sending)
    && Step(c.sending, SendBy(id)) == Some(c.sent)
    && LeadsTo(c.sent, c.later)
  }

  lemma SendAppends(u: System, id: nat, v: System)
    requires Step(u, SendBy(id)) == Some(v)
    ensures v.client.requests == u.client.requests + [id]
  {
  }

  lemma AfterEvent(s: System, e: Event, t: System, u: System)
    requires Inv(s) && Step(s, e) == Some(t) && LeadsTo(t, u)
    ensures Inv(u)
  {
    StepInv(s, e, t);
    LeadsToKeeps(t, u);
  }

  lemma CallKeeps(id: nat, c: Call)
    requires OneCall(id, c)
    ensures Inv(c.later)
  {
    ReachableInv(c.idle);
    AfterEvent(c.idle, RegisterBy(id), c.registered, c.sending);
    AfterEvent(c.sending, SendBy(id), c.sent, c.later);
  }

  // What grew over the whole call.
  ghost predicate GrownOver(c: Call, id: nat) {
    && c.idle.client.read <= c.later.client.read && c.idle.client.handled <= c.later.client.handled
    && c.idle.client.requests <= c.sending.client.requests
    && c.sending.client.requests + [id] <= c.later.client.requests
  }

  lemma CallGrows(id: nat, c: Call)
    requires OneCall(id, c)
    ensures GrownOver(c, id)
  {
    StepGrows(c.idle, RegisterBy(id), c.registered);
    LeadsToKeeps(c.registered, c.sending);
    StepGrows(c.sending, SendBy(id), c.sent);
    SendAppends(c.sending, id, c.sent);
    LeadsToKeeps(c.sent, c.later);
  }

  lemma AppliedIsRead(c: Dispatch.Client)
    requires Dispatch.Sound(c)
    ensures c.handled <= c.applied <= c.read
  {
    Dispatch.PrefixOfParts(c.applied, Dispatch.Held(c.dispatcher), c.discarded, c.queue, Dispatch.Offered(c.reader),
                           c.refused);
  }

  // What a call that succeeded returned, and where it ended, given what had been handled
  // when it registered.
  ghost predicate Succeeded(handled: seq<Message>, t: Dispatch.Client, id: nat, end: nat) {
    var start := |handled|;
    && id in t.callers && t.callers[id].Returned?
    && start <= end < |t.applied|
    && t.applied[end].ListingDone?
    && (forall k | start <= k < end :: !t.applied[k].ListingDone?)
    && t.callers[id].outcome == Some(ListEntities(t.applied[start..end]))
  }

  ghost predicate ReturnedEntities(s: System, id: nat) {
    id in s.client.callers && s.client.callers[id].Returned? && s.client.callers[id].outcome.Some?
  }

  lemma SuccessHasAnEnd(id: nat, c: Call) returns (end: nat)
    requires OneCall(id, c) && ReturnedEntities(c.later, id)
    ensures Succeeded(c.idle.client.handled, c.later.client, id, end)
  {
    var capacity :| LeadsTo(Initial(capacity), c.idle);
    var before :| Run(Initial(capacity), before) == Some(c.idle);
    var middle :| Run(c.registered, middle) == Some(c.sending);
    var after :| Run(c.sent, after) == Some(c.later);
    ClientRuns(Initial(capacity), before, c.idle);
    RestOfTheCall(id, middle, after, c);
    var rest := Actions(middle) + [SendBy(id).a] + Actions(after);
    Dispatch.ListingReturnsItsWindow(capacity, Actions(before), id, rest);
    end := NextDone(c.later.client.applied, |c.idle.client.handled|);
  }

  lemma {:induction false} RestOfTheCall(id: nat, middle: seq<Event>, after: seq<Event>, c: Call)
    requires Run(c.registered, middle) == Some(c.sending)
    requires Step(c.sending, SendBy(id)) == Some(c.sent)
    requires Run(c.sent, after) == Some(c.later)
    ensures Dispatch.Run(c.registered.client, Actions(middle) + [SendBy(id).a] + Actions(after))
         == Some(c.later.client)
  {
    var send := SendBy(id).a;
    ClientRuns(c.registered, middle, c.sending);
    ClientRuns(c.sent, after, c.later);
    Dispatch.RunSplit(c.registered.client, Actions(middle) + [send], Actions(after));
    Dispatch.RunSplit(c.registered.client, Actions(middle), [send]);
    assert [send][..0] == [];
    assert Dispatch.Run(c.sending.client, [send]) == Dispatch.Step(c.sending.client, send);
  }

  // The completion that ends a call answers the request whose turn it was when the call
  // registered: as many completions had been handled then.
  lemma EndsOnTheRequestInTurn(handled: seq<Message>, t: System, id: nat, end: nat)
    requires Accounted(t) && handled <= t.client.applied <= t.client.read
    requires Succeeded(handled, t.client, id, end)
    ensures var turn := Completions(handled);
            && t.client.read[end].ListingDone? && |t.origins| == |t.client.read|
            && turn < |t.client.requests| && t.origins[end] == Some(t.client.requests[turn])
            && (forall k | |handled| <= k <= end :: Completions(t.client.read[..k]) == turn)
  {
    assert t.client.read[..|handled|] == handled;
    assert forall k | |handled| <= k <= end :: t.client.read[k] == t.client.applied[k];
    TurnInWindow(t.client.read, t.client.requests, t.origins, |handled|, end);
  }

  lemma TurnInWindow(read: seq<Message>, requests: seq<nat>, origins: seq<Option<nat>>, start: nat, end: nat)
    requires Attributed(read, requests, origins) && start <= end < |read| && read[end].ListingDone?
    requires forall k | start <= k < end :: !read[k].ListingDone?
    ensures var turn := Completions(read[..start]);
            && turn < |requests| && origins[end] == Some(requests[turn])
            && forall k | start <= k <= end :: Completions(read[..k]) == turn
  {
    forall k | start <= k <= end ensures Completions(read[..k]) == Completions(read[..start]) {
      CompletionsGrow(read, start, k);
    }
  }

  lemma SentAtItsPlace(earlier: seq<nat>, id: nat, requests: seq<nat>, callers: map<nat, Dispatch.Caller>)
    requires Requested(requests, callers) && earlier + [id] <= requests
    ensures forall k | 0 <= k < |requests| :: requests[k] == id <==> k == |earlier|
  {
    assert requests[|earlier|] == id;
  }

  // A successful call was answered by its own request if and only if, when it sent that
  // request, the requests sent before were as many as the completions handled when it
  // registered.
  lemma AnsweredByItselfExactlyWhen(id: nat, c: Call) returns (end: nat)
    requires OneCall(id, c) && ReturnedEntities(c.later, id)
    ensures Succeeded(c.idle.client.handled, c.later.client, id, end) && end < |c.later.origins|
    ensures c.later.origins[end] == Some(id)
       <==> |c.sending.client.requests| == Completions(c.idle.client.handled)
  {
    CallKeeps(id, c);
    CallGrows(id, c);
    end := SuccessHasAnEnd(id, c);
    AppliedIsRead(c.later.client);
    EndsOnTheRequestInTurn(c.idle.client.handled, c.later, id, end);
    SentAtItsPlace(c.sending.client.requests, id, c.later.client.requests, c.later.client.callers);
  }

  // What was chosen is, in order and each once, every message but the completion that was
  // sent in answer to the call's request.
  ghost predicate IsWholeAnswer(id: nat, t: System, chosen: seq<Message>, at: seq<nat>) {
    && |t.origins| == |t.client.read| && |at| == |chosen|
    && (forall i, j | 0 <= i < j < |at| :: at[i] < at[j])
    && (forall k | 0 <= k < |at| :: at[k] < |t.client.read| && t.client.read[at[k]] == chosen[k])
    && (forall i: nat | i < |t.client.read| ::
          i in at <==> t.origins[i] == Some(id) && !t.client.read[i].ListingDone?)
  }

  lemma Shifted(at: seq<nat>, shift: nat) returns (r: seq<nat>)
    ensures |r| == |at| && forall k | 0 <= k < |at| :: r[k] == at[k] + shift
    ensures forall i: nat :: i in r <==> i >= shift && i - shift in at
  {
    r := seq(|at|, k requires 0 <= k < |at| => at[k] + shift);
    forall i: nat ensures i in r <==> i >= shift && i - shift in at {
      if i in r {
        var k :| 0 <= k < |r| && r[k] == i;
        assert at[k] == i - shift;
      }
      if i >= shift && i - shift in at {
        var k :| 0 <= k < |at| && at[k] == i - shift;
        assert r[k] == i;
      }
    }
  }

  lemma PlacesInWindow(all: seq<Message>, start: nat, end: nat, chosen: seq<Message>, inside: seq<nat>, i: nat)
    requires start <= end <= |all| && Selects(all[start..end], chosen, inside) && i < |all|
    ensures i >= start && i - start in inside <==> start <= i < end && (all[i].Listed? || all[i].ListedOther?)
  {
    var window := all[start..end];
    assert forall k | 0 <= k < |inside| :: inside[k] < |window|;
    if start <= i < end { assert window[i - start] == all[i]; }
  }

  lemma SelectsInWindow(all: seq<Message>, start: nat, end: nat) returns (at: seq<nat>)
    requires start <= end <= |all|
    ensures var chosen := ListEntities(all[start..end]);
            && |at| == |chosen|
            && (forall i, j | 0 <= i < j < |at| :: at[i] < at[j])
            && (forall k | 0 <= k < |at| :: at[k] < |all| && all[at[k]] == chosen[k])
    ensures forall i: nat | i < |all| :: i in at <==> start <= i < end && (all[i].Listed? || all[i].ListedOther?)
  {
    var window := all[start..end];
    var inside := ListEntitiesSelects(window);
    at := Shifted(inside, start);
    forall i: nat | i < |all|
      ensures i in at <==> start <= i < end && (all[i].Listed? || all[i].ListedOther?)
    {
      PlacesInWindow(all, start, end, ListEntities(window), inside, i);
    }
    forall k | 0 <= k < |at|
      ensures at[k] < |all| && all[at[k]] == ListEntities(window)[k]
    {
      assert window[inside[k]] == all[at[k]];
    }
  }

  lemma WindowIsWholeAnswer(id: nat, t: System, start: nat, end: nat) returns (at: seq<nat>)
    requires |t.origins| == |t.client.read| && start <= end < |t.client.read| && t.client.read[end].ListingDone?
    requires forall k | start <= k < end :: !t.client.read[k].ListingDone?
    requires forall k | 0 <= k < |t.client.read| ::
               t.origins[k] == Some(id) <==> start <= k <= end && IsPart(t.client.read[k])
    ensures IsWholeAnswer(id, t, ListEntities(t.client.read[start..end]), at)
  {
    at := SelectsInWindow(t.client.read, start, end);
  }

  // And then what it returned is its whole answer and nothing else: the parts between its
  // registration and that completion are exactly those sent in answer to it.
  lemma OwnAnswerIsComplete(id: nat, c: Call, end: nat)
    requires OneCall(id, c) && Succeeded(c.idle.client.handled, c.later.client, id, end)
    requires |c.sending.client.requests| == Completions(c.idle.client.handled)
    ensures var t := c.later;
            && |t.origins| == |t.client.read| && end < |t.client.read|
            && forall k | 0 <= k < |t.client.read| ::
                 t.origins[k] == Some(id) <==> |c.idle.client.handled| <= k <= end && IsPart(t.client.read[k])
    ensures exists at :: IsWholeAnswer(id, c.later, c.later.client.callers[id].outcome.value, at)
  {
    PartsOfOwnAnswer(id, c, end);
    SuccessIsInRead(id, c, end);
    var at := WindowIsWholeAnswer(id, c.later, |c.idle.client.handled|, end);
  }

  lemma SuccessIsInRead(id: nat, c: Call, end: nat)
    requires OneCall(id, c) && Succeeded(c.idle.client.handled, c.later.client, id, end)
    ensures var t, start := c.later.client, |c.idle.client.handled|;
            && start <= end < |t.read|
            && (forall k | start <= k < end :: !t.read[k].ListingDone?)
            && t.callers[id].outcome == Some(ListEntities(t.read[start..end]))
  {
    CallKeeps(id, c);
    AppliedIsRead(c.later.client);
    SameInPrefix(c.later.client.applied, c.later.client.read, |c.idle.client.handled|, end);
  }

  lemma SameInPrefix(part: seq<Message>, all: seq<Message>, start: nat, end: nat)
    requires part <= all && start <= end < |part|
    ensures all[start..end] == part[start..end] && forall k | start <= k < end :: all[k] == part[k]
  {
  }

  lemma PartsOfOwnAnswer(id: nat, c: Call, end: nat)
    requires OneCall(id, c) && Succeeded(c.idle.client.handled, c.later.client, id, end)
    requires |c.sending.client.requests| == Completions(c.idle.client.handled)
    ensures var t := c.later;
            && |t.origins| == |t.client.read| && end < |t.client.read| && t.client.read[end].ListingDone?
            && forall k | 0 <= k < |t.client.read| ::
                 t.origins[k] == Some(id) <==> |c.idle.client.handled| <= k <= end && IsPart(t.client.read[k])
  {
    CallKeeps(id, c);
    CallGrows(id, c);
    ReachableInv(c.idle);
    AppliedIsRead(c.later.client);
    EndsOnTheRequestInTurn(c.idle.client.handled, c.later, id, end);
    SentAtItsPlace(c.sending.client.requests, id, c.later.client.requests, c.later.client.callers);
    OwnParts(c.idle, c.later, id, end);
  }

  lemma OwnParts(idle: System, later: System, id: nat, end: nat)
    requires Inv(idle) && Accounted(later) && idle.client.read <= later.client.read
    requires var turn, t, start := Completions(idle.client.handled), later.client, |idle.client.handled|;
             && start <= end < |t.read| && t.read[end].ListingDone?
             && |idle.client.requests| <= turn
             && (forall k | start <= k <= end :: Completions(t.read[..k]) == turn)
             && (forall k | 0 <= k < |t.requests| :: t.requests[k] == id <==> k == turn)
    ensures |later.origins| == |later.client.read|
    ensures forall k | 0 <= k < |later.client.read| ::
              later.origins[k] == Some(id) <==> |idle.client.handled| <= k <= end && IsPart(later.client.read[k])
  {
    forall k | 0 <= k < |later.client.read|
      ensures later.origins[k] == Some(id) <==> |idle.client.handled| <= k <= end && IsPart(later.client.read[k])
    {
      if k < |idle.client.handled| { EarlierPart(idle, later, k); }
      if end < k { LaterPart(later, end, k); }
    }
  }

  lemma EarlierPart(s: System, t: System, k: nat)
    requires Inv(s) && s.client.read <= t.client.read && k < |s.client.handled|
    ensures k < |t.client.read|
    ensures IsPart(t.client.read[k]) ==> Completions(t.client.read[..k]) < |s.client.requests|
  {
    AppliedIsRead(s.client);
    assert t.client.read[..k] == s.client.read[..k];
  }

  lemma LaterPart(t: System, end: nat, k: nat)
    requires end < k < |t.client.read| && t.client.read[end].ListingDone?
    ensures Completions(t.client.read[..k]) > Completions(t.client.read[..end])
  {
    CompletionsOneMore(t.client.read[..end], t.client.read[end]);
    assert t.client.read[..end] + [t.client.read[end]] == t.client.read[..end + 1];
    CompletionsGrow(t.client.read, end + 1, k);
  }

  // ---------- The condition at registration ----------

  // A call has registered and not sent, with every earlier request answered and no other
  // call about to send.
  ghost predicate NextToSend(v: System, id: nat, turn: nat) {
    && Inv(v)
    && Lone(v.client, id)
    && |v.client.requests| == turn <= Completions(v.client.handled)
  }

  ghost predicate Lone(c: Dispatch.Client, id: nat) {
    && id in c.callers && c.callers[id].Registered?
    && c.slot.current == Some(id)
    && forall j | j in c.callers && c.callers[j].Registered? :: j == id
  }

  lemma NoCompletionToFile(v: System, id: nat, turn: nat)
    requires NextToSend(v, id, turn) && v.client.dispatcher.Filing?
    ensures !v.client.dispatcher.message.ListingDone?
  {
    AppliedIsRead(v.client);
    CompletionsOneMore(v.client.handled, v.client.dispatcher.message);
    CompletionsOfPrefix(v.client.applied, v.client.read);
  }

  lemma StaysLone(c: Dispatch.Client, a: Dispatch.Action, d: Dispatch.Client, id: nat)
    requires Lone(c, id) && Dispatch.Step(c, a) == Some(d)
    requires c.dispatcher.Filing? ==> !c.dispatcher.message.ListingDone?
    requires id in d.callers && d.callers[id].Registered?
    ensures Lone(d, id) && d.requests == c.requests
  {
    match a
    case ByReader(r) => ReaderLeavesCalls(c, r, d);
    case ByDispatcher(m) => DispatcherLeavesCalls(c, m, d);
    case ByCaller(j, m) => CallerStaysLone(c, j, m, d, id);
    case _ =>
  }

  lemma ReaderLeavesCalls(c: Dispatch.Client, r: Dispatch.ReaderMove, d: Dispatch.Client)
    requires Dispatch.ReaderStep(c, r) == Some(d)
    ensures d.callers == c.callers && d.slot == c.slot && d.requests == c.requests
  {
  }

  lemma DispatcherLeavesCalls(c: Dispatch.Client, m: Dispatch.DispatchMove, d: Dispatch.Client)
    requires Dispatch.DispatcherStep(c, m) == Some(d)
    requires c.dispatcher.Filing? ==> !c.dispatcher.message.ListingDone?
    ensures d.callers == c.callers && d.slot.current == c.slot.current && d.requests == c.requests
  {
  }

  lemma CallerStaysLone(c: Dispatch.Client, j: nat, m: Dispatch.CallerMove, d: Dispatch.Client, id: nat)
    requires Lone(c, id) && Dispatch.CallerStep(c, j, m) == Some(d)
    requires id in d.callers && d.callers[id].Registered?
    ensures Lone(d, id) && d.requests == c.requests
  {
  }

  lemma NextToSendStep(v: System, e: Event, w: System, id: nat, turn: nat)
    requires NextToSend(v, id, turn) && Step(v, e) == Some(w)
    requires id in w.client.callers && w.client.callers[id].Registered?
    ensures NextToSend(w, id, turn)
  {
    StepInv(v, e, w);
    StepGrows(v, e, w);
    CompletionsOfPrefix(v.client.handled, w.client.handled);
    if v.client.dispatcher.Filing? { NoCompletionToFile(v, id, turn); }
    StaysLone(v.client, ActionOf(e), w.client, id);
  }

  // Until it sends, nothing is sent and the slot stays its own.
  lemma {:induction false} NextToSendRun(v: System, events: seq<Event>, w: System, id: nat, turn: nat)
    requires NextToSend(v, id, turn) && Run(v, events) == Some(w)
    requires id in w.client.callers && w.client.callers[id].Registered?
    ensures NextToSend(w, id, turn)
    decreases |events|
  {
    if events == [] {
    } else {
      var u := Run(v, events[..|events| - 1]).value;
      RunGrows(v, events[..|events| - 1], u);
      StepGrows(u, events[|events| - 1], w);
      NextToSendRun(v, events[..|events| - 1], u, id, turn);
      NextToSendStep(u, events[|events| - 1], w, id, turn);
    }
  }

  ghost predicate NobodyAboutToSend(s: System) {
    forall j | j in s.client.callers :: !s.client.callers[j].Registered?
  }

  lemma LoneAfterRegistering(c: Dispatch.Client, id: nat, d: Dispatch.Client)
    requires Dispatch.CallerStep(c, id, Dispatch.Register) == Some(d)
    requires forall j | j in c.callers :: !c.callers[j].Registered?
    ensures Lone(d, id) && d.requests == c.requests && d.handled == c.handled
  {
  }

  lemma NextAfterRegistering(s: System, id: nat, v: System)
    requires Inv(s) && Step(s, RegisterBy(id)) == Some(v) && NobodyAboutToSend(s)
    requires |s.client.requests| == Completions(s.client.handled)
    ensures NextToSend(v, id, |s.client.requests|)
  {
    StepInv(s, RegisterBy(id), v);
    StepIsClientStep(s, RegisterBy(id), v);
    LoneAfterRegistering(s.client, id, v.client);
    assert v.client.handled == s.client.handled;
  }

  lemma StillToSend(u: System, id: nat, v: System)
    requires Step(u, SendBy(id)) == Some(v)
    ensures id in u.client.callers && u.client.callers[id].Registered?
  {
  }

  // If no other call is between registering and sending, the condition can be read off when
  // the call registers: every request sent so far has had its completion handled.
  lemma AnsweredByItselfIfAllWereAnswered(id: nat, c: Call) returns (end: nat)
    requires OneCall(id, c) && ReturnedEntities(c.later, id) && NobodyAboutToSend(c.idle)
    ensures Succeeded(c.idle.client.handled, c.later.client, id, end) && end < |c.later.origins|
    ensures c.later.origins[end] == Some(id)
       <==> |c.idle.client.requests| == Completions(c.idle.client.handled)
  {
    end := AnsweredByItselfExactlyWhen(id, c);
    CallGrows(id, c);
    ReachableInv(c.idle);
    AppliedIsRead(c.idle.client);
    CompletionsOfPrefix(c.idle.client.handled, c.idle.client.read);
    if |c.idle.client.requests| == Completions(c.idle.client.handled) {
      NextAfterRegistering(c.idle, id, c.registered);
      StillToSend(c.sending, id, c.sent);
      var middle :| Run(c.registered, middle) == Some(c.sending);
      NextToSendRun(c.registered, middle, c.sending, id, |c.idle.client.requests|);
    }
  }

  // ---------- It happens ----------

  lemma Extend(origin: System, s: System, e: Event) returns (t: System)
    requires LeadsTo(origin, s) && Step(s, e).Some?
    ensures t == Step(s, e).value && LeadsTo(origin, t)
  {
    t := Step(s, e).value;
    var events :| Run(origin, events) == Some(s);
    assert (events + [e])[..|events|] == events;
    assert Run(origin, events + [e]) == Some(t);
  }

  lemma Here(s: System)
    ensures LeadsTo(s, s)
  {
    assert Run(s, []) == Some(s);
  }

  // A client with nothing on its way to the application.
  predicate Quiet(c: Dispatch.Client) {
    c.phase.Open? && c.reader.Reading? && c.dispatcher.Top? && c.queue == [] && c.capacity > 0
  }

  // The peer's next completion goes all the way.
  lemma CompletionArrives(origin: System, s: System) returns (t: System)
    requires LeadsTo(origin, s) && Quiet(s.client) && s.owed != []
    ensures LeadsTo(origin, t)
    ensures t.client == s.client.(dispatcher := Dispatch.Holding(ListingDone), read := s.client.read + [ListingDone])
    ensures t.owed == s.owed[1..] && t.origins == s.origins + [Some(s.owed[0])]
  {
    t := Extend(origin, s, ByPeer(Completion));
    t := Extend(origin, t, ByClient(Dispatch.ByReader(Dispatch.Enqueue)));
    t := Extend(origin, t, ByClient(Dispatch.ByDispatcher(Dispatch.Check)));
    t := Extend(origin, t, ByClient(Dispatch.ByDispatcher(Dispatch.Take)));
  }

  lemma CompletionIsFiled(origin: System, s: System) returns (t: System)
    requires LeadsTo(origin, s) && !s.client.phase.Done? && s.client.dispatcher == Dispatch.Holding(ListingDone)
    ensures LeadsTo(origin, t) && t.owed == s.owed && t.origins == s.origins
    ensures t.client == s.client.(dispatcher := Dispatch.Top, applied := s.client.applied + [ListingDone],
                                  handled := s.client.handled + [ListingDone],
                                  slot := Handle(s.client.slot, ListingDone))
  {
    t := Extend(origin, s, ByClient(Dispatch.ByDispatcher(Dispatch.CheckAgain)));
    t := Extend(origin, t, ByClient(Dispatch.ByDispatcher(Dispatch.Apply)));
    t := Extend(origin, t, ByClient(Dispatch.ByDispatcher(Dispatch.File)));
    t := Extend(origin, t, ByClient(Dispatch.ByDispatcher(Dispatch.Called)));
  }

  lemma CompletionIsHandled(origin: System, s: System) returns (t: System)
    requires LeadsTo(origin, s) && Quiet(s.client) && s.owed != []
    ensures LeadsTo(origin, t)
    ensures t.client == s.client.(read := s.client.read + [ListingDone], applied := s.client.applied + [ListingDone],
                                  handled := s.client.handled + [ListingDone],
                                  slot := Handle(s.client.slot, ListingDone))
    ensures t.owed == s.owed[1..] && t.origins == s.origins + [Some(s.owed[0])]
  {
    t := CompletionArrives(origin, s);
    t := CompletionIsFiled(origin, t);
  }

  // A first call sends its request and times out.
  lemma FirstCallSends() returns (s: System)
    ensures LeadsTo(Initial(1), s) && s.owed == [0] && s.origins == []
    ensures s.client == Dispatch.Initial(1).(slot := Slot(Some(0), map[0 := Listing(0, [], 0)]),
                                             callers := map[0 := Dispatch.Waiting], requests := [0])
  {
    Here(Initial(1));
    s := Extend(Initial(1), Initial(1), RegisterBy(0));
    assert s.client.callers == map[0 := Dispatch.Registered] && s.client.slot.all == map[0 := Listing(0, [], 0)];
    s := Extend(Initial(1), s, SendBy(0));
    assert s.client.callers == map[0 := Dispatch.Waiting] && s.client.requests == [0];
  }

  lemma FirstCallTimesOut() returns (s: System)
    ensures LeadsTo(Initial(1), s) && s.owed == [0] && s.origins == []
    ensures s.client == Dispatch.Initial(1).(slot := Slot(None, map[0 := Listing(0, [], 0)]),
                                             callers := map[0 := Dispatch.Returned(None)], requests := [0])
  {
    s := FirstCallSends();
    s := Extend(Initial(1), s, ByClient(Dispatch.ByCaller(0, Dispatch.Fail)));
    assert s.client.callers == map[0 := Dispatch.Deciding(None)];
    s := Extend(Initial(1), s, ByClient(Dispatch.ByCaller(0, Dispatch.Leave)));
    assert s.client.callers == map[0 := Dispatch.Returned(None)];
  }

  // A second call then returns, empty, on the only completion read so far, which answers
  // the first one's request.
  lemma LateCompletionEndsALaterListing() returns (s: System)
    ensures LeadsTo(Initial(1), s)
    ensures 1 in s.client.callers && s.client.callers[1] == Dispatch.Deciding(Some([]))
    ensures s.client.requests == [0, 1] && s.client.read == [ListingDone] && s.origins == [Some(0)]
  {
    s := FirstCallTimesOut();
    s := Extend(Initial(1), s, RegisterBy(1));
    s := Extend(Initial(1), s, SendBy(1));
    s := CompletionIsHandled(Initial(1), s);
    s := Extend(Initial(1), s, ByClient(Dispatch.ByCaller(1, Dispatch.Complete)));
  }

  // Why the condition at registration must ask for no call about to send: here every
  // request sent has been answered when call 2 registers, but call 1, whose listing that
  // late answer completed, still sends its request first, and call 2 returns its answer.
  lemma UnsentCallIsAnsweredFirst() returns (idle: System, later: System)
    ensures LeadsTo(Initial(1), idle)
    ensures |idle.client.requests| == Completions(idle.client.handled) == 1
    ensures Step(idle, RegisterBy(2)).Some? && LeadsTo(Step(idle, RegisterBy(2)).value, later)
    ensures later.client.requests == [0, 1, 2] && later.origins == [Some(0), Some(1)]
    ensures 2 in later.client.callers && later.client.callers[2] == Dispatch.Deciding(Some([]))
  {
    idle := OvertakenWhileSending();
    var registered := Step(idle, RegisterBy(2)).value;
    later := SentTooLate(registered);
  }

  // Call 1 has registered, not sent, and its listing is completed already.
  lemma OvertakenWhileSending() returns (idle: System)
    ensures LeadsTo(Initial(1), idle) && Quiet(idle.client)
    ensures idle.owed == [] && idle.origins == [Some(0)]
    ensures idle.client.requests == [0] && idle.client.handled == [ListingDone] && Completions(idle.client.handled) == 1
    ensures idle.client.slot.current == None && idle.client.slot.all.Keys == {0, 1}
    ensures idle.client.callers == map[0 := Dispatch.Returned(None), 1 := Dispatch.Registered]
  {
    idle := FirstCallTimesOut();
    idle := Extend(Initial(1), idle, RegisterBy(1));
    idle := CompletionIsHandled(Initial(1), idle);
    CompletionsOneMore([], ListingDone);
    assert [] + [ListingDone] == [ListingDone];
  }

  lemma SentTooLate(s: System) returns (later: System)
    requires Quiet(s.client) && s.owed == [] && s.origins == [Some(0)]
    requires s.client.requests == [0] && |s.client.handled| == 1
    requires s.client.slot.current == Some(2) && 2 in s.client.slot.all && s.client.slot.all[2] == Listing(1, [], 0)
    requires 1 in s.client.callers && s.client.callers[1].Registered?
    requires 2 in s.client.callers && s.client.callers[2].Registered?
    ensures LeadsTo(s, later)
    ensures later.client.requests == [0, 1, 2] && later.origins == [Some(0), Some(1)]
    ensures 2 in later.client.callers && later.client.callers[2] == Dispatch.Deciding(Some([]))
  {
    Here(s);
    later := Extend(s, s, SendBy(1));
    later := Extend(s, later, SendBy(2));
    later := CompletionIsHandled(s, later);
    later := Extend(s, later, ByClient(Dispatch.ByCaller(2, Dispatch.Complete)));
  }
}
