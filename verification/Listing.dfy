// Entity listings of the client, client.go: at most one is in progress, shared between the
// caller that registered it and the dispatcher that fills and completes it. Listings are
// numbered; each remembers how many messages had been handled when it was registered.
module Listing {
  import opened Common
  import opened Entities

  datatype Listing = Listing(start: nat, messages: seq<Message>, closes: nat)

  datatype Slot = Slot(current: Option<nat>, all: map<nat, Listing>)

  const EMPTY := Slot(None, map[])

  predicate IsListEntity(m: Message) {
    m.Listed? || m.ListedOther?
  }

  function ListEntities(messages: seq<Message>): (r: seq<Message>) {
    if messages == [] then []
    else
      var last := |messages| - 1;
      ListEntities(messages[..last]) + (if IsListEntity(messages[last]) then [messages[last]] else [])
  }

  // The chosen messages, and where they stand among all: in order, each once, and they are
  // exactly the listings of entities, of whatever family.
  ghost predicate Selects(all: seq<Message>, chosen: seq<Message>, at: seq<nat>) {
    && |at| == |chosen|
    && (forall i, j | 0 <= i < j < |at| :: at[i] < at[j])
    && (forall k | 0 <= k < |at| :: at[k] < |all| && all[at[k]] == chosen[k])
    && (forall i: nat | i < |all| :: i in at <==> all[i].Listed? || all[i].ListedOther?)
  }

  lemma {:induction false} ListEntitiesSelects(messages: seq<Message>) returns (at: seq<nat>)
    ensures Selects(messages, ListEntities(messages), at)
    ensures forall m :: m in ListEntities(messages) <==> m in messages && (m.Listed? || m.ListedOther?)
  {
    at := Places(messages);
    SelectedAre(messages, ListEntities(messages), at);
  }

  lemma {:induction false} Places(messages: seq<Message>) returns (at: seq<nat>)
    ensures Selects(messages, ListEntities(messages), at)
    decreases |messages|
  {
    if messages == [] {
      at := [];
    } else {
      var last := |messages| - 1;
      var before := Places(messages[..last]);
      at := if IsListEntity(messages[last]) then before + [last] else before;
      SelectsOneMore(messages, ListEntities(messages[..last]), before);
    }
  }

  lemma SelectedAre(all: seq<Message>, chosen: seq<Message>, at: seq<nat>)
    requires Selects(all, chosen, at)
    ensures forall m :: m in chosen <==> m in all && (m.Listed? || m.ListedOther?)
  {
    forall m | m in chosen ensures m in all && (m.Listed? || m.ListedOther?) {
      var k :| 0 <= k < |chosen| && chosen[k] == m;
      assert at[k] in at;
    }
    forall m | m in all && (m.Listed? || m.ListedOther?) ensures m in chosen {
      var i :| 0 <= i < |all| && all[i] == m;
      var k :| 0 <= k < |at| && at[k] == i;
      assert chosen[k] == m;
    }
  }

  lemma SelectsOneMore(messages: seq<Message>, chosen: seq<Message>, at: seq<nat>)
    requires messages != [] && Selects(messages[..|messages| - 1], chosen, at)
    ensures var last := |messages| - 1;
            if IsListEntity(messages[last]) then Selects(messages, chosen + [messages[last]], at + [last])
            else Selects(messages, chosen, at)
  {
    var last := |messages| - 1;
    assert forall i | 0 <= i < last :: messages[..last][i] == messages[i];
    assert last !in at;
    if IsListEntity(messages[last]) {
      assert forall i :: i in at + [last] <==> i in at || i == last;
    }
  }

  // Registration fails while another listing is in progress.
  function Begin(s: Slot, id: nat, handled: nat): Option<Slot> {
    if s.current.Some? || id in s.all then None
    else Some(Slot(Some(id), s.all[id := Listing(handled, [], 0)]))
  }

  // The deferred step of the caller gives the slot up if it is still its own.
  function Release(s: Slot, id: nat): Slot {
    if s.current == Some(id) then s.(current := None) else s
  }

  // handleList
  function Handle(s: Slot, m: Message): Slot {
    match s.current
    case None => s
    case Some(id) =>
      if id !in s.all then s
      else
        var listing := s.all[id];
        if m.ListingDone? then Slot(None, s.all[id := listing.(closes := listing.closes + 1)])
        else if IsListEntity(m) then s.(all := s.all[id := listing.(messages := listing.messages + [m])])
        else s
  }

  // ---------- What a listing holds ----------

  // The first completion at or after a position, or the end.
  function NextDone(handled: seq<Message>, start: nat): (r: nat)
    requires start <= |handled|
    ensures start <= r <= |handled|
    ensures forall i | start <= i < r :: !handled[i].ListingDone?
    ensures r < |handled| ==> handled[r].ListingDone?
    decreases |handled| - start
  {
    if start == |handled| || handled[start].ListingDone? then start else NextDone(handled, start + 1)
  }

  // In progress: everything since the registration, no completion yet. Completed: exactly
  // what came before the first completion since, and the channel closed once.
  ghost predicate Fits(l: Listing, current: bool, handled: seq<Message>) {
    && l.start <= |handled|
    && (current ==> l.closes == 0)
    && l.closes <= 1
    && var end := NextDone(handled, l.start);
       && (current ==> end == |handled| && l.messages == ListEntities(handled[l.start..]))
       && (l.closes == 1 ==> end < |handled| && l.messages == ListEntities(handled[l.start..end]))
  }

  ghost predicate Exact(s: Slot, handled: seq<Message>) {
    && (s.current.Some? ==> s.current.value in s.all)
    && forall id | id in s.all :: Fits(s.all[id], s.current == Some(id), handled)
  }

  lemma BeginExact(s: Slot, id: nat, handled: seq<Message>)
    requires Exact(s, handled) && Begin(s, id, |handled|).Some?
    ensures Exact(Begin(s, id, |handled|).value, handled)
  {
    assert handled[|handled|..] == [];
  }

  lemma ReleaseExact(s: Slot, id: nat, handled: seq<Message>)
    requires Exact(s, handled)
    ensures Exact(Release(s, id), handled)
  {
    var t := Release(s, id);
    forall k | k in t.all
      ensures Fits(t.all[k], t.current == Some(k), handled)
    {
      assert Fits(s.all[k], s.current == Some(k), handled);
    }
  }

  lemma {:induction false} NextDoneOneMore(handled: seq<Message>, m: Message, start: nat)
    requires start <= |handled|
    ensures NextDone(handled + [m], start) ==
            if NextDone(handled, start) < |handled| then NextDone(handled, start)
            else if m.ListingDone? then |handled| else |handled| + 1
    decreases |handled| - start
  {
    if start == |handled| || handled[start].ListingDone? {
    } else {
      NextDoneOneMore(handled, m, start + 1);
    }
  }

  lemma ClosedFitsOneMore(l: Listing, handled: seq<Message>, m: Message)
    requires Fits(l, false, handled)
    ensures Fits(l, false, handled + [m])
  {
    NextDoneOneMore(handled, m, l.start);
    var end := NextDone(handled, l.start);
    assert (handled + [m])[l.start..end] == handled[l.start..end];
  }

  lemma OpenFitsOneMore(l: Listing, handled: seq<Message>, m: Message)
    requires Fits(l, true, handled)
    ensures m.ListingDone? ==> Fits(l.(closes := 1), false, handled + [m])
    ensures !m.ListingDone? ==>
              Fits(l.(messages := l.messages + (if IsListEntity(m) then [m] else [])), true, handled + [m])
  {
    NextDoneOneMore(handled, m, l.start);
    if m.ListingDone? {
      assert (handled + [m])[l.start..|handled|] == handled[l.start..];
    } else {
      SuffixOneMore(handled, l.start, m);
      ListEntitiesOneMore(handled[l.start..], m);
    }
  }

  lemma ListEntitiesOneMore(a: seq<Message>, m: Message)
    ensures ListEntities(a + [m]) == ListEntities(a) + (if IsListEntity(m) then [m] else [])
  {
    assert (a + [m])[..|a|] == a;
  }

  lemma HandleExact(s: Slot, handled: seq<Message>, m: Message)
    requires Exact(s, handled)
    ensures Exact(Handle(s, m), handled + [m])
  {
    var t := Handle(s, m);
    forall id | id in t.all
      ensures Fits(t.all[id], t.current == Some(id), handled + [m])
    {
      var l := s.all[id];
      if s.current == Some(id) { OpenFitsOneMore(l, handled, m); } else { ClosedFitsOneMore(l, handled, m); }
      assert l.(messages := l.messages + []) == l;
    }
  }

  // ---------- The shared slot ----------

  class ListSlot {
    var current: Option<nat>
    var all: map<nat, Listing>
    var handled: seq<Message>        // every message handled so far

    ghost predicate Valid()
      reads this
    {
      Exact(Slot(current, all), handled)
    }

    constructor ()
      ensures Valid() && Slot(current, all) == EMPTY && handled == []
    {
      current, all, handled := None, map[], [];
    }

    method Register(id: nat) returns (ok: bool)
      requires Valid() && id !in all
      modifies this`current, this`all
      ensures Valid()
      ensures ok <==> old(current).None?
      ensures var before := old(Slot(current, all));
              ok ==> Begin(before, id, |handled|) == Some(Slot(current, all))
      ensures !ok ==> Slot(current, all) == old(Slot(current, all))
    {
      if current.Some? { return false; }
      BeginExact(Slot(current, all), id, handled);
      all := all[id := Listing(|handled|, [], 0)];
      current := Some(id);
      return true;
    }

    method GiveUp(id: nat)
      requires Valid()
      modifies this`current
      ensures Valid() && Slot(current, all) == Release(old(Slot(current, all)), id)
    {
      ReleaseExact(Slot(current, all), id, handled);
      if current == Some(id) { current := None; }
    }

    method HandleList(m: Message)
      requires Valid()
      modifies this
      ensures Valid() && handled == old(handled) + [m]
      ensures Slot(current, all) == Handle(old(Slot(current, all)), m)
      ensures old(current).None? ==> current == None && all == old(all)
      ensures old(current).Some? ==>
                var id := old(current).value;
                && current == (if m.ListingDone? then None else Some(id))
                && all == old(all)[id := all[id]]
                && all[id].closes == (if m.ListingDone? then 1 else 0)
                && all[id].messages == old(all)[id].messages + (if m.Listed? || m.ListedOther? then [m] else [])
    {
      HandleExact(Slot(current, all), handled, m);
      handled := handled + [m];
      if current.None? { return; }
      var pending := all[current.value];
      if m.ListingDone? {
        all := all[current.value := pending.(closes := pending.closes + 1)];
        current := None;
        return;
      }
      if IsListEntity(m) {
        all := all[current.value := pending.(messages := pending.messages + [m])];
      }
    }
  }
}
