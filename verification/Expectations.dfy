// The command expectations of a scenario, simulator/command_expectations.go and the
// record step of simulator/simulator.go: an incremental matcher over run lengths, kept up
// to date by every command received. The reference it is proved against is the plain
// list of commands that the run lengths stand for.
module Expectations {
  import opened Common

  datatype Expectation<+C> = Expectation(command: C, count: nat)

  datatype Code = Missing | Unexpected | OutOfOrder | Overflow

  datatype Failure = Failure(code: Code, index: nat, matched: nat, observed: nat)

  // A command received, and whether the bounded queue of commands had room for it.
  datatype Arrival<+C> = Arrival(command: C, queued: bool)

  // Validation refuses a count of zero.
  predicate WellFormed<C>(es: seq<Expectation<C>>) {
    forall i | 0 <= i < |es| :: es[i].count > 0
  }

  // ---------- The reference: a list of commands ----------

  function Repeat<C>(c: C, n: nat): (r: seq<C>) {
    seq(n, _ => c)
  }

  function Expand<C>(es: seq<Expectation<C>>): (r: seq<C>) {
    if es == [] then [] else Repeat(es[0].command, es[0].count) + Expand(es[1..])
  }

  function Commands<C>(history: seq<Arrival<C>>): (r: seq<C>)
    ensures |r| == |history|
  {
    seq(|history|, i requires 0 <= i < |history| => history[i].command)
  }

  ghost predicate AllQueued<C>(history: seq<Arrival<C>>) {
    forall i | 0 <= i < |history| :: history[i].queued
  }

  predicate Conforms<C(==)>(es: seq<Expectation<C>>, a: Arrival<C>, at: nat) {
    var expected := Expand(es);
    at < |expected| && a.command == expected[at] && a.queued
  }

  // Which expectation the command at a position falls under, and how far into it.
  function Position<C>(es: seq<Expectation<C>>, n: nat): (nat, nat) {
    if es == [] then (0, 0)
    else if n < es[0].count then (0, n)
    else
      var (index, matched) := Position(es[1..], n - es[0].count);
      (index + 1, matched)
  }

  function FirstDeviation<C(==)>(es: seq<Expectation<C>>, history: seq<Arrival<C>>): (r: nat)
    ensures r <= |history|
    ensures forall i | 0 <= i < r :: Conforms(es, history[i], i)
    ensures r < |history| ==> !Conforms(es, history[r], r)
    decreases |history|
  {
    if history == [] then 0
    else
      var last := |history| - 1;
      var earlier := FirstDeviation(es, history[..last]);
      if earlier < last then earlier
      else if Conforms(es, history[last], last) then last + 1
      else last
  }

  predicate ExpectedLater<C(==)>(es: seq<Expectation<C>>, c: C, index: nat) {
    exists j | index < j < |es| :: es[j].command == c
  }

  // How a deviation at a position is reported.
  function Report<C(==)>(es: seq<Expectation<C>>, a: Arrival<C>, at: nat): Failure {
    var expected := Expand(es);
    if at < |expected| && a.command == expected[at] then
      var (index, matched) := Position(es, at + 1);
      Failure(Overflow, index, matched, at + 1)
    else
      var (index, matched) := Position(es, at);
      Failure(if ExpectedLater(es, a.command, index) then OutOfOrder else Unexpected, index, matched, at + 1)
  }

  function Verdict<C(==)>(es: seq<Expectation<C>>, history: seq<Arrival<C>>): Option<Failure> {
    var first := FirstDeviation(es, history);
    if es == [] || first == |history| then None else Some(Report(es, history[first], first))
  }

  datatype Status = Failing(failure: Failure) | Complete | Pending

  function StatusOf<C(==)>(es: seq<Expectation<C>>, history: seq<Arrival<C>>): Status {
    match Verdict(es, history)
    case Some(failure) => Failing(failure)
    case None => if |history| >= |Expand(es)| || es == [] then Complete else Pending
  }

  // ---------- Facts about the reference ----------

  lemma {:induction false} PositionIsLocation<C>(es: seq<Expectation<C>>, n: nat)
    requires WellFormed(es) && n <= |Expand(es)|
    ensures var (index, matched) := Position(es, n);
            && index <= |es|
            && n == |Expand(es[..index])| + matched
            && (index < |es| ==> matched < es[index].count && n < |Expand(es)| && Expand(es)[n] == es[index].command)
            && (index == |es| ==> n == |Expand(es)| && matched == 0)
  {
    if es == [] {
    } else {
      assert es[..0] == [];
      if n >= es[0].count {
        PositionIsLocation(es[1..], n - es[0].count);
        var (index, matched) := Position(es, n);
        assert es[..index][0] == es[0] && es[..index][1..] == es[1..][..index - 1];
      }
    }
  }

  // The location of the next position, by the two assignments the matcher makes.
  lemma {:induction false} NextPosition<C>(es: seq<Expectation<C>>, n: nat)
    requires WellFormed(es) && n < |Expand(es)|
    ensures var (index, matched) := Position(es, n);
            && index < |es|
            && Position(es, n + 1) == if matched + 1 == es[index].count then (index + 1, 0) else (index, matched + 1)
  {
    if n >= es[0].count {
      NextPosition(es[1..], n - es[0].count);
    } else if n + 1 == es[0].count && es[1..] != [] {
      assert Position(es[1..], 0) == (0, 0);
    }
  }

  // The first deviation stays the first, whatever arrives later.
  lemma FirstDeviationIsFinal<C>(es: seq<Expectation<C>>, history: seq<Arrival<C>>, a: Arrival<C>)
    ensures FirstDeviation(es, history + [a]) ==
            if FirstDeviation(es, history) < |history| then FirstDeviation(es, history)
            else if Conforms(es, a, |history|) then |history| + 1 else |history|
  {
    assert (history + [a])[..|history|] == history;
  }

  lemma {:induction false} VerdictIsSticky<C>(es: seq<Expectation<C>>, history: seq<Arrival<C>>, more: seq<Arrival<C>>)
    requires Verdict(es, history).Some?
    ensures Verdict(es, history + more) == Verdict(es, history)
    decreases |more|
  {
    if more == [] {
      assert history + more == history;
    } else {
      var last := |more| - 1;
      VerdictIsSticky(es, history, more[..last]);
      FirstDeviationIsFinal(es, history + more[..last], more[last]);
      assert history + more == history + more[..last] + [more[last]];
    }
  }

  // No error is recorded exactly while the commands received are the beginning of the
  // expanded list and all of them were queued.
  lemma NoErrorExactlyOnAPrefix<C>(es: seq<Expectation<C>>, history: seq<Arrival<C>>)
    requires es != []
    ensures Verdict(es, history) == None <==> Commands(history) <= Expand(es) && AllQueued(history)
  {
    var first := FirstDeviation(es, history);
    if first == |history| && history != [] {
      assert Conforms(es, history[|history| - 1], |history| - 1);
    }
    if first < |history| && Commands(history) <= Expand(es) {
      assert Commands(history)[first] == Expand(es)[first];
      assert !history[first].queued;
    }
  }

  // Success exactly when the whole list has arrived and nothing else has, without loss;
  // a scenario that expects nothing always succeeds.
  lemma CompleteExactlyOnTheWholeList<C>(es: seq<Expectation<C>>, history: seq<Arrival<C>>)
    ensures StatusOf(es, history) == Complete <==> es == [] || (Commands(history) == Expand(es) && AllQueued(history))
  {
    if es != [] { NoErrorExactlyOnAPrefix(es, history); }
  }

  // What an error says: its position is where the list was left, and a command that did
  // not match is out of order exactly when some later expectation wants it.
  lemma ErrorNamesTheFirstDeviation<C>(es: seq<Expectation<C>>, history: seq<Arrival<C>>)
    requires WellFormed(es) && Verdict(es, history).Some?
    ensures var f := Verdict(es, history).value;
            var at := f.observed - 1;
            && 0 <= at < |history|
            && at <= |Expand(es)|
            && f.index <= |es|
            && Commands(history[..at]) == Expand(es)[..at] && AllQueued(history[..at])
            && (f.code == Overflow <==> at < |Expand(es)| && history[at].command == Expand(es)[at])
            && (f.code == Overflow ==> !history[at].queued && |Expand(es[..f.index])| + f.matched == at + 1)
            && (f.code != Overflow ==> |Expand(es[..f.index])| + f.matched == at)
            && (f.code == OutOfOrder ==> exists j :: f.index < j < |es| && es[j].command == history[at].command)
            && (f.code == Unexpected ==> forall j :: f.index <= j < |es| ==> es[j].command != history[at].command)
  {
    var at := FirstDeviation(es, history);
    if at > 0 { assert Conforms(es, history[at - 1], at - 1); }
    assert at <= |Expand(es)|;
    PositionIsLocation(es, at);
    if at < |Expand(es)| { PositionIsLocation(es, at + 1); }
    assert Commands(history[..at]) == Expand(es)[..at];
  }

  // ---------- The matcher ----------

  // Where the matcher's counters stand after a history.
  function Progress<C(==)>(es: seq<Expectation<C>>, history: seq<Arrival<C>>): (nat, nat, nat) {
    if es == [] then (0, 0, 0)
    else
      match Verdict(es, history)
      case Some(f) => (f.index, f.matched, f.observed)
      case None => (Position(es, |history|).0, Position(es, |history|).1, |history|)
  }

  class Observer<C(==)> {
    const expectations: seq<Expectation<C>>
    const capacity: nat
    var index: nat
    var matched: nat
    var observed: nat
    var error: Option<Failure>
    var queue: seq<C>
    var dropped: nat
    var notifyChannel: nat           // channels are numbered; those below this one are closed
    ghost var history: seq<Arrival<C>>

    ghost predicate Reflects(h: seq<Arrival<C>>)
      reads this
    {
      && error == Verdict(expectations, h)
      && (index, matched, observed) == Progress(expectations, h)
    }

    ghost predicate Valid()
      reads this
    {
      && WellFormed(expectations)
      && |queue| <= capacity
      && Reflects(history)
      && notifyChannel == |history|
    }

    constructor (expectations: seq<Expectation<C>>, capacity: nat)
      requires WellFormed(expectations)
      ensures Valid() && history == [] && queue == [] && dropped == 0
      ensures this.expectations == expectations && this.capacity == capacity
    {
      this.expectations := expectations;
      this.capacity := capacity;
      index, matched, observed, error := 0, 0, 0, None;
      queue, dropped, notifyChannel := [], 0, 0;
      history := [];
    }

    method SetError(code: Code)
      modifies this`error
      ensures error == if old(error).Some? then old(error) else Some(Failure(code, index, matched, observed))
    {
      if error.Some? { return; }
      error := Some(Failure(code, index, matched, observed));
    }

    // Matching one command, before it is known whether the queue has room for it.
    method Observe(command: C)
      requires WellFormed(expectations) && Reflects(history)
      modifies this`index, this`matched, this`observed, this`error
      ensures Reflects(history + [Arrival(command, true)])
    {
      FirstDeviationIsFinal(expectations, history, Arrival(command, true));
      if |expectations| == 0 || error.Some? { return; }
      MatcherIsAtPosition(expectations, history);
      observed := observed + 1;
      if index == |expectations| {
        SetError(Unexpected);
        return;
      }
      var expectation := expectations[index];
      if command != expectation.command {
        var code := Unexpected;
        var next := index + 1;
        while next < |expectations|
          invariant index < next <= |expectations|
          invariant code == Unexpected
          invariant forall j | index < j < next :: expectations[j].command != command
        {
          if command == expectations[next].command {
            code := OutOfOrder;
            break;
          }
          next := next + 1;
        }
        SetError(code);
        return;
      }
      NextPosition(expectations, |history|);
      matched := matched + 1;
      if matched == expectation.count {
        index := index + 1;
        matched := 0;
      }
    }

    // A command arrives: it is matched, queued if there is room, and every waiter is woken.
    method Record(command: C)
      requires Valid()
      modifies this
      ensures Valid()
      ensures var queued := |old(queue)| < capacity;
              && history == old(history) + [Arrival(command, queued)]
              && queue == (if queued then old(queue) + [command] else old(queue))
              && dropped == (if queued then old(dropped) else old(dropped) + 1)
    {
      Observe(command);
      if |queue| < capacity {
        queue := queue + [command];
        history := history + [Arrival(command, true)];
      } else {
        dropped := dropped + 1;
        LossIsAnOverflow(expectations, history, command);
        if |expectations| > 0 && error.None? { SetError(Overflow); }
        history := history + [Arrival(command, false)];
      }
      notifyChannel := notifyChannel + 1;
    }

    // The application takes a queued command.
    method Take() returns (command: Option<C>)
      requires Valid()
      modifies this`queue
      ensures Valid()
      ensures old(queue) == [] ==> command == None && queue == []
      ensures old(queue) != [] ==> command == Some(old(queue)[0]) && queue == old(queue)[1..]
    {
      if queue == [] { return None; }
      command := Some(queue[0]);
      queue := queue[1..];
    }

    // The look a waiter takes under the lock, with the channel it will sleep on.
    method Look() returns (status: Status, channel: nat)
      requires Valid()
      ensures status == StatusOf(expectations, history)
      ensures channel == notifyChannel
    {
      channel := notifyChannel;
      if error.Some? { return Failing(error.value), channel; }
      if |expectations| > 0 { MatcherIsAtPosition(expectations, history); }
      if |expectations| == 0 || index == |expectations| { return Complete, channel; }
      status := Pending;
    }

    // The verdict of a waiter that gave up: missing, unless it is already decided.
    method GiveUp() returns (status: Status)
      requires Valid()
      ensures status == StatusOnGivingUp(expectations, history)
    {
      if error.Some? { return Failing(error.value); }
      if |expectations| > 0 { MatcherIsAtPosition(expectations, history); }
      if |expectations| == 0 || index == |expectations| { return Complete; }
      return Failing(Failure(Missing, index, matched, observed));
    }
  }

  function StatusOnGivingUp<C(==)>(es: seq<Expectation<C>>, history: seq<Arrival<C>>): Status {
    var status := StatusOf(es, history);
    if status.Pending? then
      var (index, matched) := Position(es, |history|);
      Failing(Failure(Missing, index, matched, |history|))
    else status
  }

  // Without an error the matcher stands where the list has been followed to.
  lemma MatcherIsAtPosition<C>(es: seq<Expectation<C>>, history: seq<Arrival<C>>)
    requires WellFormed(es) && es != [] && Verdict(es, history) == None
    ensures |history| <= |Expand(es)|
    ensures var (index, matched) := Position(es, |history|);
            && index <= |es|
            && |Expand(es[..index])| + matched == |history|
            && (index == |es| <==> |history| == |Expand(es)|)
            && (index < |es| ==> Expand(es)[|history|] == es[index].command)
  {
    NoErrorExactlyOnAPrefix(es, history);
    PositionIsLocation(es, |history|);
  }

  // A command that could not be queued turns a clean history into an overflow, and
  // changes nothing otherwise.
  lemma LossIsAnOverflow<C>(es: seq<Expectation<C>>, history: seq<Arrival<C>>, command: C)
    requires WellFormed(es)
    ensures var kept := history + [Arrival(command, true)];
            var lost := history + [Arrival(command, false)];
            Verdict(es, lost) ==
              if es == [] || Verdict(es, kept).Some? then Verdict(es, kept)
              else
                var (index, matched) := Position(es, |kept|);
                Some(Failure(Overflow, index, matched, |kept|))
  {
    var kept, lost := Arrival(command, true), Arrival(command, false);
    FirstDeviationIsFinal(es, history, kept);
    FirstDeviationIsFinal(es, history, lost);
    var first := FirstDeviation(es, history);
    if first < |history| {
      assert (history + [kept])[first] == (history + [lost])[first];
    } else {
      assert (history + [kept])[first] == kept && (history + [lost])[first] == lost;
    }
  }

  // Giving up reports something missing exactly while the list has been followed, without
  // loss, to a place before its end; and it names that place: the expectation under way, how
  // many of its commands have come, and how many of all.
  lemma MissingNamesThePlace<C>(es: seq<Expectation<C>>, history: seq<Arrival<C>>)
    requires WellFormed(es)
    ensures var status := StatusOnGivingUp(es, history);
            && (status.Failing? && status.failure.code == Missing
                <==> Commands(history) <= Expand(es) && |history| < |Expand(es)| && AllQueued(history))
            && (status.Failing? && status.failure.code == Missing ==>
                  var f := status.failure;
                  && f.index < |es| && f.matched < es[f.index].count
                  && |Expand(es[..f.index])| + f.matched == |history| == f.observed)
            && (!(status.Failing? && status.failure.code == Missing) ==> status == StatusOf(es, history))
  {
    if es != [] {
      NoErrorExactlyOnAPrefix(es, history);
      if Verdict(es, history) == None {
        PositionIsLocation(es, |history|);
      } else {
        ErrorNamesTheFirstDeviation(es, history);
      }
    }
  }
}
