# A verified model of the ESPHome Native API client and its simulated device

The repository is a bounded client for the ESPHome Native API and a deterministic simulated
device that speaks the same wire format. This project models its concurrent and stateful
parts in Dafny and proves what they promise over every input and every run.

Two forms are used. Code that updates an object under a lock, or a buffer in a loop, is a
class or a method here, proved against functions whose own properties are lemmas: the
conveyor firmware, the entity registry, the state store with its subscriptions and timeline,
the virtual clock, the command matcher, the listing slot, the shaped connection, the framers
and the DNS reader and writer. Where the point is the interleaving of goroutines, each
atomic action is a step of a machine on values (`Step`, `Run`), and the results hold of every
list of actions: the client's probes, its reader and dispatcher, the network writer, the
command waiters and the life of a device.

| files | part of the system |
|---|---|
| `ClientSession`, `ClientSessionProofs`, `ClientAttribution`, `ClientProgress` | probes without correlation numbers, the watchdog's verdict, keepalive and the one shutdown |
| `Dispatch`, `Listing`, `ListingAnswers`, `ListingAttribution` | reader, bounded queue, dispatcher, registry and listings, and whose answer a listing returns |
| `Entities`, `EntityRegistry` | entity messages, fan and light commands, the client's registry |
| `StateLog`, `DeviceStore`, `Replication` | latest-state store, subscriptions, and the registry that must agree with them |
| `VirtualClock` | manual time, waiters and device timelines |
| `Lifecycle`, `LifecycleProgress` | starting, dropping and closing sessions |
| `Expectations`, `CommandWaiters` | run-length command expectations and those who wait for them |
| `NetworkModel`, `NetworkConn`, `NetworkProofs`, `NetworkShapes`, `NetworkProgress` | the shaped network writer |
| `ConveyorModel`, `ConveyorFirmware`, `ConveyorProofs`, `ConveyorProgress`, `ConveyorDisplay` | the conveyor firmware and its six scripts |
| `DnsNames`, `DnsNameProofs`, `DnsTexts`, `DnsMessages`, `DnsAnswers` | the mDNS codec (sections 2.3.4, 3.1 and 4.1.4 of RFC 1035, section 10.2 of RFC 6762) |
| `ByteStreams`, `PlainFraming`, `NoiseFraming` | both framings over a byte stream (section 5.1 of the Noise Protocol Framework for the nonces) |

Where the code does not do what one might expect, each with a lemma; in the first two it
contradicts its own documentation:

- client.go:537-541 says a late response can never satisfy a later probe. It can, between the
  watchdog's verdict (client.go:593) and its shutdown (client.go:594):
  `ClientSessionProofs.LateResponseCanSatisfyALaterProbe`.
  `ClientAttribution.SuccessIsItsOwnExactlyWhen` gives the exact condition: a call that
  succeeds does so on the response to its own request if and only if no response was owed on
  its lane when it registered its hook, as many having been read as requests had been sent.
- conveyor_device.go:394-396 says a brick stopped between the sensors travels on when the
  motor is started again. It never moves again. `ConveyorProgress.CompletesExactlyUnlessStuck`
  says that this and the end of the bench sequence are the only ways to stop completing
  bricks, `TurningOffStrandsExactlyInTransit` says exactly when turning the motor off does
  it, in the firmware's fields, and `FirstBrickCanBeStranded` gives a run.
- A command's state is echoed to the commanding session only (simulator/simulator.go:621-630),
  so another subscriber keeps the old state: `StateLog.AnotherSessionsCommandGoesUnseen`.
- Listing the entities again after subscribing resets every state in the registry until it is
  next reported: `Replication.ListingAgainForgetsTheState`.
- A completion is not tied to a request, so the late answer to a listing that timed out ends
  the next one: `ListingAttribution.LateCompletionEndsALaterListing`.
  `ListingAttribution.AnsweredByItselfExactlyWhen` gives the exact condition, for a peer that
  answers every request once and in order: when the call sends its request, the requests sent
  before are as many as the completions handled when it registered.
- `writeNoisePacket` sends an empty packet that `readNoisePacket` refuses:
  `NoiseFraming.PacketRoundTrip`.
- Padded varints are read though never written: `PlainFraming.PaddedLengthIsAccepted`.
  `FrameReadIsWrittenExactlyIfUnpadded` says that reading then writing is an identity exactly
  for headers without padding.
- A name read from a message can be longer than 254 bytes when its labels are not ASCII,
  because changing their case can lengthen them: `DnsNameProofs.LongNamesAreRead`.

The ghost `lossy` flag of a session records that a send to it has failed since it subscribed
(a state can exceed the frame limit while the connection lives on). Which sends and which
writes a connection refuses, or takes short, is a parameter (`Session.fails`, `Sink.fails`,
`Sink.takes`), and the results say exactly when they fail. `Reachable` states are those some
run leads to. Floating-point values are only ever copied or compared, so they are
reals.

DNS names are bytes of any value. How text changes case (`strings.ToLower`, `strings.EqualFold`)
is a parameter of the codec, the `Folding`; what is proved of termination, step counts,
positions, paths and compression holds for every folding and every message. Only the round
trips and the bound on the length of a name assume that the names in question are ASCII, and
that the folding treats ASCII as usual.

## Model

| member | source | states |
|---|---|---|
| `ClientSessionProofs.RunPreserves` | client.go:551-621 | every interleaving of callers, watchdogs, reader, keepalive loop and closers keeps the session invariant |
| `ClientSessionProofs.ProbesAreSerialized` | client.go:573-588 | gate token plus holders is always one, at most one completion hook is registered for a message ID, and its caller holds the gate |
| `ClientSessionProofs.SuccessesConsumeDistinctResponses` | client.go:575-585 | two successful exchanges consumed two different responses |
| `ClientSessionProofs.OneWinner` | client.go:590-620 | success is never accompanied by a shutdown from that call or its watchdog; an expired verdict means a closed client or a shutdown still due with that call's category |
| `ClientSessionProofs.UnansweredIsBounded` | client.go:551-621 | requests without a read response are at most the holder's one plus the expired exchanges whose shutdown has not returned |
| `ClientSessionProofs.ResponseBelongsToHolder` | client.go:736-750 | with no expiry pending, a response read answers the current holder and reaches its hook alone |
| `ClientAttribution.SuccessIsItsOwnExactlyWhen` | client.go:551-621 | in every run, whatever expires in it and whether or not the client closes, a call that succeeds took the response to its own request if and only if no response was owed on its lane when it registered its hook |
| `ClientAttribution.RunKeepsBoth` | client.go:574-613 | registered with nothing owed, a call only ever gets its own responses; registered with something owed, the first response it gets answers another request |
| `ClientAttribution.ReachableUnhooked` | client.go:569-583 | in every reachable state a call that holds the gate without a hook has received nothing and is not being sent anything |
| `ClientSessionProofs.ReadIsAttributedExactlyWhen` | client.go:736-750 | of one read: the response about to reach a hook answers that caller's request if and only if it was sent and no other is outstanding |
| `ClientSessionProofs.SuccessConsumesItsOwnResponse` | client.go:604-613 | in every run without an expired exchange of the lane, before and after the client closes, a success consumed the response to its own request |
| `ClientSessionProofs.LateResponseCanSatisfyALaterProbe` | client.go:592-596 | a reachable open state in which a probe succeeded on the response to an earlier, expired one |
| `ClientSessionProofs.FirstShutdownWins` | client.go:425-434 | once a shutdown has begun the reason is set and no later action of any run changes it |
| `ClientSessionProofs.ReasonIsWrittenOnce` | client.go:425-434 | no single action changes the reason or reopens a client that has left the open stage |
| `ClientSessionProofs.KeepaliveReasonHadTheGate` | client.go:629-656 | a keepalive close reason names a keepalive probe that acquired the gate and did not succeed; the converse is `ClientProgress.FailedKeepaliveCloses` |
| `ClientProgress.FailedKeepaliveCloses` | client.go:643-652 | in every reachable state a keepalive probe that returned neither success nor "not started" has its loop about to shut the client down for that failure, or done is closed; while the client is open that shutdown can begin |
| `ClientProgress.ExpiredCallCloses` | client.go:592-620 | an exchange that returned as expired has its watchdog about to shut the client down with its category, or done is closed |
| `ClientProgress.ReasonIsTheFirstShutdowns` | client.go:425-449 | in every run the client is open and without a reason until shutdown is first called, and then has the reason of that call: none if it was Close, the category of the probe if a caller or its watchdog, the failure if the keepalive loop |
| `ClientProgress.ShutdownSkipsNothing` | client.go:425-434 | in every run shutdown sets the reason, clears the connected flag, closes the framer and closes done, in this order and none left out |
| `ClientProgress.ShutdownReturns` | client.go:425-436 | whoever may call shutdown, Close among them at any time, gets back from it with the client closed, for its own reason if it was the first |
| `ClientProgress.StartedWatchdogDecides` | client.go:592-596 | a watchdog that has started leaves the verdict decided, and owes a shutdown exactly if it decided it |
| `ClientProgress.EveryCallCanReturn` | client.go:551-621 | from any state at all, a call whose context has ended, and any call once the client has closed, can return by its own steps and those of the shutdown it calls |
| `ClientProgress.AnsweredProbeSucceeds` | client.go:551-621 | from every reachable state with the lane at rest a probe that is sent and answered succeeds on that answer, owes no shutdown, and leaves the lane at rest |
| `ClientProgress.TooLateToStart` | client.go:555-572 | a call whose context is over, or whose client has closed, before it looks never passes the gate and never sends, in any run |
| `ClientProgress.NothingIsSentAfterTheFramerCloses` | client.go:425-434 | once shutdown has closed the framer no request is sent in any run |
| `ClientProgress.SendsWhileFramerOpen` | client.go:390-411 | before that the send of a call that is ready for it can succeed, and only then |
| `ClientProgress.LanesAreIndependent` | client.go:672-688 | a call passes its gate exactly if the token of its own lane is there, and no step of a call touches the other lane |
| `ClientProgress.ResponsesKeepToTheirKind` | client.go:736-750 | a ping response reaches only pings, a device-info response only DeviceInfo calls |
| `ClientProgress.NoWatchdogOutlivesItsCall` | client.go:592-597 | a call that has returned has no watchdog left that could still start |
| `Dispatch.RunSound` | client.go:270-388 | every interleaving of reader, dispatcher, listing calls and shutdowns keeps the dispatch invariant |
| `Dispatch.AppliedIsAPrefixOfRead` | client.go:316-345 | the registry gets a gap-free prefix of the messages read, in order, the queue never exceeds its capacity, and an open client that has not overflowed loses nothing |
| `Dispatch.OverflowCloses` | client.go:316-323 | a full queue leads to a closed client, with that reason unless another shutdown came first |
| `Dispatch.AtMostOneAppliedAfterDone` | client.go:327-345 | after done closes at most one more message reaches the registry, and only one that had passed both checks |
| `Dispatch.EverythingReadCanBeApplied` | client.go:327-345 | until done closes, and unless the queue overflowed, everything read can reach registry and listing by the steps of the dispatcher and of what the reader has in hand |
| `Dispatch.NothingIsReadAfterAFailure` | client.go:282-323 | after a full queue or a failed read nothing more is read or queued, in any run |
| `Dispatch.FailingReaderCloses` | client.go:282-323 | a reader that has failed can only shut the client down; it does so with its own cause if the client is still open, and stops when done is closed |
| `Dispatch.ReaderNeverWaits` | client.go:316-323 | a message that is offered is queued if there is room, overflows if there is none and done is open, and may be dropped once done is closed; one of these is always possible |
| `Dispatch.FirstReasonStays` | client.go:425-434 | whoever closes the client first, in every run the reason stays |
| `Dispatch.AnyoneCanClose` | client.go:425-436 | an open client can be closed for any reason, with no other effect |
| `Dispatch.DispatcherCanExit` | client.go:327-362 | once done is closed the dispatcher can end by its own steps |
| `Dispatch.ReaderCanStop` | client.go:278-324 | and the reader by its own |
| `Dispatch.ListingReturnsItsWindow` | client.go:470-499 | in every run a successful listing returns, in order and each once, exactly the messages that list an entity, of a known family or another, among those applied between its registration and the next completion; its channel is closed at most once, and a call still waiting can succeed exactly when there has been a completion |
| `Listing.ListEntitiesSelects` | client.go:380-388 | what is kept of a list of messages is those that list an entity of any family, in their order and as often as they occur |
| `Dispatch.AnsweredListingCanReturn` | client.go:488-499 | a waiting call whose completion has been read, by a client that is not done and has not overflowed, can return what was listed by the steps of the dispatcher and its own |
| `Dispatch.CallsLeave` | client.go:479-499 | a listing call can give up at any time, and leaving gives up the slot if it is still the caller's and nothing else |
| `Dispatch.ListedEntitiesAreRegistered` | client.go:342-343 | every entity of a known family in such a result is in the registry already |
| `ListingAttribution.AnsweredByItselfExactlyWhen` | client.go:470-499 | against a peer that answers every request once and in order, a successful call was ended by the completion of its own request if and only if, when it sent that request, as many requests had been sent as completions had been handled when it registered |
| `ListingAttribution.OwnAnswerIsComplete` | client.go:470-499 | and then what it returned is, in order and each once, exactly the messages other than the completion that were sent in answer to it |
| `ListingAttribution.AnsweredByItselfIfAllWereAnswered` | client.go:470-499 | with no other call between registering and sending, the condition reads: when it registered, every request sent had had its completion handled |
| `ListingAttribution.EndsOnTheRequestInTurn` | client.go:374-378 | the completion that ends a call answers the request with the number of completions handled when it registered |
| `ListingAttribution.LateCompletionEndsALaterListing` | client.go:374-378 | a run in which a second call returns empty on the only completion read, which answers the first call's request |
| `ListingAttribution.UnsentCallIsAnsweredFirst` | client.go:471-488 | a run in which every request sent was answered when a call registered, and another call, registered before and slower to send, has its answer returned |
| `ListingAnswers.RunInv` | client.go:368-388 | every run of client and peer keeps the account: the k-th completion and the entities before it answer the k-th request |
| `Listing.HandleExact` | client.go:368-383 | handling a message keeps every listing exact: in progress it holds everything since registration, completed what came before the first completion |
| `Listing.BeginExact` | client.go:471-478 | registering starts an exact, empty listing |
| `Listing.ReleaseExact` | client.go:479-485 | giving the slot up changes no listing's contents, whoever owns the slot by then |
| `Listing.ListSlot.Register` | client.go:471-478 | registers exactly when no listing is in progress |
| `Listing.ListSlot.GiveUp` | client.go:479-485 | gives up the slot only if it is still the caller's own |
| `Listing.ListSlot.HandleList` | client.go:368-383 | the locked section of the dispatcher: an entity of any family is appended, a completion completes, anything else changes nothing; every listing stays exact |
| `EntityRegistry.EntryAfterOneMore` | entities.go:104-153 | the registry entry that a history of messages means, one message later: replaced by a listing, updated by a report, otherwise untouched |
| `EntityRegistry.ThereExactlyIfListed` | entities.go:104-153 | an entity is there exactly if it has been listed |
| `EntityRegistry.ListedReadsAsZero` | entities.go:108-123 | listed and not reported, it has the identity, object id, name and its own family's traits of the listing, and a state that is off, zero or empty |
| `EntityRegistry.Registry.constructor` | entities.go:95-102 | the empty registry is what the empty history means |
| `EntityRegistry.Registry.Handle` | entities.go:104-153 | after any message every identity's entry is its last listing with the last state reported since |
| `EntityRegistry.Registry.List` | entities.go:108-123 | a listing replaces exactly one entity, with a zero state |
| `EntityRegistry.Registry.Report` | entities.go:124-152 | a state changes exactly the listed entity of its identity, and nothing if there is none |
| `EntityRegistry.Registry.Domain` | entities.go:213-241 | the first family in the lookup order that has the key, none if no family has it |
| `Entities.ApplyFan` | simulator/simulator.go:825-841 | each of the five fields is the one in the command if the command has it and the old one otherwise |
| `Entities.ApplyLight` | simulator/simulator.go:842-873 | the same for the ten parts of a light; red, green and blue together |
| `StateLog.SnapshotShowsTheStore` | simulator/simulator.go:739-758 | the snapshot shows the latest state of every stored identity, each once, and nothing else |
| `StateLog.StreamShowsTheLastHeard` | simulator/simulator.go:527-539 | snapshot plus later sends show, of every identity, exactly the last commit made before the subscription or visible to the session since |
| `StateLog.StreamAgreesWithTheStore` | simulator/simulator.go:621-667 | they show the store's own state whenever the last writer is not another session since the subscription |
| `StateLog.StreamAgreesExactlyWhen` | simulator/simulator.go:621-667 | and otherwise only if the last state the session heard of happens to be the same |
| `StateLog.AnotherSessionsCommandGoesUnseen` | simulator/simulator.go:621-630 | another session's command changes the store and not the stream, which then agrees only if it showed that state before |
| `DeviceStore.Device.constructor` | simulator/simulator.go:210-214 | initial states are the first commits of the log |
| `DeviceStore.Device.Store` | simulator/simulator.go:739-748 | a commit keeps store and order the mirror of the log |
| `DeviceStore.Device.TakeSnapshot` | simulator/simulator.go:750-758 | the snapshot of the log, in order of first commit |
| `DeviceStore.Device.Subscribe` | simulator/simulator.go:527-539 | the session is sent the snapshot of this instant and from here on follows the log; that succeeds exactly if none of those sends fails, other sessions are untouched |
| `DeviceStore.Device.StoreAndSend` | simulator/simulator.go:621-630 | one commit, tried once on its session only, which succeeds exactly if the connection lets it; every connected subscriber still follows the log |
| `DeviceStore.Device.Broadcast` | simulator/simulator.go:647-666 | one commit, tried once on every connected subscriber and on nobody else |
| `DeviceStore.Device.SendToSubscribers` | simulator/simulator.go:661-666 | on each connected subscriber the state is tried once, and sent unless the connection refuses it |
| `DeviceStore.SentUnlessFailed` | simulator/simulator.go:661-666 | of any list of states each is tried once; if no send fails all of them go out in order, and the session counts as having lost one exactly if a send failed |
| `DeviceStore.SendEachSplits` | simulator/simulator.go:661-666 | sending one list and then another is sending both, failures included |
| `DeviceStore.Device.FanCommanded` | simulator/simulator.go:579-595 | the commit is the stored fan of that key, or a zero one, with the command applied, and it is tried once on the commanding session |
| `DeviceStore.Device.LightCommanded` | simulator/simulator.go:596-612 | the same for a light |
| `DeviceStore.Device.SwitchCommanded` | simulator/simulator.go:570-573 | a switch is committed as commanded and echoed |
| `DeviceStore.Device.NumberCommanded` | simulator/simulator.go:574-577 | a number the same |
| `DeviceStore.Device.AdvanceTimeline` | simulator/simulator.go:703-730 | commits and delivers exactly the events due, in order; the index becomes the number of events due, or stays if that is less |
| `DeviceStore.Device.FireNext` | simulator/simulator.go:707-727 | one event is committed and pushed, and the index moves past it |
| `DeviceStore.Device.FireDue` | simulator/simulator.go:706-728 | the loop fires event after event from the index on and stops at the first that is not due |
| `DeviceStore.Device.Connect` | simulator/simulator.go:314-317 | a new session, not yet subscribed, joins |
| `DeviceStore.Device.Disconnect` | simulator/simulator.go:427-444 | sessions leave and nothing else changes |
| `DeviceStore.DueAreFirst` | simulator/simulator.go:706-710 | in a sorted timeline the events with a time not after now are the first so many |
| `DeviceStore.SubscriberShowsTheStore` | simulator/simulator.go:527-667 | what a live subscriber was sent shows the device's current state, unless another session wrote it since |
| `Replication.RegistryAgreesWithTheStore` | entities.go:104-153 | a client that lists once and then subscribes holds the device's state of every listed entity that has one, whatever came before, between, or mixed with the states |
| `Replication.ReportsShow` | entities.go:104-153 | messages that do not list an entity leave it with the last state they report of it |
| `Replication.StreamAloneWillDo` | simulator/simulator.go:527-539 | the states a session is sent, by themselves, are such messages |
| `Replication.ListingAgainForgetsTheState` | entities.go:108-123 | after a second listing the registry shows only what is reported after it |
| `VirtualClock.Clock.Advance` | simulator/clock.go:52-62 | a negative or overflowing advance changes nothing; any other moves clock, stores and pushes to that time, wakes exactly the waiters whose target has come and keeps the others |
| `VirtualClock.Clock.AdvanceTo` | simulator/clock.go:65-72 | the same for an absolute time |
| `VirtualClock.Clock.MoveTo` | simulator/clock.go:82-103 | every timeline is followed exactly up to the new time, and no registered waiter is overdue |
| `VirtualClock.Clock.WakeDue` | simulator/clock.go:89-94 | exactly the waiters whose target has come are woken and removed |
| `VirtualClock.AdvanceInTwo` | simulator/clock.go:74-103 | advancing twice has the effect of advancing once by the sum, on clock, waiters, stores, indexes and the sends to every subscriber, those that fail included |
| `VirtualClock.WaitThenAdvance` | simulator/clock.go:105-127 | a wait ends with the advance that reaches its target and not before |
| `VirtualClock.DueBetweenIsTheInterval` | simulator/simulator.go:706-711 | what an advance fires is the events with a time in the interval, in declaration order |
| `VirtualClock.DueBetweenSplits` | simulator/simulator.go:706-711 | the events of two adjacent intervals are those of the whole |
| `VirtualClock.WakingSplits` | simulator/clock.go:89-94 | two advances wake and keep the same waiters as one |
| `VirtualClock.Clock.BeginWait` | simulator/clock.go:105-116 | no wait when the target has come, otherwise a new waiter with a target still ahead |
| `VirtualClock.Clock.StopWait` | simulator/clock.go:121-126 | a stopped waiter is forgotten |
| `VirtualClock.Clock.Register` | simulator/clock.go:129-133 | a new device catches up with the clock, in its store and towards its subscribers |
| `VirtualClock.Clock.Unregister` | simulator/clock.go:135-146 | the first registration of a device is removed, the order of the others kept |
| `Lifecycle.RunSound` | simulator/simulator.go:302-322 | every interleaving of starts, exits, drops and Close keeps both counters equal to the session tasks they count |
| `Lifecycle.ResourcesAreBounded` | simulator/simulator.go:257-318 | connections are at most session tasks, which are at most 64; at most 8 listeners |
| `Lifecycle.NoSendOnAClosedChannel` | simulator/simulator.go:446-462 | when the commands channel is closed every task is gone, so no record step is possible |
| `Lifecycle.NothingStartsAfterClose` | simulator/simulator.go:302-309 | once Close has had the lock no step starts a session |
| `Lifecycle.CloseReachesEverything` | simulator/simulator.go:450-457 | from then on every serving task's connection is closed or about to be, and every listener is closed |
| `Lifecycle.StartMayCommitAfterDone` | simulator/simulator.go:305-318 | a start that passed its check commits after done is closed, and Close waits for it at the lock |
| `LifecycleProgress.StartsExactlyWhen` | simulator/simulator.go:302-322 | with the lock free a connection becomes a session exactly if the device is open and serves fewer than 64 |
| `LifecycleProgress.ListensExactlyWhen` | simulator/simulator.go:257-285 | a listener is registered exactly if the device is open and has fewer than 8, and leaves its place when it returns |
| `LifecycleProgress.LockIsExclusive` | simulator/simulator.go:302-322 | while a start or a listener holds the lock, nothing it guards changes but by its own commit |
| `LifecycleProgress.RecordsExactlyWhileServing` | simulator/simulator.go:464-475 | a session records commands exactly while it serves |
| `LifecycleProgress.EndedSessionsAreClosed` | simulator/simulator.go:466-473 | in every run a session that no longer serves has had its connection closed |
| `LifecycleProgress.ClosedOnlyBy` | simulator/simulator.go:427-474 | a connection is closed only by the session it belongs to, by DropConnections after taking it out, or by Close |
| `LifecycleProgress.DropClosesEveryConnection` | simulator/simulator.go:427-444 | DropConnections takes every connection there is, and once it is through each has been closed, in every interleaving |
| `LifecycleProgress.CloseCanFinish` | simulator/simulator.go:446-474 | a Close that has begun can always finish: whoever holds the lock only has to commit, and every session only has to end after its connection has been closed |
| `Expectations.NoErrorExactlyOnAPrefix` | simulator/command_expectations.go:105-131 | no error exactly while the commands received are a prefix of the expanded list and none was dropped |
| `Expectations.CompleteExactlyOnTheWholeList` | simulator/command_expectations.go:87-90 | success exactly when they are the whole list, or nothing is expected |
| `Expectations.ErrorNamesTheFirstDeviation` | simulator/command_expectations.go:114-143 | an error tells the first deviation and its place in the run lengths; out of order exactly when a later expectation wants the command |
| `Expectations.VerdictIsSticky` | simulator/command_expectations.go:133-143 | once there is an error, whatever arrives leaves it as it is |
| `Expectations.PositionIsLocation` | simulator/command_expectations.go:126-130 | index and matched count are the sum of finished counts plus matched, at the command the expanded list wants next |
| `Expectations.NextPosition` | simulator/command_expectations.go:126-130 | the next place in the list, by the matcher's two assignments |
| `Expectations.Observer.Observe` | simulator/command_expectations.go:105-131 | the counters and error reflect the list reference after one more command |
| `Expectations.Observer.SetError` | simulator/command_expectations.go:133-143 | only the first error is kept |
| `Expectations.Observer.Record` | simulator/simulator.go:760-776 | matching, queueing or dropping, and waking: the state reflects the history with this command in it |
| `Expectations.Observer.Look` | simulator/command_expectations.go:80-92 | the status the list reference gives, with the channel to sleep on |
| `Expectations.Observer.GiveUp` | simulator/command_expectations.go:145-161 | what giving up means: missing, with the place reached, unless already decided |
| `Expectations.MissingNamesThePlace` | simulator/command_expectations.go:145-161 | giving up reports something missing exactly if the commands are a proper beginning of the list without loss; the error then names the expectation under way, how many of its commands have come and how many of all |
| `Expectations.LossIsAnOverflow` | simulator/simulator.go:766-773 | a dropped command is an overflow exactly when it matched |
| `CommandWaiters.NoWaiterSleepsThroughTheOutcome` | simulator/command_expectations.go:80-101 | a waiter whose channel is still open has missed nothing, so a decided outcome lets every sleeper wake |
| `CommandWaiters.SuccessMeansTheWholeList` | simulator/command_expectations.go:87-90 | in every run a wait returned nil only when exactly the whole list had arrived, undropped |
| `CommandWaiters.ReportedErrorsAgree` | simulator/command_expectations.go:82-86 | waiters that get an error other than missing all get the same one, and it is still what a look reports |
| `CommandWaiters.MissingMeansAProperPrefix` | simulator/command_expectations.go:145-161 | a waiter that was told a command is missing had seen a proper beginning of the list |
| `CommandWaiters.DecidedOutcomeIsReturned` | simulator/command_expectations.go:80-101 | once the outcome is decided any waiter that is looking or asleep returns it by its own steps |
| `CommandWaiters.CancelledWaiterReturns` | simulator/command_expectations.go:92-101 | a sleeping waiter whose context ends returns what giving up says |
| `CommandWaiters.MovesExactlyWhen` | simulator/command_expectations.go:76-103 | when a waiter can look, wake, be cancelled and conclude: it wakes only after an arrival since its last look |
| `CommandWaiters.ReturnedStays` | simulator/command_expectations.go:76-103 | what a waiter has returned no later action changes |
| `NetworkProofs.ShapingIsTransparent` | simulator/network.go:88-306 | for any mix of delay, fragmentation, coalescing, partial writes and stop, the bytes handed over are a prefix of the frames accepted, and all of them once a healthy writer is idle |
| `NetworkProofs.AsynchronousFramesAreCounted` | simulator/network.go:127-171 | the counter equals the asynchronous frames begun and not finished; the queue never exceeds 64 |
| `NetworkProofs.SynchronousFrameFindsEmptyQueue` | simulator/network.go:127-200 | on an open connection a synchronous frame is enqueued only when nothing is queued or being written, so it never meets a full queue |
| `NetworkProofs.NothingOvertakesADelayedFrame` | simulator/network.go:222-232 | while the clock is below a frame's target no byte of it or of a later frame is written |
| `NetworkProgress.EverythingAcceptedCanBeWritten` | simulator/network.go:202-259 | unless the writer has failed, time and the writer alone can bring out every byte accepted, after which no asynchronous frame counts but the sender's own |
| `NetworkProgress.WaitsExactlyWhenNothingIsDelayed` | simulator/network.go:127-141 | a frame is sent synchronously exactly if it is not delayed and no asynchronous frame is queued or being written |
| `NetworkProgress.CollectsExactlyInAFrame` | simulator/network.go:101-150 | in every run the connection keeps what is written exactly between the beginning and the end of a frame |
| `NetworkProgress.WrittenInAFrameIsKept` | simulator/network.go:173-186 | what is written inside a frame is kept in order, unless the connection has stopped |
| `NetworkProgress.FailedFrameIsForgotten` | simulator/network.go:127-155 | a frame whose framer failed leaves the asynchronous count as it was and is not sent |
| `NetworkProgress.RefusedSenderGoesOn` | simulator/network.go:156-163 | a refused frame leaves the asynchronous count; its sender goes on, after stopping the connection if the queue was full |
| `NetworkProgress.TakenFrames` | simulator/network.go:202-230 | a frame that is not delayed is written at once, a delayed one waits until its target or until the connection stops |
| `NetworkProgress.OneWrite` | simulator/network.go:272-289 | a write takes at least one byte of what is left, or fails and ends the frame |
| `NetworkProgress.DoneMeansWritten` | simulator/network.go:165-171 | a synchronous send that is told it is done by a healthy writer has every byte accepted so far on the connection |
| `NetworkProgress.WaitingSenderCanReturn` | simulator/network.go:165-171 | a sender that waits can return: a healthy writer writes everything and reports, a failed one stops the connection |
| `NetworkProgress.NothingIsWrittenAfterAFailure` | simulator/network.go:202-220 | after a failed write or a wait cut short nothing more is written, and the writer ends only with the connection stopped |
| `NetworkProgress.StopEndsTheWriter` | simulator/network.go:291-306 | wherever the writer is, stopping the connection lets it end by its own steps, without another byte |
| `NetworkProgress.SubmitOutcome` | simulator/network.go:188-200 | a finished frame is refused once the connection is stopped, refused as too many behind 64, and queued last otherwise |
| `NetworkProgress.FullQueueStopsTheConnection` | simulator/network.go:156-163 | a frame too many stops the connection before its sender begins another, in every run |
| `NetworkShapes.ArmingShapesTheNextFrame` | simulator/network.go:88-150 | the frame begun next has exactly the shape armed before it began and the payloads written until it ends, whatever else happens meanwhile |
| `NetworkShapes.ArmedFaultShapesTheNextFrame` | simulator/network.go:88-150 | from the arming on, whatever happens before and inside the next frame: a fragment fault makes its writes single bytes, a coalesce fault one write, a delay fault holds it until the time of the arming plus the delay, and what was armed before is kept |
| `NetworkShapes.ArmingIsOneShot` | simulator/network.go:101-114 | until something is armed again, every later frame is unshaped |
| `NetworkShapes.ShapesOfWrites` | simulator/network.go:231-259 | coalesced frames are one write, fragmented ones one byte a write, others one write a segment, all with the same bytes |
| `NetworkConn.ChunksFlatten` | simulator/network.go:231-259 | however a frame is cut into writes, the writes end to end are its segments |
| `NetworkConn.ShapedConn.WriteFrame` | simulator/network.go:222-259 | the chunks of the frame's shape are offered in order, every write to the connection is made at the frame's target or later, without an error all its bytes are handed over, and an error means that the connection was stopped or the last write failed |
| `NetworkConn.ShapedConn.WriteBytes` | simulator/network.go:244-249 | every byte of a segment with its own write |
| `NetworkConn.ShapedConn.WriteFragments` | simulator/network.go:242-252 | every byte of every segment with its own write |
| `NetworkConn.ShapedConn.WriteCoalesced` | simulator/network.go:231-241 | all segments in one write |
| `NetworkConn.ShapedConn.WriteAll` | simulator/network.go:272-289 | the whole payload in order, or a prefix of it if the connection was stopped or the last write failed; nothing once it is stopped |
| `NetworkConn.ShapedConn.WritePayload` | simulator/network.go:173-186 | kept inside a frame, refused when stopped, passed through otherwise |
| `NetworkConn.ShapedConn.BeginNextFrame` | simulator/network.go:101-125 | the armed one-shot flags move to the frame |
| `NetworkConn.ShapedConn.BuildFrame` | simulator/network.go:127-150 | the frame with its segments, asynchronous exactly when delayed or behind asynchronous frames |
| `NetworkConn.ShapedConn.EnqueueFrame` | simulator/network.go:188-200 | accepted, refused when stopped, or refused when full |
| `NetworkConn.ShapedConn.ArmNext` | simulator/network.go:88-99 | an action is armed for the next frame |
| `NetworkConn.ShapedConn.FinishAsyncFrame` | simulator/network.go:261-270 | the counter goes down for an asynchronous frame only |
| `ConveyorProofs.EveryRunFollowsThePhases` | cmd/conveyor-sim-server/conveyor_device.go:215-405 | every run, with ticks in any order and any fan commands, follows one brick through the phases |
| `ConveyorProofs.PhaseIsUnique` | cmd/conveyor-sim-server/conveyor_device.go:194-212 | the state determines the phase: a brick is in exactly one |
| `ConveyorProofs.AtMostOneLiveTick` | cmd/conveyor-sim-server/conveyor_device.go:194-212 | a script never has two ticks of its current generation |
| `ConveyorProofs.BeamsAreExclusive` | cmd/conveyor-sim-server/conveyor_device.go:282-342 | entry and exit are never both occupied |
| `ConveyorProofs.CaptureCountsEverySample` | cmd/conveyor-sim-server/conveyor_device.go:344-365 | a live capture tick at step k finds k samples and the brick at the exit |
| `ConveyorProofs.NoCaptureIsRejected` | cmd/conveyor-sim-server/conveyor_device.go:344-365 | no capture is rejected and each averages five samples |
| `ConveyorProofs.BackstopFindsMotorOn` | cmd/conveyor-sim-server/conveyor_device.go:367-386 | a live jam tick always finds the motor on |
| `ConveyorProofs.PublicationsAreAccepted` | cmd/conveyor-sim-server/conveyor_device.go:407-423 | everything published is accepted by an automaton that sees only the events |
| `ConveyorProofs.RequestOnlyWhileCarried` | cmd/conveyor-sim-server/conveyor_device.go:407-414 | the motor is requested only while a brick is on entry or in transit |
| `ConveyorProofs.EnRouteAlternates` | cmd/conveyor-sim-server/conveyor_device.go:407-414 | successive en-route publications differ |
| `ConveyorProofs.FirstEnRouteIsFalse` | cmd/conveyor-sim-server/conveyor_device.go:407-414 | the first one is false |
| `ConveyorProofs.ReadingsCountBricks` | cmd/conveyor-sim-server/conveyor_device.go:307-316 | readings published are the bricks completed plus the one measured and not released, with the ratios 48, 29, 35 and 26 in rotation, none swallowed |
| `ConveyorProofs.ReadingsFollowTheRotation` | cmd/conveyor-sim-server/conveyor_device.go:416-423 | an accepted trace has the readings of the rotation in order |
| `ConveyorProofs.ReadingIsTakenAtTheExit` | cmd/conveyor-sim-server/conveyor_device.go:344-365 | a reading is published only after its brick arrived and before it is lifted |
| `ConveyorProofs.MotorStopIsJustified` | cmd/conveyor-sim-server/conveyor_device.go:367-386 | the firmware stops the motor only after withdrawing its request in that motor-on period, with no arrival, fan-off or earlier stop since turn-on |
| `ConveyorDisplay.BrickIsRequested` | cmd/conveyor-sim-server/conveyor_device.go:259-264 | a current request tick that finds a brick on the entry leaves the belt requested, and publishes that unless it was |
| `ConveyorDisplay.NoBrickIsForgotten` | cmd/conveyor-sim-server/conveyor_device.go:282-405 | in every reachable state a brick on the entry is requested, has a request tick pending, or had its request withdrawn since it was placed |
| `ConveyorDisplay.PlacedBrickIsRequested` | cmd/conveyor-sim-server/conveyor_device.go:265-296 | placing a brick, and an exit hold that ends over an unrequested one, leave a current request tick pending |
| `ConveyorDisplay.WithdrawalIsPublished` | cmd/conveyor-sim-server/conveyor_device.go:367-373 | whenever the jam clock runs out the last en-route publication before that is false |
| `ConveyorDisplay.JamClockStopsTheMotor` | cmd/conveyor-sim-server/conveyor_device.go:367-405 | turning the motor on arms a jam clock whose first tick withdraws the request and whose second stops the motor |
| `ConveyorDisplay.PublishedIsCurrent` | cmd/conveyor-sim-server/conveyor_device.go:407-423 | the en-route state and the ratio published last are the firmware's own, and the last motor event says whether its motor is on |
| `ConveyorDisplay.ReadingIsShownUntilRelease` | cmd/conveyor-sim-server/conveyor_device.go:297-316 | the ratio shown is that of the brick from its measurement to its release, and no reading otherwise |
| `ConveyorDisplay.CommandSetsTheMotor` | cmd/conveyor-sim-server/conveyor_device.go:388-405 | a fan command sets the motor and is noted exactly if it changes it |
| `ConveyorDisplay.SequenceFinishesExactly` | cmd/conveyor-sim-server/conveyor_device.go:307-316 | the sequence is declared finished exactly when as many bricks as asked for have been completed, never more |
| `ConveyorDisplay.HandlersGuardThemselves` | cmd/conveyor-sim-server/conveyor_device.go:344-386 | what the guards no run needs do: no brick, no sample; fewer than three samples, a rejection without a reading; a motor that is off is left alone |
| `ConveyorProgress.CompletesExactlyUnlessStuck` | cmd/conveyor-sim-server/conveyor_device.go:215-405 | from a state of the phase machine some continuation completes one more brick if and only if the brick is not stranded between the sensors and the sequence is not over |
| `ConveyorProgress.OneMoreBrick` | cmd/conveyor-sim-server/conveyor_device.go:215-405 | every other phase has a continuation that completes exactly one more |
| `ConveyorProgress.CompletesExactlyWhenSomethingMoves` | cmd/conveyor-sim-server/conveyor_device.go:215-405 | the same in fields: the entry is occupied, or a current tick of bench, travel or capture is pending |
| `ConveyorProgress.TurningOffStrandsExactlyInTransit` | cmd/conveyor-sim-server/conveyor_device.go:388-400 | where a brick could still be completed, turning the motor off ends that if and only if the motor is on and a current arrival tick is pending |
| `ConveyorProgress.FirstBrickCanBeStranded` | cmd/conveyor-sim-server/conveyor_device.go:388-405 | four inputs from boot, for any number of cycles, after which no continuation completes a brick, turning the motor on again included |
| `ConveyorProgress.EndedForever` | cmd/conveyor-sim-server/conveyor_device.go:307-316 | once the sequence is over nothing completes another brick |
| `ConveyorProofs.StrandedForever` | cmd/conveyor-sim-server/conveyor_device.go:388-405 | whatever happens next, a stranded brick completes nothing and no reading is published |
| `ConveyorFirmware.Firmware.Loop` | cmd/conveyor-sim-server/conveyor_device.go:215-253 | the run loop over any inputs does what the state machine says, what it has published is acceptable and current, its readings are those of the bricks in rotation, the beams are not both occupied, and a brick on the entry is requested, about to be, or withdrawn |
| `ConveyorFirmware.Firmware.Take` | cmd/conveyor-sim-server/conveyor_device.go:255-280 | a tick of an old generation is dropped, a current one runs its script, whose effects the `ConveyorDisplay` rows give |
| `ConveyorFirmware.Firmware.HandleFanCommand` | cmd/conveyor-sim-server/conveyor_device.go:388-405 | turning off stops jam clock and travel, turning on restarts them |
| `ConveyorFirmware.Firmware.HandleBench` | cmd/conveyor-sim-server/conveyor_device.go:282-316 | placing, lifting and releasing a brick |
| `ConveyorFirmware.Firmware.HandleTravel` | cmd/conveyor-sim-server/conveyor_device.go:318-330 | leaving the entry beam and arriving |
| `ConveyorFirmware.Firmware.HandleArrival` | cmd/conveyor-sim-server/conveyor_device.go:332-342 | arrival withdraws the request and starts the capture |
| `ConveyorFirmware.Firmware.HandleCapture` | cmd/conveyor-sim-server/conveyor_device.go:344-365 | sampling, rejection and publication |
| `ConveyorFirmware.Firmware.HandleJam` | cmd/conveyor-sim-server/conveyor_device.go:367-386 | withdrawal and backstop |
| `ConveyorFirmware.Firmware.RestartScript` | cmd/conveyor-sim-server/conveyor_device.go:194-212 | older ticks go stale and one new one is pending |
| `ConveyorFirmware.Firmware.ReportEnRoute` | cmd/conveyor-sim-server/conveyor_device.go:407-414 | published unless it repeats the last one |
| `ConveyorFirmware.Firmware.ReportRatio` | cmd/conveyor-sim-server/conveyor_device.go:416-423 | published unless it repeats the last one |
| `DnsNames.ReadName` | internal/mdns/dns.go:158-206 | the loop computes the recursive specification, in at most 144 iterations on any message, pointer cycles included, whatever the folding does |
| `DnsNames.StepsBounded` | internal/mdns/dns.go:158-206 | iterations are at most the jumps left, half the length left, and one |
| `DnsNames.AppendName` | internal/mdns/dns.go:140-156 | the encoding of section 3.1 of RFC 1035 behind what was there, or an error exactly for an unencodable name |
| `DnsNames.JoinSplit` | internal/mdns/dns.go:140-156 | joining the labels of a name gives it back |
| `DnsTexts.SplitJoin` | internal/mdns/dns.go:140-156 | and labels without dots, joined, are split into themselves: there is one way to cut a name |
| `DnsTexts.EncodedExactlyWhen` | internal/mdns/dns.go:140-156 | a name can be written if and only if it is empty, or at most 253 bytes and made of labels of 1 to 63 bytes with dots between them, and is written as those labels; any other is refused as too long |
| `DnsTexts.CanonicalNamesIgnoreCase` | internal/mdns/dns.go:208-210 | two ASCII hosts have one canonical name if and only if they differ in nothing but the case of letters and a dot at the end |
| `DnsNameProofs.ReadNameMeansPath` | internal/mdns/dns.go:158-206 | a name is read exactly when some path of labels and pointers within both budgets spells it, up to the folding |
| `DnsNameProofs.NameHasPath` | internal/mdns/dns.go:158-206 | every name read has such a path, of one hop per iteration |
| `DnsNameProofs.PathIsName` | internal/mdns/dns.go:158-206 | every such path is read |
| `DnsNameProofs.ReadNameBounds` | internal/mdns/dns.go:158-206 | the position moves forward inside the message and the labels with their dots take at most 254 bytes; so does the name if the labels are ASCII |
| `DnsNameProofs.AsciiIsExact` | internal/mdns/dns.go:158-210 | a name that is read is at most 254 bytes however text outside ASCII changes case if and only if its labels are ASCII |
| `DnsNameProofs.LongNamesAreRead` | internal/mdns/dns.go:173-177 | two labels of bytes that are no valid text, each of which lower-casing makes three bytes, are read as a name of more than 254 |
| `DnsNameProofs.SelfPointerIsRefused` | internal/mdns/dns.go:178-190 | a pointer to itself is refused |
| `DnsNameProofs.CanonicalNameReadsBack` | internal/mdns/dns.go:140-210 | the canonical name of an ASCII host, written anywhere in a message, is read back |
| `DnsMessages.QueryRoundTrip` | internal/mdns/dns.go:35-46 | the questions of an accepted query for an ASCII host are the one asked |
| `DnsMessages.ResponseRoundTrip` | internal/mdns/dns.go:48-67 | the answer to an ASCII host in an accepted response is its address exactly when the canonical names agree |
| `DnsTexts.ResponseAnswersIgnoringCase` | internal/mdns/dns.go:48-138 | so a response answers exactly the hosts that are the same text up to case and a dot at the end |
| `DnsMessages.CompressionIsTransparent` | internal/mdns/dns.go:94-138 | an answer is the same whether its name is written out or points to the question, for labels of any bytes |
| `DnsAnswers.MessageAnswers` | internal/mdns/dns.go:94-138 | a response with any questions and any resource records, compressed or not, answers a host with the data of the first record of its name, of class IN with or without the flush bit, and of type A with 4 bytes or AAAA with 16, and with nothing only if there is none |
| `DnsAnswers.MessageAnswersExactlyWhen` | internal/mdns/dns.go:94-138 | of any bytes: there is an answer if and only if they are a response within the limits that holds its questions and then records up to a first one that answers |
| `DnsAnswers.WrittenMessageAnswers` | internal/mdns/dns.go:69-138 | any questions and records, written out behind a header that counts them, are what the two parsers see |
| `DnsAnswers.AnswerFoundExactlyWhen` | internal/mdns/dns.go:114-137 | the same of the record loop at any offset |
| `DnsAnswers.FirstAnswerIsFound` | internal/mdns/dns.go:114-137 | of any list of records that stands there, the first that answers |
| `DnsAnswers.QuestionsReadExactlyWhen` | internal/mdns/dns.go:69-92 | the parsed questions are the ones the message holds, all of them in order, if it holds as many as it counts, and none otherwise |
| `DnsAnswers.RecordsStartBehindTheQuestions` | internal/mdns/dns.go:106-113 | the records start where those questions end |
| `DnsAnswers.MessagesOnTheWire` | internal/mdns/dns.go:35-67 | the bytes of a query and of a response |
| `DnsMessages.ParseQuestions` | internal/mdns/dns.go:69-92 | the question loop computes its specification, which `DnsAnswers.QuestionsReadExactlyWhen` characterises |
| `DnsMessages.AnswerIP` | internal/mdns/dns.go:94-138 | the answer its specification gives, which `DnsAnswers.MessageAnswersExactlyWhen` characterises, of 4 or 16 bytes, in at most 320 times 144 name steps |
| `DnsMessages.Search` | internal/mdns/dns.go:114-137 | the record loop computes its specification, which `DnsAnswers.AnswerFoundExactlyWhen` characterises, within its step bound |
| `DnsMessages.ReadRecord` | internal/mdns/dns.go:116-135 | one turn of it: unreadable, the answer, or passed over, as compared by the folding |
| `DnsMessages.SkipAll` | internal/mdns/dns.go:106-113 | the question loop of an answer, within its step bound |
| `ByteStreams.WriteFull` | internal/wire/plain.go:81-93 | everything is handed over in order, or a prefix if a write fails or takes nothing, which is then the last one |
| `PlainFraming.HeaderFits` | internal/wire/plain.go:64-68 | length and type always fit the ten and five bytes reserved for them |
| `PlainFraming.UvarintLength` | internal/wire/plain.go:64-68 | n bytes suffice for a number below 128 to the n |
| `PlainFraming.PutUvarint` | internal/wire/plain.go:67-68 | the varint is written in place and nothing before it is disturbed |
| `PlainFraming.ReadBackVarint` | internal/wire/plain.go:39-46 | a written varint is read back with its rest, within ten bytes |
| `PlainFraming.ReadVarintValue` | internal/wire/plain.go:39-46 | the reading loop computes its recursive specification |
| `PlainFraming.ClampMaxFrame` | internal/wire/plain.go:20-23 | a limit is kept exactly if it is in range and otherwise is the default |
| `PlainFraming.PlainFramer.WriteFrame` | internal/wire/plain.go:60-75 | a frame beyond the limit sends nothing, one within it is sent whole unless the last write failed or took nothing |
| `PlainFraming.PlainFramer.ReadFrame` | internal/wire/plain.go:31-58 | the frame or error its specification gives, leaving the bytes behind it |
| `PlainFraming.FrameRoundTrip` | internal/wire/plain.go:31-75 | a written frame is read exactly when it is within the reader's limit, and is too large otherwise |
| `PlainFraming.FramesRoundTrip` | internal/wire/plain.go:31-75 | any list of frames is read back as the same list, with what follows untouched |
| `PlainFraming.FrameIgnoresWhatFollows` | internal/wire/plain.go:31-58 | reading a frame never depends on the bytes behind it |
| `PlainFraming.TruncatedFrameIsRefused` | internal/wire/plain.go:52-56 | a frame cut anywhere is refused: as the end of the stream if nothing of it has come, as malformed otherwise |
| `PlainFraming.RefusedFor` | internal/wire/plain.go:31-58 | which error a stream is refused with |
| `PlainFraming.FramesReadAreInRange` | internal/wire/plain.go:39-52 | a frame that is read has a type of 32 bits and a payload within the limit |
| `PlainFraming.ReadVarintFits` | internal/wire/plain.go:39-46 | a varint that is read stands for at most 64 bits |
| `PlainFraming.PaddedLengthIsAccepted` | internal/wire/plain.go:39-46 | a padded length is accepted, so only writing then reading is an identity |
| `PlainFraming.FrameReadIsWrittenExactlyIfUnpadded` | internal/wire/plain.go:31-75 | a frame read from a stream is what the writer would have sent if and only if neither varint of its header ends in a group of zeros |
| `PlainFraming.ReadVarintIsWritten` | internal/wire/plain.go:39-46 | the same of one varint |
| `PlainFraming.SendFrames` | internal/wire/plain.go:60-93 | frames written one after the other, through short writes, are on the connection end to end |
| `PlainFraming.ReceiveFrames` | internal/wire/plain.go:31-58 | as many frames as asked for, with the rest of the stream left |
| `PlainFraming.Exchange` | internal/wire/plain.go:31-93 | what one framer writes another reads as the same frames, with what follows untouched; the exchange fails only if a write fails or takes nothing, or a frame is beyond the sender's limit |
| `NoiseFraming.ToyIsSound` | internal/wire/noise.go:21-27 | the assumptions on the cipher can be met |
| `NoiseFraming.CipherState.Encrypt` | internal/wire/noise.go:177-180 | one nonce per sealed frame, none when exhausted |
| `NoiseFraming.CipherState.Decrypt` | internal/wire/noise.go:237-240 | one nonce per opened frame, none for a failure |
| `NoiseFraming.SealedFrameFits` | internal/wire/noise.go:168-183 | a sealed frame fits a packet exactly when its payload is within 65535 - 20 |
| `NoiseFraming.PacketRoundTrip` | internal/wire/noise.go:257-285 | a packet is read back, except the empty one, which is refused |
| `NoiseFraming.OnlyPacketsAreReceived` | internal/wire/noise.go:268-285 | nothing but a written, non-empty packet is received |
| `NoiseFraming.PlainRoundTrip` | internal/wire/noise.go:171-174 | type and length in front of a payload are read back exactly within the limit |
| `NoiseFraming.OnlyPlainsAreDecoded` | internal/wire/noise.go:241-250 | nothing but a written plaintext is decoded |
| `NoiseFraming.AcceptsExactlySealedFrames` | internal/wire/noise.go:232-251 | a reader accepts a frame if and only if the stream starts with it sealed under the reader's own nonce |
| `NoiseFraming.OpensExactlyWhen` | internal/wire/noise.go:232-251 | a packet opens, and uses a nonce up, if and only if nonces are left and it is something sealed under the next one |
| `NoiseFraming.RefusedFor` | internal/wire/noise.go:268-285 | which error a stream is refused with |
| `NoiseFraming.RefusedExactlyWhen` | internal/wire/noise.go:164-170 | a frame is refused exactly for a type beyond 16 bits, a payload beyond the limit, or an exhausted cipher |
| `NoiseFraming.SessionRoundTrip` | internal/wire/noise.go:164-251 | the k-th accepted frame is opened under the k-th nonce, and any sends, refusals among them, are received as the accepted frames |
| `NoiseFraming.AcceptedAreThoseThatFit` | internal/wire/noise.go:164-170 | the accepted frames are those with a type and size within bounds, until nonces run out |
| `NoiseFraming.ClampMaxFrame` | internal/wire/noise.go:50-52 | a limit is kept exactly if it leaves room for tag and header and otherwise is the largest that does |
| `NoiseFraming.WriteNoisePacket` | internal/wire/noise.go:257-266 | an oversized payload sends nothing, any other its packet or a prefix of it |
| `NoiseFraming.ReadNoisePacket` | internal/wire/noise.go:268-285 | the packet or error its specification gives |
| `NoiseFraming.NoiseFramer.WriteFrame` | internal/wire/noise.go:164-186 | a refused frame uses no nonce and sends nothing; the size check after encryption never fires |
| `NoiseFraming.NoiseFramer.ReadFrame` | internal/wire/noise.go:232-251 | the frame or error its specification gives; a nonce is used up exactly when the packet opens, even if its contents are refused |
| `NoiseFraming.SendFrames` | internal/wire/noise.go:164-186 | what the accepted frames seal to, end to end, with one nonce each |
| `NoiseFraming.ReceiveFrames` | internal/wire/noise.go:232-251 | as many frames as asked for, under successive nonces |
| `NoiseFraming.Exchange` | internal/wire/noise.go:164-285 | from a fresh session, what one side sends the other receives as exactly the accepted frames, unless a write fails or takes nothing |

## Left out

- Dialling, sockets, deadlines, listeners' accept loops, real timers and goroutine scheduling: their effects are nondeterministic steps.
- The client's probes, reader, dispatcher and shutdown, the network writer's threads, the command waiters and the device lifecycle are machines on values instead of classes, because their results are about interleavings; aliasing between goroutines is not captured.
- `DeviceStore.Device`: each operation is one critical section of the state lock, so a connection that drops in the middle of a push appears as dropped right after it, with a failed send.
- `VirtualClock.Clock`: registration and removal of a device do not interleave with an advance in progress.
- `DeviceStore.Session.Send`: a failed send counts as nothing sent; how much of the frame went out is the network writer's matter.
- `ClientSessionProofs.RunPreserves`: a send that fails is taken to deliver no request to the peer, and every result on whose response a call gets rests on this; a transport that reports an error after delivering a whole frame is not modelled.
- `ListingAnswers.RunInv`: the same of listing requests.
- `LifecycleProgress.CloseCanFinish`: that Close does return depends on the sessions noticing that their connections are closed; the model says that nothing else stands in the way.
- `PlainFraming.PlainFramer.ReadFrame`: the stream holds what the peer has sent, so waiting for more is not modelled, and after an error the position is left open because the client closes.
- The Noise handshake, the cipher itself, key encodings and the text of rejections: external primitives; the cipher is any authenticated encryption that adds sixteen bytes and opens nothing it did not seal.
- Protobuf encoding, the message inventory and generated code: messages are values, and decoding is abstract.
- internal/mdns/resolver.go and internal/mdns/responder.go: socket fan-out around the codec.
- `DnsMessages.ResponseRoundTrip`: assumes ASCII hosts, as do the other round trips, because Unicode case folding is a parameter here.
- simulator/validation.go: its conclusions are preconditions (sorted timeline, distinct entities, counts above zero).
- Subscriber callbacks: only their place after the registry and the listing is modelled.
- Log subscriptions, device information, statistics counters, fault injection, error texts: independent one-branch code.
- The registry's copying accessors: entity pointers never leave the lock, so the maps hold values.
- commands.go, options.go, colour.go, fixtures and command-line tools: thin wrappers and tables.
- Nil arguments, such as a nil context.
