# The JUCE Linux message loop, in Dafny

This project models the core of JUCE's Linux message loop,
`juce_linux_Messaging.cpp`, and proves properties of that model. The core has
two parts.

- **`InternalRunLoop`.** It keeps a table of file-descriptor read callbacks as
  two parallel vectors: `fdReadCallbacks` (descriptor and callback) and `pfds`
  (the `pollfd` array). Registrations and removals do not touch the vectors.
  They go into the buffers `pendingAdditions` and `pendingRemovals`.
  `applyPendingChanges` applies the buffers: every addition first, then every
  removal, then it clears both. `dispatchPendingEvents` applies the pending
  changes and polls. It then serves every reported entry in order.
  - Serving an entry resets its `revents` and runs each callback registered
    for that descriptor.
  - If a run leaves changes pending, the pass applies them and returns true at
    once.
- **`InternalMessageQueue`.** It is a FIFO of posted messages that keeps a
  socket pair as its wake-up channel. `bytesInSocket` counts the unread
  wake-up bytes. It is capped at `maxBytesInSocketQueue = 128`. The callback
  registered for the read handle pops messages until the queue is empty, and
  runs each one.

The model also covers the free functions that reach the two singletons:
`postMessageToSystemQueue`, `LinuxEventLoop::registerFdCallback`,
`LinuxEventLoop::unregisterFdCallback`, and the driver
`dispatchNextMessageOnSystemQueue`.

Each class is a Dafny `class`, and its vectors are `seq` fields.
- `State()` collects the fields into a value.
- Every method states its new state as a function of the old one, for example
  `State() == Applied(old(State()))`.
- Lemmas about those functions state what the source promises.

`poll` is an input: the set of descriptors it reports ready. It sets
`revents` to `POLLIN` (1) on a ready entry and to 0 on any other.

A callback is an opaque id. What one run of it does is an input too: the
`Effect`, which maps a callback and its descriptor to the register and
unregister requests the run submits. A message is an opaque id. Running a
message is modelled by returning its id.

`fd_sequences.dfy` holds the order-preserving filter that
`std::remove_if` + `erase` performs. `wrappers.dfy` holds the `Option` type
that stands for a possibly-null message pointer.

### Removal wins within a batch

`applyPendingChanges` appends every pending addition before it applies any
pending removal (lines 161-174). So a pending removal deletes every entry for
its descriptor, including an addition submitted after the removal in the same
batch. The order of requests within a batch does not decide the result.
`RunLoop.RemovalWinsInBatch` and `RunLoop.ApplyMembers` state this.

### Which callbacks run

Each `InternalRunLoop` keeps a ghost record `runs` of every callback run, in
order. `InvokeCallback` appends to it, and nothing else changes it.
`DispatchPendingEvents` appends exactly `DispatchRuns` of the state it started
from. That is the list of runs of a full pass, cut right after the first run
that left changes pending.

## Model

| member | source | states |
|---|---|---|
| FdSequences.WithoutMembers | third_party/JUCE/modules/juce_events/native/juce_linux_Messaging.cpp:135-150 | after removing `fd`, an entry is present exactly when it was present before and its descriptor is not `fd` |
| FdSequences.WithoutConcat | third_party/JUCE/modules/juce_events/native/juce_linux_Messaging.cpp:140-148 | the removal distributes over concatenation, so the kept entries stay in their original relative order |
| FdSequences.WithoutAbsent | third_party/JUCE/modules/juce_events/native/juce_linux_Messaging.cpp:135-150 | removing a descriptor that no entry has changes nothing |
| FdSequences.WithoutCount | third_party/JUCE/modules/juce_events/native/juce_linux_Messaging.cpp:140-148 | the removal shortens the vector by exactly the number of entries with that descriptor |
| FdSequences.WithoutAgreement | third_party/JUCE/modules/juce_events/native/juce_linux_Messaging.cpp:135-150 | two vectors that are parallel by descriptor stay parallel when the same descriptor is removed from both |
| FdSequences.WithoutAllMembers | third_party/JUCE/modules/juce_events/native/juce_linux_Messaging.cpp:171-174 | after a list of removals, an entry is kept exactly when it was there and its descriptor is in none of them |
| FdSequences.WithoutAllConcat | third_party/JUCE/modules/juce_events/native/juce_linux_Messaging.cpp:171-174 | a list of removals distributes over concatenation |
| FdSequences.WithoutAllAgreement | third_party/JUCE/modules/juce_events/native/juce_linux_Messaging.cpp:171-174 | parallel vectors stay parallel through a list of removals |
| RunLoop.SubmitOnlyAppends | third_party/JUCE/modules/juce_events/native/juce_linux_Messaging.cpp:120-131 | submitting requests leaves both live vectors unchanged, keeps the old pending entries as a prefix, and adds exactly one pending entry per request |
| RunLoop.SubmitConsistent | third_party/JUCE/modules/juce_events/native/juce_linux_Messaging.cpp:120-131 | submitting requests keeps the invariant: parallel live vectors, and each pending addition's poll entry has its descriptor |
| RunLoop.SubmittedRemovalPending | third_party/JUCE/modules/juce_events/native/juce_linux_Messaging.cpp:127-131 | every submitted unregistration is among the pending removals |
| RunLoop.Applied | third_party/JUCE/modules/juce_events/native/juce_linux_Messaging.cpp:153-179 | applying leaves both buffers empty, and changes nothing when both were already empty |
| RunLoop.ApplyConsistent | third_party/JUCE/modules/juce_events/native/juce_linux_Messaging.cpp:161-174 | additions grow the two live vectors in lockstep, so applying keeps them parallel |
| RunLoop.ApplyOrder | third_party/JUCE/modules/juce_events/native/juce_linux_Messaging.cpp:161-174 | both live vectors after applying are the surviving old entries in their old order, followed by the surviving additions in submission order |
| RunLoop.ApplyMembers | third_party/JUCE/modules/juce_events/native/juce_linux_Messaging.cpp:161-174 | an entry is live after applying exactly when it was live or pending as an addition and its descriptor is not pending removal |
| RunLoop.RemovalWinsInBatch | third_party/JUCE/modules/juce_events/native/juce_linux_Messaging.cpp:161-174 | once a batch holding an unregistration of `fd` is applied, no entry for `fd` is left, whatever the order of the batch |
| RunLoop.Polled | third_party/JUCE/modules/juce_events/native/juce_linux_Messaging.cpp:188 | poll keeps every descriptor and event mask, and sets `revents` nonzero exactly on the ready entries |
| RunLoop.ReadyCount | third_party/JUCE/modules/juce_events/native/juce_linux_Messaging.cpp:188 | poll's result is at most the number of entries, and is 0 exactly when no entry has `revents` set |
| RunLoop.FirstReacting | third_party/JUCE/modules/juce_events/native/juce_linux_Messaging.cpp:203-212 | the index found is the first callback run that leaves requests pending: every run before it submits nothing |
| RunLoop.FirstReactingAt | third_party/JUCE/modules/juce_events/native/juce_linux_Messaging.cpp:203-212 | a run that submits requests after only quiet runs is the first reacting one |
| RunLoop.EarlyExit | third_party/JUCE/modules/juce_events/native/juce_linux_Messaging.cpp:200-212 | if every run before callback `j` of entry `i` was quiet and that run is not, the pass stops exactly at that run |
| RunLoop.DispatchStopsAt | third_party/JUCE/modules/juce_events/native/juce_linux_Messaging.cpp:203-212 | a pass cut short at that run returns true, has reset `revents` through entry `i` only, and has applied what the run submitted |
| RunLoop.DispatchRunsAll | third_party/JUCE/modules/juce_events/native/juce_linux_Messaging.cpp:192-220 | a pass in which no run submits anything resets every entry and returns whether any callback ran |
| RunLoop.QuietPollNoInvocations | third_party/JUCE/modules/juce_events/native/juce_linux_Messaging.cpp:195-196 | no callback runs for entries that poll did not report |
| RunLoop.MatchingFromTable | third_party/JUCE/modules/juce_events/native/juce_linux_Messaging.cpp:200-203 | a run made while serving an entry is of a registered callback with that entry's descriptor |
| RunLoop.InvocationsFromTable | third_party/JUCE/modules/juce_events/native/juce_linux_Messaging.cpp:192-205 | every run of a pass is of a registered callback, for an entry that poll reported and that has the same descriptor |
| RunLoop.ReportedEntryRuns | third_party/JUCE/modules/juce_events/native/juce_linux_Messaging.cpp:192-205 | with parallel vectors, a reported entry has at least one callback to run |
| RunLoop.PassRunsRegisteredCallbacks | third_party/JUCE/modules/juce_events/native/juce_linux_Messaging.cpp:186-205 | a pass runs only callbacks in the table as applied at its start, and only for ready descriptors |
| RunLoop.DispatchIdle | third_party/JUCE/modules/juce_events/native/juce_linux_Messaging.cpp:186-189 | with no live descriptor ready, the pass returns false, keeps the table as applied, and leaves nothing pending |
| RunLoop.DispatchSentIffReady | third_party/JUCE/modules/juce_events/native/juce_linux_Messaging.cpp:186-220 | under the invariant, a pass returns true exactly when poll reported some live descriptor |
| RunLoop.DispatchConsistent | third_party/JUCE/modules/juce_events/native/juce_linux_Messaging.cpp:182-221 | a pass leaves both pending buffers empty and the two live vectors parallel |
| RunLoop.DispatchCompletedPass | third_party/JUCE/modules/juce_events/native/juce_linux_Messaging.cpp:192-220 | a pass that no run cuts short returns true exactly when some callback ran, keeps the table, and leaves every `revents` at 0 |
| RunLoop.DispatchSentIffRan | third_party/JUCE/modules/juce_events/native/juce_linux_Messaging.cpp:182-221 | a pass returns true exactly when it ran some callback |
| RunLoop.DispatchRunsFromPass | third_party/JUCE/modules/juce_events/native/juce_linux_Messaging.cpp:186-205 | the runs of a pass are a prefix of the full pass's runs, each of a callback in the applied table, for a ready descriptor |
| RunLoop.DispatchRunsQuietBeforeLast | third_party/JUCE/modules/juce_events/native/juce_linux_Messaging.cpp:203-212 | every run of a pass but the last submits nothing |
| RunLoop.DispatchRunsLastApplied | third_party/JUCE/modules/juce_events/native/juce_linux_Messaging.cpp:203-212 | a last run that submits something has its requests applied in the pass's final state, after `revents` was reset through its entry |
| RunLoop.PassStep | third_party/JUCE/modules/juce_events/native/juce_linux_Messaging.cpp:192-217 | an entry whose runs left nothing pending extends the pass's runs by exactly its own runs, keeps them quiet, and makes the result true if it ran a callback |
| RunLoop.SelfRemovalIsFinal | third_party/JUCE/modules/juce_events/native/juce_linux_Messaging.cpp:203-212 | a callback that unregisters its own descriptor ends the pass with true, and the next pass runs nothing for that descriptor |
| RunLoop.RemoveIf | third_party/JUCE/modules/juce_events/native/juce_linux_Messaging.cpp:138-148 | the `remove_if` + `erase` loop keeps exactly the filter's result |
| RunLoop.InternalRunLoop.constructor | third_party/JUCE/modules/juce_events/native/juce_linux_Messaging.cpp:115-118 | a new run loop has nothing registered or pending, and satisfies the invariant |
| RunLoop.InternalRunLoop.RegisterFdCallback | third_party/JUCE/modules/juce_events/native/juce_linux_Messaging.cpp:120-125 | appends one pending addition; the live vectors and the pending removals are unchanged |
| RunLoop.InternalRunLoop.UnregisterFdCallback | third_party/JUCE/modules/juce_events/native/juce_linux_Messaging.cpp:127-131 | appends one pending removal; the live vectors and the pending additions are unchanged |
| RunLoop.InternalRunLoop.RemoveFdCallback | third_party/JUCE/modules/juce_events/native/juce_linux_Messaging.cpp:135-150 | both live vectors become their filters without `fd`; the buffers are unchanged |
| RunLoop.InternalRunLoop.ApplyPendingChanges | third_party/JUCE/modules/juce_events/native/juce_linux_Messaging.cpp:153-179 | returns true exactly when something was pending, and leaves the applied state |
| RunLoop.InternalRunLoop.Poll | third_party/JUCE/modules/juce_events/native/juce_linux_Messaging.cpp:188 | overwrites every `revents` from the ready set, and returns the number of ready entries |
| RunLoop.InternalRunLoop.InvokeCallback | third_party/JUCE/modules/juce_events/native/juce_linux_Messaging.cpp:202-207 | a callback run only submits its requests to the pending buffers, and is recorded as one run for its entry |
| RunLoop.InternalRunLoop.ServeEntry | third_party/JUCE/modules/juce_events/native/juce_linux_Messaging.cpp:192-217 | serving one entry either runs all of its callbacks quietly and resets it, or stops after the first run that left changes pending, with those changes applied; either way it records exactly the runs it made, in table order |
| RunLoop.InternalRunLoop.ServeReadyEntries | third_party/JUCE/modules/juce_events/native/juce_linux_Messaging.cpp:190-220 | the loop over the entries produces the dispatch function's result and state, and records exactly the pass's runs |
| RunLoop.InternalRunLoop.DispatchPendingEvents | third_party/JUCE/modules/juce_events/native/juce_linux_Messaging.cpp:182-221 | the pass produces exactly the dispatch function's result and state, and runs exactly the callbacks `DispatchRuns` lists, in that order |
| MessageQueue.Post | third_party/JUCE/modules/juce_events/native/juce_linux_Messaging.cpp:61-75 | appends the message at the tail, raises the counter by at most one, keeps the invariant, and leaves a wake-up byte unread |
| MessageQueue.Pop | third_party/JUCE/modules/juce_events/native/juce_linux_Messaging.cpp:91-106 | returns and removes the head, or nothing on an empty queue; lowers a positive counter by one; keeps the invariant |
| MessageQueue.DrainRunsAllInOrder | third_party/JUCE/modules/juce_events/native/juce_linux_Messaging.cpp:39-46 | from a valid state, the drain runs every queued message once, in queue order, and leaves an empty queue with counter 0 |
| MessageQueue.PostAllAppends | third_party/JUCE/modules/juce_events/native/juce_linux_Messaging.cpp:61-75 | successive posts append in posting order, and the counter rises by one per post until it saturates at 128 |
| MessageQueue.PostAllValid | third_party/JUCE/modules/juce_events/native/juce_linux_Messaging.cpp:61-75 | any number of posts keeps `0 <= bytesInSocket <= 128` and `bytesInSocket <= |queue|` |
| MessageQueue.PostThenDrain | third_party/JUCE/modules/juce_events/native/juce_linux_Messaging.cpp:36-47 | messages posted to a fresh queue are all run by the next drain, in posting order, and nothing is left |
| MessageQueue.PostsSaturate | third_party/JUCE/modules/juce_events/native/juce_linux_Messaging.cpp:66-69 | after `n` posts to a fresh queue, `min(n, 128)` wake-up bytes are unread |
| MessageQueue.InternalMessageQueue.constructor | third_party/JUCE/modules/juce_events/native/juce_linux_Messaging.cpp:82-85 | a new queue is empty with counter 0, and valid |
| MessageQueue.InternalMessageQueue.PostMessage | third_party/JUCE/modules/juce_events/native/juce_linux_Messaging.cpp:61-75 | the new state is the post of the message to the old one |
| MessageQueue.InternalMessageQueue.PopNextMessage | third_party/JUCE/modules/juce_events/native/juce_linux_Messaging.cpp:91-106 | returns the pop's message and leaves its state |
| MessageQueue.InternalMessageQueue.DrainMessages | third_party/JUCE/modules/juce_events/native/juce_linux_Messaging.cpp:39-46 | the pop-until-null loop runs exactly the drain's messages and leaves its state; from a valid state that is the old queue, then an empty queue with counter 0 |
| Messaging.PostMessageToSystemQueue | third_party/JUCE/modules/juce_events/native/juce_linux_Messaging.cpp:289-298 | returns true exactly when a queue exists, in which case the message is posted to it |
| Messaging.RegisterFdCallback | third_party/JUCE/modules/juce_events/native/juce_linux_Messaging.cpp:329-333 | forwards the registration to the run loop when one exists |
| Messaging.UnregisterFdCallback | third_party/JUCE/modules/juce_events/native/juce_linux_Messaging.cpp:335-339 | forwards the removal to the run loop when one exists |
| Messaging.CreateMessageQueue | third_party/JUCE/modules/juce_events/native/juce_linux_Messaging.cpp:30-48 | a new empty queue, with its drain callback registered for the read handle |
| Messaging.DestroyMessageQueue | third_party/JUCE/modules/juce_events/native/juce_linux_Messaging.cpp:50-52 | the read handle's callback is unregistered |
| Messaging.DriveReturnsIfIdle | third_party/JUCE/modules/juce_events/native/juce_linux_Messaging.cpp:313-319 | asked to return when idle, the driver makes exactly one dispatch, returns its result, and makes that dispatch's callback runs |
| Messaging.DriveState | third_party/JUCE/modules/juce_events/native/juce_linux_Messaging.cpp:306-326 | the driver takes at most one turn per poll result and leaves the state its dispatches produced |
| Messaging.DriveIdleBefore | third_party/JUCE/modules/juce_events/native/juce_linux_Messaging.cpp:306-326 | the driver goes round only while its dispatches send nothing: every turn before the last was idle |
| Messaging.DriveWaits | third_party/JUCE/modules/juce_events/native/juce_linux_Messaging.cpp:306-326 | the driver is still waiting only after using every given turn, with returning when idle not asked for and the last turn idle |
| Messaging.DriveReturns | third_party/JUCE/modules/juce_events/native/juce_linux_Messaging.cpp:306-326 | the driver returns after at least one turn; it returns the last dispatch's result, and false only when asked to return when idle |
| Messaging.DriveRuns | third_party/JUCE/modules/juce_events/native/juce_linux_Messaging.cpp:306-326 | the driver's callback runs are those of all its turns' dispatches in order; they are the last turn's runs, and there are some exactly when it returns true |
| Messaging.DriveConsistent | third_party/JUCE/modules/juce_events/native/juce_linux_Messaging.cpp:306-326 | every turn keeps the run loop's invariant and leaves nothing pending |
| Messaging.DispatchNextMessageOnSystemQueue | third_party/JUCE/modules/juce_events/native/juce_linux_Messaging.cpp:306-326 | the loop produces the driver function's result, state and callback runs, asks to quit when SIGINT was seen, and without a run loop never returns |

## Left out

- The `socketpair`, `read`, `write` and `close` calls are I/O. A written wake-up byte is `bytesInSocket` going up, and a read byte is it going down. The descriptor that `popNextMessage` reads from is therefore not a parameter.
- The locks (`CriticalSection`, `ScopedLock`, `ScopedUnlock`) are concurrency. Every operation is one atomic step.
- The SIGINT handler, `installKeyboardBreakHandler` and `JUCEApplicationBase::quit` are signals and calls into other modules. The flag is an input, and the quit request is an output.
- Singleton creation and deletion, `doPlatformSpecificInitialisation` and `doPlatformSpecificShutdown` are left out, because the singleton macros are not part of this model. A singleton that may not exist is a nullable reference.
- `sleepUntilNextEvent` is a timed wait. Its poll only writes `revents`, which the next dispatch's poll overwrites before reading them, so it has no modelled effect.
- `JUCE_TRY` / `JUCE_CATCH_EXCEPTION` are exception handling. Running a message is an opaque step that always completes.
- `broadcastMessage` is an empty stub, and `getFdReadCallbacks` is a copy accessor.
- RunLoop.Polled: readiness is per descriptor, not per entry. The ready set holds descriptors, so entries that share a descriptor are reported together. The `events` mask is not consulted either: a ready entry gets `POLLIN` whatever mask it was registered with.
- Poll errors (a result of -1) are not modelled. Poll always reports the given ready set.
- `poll` on an empty `pfds` passes `&pfds.front()` of an empty vector, which is undefined behaviour. The model lets such a poll report 0, so the dispatch returns false.
- Messaging.DispatchNextMessageOnSystemQueue: the `for (;;)` loop is unbounded. The model runs one turn per element of the given poll results, and reports "still waiting" when they run out.
- Callbacks are stateless: a run's requests depend only on the callback and its descriptor. Messages run by the drain do not post further messages.
- The `short` event mask of `registerFdCallback` is an unbounded integer. The mask passed by the message queue's constructor comes from a default argument in a header that is not part of this model, so it is a parameter.
- `ReferenceCountedArray` and `std::function` ownership are not modelled. Queue entries and callbacks are plain ids.
