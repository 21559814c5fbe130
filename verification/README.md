# Verification of the extension SDK

This project models the parts of the kova extension SDK where order, time and concurrency matter, and
proves what they keep. It has four parts.

**The JSON-RPC session.** A host (`FakeKova`) writes requests to an extension and reads a single byte
stream that carries both responses and notifications. The extension's request loop answers one
request at a time, while any number of goroutines emit notifications through the same mutex. The
model comes in two layers that are tied together:

- Imperative classes in the source's own form: `Transport`, `Dispatcher`, `Composite`,
  `RegistrationSet` and `FakeKova`. Their fields are updated in place, and each method is proved
  against a function of the old state (`NextRequest`, `SessionOver`, `InitAfter`, `ShutdownAfter`,
  `Await`). What the source promises is then proved about those functions, for every input.
- Step systems for concurrency. `WriteLock` has any number of writers, each of which marshals, takes
  the lock, writes the body, writes the newline and releases, with writes that may fail half way.
  `Concurrent` adds the host and the loop, so that its states are those of the whole system in every
  interleaving. `EndToEnd` states the results: a call returns what the extension answered to that
  very request, and with it all that the request's handlers emitted; notifications are neither lost,
  repeated nor reordered; nobody deadlocks, even over pipes in which every write blocks until it is
  read; and once the loop has stopped, whatever the interleaving was, it has written what the
  sequential `Run` writes on the same input. `Completion` has the exact condition under which a call
  that waits can still be answered: then some steps complete it, and otherwise none ever do.

**The composite lifecycle.** Initialization, dispatch and shutdown over eight optional handlers, and
the place of these in whole sessions.

**The circuit breaker.** The class has the source's fields and its two critical sections. A run is any
interleaving of admissions, recordings, `State()` calls and resets on a monotone clock.

**Retry.** Both loops, proved against one declarative description of a run that fixes the result
uniquely; the arithmetic of the delay sequence; and the classification of error trees.

## How to read it

| file | contents |
|---|---|
| `Wrappers.dfy` | Option and Result |
| `Breaker.dfy`, `BreakerRuns.dfy`, `BreakerLimits.dfy` | the breaker, its runs, limits on calls |
| `Backoff.dfy`, `Retry.dfy`, `ErrorTree.dfy` | delays, the two loops, `IsTransient` |
| `Envelope.dfy`, `Framing.dfy`, `Ndjson.dfy` | envelopes and the codec's contract, line framing, the transport |
| `Handlers.dfy`, `Composite.dfy` | the eight handlers as oracles, the composite extension |
| `Dispatcher.dfy`, `SessionLaws.dfy`, `MethodAnswers.dfy` | the request loop, what holds of every session, what a host gets for each kind of request |
| `Harness.dfy` | the host |
| `WriteLock.dfy`, `Concurrent.dfy`, `ConcurrentLaws.dfy`, `Histories.dfy`, `EndToEnd.dfy`, `Completion.dfy` | concurrency: the lock, the whole system, its invariants, the results, which calls are answered |
| `CodecExists.dfy` | a codec that meets the contract, so that no result holds for want of one |

`dafny verify dfyconfig.toml` checks everything.

## Where the code and its documentation differ

- `retry/breaker.go:24` says that one probe request is allowed after the cooldown. The code counts no
  probes: callers that overlap all get through. `BreakerLimits.TwoProbesOverlap` is an instance.
  `OneProbeIff` is the exact condition: no call admitted since the breaker last opened is still at
  work. `SequentialProbesOnce` is the promise for callers that do not overlap.
- The repository's `README.md:102-104` says that one extension cannot have several types.
  `extension/run.go` supports any combination: `SessionLaws.InitializeAnswer` is about all of them.
- On an unreadable line the code answers with ID 0, where section 5 of the JSON-RPC 2.0
  Specification asks for null. `SessionLaws.OverlongLineGetsZero` is an instance, and
  `OneAnswerEach` says that there is one extra last answer with ID 0 exactly then. A request without
  an ID is decoded as one with ID 0 and answered with ID 0 too, like any other request.
- `retry/retry.go:17` calls `Max` the maximum delay, but the first delay is `Initial`, uncapped.
  `Retry.FirstSleepExceedsMax` is an instance. The delays are within `Max` if and only if `Initial`
  is, and so are the timers of every run, if there is more than one attempt (`Backoff.DelaysCappedIff`,
  `Retry.TimersCappedIff`); with jitter the condition is `Initial <= Max + 1`
  (`Retry.JitteredTimersCappedIff`).
- `protocol/types.go:5-7` says that all requests expect a response, and `harness/harness.go:143-157`
  waits for one. Some calls are never answered, and wait forever. `Completion.AnsweredIff` is the
  exact condition, which can be checked in any state: a waiting call can still return if and only if
  - its request was not read after cancellation and, if it is still unread, the context is not
    cancelled and the loop has not stopped and is not finishing a shutdown;
  - it is not an initialize whose result does not marshal;
  - what the loop has to send up to the answer fits the host's line limit. In the source the host
    fails on a longer line; here such a line is never sent.

  `EndToEnd.CancelledCallIsLost`, `EndToEnd.UnmarshallableInitializeIsLost` and
  `Completion.CallAfterShutdownIsOrphaned` are instances. `EndToEnd.ResponsesMatchCalls` says of which
  calls something is still under way, which the orphaned call after a shutdown is, in an input that
  nobody reads. `Completion.UnansweredEnds` says how a call that waits where nobody can move got there.
  Every response that is written has exactly one of result and error, as `protocol/types.go:16`
  promises.

## What is assumed

- JSON is a parameter, `Envelope.Codec`: decoding undoes encoding, an encoded message is one
  non-empty line that does not end in a carriage return, and the `method` key tells notifications
  from responses. Payloads may fail to marshal; envelopes do not.
- Handler outcomes, what handlers emit, cancellation, jitter and call outcomes are oracles, indexed
  by request or attempt, so a stateful handler is covered. Every theorem is about all oracles.
- `bufio.Scanner` is its line function with a limit on the line length; a longer line is a read error.
- Durations are integers, and multipliers and jitter draws exact reals. Counters are unbounded.
- The eight guarded blocks of initialization and of shutdown are a loop over the slots in their fixed
  order, and the eight dispatch functions one dispatcher driven by a table.
- Writes may fail in `Transport` and in `WriteLock`. Sessions and the whole system are about writes
  that succeed, and in the whole system messages fit the reader's line limit.
- The pipes of the whole system are unbounded, which allows all that blocking pipes do and more. So
  what holds of every state holds with blocking pipes too; progress and completion are stated of the
  actions that blocking pipes allow.

## Model

| member | source | states |
|---|---|---|
| EndToEnd.ResponsesMatchCalls | harness/harness.go:137-158 | in every interleaving the ID-mismatch branch is never taken; between calls nothing of an earlier call is queued, in hand or unread; during a call its own ID is under way, read by somebody or not, exactly once and no other is, unless, exactly, this very request was read after cancellation or is an initialize whose result does not marshal |
| Completion.AnsweredIff | harness/harness.go:143-157 | the exact condition, for every reachable state, under which some continuation answers the call that waits |
| Completion.CallCompletes | harness/harness.go:44-63 | under that condition steps of the host, the loop and the lock holder alone, none of which waits for a pipe, complete the call: the host has its own answer and all that came with it |
| Completion.NeverAnswered | extension/extension.go:119-128 | without it no continuation whatever answers the call |
| Completion.UnansweredEnds | harness/harness.go:143-157 | where nobody can move, a call that waits is lost as above, or unread by a stopped loop, or behind a message too long for the host |
| Completion.EndsAreFinal | extension/extension.go:119-128 | a call in one of these three ways is never answered, whoever can still move |
| Completion.CallAfterShutdownIsOrphaned | extension/extension.go:126-128 | a reachable state for any request and extension: the call after a shutdown waits, under way and not lost, and is never answered |
| EndToEnd.CancelledCallIsLost | extension/extension.go:119-121 | a reachable state for any request and extension: the call waits and nothing is under way |
| EndToEnd.UnmarshallableInitializeIsLost | extension/extension.go:152-153 | the same for an initialize whose result does not marshal |
| EndToEnd.CallGetsItsAnswer | harness/harness.go:144-157 | the first response the host reads carries the call's ID and is what the extension answered to that very request; before it the host only reads notifications |
| EndToEnd.CallReturns | harness/harness.go:95-115 | the same for a whole wait: it stores exactly the notifications in front of the response, and what stays unread has no other response |
| EndToEnd.OwnAnswerIsHandlers | extension/extension.go:129-133 | for a method request the answer that a call returns is what its handler's outcome calls for |
| EndToEnd.UnreadDecodes | harness/harness.go:191-230 | the unread bytes are whole records that decode to the messages not yet seen, then at most part of one line |
| EndToEnd.NotificationsConserved | harness/harness.go:129-135 | per method, drained, then stored, then decoded from the unread output is what was sent in lock order; each emitter's messages take the lock in the order it sent them |
| EndToEnd.LoopWritesTheSession | extension/extension.go:107-135 | in every interleaving what the loop has written, handlers' notifications and responses, with what it has left to send, is what the sequential session writes for the handled requests: one answer each and in order; every request sent is handled, in hand, dropped by cancellation or still to be read; none is handled after a shutdown |
| EndToEnd.BetweenCalls | protocol/constants.go:45-47 | when a call has returned the host has read everything the loop wrote for all calls so far, and all notifications among it, those that handlers emitted before the result included, are stored or drained |
| EndToEnd.StoppedLoopRanTheSession | extension/extension.go:106-135 | refinement: when the loop has stopped it has handled what the sequential Run handles on the same input and cancellation, and its messages, notifications and responses, are those that Run writes |
| EndToEnd.CallsMakeProgress | harness/harness.go:44-63 | no deadlock during a call, though every write blocks until it is read: while an answer is under way, and unless the loop has stopped with the request unread, the host, the loop or a writer can move, unless the loop's next message is too long for the host |
| EndToEnd.CallsCanStart | harness/harness.go:160-187 | no deadlock between calls: the host can make any call at once, or the loop can finish returning first; an emitter blocked in a write, lock in hand, is not in the way |
| Histories.ReachableHistory | harness/harness.go:140-141 | calls are numbered from 1 without gaps and the host awaits the last one; a shutdown is the last request handled; why the loop stopped; an answer is lost exactly for the two reasons |
| ConcurrentLaws.ReachableGood | jsonrpc/transport.go:105-120 | every reachable state of host, loop and emitters satisfies the invariant behind the results above |
| ConcurrentLaws.HostReadKeepsGood | harness/harness.go:191-236 | a message read by the host is the next completed one, and a response among them is the one awaited |
| ConcurrentLaws.ServeKeepsGood | extension/extension.go:123-133 | handling a request turns the ID in the loop's hand into one answer to be sent, or loses it |
| ConcurrentLaws.SendKeepsGood | jsonrpc/transport.go:92-103 | the loop hands its messages to the lock one by one and in order |
| WriteLock.ReachableInv | jsonrpc/transport.go:105-120 | any number of writers: mutual exclusion, output made of whole records in lock order and at most one partial record of the lock holder, and, after a failing write, the same up to that write |
| WriteLock.InvKept | jsonrpc/transport.go:111-119 | each of the seven steps, the two failing ones included, keeps that invariant |
| WriteLock.ReachableOutputDecodes | jsonrpc/transport.go:105-120 | until a write fails, a reader of the output at any moment decodes exactly the completed messages in lock order |
| WriteLock.ReachableOutputReads | jsonrpc/transport.go:111-119 | with failing writes too, a reader first reads off exactly the messages completed before the first failure |
| WriteLock.AloneIsWriteLine | jsonrpc/transport.go:106-120 | the steps of a writer that is alone append what the sequential transport appends |
| Harness.FakeKova.constructor | harness/harness.go:44-63 | a new host has made no call and holds no notification |
| Harness.FakeKova.SendRequest | harness/harness.go:160-187 | appends one request line, or fails and writes nothing when the params do not marshal |
| Harness.FakeKova.ReadMessage | harness/harness.go:191-230 | returns the next message that is not on a blank line, or the first of the five ways in which there is none |
| Harness.FakeKova.StoreNotification | harness/harness.go:232-236 | appends to the list of the notification's method |
| Harness.FakeKova.ReceivedNotifications | harness/harness.go:129-135 | returns and removes the list of one method and leaves the others |
| Harness.FakeKova.CallInternal | harness/harness.go:137-158 | takes the next number, writes the request and waits as `Await` says; an error response, a mismatch and a bad line are failures |
| Harness.FakeKova.CallExpectError | harness/harness.go:95-115 | the same wait, where a success response is the failure |
| Harness.FirstResponseDecides | harness/harness.go:143-157 | over any notifications before and any bytes after, the first response decides the call by its ID, and exactly the notifications before it are stored |
| Harness.ErrorOnTheWire | harness/harness.go:150-156 | over any notifications, an error response with the call's ID fails one kind of call with that error, and is what the other kind returns |
| Harness.SuccessOnTheWire | harness/harness.go:107-113 | a success response is returned with its result by one kind of call, and fails the other |
| Harness.GarbledLineFails | harness/harness.go:208-228 | behind any notifications, a line that is no JSON object, no notification or no response fails the wait as such |
| Harness.EndOfOutputFails | harness/harness.go:195-201 | so do the end of the output and a line over the limit, each in its own way |
| Dispatcher.Dispatcher.Run | extension/extension.go:107-135 | terminates on every input, with the calls, the output and the returned error of the session over that input |
| Dispatcher.Dispatcher.Turn | extension/extension.go:108-133 | one turn either ends the session as specified or handles one more request and shortens the input |
| Dispatcher.Dispatcher.HandleRequest | extension/extension.go:123-133 | one request: handler calls, notifications and answer, with the fallback error when a result does not marshal |
| Dispatcher.Dispatcher.HandleInitializeRequest | extension/extension.go:137-154 | bad params, a failing handler, a success, or no answer when the result does not marshal |
| Dispatcher.Dispatcher.HandleShutdownRequest | extension/extension.go:156-166 | a success, or one error made of all the handlers' errors |
| Dispatcher.Dispatcher.DispatchMethod | extension/run.go:191-246 | routing, params policy and error code; its own error is a marshalling failure, after which nothing was answered yet |
| Dispatcher.OneAnswer | extension/extension.go:123-133 | a handled request gets a response with its own ID and exactly one of result and error, except precisely an initialize whose result does not marshal |
| SessionLaws.HandledPrefix | extension/extension.go:107-135 | the handled requests are exactly those before the first of end of input, unreadable line, cancellation and shutdown |
| SessionLaws.ShutdownIsLast | extension/extension.go:126-128 | a shutdown is the last request handled, and then no error is returned |
| SessionLaws.NothingAfterShutdown | extension/extension.go:126-128 | whatever bytes follow a shutdown request change nothing in the session |
| SessionLaws.OneAnswerEach | extension/extension.go:107-166 | the response IDs written are those of the handled requests in order, plus a last 0 exactly after an unreadable line; every response is well formed |
| SessionLaws.OneAnswerOnTheWire | protocol/types.go:15-22 | the same of the responses that a host decodes from the bytes |
| SessionLaws.SessionOfLines | extension/extension.go:107-135 | a session said of the lines of its input: each line handled decodes to its request, and the session ends after a shutdown, at a line read after cancellation, at the end, at a line that does not decode or at one too long; only in the last two cases does it return an error, which it also answers last, with ID 0 and code -32700 |
| SessionLaws.GarbageEndsSession | jsonrpc/transport.go:56-59 | a line that does not decode, behind any handled requests and in front of anything, ends the session with its error |
| MethodAnswers.MethodAnswer | extension/channel.go:66-135 | the answer to a method request from what its handler returns: the result itself, the empty object for the four methods that return nothing, the handler's error with its method's code, or the fallback when the result does not marshal; and for an unserved method or bad params the error that says so; texts and codes spelled out |
| MethodAnswers.RouteIsTable | extension/run.go:191-246 | every method's handler, params policy, error code and kind of result, and no other names |
| MethodAnswers.MethodsOfSession | extension/extension.go:123-133 | over whole sessions as a host decodes them: each handled method request puts its handler's notifications on the wire, then that answer, behind the output of the requests before it |
| MethodAnswers.RequestWrites | extension/extension.go:107-135 | the output of a session, and its log of handler calls, are those of its requests one after the other |
| MethodAnswers.NotificationsAre | extension/extension.go:24-56 | of what a handler emits exactly the notifications whose params marshal go out, in order and unchanged |
| MethodAnswers.AllEmissionsGoOut | extension/extension.go:40-50 | if all params marshal, all of them do |
| MethodAnswers.EmittedIs | extension/extension.go:24-56 | the same over all handlers that a request reaches |
| MethodAnswers.ShutdownAnswerIs | extension/run.go:293-304 | the empty object, the one labelled error, or all of them in one text, in order |
| MethodAnswers.InitializeBadParams | extension/extension.go:138-144 | an initialize with bad params reaches no handler and is answered with the error |
| MethodAnswers.AllInOrder | extension/run.go:111-172 | the order of the eight handlers, and the names in their errors |
| SessionLaws.CodesTell | extension/run.go:191-246 | from the code of an answer a host can tell whether a handler was entered, and which one; a success means that the handler returned a result that marshals |
| SessionLaws.ShutdownOnce | extension/run.go:249-305 | if a shutdown request ends the session every installed handler is shut down exactly once in the fixed order, whatever happened before, else none is |
| SessionLaws.ShutdownAnswer | extension/extension.go:156-166 | the last answer of such a session is a success if and only if every handler shut down without error |
| SessionLaws.InitializeAnswer | extension/extension.go:137-154 | if every handler initializes, each of the eight lists is the in-order concatenation of the handlers' own and the answer is a success if and only if that marshals, else none; otherwise it stops at exactly the first failing handler, with its labelled error |
| SessionLaws.InitializesOfSession | extension/run.go:111-187 | over whole sessions: each handled initialize has that answer on the wire, right after the answers owed before it |
| SessionLaws.OverlongLineGetsZero | extension/extension.go:109-117 | an input whose only answer has ID 0 |
| Handlers.InitMeans | extension/run.go:111-172 | initialization either merges all installed handlers or stops right at the first failure |
| Handlers.ShutdownMeans | extension/run.go:249-305 | shutdown reaches every installed handler in order, and has an error if and only if one of them has |
| Handlers.LiveIsInstalled | extension/run.go:14-23 | the handlers called are exactly the installed ones, each once |
| CompositeExtension.RegistrationSet.Merge | extension/run.go:175-187 | each of the eight lists is extended by its own counterpart; absent registrations change nothing |
| CompositeExtension.Composite.Initialize | extension/run.go:111-172 | the calls, the notifications and the result of the fold over the slots |
| CompositeExtension.Composite.InitializeOne | extension/run.go:114-120 | one guarded block extends the fold by one slot, or ends it with the labelled error |
| CompositeExtension.Composite.Shutdown | extension/run.go:249-305 | the calls and notifications of the fold, and none, the one or the combined error |
| CompositeExtension.Composite.Enter | extension/extension.go:26-56 | what a handler sends while it runs goes out in order; a notification that does not marshal is left out |
| Ndjson.Transport.ReadRequest | jsonrpc/transport.go:44-62 | the first line that is not blank as a request, the end, or a read or decoding error, with the input that is left |
| Ndjson.Transport.WriteLine | jsonrpc/transport.go:106-120 | two writes, the second only after the first succeeded; the error of the one that fails, and the bytes that are out by then |
| Ndjson.LineIsOutIff | jsonrpc/transport.go:113-119 | no error is reported if and only if both writes succeed, the whole record is out then, and never anything but a part of it |
| Ndjson.FailedWriteTells | jsonrpc/transport.go:113-118 | the error says which of the two writes failed, and after a failing body no newline is tried |
| Ndjson.Transport.SendResponse | jsonrpc/transport.go:66-77 | writes a success response and returns its error; a result that does not marshal writes nothing |
| Ndjson.Transport.SendError | jsonrpc/transport.go:81-88 | writes an error response and returns its error |
| Ndjson.Transport.SendNotification | jsonrpc/transport.go:92-103 | writes a notification and returns its error; params that do not marshal write nothing |
| Ndjson.RequestsRoundTrip | jsonrpc/transport.go:44-62 | the requests written, with blank lines anywhere between, are the requests read, and then the end |
| Ndjson.MessagesRoundTrip | harness/harness.go:191-230 | the same for the messages that a host decodes |
| Framing.RoundTrip | jsonrpc/transport.go:44-62 | any sequence of clean lines within the limit, with any blank lines between, reads back as exactly that sequence |
| Framing.SurvivesIff | jsonrpc/transport.go:52-55 | a line survives framing if and only if it is not blank, has no line feed, does not end in a carriage return and is within the limit |
| Framing.LastLineUnended | jsonrpc/transport.go:46-52 | a last line that is not ended is read like the others |
| Framing.CarriageReturnDropped | jsonrpc/transport.go:52 | a carriage return in front of the line feed is not part of the line |
| Envelope.Codec.ClassifyUndoesEncode | harness/harness.go:209-228 | sorting by the method key gives back the message that was written |
| Breaker.CircuitBreaker.Do | retry/breaker.go:62-89 | rejects exactly when the effective state is open and then changes nothing; otherwise the outcome is recorded and returned |
| Breaker.CircuitBreaker.Admit | retry/breaker.go:63-69 | admits unless the effective state at that time is open, and stores that state |
| Breaker.CircuitBreaker.Record | retry/breaker.go:73-88 | a success closes and clears the count; a failure counts, and opens at its own time from the threshold on |
| Breaker.CircuitBreaker.CurrentState | retry/breaker.go:53-58 | returns the effective state and stores it |
| Breaker.CircuitBreaker.Reset | retry/breaker.go:92-97 | closes the breaker and forgets the failures |
| BreakerRuns.StateIsHistory | retry/breaker.go:22-33 | in every interleaving the counter is the number of failures since the last success or Reset, and the effective state is a function of that number, the time of the last opening and the clock |
| BreakerRuns.HalfOpenFailureReopens | retry/breaker.go:24-25 | a failure recorded while open or half-open always opens the breaker anew, at its own time |
| BreakerRuns.RejectedIff | retry/breaker.go:60-70 | in every interleaving a caller is rejected if and only if some opening less than a cooldown old has seen no success and no Reset since |
| BreakerRuns.LazyIsEager | retry/breaker.go:51-58 | the stored state with its step on demand is bisimilar to a breaker that computes its state from the clock |
| BreakerRuns.PollsAreInvisible | retry/breaker.go:44-49 | inserting or deleting State() calls anywhere gives a possible run again, and changes no admission decision and no later state |
| BreakerRuns.StripIsLegal | retry/breaker.go:44-49 | without its State() calls a possible run is still a possible run |
| BreakerRuns.InsertIsLegal | retry/breaker.go:44-49 | with State() calls inserted at times in order too |
| BreakerLimits.OneProbeIff | retry/breaker.go:24 | an admitted half-open caller is the only probe of its period if and only if no call admitted since the breaker last opened is still at work |
| BreakerLimits.ProbesArePending | retry/breaker.go:53-70 | the probes of a half-open period are exactly the calls admitted since the last opening and not yet recorded; an open breaker has none |
| BreakerLimits.SequentialProbesOnce | retry/breaker.go:24 | callers that do not overlap get at most one probe in a half-open period |
| BreakerLimits.TwoProbesOverlap | retry/breaker.go:24 | a run in which two overlapping callers are both let through |
| BreakerLimits.ProbesAreInFlight | retry/breaker.go:73-88 | the probes of a half-open period are all still in flight: any outcome ends it |
| BreakerLimits.StartsAreSpaced | retry/breaker.go:53-70 | while every call fails, starts after the first max(threshold, 1) are at least a cooldown apart |
| BreakerLimits.RateBound | retry/breaker.go:53-89 | such callers start at most max(threshold, 1) + T / cooldown functions in any closed window of length T |
| BreakerLimits.RateBoundIsTight | retry/breaker.go:53-89 | for every configuration and window length some run attains the bound |
| Backoff.WholeMultiplier | retry/retry.go:72 | for a whole multiplier the k-th delay is min(Initial * m^k, Max) for k >= 1 |
| Backoff.FractionalMultiplier | retry/retry.go:72 | for any multiplier m >= 1, before saturation the k-th delay is at most Initial * m^k and at least that less (m^k - 1) / (m - 1) |
| Backoff.DelaysMonotone | retry/retry.go:71-72 | once within Max, delays never shrink, never pass Max, and stay at Max |
| Backoff.DelaysCappedIff | retry/retry.go:16-17 | Max bounds every delay if and only if Initial is within Max |
| Backoff.JitteredCappedIff | retry/retry.go:55-60 | with jitter and a positive Initial, Max bounds the first sleep for every draw if and only if Initial is at most Max plus one |
| Backoff.GrowsIff | retry/retry.go:72 | below Max the delay grows if and only if one multiplication gains a whole nanosecond |
| Backoff.SleepBounds | retry/retry.go:55-60 | a jittered sleep is between half the delay, rounded down, and the delay |
| Backoff.SleepIs | retry/retry.go:55-60 | a sleep is the delay, or with jitter delay * (1 + draw) / 2 cut to whole nanoseconds |
| Backoff.PresetDelays | retry/retry.go:21-31 | the presets never shrink nor pass Max, and their products stay exact in 64 bits |
| Backoff.PresetSchedules | retry/retry.go:21-31 | the presets' schedules in nanoseconds |
| Retry.Do | retry/retry.go:36-76 | every run of the loop is a run of the description: where it stopped, why, after which calls and timers, with which error |
| Retry.DoWithResult | retry/retry.go:80-122 | the same description; the value is the last call's on success and the zero value on every other exit |
| Retry.BothLoops | retry/retry.go:36-122 | in the same world both loops make the same calls, start the same timers and return the same error |
| Retry.RunIsUnique | retry/retry.go:36-76 | the description admits exactly one run per world |
| Retry.Accounting | retry/retry.go:36-76 | calls never exceed max(attempts, 0); timers equal calls after cancellation and calls less one otherwise; nil only after a successful last call; nothing is called after a cancellation or a success |
| Retry.TotalWait | retry/retry.go:55-72 | whatever the draws, the sleeps sum to between the halved and the full delays, and to at most timers * max(Initial, Max) |
| Retry.TimersCappedIff | retry/retry.go:62-72 | without jitter Max bounds every timer in every world if and only if there is at most one attempt or Initial is within Max |
| Retry.JitteredTimersCappedIff | retry/retry.go:55-72 | with jitter and a positive Initial the same with Max plus one |
| Retry.RunCappedIff | retry/retry.go:62-72 | Max bounds the timers of one run without jitter if and only if it has none or Initial is within Max |
| Retry.FirstSleepExceedsMax | retry/retry.go:38-63 | a run that sleeps for twice Max |
| ErrorTree.IsTransientIsRule | retry/retry.go:136-173 | over every finite error tree the classification is a first-match rule on the pre-order of the tree |
| ErrorTree.FirstStatusDecides | retry/retry.go:146-155 | without a context error the first HTTP status in pre-order decides: transient if and only if it is 429, 502, 503, 504 or 529 |
| ErrorTree.OpErrorDecides | retry/retry.go:157-162 | without either, any OpError means transient |
| ErrorTree.FirstNetErrorDecides | retry/retry.go:164-170 | without all of these, the first net.Error decides by its timeout or temporary flag |
| ErrorTree.NeverTransient | retry/retry.go:137-144 | no error is not transient, nor is any tree with a context error |
| ErrorTree.OpaqueIsNotTransient | retry/retry.go:172 | nor is a tree without any of these kinds |
| ErrorTree.OuterAndEarlierFirst | retry/retry.go:146-155 | the outer status counts before those inside, and of joined errors the earlier one |
| ErrorTree.ContextWins | retry/retry.go:141-144 | a context error anywhere means not transient |
| ErrorTree.ReplacingIsInvisible | retry/retry.go:136-173 | anywhere in a tree, replacing a subtree by one with the same telling kinds in pre-order never changes the answer |
| ErrorTree.WrappingIsInvisible | retry/retry.go:133-135 | opaque wrapping of any error in a tree never changes the answer |
| ErrorTree.JoinsReassociate | retry/retry.go:133-135 | neither does joining a join, anywhere in a tree |
| ErrorTree.SameTellingSameAnswer | retry/retry.go:136-173 | only the sequence of telling kinds matters |

## Left out

- JSON text, struct tags and base64: library behaviour, replaced by the codec's contract.
- Codec.Valid: asks the round trip of every payload text and string; `encoding/json` meets it for compact valid JSON and valid UTF-8, which is what the extension passes it.
- `bufio.Scanner` buffers and blocking reads: a line function with a limit; in `Harness` all that will ever arrive is known beforehand, and in `Concurrent` a read happens when a whole line is there.
- Harness.FakeKova.CallInternal: the loop it shares with CallExpectError is one method, AwaitResponse, where the source writes it twice.
- Concurrent.DoHostRead: a response with an error ends the call like any other; that `callInternal` then fails its test is in `Harness`.
- Dispatcher.Dispatcher.Run: is about a transport whose writes succeed; the source ignores most errors of writes and goes on, and what is on the wire by then is in `WriteLock`.
- Concurrent.CanDo: offers no message too long for the host, no failing write and no line the host did not write as a request; over-long lines and garbage are in the sequential session, failing writes in `WriteLock`.
- Completion.CallCompletes: a call can complete from every such state, not that it must under every schedule; emitters that never pause could keep the lock from the loop.
- Concurrent.DoServe: the calls into handlers are one step, and what they emit is sent after it, in order and before the response; which handlers are called is in the sequential session.
- The `Initialize` and `Shutdown` conveniences of the harness, `MustUnmarshal`, `FormatError`, option setters and the `RunX` wrappers: one-line compositions of what is modelled.
- The bodies of the eight dispatch functions one by one: repeated shape, covered by the table in `Handlers`.
- The texts of decoding errors, and the payload structs of `protocol` and `schemas`: opaque values.
- OS signals, standard streams and logging: cancellation is an oracle or an action that may happen at any time.
- Backoff.FractionalMultiplier: exact reals, so rounding and 64-bit overflow of the product are not covered outside the presets.
- Breaker.CircuitBreaker.Do: a function that panics records nothing and leaves its call in flight; in `BreakerRuns` such a call is one that is never recorded.
- ErrorTree.IsTransientIsRule: custom `Is` and `As` methods of error types, and error graphs with cycles.
- `cmd/generate-schemas`: reflection and file output.
