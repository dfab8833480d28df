# NodeProcessManager: a verified model of the parent/worker protocol

NodeProcessManager lets a Node.js parent process (the *master*) drive a set of
child processes (the *slaves*, or workers) over their IPC channels. Two kinds of
traffic cross a channel:

- fire-and-forget notes, in either direction;
- request/response pairs initiated by the master. The master numbers requests
  per worker, keeps a table of pending callbacks, correlates each response
  with its callback by request id, and fails requests older than ten seconds
  with a timeout.

This project models the two core source files:

- `src/messages.js`, the five wire shapes and their builders. It is modelled
  as pure functions.
- `src/processmanager.js`, with its two classes:
  - the worker-side `SlaveProcess`, whose handler slots and dispatcher change
    in place;
  - the master-side `MasterProcess`, whose three dictionaries and three
    callback slots change in place.

Both classes are modelled as Dafny classes. Each class method is proved
against a specification function. For the master, those functions are the
transitions of a pure state in module `Registry`, where the protocol's
properties are proved.

The modules:

- `JsValues` (values.dfy) holds the pieces of JavaScript the code relies on:
  - payload values;
  - `null`/`undefined` ("nullish");
  - reading `e.message`;
  - property-key coercion. A worker id used as an object key becomes a
    string: a pid becomes its decimal form, so a pid and its decimal string
    name the same slot.
- `Messages` (messages.dfy) holds the message record and its builders.
  - A field that is absent or holds `undefined` is absent in the record,
    because the JSON channel drops such fields.
  - A builder that throws returns `Err` with the thrown message.
- `Slave` (slave.dfy) holds the worker's handler slots and its dispatcher.
  - A request handler is user code. What it does is an input: `Run`, the
    completions `cb(e, res)` it makes and what it throws afterwards.
  - `Replies` is the specification of everything the dispatcher sends back.
- `Registry` (registry.dfy) holds the master's state and transitions:
  - `State`, holding the master's fields, a log of channel writes (`sent`) and
    a log of user-code invocations (`calls`);
  - one transition function per operation;
  - `Step` and `Run` over event traces;
  - the lemmas.
- `Master` (master.dfy) holds `class MasterProcess`, whose methods perform
  those transitions in place. The timeout sweep is its nested loop.
- `Scenarios` (scenarios.dfy) combines master and worker:
  - a request round trip;
  - a late response after a timeout;
  - a dead worker's abandoned requests;
  - a two-worker example.

Everything outside the processes is a parameter:

- the clock is `now`;
- callbacks and handlers are numbered slots;
- JavaScript's object-key iteration order is a ghost enumeration, which the
  lemmas quantify over.

In these places the code behaves differently from what a caller of its
interface would expect (one reply per request, request ids that only grow,
a formatted error text, a guarded builder, broadcasts in registration
order). The model follows the code:

- **More than one response per request.** The worker sends one response per
  `cb` call, plus one error response when the handler throws a non-nullish
  value. So one request can get several responses (`CompletionThenThrowTwoResponses`).
  It gets none when the handler neither calls `cb` nor throws, or when it
  throws `null`, because reading `.message` then throws inside the catch.
- **Counters restart.** Request ids only increase within one registration.
  Re-registering an id resets its counter to 0 and empties its table
  (`RegisterResets`, `RequestIdsIncrease`).
- **Cleanup abandons callbacks.** On `error`/`close` the worker's pending
  callbacks are dropped without ever being run (`AbandonedNeverRun`).
- **Fixed error text.** `_sendMsg` to an unknown id throws the literal text
  `Invalid process ID: %s`, because `Error` ignores its second argument.
- **No null guard.** `genErrorResponse` has no guard: an absent request makes
  the read of `req.reqId` throw a TypeError.
- **Broadcast order.** A broadcast follows the object's key order, not
  registration order. The model leaves that order open.

## Model

| member | source | states |
|---|---|---|
| JsValues.MessageOf | src/processmanager.js:75 | reading `e.message` throws exactly for null/undefined; an Error gives its message; an object without the property gives undefined |
| JsValues.Key | src/processmanager.js:154 | a string id is its own key; a numeric id's key is non-empty and starts with '-' exactly when the id is negative |
| JsValues.NumKeyDigits | src/processmanager.js:282 | after the sign, a numeric id's key is all decimal digits |
| JsValues.NumKeyInjective | src/processmanager.js:280-284 | distinct pids give distinct property keys, so pid-registered workers never share a slot |
| JsValues.NumAndStringIdsCollide | src/processmanager.js:154 | a numeric id and its decimal string name the same slot |
| JsValues.NatDigitsInjective | src/processmanager.js:282 | decimal printing of naturals is injective |
| Messages.GenPing | src/messages.js:2-4 | the message's only field is the tag `ping` |
| Messages.GenPong | src/messages.js:6-8 | the message's only field is the tag `pong` |
| Messages.GenMessage | src/messages.js:10-15 | tag `message`, content unchanged, no other field |
| Messages.GenRequest | src/messages.js:17-26 | fails exactly when the id is missing; otherwise tag `request` with exactly that id and content and no status |
| Messages.GenResponse | src/messages.js:28-38 | fails exactly when the request is missing; otherwise tag `response`, the request's id, status `ok`, the content |
| Messages.GenErrorResponse | src/messages.js:40-47 | fails exactly when the request is missing (a TypeError, there is no guard); otherwise tag `response`, the request's id, status `error`, the explanation |
| Messages.ResponsesAnswerTheirRequest | src/messages.js:34-35 | both response builders set a valid, different status and copy the request's id |
| Messages.ResponseCarriesRequestId | src/messages.js:43-44 | a response to a built request carries exactly that request's id |
| Slave.SlaveProcess.constructor | src/processmanager.js:15-19 | both slots hold the built-in defaults; nothing sent or delivered |
| Slave.SlaveProcess.On | src/processmanager.js:43-47 | fails exactly for events other than request/message, with `Unknown event: ` and the event; otherwise replaces that one slot |
| Slave.SlaveProcess.SendMsg | src/processmanager.js:32-34 | appends exactly one note with the content to the outbound log |
| Slave.SlaveProcess.Send | src/processmanager.js:49-53 | appends the message to the outbound log and changes nothing else |
| Slave.SlaveProcess.OnMessage | src/processmanager.js:55-101 | the messages sent are exactly `Replies` for the message, the request slot and the handler's run; the message handler sees exactly `Invoked`; slots unchanged |
| Slave.Replies | src/processmanager.js:55-101 | a ping is answered only by pongs; a request only by responses carrying its id and a valid status; any other tag by nothing |
| Slave.CompletionReply | src/processmanager.js:72-80 | a response with the request's id; status `error` with `e.message` exactly when e is non-nullish, else `ok` with the result |
| Slave.ThrowReply | src/processmanager.js:81-84 | one error response with the thrown value's message exactly when the value thrown is non-nullish, none otherwise |
| Slave.PingGetsOnePong | src/processmanager.js:62-66 | a ping gets exactly one pong, whatever the handlers |
| Slave.OnlyPingsAndRequestsAreAnswered | src/processmanager.js:87-95 | a note or an unknown tag gets no reply, whatever the handlers are |
| Slave.CompletionRepliesAnswerRequest | src/processmanager.js:72-80 | one response per completion, in completion order |
| Slave.RequestRepliesAreResponses | src/processmanager.js:67-86 | a request gets one response per completion plus one for a non-nullish throw; each has tag `response`, the request's id and a valid status |
| Slave.OneCompletionOneResponse | src/processmanager.js:72-80 | a handler calling cb once gets exactly one response: error with `e.message` when e != null, else ok with the result |
| Slave.ThrowOneErrorResponse | src/processmanager.js:81-84 | a handler that throws before cb gets exactly one error response carrying the thrown message |
| Slave.CompletionThenThrowTwoResponses | src/processmanager.js:70-84 | a handler that calls cb and then throws gets two responses to one request |
| Slave.BuiltinAnswersNull | src/processmanager.js:17 | the default request handler answers ok with null content |
| Slave.NotCallableAnswersError | src/processmanager.js:68-84 | a slot holding a non-function turns every request into one error response |
| Registry.Init | src/processmanager.js:106-113 | the new master has empty tables and no-op callbacks and satisfies the invariant |
| Registry.Register | src/processmanager.js:276-284 | registration keeps the invariant (the three tables share keys, pending ids are below the counter) |
| Registry.RegisterResets | src/processmanager.js:276-284 | the id defaults to the pid; the slot gets the worker, counter 0, an empty table and listeners; the id is returned; nothing else changes |
| Registry.RegisterAll | src/processmanager.js:122-138 | the array form returns one id per worker, the i-th being the i-th id given, else the i-th pid |
| Registry.RegisterAllFresh | src/processmanager.js:127-133 | after the array form the invariant holds, every returned id has counter 0 and an empty table, nothing is sent or run |
| Registry.RegisterAllDomain | src/processmanager.js:127-133 | the array form adds no slot other than the returned ids |
| Registry.RegisterAllKeepsOthers | src/processmanager.js:127-133 | slots not named by the array form keep their worker |
| Registry.RegisterAllPairs | src/processmanager.js:128-131 | the i-th returned id holds the i-th worker unless a later worker took the same key |
| Registry.PidsGiveDistinctKeys | src/processmanager.js:280 | workers with distinct pids registered without ids get distinct keys |
| Registry.Deliveries | src/processmanager.js:251-253 | one write per listed key, to that key's worker, in order |
| Registry.Unicast | src/processmanager.js:238-245 | fails exactly for an unregistered key; otherwise appends one write of the message to that key's worker and changes nothing else |
| Registry.Broadcast | src/processmanager.js:247-254 | keeps the old log as a prefix and appends exactly one write to every registered key and none to any other key, each to that key's worker with the message; nothing else changes |
| Registry.SendMsg | src/processmanager.js:146-149 | a successful sendMsg only appends writes |
| Registry.CountDeliveries | src/processmanager.js:251-253 | over distinct keys, each key gets one write if listed and none otherwise |
| Registry.CountAllDeliveries | src/processmanager.js:251-253 | the same count, for every key at once |
| Registry.BroadcastReachesEachOnce | src/processmanager.js:247-254 | with no id, the note is written exactly once to every registered key and to no other, in any key order, and nothing else changes |
| Registry.UnicastReachesOne | src/processmanager.js:238-246 | with an id, fails exactly for an unregistered id and changes nothing; otherwise writes exactly one note to that worker |
| Registry.SendRequest | src/processmanager.js:151-187 | sendRequest keeps the invariant |
| Registry.SendRequestRejects | src/processmanager.js:151-155 | a missing or unregistered id runs the callback once with that failure; no counter, table or channel changes |
| Registry.SendRequestAllocates | src/processmanager.js:160-182 | the request id is the counter's old value, which was not pending; the counter moves up by one; the entry {cb, now} is stored; exactly one request with that id goes to that worker; nothing else changes |
| Registry.ReplyFor | src/processmanager.js:322-325 | a status-`error` response fails the callback with the content as remote error; any other status answers it with the content |
| Registry.Dispatch | src/processmanager.js:302-335 | the inbound switch keeps the invariant and never touches channels, workers or counters |
| Registry.ResponseCorrelates | src/processmanager.js:314-330 | a response for a pending id runs its callback once, with the remote error for status `error` and the content otherwise, and removes the entry; for any other id nothing changes; no other part of the state changes; the sweep follows |
| Registry.NoteAndUnknownTags | src/processmanager.js:310-337 | a note runs the message callback with the worker's id and content and is followed by the sweep unless that callback throws; an unknown tag changes nothing and skips the sweep |
| Registry.Live | src/processmanager.js:367 | keeps exactly the entries whose age is at most the timeout, unchanged |
| Registry.Swept | src/processmanager.js:363-375 | every worker keeps its key and only its live entries |
| Registry.TimeoutCalls | src/processmanager.js:371 | as many calls as listed entries (what each call is: `Registry.TimeoutCallsAt`) |
| Registry.TimeoutCallsAt | src/processmanager.js:371 | the i-th failure is the i-th listed entry's callback with a timeout |
| Registry.SweepFailsAt | src/processmanager.js:363-375 | the sweep's i-th failure is the timeout of the i-th expired entry it visits |
| Registry.Sweep | src/processmanager.js:357-376 | the sweep keeps the invariant and touches no channel, worker or counter |
| Registry.SweepExpiresExactly | src/processmanager.js:357-376 | every entry older than 10000 ms is removed and failed with a timeout exactly once; entries aged at most 10000 ms stay, unchanged; the i-th failure is the i-th visited entry's; only tables and calls change |
| Registry.DistinctLength | src/processmanager.js:363-375 | an enumeration without repeats has the set's size |
| Registry.SweptIdempotent | src/processmanager.js:357-376 | a second sweep at the same time removes nothing |
| Registry.SweepMonotoneInTime | src/processmanager.js:367 | a later sweep removes at least what an earlier one would |
| Registry.Cleanup | src/processmanager.js:346-355 | cleanup keeps the invariant |
| Registry.OnError | src/processmanager.js:288-293 | the worker's key leaves all three tables, nothing is sent, and the only call added is errorCb with the id and the error |
| Registry.OnClose | src/processmanager.js:295-300 | the worker's key leaves all three tables, nothing is sent, and the only call added is closeCb with the id |
| Registry.CleanupAbandons | src/processmanager.js:288-300 | on error/close the worker leaves all three tables; the only call run is errorCb(id, e) or closeCb(id); other workers unchanged; channels, callbacks and listeners unchanged |
| Registry.AbandonedNeverRun | src/processmanager.js:314-318 | after cleanup a late response runs nothing and skips the sweep, and no sweep reaches the dropped entries |
| Registry.OnOffSlots | src/processmanager.js:189-229 | on/off fail exactly for a null handler (first) or an unknown event; on replaces one slot; off after on resets it to the no-op |
| Registry.On | src/processmanager.js:189-208 | fails exactly for a null handler or an event other than message/close/error; otherwise only that event's callback slot is replaced by the handler |
| Registry.Off | src/processmanager.js:210-229 | fails exactly for a null handler or an event other than message/close/error; otherwise only that event's callback slot is reset to the no-op |
| Registry.Step | src/processmanager.js:104-380 | every operation and channel event keeps the invariant |
| Registry.Run | src/processmanager.js:104-380 | every admissible trace keeps the invariant |
| Registry.StepWrites | src/processmanager.js:245 | an event only appends to the channel log |
| Registry.StepCounter | src/processmanager.js:378-380 | outside re-registration and cleanup, a counter changes only by a request to it, by exactly one |
| Registry.WrittenRequestIds | src/processmanager.js:160-182 | one event sends a request to k only when it is sendRequest to k, carrying k's counter |
| Registry.StepRequestIds | src/processmanager.js:160-182 | one event sends at most one request to k, carrying the counter's old value, after which the counter has passed it |
| Registry.RequestIdsIncrease | src/processmanager.js:378-380 | over any trace that does not reset slot k, the request ids sent to k strictly increase and lie between the counter's first and last values |
| Registry.RequestIdsAppend | src/processmanager.js:245 | request ids of concatenated logs concatenate |
| Registry.NoRequestIds | src/processmanager.js:146-149 | notes carry no request ids |
| Registry.CountToAppend | src/processmanager.js:251-253 | write counts of concatenated logs add up |
| Master.MasterProcess.constructor | src/processmanager.js:106-113 | the new object is the initial state |
| Master.MasterProcess.Register | src/processmanager.js:276-344 | the fields change as `Registry.Register` says and the id is returned |
| Master.MasterProcess.RegisterArray | src/processmanager.js:122-134 | the loop performs `Registry.RegisterAll` and returns its ids |
| Master.RegisterAllSnoc | src/processmanager.js:127-133 | registering n + 1 workers is registering n of them and then the next, with its id appended |
| Master.MasterProcess.SendMsg | src/processmanager.js:146-149 | performs `Registry.SendMsg`; the error is returned exactly when it fails |
| Master.MasterProcess.SendTo | src/processmanager.js:237-255 | with no id, writes to each registered key once in some enumeration; with an id, performs `Registry.Unicast` |
| Master.MasterProcess.SendToAll | src/processmanager.js:247-254 | the loop writes the message to every registered key in some repeat-free enumeration, one write each, and changes no other field |
| Master.MasterProcess.Deliver | src/processmanager.js:245 | appends one write of the message to that key's worker and changes no other field |
| Master.MasterProcess.SendRequest | src/processmanager.js:151-187 | performs `Registry.SendRequest` and keeps the invariant |
| Master.MasterProcess.GenReqId | src/processmanager.js:378-380 | returns the counter's value and increments it (post-increment) |
| Master.MasterProcess.OnResponse | src/processmanager.js:257-266 | stores {cb, now} under the request id in that worker's table |
| Master.MasterProcess.OffResponse | src/processmanager.js:268-274 | removes the request id from that worker's table |
| Master.MasterProcess.On | src/processmanager.js:189-208 | performs `Registry.On`; the error is returned exactly when it fails |
| Master.MasterProcess.Off | src/processmanager.js:210-229 | performs `Registry.Off`; the error is returned exactly when it fails |
| Master.MasterProcess.OnSlaveMessage | src/processmanager.js:302-341 | performs `Registry.Dispatch`, then `Registry.Sweep` in some enumeration of the expired entries unless the switch threw |
| Master.MasterProcess.OnSlaveMessageSwitch | src/processmanager.js:307-335 | performs `Registry.Dispatch` and reports whether the sweep is reached |
| Master.MasterProcess.OnSlaveError | src/processmanager.js:288-293 | performs `Registry.OnError` |
| Master.MasterProcess.OnSlaveClose | src/processmanager.js:295-300 | performs `Registry.OnClose` |
| Master.MasterProcess.Cleanup | src/processmanager.js:346-355 | performs `Registry.Cleanup` |
| Master.MasterProcess.CleanupRespHandlers | src/processmanager.js:357-376 | the nested loops perform `Registry.Sweep`, and `order` enumerates exactly the expired entries |
| Master.MasterProcess.SweepWorker | src/processmanager.js:364-374 | one worker's table is replaced by its live entries and its expired callbacks are failed once each |
| Master.SweepTable | src/processmanager.js:365-374 | the inner loop: the entries left are the live ones; the failures run are exactly the expired entries, each once |
| Master.SweepStep | src/processmanager.js:363-375 | visiting one more worker keeps the outer loop's invariant and extends the failures in order |
| Master.SweepComplete | src/processmanager.js:363-375 | after the last worker, the entries failed are exactly the expired ones and the tables are swept |
| Master.TimeoutCallsSplit | src/processmanager.js:363-375 | failures of two lists run one after the other |
| Scenarios.RequestRoundTrip | src/processmanager.js:151-187 | a request to a registered worker, answered by one completion, runs the callback exactly once with the result (or the remote error) and leaves the pending table as before |
| Scenarios.LateResponseDropped | src/processmanager.js:357-376 | a request older than the timeout is failed by the next sweep; its late response runs nothing |
| Scenarios.ExpiredEntryDropped | src/processmanager.js:363-375 | an entry older than the timeout is visited, failed with a timeout at its place in the order, and removed |
| Scenarios.DeadWorkerAbandons | src/processmanager.js:288-293 | a worker that dies with a request outstanding never gets that callback run |
| Scenarios.RegisterTwo | src/processmanager.js:122-138 | registering two workers as A and B returns [A, B] and fills both slots |
| Scenarios.TwoWorkersRequestToA | src/processmanager.js:151-187 | with A and B registered, a request to A answered {n: 1} completes with {n: 1} |
| Scenarios.TwoWorkersRequestToZ | src/processmanager.js:154-155 | with A and B registered, a request to Z fails with an invalid-id error and sends nothing |
| Scenarios.TwoWorkersBroadcast | src/processmanager.js:247-254 | with A and B registered, a note without a target reaches A once and B once and nobody else |

## Left out

- Logging (bunyan, `JSON.stringify` in log lines): it has no effect on the protocol.
- Binding to the runtime (`process.send`, `process.on('message')`, `slave.send`, `slave.on(...)`): channel writes are the `sent` logs. Channel events are the methods `OnSlaveMessage`, `OnSlaveError`, `OnSlaveClose` and `SlaveProcess.OnMessage`. Those methods require an id whose listeners were attached. `listeners` is a set, so it does not record how many times they were attached. In the source, registering the same worker twice attaches a second set of listeners (src/processmanager.js:288-341). Every channel event then runs each listener twice: a note calls `messageCb` twice, and a close runs the cleanup and `closeCb` twice. A trace can replay those duplicate events, but the model does not count them.
- Wall-clock time: `new Date().getTime()` is the parameter `now`.
- JSON serialisation over the channel: values cross unchanged, and fields holding `undefined` are absent.
- Asynchrony: a request handler's completions are modelled as made within one dispatch. Interleaving with later messages is not modelled.
- Registration: `register` with nested arrays, and `slaveIds` that is not an array, are not modelled.
- Master.MasterProcess.SendRequest: a send that throws synchronously (the catch at src/processmanager.js:183-186) is not modelled, because Node reports a closed channel asynchronously. In the source that path runs `cb(e)` and leaves the entry pending. The same catch runs when the content cannot be serialised (a cycle or a BigInt), because `send` at src/processmanager.js:245 then throws synchronously. A later sweep would then call `cb` a second time. In the model every `Value` serialises, so this path cannot occur there.
- Callbacks that throw: `errorCb` and `closeCb` throwing out of a channel listener are not modelled. A response or timeout callback that throws is caught inside the wrapper that `sendRequest` stores in the table (src/processmanager.js:166-179, the catch at :176-178). So the entry is still deleted (:328, :372) and the sweep still runs (:337), as modelled. A throwing `messageCb` is modelled: it skips the sweep (the parameter `messageCbThrows`).
- Master.MasterProcess.CleanupRespHandlers: user callbacks are assumed not to re-enter the master (for example by calling `sendRequest` or `sendMsg` from inside the callback). This covers the timeout callbacks run by the sweep, `messageCb` run at src/processmanager.js:311 (before the sweep at :337) and the response callbacks. For status `error` a response callback runs (:323, :169) before the entry is deleted at :328. For any other status the wrapper first removes the entry through `_offResponse` (:174, :273) and then calls the callback (:175), as the model does. The model runs a nested operation as the next event, so the order of the `calls` and `sent` logs can differ from the source's. Each worker's table is written back once its inner loop ends (`Master.SweepTable` works on that table's value). This is equivalent as long as no callback observes the table mid-sweep.
- Master.MasterProcess.SendTo: JavaScript's key order for `for...in` is left open. The broadcast is proved for every order that lists each registered key once. Inside the broadcast loop, the source's recursive `_sendMsg(msg, id)` call is modelled by the write step `Deliver`, the same step the single-id path takes: every key the loop enumerates is registered, so the recursive call always takes that path.
- Remote errors: a status-`error` response fails the callback with `Remote(content)`. The `Error` object's stringification of `content` is not modelled.
- Numbers: only integer payloads and integer request ids are modelled. Non-integer keys and JavaScript's printing of non-integers are not.
- Registry.RequestIdsIncrease: numbers are unbounded in the model. In the source they are doubles, so `currReqIdH[k]++` (src/processmanager.js:379) stops growing at 2^53. A later request would then reuse an id and overwrite the pending entry (src/processmanager.js:262). So the strict increase, and the "was not pending" clause of `Registry.SendRequestAllocates`, hold only below 2^53 requests to one worker.
- JsValues.Key: `String(n)` uses exponent notation from 1e21 on. The model prints every numeric id in plain decimal, so keys of ids that large differ from JavaScript's.
- Inherited property names: the source tests `slaveId in this.slaveH` (src/processmanager.js:154, :239), which is also true for names inherited from `Object.prototype` (`constructor`, `toString`, `__proto__`, ...). Table membership is modelled as own-key membership, so such ids are treated as unregistered. In the source, `sendRequest` to `constructor` passes the guard, stores NaN as the counter and ends in a TypeError passed to the callback. `register` under `__proto__` replaces the object's prototype instead of adding a slot. None of this is modelled.
- The HTTP demo (`main.js`), the demo worker (`src/slave.js`) and the tests are not part of this model.
