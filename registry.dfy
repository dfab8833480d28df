/** The abstract state of a MasterProcess (src/processmanager.js) and the
    transition each of its operations performs. The class in module Master
    is proved to perform exactly these transitions; the lemmas here state
    the correlation protocol's properties about them. */
module Registry {
  import opened JsValues
  import opened Messages

  /** Age, in milliseconds, beyond which a pending request is failed. */
  const REQUEST_TIMEOUT: int := 10000

  /** The event names the master's on/off accept. */
  const MESSAGE_EVENT := "message"
  const CLOSE_EVENT := "close"
  const ERROR_EVENT := "error"

  /** A worker process handle: the channel's identity and the OS pid. */
  datatype Worker = Worker(handle: nat, pid: int)

  /** A lifecycle callback slot: the constructor's no-op or a user function. */
  datatype Callback = Noop | Fn(id: nat)

  /** A pending request: the caller's callback and when it was sent. */
  datatype Entry = Entry(cb: nat, timestamp: int)

  /** The errors a request callback can receive. */
  datatype Failure =
    | MissingProcessId           // sendRequest without a worker id
    | InvalidProcessId(id: Id)   // sendRequest to an unregistered id
    | Remote(content: Value)     // the worker answered with status 'error'
    | Timeout                    // swept after REQUEST_TIMEOUT

  /** `cb(error)` or `cb(undefined, content)`. */
  datatype Reply = Failed(error: Failure) | Answered(content: Value)

  /** One invocation of user code by the master, in the order they happen. */
  datatype Call =
    | Completed(cb: nat, reply: Reply)
    | MessageCb(slot: Callback, from: Id, content: Value)
    | ErrorCb(slot: Callback, from: Id, error: Value)
    | CloseCb(slot: Callback, from: Id)

  /** One message written to a worker's channel; `key` is the id it was
      addressed by. */
  datatype Delivery = Delivery(key: string, worker: Worker, msg: Msg)

  /** slaves, counters and tables are the source's slaveH, currReqIdH and
      procReqCbH, keyed by property key. listeners holds every id whose
      channel listeners were attached by a registration (they are never
      detached). sent is every channel write, calls every callback run. */
  datatype State = State(
    slaves: map<string, Worker>,
    counters: map<string, nat>,
    tables: map<string, map<int, Entry>>,
    messageCb: Callback,
    closeCb: Callback,
    errorCb: Callback,
    listeners: set<Id>,
    sent: seq<Delivery>,
    calls: seq<Call>)

  /** The three tables share their keys, and every pending request id of a
      worker is below that worker's counter (it was issued earlier). */
  ghost predicate Valid(s: State) {
    && s.slaves.Keys == s.counters.Keys == s.tables.Keys
    && forall k, r :: k in s.tables && r in s.tables[k] ==> 0 <= r < s.counters[k]
  }

  /** The state a new MasterProcess starts in. */
  function Init(): (s: State)
    ensures Valid(s)
    ensures s.slaves == map[] && s.sent == [] && s.calls == []
    ensures s.messageCb == s.closeCb == s.errorCb == Noop
  {
    State(map[], map[], map[], Noop, Noop, Noop, {}, [], [])
  }

  // ---------------------------------------------------------------- register

  /** The id a worker is registered under: the one given, else its pid. */
  function DefaultId(w: Worker, id: Option<Id>): Id {
    if id.Some? then id.value else NumId(w.pid)
  }

  /** The source's _initSlave: (re)creates the worker's slot with a zero
      counter and an empty pending table, attaches listeners, returns the id. */
  function Register(s: State, w: Worker, id: Option<Id>): (r: (State, Id))
    ensures Valid(s) ==> Valid(r.0)
  {
    var i := DefaultId(w, id);
    var k := Key(i);
    (s.(slaves := s.slaves[k := w], counters := s.counters[k := 0],
        tables := s.tables[k := map[]], listeners := s.listeners + {i}), i)
  }

  /** Registering returns the id given, else the pid; the slot holds the
      worker with a zero counter and an empty pending table, whatever it
      held before; every other slot, the channels and the callbacks are
      untouched. */
  lemma RegisterResets(s: State, w: Worker, id: Option<Id>)
    ensures var (t, i) := Register(s, w, id);
            var k := Key(i);
            && i == (if id.Some? then id.value else NumId(w.pid))
            && k in t.slaves && t.slaves[k] == w && t.counters[k] == 0 && t.tables[k] == map[]
            && i in t.listeners
            && (forall j :: j != k ==>
                  && (j in t.slaves <==> j in s.slaves)
                  && (j in t.tables <==> j in s.tables)
                  && (j in t.counters <==> j in s.counters))
            && (forall j :: j != k && j in s.slaves ==> t.slaves[j] == s.slaves[j])
            && (forall j :: j != k && j in s.tables ==> t.tables[j] == s.tables[j])
            && (forall j :: j != k && j in s.counters ==> j in t.counters && t.counters[j] == s.counters[j])
            && t.sent == s.sent && t.calls == s.calls
            && t.messageCb == s.messageCb && t.closeCb == s.closeCb && t.errorCb == s.errorCb
            && t.listeners == s.listeners + {i}
  {
  }

  /** `slaveIds[i]` when the id array is given, undefined otherwise or past its end. */
  function IdAt(ids: Option<seq<Option<Id>>>, i: nat): Option<Id> {
    if ids.Some? && i < |ids.value| then ids.value[i] else None
  }

  /** The array form of register: registers the workers in order, pairing
      the i-th worker with the i-th id, and returns the ids in input order. */
  function RegisterAll(s: State, ws: seq<Worker>, ids: Option<seq<Option<Id>>>): (r: (State, seq<Id>))
    ensures |r.1| == |ws|
    ensures forall i :: 0 <= i < |ws| ==> r.1[i] == DefaultId(ws[i], IdAt(ids, i))
    decreases |ws|
  {
    if ws == [] then (s, [])
    else
      var n := |ws| - 1;
      var (s1, ids1) := RegisterAll(s, ws[..n], ids);
      var (s2, id) := Register(s1, ws[n], IdAt(ids, n));
      (s2, ids1 + [id])
  }

  /** After the array form the invariant still holds, every returned id
      names a fresh slot (zero counter, empty table), and nothing is sent and
      no callback runs. */
  lemma {:induction false} RegisterAllFresh(s: State, ws: seq<Worker>, ids: Option<seq<Option<Id>>>)
    requires Valid(s)
    ensures var r := RegisterAll(s, ws, ids);
            && Valid(r.0)
            && r.0.sent == s.sent && r.0.calls == s.calls
            && forall i :: 0 <= i < |ws| ==>
                 && Key(r.1[i]) in r.0.slaves && r.0.counters[Key(r.1[i])] == 0
                 && r.0.tables[Key(r.1[i])] == map[]
    decreases |ws|
  {
    if ws != [] {
      var n := |ws| - 1;
      RegisterAllFresh(s, ws[..n], ids);
      var r1 := RegisterAll(s, ws[..n], ids);
      var r := RegisterAll(s, ws, ids);
      var kn := Key(r.1[n]);
      assert r.0 == Register(r1.0, ws[n], IdAt(ids, n)).0;
      assert r.0.slaves == r1.0.slaves[kn := ws[n]] && r.0.counters == r1.0.counters[kn := 0]
             && r.0.tables == r1.0.tables[kn := map[]];
      forall i | 0 <= i < n
        ensures r.1[i] == r1.1[i]
      {
      }
    }
  }

  /** After the array form no key appears that is neither old nor returned. */
  lemma {:induction false} RegisterAllDomain(s: State, ws: seq<Worker>, ids: Option<seq<Option<Id>>>)
    ensures var r := RegisterAll(s, ws, ids);
            forall k :: k in r.0.slaves ==> k in s.slaves || exists i :: 0 <= i < |ws| && Key(r.1[i]) == k
    decreases |ws|
  {
    if ws != [] {
      var n := |ws| - 1;
      RegisterAllDomain(s, ws[..n], ids);
      var r1 := RegisterAll(s, ws[..n], ids);
      var r := RegisterAll(s, ws, ids);
      var kn := Key(r.1[n]);
      assert r.0.slaves == r1.0.slaves[kn := ws[n]];
      forall k | k in r.0.slaves
        ensures k in s.slaves || exists i :: 0 <= i < |ws| && Key(r.1[i]) == k
      {
        if k != kn {
          assert k in r1.0.slaves;
          if k !in s.slaves {
            var i :| 0 <= i < n && Key(r1.1[i]) == k;
            assert r.1[i] == r1.1[i];
          }
        }
      }
    }
  }

  /** After the array form a key not among the returned ids keeps its worker. */
  lemma {:induction false} RegisterAllKeepsOthers(s: State, ws: seq<Worker>, ids: Option<seq<Option<Id>>>, k: string)
    requires k in s.slaves
    requires forall i :: 0 <= i < |ws| ==> Key(DefaultId(ws[i], IdAt(ids, i))) != k
    ensures var r := RegisterAll(s, ws, ids);
            k in r.0.slaves && r.0.slaves[k] == s.slaves[k]
    decreases |ws|
  {
    if ws != [] {
      RegisterAllKeepsOthers(s, ws[..|ws| - 1], ids, k);
    }
  }

  /** After the array form the i-th returned id's slot holds the i-th worker
      unless a later worker was registered under the same key. */
  lemma {:induction false} RegisterAllPairs(s: State, ws: seq<Worker>, ids: Option<seq<Option<Id>>>, i: nat)
    requires i < |ws|
    requires forall j :: i < j < |ws| ==> Key(DefaultId(ws[j], IdAt(ids, j))) != Key(DefaultId(ws[i], IdAt(ids, i)))
    ensures var r := RegisterAll(s, ws, ids);
            Key(r.1[i]) in r.0.slaves && r.0.slaves[Key(r.1[i])] == ws[i]
    decreases |ws|
  {
    var n := |ws| - 1;
    var pre := ws[..n];
    var r1 := RegisterAll(s, pre, ids);
    var r := RegisterAll(s, ws, ids);
    var ki := Key(DefaultId(ws[i], IdAt(ids, i)));
    var kn := Key(DefaultId(ws[n], IdAt(ids, n)));
    assert r.0.slaves == r1.0.slaves[kn := ws[n]];
    if i < n {
      assert forall j :: i <= j < n ==> pre[j] == ws[j];
      RegisterAllPairs(s, pre, ids, i);
      assert ki != kn && r1.1[i] == r.1[i];
    }
  }

  /** Workers registered without ids under distinct pids get distinct keys. */
  lemma PidsGiveDistinctKeys(s: State, ws: seq<Worker>)
    requires forall i, j :: 0 <= i < j < |ws| ==> ws[i].pid != ws[j].pid
    ensures var r := RegisterAll(s, ws, None);
            forall i, j :: 0 <= i < j < |ws| ==> Key(r.1[i]) != Key(r.1[j])
  {
    var r := RegisterAll(s, ws, None);
    forall i, j | 0 <= i < j < |ws|
      ensures Key(r.1[i]) != Key(r.1[j])
    {
      assert r.1[i] == NumId(ws[i].pid) && r.1[j] == NumId(ws[j].pid);
      if Key(r.1[i]) == Key(r.1[j]) {
        NumKeyInjective(ws[i].pid, ws[j].pid);
      }
    }
  }

  // ----------------------------------------------------------------- sendMsg

  /** order lists every element of xs exactly once. */
  ghost predicate Enumerates<T>(order: seq<T>, xs: set<T>) {
    && (forall i, j :: 0 <= i < j < |order| ==> order[i] != order[j])
    && (forall x :: x in xs ==> x in order)
    && (forall i :: 0 <= i < |order| ==> order[i] in xs)
  }

  function Deliveries(slaves: map<string, Worker>, order: seq<string>, m: Msg): (ds: seq<Delivery>)
    requires forall i :: 0 <= i < |order| ==> order[i] in slaves
    ensures |ds| == |order|
    ensures forall i :: 0 <= i < |order| ==> ds[i] == Delivery(order[i], slaves[order[i]], m)
    decreases |order|
  {
    if order == [] then []
    else Deliveries(slaves, order[..|order| - 1], m) + [Delivery(order[|order| - 1], slaves[order[|order| - 1]], m)]
  }

  /** The source's _sendMsg to one id: fails on an unregistered id. */
  function Unicast(s: State, m: Msg, id: Id): (r: Result<State>)
    ensures r.Err? <==> Key(id) !in s.slaves
    ensures r.Ok? ==> && r.value.(sent := s.sent) == s
                      && r.value.sent == s.sent + [Delivery(Key(id), s.slaves[Key(id)], m)]
  {
    var k := Key(id);
    if k !in s.slaves then Err("Invalid process ID: %s")
    else Ok(s.(sent := s.sent + [Delivery(k, s.slaves[k], m)]))
  }

  /** The source's _sendMsg without an id: one write per registered key, in
      the object's key order, which the model leaves open as `order`. */
  function Broadcast(s: State, m: Msg, order: seq<string>): (t: State)
    requires Enumerates(order, s.slaves.Keys)
    ensures t.(sent := s.sent) == s
    ensures |t.sent| == |s.sent| + |s.slaves| && t.sent[..|s.sent|] == s.sent
    ensures forall d :: d in t.sent[|s.sent|..] ==> d.key in s.slaves && d.worker == s.slaves[d.key] && d.msg == m
    ensures forall k :: CountTo(t.sent[|s.sent|..], k) == if k in s.slaves then 1 else 0
  {
    DistinctLength(order, s.slaves.Keys);
    CountAllDeliveries(s.slaves, order, m);
    var t := s.(sent := s.sent + Deliveries(s.slaves, order, m));
    assert t.sent[|s.sent|..] == Deliveries(s.slaves, order, m);
    t
  }

  function SendMsg(s: State, content: Value, id: Option<Id>, order: seq<string>): (r: Result<State>)
    requires id.None? ==> Enumerates(order, s.slaves.Keys)
    ensures r.Ok? ==> r.value.(sent := s.sent) == s && |r.value.sent| >= |s.sent|
                      && r.value.sent[..|s.sent|] == s.sent
  {
    if id.Some? then Unicast(s, GenMessage(content), id.value)
    else Ok(Broadcast(s, GenMessage(content), order))
  }

  /** How many deliveries are addressed to key k. */
  function CountTo(ds: seq<Delivery>, k: string): nat
    decreases |ds|
  {
    if ds == [] then 0
    else CountTo(ds[..|ds| - 1], k) + (if ds[|ds| - 1].key == k then 1 else 0)
  }

  lemma {:induction false} CountToAppend(a: seq<Delivery>, b: seq<Delivery>, k: string)
    ensures CountTo(a + b, k) == CountTo(a, k) + CountTo(b, k)
    decreases |b|
  {
    if b == [] {
      assert a + b == a;
    } else {
      var n := |b| - 1;
      assert (a + b)[..|a + b| - 1] == a + b[..n];
      CountToAppend(a, b[..n], k);
    }
  }

  /** CountDeliveries for every key at once. */
  lemma CountAllDeliveries(slaves: map<string, Worker>, order: seq<string>, m: Msg)
    requires forall i :: 0 <= i < |order| ==> order[i] in slaves
    requires forall i, j :: 0 <= i < j < |order| ==> order[i] != order[j]
    ensures forall k :: CountTo(Deliveries(slaves, order, m), k) == if k in order then 1 else 0
  {
    forall k
      ensures CountTo(Deliveries(slaves, order, m), k) == if k in order then 1 else 0
    {
      CountDeliveries(slaves, order, m, k);
    }
  }

  lemma {:induction false} CountDeliveries(slaves: map<string, Worker>, order: seq<string>, m: Msg, k: string)
    requires forall i :: 0 <= i < |order| ==> order[i] in slaves
    requires forall i, j :: 0 <= i < j < |order| ==> order[i] != order[j]
    ensures CountTo(Deliveries(slaves, order, m), k) == if k in order then 1 else 0
    decreases |order|
  {
    if order != [] {
      var n := |order| - 1;
      var front := order[..n];
      CountDeliveries(slaves, front, m, k);
      assert order == front + [order[n]];
      assert k in order <==> k in front || k == order[n];
      assert order[n] in front ==> false;
    }
  }

  /** A broadcast writes the note exactly once to every registered key and to
      no other key, whatever the iteration order. */
  lemma BroadcastReachesEachOnce(s: State, content: Value, order: seq<string>, k: string)
    requires Enumerates(order, s.slaves.Keys)
    ensures var t := SendMsg(s, content, None, order);
            && t.Ok?
            && t.value.sent[..|s.sent|] == s.sent
            && CountTo(t.value.sent[|s.sent|..], k) == (if k in s.slaves then 1 else 0)
            && (forall d :: d in t.value.sent[|s.sent|..] ==> d.msg == GenMessage(content) && d.worker == s.slaves[d.key])
            && t.value.(sent := s.sent) == s
  {
    var t := SendMsg(s, content, None, order).value;
    var ds := Deliveries(s.slaves, order, GenMessage(content));
    assert t.sent == s.sent + ds;
    assert t.sent[|s.sent|..] == ds;
    CountDeliveries(s.slaves, order, GenMessage(content), k);
  }

  /** A unicast writes exactly one note, to that worker, or fails on an
      unregistered id and changes nothing. */
  lemma UnicastReachesOne(s: State, content: Value, id: Id)
    ensures var t := SendMsg(s, content, Some(id), []);
            && (t.Err? <==> Key(id) !in s.slaves)
            && (t.Ok? ==> t.value == s.(sent := s.sent + [Delivery(Key(id), s.slaves[Key(id)], GenMessage(content))]))
  {
  }

  // ------------------------------------------------------------- sendRequest

  /** The source's sendRequest. A missing or unregistered id fails through the
      callback; otherwise the worker's counter is read and incremented, the
      callback is stored under that id with the current time, and one request
      carrying that id is written to the worker. */
  function SendRequest(s: State, content: Value, id: Option<Id>, cb: nat, now: int): (t: State)
    requires Valid(s)
    ensures Valid(t)
  {
    if id.None? then s.(calls := s.calls + [Completed(cb, Failed(MissingProcessId))])
    else
      var k := Key(id.value);
      if k !in s.slaves then s.(calls := s.calls + [Completed(cb, Failed(InvalidProcessId(id.value)))])
      else
        var r := s.counters[k];
        s.(counters := s.counters[k := r + 1],
           tables := s.tables[k := s.tables[k][r := Entry(cb, now)]],
           sent := s.sent + [Delivery(k, s.slaves[k], GenRequest(content, Some(r)).value)])
  }

  /** Rejections invoke the callback once with the error and touch nothing else. */
  lemma SendRequestRejects(s: State, content: Value, id: Option<Id>, cb: nat, now: int)
    requires Valid(s)
    requires id.None? || Key(id.value) !in s.slaves
    ensures var t := SendRequest(s, content, id, cb, now);
            t == s.(calls := s.calls + [Completed(cb, Failed(
                      if id.None? then MissingProcessId else InvalidProcessId(id.value)))])
  {
  }

  /** On a registered worker the request id is the counter's old value, the
      counter moves up by one, the entry is stored, and exactly one request
      with that id goes to that worker; no other worker's state changes. */
  lemma SendRequestAllocates(s: State, content: Value, id: Id, cb: nat, now: int)
    requires Valid(s) && Key(id) in s.slaves
    ensures var k := Key(id);
            var r := s.counters[k];
            var t := SendRequest(s, content, Some(id), cb, now);
            && Valid(t)
            && r !in s.tables[k]
            && t.counters == s.counters[k := r + 1]
            && t.tables == s.tables[k := s.tables[k][r := Entry(cb, now)]]
            && t.sent == s.sent + [Delivery(k, s.slaves[k], Msg(REQUEST, Some(r), None, content))]
            && t.calls == s.calls && t.slaves == s.slaves && t.listeners == s.listeners
            && t.messageCb == s.messageCb && t.closeCb == s.closeCb && t.errorCb == s.errorCb
  {
  }

  // ------------------------------------------------------- inbound messages

  /** The reply a pending callback receives for a response message. */
  function ReplyFor(m: Msg): (r: Reply)
    ensures r.Failed? <==> m.status == Some(ERROR)
    ensures r.Failed? ==> r.error == Remote(m.content)
    ensures r.Answered? ==> r.content == m.content
  {
    if m.status == Some(ERROR) then Failed(Remote(m.content)) else Answered(m.content)
  }

  /** The switch of the channel's message listener for worker `id`. The flag
      says whether the listener reached the sweep: it does not when the tag
      is unknown, when the message callback throws, or when a response
      arrives for an id whose pending table is gone (reading it throws). */
  function Dispatch(s: State, id: Id, m: Msg, messageCbThrows: bool): (r: (State, bool))
    ensures Valid(s) ==> Valid(r.0)
    ensures r.0.sent == s.sent && r.0.slaves == s.slaves && r.0.counters == s.counters
  {
    var k := Key(id);
    if m.tag == MESSAGE then
      (s.(calls := s.calls + [MessageCb(s.messageCb, id, m.content)]),
       !(messageCbThrows && s.messageCb.Fn?))
    else if m.tag == RESPONSE then
      if k !in s.tables then (s, false)
      else if m.reqId.Some? && m.reqId.value in s.tables[k] then
        var e := s.tables[k][m.reqId.value];
        (s.(calls := s.calls + [Completed(e.cb, ReplyFor(m))],
            tables := s.tables[k := s.tables[k] - {m.reqId.value}]), true)
      else (s, true)
    else (s, false)
  }

  /** A response for a pending id runs its callback once, with the remote
      error when status is 'error' and with the content otherwise, and
      removes the entry; a response for any other id changes nothing. */
  lemma ResponseCorrelates(s: State, id: Id, m: Msg, throws: bool)
    requires Valid(s) && m.tag == RESPONSE && Key(id) in s.tables
    ensures var k := Key(id);
            var (t, swept) := Dispatch(s, id, m, throws);
            && swept
            && Valid(t)
            && (m.reqId.Some? && m.reqId.value in s.tables[k] ==>
                  && t.calls == s.calls + [Completed(s.tables[k][m.reqId.value].cb,
                       if m.status == Some(ERROR) then Failed(Remote(m.content)) else Answered(m.content))]
                  && t.tables == s.tables[k := s.tables[k] - {m.reqId.value}]
                  && m.reqId.value !in t.tables[k])
            && (!(m.reqId.Some? && m.reqId.value in s.tables[k]) ==> t == s)
            && t.(tables := s.tables, calls := s.calls) == s
  {
  }

  /** A note from a worker runs the message callback with the worker's id
      and the content; an unknown tag (pong, request, ...) changes nothing
      and skips the sweep. */
  lemma NoteAndUnknownTags(s: State, id: Id, m: Msg, throws: bool)
    requires m.tag != RESPONSE
    ensures var (t, swept) := Dispatch(s, id, m, throws);
            && (m.tag == MESSAGE ==> t == s.(calls := s.calls + [MessageCb(s.messageCb, id, m.content)]))
            && (m.tag == MESSAGE ==> (swept <==> !(throws && s.messageCb.Fn?)))
            && (m.tag != MESSAGE ==> t == s && !swept)
  {
  }

  // ------------------------------------------------------------------- sweep

  predicate IsExpired(e: Entry, now: int) {
    now - e.timestamp > REQUEST_TIMEOUT
  }

  /** Every pending (worker key, request id) older than the timeout. */
  ghost function Expired(tables: map<string, map<int, Entry>>, now: int): set<(string, int)> {
    set k, r | k in tables && r in tables[k] && IsExpired(tables[k][r], now) :: (k, r)
  }

  /** One worker's pending table with the expired entries removed. */
  function Live(t: map<int, Entry>, now: int): (l: map<int, Entry>)
    ensures forall r :: r in l <==> r in t && !IsExpired(t[r], now)
    ensures forall r :: r in l ==> l[r] == t[r]
  {
    map r | r in t && !IsExpired(t[r], now) :: t[r]
  }

  function Swept(tables: map<string, map<int, Entry>>, now: int): (u: map<string, map<int, Entry>>)
    ensures u.Keys == tables.Keys
    ensures forall k :: k in u ==> u[k] == Live(tables[k], now)
  {
    map k | k in tables :: Live(tables[k], now)
  }

  /** The timeout failures for the listed entries, in that order. */
  function TimeoutCalls(tables: map<string, map<int, Entry>>, order: seq<(string, int)>): (cs: seq<Call>)
    requires forall i :: 0 <= i < |order| ==> order[i].0 in tables && order[i].1 in tables[order[i].0]
    ensures |cs| == |order|
    decreases |order|
  {
    if order == [] then []
    else
      var n := |order| - 1;
      TimeoutCalls(tables, order[..n]) + [Completed(tables[order[n].0][order[n].1].cb, Failed(Timeout))]
  }

  /** The i-th timeout failure is the i-th listed entry's callback. */
  lemma {:induction false} TimeoutCallsAt(tables: map<string, map<int, Entry>>, order: seq<(string, int)>)
    requires forall i :: 0 <= i < |order| ==> order[i].0 in tables && order[i].1 in tables[order[i].0]
    ensures forall i :: 0 <= i < |order| ==>
              TimeoutCalls(tables, order)[i] == Completed(tables[order[i].0][order[i].1].cb, Failed(Timeout))
    decreases |order|
  {
    if order != [] {
      TimeoutCallsAt(tables, order[..|order| - 1]);
    }
  }

  /** The source's _cleanupRespHandlers at time now: every expired entry of
      every worker is removed and its callback failed with a timeout, in the
      (unspecified) iteration order `order`. */
  function Sweep(s: State, now: int, order: seq<(string, int)>): (t: State)
    requires Enumerates(order, Expired(s.tables, now))
    ensures Valid(s) ==> Valid(t)
    ensures t.sent == s.sent && t.slaves == s.slaves && t.counters == s.counters
  {
    assert forall i :: 0 <= i < |order| ==> order[i] in Expired(s.tables, now);
    s.(tables := Swept(s.tables, now), calls := s.calls + TimeoutCalls(s.tables, order))
  }

  /** The sweep fails each expired entry exactly once with a timeout, and
      keeps every entry whose age is at most the timeout, untouched. */
  lemma SweepExpiresExactly(s: State, now: int, order: seq<(string, int)>)
    requires Valid(s) && Enumerates(order, Expired(s.tables, now))
    ensures var t := Sweep(s, now, order);
            && Valid(t)
            && t.(tables := s.tables, calls := s.calls) == s
            && t.tables.Keys == s.tables.Keys
            && (forall k, r :: k in s.tables && r in s.tables[k] ==>
                  (r in t.tables[k] <==> now - s.tables[k][r].timestamp <= REQUEST_TIMEOUT))
            && (forall k, r :: k in t.tables && r in t.tables[k] ==> t.tables[k][r] == s.tables[k][r])
            && |t.calls| == |s.calls| + |Expired(s.tables, now)|
            && (forall i :: |s.calls| <= i < |t.calls| ==>
                  exists k, r :: (k, r) in Expired(s.tables, now) && t.calls[i] == Completed(s.tables[k][r].cb, Failed(Timeout)))
            && (forall i :: 0 <= i < |order| ==>
                  && order[i].0 in s.tables && order[i].1 in s.tables[order[i].0]
                  && t.calls[|s.calls| + i] == Completed(s.tables[order[i].0][order[i].1].cb, Failed(Timeout)))
  {
    var t := Sweep(s, now, order);
    DistinctLength(order, Expired(s.tables, now));
    assert forall i :: 0 <= i < |order| ==> order[i] in Expired(s.tables, now);
    TimeoutCallsAt(s.tables, order);
    forall i | |s.calls| <= i < |t.calls|
      ensures exists k, r :: (k, r) in Expired(s.tables, now) && t.calls[i] == Completed(s.tables[k][r].cb, Failed(Timeout))
    {
      var p := order[i - |s.calls|];
      assert p in Expired(s.tables, now);
      assert t.calls[i] == Completed(s.tables[p.0][p.1].cb, Failed(Timeout));
    }
  }

  /** The sweep's i-th failure is the timeout of the i-th entry it visits. */
  lemma SweepFailsAt(s: State, now: int, order: seq<(string, int)>, i: nat)
    requires Enumerates(order, Expired(s.tables, now)) && i < |order|
    ensures order[i].0 in s.tables && order[i].1 in s.tables[order[i].0]
    ensures Sweep(s, now, order).calls[|s.calls| + i]
              == Completed(s.tables[order[i].0][order[i].1].cb, Failed(Timeout))
  {
    assert order[i] in Expired(s.tables, now);
    assert forall j :: 0 <= j < |order| ==> order[j] in Expired(s.tables, now);
    TimeoutCallsAt(s.tables, order);
  }

  lemma {:induction false} DistinctLength<T>(order: seq<T>, xs: set<T>)
    requires Enumerates(order, xs)
    ensures |order| == |xs|
    decreases |order|
  {
    if order != [] {
      var n := |order| - 1;
      var x := order[n];
      assert x in xs;
      assert forall y :: y in order[..n] ==> y != x;
      var front := order[..n];
      forall y
        ensures y in xs - {x} <==> y in front
      {
        if y in xs - {x} {
          assert y in order;
          var i :| 0 <= i < |order| && order[i] == y;
          assert i != n;
          assert front[i] == y;
        }
      }
      DistinctLength(front, xs - {x});
    }
  }

  /** Sweeping twice at the same time is the same as sweeping once. */
  lemma SweptIdempotent(tables: map<string, map<int, Entry>>, now: int)
    ensures Swept(Swept(tables, now), now) == Swept(tables, now)
    ensures Expired(Swept(tables, now), now) == {}
  {
    var u := Swept(tables, now);
    forall k | k in u
      ensures Live(u[k], now) == u[k]
    {
      assert Live(u[k], now).Keys == u[k].Keys;
    }
  }

  /** A later sweep removes at least what an earlier one would. */
  lemma SweepMonotoneInTime(tables: map<string, map<int, Entry>>, t0: int, t1: int)
    requires t0 <= t1
    ensures Expired(tables, t0) <= Expired(tables, t1)
    ensures forall k :: k in tables ==> Live(tables[k], t1).Keys <= Live(tables[k], t0).Keys
  {
  }

  // ---------------------------------------------------------------- cleanup

  /** The source's _cleanup: forgets the worker in all three tables. */
  function Cleanup(s: State, k: string): (t: State)
    ensures Valid(s) ==> Valid(t)
  {
    s.(slaves := s.slaves - {k}, counters := s.counters - {k}, tables := s.tables - {k})
  }

  /** The channel's error listener: cleanup, then errorCb(id, e). */
  function OnError(s: State, id: Id, e: Value): (t: State)
    ensures Valid(s) ==> Valid(t)
    ensures Key(id) !in t.slaves && Key(id) !in t.counters && Key(id) !in t.tables
    ensures t.sent == s.sent && t.calls == s.calls + [ErrorCb(s.errorCb, id, e)]
  {
    var c := Cleanup(s, Key(id));
    c.(calls := c.calls + [ErrorCb(s.errorCb, id, e)])
  }

  /** The channel's close listener: cleanup, then closeCb(id). */
  function OnClose(s: State, id: Id): (t: State)
    ensures Valid(s) ==> Valid(t)
    ensures Key(id) !in t.slaves && Key(id) !in t.counters && Key(id) !in t.tables
    ensures t.sent == s.sent && t.calls == s.calls + [CloseCb(s.closeCb, id)]
  {
    var c := Cleanup(s, Key(id));
    c.(calls := c.calls + [CloseCb(s.closeCb, id)])
  }

  /** On error or close the worker leaves all three tables; its pending
      callbacks are dropped without being run (the only call added is the
      lifecycle callback); every other worker is untouched. */
  lemma CleanupAbandons(s: State, id: Id, e: Value, closing: bool)
    requires Valid(s)
    ensures var k := Key(id);
            var t := if closing then OnClose(s, id) else OnError(s, id, e);
            && Valid(t)
            && k !in t.slaves && k !in t.counters && k !in t.tables
            && (forall j :: j != k ==> (j in t.tables <==> j in s.tables))
            && (forall j :: j != k && j in s.tables ==>
                  t.tables[j] == s.tables[j] && t.slaves[j] == s.slaves[j] && t.counters[j] == s.counters[j])
            && t.calls == s.calls + [if closing then CloseCb(s.closeCb, id) else ErrorCb(s.errorCb, id, e)]
            && t.(slaves := s.slaves, counters := s.counters, tables := s.tables, calls := s.calls) == s
  {
  }

  /** After cleanup the dropped entries are gone for good: a late response on
      that worker's listener runs nothing and skips the sweep, and no sweep
      reaches them. */
  lemma AbandonedNeverRun(s: State, id: Id, e: Value, closing: bool, m: Msg, throws: bool, now: int)
    requires Valid(s) && m.tag == RESPONSE
    ensures var t := if closing then OnClose(s, id) else OnError(s, id, e);
            && Dispatch(t, id, m, throws) == (t, false)
            && forall p :: p in Expired(t.tables, now) ==> p.0 != Key(id)
  {
  }

  // --------------------------------------------------------------- on / off

  /** The master's on: a missing handler fails first, then an unknown event;
      otherwise that one slot is replaced. */
  function On(s: State, event: string, handler: Option<nat>): (r: Result<State>)
    ensures r.Err? <==> handler.None? || (event != MESSAGE_EVENT && event != CLOSE_EVENT && event != ERROR_EVENT)
    ensures r.Ok? ==> && r.value.(messageCb := s.messageCb, closeCb := s.closeCb, errorCb := s.errorCb) == s
                      && r.value.messageCb == (if event == MESSAGE_EVENT then Fn(handler.value) else s.messageCb)
                      && r.value.closeCb == (if event == CLOSE_EVENT then Fn(handler.value) else s.closeCb)
                      && r.value.errorCb == (if event == ERROR_EVENT then Fn(handler.value) else s.errorCb)
  {
    if handler.None? then Err("Handler is null!")
    else if event == MESSAGE_EVENT then Ok(s.(messageCb := Fn(handler.value)))
    else if event == CLOSE_EVENT then Ok(s.(closeCb := Fn(handler.value)))
    else if event == ERROR_EVENT then Ok(s.(errorCb := Fn(handler.value)))
    else Err("Invalid event name: " + event)
  }

  /** The master's off: same checks; the slot goes back to the no-op. */
  function Off(s: State, event: string, handler: Option<nat>): (r: Result<State>)
    ensures r.Err? <==> handler.None? || (event != MESSAGE_EVENT && event != CLOSE_EVENT && event != ERROR_EVENT)
    ensures r.Ok? ==> && r.value.(messageCb := s.messageCb, closeCb := s.closeCb, errorCb := s.errorCb) == s
                      && r.value.messageCb == (if event == MESSAGE_EVENT then Noop else s.messageCb)
                      && r.value.closeCb == (if event == CLOSE_EVENT then Noop else s.closeCb)
                      && r.value.errorCb == (if event == ERROR_EVENT then Noop else s.errorCb)
  {
    if handler.None? then Err("Handler is null!")
    else if event == MESSAGE_EVENT then Ok(s.(messageCb := Noop))
    else if event == CLOSE_EVENT then Ok(s.(closeCb := Noop))
    else if event == ERROR_EVENT then Ok(s.(errorCb := Noop))
    else Err("Invalid event: " + event)
  }

  predicate IsLifecycleEvent(event: string) {
    event == MESSAGE_EVENT || event == CLOSE_EVENT || event == ERROR_EVENT
  }

  /** on and off succeed exactly for a present handler and a known event,
      touch only the named slot, and off after on leaves the no-op. */
  lemma OnOffSlots(s: State, event: string, handler: Option<nat>)
    ensures On(s, event, handler).Err? <==> handler.None? || !IsLifecycleEvent(event)
    ensures Off(s, event, handler).Err? <==> handler.None? || !IsLifecycleEvent(event)
    ensures handler.None? ==> On(s, event, handler) == Off(s, event, handler) == Err("Handler is null!")
    ensures On(s, event, handler).Ok? ==>
              var t := On(s, event, handler).value;
              && t.(messageCb := s.messageCb, closeCb := s.closeCb, errorCb := s.errorCb) == s
              && (if event == MESSAGE_EVENT then t.messageCb else if event == CLOSE_EVENT then t.closeCb else t.errorCb)
                   == Fn(handler.value)
              && Off(t, event, handler).Ok?
              && Off(t, event, handler).value ==
                   (if event == MESSAGE_EVENT then s.(messageCb := Noop)
                    else if event == CLOSE_EVENT then s.(closeCb := Noop) else s.(errorCb := Noop))
  {
  }

  // ----------------------------------------------------------------- traces

  /** Everything that can happen to a master: its public operations and the
      events its channels deliver. Orders are the iteration orders. */
  datatype Event =
    | RegisterEv(w: Worker, id: Option<Id>)
    | SendMsgEv(content: Value, target: Option<Id>, keys: seq<string>)
    | SendRequestEv(content: Value, target: Option<Id>, cb: nat, now: int)
    | OnEv(event: string, handler: Option<nat>)
    | OffEv(event: string, handler: Option<nat>)
    | InboundEv(from: Id, msg: Msg, throws: bool, now: int, expired: seq<(string, int)>)
    | ErrorEv(from: Id, error: Value)
    | CloseEv(from: Id)

  /** An event can happen in s: channel events come from attached
      listeners, and the given orders enumerate what is iterated. */
  ghost predicate Admissible(s: State, e: Event) {
    match e
    case SendMsgEv(_, target, keys) => target.None? ==> Enumerates(keys, s.slaves.Keys)
    case InboundEv(from, msg, throws, now, expired) =>
      from in s.listeners &&
      var (d, swept) := Dispatch(s, from, msg, throws);
      swept ==> Enumerates(expired, Expired(d.tables, now))
    case ErrorEv(from, _) => from in s.listeners
    case CloseEv(from) => from in s.listeners
    case _ => true
  }

  /** The effect of one event. A call that throws to its caller (sendMsg to
      an unknown id, on/off with bad arguments) leaves the state as it was. */
  function Step(s: State, e: Event): (t: State)
    requires Valid(s) && Admissible(s, e)
    ensures Valid(t)
  {
    match e
    case RegisterEv(w, id) => Register(s, w, id).0
    case SendMsgEv(content, target, keys) =>
      var r := SendMsg(s, content, target, keys);
      if r.Ok? then r.value else s
    case SendRequestEv(content, target, cb, now) => SendRequest(s, content, target, cb, now)
    case OnEv(event, handler) => var r := On(s, event, handler); if r.Ok? then r.value else s
    case OffEv(event, handler) => var r := Off(s, event, handler); if r.Ok? then r.value else s
    case InboundEv(from, msg, throws, now, expired) =>
      var (d, swept) := Dispatch(s, from, msg, throws);
      if swept then Sweep(d, now, expired) else d
    case ErrorEv(from, error) => OnError(s, from, error)
    case CloseEv(from) => OnClose(s, from)
  }

  ghost predicate Runs(s: State, evs: seq<Event>)
    decreases |evs|
  {
    Valid(s) && (evs != [] ==> Admissible(s, evs[0]) && Runs(Step(s, evs[0]), evs[1..]))
  }

  ghost function Run(s: State, evs: seq<Event>): (t: State)
    requires Runs(s, evs)
    ensures Valid(t)
    decreases |evs|
  {
    if evs == [] then s else Run(Step(s, evs[0]), evs[1..])
  }

  /** The event re-registers or cleans up the worker slot k. */
  predicate Resets(e: Event, k: string) {
    match e
    case RegisterEv(w, id) => Key(DefaultId(w, id)) == k
    case ErrorEv(from, _) => Key(from) == k
    case CloseEv(from) => Key(from) == k
    case _ => false
  }

  /** The ids of the requests among ds that were addressed to key k. */
  function RequestIds(ds: seq<Delivery>, k: string): seq<int>
    decreases |ds|
  {
    if ds == [] then []
    else
      var d := ds[|ds| - 1];
      RequestIds(ds[..|ds| - 1], k)
        + (if d.key == k && d.msg.tag == REQUEST && d.msg.reqId.Some? then [d.msg.reqId.value] else [])
  }

  lemma {:induction false} RequestIdsAppend(a: seq<Delivery>, b: seq<Delivery>, k: string)
    ensures RequestIds(a + b, k) == RequestIds(a, k) + RequestIds(b, k)
    decreases |b|
  {
    if b == [] {
      assert a + b == a;
    } else {
      var n := |b| - 1;
      assert (a + b)[..|a + b| - 1] == a + b[..n];
      RequestIdsAppend(a, b[..n], k);
    }
  }

  lemma {:induction false} NoRequestIds(ds: seq<Delivery>, k: string)
    requires forall i :: 0 <= i < |ds| ==> ds[i].msg.tag != REQUEST
    ensures RequestIds(ds, k) == []
    decreases |ds|
  {
    if ds != [] {
      NoRequestIds(ds[..|ds| - 1], k);
    }
  }

  predicate StrictlyIncreasing(xs: seq<int>) {
    forall i, j :: 0 <= i < j < |xs| ==> xs[i] < xs[j]
  }

  /** What one event writes to the channels. */
  function Written(s: State, e: Event): seq<Delivery>
    requires Valid(s) && Admissible(s, e)
  {
    match e
    case SendMsgEv(content, target, keys) =>
      if target.None? then Deliveries(s.slaves, keys, GenMessage(content))
      else if Key(target.value) in s.slaves
      then [Delivery(Key(target.value), s.slaves[Key(target.value)], GenMessage(content))]
      else []
    case SendRequestEv(content, target, cb, now) =>
      if target.Some? && Key(target.value) in s.slaves
      then [Delivery(Key(target.value), s.slaves[Key(target.value)],
                     Msg(REQUEST, Some(s.counters[Key(target.value)]), None, content))]
      else []
    case _ => []
  }

  /** Every event only appends to the channels' log. */
  lemma StepWrites(s: State, e: Event)
    requires Valid(s) && Admissible(s, e)
    ensures Step(s, e).sent == s.sent + Written(s, e)
  {
    match e {
      case InboundEv(from, msg, throws, now, expired) =>
        var (d, swept) := Dispatch(s, from, msg, throws);
        assert d.sent == s.sent;
      case _ =>
    }
  }

  /** An event that does not reset slot k keeps k registered and changes
      its counter only by a request to k, which adds one. */
  lemma StepCounter(s: State, e: Event, k: string)
    requires Valid(s) && Admissible(s, e) && k in s.counters && !Resets(e, k)
    ensures var t := Step(s, e);
            && k in t.counters
            && t.counters[k] == if e.SendRequestEv? && e.target.Some? && Key(e.target.value) == k
                                then s.counters[k] + 1 else s.counters[k]
  {
    match e {
      case InboundEv(from, msg, throws, now, expired) =>
        var (d, swept) := Dispatch(s, from, msg, throws);
        assert d.counters == s.counters;
      case _ =>
    }
  }

  /** One event that does not reset slot k sends at most one request to k:
      one carrying the counter's old value, after which the counter has moved
      past it. */
  lemma StepRequestIds(s: State, e: Event, k: string)
    requires Valid(s) && Admissible(s, e) && k in s.counters && !Resets(e, k)
    ensures var t := Step(s, e);
            && k in t.counters
            && |s.sent| <= |t.sent| && t.sent[..|s.sent|] == s.sent
            && var ids := RequestIds(t.sent[|s.sent|..], k);
               (ids == [] && t.counters[k] == s.counters[k])
               || (ids == [s.counters[k]] && t.counters[k] == s.counters[k] + 1)
  {
    StepWrites(s, e);
    StepCounter(s, e, k);
    WrittenRequestIds(s, e, k);
    var t := Step(s, e);
    assert t.sent[|s.sent|..] == Written(s, e);
  }

  lemma WrittenRequestIds(s: State, e: Event, k: string)
    requires Valid(s) && Admissible(s, e) && k in s.counters
    ensures RequestIds(Written(s, e), k) ==
              if e.SendRequestEv? && e.target.Some? && Key(e.target.value) == k
              then [s.counters[k]] else []
  {
    var added := Written(s, e);
    if e.SendRequestEv? && e.target.Some? && Key(e.target.value) in s.slaves {
      assert added[..0] == [];
    } else if e.SendMsgEv? {
      NoRequestIds(added, k);
    }
  }

  /** Within one registration the request ids a worker receives are strictly
      increasing, hence never repeat: over any run that neither
      re-registers nor cleans up slot k, the ids sent to k are increasing,
      start at the counter's value and stay below its final value. */
  lemma {:induction false} RequestIdsIncrease(s: State, evs: seq<Event>, k: string)
    requires Runs(s, evs) && k in s.counters
    requires forall e :: e in evs ==> !Resets(e, k)
    ensures var t := Run(s, evs);
            && k in t.counters && s.counters[k] <= t.counters[k]
            && |s.sent| <= |t.sent| && t.sent[..|s.sent|] == s.sent
            && var ids := RequestIds(t.sent[|s.sent|..], k);
               && StrictlyIncreasing(ids)
               && forall i :: 0 <= i < |ids| ==> s.counters[k] <= ids[i] < t.counters[k]
    decreases |evs|
  {
    if evs != [] {
      var s1 := Step(s, evs[0]);
      assert Runs(s1, evs[1..]);
      StepRequestIds(s, evs[0], k);
      assert forall e :: e in evs[1..] ==> e in evs;
      RequestIdsIncrease(s1, evs[1..], k);
      var t := Run(s1, evs[1..]);
      assert Run(s, evs) == t;
      var first := s1.sent[|s.sent|..];
      var rest := t.sent[|s1.sent|..];
      PrefixJoin(s.sent, s1.sent, t.sent);
      RequestIdsAppend(first, rest, k);
      JoinIncreasing(RequestIds(first, k), RequestIds(rest, k), s.counters[k], s1.counters[k], t.counters[k]);
    }
  }

  lemma PrefixJoin<T>(x: seq<T>, y: seq<T>, z: seq<T>)
    requires |x| <= |y| <= |z| && y[..|x|] == x && z[..|y|] == y
    ensures z[..|x|] == x && z[|x|..] == y[|x|..] + z[|y|..]
  {
    assert z[..|x|] == z[..|y|][..|x|];
  }

  lemma JoinIncreasing(a: seq<int>, b: seq<int>, lo: int, mid: int, hi: int)
    requires (a == [] && mid == lo) || (a == [lo] && mid == lo + 1)
    requires mid <= hi
    requires StrictlyIncreasing(b) && forall i :: 0 <= i < |b| ==> mid <= b[i] < hi
    ensures StrictlyIncreasing(a + b) && forall i :: 0 <= i < |a + b| ==> lo <= (a + b)[i] < hi
  {
  }
}
