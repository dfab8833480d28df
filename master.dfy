/** The parent side of the protocol (MasterProcess in src/processmanager.js).
    The object's fields are updated in place, as in the source; each method
    is proved to perform the corresponding transition of module Registry,
    where the protocol's properties are stated and proved. */
module Master {
  import opened JsValues
  import opened Messages
  import opened Registry

  class MasterProcess {
    /** slaveH: the registered worker handles, by property key. */
    var slaves: map<string, Worker>
    /** currReqIdH: the next request id of each worker. */
    var counters: map<string, nat>
    /** procReqCbH: the pending requests of each worker. */
    var tables: map<string, map<int, Entry>>
    var messageCb: Callback
    var closeCb: Callback
    var errorCb: Callback
    /** The ids whose channel listeners have been attached. */
    var listeners: set<Id>
    /** Every write to a worker channel, in order. */
    var sent: seq<Delivery>
    /** Every run of user code by this object, in order. */
    var calls: seq<Call>

    /** The object's fields as one Registry state. */
    ghost function State(): Registry.State
      reads this
    {
      Registry.State(slaves, counters, tables, messageCb, closeCb, errorCb, listeners, sent, calls)
    }

    ghost predicate Valid()
      reads this
    {
      Registry.Valid(State())
    }

    constructor ()
      ensures State() == Init()
      ensures Valid()
    {
      slaves := map[];
      messageCb := Noop;
      counters := map[];
      tables := map[];
      closeCb := Noop;
      errorCb := Noop;
      listeners := {};
      sent := [];
      calls := [];
    }

    // ------------------------------------------------------------ register

    /** register with a single worker, which is _initSlave. */
    method Register(w: Worker, id: Option<Id>) returns (i: Id)
      modifies this
      ensures (State(), i) == Registry.Register(old(State()), w, id)
    {
      i := if id.None? then NumId(w.pid) else id.value;
      var k := Key(i);
      slaves := slaves[k := w];
      counters := counters[k := 0];
      tables := tables[k := map[]];
      listeners := listeners + {i};
    }

    /** register with an array of workers and, optionally, an array of ids. */
    method RegisterArray(ws: seq<Worker>, ids: Option<seq<Option<Id>>>) returns (out: seq<Id>)
      modifies this
      ensures (State(), out) == RegisterAll(old(State()), ws, ids)
    {
      out := [];
      var n := 0;
      ghost var s0 := State();
      while n < |ws|
        invariant 0 <= n <= |ws|
        invariant (State(), out) == RegisterAll(s0, ws[..n], ids)
      {
        var slaveId := if ids.Some? && n < |ids.value| then ids.value[n] else None;
        ghost var pre := State();
        var i := Register(ws[n], slaveId);
        RegisterAllSnoc(s0, ws, ids, n, pre, out, slaveId, State(), i);
        out := out + [i];
        n := n + 1;
      }
      assert ws[..n] == ws;
    }

    // ------------------------------------------------------------- sendMsg

    method SendMsg(content: Value, id: Option<Id>) returns (err: Option<string>, ghost keys: seq<string>)
      modifies this
      ensures id.None? ==> Enumerates(keys, old(slaves).Keys)
      ensures var r := Registry.SendMsg(old(State()), content, id, keys);
              && (err.Some? <==> r.Err?)
              && (r.Err? ==> err == Some(r.error) && State() == old(State()))
              && (r.Ok? ==> State() == r.value)
    {
      err, keys := SendTo(GenMessage(content), id);
    }

    /** _sendMsg: to one worker, or to every registered key in turn. */
    method SendTo(m: Msg, id: Option<Id>) returns (err: Option<string>, ghost keys: seq<string>)
      modifies this
      ensures id.None? ==> && Enumerates(keys, old(slaves).Keys) && err.None?
                           && State() == Broadcast(old(State()), m, keys)
      ensures id.Some? ==> var r := Unicast(old(State()), m, id.value);
                           && (err.Some? <==> r.Err?)
                           && (r.Err? ==> err == Some(r.error) && State() == old(State()))
                           && (r.Ok? ==> State() == r.value)
    {
      keys := [];
      if id.Some? {
        var k := Key(id.value);
        if k !in slaves {
          return Some("Invalid process ID: %s"), keys;
        }
        Deliver(k, m);
        return None, keys;
      }
      keys := SendToAll(m);
      err := None;
    }

    /** The else branch of _sendMsg: the loop over every registered key. */
    method SendToAll(m: Msg) returns (ghost keys: seq<string>)
      modifies this
      ensures Enumerates(keys, old(slaves).Keys)
      ensures sent == old(sent) + Deliveries(old(slaves), keys, m)
      ensures slaves == old(slaves) && counters == old(counters) && tables == old(tables)
      ensures listeners == old(listeners) && calls == old(calls)
      ensures messageCb == old(messageCb) && closeCb == old(closeCb) && errorCb == old(errorCb)
    {
      keys := [];
      var rest := slaves.Keys;
      while rest != {}
        invariant rest <= slaves.Keys
        invariant slaves == old(slaves)
        invariant forall i, j :: 0 <= i < j < |keys| ==> keys[i] != keys[j]
        invariant forall i :: 0 <= i < |keys| ==> keys[i] in slaves && keys[i] !in rest
        invariant forall k :: k in slaves && k !in rest ==> k in keys
        invariant sent == old(sent) + Deliveries(slaves, keys, m)
        invariant counters == old(counters) && tables == old(tables) && listeners == old(listeners)
        invariant messageCb == old(messageCb) && closeCb == old(closeCb) && errorCb == old(errorCb)
        invariant calls == old(calls)
        decreases rest
      {
        var k :| k in rest;
        ghost var before := keys;
        ghost var d := Delivery(k, slaves[k], m);
        Deliver(k, m);
        keys := keys + [k];
        assert keys[..|keys| - 1] == before;
        assert Deliveries(slaves, keys, m) == Deliveries(slaves, before, m) + [d];
        AppendAssoc(old(sent), Deliveries(slaves, before, m), [d]);
        rest := rest - {k};
      }
    }

    /** The write _sendMsg makes for a registered key. Inside the broadcast
        loop the source calls _sendMsg again with each key, which always
        takes this path, since every key it enumerates is registered. */
    method Deliver(k: string, m: Msg)
      requires k in slaves
      modifies this
      ensures sent == old(sent) + [Delivery(k, old(slaves)[k], m)]
      ensures slaves == old(slaves) && counters == old(counters) && tables == old(tables)
      ensures listeners == old(listeners) && calls == old(calls)
      ensures messageCb == old(messageCb) && closeCb == old(closeCb) && errorCb == old(errorCb)
    {
      sent := sent + [Delivery(k, slaves[k], m)];
    }

    // --------------------------------------------------------- sendRequest

    method SendRequest(content: Value, id: Option<Id>, cb: nat, now: int)
      requires Valid()
      modifies this
      ensures State() == Registry.SendRequest(old(State()), content, id, cb, now)
      ensures Valid()
    {
      if id.None? {
        calls := calls + [Completed(cb, Failed(MissingProcessId))];
        return;
      }
      if Key(id.value) !in slaves {
        calls := calls + [Completed(cb, Failed(InvalidProcessId(id.value)))];
        return;
      }
      var reqId := GenReqId(id.value);
      var req := GenRequest(content, Some(reqId));
      OnResponse(id.value, reqId, cb, now);
      var e, _ := SendTo(req.value, id);
    }

    /** _genReqId: the counter's value, incremented after it is read. */
    method GenReqId(id: Id) returns (r: nat)
      requires Key(id) in counters
      modifies this
      ensures r == old(counters)[Key(id)]
      ensures State() == old(State()).(counters := old(counters)[Key(id) := r + 1])
    {
      var k := Key(id);
      r := counters[k];
      counters := counters[k := r + 1];
    }

    /** _onResponse: stores the callback under the request id, stamped now. */
    method OnResponse(id: Id, reqId: int, cb: nat, now: int)
      requires Key(id) in tables
      modifies this
      ensures State() == old(State()).(tables := old(tables)[Key(id) := old(tables)[Key(id)][reqId := Entry(cb, now)]])
    {
      var k := Key(id);
      tables := tables[k := tables[k][reqId := Entry(cb, now)]];
    }

    /** _offResponse: forgets the request id. */
    method OffResponse(id: Id, reqId: int)
      requires Key(id) in tables
      modifies this
      ensures State() == old(State()).(tables := old(tables)[Key(id) := old(tables)[Key(id)] - {reqId}])
    {
      var k := Key(id);
      tables := tables[k := tables[k] - {reqId}];
    }

    // -------------------------------------------------------------- on / off

    method On(event: string, handler: Option<nat>) returns (err: Option<string>)
      modifies this
      ensures var r := Registry.On(old(State()), event, handler);
              && (err.Some? <==> r.Err?)
              && (r.Err? ==> err == Some(r.error) && State() == old(State()))
              && (r.Ok? ==> State() == r.value)
    {
      if handler.None? {
        return Some("Handler is null!");
      }
      if event == MESSAGE_EVENT {
        messageCb := Fn(handler.value);
      } else if event == CLOSE_EVENT {
        closeCb := Fn(handler.value);
      } else if event == ERROR_EVENT {
        errorCb := Fn(handler.value);
      } else {
        return Some("Invalid event name: " + event);
      }
      err := None;
    }

    method Off(event: string, handler: Option<nat>) returns (err: Option<string>)
      modifies this
      ensures var r := Registry.Off(old(State()), event, handler);
              && (err.Some? <==> r.Err?)
              && (r.Err? ==> err == Some(r.error) && State() == old(State()))
              && (r.Ok? ==> State() == r.value)
    {
      if handler.None? {
        return Some("Handler is null!");
      }
      if event == MESSAGE_EVENT {
        messageCb := Noop;
      } else if event == CLOSE_EVENT {
        closeCb := Noop;
      } else if event == ERROR_EVENT {
        errorCb := Noop;
      } else {
        return Some("Invalid event: " + event);
      }
      err := None;
    }

    // ------------------------------------------------------ channel events

    /** The message listener attached for worker `id`: the switch on the tag,
        then the sweep at time now unless the switch threw. */
    method OnSlaveMessage(id: Id, msg: Msg, messageCbThrows: bool, now: int)
        returns (ghost expired: seq<(string, int)>)
      requires id in listeners
      modifies this
      ensures var (d, swept) := Dispatch(old(State()), id, msg, messageCbThrows);
              && (swept ==> Enumerates(expired, Expired(d.tables, now)) && State() == Sweep(d, now, expired))
              && (!swept ==> State() == d)
    {
      expired := [];
      var swept := OnSlaveMessageSwitch(id, msg, messageCbThrows);
      if swept {
        expired := CleanupRespHandlers(now);
      }
    }

    /** The switch of the message listener; false when it throws, or when
        the tag is unknown, so that the sweep after it is skipped. */
    method OnSlaveMessageSwitch(id: Id, msg: Msg, messageCbThrows: bool) returns (swept: bool)
      modifies this
      ensures (State(), swept) == Dispatch(old(State()), id, msg, messageCbThrows)
    {
      var k := Key(id);
      if msg.tag == MESSAGE {
        calls := calls + [MessageCb(messageCb, id, msg.content)];
        return !(messageCbThrows && messageCb.Fn?);
      } else if msg.tag == RESPONSE {
        if k !in tables {
          return false;
        }
        if msg.reqId.Some? && msg.reqId.value in tables[k] {
          var reqId := msg.reqId.value;
          var conf := tables[k][reqId];
          if msg.status == Some(ERROR) {
            calls := calls + [Completed(conf.cb, Failed(Remote(msg.content)))];
          } else {
            OffResponse(id, reqId);
            calls := calls + [Completed(conf.cb, Answered(msg.content))];
          }
          tables := tables[k := tables[k] - {reqId}];
          assert tables[k] == old(tables)[k] - {reqId};
          assert tables == old(tables)[k := old(tables)[k] - {reqId}];
          assert calls == old(calls) + [Completed(conf.cb, ReplyFor(msg))];
        }
        return true;
      }
      return false;
    }

    /** The error listener attached for worker `id`. */
    method OnSlaveError(id: Id, e: Value)
      requires id in listeners
      modifies this
      ensures State() == OnError(old(State()), id, e)
    {
      Cleanup(id);
      calls := calls + [ErrorCb(errorCb, id, e)];
    }

    /** The close listener attached for worker `id`. */
    method OnSlaveClose(id: Id)
      requires id in listeners
      modifies this
      ensures State() == OnClose(old(State()), id)
    {
      Cleanup(id);
      calls := calls + [CloseCb(closeCb, id)];
    }

    /** _cleanup: removes the worker from the three tables. */
    method Cleanup(id: Id)
      modifies this
      ensures State() == Registry.Cleanup(old(State()), Key(id))
    {
      var k := Key(id);
      slaves := slaves - {k};
      counters := counters - {k};
      tables := tables - {k};
    }

    /** _cleanupRespHandlers at time now: visits every worker's pending table,
        in an order the model leaves open, and fails and removes each entry
        older than the timeout. `order` is the order they were failed in. */
    method CleanupRespHandlers(now: int) returns (ghost order: seq<(string, int)>)
      modifies this
      ensures Enumerates(order, Expired(old(tables), now))
      ensures State() == Sweep(old(State()), now, order)
    {
      ghost var orig := tables;
      order := [];
      var todo := tables.Keys;
      while todo != {}
        invariant SweepInv(orig, tables, todo, order, now)
        invariant calls == old(calls) + TimeoutCalls(orig, order)
        invariant slaves == old(slaves) && counters == old(counters) && listeners == old(listeners)
        invariant messageCb == old(messageCb) && closeCb == old(closeCb) && errorCb == old(errorCb)
        invariant sent == old(sent)
        decreases todo
      {
        var k :| k in todo;
        ghost var before := tables;
        ghost var c0 := calls;
        ghost var done := SweepWorker(k, now);
        SweepStep(orig, before, todo, k, order, done, now);
        ghost var a := TimeoutCalls(orig, order);
        ghost var b := TimeoutCalls(before, done);
        assert calls == c0 + b;
        AppendAssoc(old(calls), a, b);
        order := order + done;
        todo := todo - {k};
      }
      SweepComplete(orig, tables, order, now);
    }

    /** The inner loop of the sweep, over one worker's pending table. */
    method SweepWorker(k: string, now: int) returns (ghost done: seq<(string, int)>)
      requires k in tables
      modifies this
      ensures tables == old(tables)[k := Live(old(tables)[k], now)]
      ensures forall i, j :: 0 <= i < j < |done| ==> done[i] != done[j]
      ensures forall i :: 0 <= i < |done| ==>
                done[i].0 == k && done[i].1 in old(tables)[k] && IsExpired(old(tables)[k][done[i].1], now)
      ensures forall r :: r in old(tables)[k] && IsExpired(old(tables)[k][r], now) ==> (k, r) in done
      ensures calls == old(calls) + TimeoutCalls(old(tables), done)
      ensures slaves == old(slaves) && counters == old(counters) && listeners == old(listeners)
      ensures messageCb == old(messageCb) && closeCb == old(closeCb) && errorCb == old(errorCb)
      ensures sent == old(sent)
    {
      var live, fired;
      live, fired, done := SweepTable(tables, k, now);
      tables := tables[k := live];
      calls := calls + fired;
    }
  }

  /** The loop over one worker's pending table `tables[k]`: the entries
      left, the timeout failures in the order they ran, and which ids those
      were. */
  method SweepTable(tables: map<string, map<int, Entry>>, k: string, now: int)
      returns (procHandlers: map<int, Entry>, fired: seq<Call>, ghost done: seq<(string, int)>)
    requires k in tables
    ensures procHandlers == Live(tables[k], now)
    ensures forall i, j :: 0 <= i < j < |done| ==> done[i] != done[j]
    ensures forall i :: 0 <= i < |done| ==>
              done[i].0 == k && done[i].1 in tables[k] && IsExpired(tables[k][done[i].1], now)
    ensures forall r :: r in tables[k] && IsExpired(tables[k][r], now) ==> (k, r) in done
    ensures fired == TimeoutCalls(tables, done)
  {
    ghost var t0 := tables[k];
    procHandlers := tables[k];
    fired := [];
    done := [];
    var ids := procHandlers.Keys;
    while ids != {}
      invariant ids <= t0.Keys
      invariant forall r :: r in procHandlers <==> r in t0 && (r in ids || !IsExpired(t0[r], now))
      invariant forall r :: r in procHandlers ==> procHandlers[r] == t0[r]
      invariant forall i, j :: 0 <= i < j < |done| ==> done[i] != done[j]
      invariant forall i :: 0 <= i < |done| ==>
                  done[i].0 == k && done[i].1 in t0 && IsExpired(t0[done[i].1], now) && done[i].1 !in ids
      invariant forall r :: r in t0 && r !in ids && IsExpired(t0[r], now) ==> (k, r) in done
      invariant fired == TimeoutCalls(tables, done)
      decreases ids
    {
      assert exists r :: r in ids by {
        var x := PickOne(ids);
      }
      var r :| r in ids;
      var conf := procHandlers[r];
      if now - conf.timestamp > REQUEST_TIMEOUT {
        ghost var before := done;
        fired := fired + [Completed(conf.cb, Failed(Timeout))];
        procHandlers := procHandlers - {r};
        done := done + [(k, r)];
        assert done[..|done| - 1] == before;
      }
      ids := ids - {r};
    }
    var live := Live(t0, now);
    forall r
      ensures r in procHandlers <==> r in live
    {
      assert r !in ids;
    }
    assert procHandlers.Keys == live.Keys;
    assert forall r :: r in procHandlers ==> procHandlers[r] == live[r];
    assert procHandlers == live;
  }

  /** The outer loop's invariant: the workers already visited (those not in
      todo) hold only their live entries, the others are untouched, and
      `order` lists each expired entry of the visited workers once. */
  ghost predicate SweepInv(orig: map<string, map<int, Entry>>, cur: map<string, map<int, Entry>>,
                           todo: set<string>, order: seq<(string, int)>, now: int)
  {
    && todo <= orig.Keys && cur.Keys == orig.Keys
    && (forall k :: k in todo ==> cur[k] == orig[k])
    && (forall k :: k in orig && k !in todo ==> cur[k] == Live(orig[k], now))
    && (forall i, j :: 0 <= i < j < |order| ==> order[i] != order[j])
    && (forall i :: 0 <= i < |order| ==> order[i] in Expired(orig, now) && order[i].0 !in todo)
    && (forall k, r :: k in orig && k !in todo && r in orig[k] && IsExpired(orig[k][r], now) ==> (k, r) in order)
  }

  /** Visiting one more worker keeps the invariant, and its failures extend
      the ones already run. */
  lemma SweepStep(orig: map<string, map<int, Entry>>, cur: map<string, map<int, Entry>>,
                  todo: set<string>, k: string, order: seq<(string, int)>, done: seq<(string, int)>, now: int)
    requires SweepInv(orig, cur, todo, order, now) && k in todo
    requires forall i, j :: 0 <= i < j < |done| ==> done[i] != done[j]
    requires forall i :: 0 <= i < |done| ==>
               done[i].0 == k && done[i].1 in cur[k] && IsExpired(cur[k][done[i].1], now)
    requires forall r :: r in cur[k] && IsExpired(cur[k][r], now) ==> (k, r) in done
    ensures SweepInv(orig, cur[k := Live(cur[k], now)], todo - {k}, order + done, now)
    ensures forall i :: 0 <= i < |order| ==> order[i].0 in orig && order[i].1 in orig[order[i].0]
    ensures TimeoutCalls(orig, order + done) == TimeoutCalls(orig, order) + TimeoutCalls(cur, done)
  {
    var next := cur[k := Live(cur[k], now)];
    var all := order + done;
    forall i, j | 0 <= i < j < |all|
      ensures all[i] != all[j]
    {
      if i < |order| && j >= |order| {
        assert all[j] == done[j - |order|];
      }
    }
    forall i | 0 <= i < |done|
      ensures done[i] in Expired(orig, now)
    {
      var r := done[i].1;
      assert done[i] == (k, r);
      assert (k, r) in Expired(orig, now);
    }
    forall i | 0 <= i < |all|
      ensures all[i] in Expired(orig, now) && all[i].0 !in todo - {k}
    {
      if i >= |order| {
        assert all[i] == done[i - |order|];
      }
    }
    forall k', r | k' in orig && k' !in todo - {k} && r in orig[k'] && IsExpired(orig[k'][r], now)
      ensures (k', r) in all
    {
      if k' == k {
        assert (k, r) in done;
      } else {
        assert (k', r) in order;
      }
    }
    var rest := todo - {k};
    assert rest <= orig.Keys && next.Keys == orig.Keys;
    assert forall k' :: k' in rest ==> next[k'] == orig[k'];
    assert forall k' :: k' in orig && k' !in rest ==> next[k'] == Live(orig[k'], now);
    assert forall i :: 0 <= i < |order| ==> order[i] in Expired(orig, now);
    TimeoutCallsSplit(orig, cur, order, done);
  }

  /** Once every worker is visited, the ids listed are exactly the expired
      ones and the tables are the swept ones. */
  lemma SweepComplete(orig: map<string, map<int, Entry>>, cur: map<string, map<int, Entry>>,
                      order: seq<(string, int)>, now: int)
    requires SweepInv(orig, cur, {}, order, now)
    ensures Enumerates(order, Expired(orig, now))
    ensures cur == Swept(orig, now)
  {
    forall p | p in Expired(orig, now)
      ensures p in order
    {
      assert p.0 in orig && p.1 in orig[p.0];
    }
    assert cur.Keys == Swept(orig, now).Keys;
  }

  /** Registering the first n + 1 workers is registering the first n and
      then the next one. */
  lemma RegisterAllSnoc(s: Registry.State, ws: seq<Worker>, ids: Option<seq<Option<Id>>>, n: nat,
                        s1: Registry.State, out1: seq<Id>, id: Option<Id>, s2: Registry.State, i: Id)
    requires n < |ws| && RegisterAll(s, ws[..n], ids) == (s1, out1)
    requires id == IdAt(ids, n) && Registry.Register(s1, ws[n], id) == (s2, i)
    ensures RegisterAll(s, ws[..n + 1], ids) == (s2, out1 + [i])
  {
    assert ws[..n + 1][..n] == ws[..n];
  }

  lemma AppendAssoc<T>(x: seq<T>, y: seq<T>, z: seq<T>)
    ensures (x + y) + z == x + (y + z)
  {
  }

  ghost function PickOne<T>(xs: set<T>): (x: T)
    requires xs != {}
    ensures x in xs
  {
    var x :| x in xs; x
  }

  /** Failing a list of entries in two parts fails them in order; the second
      part may be read from another table that agrees on its entries. */
  lemma {:induction false} TimeoutCallsSplit(t1: map<string, map<int, Entry>>, t2: map<string, map<int, Entry>>,
                                             a: seq<(string, int)>, b: seq<(string, int)>)
    requires forall i :: 0 <= i < |a| ==> a[i].0 in t1 && a[i].1 in t1[a[i].0]
    requires forall i :: 0 <= i < |b| ==>
               b[i].0 in t2 && b[i].1 in t2[b[i].0] && b[i].0 in t1 && b[i].1 in t1[b[i].0]
               && t2[b[i].0][b[i].1] == t1[b[i].0][b[i].1]
    ensures forall i :: 0 <= i < |a + b| ==> (a + b)[i].0 in t1 && (a + b)[i].1 in t1[(a + b)[i].0]
    ensures TimeoutCalls(t1, a + b) == TimeoutCalls(t1, a) + TimeoutCalls(t2, b)
    decreases |b|
  {
    if b == [] {
      assert a + b == a;
    } else {
      var n := |b| - 1;
      assert (a + b)[..|a + b| - 1] == a + b[..n];
      TimeoutCallsSplit(t1, t2, a, b[..n]);
    }
  }

}
