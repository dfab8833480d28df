/** End-to-end behaviour of master and worker together: a request travels
    to the worker, the worker's dispatcher answers, and the master's
    listener correlates the answer; timeouts and late answers. */
module Scenarios {
  import opened JsValues
  import opened Messages
  import opened Slave
  import opened Registry

  /** The message the last delivery of s carries. */
  function LastMsg(s: State): Msg
    requires |s.sent| > 0
  {
    s.sent[|s.sent| - 1].msg
  }

  /** A request to a registered worker whose handler completes once without
      error reaches the caller's callback as that result, exactly once, and
      its pending entry is gone again; an error completion reaches it as a
      remote failure carrying the error's message. */
  lemma RequestRoundTrip(s: State, content: Value, id: Id, cb: nat, now: int,
                         h: nat, c: Completion, throws: bool)
    requires Valid(s) && Key(id) in s.slaves
    ensures var k := Key(id);
            var t := SendRequest(s, content, Some(id), cb, now);
            var replies := Replies(LastMsg(t), User(h), Run([c], None));
            && |t.sent| > 0 && t.sent[|t.sent| - 1].key == k && LastMsg(t).tag == REQUEST
            && |replies| == 1
            && var (u, swept) := Dispatch(t, id, replies[0], throws);
               && swept
               && u.calls == s.calls + [Completed(cb,
                    if IsNullish(c.err) then Answered(c.res) else Failed(Remote(MessageOf(c.err).value)))]
               && u.tables == s.tables
               && u.counters[k] == s.counters[k] + 1
  {
    var k := Key(id);
    var r := s.counters[k];
    SendRequestAllocates(s, content, id, cb, now);
    var t := SendRequest(s, content, Some(id), cb, now);
    var req := LastMsg(t);
    assert req == Msg(REQUEST, Some(r), None, content);
    OneCompletionOneResponse(req, h, c);
    var reply := Replies(req, User(h), Run([c], None))[0];
    ResponseCorrelates(t, id, reply, throws);
    PutThenRemove(s.tables[k], r, Entry(cb, now));
  }

  /** Storing under a fresh key and removing it again gives the map back. */
  lemma PutThenRemove<K, V>(m: map<K, V>, x: K, v: V)
    requires x !in m
    ensures m[x := v] - {x} == m
  {
  }

  /** A request not answered in time is failed with a timeout by the first
      sweep after the deadline; a response arriving afterwards runs no
      callback and leaves the state as it was before it arrived. */
  lemma LateResponseDropped(s: State, content: Value, id: Id, cb: nat, now: int, later: int,
                            order: seq<(string, int)>, m: Msg, throws: bool)
    requires Valid(s) && Key(id) in s.slaves && later - now > REQUEST_TIMEOUT
    requires var t := SendRequest(s, content, Some(id), cb, now);
             Enumerates(order, Expired(t.tables, later))
    requires m.tag == RESPONSE && m.reqId == Some(s.counters[Key(id)])
    ensures var k := Key(id);
            var r := s.counters[k];
            var t := SendRequest(s, content, Some(id), cb, now);
            var w := Sweep(t, later, order);
            && (k, r) in order
            && r !in w.tables[k]
            && w.calls[|t.calls| + Find(order, (k, r))] == Completed(cb, Failed(Timeout))
            && Dispatch(w, id, m, throws) == (w, true)
  {
    var k := Key(id);
    var r := s.counters[k];
    var t := SendRequest(s, content, Some(id), cb, now);
    SendRequestAllocates(s, content, id, cb, now);
    ExpiredEntryDropped(t, k, r, cb, now, later, order);
    ResponseCorrelates(Sweep(t, later, order), id, m, throws);
  }

  /** An entry older than the timeout is visited by the sweep, failed with a
      timeout at its position in the visiting order, and removed. */
  lemma ExpiredEntryDropped(t: State, k: string, r: int, cb: nat, now: int, later: int,
                            order: seq<(string, int)>)
    requires Valid(t) && k in t.tables && r in t.tables[k] && t.tables[k][r] == Entry(cb, now)
    requires later - now > REQUEST_TIMEOUT && Enumerates(order, Expired(t.tables, later))
    ensures var w := Sweep(t, later, order);
            && (k, r) in order
            && k in w.tables && r !in w.tables[k]
            && w.calls[|t.calls| + Find(order, (k, r))] == Completed(cb, Failed(Timeout))
  {
    assert (k, r) in Expired(t.tables, later);
    SweepExpiresExactly(t, later, order);
    var i := Find(order, (k, r));
    SweepFailsAt(t, later, order, i);
    assert order[i] == (k, r);
  }

  /** The position of x in xs. */
  function Find<T(==)>(xs: seq<T>, x: T): (i: nat)
    requires x in xs
    ensures i < |xs| && xs[i] == x
    decreases |xs|
  {
    if xs[0] == x then 0 else 1 + Find(xs[1..], x)
  }

  /** A worker that died with requests outstanding never answers them: the
      callbacks are not run at cleanup, and no later event of the master
      reaches them. */
  lemma DeadWorkerAbandons(s: State, content: Value, id: Id, cb: nat, now: int, later: int,
                           e: Value, m: Msg, throws: bool)
    requires Valid(s) && Key(id) in s.slaves && m.tag == RESPONSE
    ensures var t := SendRequest(s, content, Some(id), cb, now);
            var u := OnError(t, id, e);
            && u.calls == s.calls + [ErrorCb(s.errorCb, id, e)]
            && Dispatch(u, id, m, throws) == (u, false)
            && (forall p :: p in Expired(u.tables, later) ==> p.0 != Key(id))
  {
    var t := SendRequest(s, content, Some(id), cb, now);
    SendRequestAllocates(s, content, id, cb, now);
    CleanupAbandons(t, id, e, false);
    AbandonedNeverRun(t, id, e, false, m, throws, later);
  }

  const AB: Option<seq<Option<Id>>> := Some([Some(StrId("A")), Some(StrId("B"))])

  /** Registering two workers under the ids A and B. */
  lemma RegisterTwo(wa: Worker, wb: Worker)
    ensures var reg := RegisterAll(Init(), [wa, wb], AB);
            && reg.1 == [StrId("A"), StrId("B")]
            && Valid(reg.0)
            && reg.0.slaves == map["A" := wa, "B" := wb]
            && reg.0.sent == [] && reg.0.calls == []
  {
    var ws := [wa, wb];
    assert ws[..0] == [] && ws[..1] == [wa] && ws[..1][..0] == [];
    var r1 := RegisterAll(Init(), ws[..1], AB);
    assert RegisterAll(Init(), ws[..1][..0], AB) == (Init(), []);
    assert IdAt(AB, 0) == Some(StrId("A"));
    assert r1.0 == Register(Init(), wa, Some(StrId("A"))).0;
    assert r1.1 == [StrId("A")];
    assert ws == ws[..1] + [wb];
    var reg := RegisterAll(Init(), ws, AB);
    assert IdAt(AB, 1) == Some(StrId("B"));
    assert reg.0 == Register(r1.0, wb, Some(StrId("B"))).0;
    assert reg.1 == [StrId("A"), StrId("B")];
  }

  /** The master after registering two workers under the ids A and B. */
  function TwoWorkers(wa: Worker, wb: Worker): State {
    RegisterAll(Init(), [wa, wb], AB).0
  }

  /** With workers A and B, a request to A whose handler answers {n: 1}
      completes with exactly that object. */
  lemma TwoWorkersRequestToA(wa: Worker, wb: Worker, cb: nat, h: nat, now: int, throws: bool)
    ensures var s := TwoWorkers(wa, wb);
            && Valid(s)
            && var one := Obj(map["n" := Num(1)]);
               var t := SendRequest(s, Obj(map["op" := Str("count")]), Some(StrId("A")), cb, now);
               && |t.sent| > 0
               && var reply := Replies(LastMsg(t), User(h), Run([Completion(Undefined, one)], None));
                  && |reply| == 1
                  && Dispatch(t, StrId("A"), reply[0], throws).0.calls == [Completed(cb, Answered(one))]
  {
    RegisterTwo(wa, wb);
    RequestRoundTrip(TwoWorkers(wa, wb), Obj(map["op" := Str("count")]), StrId("A"), cb, now, h,
                     Completion(Undefined, Obj(map["n" := Num(1)])), throws);
  }

  /** With workers A and B, a request to Z fails with InvalidProcessId and
      changes nothing else. */
  lemma TwoWorkersRequestToZ(wa: Worker, wb: Worker, cb: nat, content: Value, now: int)
    ensures var s := TwoWorkers(wa, wb);
            && Valid(s)
            && SendRequest(s, content, Some(StrId("Z")), cb, now)
                 == s.(calls := [Completed(cb, Failed(InvalidProcessId(StrId("Z"))))])
  {
    RegisterTwo(wa, wb);
    assert "Z" !in TwoWorkers(wa, wb).slaves;
  }

  /** With workers A and B, a note without a target is written once to A,
      once to B, and to nothing else. */
  lemma TwoWorkersBroadcast(wa: Worker, wb: Worker, keys: seq<string>, k: string)
    requires Enumerates(keys, TwoWorkers(wa, wb).slaves.Keys)
    ensures var s := TwoWorkers(wa, wb);
            var note := Obj(map["ping" := Bool(true)]);
            var b := SendMsg(s, note, None, keys);
            && b.Ok?
            && CountTo(b.value.sent, k) == (if k == "A" || k == "B" then 1 else 0)
            && forall d :: d in b.value.sent ==> d.msg == GenMessage(note)
  {
    RegisterTwo(wa, wb);
    var s := TwoWorkers(wa, wb);
    BroadcastReachesEachOnce(s, Obj(map["ping" := Bool(true)]), keys, k);
    assert s.sent == [];
  }
}
