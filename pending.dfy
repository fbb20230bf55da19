/** The pending-request table and the actors that resolve its entries: the SSE
    correlator, the HTTP status dispatcher of each asynchronous request, and
    the timeout monitor started on a 202. A resolution removes an id and
    records one callback delivery; the state is the table, the progress
    timestamps, the SSE endpoint and the deliveries made so far.
 */
module Pending {
  import opened Json
  import opened Text
  import opened FrameCodec

  /** A callback closure, identified by a token; each submission gets its own. */
  type Callback = nat

  /** One invocation of a callback with its response. */
  datatype Delivery = Delivery(callback: Callback, response: Json)

  datatype Table = Table(
    pending: map<Json, Callback>,
    progress: map<Json, nat>,
    endpoint: Option<string>,
    delivered: seq<Delivery>)

  const Empty := Table(map[], map[], None, [])

  /** The callbacks invoked so far. */
  function Callbacks(ds: seq<Delivery>): set<Callback> {
    set i | 0 <= i < |ds| :: ds[i].callback
  }

  /** How often callback `cb` has been invoked. */
  function Count(ds: seq<Delivery>, cb: Callback): nat {
    if ds == [] then 0 else (if ds[0].callback == cb then 1 else 0) + Count(ds[1..], cb)
  }

  // ---- submission --------------------------------------------------------

  /** `pending_requests[req_id] = callback; last_progress_time[req_id] = now`.
      A list or object id is unhashable: the first store raises and nothing
      changes, which the model reports as None. */
  function Submit(t: Table, id: Json, cb: Callback, now: nat): (r: Option<Table>)
    ensures r.Some? <==> Hashable(id)
    ensures r.Some? ==> (r.value.pending == t.pending[id := cb] && r.value.progress == t.progress[id := now] &&
      r.value.endpoint == t.endpoint && r.value.delivered == t.delivered)
    ensures r.Some? ==> id in r.value.pending && r.value.pending[id] == cb
  {
    if Hashable(id) then Some(t.(pending := t.pending[id := cb], progress := t.progress[id := now]))
    else None
  }

  // ---- the SSE correlator ------------------------------------------------

  /** `_process_sse_event(event_type, event_data)` at time `now`. Every failure
      inside the handler (an undecodable payload, a payload that is not an
      object, an unhashable id) is swallowed, which leaves the table as it was. */
  function ProcessFrame(t: Table, eventType: Option<string>, data: seq<string>, parse: Parser, now: nat): (r: Table)
    ensures r.pending.Keys <= t.pending.Keys
    ensures forall id | id in r.pending :: r.pending[id] == t.pending[id]
    ensures r.delivered == t.delivered ||
      (|r.delivered| == |t.delivered| + 1 && r.delivered[..|t.delivered|] == t.delivered &&
       r.delivered[|t.delivered|].callback in t.pending.Values && r.pending != t.pending)
  {
    if data == [] then t
    else
      var text := Join(data, "\n");
      if eventType == Some("endpoint") then t.(endpoint := Some(text))
      else if eventType == Some("progress") then
        match parse(text)
        case Some(msg) =>
          (match Field(msg, "id")
           case Some(id) => if Hashable(id) then t.(progress := t.progress[id := now]) else t
           case None => t)
        case None => t
      else
        match parse(text)
        case Some(msg) =>
          if Field(msg, "jsonrpc").Some? && Field(msg, "id").Some? && Field(msg, "id").value in t.pending then
            var id := Field(msg, "id").value;
            t.(pending := t.pending - {id}, delivered := t.delivered + [Delivery(t.pending[id], msg)])
          else t
        case None => t
  }

  // ---- the status dispatcher, as written ---------------------------------

  /** The tail shared by the 200, other-status and exception branches: drop the
      id if it is still pending, then invoke the request's own callback. */
  function Finish(t: Table, id: Json, cb: Callback, response: Json): (r: Table)
    ensures r.pending == t.pending - {id} && r.progress == t.progress && r.endpoint == t.endpoint
    ensures r.delivered == t.delivered + [Delivery(cb, response)]
  {
    t.(pending := t.pending - {id}, delivered := t.delivered + [Delivery(cb, response)])
  }

  /** What a 200 delivers: the decoded body when it is truthy, else a parse error. */
  function OkResponse(body: string, parse: Parser): (r: Json)
    ensures Truthy(r)
  {
    match ParseSseBody(body, parse)
    case Some(v) => if Truthy(v) then v else ParseError()
    case None => ParseError()
  }

  /** The response the dispatcher delivers for a status other than 202. */
  function StatusResponse(status: int, body: string, parse: Parser): Json {
    if status == 200 then OkResponse(body, parse)
    else ErrorResponse(status, Take(body, 200))
  }

  /** The answer to an asynchronous POST: 202 leaves the id pending (the monitor
      then takes over), any other status is delivered to the request's callback
      whether or not the id is still pending. */
  function Answered(t: Table, id: Json, cb: Callback, status: int, body: string, parse: Parser): (r: Table)
    ensures status == 202 ==> r == t
    ensures status != 202 ==> (id !in r.pending && |r.delivered| == |t.delivered| + 1 &&
      r.delivered[|t.delivered|].callback == cb)
  {
    if status == 202 then t else Finish(t, id, cb, StatusResponse(status, body, parse))
  }

  /** The exception branch of the request thread: `{code: -1, message: str(e)}`. */
  function Failed(t: Table, id: Json, cb: Callback, message: string): (r: Table)
    ensures id !in r.pending && |r.delivered| == |t.delivered| + 1
    ensures r.delivered[|t.delivered|].callback == cb
    ensures ErrorCode(r.delivered[|t.delivered|].response) == Some(TransportErrorCode)
  {
    Finish(t, id, cb, ErrorResponse(TransportErrorCode, message))
  }

  // ---- the timeout monitor -----------------------------------------------

  /** A monitor started for request `id` with callback `callback` when its 202
      arrived at time `start`. */
  datatype Monitor = Monitor(id: Json, callback: Callback, start: nat)

  function Timeout(): Json {
    ErrorResponse(TimeoutErrorCode, "Timeout")
  }

  /** One poll of the monitor at time `now`: it stops when the id is no longer
      pending, and once more than `maxTotal` seconds have passed it removes the
      id and delivers the timeout error; otherwise it goes on waiting. */
  function Poll(t: Table, m: Monitor, now: nat, maxTotal: int): (r: (Table, bool))
    ensures r.1 <==> m.id !in r.0.pending
    ensures !r.1 ==> r.0 == t
    ensures r.0.delivered == t.delivered || r.0.delivered == t.delivered + [Delivery(m.callback, Timeout())]
  {
    if m.id !in t.pending then (t, true)
    else if now - m.start > maxTotal then (Finish(t, m.id, m.callback, Timeout()), true)
    else (t, false)
  }

  // ---- corrected resolution ----------------------------------------------

  /** Resolution as the table intends it: only the callback that is still
      registered for `id` may be invoked, and it is removed as it is invoked. */
  function Resolve(t: Table, id: Json, cb: Callback, response: Json): Table {
    if id in t.pending && t.pending[id] == cb then
      t.(pending := t.pending - {id}, delivered := t.delivered + [Delivery(cb, response)])
    else t
  }

  function AnsweredGated(t: Table, id: Json, cb: Callback, status: int, body: string, parse: Parser): Table {
    if status == 202 then t else Resolve(t, id, cb, StatusResponse(status, body, parse))
  }

  function FailedGated(t: Table, id: Json, cb: Callback, message: string): Table {
    Resolve(t, id, cb, ErrorResponse(TransportErrorCode, message))
  }

  function PollGated(t: Table, m: Monitor, now: nat, maxTotal: int): (Table, bool) {
    if m.id !in t.pending then (t, true)
    else if now - m.start > maxTotal then (Resolve(t, m.id, m.callback, Timeout()), true)
    else (t, false)
  }

  // ---- the delivery invariant --------------------------------------------

  /** Every callback is invoked at most once: no callback appears twice among
      the deliveries, no pending callback has been invoked yet, and no callback
      is pending under two ids. */
  predicate AtMostOnce(t: Table) {
    (forall i, j :: 0 <= i < j < |t.delivered| ==> t.delivered[i].callback != t.delivered[j].callback) &&
    (forall id | id in t.pending :: t.pending[id] !in Callbacks(t.delivered)) &&
    (forall a, b | a in t.pending && b in t.pending && a != b :: t.pending[a] != t.pending[b])
  }

  /** A callback the table has never seen. */
  predicate Fresh(t: Table, cb: Callback) {
    cb !in t.pending.Values && cb !in Callbacks(t.delivered)
  }

  /** Under the invariant no callback has been invoked twice. */
  lemma {:induction false} AtMostOnceCount(ds: seq<Delivery>, cb: Callback)
    requires forall i, j :: 0 <= i < j < |ds| ==> ds[i].callback != ds[j].callback
    ensures Count(ds, cb) <= 1
    ensures Count(ds, cb) == 1 <==> cb in Callbacks(ds)
    decreases |ds|
  {
    if ds != [] {
      AtMostOnceCount(ds[1..], cb);
      assert forall i :: 1 <= i < |ds| ==> ds[1..][i - 1] == ds[i];
      assert Callbacks(ds) == {ds[0].callback} + Callbacks(ds[1..]);
    }
  }

  lemma CallbacksAppend(ds: seq<Delivery>, d: Delivery)
    ensures Callbacks(ds + [d]) == Callbacks(ds) + {d.callback}
  {
    assert forall i :: 0 <= i < |ds| ==> (ds + [d])[i] == ds[i];
    assert (ds + [d])[|ds|] == d;
  }

  /** Invoking the callback registered for `id` and removing it keeps the invariant. */
  lemma ResolvePendingKeeps(t: Table, id: Json, response: Json)
    requires AtMostOnce(t) && id in t.pending
    ensures AtMostOnce(t.(pending := t.pending - {id}, delivered := t.delivered + [Delivery(t.pending[id], response)]))
  {
    var cb := t.pending[id];
    var ds := t.delivered + [Delivery(cb, response)];
    CallbacksAppend(t.delivered, Delivery(cb, response));
    forall i, j | 0 <= i < j < |ds| ensures ds[i].callback != ds[j].callback {
      if j == |t.delivered| {
        assert ds[i].callback in Callbacks(t.delivered) by { assert ds[i] == t.delivered[i]; }
      }
    }
  }

  /** A submission of a fresh callback under a hashable id keeps the invariant. */
  lemma SubmitKeeps(t: Table, id: Json, cb: Callback, now: nat)
    requires AtMostOnce(t) && Fresh(t, cb) && Hashable(id)
    ensures AtMostOnce(Submit(t, id, cb, now).value)
  {
    var p := t.pending[id := cb];
    forall a, b | a in p && b in p && a != b ensures p[a] != p[b] {
      if a == id { assert p[b] == t.pending[b] && t.pending[b] in t.pending.Values; }
      if b == id { assert p[a] == t.pending[a] && t.pending[a] in t.pending.Values; }
    }
  }

  /** The correlator keeps the invariant: it only ever invokes the callback that
      is registered for the id, and removes it. */
  lemma ProcessFrameKeeps(t: Table, eventType: Option<string>, data: seq<string>, parse: Parser, now: nat)
    requires AtMostOnce(t)
    ensures AtMostOnce(ProcessFrame(t, eventType, data, parse, now))
  {
    if data != [] && eventType != Some("endpoint") && eventType != Some("progress") {
      var text := Join(data, "\n");
      match parse(text)
      case Some(msg) =>
        if Field(msg, "jsonrpc").Some? && Field(msg, "id").Some? && Field(msg, "id").value in t.pending {
          ResolvePendingKeeps(t, Field(msg, "id").value, msg);
        }
      case None =>
    }
  }

  lemma ResolveKeeps(t: Table, id: Json, cb: Callback, response: Json)
    requires AtMostOnce(t)
    ensures AtMostOnce(Resolve(t, id, cb, response))
  {
    if id in t.pending && t.pending[id] == cb {
      ResolvePendingKeeps(t, id, response);
    }
  }

  /** Gated resolution invokes a callback exactly when it is the one registered
      for the id; then the id is gone and the callback has been invoked once
      more. Otherwise nothing changes. */
  lemma ResolveExactlyOnce(t: Table, id: Json, cb: Callback, response: Json)
    ensures var r := Resolve(t, id, cb, response);
      (id in t.pending && t.pending[id] == cb ==>
         r.pending == t.pending - {id} && Count(r.delivered, cb) == Count(t.delivered, cb) + 1) &&
      (!(id in t.pending && t.pending[id] == cb) ==> r == t)
  {
    CountAppend(t.delivered, Delivery(cb, response), cb);
  }

  lemma {:induction false} CountAppend(ds: seq<Delivery>, d: Delivery, cb: Callback)
    ensures Count(ds + [d], cb) == Count(ds, cb) + (if d.callback == cb then 1 else 0)
    decreases |ds|
  {
    if ds != [] {
      assert (ds + [d])[1..] == ds[1..] + [d];
      CountAppend(ds[1..], d, cb);
    } else {
      assert [] + [d] == [d];
    }
  }

  // ---- correlator properties ---------------------------------------------

  /** A frame without payloads changes nothing. */
  lemma EmptyFrameIgnored(t: Table, eventType: Option<string>, parse: Parser, now: nat)
    ensures ProcessFrame(t, eventType, [], parse, now) == t
  {
  }

  /** An `endpoint` frame sets the endpoint to the joined payloads and nothing else. */
  lemma EndpointFrame(t: Table, data: seq<string>, parse: Parser, now: nat)
    requires data != []
    ensures ProcessFrame(t, Some("endpoint"), data, parse, now) == t.(endpoint := Some(Join(data, "\n")))
  {
  }

  /** A `progress` frame touches at most the timestamp of its own id: it is set
      to `now` when the payload is an object with a hashable id, and nothing
      else changes, whatever `reset_on_progress` says. */
  lemma ProgressFrame(t: Table, data: seq<string>, parse: Parser, now: nat)
    requires data != []
    ensures var r := ProcessFrame(t, Some("progress"), data, parse, now);
      r.pending == t.pending && r.endpoint == t.endpoint && r.delivered == t.delivered &&
      forall k | k in r.progress :: k in t.progress || (r.progress[k] == now && k == Field(parse(Join(data, "\n")).value, "id").value)
    ensures var r := ProcessFrame(t, Some("progress"), data, parse, now);
      match parse(Join(data, "\n"))
      case Some(msg) =>
        (Field(msg, "id").Some? && Hashable(Field(msg, "id").value) ==> r.progress == t.progress[Field(msg, "id").value := now]) &&
        (Field(msg, "id").None? || !Hashable(Field(msg, "id").value) ==> r == t)
      case None => r == t
  {
  }

  /** A response frame for a pending id removes that id and invokes its callback
      exactly once, with the decoded message. */
  lemma ResponseFrameResolves(t: Table, eventType: Option<string>, data: seq<string>, parse: Parser, now: nat, msg: Json)
    requires data != [] && eventType != Some("endpoint") && eventType != Some("progress")
    requires parse(Join(data, "\n")) == Some(msg)
    requires Field(msg, "jsonrpc").Some? && Field(msg, "id").Some? && Field(msg, "id").value in t.pending
    ensures var id := Field(msg, "id").value; var r := ProcessFrame(t, eventType, data, parse, now);
      r.pending == t.pending - {id} && r.progress == t.progress && r.endpoint == t.endpoint &&
      r.delivered == t.delivered + [Delivery(t.pending[id], msg)]
  {
  }

  /** A frame that does not decode, is not an object with `jsonrpc` and `id`, or
      carries an id that is not pending (unknown, or already resolved) leaves
      every part of the state unchanged. */
  lemma UnmatchedFrameIgnored(t: Table, eventType: Option<string>, data: seq<string>, parse: Parser, now: nat)
    requires eventType != Some("endpoint") && eventType != Some("progress")
    requires match parse(Join(data, "\n"))
      case None => true
      case Some(msg) => Field(msg, "jsonrpc").None? || Field(msg, "id").None? || Field(msg, "id").value !in t.pending
    ensures ProcessFrame(t, eventType, data, parse, now) == t
  {
  }

  // ---- dispatcher and monitor properties ---------------------------------

  /** A 202 leaves the id pending; every other answer removes it and invokes the
      request's callback once, with the decoded body (or a parse error) for a
      200 and `{code: status, message: body[:200]}` otherwise. */
  lemma AnsweredCases(t: Table, id: Json, cb: Callback, status: int, body: string, parse: Parser)
    ensures status == 202 ==> Answered(t, id, cb, status, body, parse) == t
    ensures status != 202 ==> var r := Answered(t, id, cb, status, body, parse);
      r.pending == t.pending - {id} && r.progress == t.progress && r.endpoint == t.endpoint &&
      r.delivered == t.delivered + [Delivery(cb, StatusResponse(status, body, parse))]
    ensures status == 200 ==> var resp := StatusResponse(status, body, parse);
      Truthy(resp) && (resp == ParseError() || Some(resp) == ParseSseBody(body, parse))
    ensures status != 200 ==> StatusResponse(status, body, parse) == ErrorResponse(status, Take(body, 200))
  {
  }

  /** The exception branch removes the id and invokes the request's callback
      once with `{code: -1, message: str(e)}`; nothing else changes. */
  lemma FailedCases(t: Table, id: Json, cb: Callback, message: string)
    ensures var r := Failed(t, id, cb, message);
      r.pending == t.pending - {id} && r.progress == t.progress && r.endpoint == t.endpoint &&
      r.delivered == t.delivered + [Delivery(cb, ErrorResponse(TransportErrorCode, message))]
    ensures ErrorCode(ErrorResponse(TransportErrorCode, message)) == Some(-1)
  {
  }

  /** The monitor gives up on an id only once it is still pending after more
      than `maxTotal` seconds since the 202; it then removes the id and delivers
      the timeout error. While the id is pending and time remains it waits
      without changing anything, and once the id is gone it stops. */
  lemma PollCases(t: Table, m: Monitor, now: nat, maxTotal: int)
    ensures m.id !in t.pending ==> Poll(t, m, now, maxTotal) == (t, true)
    ensures m.id in t.pending && now - m.start <= maxTotal ==> Poll(t, m, now, maxTotal) == (t, false)
    ensures m.id in t.pending && now - m.start > maxTotal ==>
      Poll(t, m, now, maxTotal).1 &&
      Poll(t, m, now, maxTotal).0.pending == t.pending - {m.id} &&
      Poll(t, m, now, maxTotal).0.delivered == t.delivered + [Delivery(m.callback, Timeout())] &&
      ErrorCode(Timeout()) == Some(TimeoutErrorCode)
  {
  }

  // ---- traces --------------------------------------------------------------

  /** Everything that can happen to the table. */
  datatype Event =
    | Submitted(id: Json, callback: Callback, now: nat)
    | Frame(eventType: Option<string>, data: seq<string>, now: nat)
    | Response(id: Json, callback: Callback, status: int, body: string)
    | Failure(id: Json, callback: Callback, message: string)
    | Polled(monitor: Monitor, now: nat)

  /** One event with gated resolution. */
  function Apply(t: Table, e: Event, parse: Parser, maxTotal: int): Table {
    match e
    case Submitted(id, cb, now) => (match Submit(t, id, cb, now) case Some(r) => r case None => t)
    case Frame(ty, data, now) => ProcessFrame(t, ty, data, parse, now)
    case Response(id, cb, status, body) => AnsweredGated(t, id, cb, status, body, parse)
    case Failure(id, cb, message) => FailedGated(t, id, cb, message)
    case Polled(m, now) => PollGated(t, m, now, maxTotal).0
  }

  /** One event as the source handles it. */
  function ApplyAsWritten(t: Table, e: Event, parse: Parser, maxTotal: int): Table {
    match e
    case Submitted(id, cb, now) => (match Submit(t, id, cb, now) case Some(r) => r case None => t)
    case Frame(ty, data, now) => ProcessFrame(t, ty, data, parse, now)
    case Response(id, cb, status, body) => Answered(t, id, cb, status, body, parse)
    case Failure(id, cb, message) => Failed(t, id, cb, message)
    case Polled(m, now) => Poll(t, m, now, maxTotal).0
  }

  function Run(t: Table, es: seq<Event>, parse: Parser, maxTotal: int): Table
    decreases |es|
  {
    if es == [] then t else Run(Apply(t, es[0], parse, maxTotal), es[1..], parse, maxTotal)
  }

  function RunAsWritten(t: Table, es: seq<Event>, parse: Parser, maxTotal: int): Table
    decreases |es|
  {
    if es == [] then t else RunAsWritten(ApplyAsWritten(t, es[0], parse, maxTotal), es[1..], parse, maxTotal)
  }

  /** The callbacks the submissions of a trace register. */
  function Registered(es: seq<Event>): set<Callback> {
    set i | 0 <= i < |es| && es[i].Submitted? :: es[i].callback
  }

  /** Every submission in the trace brings a callback of its own. */
  predicate DistinctSubmissions(es: seq<Event>) {
    forall i, j :: 0 <= i < j < |es| && es[i].Submitted? && es[j].Submitted? ==> es[i].callback != es[j].callback
  }

  /** The callbacks the table knows about. */
  function Known(t: Table): set<Callback> {
    t.pending.Values + Callbacks(t.delivered)
  }

  /** One gated event keeps the invariant and learns at most the callback it submits. */
  lemma ApplyKeeps(t: Table, e: Event, parse: Parser, maxTotal: int)
    requires AtMostOnce(t)
    requires e.Submitted? ==> e.callback !in Known(t)
    ensures AtMostOnce(Apply(t, e, parse, maxTotal))
    ensures Known(Apply(t, e, parse, maxTotal)) <= Known(t) + (if e.Submitted? then {e.callback} else {})
  {
    var r := Apply(t, e, parse, maxTotal);
    match e
    case Submitted(id, cb, now) =>
      if Hashable(id) { SubmitKeeps(t, id, cb, now); }
    case Frame(ty, data, now) =>
      ProcessFrameKeeps(t, ty, data, parse, now);
      FrameKnown(t, ty, data, parse, now);
    case Response(id, cb, status, body) =>
      if status != 202 {
        ResolveKeeps(t, id, cb, StatusResponse(status, body, parse));
        ResolveKnown(t, id, cb, StatusResponse(status, body, parse));
      }
    case Failure(id, cb, message) =>
      ResolveKeeps(t, id, cb, ErrorResponse(TransportErrorCode, message));
      ResolveKnown(t, id, cb, ErrorResponse(TransportErrorCode, message));
    case Polled(m, now) =>
      if m.id in t.pending && now - m.start > maxTotal {
        ResolveKeeps(t, m.id, m.callback, Timeout());
        ResolveKnown(t, m.id, m.callback, Timeout());
      }
  }

  lemma RemovedKnown(t: Table, id: Json, response: Json)
    requires id in t.pending
    ensures Known(t.(pending := t.pending - {id}, delivered := t.delivered + [Delivery(t.pending[id], response)])) <= Known(t)
  {
    CallbacksAppend(t.delivered, Delivery(t.pending[id], response));
  }

  lemma ResolveKnown(t: Table, id: Json, cb: Callback, response: Json)
    ensures Known(Resolve(t, id, cb, response)) <= Known(t)
  {
    if id in t.pending && t.pending[id] == cb {
      RemovedKnown(t, id, response);
    }
  }

  lemma FrameKnown(t: Table, eventType: Option<string>, data: seq<string>, parse: Parser, now: nat)
    ensures Known(ProcessFrame(t, eventType, data, parse, now)) <= Known(t)
  {
    if data != [] && eventType != Some("endpoint") && eventType != Some("progress") {
      match parse(Join(data, "\n"))
      case Some(msg) =>
        if Field(msg, "jsonrpc").Some? && Field(msg, "id").Some? && Field(msg, "id").value in t.pending {
          RemovedKnown(t, Field(msg, "id").value, msg);
        }
      case None =>
    }
  }

  /** At-most-once delivery over any interleaving of the actors: starting from a
      table that satisfies the invariant, a trace whose submissions each bring a
      callback of their own never invokes any callback twice. */
  lemma {:induction false} RunAtMostOnce(t: Table, es: seq<Event>, parse: Parser, maxTotal: int)
    requires AtMostOnce(t)
    requires DistinctSubmissions(es)
    requires Registered(es) !! Known(t)
    ensures AtMostOnce(Run(t, es, parse, maxTotal))
    ensures forall cb :: Count(Run(t, es, parse, maxTotal).delivered, cb) <= 1
    decreases |es|
  {
    if es == [] {
      forall cb ensures Count(t.delivered, cb) <= 1 { AtMostOnceCount(t.delivered, cb); }
    } else {
      var e := es[0];
      if e.Submitted? {
        assert e.callback in Registered(es) by { assert es[0].Submitted?; }
      }
      ApplyKeeps(t, e, parse, maxTotal);
      var t' := Apply(t, e, parse, maxTotal);
      assert Registered(es[1..]) !! Known(t') by {
        forall cb | cb in Registered(es[1..]) ensures cb !in Known(t') {
          var i :| 0 <= i < |es[1..]| && es[1..][i].Submitted? && es[1..][i].callback == cb;
          assert es[i + 1] == es[1..][i];
          assert cb in Registered(es);
          if e.Submitted? { assert cb != e.callback; }
        }
      }
      assert DistinctSubmissions(es[1..]) by {
        forall i, j | 0 <= i < j < |es[1..]| && es[1..][i].Submitted? && es[1..][j].Submitted?
          ensures es[1..][i].callback != es[1..][j].callback {
          assert es[1..][i] == es[i + 1] && es[1..][j] == es[j + 1];
        }
      }
      RunAtMostOnce(t', es[1..], parse, maxTotal);
    }
  }

  // ---- the finding ---------------------------------------------------------

  /** Two deliveries to the same callback break the invariant. */
  lemma TwiceBreaks(t: Table, cb: Callback)
    requires |t.delivered| == 2 && t.delivered[0].callback == cb && t.delivered[1].callback == cb
    ensures Count(t.delivered, cb) == 2 && !AtMostOnce(t)
  {
    var ds := t.delivered;
    assert ds[1..][0] == ds[1] && ds[1..][1..] == [];
    assert Count(ds[1..], cb) == 1;
  }

  /** The scenario of the finding: request 1 is submitted with callback 7, its
      response arrives on the event stream, and then the POST itself is answered
      with a 500. */
  const ScenarioId: Json := JNumber(1)

  function ScenarioMessage(): Json {
    JObject(map["jsonrpc" := JString("2.0"), "id" := ScenarioId])
  }

  function ScenarioParser(): Parser {
    s => Some(ScenarioMessage())
  }

  function Scenario(): seq<Event> {
    [Submitted(ScenarioId, 7, 0), Frame(None, ["m"], 1), Response(ScenarioId, 7, 500, "")]
  }

  const AfterSubmit := Table(map[ScenarioId := 7], map[ScenarioId := 0], None, [])
  const AfterFrame := Table(map[], map[ScenarioId := 0], None, [Delivery(7, ScenarioMessage())])
  const AfterAnswer := Table(map[], map[ScenarioId := 0], None,
    [Delivery(7, ScenarioMessage()), Delivery(7, ErrorResponse(500, ""))])

  lemma ScenarioFrame()
    ensures ProcessFrame(AfterSubmit, None, ["m"], ScenarioParser(), 1) == AfterFrame
  {
    var msg := ScenarioMessage();
    assert Field(msg, "id") == Some(ScenarioId) && Field(msg, "jsonrpc").Some?;
    assert AfterSubmit.pending - {ScenarioId} == map[];
  }

  lemma ScenarioAnswer()
    ensures Answered(AfterFrame, ScenarioId, 7, 500, "", ScenarioParser()) == AfterAnswer
    ensures AnsweredGated(AfterFrame, ScenarioId, 7, 500, "", ScenarioParser()) == AfterFrame
  {
    assert Take("", 200) == "";
    assert AfterFrame.pending - {ScenarioId} == map[];
  }

  lemma ScenarioRuns()
    ensures RunAsWritten(Empty, Scenario(), ScenarioParser(), 300) == AfterAnswer
    ensures Run(Empty, Scenario(), ScenarioParser(), 300) == AfterFrame
  {
    var es, parse := Scenario(), ScenarioParser();
    assert Submit(Empty, ScenarioId, 7, 0) == Some(AfterSubmit);
    ScenarioFrame();
    ScenarioAnswer();
    assert es[1..][1..][1..] == [];
    assert RunAsWritten(AfterFrame, es[1..][1..], parse, 300) == AfterAnswer;
    assert RunAsWritten(AfterSubmit, es[1..], parse, 300) == AfterAnswer;
    assert Run(AfterFrame, es[1..][1..], parse, 300) == AfterFrame;
    assert Run(AfterSubmit, es[1..], parse, 300) == AfterFrame;
  }

  /** As written, the status branches invoke the request's callback even after
      the SSE correlator has resolved the id: a response that arrives both on
      the event stream and as a non-202 answer to the POST reaches its callback
      twice. With gated resolution the same trace invokes it once. */
  lemma DoubleDelivery()
    ensures var r := RunAsWritten(Empty, Scenario(), ScenarioParser(), 300);
      Count(r.delivered, 7) == 2 && !AtMostOnce(r)
    ensures Count(Run(Empty, Scenario(), ScenarioParser(), 300).delivered, 7) == 1
    ensures DistinctSubmissions(Scenario()) && AtMostOnce(Empty)
  {
    ScenarioRuns();
    TwiceBreaks(AfterAnswer, 7);
    assert AfterFrame.delivered[1..] == [];
    assert Callbacks([]) == {};
  }

  /** The monitor scenario: request 1 gets a 202, its response arrives on the
      event stream, the same id is submitted again with callback 8 (the request
      editor reuses its default id), and the first request's monitor, which was
      asleep meanwhile, polls after the total timeout. */
  function ReuseScenario(): seq<Event> {
    [Submitted(ScenarioId, 7, 0), Response(ScenarioId, 7, 202, ""), Frame(None, ["m"], 1),
     Submitted(ScenarioId, 8, 2), Polled(Monitor(ScenarioId, 7, 0), 400)]
  }

  const AfterResubmit := Table(map[ScenarioId := 8], map[ScenarioId := 2], None, [Delivery(7, ScenarioMessage())])
  const AfterTimeout := Table(map[], map[ScenarioId := 2], None,
    [Delivery(7, ScenarioMessage()), Delivery(7, Timeout())])

  lemma ReuseScenarioRuns()
    ensures RunAsWritten(Empty, ReuseScenario(), ScenarioParser(), 300) == AfterTimeout
    ensures Run(Empty, ReuseScenario(), ScenarioParser(), 300) == AfterResubmit
  {
    var es, parse := ReuseScenario(), ScenarioParser();
    assert Submit(Empty, ScenarioId, 7, 0) == Some(AfterSubmit);
    ScenarioFrame();
    assert AfterFrame.pending[ScenarioId := 8] == map[ScenarioId := 8];
    assert AfterFrame.progress[ScenarioId := 2] == map[ScenarioId := 2];
    assert Submit(AfterFrame, ScenarioId, 8, 2) == Some(AfterResubmit);
    assert AfterResubmit.pending - {ScenarioId} == map[];
    assert Poll(AfterResubmit, Monitor(ScenarioId, 7, 0), 400, 300).0 == AfterTimeout;
    assert PollGated(AfterResubmit, Monitor(ScenarioId, 7, 0), 400, 300).0 == AfterResubmit;
    var e1 := es[1..]; var e2 := e1[1..]; var e3 := e2[1..]; var e4 := e3[1..];
    assert e4[1..] == [];
    assert RunAsWritten(AfterResubmit, e4, parse, 300) == AfterTimeout;
    assert RunAsWritten(AfterFrame, e3, parse, 300) == AfterTimeout;
    assert RunAsWritten(AfterSubmit, e2, parse, 300) == AfterTimeout;
    assert RunAsWritten(AfterSubmit, e1, parse, 300) == AfterTimeout;
    assert Run(AfterResubmit, e4, parse, 300) == AfterResubmit;
    assert Run(AfterFrame, e3, parse, 300) == AfterResubmit;
    assert Run(AfterSubmit, e2, parse, 300) == AfterResubmit;
    assert Run(AfterSubmit, e1, parse, 300) == AfterResubmit;
  }

  /** As written, a monitor that outlives its request's resolution hits the
      entry of a later request under the same id: it drops that entry and
      invokes its own, already invoked, callback a second time. The gated
      monitor leaves the later request pending. */
  lemma MonitorDoubleDelivery()
    ensures var r := RunAsWritten(Empty, ReuseScenario(), ScenarioParser(), 300);
      Count(r.delivered, 7) == 2 && !AtMostOnce(r) && ScenarioId !in r.pending
    ensures var r := Run(Empty, ReuseScenario(), ScenarioParser(), 300);
      Count(r.delivered, 7) == 1 && r.pending == map[ScenarioId := 8]
    ensures DistinctSubmissions(ReuseScenario())
  {
    ReuseScenarioRuns();
    TwiceBreaks(AfterTimeout, 7);
    assert AfterResubmit.delivered[1..] == [];
  }
}
