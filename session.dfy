/** The extension's session state as the object `BurpExtender` keeps it: the
    negotiated session, the pending-request table, and the connect,
    initialize, disconnect and request paths that update them in place.
 */
module Session {
  import opened Json
  import opened Text
  import opened Headers
  import opened FrameCodec
  import Pending

  /** Every field of the extension object other than the request table. */
  datatype Conn = Conn(
    sessionId: Option<string>,
    initializing: bool,
    sseRunning: bool,
    protocolVersion: Json,
    capabilities: Json,
    tools: seq<Json>,
    resources: seq<Json>,
    prompts: seq<Json>,
    customHeaders: map<string, string>,
    requestTimeout: int,
    resetOnProgress: bool,
    maxTotalTimeout: int)

  /** The state `__init__` leaves. */
  const Initial := Conn(None, false, false, JNull, JObject(map[]), [], [], [], map[], 30, true, 300)

  // ---- session id adoption -------------------------------------------------

  /** The session id after a response carrying `header` (the value of its
      `mcp-session-id` header, if any): it is taken only while none is set. */
  function Adopt(current: Option<string>, header: Option<string>): (r: Option<string>)
    ensures IsSet(current) ==> r == current
    ensures r == current || r == header
    ensures header.Some? && !IsSet(current) ==> r == header
  {
    if header.Some? && !IsSet(current) then header else current
  }

  /** The session id after a run of responses. */
  function AdoptAll(current: Option<string>, headers: seq<Option<string>>): Option<string>
    decreases |headers|
  {
    if headers == [] then current else AdoptAll(Adopt(current, headers[0]), headers[1..])
  }

  /** A set session id is never replaced. */
  lemma {:induction false} AdoptKeepsSet(current: Option<string>, headers: seq<Option<string>>)
    requires IsSet(current)
    ensures AdoptAll(current, headers) == current
    decreases |headers|
  {
    if headers != [] {
      AdoptKeepsSet(Adopt(current, headers[0]), headers[1..]);
    }
  }

  /** The first non-empty session id the server sends wins: a set id stays, and
      otherwise the result is the first header that is present and not empty. */
  lemma {:induction false} AdoptFirstWins(current: Option<string>, headers: seq<Option<string>>, i: nat)
    requires !IsSet(current)
    requires i < |headers| && IsSet(headers[i])
    requires forall j :: 0 <= j < i ==> !IsSet(headers[j])
    ensures AdoptAll(current, headers) == headers[i]
    decreases i
  {
    if i == 0 {
      AdoptKeepsSet(headers[0], headers[1..]);
    } else {
      assert forall j :: 0 <= j < i - 1 ==> headers[1..][j] == headers[j + 1];
      AdoptFirstWins(Adopt(current, headers[0]), headers[1..], i - 1);
    }
  }

  /** An empty session id does not count as set, so a later header replaces it. */
  lemma EmptySessionReplaced()
    ensures AdoptAll(None, [Some(""), Some("s")]) == Some("s")
  {
  }

  // ---- disconnect ----------------------------------------------------------

  /** `_disconnect_internal` on everything but the table: the listener is told
      to stop and the session, its version, capabilities and lists go. */
  function ResetConn(c: Conn): (r: Conn)
    ensures !r.sseRunning && !IsSet(r.sessionId)
    ensures r.customHeaders == c.customHeaders && r.initializing == c.initializing
    ensures r.requestTimeout == c.requestTimeout && r.resetOnProgress == c.resetOnProgress &&
      r.maxTotalTimeout == c.maxTotalTimeout
  {
    c.(sseRunning := false, sessionId := None, protocolVersion := JNull, capabilities := JObject(map[]),
       tools := [], resources := [], prompts := [])
  }

  /** `_disconnect_internal` on the table: endpoint, pending requests and
      progress times go; callbacks already invoked stay invoked. */
  function ResetTable(t: Pending.Table): (r: Pending.Table)
    ensures r.pending == map[] && r.endpoint.None? && r.delivered == t.delivered
  {
    t.(pending := map[], progress := map[], endpoint := None)
  }

  /** A disconnected state: nothing of the old session is left. */
  predicate Disconnected(c: Conn, t: Pending.Table) {
    !c.sseRunning && c.sessionId.None? && c.protocolVersion == JNull && c.capabilities == JObject(map[]) &&
    c.tools == [] && c.resources == [] && c.prompts == [] &&
    t.pending == map[] && t.progress == map[] && t.endpoint.None?
  }

  /** A disconnect leaves a disconnected state, keeps the custom headers, the
      settings, the `initializing` flag and the callbacks already invoked, and
      a second disconnect changes nothing. */
  lemma ResetSpec(c: Conn, t: Pending.Table)
    ensures Disconnected(ResetConn(c), ResetTable(t))
    ensures ResetConn(c) == c.(sseRunning := false, sessionId := None, protocolVersion := JNull,
      capabilities := JObject(map[]), tools := [], resources := [], prompts := [])
    ensures ResetTable(t).delivered == t.delivered
    ensures ResetConn(ResetConn(c)) == ResetConn(c) && ResetTable(ResetTable(t)) == ResetTable(t)
  {
  }

  /** Exactly the disconnected states are left alone by a disconnect. */
  lemma ResetFixesDisconnected(c: Conn, t: Pending.Table)
    ensures Disconnected(c, t) <==> ResetConn(c) == c && ResetTable(t) == t
  {
  }

  /** After a disconnect neither the correlator nor a monitor delivers anything
      for a request made before it. */
  lemma ResetSilencesLateAnswers(t: Pending.Table, eventType: Option<string>, data: seq<string>,
                                 parse: Parser, now: nat, m: Pending.Monitor, maxTotal: int)
    ensures Pending.ProcessFrame(ResetTable(t), eventType, data, parse, now).delivered == t.delivered
    ensures Pending.Poll(ResetTable(t), m, now, maxTotal) == (ResetTable(t), true)
  {
  }

  // ---- connect and initialize ---------------------------------------------

  /** How `_on_connect_click` begins. */
  datatype ConnectStart = Busy | NeedUrl | Started(url: string, disconnected: bool)

  /** What the click leads to: nothing while an initialize is in flight, an
      error for a blank URL, otherwise an attempt at the trimmed URL, which
      first disconnects when a session is set. */
  function Begin(c: Conn, urlField: string): (r: ConnectStart)
    ensures r == Busy <==> c.initializing
    ensures r.Started? ==> r.url != "" && r.url == Strip(urlField) && (r.disconnected <==> IsSet(c.sessionId))
  {
    if c.initializing then Busy
    else if Strip(urlField) == "" then NeedUrl
    else Started(Strip(urlField), IsSet(c.sessionId))
  }

  /** At most one initialize is in flight, and a new connection never keeps
      the old session. */
  lemma BeginSpec(c: Conn, urlField: string)
    ensures c.initializing <==> Begin(c, urlField) == Busy
    ensures Begin(c, urlField).Started? ==>
      Begin(c, urlField).url != "" && (Begin(c, urlField).disconnected <==> IsSet(c.sessionId))
  {
    if Strip(urlField) != "" {
      StripSpec(urlField);
    }
  }

  /** The `result` of a successful initialize response, when it has one that
      `.get` can read; any other response only updates the status line. */
  function InitResult(resp: Json): Option<map<string, Json>> {
    match Field(resp, "result")
    case Some(JObject(r)) => Some(r)
    case _ => None
  }

  /** The connection fields an initialize response sets. */
  function Initialized(c: Conn, resp: Json): (r: Conn)
    ensures r.(protocolVersion := c.protocolVersion, capabilities := c.capabilities) == c
    ensures InitResult(resp).None? ==> r == c
  {
    match InitResult(resp)
    case Some(r) =>
      c.(protocolVersion := if "protocolVersion" in r then r["protocolVersion"] else JNull,
         capabilities := if "capabilities" in r then r["capabilities"] else JObject(map[]))
    case None => c
  }

  /** Only a response with an object `result` changes the negotiated fields;
      an error response, or a `result` that is not an object, changes none. */
  lemma InitializedSpec(c: Conn, resp: Json)
    ensures Initialized(c, resp).(protocolVersion := c.protocolVersion, capabilities := c.capabilities) == c
    ensures Field(resp, "result").None? ==> Initialized(c, resp) == c
    ensures (Field(resp, "result").Some? && !Field(resp, "result").value.JObject?) ==> Initialized(c, resp) == c
    ensures InitResult(resp).Some? && "capabilities" !in InitResult(resp).value ==>
      Initialized(c, resp).capabilities == JObject(map[])
    ensures InitResult(resp).Some? && "capabilities" in InitResult(resp).value ==>
      Initialized(c, resp).capabilities == InitResult(resp).value["capabilities"]
    ensures forall r | InitResult(resp) == Some(r) ::
      Initialized(c, resp).protocolVersion == (if "protocolVersion" in r then r["protocolVersion"] else JNull)
    ensures InitResult(resp).Some? <==> Field(resp, "result").Some? && Field(resp, "result").value.JObject?
  {
  }

  // ---- the synchronous request -------------------------------------------

  /** What the HTTP exchange of a synchronous request yields: an exception with
      its message, or a response with its optional `mcp-session-id` header and
      its body. */
  datatype Exchange = Raised(message: string) | Reply(sessionHeader: Option<string>, body: string)

  /** What `_send_request_sync` returns for an exchange. */
  function SyncResult(x: Exchange, parse: Parser): (r: Json)
    ensures x.Raised? ==> ErrorCode(r) == Some(TransportErrorCode)
  {
    match x
    case Raised(m) => ErrorResponse(TransportErrorCode, m)
    case Reply(_, body) => Pending.OkResponse(body, parse)
  }

  /** A synchronous request always returns a truthy response: the decoded
      body, or an error whose code says why there is none. */
  lemma SyncResultSpec(x: Exchange, parse: Parser)
    ensures Truthy(SyncResult(x, parse))
    ensures x.Reply? && ParseSseBody(x.body, parse).Some? && Truthy(ParseSseBody(x.body, parse).value) ==>
      SyncResult(x, parse) == ParseSseBody(x.body, parse).value
    ensures x.Reply? && (ParseSseBody(x.body, parse).None? || !Truthy(ParseSseBody(x.body, parse).value)) ==>
      ErrorCode(SyncResult(x, parse)) == Some(ParseErrorCode)
  {
  }

  /** The request id of a call: the caller's when truthy, else the generated one. */
  function RequestId(given: Json, generated: string): Json {
    if Truthy(given) then given else JString(generated)
  }

  /** `BurpExtender`: the fields of the extension object the core reads and writes. */
  class Inspector {
    var sessionId: Option<string>
    var initializing: bool
    var sseRunning: bool
    var protocolVersion: Json
    var serverCapabilities: Json
    var tools: seq<Json>
    var resources: seq<Json>
    var prompts: seq<Json>
    var customHeaders: map<string, string>
    var requestTimeout: int
    var resetOnProgress: bool
    var maxTotalTimeout: int
    var pendingRequests: map<Json, Pending.Callback>
    var lastProgressTime: map<Json, nat>
    var sseEndpoint: Option<string>
    /** The callback invocations made so far, in order. */
    var delivered: seq<Pending.Delivery>

    function Connection(): Conn
      reads this
    {
      Conn(sessionId, initializing, sseRunning, protocolVersion, serverCapabilities, tools, resources,
           prompts, customHeaders, requestTimeout, resetOnProgress, maxTotalTimeout)
    }

    function Requests(): Pending.Table
      reads this
    {
      Pending.Table(pendingRequests, lastProgressTime, sseEndpoint, delivered)
    }

    /** `__init__`. */
    constructor ()
      ensures Connection() == Initial && Requests() == Pending.Empty
    {
      sessionId, initializing, sseRunning := None, false, false;
      protocolVersion, serverCapabilities := JNull, JObject(map[]);
      tools, resources, prompts := [], [], [];
      customHeaders := map[];
      requestTimeout, resetOnProgress, maxTotalTimeout := 30, true, 300;
      pendingRequests, lastProgressTime, sseEndpoint, delivered := map[], map[], None, [];
    }

    /** Replace the request table. */
    method Store(t: Pending.Table)
      modifies this
      ensures Requests() == t && Connection() == old(Connection())
    {
      pendingRequests, lastProgressTime, sseEndpoint, delivered := t.pending, t.progress, t.endpoint, t.delivered;
    }

    /** The first half of the reset: the session and what was negotiated in it. */
    method ClearNegotiated()
      modifies this
      ensures Connection() == old(Connection()).(sessionId := None, protocolVersion := JNull,
        capabilities := JObject(map[]))
      ensures Requests() == old(Requests())
    {
      sessionId, protocolVersion, serverCapabilities := None, JNull, JObject(map[]);
    }

    /** The second half of the reset: the lists fetched from the server. */
    method ClearLists()
      modifies this
      ensures Connection() == old(Connection()).(tools := [], resources := [], prompts := [])
      ensures Requests() == old(Requests())
    {
      tools, resources, prompts := [], [], [];
    }

    /** The headers `_send_request_sync` sends. */
    function SyncRequestHeaders(): (h: map<string, string>)
      reads this
      ensures SessionHeader in h <==> SessionHeader in customHeaders || IsSet(sessionId)
    {
      SyncHeaders(customHeaders, sessionId)
    }

    /** The URL the listener opens: the endpoint the server announced, else the
        trimmed URL field. */
    function SseUrl(urlField: string): (u: string)
      reads this
      ensures sseEndpoint.Some? && sseEndpoint.value != "" ==> u == sseEndpoint.value
      ensures !(sseEndpoint.Some? && sseEndpoint.value != "") ==> u == Strip(urlField)
    {
      if sseEndpoint.Some? && sseEndpoint.value != "" then sseEndpoint.value else Strip(urlField)
    }

    /** `_send_request_sync` once its exchange `x` is known: the headers it sent,
        the response it returns, and the session id adopted from the reply. */
    method SendSync(x: Exchange, parse: Parser) returns (sent: map<string, string>, resp: Json)
      modifies this
      ensures sent == SyncHeaders(old(customHeaders), old(sessionId))
      ensures resp == SyncResult(x, parse)
      ensures Connection() == old(Connection()).(sessionId :=
        if x.Reply? then Adopt(old(sessionId), x.sessionHeader) else old(sessionId))
      ensures Requests() == old(Requests())
    {
      sent := SyncHeaders(customHeaders, sessionId);
      match x
      case Raised(m) =>
        resp := ErrorResponse(TransportErrorCode, m);
      case Reply(header, body) =>
        if header.Some? && !IsSet(sessionId) {
          sessionId := header;
        }
        resp := Pending.OkResponse(body, parse);
    }

    /** The registration at the top of `_send_request_async`. Returns the id
        used and whether it could be stored; an unhashable id raises before
        anything changes. */
    method SubmitAsync(given: Json, generated: string, callback: Pending.Callback, now: nat)
      returns (id: Json, stored: bool)
      modifies this
      ensures id == RequestId(given, generated)
      ensures stored <==> Hashable(id)
      ensures stored ==> Requests() == Pending.Submit(old(Requests()), id, callback, now).value
      ensures !stored ==> Requests() == old(Requests())
      ensures Connection() == old(Connection())
    {
      id := RequestId(given, generated);
      stored := Hashable(id);
      if stored {
        pendingRequests := pendingRequests[id := callback];
        lastProgressTime := lastProgressTime[id := now];
      }
    }

    /** The request thread once the HTTP response arrives at time `now`: a 202
        starts a monitor clocked from now, any other status is delivered. */
    method OnResponse(id: Json, callback: Pending.Callback, status: int, body: string, parse: Parser, now: nat)
      returns (monitor: Option<Pending.Monitor>)
      modifies this
      ensures Requests() == Pending.Answered(old(Requests()), id, callback, status, body, parse)
      ensures monitor == if status == 202 then Some(Pending.Monitor(id, callback, now)) else None
      ensures Connection() == old(Connection())
    {
      monitor := None;
      if status == 202 {
        monitor := Some(Pending.Monitor(id, callback, now));
      } else {
        Store(Pending.Finish(Requests(), id, callback, Pending.StatusResponse(status, body, parse)));
      }
    }

    /** The request thread's exception handler. */
    method OnFailure(id: Json, callback: Pending.Callback, message: string)
      modifies this
      ensures Requests() == Pending.Failed(old(Requests()), id, callback, message)
      ensures Connection() == old(Connection())
    {
      Store(Pending.Failed(Requests(), id, callback, message));
    }

    /** One iteration of a monitor's loop at time `now`; `done` says it has exited. */
    method PollMonitor(m: Pending.Monitor, now: nat) returns (done: bool)
      modifies this
      ensures (Requests(), done) == Pending.Poll(old(Requests()), m, now, maxTotalTimeout)
      ensures Connection() == old(Connection())
    {
      done := true;
      if m.id in pendingRequests {
        if now - m.start > maxTotalTimeout {
          Store(Pending.Finish(Requests(), m.id, m.callback, Pending.Timeout()));
        } else {
          done := false;
        }
      }
    }

    /** `_process_sse_event` at time `now`. */
    method ProcessSseEvent(eventType: Option<string>, data: seq<string>, parse: Parser, now: nat)
      modifies this
      ensures Requests() == Pending.ProcessFrame(old(Requests()), eventType, data, parse, now)
      ensures Connection() == old(Connection())
    {
      Store(Pending.ProcessFrame(Requests(), eventType, data, parse, now));
    }

    /** `_start_sse_listener`: start a listener unless one is running. */
    method StartSseListener() returns (started: bool)
      modifies this
      ensures started <==> !old(sseRunning)
      ensures Connection() == old(Connection()).(sseRunning := true)
      ensures Requests() == old(Requests())
    {
      started := !sseRunning;
      sseRunning := true;
    }

    /** Stop the listener: the last statement of its thread once its loop has
        ended, and the first step of a disconnect. */
    method SseListenerStopped()
      modifies this
      ensures Connection() == old(Connection()).(sseRunning := false)
      ensures Requests() == old(Requests())
    {
      sseRunning := false;
    }

    /** `_disconnect_internal`. */
    method DisconnectInternal()
      modifies this
      ensures Connection() == ResetConn(old(Connection()))
      ensures Requests() == ResetTable(old(Requests()))
    {
      SseListenerStopped();
      ClearNegotiated();
      Store(ResetTable(Requests()));
      ClearLists();
    }

    /** The part of `_on_connect_click` before the initialize thread starts. */
    method BeginConnect(urlField: string) returns (outcome: ConnectStart)
      modifies this
      ensures outcome == Begin(old(Connection()), urlField)
      ensures !outcome.Started? ==> Connection() == old(Connection()) && Requests() == old(Requests())
      ensures outcome.Started? && outcome.disconnected ==>
        Connection() == ResetConn(old(Connection())).(initializing := true) &&
        Requests() == ResetTable(old(Requests()))
      ensures outcome.Started? && !outcome.disconnected ==>
        Connection() == old(Connection()).(initializing := true) && Requests() == old(Requests())
    {
      if initializing {
        return Busy;
      }
      var url := Strip(urlField);
      if url == "" {
        return NeedUrl;
      }
      var wasSet := IsSet(sessionId);
      if wasSet {
        DisconnectInternal();
      }
      initializing := true;
      outcome := Started(url, wasSet);
    }

    /** The initialize thread once its response `resp` is in: a usable result
        sets the negotiated fields and, when a session id is set, starts the
        listener; in every case `initializing` is cleared. */
    method FinishConnect(resp: Json) returns (listener: bool)
      modifies this
      ensures listener <==> InitResult(resp).Some? && IsSet(old(sessionId)) && !old(sseRunning)
      ensures var c := Initialized(old(Connection()), resp);
        Connection() == c.(initializing := false,
          sseRunning := if InitResult(resp).Some? && IsSet(old(sessionId)) then true else c.sseRunning)
      ensures Requests() == old(Requests())
    {
      listener := false;
      Negotiate(resp);
      if InitResult(resp).Some? && IsSet(sessionId) {
        listener := StartSseListener();
      }
      initializing := false;
    }

    /** The assignments of the initialize thread's success branch. */
    method Negotiate(resp: Json)
      modifies this
      ensures Connection() == Initialized(old(Connection()), resp)
      ensures Requests() == old(Requests())
    {
      match InitResult(resp) {
        case Some(r) =>
          protocolVersion, serverCapabilities :=
            if "protocolVersion" in r then r["protocolVersion"] else JNull,
            if "capabilities" in r then r["capabilities"] else JObject(map[]);
        case None =>
      }
    }

    /** The OK branch of the header dialog: the parsed text replaces the custom
        headers. */
    method SetCustomHeaders(text: string)
      modifies this
      ensures Connection() == old(Connection()).(customHeaders := ParseHeaderText(text))
      ensures Requests() == old(Requests())
    {
      customHeaders := ParseHeaderText(text);
    }

    /** The OK branch of the timeout settings dialog. */
    method ApplySettings(requestTimeout': int, resetOnProgress': bool, maxTotalTimeout': int)
      modifies this
      ensures Connection() == old(Connection()).(requestTimeout := requestTimeout',
        resetOnProgress := resetOnProgress', maxTotalTimeout := maxTotalTimeout')
      ensures Requests() == old(Requests())
    {
      requestTimeout, resetOnProgress, maxTotalTimeout := requestTimeout', resetOnProgress', maxTotalTimeout';
    }
  }

  /** A whole connect attempt on one thread: the click, the initialize
      exchange and its handling. A new session never inherits the old one's
      id: when the attempt starts, the id is the one the initialize reply
      brings, if any. */
  method Connect(ins: Inspector, urlField: string, x: Exchange, parse: Parser) returns (outcome: ConnectStart)
    modifies ins
    ensures outcome == Begin(old(ins.Connection()), urlField)
    ensures outcome.Started? ==>
      !ins.initializing &&
      ins.sessionId == (if x.Reply? then Adopt(if outcome.disconnected then None else old(ins.sessionId), x.sessionHeader)
                        else if outcome.disconnected then None else old(ins.sessionId))
    ensures !outcome.Started? ==> ins.Connection() == old(ins.Connection()) && ins.Requests() == old(ins.Requests())
  {
    outcome := ins.BeginConnect(urlField);
    if outcome.Started? {
      var _, resp := ins.SendSync(x, parse);
      var _ := ins.FinishConnect(resp);
    }
  }
}
