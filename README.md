# MCP Inspector transport and session core, in Dafny

MCP Inspector is a Burp Suite extension (`mcp_inspector.py`, class
`BurpExtender`). It talks JSON-RPC to an MCP server over HTTP, with an optional
Server-Sent-Events (SSE) stream. This project models the part of the extension
that carries state and parses text. The Swing UI and the Java networking
around it are not modelled.

The model covers:

- **`Json`**: decoded JSON values, plus two pieces of Python behaviour the
  code depends on:
  - truthiness (`x or default`, `if parsed`);
  - which values can be dictionary keys.

  `json.loads` is not reimplemented. Every operation that decodes text takes
  it as a parameter `parse: string -> Option<Json>`, where None stands for
  `ValueError`.
- **`Text`**: the Python string operations the code uses: `strip`, `in`,
  `replace`, `split`, `join` and `s[:n]`. Their properties are proved, not
  assumed.
- **`Unescape`**: `_deep_unescape_json`, the depth-bounded rewrite behind
  "Unescape JSON".
- **`FrameCodec`**: `_parse_sse_body`. A body is either one JSON document or
  SSE blocks separated by blank lines.
- **`SseScanner`**: the line loop inside the SSE listener. It is written as a
  method with a loop, proved equal to a fold of one `Step` per line.
- **`Pending`**: the pending-request table and the three actors that resolve
  it:
  - the SSE correlator (`_process_sse_event`);
  - the status dispatcher of `_send_request_async`;
  - the 202 timeout monitor.

  A resolution removes an id and records one callback delivery. Callbacks are
  tokens; a delivery is a `(callback, response)` pair. Time is an explicit
  parameter in seconds.
- **`Headers`**: the custom-header dialog's parser and the header sets the two
  request paths send.
- **`Schema`**: `_get_param_summary` and `_generate_sample_args`.
- **`History`**:
  - the request history (50 entries, a cursor, back, forward and clear) as
    the class `Ring`;
  - the 5000-line trim of the log pane.
- **`Session`**: the extension object as the class `Inspector`. Its fields
  are those of `__init__`. Each method updates them in place the way the
  source does, and its `ensures` ties the new state to `Pending`'s functions
  or to the session functions next to the class. The methods cover:
  - adopting the session id;
  - the `initializing` guard;
  - the automatic disconnect before a reconnect;
  - the full reset;
  - the initialize response;
  - the header dialog and the settings dialog.

Three behaviours differ from what the extension's features suggest, and one
return value is easy to misread. The model follows the code in each:

- **Monitor clock.** The timeout monitor's clock starts when the 202 arrives
  (mcp_inspector.py:1095), not at submission.
- **Progress events.** The settings dialog offers a "Reset Timeout on
  Progress" checkbox (mcp_inspector.py:631-633) and stores it in
  `reset_on_progress` (mcp_inspector.py:650). The field is only shown back,
  in the server-info text (mcp_inspector.py:567) and the dialog's checkbox
  (mcp_inspector.py:633): no request, monitor or correlator code reads it, so
  it never affects a deadline. A progress event always refreshes
  `last_progress_time` (mcp_inspector.py:941), and that map is only ever
  written (mcp_inspector.py:43, 941, 1028, 1074), so the monitor's deadline
  never moves.
- **Idempotence of unescaping.** Deep unescaping is not idempotent.
  `Unescape.CapBreaksIdempotence` and `Unescape.ChainExists` show a value
  that changes on a second pass, because the depth cap stopped the first
  pass halfway. `Unescape.TopLevelNotIdempotent` shows the same at depth 0,
  where the extension starts (mcp_inspector.py:429): a chain wrapped in ten
  one-element lists changes again when the button is pressed twice.
- **JSON null.** `_parse_sse_body` can return a JSON `null`. The model returns
  `Some(JNull)`, which every caller treats like `None` because both are falsy.

The `Inspector` methods keep the as-written resolution of the pending table:
`Pending.Answered`, `Pending.Failed` and `Pending.Poll`. The corrected
resolution (`Pending.Resolve`, with its gated variants) drives the trace
semantics `Pending.Run`. The at-most-once delivery theorem is proved against
`Run`.

## Model

| member | source | states |
|---|---|---|
| Json.Field | mcp_inspector.py:940-946 | The check `key in parsed` followed by the subscript `parsed[key]` yields a value exactly when the decoded value is an object holding the key. A list or string passes `in` but fails the subscript, which the handler swallows. |
| Json.ErrorResponse | mcp_inspector.py:1064-1066 | The synthetic `{"error": {"code", "message"}}` response is truthy and carries the given code. |
| Text.StripSpec | mcp_inspector.py:464 | After `strip()`, neither end of the result is whitespace. |
| Text.TrimLeftSpec | mcp_inspector.py:464 | The left strip removes exactly the longest all-whitespace prefix. |
| Text.TrimRightSpec | mcp_inspector.py:464 | The right strip removes exactly the longest all-whitespace suffix. |
| Text.StripEmptyIffAllSpace | mcp_inspector.py:843 | `not body.strip()` holds exactly for all-whitespace text. |
| Text.StripIdempotent | mcp_inspector.py:899-909 | Stripping twice is stripping once, so re-stripping a stripped line changes nothing. |
| Text.ReplaceAll | mcp_inspector.py:487-495 | `replace` leaves a text without the searched pattern unchanged. |
| Text.JoinSplitOn | mcp_inspector.py:516-519 | Joining the pieces of a split at the same character gives back the text. |
| Text.SplitOnJoin | mcp_inspector.py:516-519 | Splitting the join of newline-free pieces gives back the pieces. |
| Text.JoinContains | mcp_inspector.py:669 | Every piece of `", ".join(...)` occurs in the joined text. |
| Text.Take | mcp_inspector.py:1114 | `body[:200]` is the prefix of length `min(len(body), 200)`. |
| Unescape.DeepUnescape | mcp_inspector.py:448-508 | Above depth 10 the value is returned unchanged. Below the cap an object keeps its key set and a list its length. Null, booleans and numbers are returned unchanged. Termination is by `decreases 11 - depth`. |
| Unescape.Each | mcp_inspector.py:460-461 | A list is rebuilt in order, each item processed one level deeper. |
| Unescape.StringUntouched | mcp_inspector.py:463-506 | A string that is not a candidate, or whose two parse attempts both fail, is returned as it was. |
| Unescape.ReparseNoBackslash | mcp_inspector.py:476-495 | A string whose stripped text has no backslash has exactly one decoding attempt that matters: its result is that of parsing the stripped text. |
| Unescape.DeepUnescapeKeepsShape | mcp_inspector.py:454-461 | At every depth, containers keep their keys, length and order, scalars are unchanged, and only candidate strings can be replaced. |
| Unescape.SettledIsFixed | mcp_inspector.py:463-506 | A value with no candidate string anywhere comes back unchanged. |
| Unescape.SelfEmbeddingTerminates | mcp_inspector.py:451-452 | A string that parses back to itself recurses up to the cap and comes back unchanged. |
| Unescape.DeepUnescapeNest | mcp_inspector.py:460-461 | Each enclosing one-element list costs exactly one level of depth. |
| Unescape.StringStep | mcp_inspector.py:476-500 | A candidate that decodes is replaced by its decoded value, processed one level deeper. |
| Unescape.CapBreaksIdempotence | mcp_inspector.py:451-452 | A chain of stringified values met at the cap changes again on a second pass, so the transform is not idempotent at the cap. |
| Unescape.TopLevelNotIdempotent | mcp_inspector.py:429-452 | The same chain wrapped in ten one-element lists, processed from depth 0 as the "Unescape JSON" button does, changes again on a second pass. |
| Unescape.ChainExists | mcp_inspector.py:467-500 | Some decoder meets the hypotheses of `CapBreaksIdempotence`. |
| FrameCodec.ParseSseBody | mcp_inspector.py:842-865 | A blank body gives None. A body that parses whole is returned as it is. Otherwise the result is that of the block loop over the blocks of the stripped body. |
| FrameCodec.SplitBlocks | mcp_inspector.py:849 | `re.split(r'\n\n+')` yields at least one block, and no block contains a blank line. |
| FrameCodec.SplitBlocksCut | mcp_inspector.py:849 | A text of several blocks is its first block, then a run of two or more newlines, then a rest that does not start with a newline and splits into the remaining blocks. The first block has no blank line and does not end in a newline, so the cut is at the leftmost, maximal run. |
| FrameCodec.OneBlockIffNoBlankLine | mcp_inspector.py:849 | A text is a single block exactly when it contains no two adjacent newlines, and a single block is always the whole text. |
| FrameCodec.DataValue | mcp_inspector.py:855-858 | A kept `data:` payload is neither empty nor `ping`. |
| FrameCodec.DataValueSpec | mcp_inspector.py:855-858 | A line yields a payload exactly when, once stripped, it starts with `data:` and the stripped remainder is neither empty nor `ping`; the payload is that stripped remainder. |
| FrameCodec.DataPayloads | mcp_inspector.py:853-859 | A block's kept payloads are never empty and never `ping`. |
| FrameCodec.DataPayloadsAppend | mcp_inspector.py:853-859 | The payload list is built line by line in order: one more line adds its payload at the end when it has one, and nothing otherwise. |
| FrameCodec.FirstParsableIsFirst | mcp_inspector.py:850-864 | The block loop returns `v` exactly when some block decodes to `v` and every block before it decodes to nothing. |
| FrameCodec.FirstParsableNone | mcp_inspector.py:850-865 | The block loop returns None exactly when no block decodes. |
| FrameCodec.SilentBlockSkipped | mcp_inspector.py:860 | A block without kept payloads is skipped, whatever the decoder. |
| SseScanner.ScanFrames | mcp_inspector.py:893-911 | The reading loop dispatches exactly the frames of the fold of `Step` over the lines, in order. |
| SseScanner.Step | mcp_inspector.py:896-911 | A line dispatches a frame only when payloads have been gathered, and the frame is the gathered event type and payloads. |
| SseScanner.Feed | mcp_inspector.py:896-911 | One pass of the loop body is one `Step` of the scanner state. |
| SseScanner.BlankLineDispatches | mcp_inspector.py:900-905 | A blank line dispatches only when data has been gathered, and then resets both variables. With no data it leaves the event type as it was. |
| SseScanner.EventLineSetsType | mcp_inspector.py:906-907 | An `event:` line replaces the type, keeps the payloads and dispatches nothing. |
| SseScanner.DataLineAppends | mcp_inspector.py:908-911 | A kept `data:` payload is appended after the gathered ones. |
| SseScanner.OtherLinesIgnored | mcp_inspector.py:906-911 | Other lines, and `data:` lines whose payload is empty or `ping`, change nothing. |
| SseScanner.StepClean | mcp_inspector.py:908-911 | Gathered payloads stay free of empty and `ping` values, and a dispatched frame is non-empty. |
| SseScanner.FramesClean | mcp_inspector.py:893-911 | Every frame of a stream is non-empty, and none of its payloads is empty or `ping`. |
| SseScanner.RunAppend | mcp_inspector.py:895-911 | Scanning two pieces of a stream one after the other is scanning the whole stream. |
| SseScanner.NoBlankNoFrames | mcp_inspector.py:900-905 | Lines none of which is blank dispatch nothing. |
| SseScanner.TrailingDataDropped | mcp_inspector.py:896-898 | Payloads after the last blank line are dropped when the stream ends. |
| Pending.Submit | mcp_inspector.py:1073-1074 | Submission succeeds exactly when the id is hashable. The new table is the old one with the callback stored under the id and its progress time set to now; the endpoint and past deliveries are unchanged. |
| Pending.ProcessFrame | mcp_inspector.py:928-951 | The correlator never adds or rebinds a pending id. It either delivers nothing, or removes a pending request and appends exactly one delivery, to a callback that was registered. |
| Pending.EmptyFrameIgnored | mcp_inspector.py:929-930 | A frame without data changes nothing. |
| Pending.EndpointFrame | mcp_inspector.py:932-937 | An `endpoint` frame sets the endpoint to the joined data and touches nothing else. |
| Pending.ProgressFrame | mcp_inspector.py:938-942 | A `progress` frame sets only `last_progress_time[id]`, to now, when its payload is an object with a hashable id. Otherwise nothing changes. |
| Pending.ResponseFrameResolves | mcp_inspector.py:943-949 | A frame with `jsonrpc` and a pending `id` removes that id and invokes its registered callback once, with the message. |
| Pending.UnmatchedFrameIgnored | mcp_inspector.py:943-951 | An undecodable frame, one without `jsonrpc` or `id`, or one with an id that is not pending leaves all state unchanged. |
| Pending.ProcessFrameKeeps | mcp_inspector.py:928-951 | The correlator preserves the at-most-once invariant. |
| Pending.Finish | mcp_inspector.py:1107-1118 | The shared tail removes the id from the pending table, appends one delivery to the request's own callback, and leaves progress times and the endpoint unchanged. |
| Pending.Answered | mcp_inspector.py:1093-1114 | A 202 changes nothing. Any other status removes the id and appends one delivery, to the request's own callback. |
| Pending.Failed | mcp_inspector.py:1115-1118 | An exception removes the id and appends one delivery to the request's callback, carrying the -1 transport error code. |
| Pending.FailedCases | mcp_inspector.py:1115-1118 | The exception branch's whole new table: the id removed, progress and endpoint unchanged, one delivery of `{code: -1, message: str(e)}` appended. |
| Pending.Poll | mcp_inspector.py:1094-1102 | The monitor stops exactly when the id is no longer pending afterwards. While it goes on waiting nothing changes, and it delivers at most the timeout error to its own callback. |
| Pending.OkResponse | mcp_inspector.py:1109-1110 | A 200 always delivers something truthy. |
| Pending.AnsweredCases | mcp_inspector.py:1093-1114 | A 202 leaves the id pending. Any other status removes the id and delivers once: for a 200, the decoded body or the parse error; otherwise `{code: status, message: body[:200]}`. |
| Pending.PollCases | mcp_inspector.py:1094-1102 | The monitor stops once the id is gone, waits while time remains, and after more than the maximum removes the id and delivers the -32000 timeout. |
| Pending.ResolveExactlyOnce | mcp_inspector.py:946-949 | Gated resolution invokes a callback only while it is the one registered for the id, and then exactly once more. Otherwise nothing changes. |
| Pending.AtMostOnceCount | mcp_inspector.py:946-949 | Under the invariant no callback has been invoked more than once. |
| Pending.SubmitKeeps | mcp_inspector.py:1073-1074 | Submitting a fresh callback under a hashable id keeps the invariant. |
| Pending.ResolveKeeps | mcp_inspector.py:1106-1118 | Gated resolution keeps the invariant. |
| Pending.ApplyKeeps | mcp_inspector.py:928-1118 | Every gated event keeps the invariant, and learns at most the callback it submits. |
| Pending.RunAtMostOnce | mcp_inspector.py:928-1118 | Over any interleaving of submissions, frames, answers, failures and polls, corrected resolution never invokes a callback twice. |
| Pending.DoubleDelivery | mcp_inspector.py:1106-1114 | Counterexample: as written, a response that arrives both on the stream and as a 500 reaches its callback twice. The gated trace reaches it once. |
| Pending.MonitorDoubleDelivery | mcp_inspector.py:1100-1102 | Counterexample: as written, a monitor that outlives its request removes a later request under the same id and invokes its old callback again. The gated monitor leaves the later request pending. |
| Headers.ParseLinesKeys | mcp_inspector.py:604-610 | A name is a custom header exactly when some usable line (non-blank, not `#`, with a colon) carries it, split at the first colon and trimmed. |
| Headers.ParseLinesLastWins | mcp_inspector.py:610 | A later line with the same name overwrites an earlier one. |
| Headers.ParseLinesTrimmed | mcp_inspector.py:610 | Every stored name and value is already trimmed. |
| Headers.ParseHeaderText | mcp_inspector.py:604-610 | The dialog text is split into lines and parsed; every name and value of the result is trimmed. |
| Headers.IgnoredLine | mcp_inspector.py:607 | Blank lines, comments and lines without a colon change nothing. |
| Headers.SyncHeaders | mcp_inspector.py:1048-1051 | The synchronous request sends the two defaults, the custom headers, and the session header exactly when a session id is set. |
| Headers.SyncHeadersPriority | mcp_inspector.py:1048-1051 | Each value comes from the highest source: session id, then custom headers, then defaults. |
| Headers.CustomList | mcp_inspector.py:1085-1086 | Given the dict order of the custom headers, the asynchronous builder adds them one by one in that order: as many entries as headers, each with its own value, and each header exactly once. |
| Headers.AsyncHeaders | mcp_inspector.py:1083-1088 | The asynchronous request sends the two defaults first, then every custom header in its own slot, then the session header exactly when a session id is set. |
| Headers.CustomContentTypeSentTwice | mcp_inspector.py:1083-1086 | A custom `Content-Type` replaces the default on the synchronous path but is sent next to it on the asynchronous one. |
| Schema.Marked | mcp_inspector.py:662-667 | The list keeps one entry per property, in order, starred exactly when the name is `in required`. |
| Schema.ParamSummary | mcp_inspector.py:655-669 | A summary exists exactly when the schema is an object whose properties are falsy, or a dict with a `required` that `in` can search; otherwise the function raises. |
| Schema.SummaryNone | mcp_inspector.py:656-660 | Falsy properties of any type give "none". A schema that is not an object raises. |
| Schema.SummaryRaises | mcp_inspector.py:663-664 | Truthy properties that are not a dict, or a `required` that `in` cannot search, raise. |
| Schema.SummaryListsFirstFive | mcp_inspector.py:662-669 | Each of the first five properties appears in the summary, starred when required, and more than five end in "...". |
| Schema.SampleArgsCovers | mcp_inspector.py:671-698 | The sample holds exactly the schema's properties, each with the value chosen for it. It exists exactly when every property's value can be chosen. |
| Schema.SampleArgs | mcp_inspector.py:671-698 | A sample exists only for an object schema with dict properties, and then its keys are exactly the property names. |
| Schema.SampleFor | mcp_inspector.py:677-696 | A property gets no value exactly when its detail is not a dict, or it has no default or example and a truthy enum that cannot be indexed. |
| Schema.SampleArgsRaises | mcp_inspector.py:673-676 | A schema, a `properties` value or a property detail that is not a dict raises. |
| Schema.SamplePriority | mcp_inspector.py:677-686 | Default beats example beats enum. A null default or example counts as absent, and an enum that cannot be indexed raises. |
| Schema.FallbackConforms | mcp_inspector.py:687-696 | Without default, example or enum, a number, boolean, array, object or string property gets a value of its declared type. |
| Schema.IntegerGetsString | mcp_inspector.py:695-696 | An "integer" property gets the empty string. |
| History.KeepLastSpec | mcp_inspector.py:771-772 | Trimming keeps the newest `min(n, count)` items in order, the newest of all among them. |
| History.Ring.constructor | mcp_inspector.py:48-49 | The history starts empty, with the cursor at -1. |
| History.Ring.Add | mcp_inspector.py:769-774 | Append, keep the newest 50, and put the cursor on the new entry. Forward is then disabled and the invariant holds. |
| History.Ring.Back | mcp_inspector.py:776-782 | If the cursor is past the first entry, step back and show that entry. Otherwise nothing changes. |
| History.Ring.Forward | mcp_inspector.py:784-790 | If the cursor is before the last entry, step forward and show that entry. Otherwise nothing changes. |
| History.Ring.Clear | mcp_inspector.py:836-839 | No entries, cursor at -1, both buttons disabled. |
| History.BackThenForward | mcp_inspector.py:776-790 | Walking back and forward again returns the cursor to where it was. |
| History.AppendLog | mcp_inspector.py:514-519 | The pane after a message is a suffix of the old text plus the message and a newline, never longer than that text. |
| History.AppendLogSpec | mcp_inspector.py:514-519 | The pane holds exactly the newest 5000 lines of the appended text, as a suffix of that text. |
| Session.Adopt | mcp_inspector.py:1060-1062 | A set session id is kept. Otherwise a present header replaces it, and the result is always the old id or the header. |
| Session.AdoptKeepsSet | mcp_inspector.py:1061-1062 | Once a session id is set, no later response replaces it. |
| Session.AdoptFirstWins | mcp_inspector.py:1060-1062 | Over a run of responses, the first present, non-empty session header wins. |
| Session.EmptySessionReplaced | mcp_inspector.py:1061 | An adopted empty id does not count as set, so a later header replaces it. |
| Session.ResetConn | mcp_inspector.py:1012-1028 | A disconnect stops the listener and unsets the session id, and keeps the custom headers, the `initializing` flag and the three timeout settings. |
| Session.ResetTable | mcp_inspector.py:1012-1028 | A disconnect empties the pending table and forgets the endpoint, and keeps past deliveries. |
| Session.ResetSpec | mcp_inspector.py:1012-1028 | A disconnect clears the session id, endpoint, protocol version, capabilities, lists, pending requests and progress times, and stops the listener. It keeps custom headers, settings and past deliveries, and a second disconnect changes nothing. |
| Session.ResetFixesDisconnected | mcp_inspector.py:1015-1028 | The states a disconnect leaves alone are exactly the disconnected ones. |
| Session.ResetSilencesLateAnswers | mcp_inspector.py:1027 | After a disconnect, neither the correlator nor a monitor delivers anything. |
| Session.Begin | mcp_inspector.py:953-967 | A click is turned away exactly while an initialize is in flight. A started attempt uses the trimmed, non-empty URL field, and disconnects first exactly when a session id is set. |
| Session.BeginSpec | mcp_inspector.py:953-967 | A click is ignored exactly while an initialize is in flight. An attempt has a non-empty URL and disconnects first exactly when a session id is set. |
| Session.Initialized | mcp_inspector.py:978-981 | The initialize response changes at most the protocol version and the capabilities, and a response without an object `result` changes nothing. |
| Session.InitializedSpec | mcp_inspector.py:978-981 | A usable result is exactly an object `result`. It sets the protocol version to the result's `protocolVersion` (null when absent) and the capabilities to the result's `capabilities`, or `{}` when absent. Any other response changes neither. |
| Session.SyncResult | mcp_inspector.py:1065-1066 | An exception gives the -1 transport error. |
| Session.SyncResultSpec | mcp_inspector.py:1064 | The synchronous result is the decoded body when that is truthy, otherwise the -32700 parse error, so it is always truthy. |
| Session.Inspector.constructor | mcp_inspector.py:30-50 | The fields start as `__init__` sets them: no session, empty table, timeouts 30 and 300, reset-on-progress on. |
| Session.Inspector.SyncRequestHeaders | mcp_inspector.py:1048-1051 | The synchronous path sends a session header exactly when a custom one is given or a session id is set. |
| Session.Inspector.SseUrl | mcp_inspector.py:871 | The listener opens the announced endpoint when there is one, otherwise the trimmed URL field. |
| Session.Inspector.SendSync | mcp_inspector.py:1043-1066 | Returns the header map sent and the response. Adopts the reply's session id only while none is set, and changes nothing else. |
| Session.Inspector.SubmitAsync | mcp_inspector.py:1071-1074 | Uses the caller's id when it is truthy, otherwise the generated one. Registers it in the table when it is hashable; otherwise changes nothing. |
| Session.Inspector.OnResponse | mcp_inspector.py:1091-1114 | Updates the table as `Pending.Answered`. A 202 also returns a monitor clocked from the 202's arrival. |
| Session.Inspector.OnFailure | mcp_inspector.py:1115-1118 | Updates the table as `Pending.Failed`. |
| Session.Inspector.PollMonitor | mcp_inspector.py:1096-1102 | Updates the table as `Pending.Poll` with the current `max_total_timeout`. |
| Session.Inspector.ProcessSseEvent | mcp_inspector.py:928-951 | Updates the table as `Pending.ProcessFrame`, and nothing else. |
| Session.Inspector.StartSseListener | mcp_inspector.py:867-870 | Starts a listener exactly when none is running. Afterwards one is running. |
| Session.Inspector.SseListenerStopped | mcp_inspector.py:921 | Clears `sse_running` and nothing else. |
| Session.Inspector.DisconnectInternal | mcp_inspector.py:1012-1028 | The new state is the reset of the old one. |
| Session.Inspector.BeginConnect | mcp_inspector.py:953-967 | Busy or a blank URL change nothing. Otherwise an attempt starts with `initializing` set, after a full reset when a session id was set. |
| Session.Inspector.FinishConnect | mcp_inspector.py:978-1008 | Applies the initialize response. Starts the listener when the result is usable and a session id is set. Always clears `initializing`. |
| Session.Inspector.SetCustomHeaders | mcp_inspector.py:604-612 | The parsed dialog text replaces the custom headers entirely. |
| Session.Inspector.ApplySettings | mcp_inspector.py:648-651 | The dialog's three values replace the timeout settings. |
| Session.Connect | mcp_inspector.py:953-1008 | A full connect on one thread returns the outcome `Begin` predicts; an ignored click changes nothing. A started attempt ends with `initializing` cleared. Its session id is the reply's header adopted over the old id, and the old id is dropped first when the attempt disconnected. A raised exchange adopts nothing. |

## Left out

- The Swing and Burp UI: tabs, tables, editors, status line, server-info text, clipboard and themes.
- `_log`'s console output and caret handling. The log trim is modelled as a function of the pane's text.
- Java networking: the HTTP client, `URL.openConnection` and the SSE reader. Each exchange is an input, either a status and body or an exception message, and the stream is a finite list of lines.
- Threads, `time.sleep` and `join(timeout=2)`. Each handler runs atomically. Interleavings are modelled only as orders of whole handler steps (`Pending.Run`). Races inside one handler's check-then-delete are not modelled.
- The SSE listener's connection and retry loop (mcp_inspector.py:874-920): `retry_count`, the 405 exit and the headers of the GET. The scanner runs over the lines of one stream, and the `while self.sse_running` stop is not modelled.
- The request-id generation from the clock and the thread id (mcp_inspector.py:1044-1045, 1071-1072). The generated id is a parameter.
- The internals of `json.loads` and `json.dumps`, including building the request payload. Decoding is the `parse` parameter.
- Floating-point time: `time.time()` is a natural number of seconds. JSON numbers are integers.
- Python's `True == 1` and `1 == 1.0` key collisions. Ids are compared as JSON values.
- Unicode whitespace: `strip()` is modelled for the six characters ' \t\n\r\v\f' only. Unicode strings also lose `\x1c`-`\x1f`, `\x85` and the other Unicode spaces.
- Callbacks that raise: a delivery is recorded and callbacks are assumed not to raise.
- The HTTP timeout (`timeout or self.request_timeout`, mcp_inspector.py:1069-1070). It only reaches the Java client.
- `_list_tools` and the other list handlers that fill `tools`, `resources` and `prompts`, including the automatic tool listing after connect (mcp_inspector.py:997).
- Schema.SummaryListsFirstFive: states that each of the first five names appears, not that nothing else does. Names could themselves contain ", ", so the summary cannot be split back reliably.
- Schema.ParamSummary: takes the dict's iteration order as a parameter (`OrderFits`), because Jython does not fix an order.
- Session.Inspector.FinishConnect: the status-line and server-info updates of the success and error branches are not modelled.

## Findings

| source | as written | input that shows it | evidently intended | confidence | as-written member | corrected member |
|---|---|---|---|---|---|---|
| mcp_inspector.py:1106-1118 | the 200, other-status and exception branches invoke `callback` whether or not `req_id` is still pending | submit id 1 with callback 7; the SSE frame `{"jsonrpc": "2.0", "id": 1}` resolves it; the POST then returns 500, and callback 7 is invoked a second time | invoke the callback only when this request's entry was still pending, removing it in the same step | not executed | Pending.DoubleDelivery | Pending.RunAtMostOnce |
| mcp_inspector.py:1100-1102 | after the total timeout the monitor deletes whatever is pending under `req_id` and invokes its own callback, without checking that the entry is still its own | id 1 gets a 202 (callback 7); the stream resolves it; the editor resubmits id 1 (callback 8); the first monitor polls after 300 s, removes request 8's entry and invokes callback 7 again | give up only on the monitor's own entry (`pending[req_id] is callback`) | not executed | Pending.MonitorDoubleDelivery | Pending.RunAtMostOnce |
