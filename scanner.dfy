/** The line scanner inside the SSE listener: two variables, the pending event
    type and the payloads gathered so far, turn the lines read from the stream
    into the frames handed to the dispatcher.
 */
module SseScanner {
  import opened Json
  import opened Text
  import opened FrameCodec

  /** One dispatched event: its `event:` type (None when the stream gave none)
      and its payloads in arrival order. */
  datatype Frame = Frame(eventType: Option<string>, data: seq<string>)

  /** The scanner's two variables `event_type` and `event_data`. */
  datatype Scanner = Scanner(eventType: Option<string>, data: seq<string>)

  const Idle := Scanner(None, [])

  /** Payloads the scanner has gathered are never empty and never `ping`. */
  predicate Clean(data: seq<string>) {
    forall i :: 0 <= i < |data| ==> data[i] != "" && data[i] != "ping"
  }

  /** One line: a blank line dispatches what has been gathered (and only then
      resets both variables), `event:` replaces the type, a kept `data:` payload
      is appended, and every other line is ignored. */
  function Step(st: Scanner, raw: string): (r: (Scanner, Option<Frame>))
    ensures r.1.Some? ==> st.data != [] && r.1.value == Frame(st.eventType, st.data)
  {
    var line := Strip(raw);
    if line == "" then
      if st.data != [] then (Idle, Some(Frame(st.eventType, st.data))) else (st, None)
    else if StartsWith(line, "event:") then
      (st.(eventType := Some(Strip(line[6..]))), None)
    else
      match DataValue(line)
      case Some(d) => (st.(data := st.data + [d]), None)
      case None => (st, None)
  }

  function Emitted(o: Option<Frame>): seq<Frame> {
    match o
    case Some(f) => [f]
    case None => []
  }

  /** The scanner after `lines`, from `st`, with the frames dispatched on the way. */
  function Run(st: Scanner, lines: seq<string>): (Scanner, seq<Frame>)
    decreases |lines|
  {
    if lines == [] then (st, [])
    else
      var next := Step(st, lines[0]);
      var rest := Run(next.0, lines[1..]);
      (rest.0, Emitted(next.1) + rest.1)
  }

  /** The frames a stream of lines yields; whatever is still gathered when the
      stream ends is dropped. */
  function Frames(lines: seq<string>): seq<Frame> {
    Run(Idle, lines).1
  }

  /** The reading loop. */
  method ScanFrames(lines: seq<string>) returns (frames: seq<Frame>)
    ensures frames == Frames(lines)
  {
    var eventType: Option<string> := None;
    var data: seq<string> := [];
    frames := [];
    var i := 0;
    while i < |lines|
      invariant 0 <= i <= |lines|
      invariant Frames(lines) == frames + Run(Scanner(eventType, data), lines[i..]).1
    {
      ghost var before, st := frames, Scanner(eventType, data);
      assert lines[i..][0] == lines[i] && lines[i..][1..] == lines[i + 1..];
      RunCons(st, lines[i..]);
      var frame;
      eventType, data, frame := Feed(eventType, data, lines[i]);
      if frame.Some? {
        frames := frames + [frame.value];
      }
      assert frames == before + Emitted(frame);
      ghost var rest := Run(Scanner(eventType, data), lines[i + 1..]).1;
      assert Run(st, lines[i..]).1 == Emitted(frame) + rest;
      AppendAssoc(before, Emitted(frame), rest);
      i := i + 1;
    }
  }

  /** The body of the reading loop: one line read from the stream. */
  method Feed(eventType: Option<string>, data: seq<string>, raw: string)
    returns (eventType': Option<string>, data': seq<string>, frame: Option<Frame>)
    ensures (Scanner(eventType', data'), frame) == Step(Scanner(eventType, data), raw)
  {
    eventType', data', frame := eventType, data, None;
    var line := Strip(raw);
    if line == "" {
      BlankLineDispatches(Scanner(eventType, data), raw);
      if data != [] {
        frame := Some(Frame(eventType, data));
        eventType', data' := None, [];
      }
    } else if StartsWith(line, "event:") {
      EventLineSetsType(Scanner(eventType, data), raw);
      eventType' := Some(Strip(line[6..]));
    } else if StartsWith(line, "data:") && Strip(line[5..]) != "" && Strip(line[5..]) != "ping" {
      var d := Strip(line[5..]);
      DataLineAppends(Scanner(eventType, data), raw, d);
      data' := data + [d];
    } else {
      OtherLinesIgnored(Scanner(eventType, data), raw);
    }
  }

  /** `Run` unfolded once at the front. */
  lemma RunCons(st: Scanner, lines: seq<string>)
    requires lines != []
    ensures var next := Step(st, lines[0]);
      Run(st, lines).1 == Emitted(next.1) + Run(next.0, lines[1..]).1
  {
  }

  lemma AppendAssoc<T>(a: seq<T>, b: seq<T>, c: seq<T>)
    ensures (a + b) + c == a + (b + c)
  {
  }

  /** A step keeps the gathered payloads clean, and every frame it dispatches is
      non-empty and clean. */
  lemma StepClean(st: Scanner, raw: string)
    requires Clean(st.data)
    ensures Clean(Step(st, raw).0.data)
    ensures Step(st, raw).1.Some? ==> Step(st, raw).1.value.data != [] && Clean(Step(st, raw).1.value.data)
  {
  }

  /** Every frame a stream yields carries at least one payload, and none of its
      payloads is empty or `ping`. */
  lemma {:induction false} FramesClean(st: Scanner, lines: seq<string>)
    requires Clean(st.data)
    ensures Clean(Run(st, lines).0.data)
    ensures forall f | f in Run(st, lines).1 :: f.data != [] && Clean(f.data)
    decreases |lines|
  {
    if lines != [] {
      StepClean(st, lines[0]);
      FramesClean(Step(st, lines[0]).0, lines[1..]);
    }
  }

  /** Scanning `a` and then `b` is scanning `a + b`. */
  lemma {:induction false} RunAppend(st: Scanner, a: seq<string>, b: seq<string>)
    ensures Run(st, a + b) == (Run(Run(st, a).0, b).0, Run(st, a).1 + Run(Run(st, a).0, b).1)
    decreases |a|
  {
    if a == [] {
      assert a + b == b;
      assert Run(st, a) == (st, []);
      assert [] + Run(st, b).1 == Run(st, b).1;
    } else {
      assert (a + b)[0] == a[0];
      assert (a + b)[1..] == a[1..] + b;
      var next := Step(st, a[0]);
      RunAppend(next.0, a[1..], b);
      var mid := Run(next.0, a[1..]);
      var tail := Run(mid.0, b);
      var e := Emitted(next.1);
      assert Run(st, a) == (mid.0, e + mid.1);
      assert Run(st, a + b) == (tail.0, e + (mid.1 + tail.1));
      AppendAssoc(e, mid.1, tail.1);
    }
  }

  /** Lines none of which is blank dispatch nothing: they only gather. */
  lemma {:induction false} NoBlankNoFrames(st: Scanner, lines: seq<string>)
    requires forall i :: 0 <= i < |lines| ==> Strip(lines[i]) != ""
    ensures Run(st, lines).1 == []
    decreases |lines|
  {
    if lines != [] {
      NoBlankNoFrames(Step(st, lines[0]).0, lines[1..]);
    }
  }

  /** A stream that ends without a blank line after its last payloads drops them:
      its frames are those of the part up to the last blank line. */
  lemma TrailingDataDropped(head: seq<string>, tail: seq<string>)
    requires forall i :: 0 <= i < |tail| ==> Strip(tail[i]) != ""
    ensures Frames(head + tail) == Frames(head)
  {
    RunAppend(Idle, head, tail);
    NoBlankNoFrames(Run(Idle, head).0, tail);
  }

  /** A blank line dispatches exactly when payloads have been gathered, and then
      resets both the type and the payloads. */
  lemma BlankLineDispatches(st: Scanner, raw: string)
    requires Strip(raw) == ""
    ensures st.data != [] ==> Step(st, raw) == (Idle, Some(Frame(st.eventType, st.data)))
    ensures st.data == [] ==> Step(st, raw) == (st, None)
  {
  }

  /** An `event:` line replaces the type, keeps the payloads and dispatches nothing. */
  lemma EventLineSetsType(st: Scanner, raw: string)
    requires Strip(raw) != "" && StartsWith(Strip(raw), "event:")
    ensures Step(st, raw) == (Scanner(Some(Strip(Strip(raw)[6..])), st.data), None)
  {
  }

  /** A kept `data:` payload is appended after those already gathered. */
  lemma DataLineAppends(st: Scanner, raw: string, d: string)
    requires Strip(raw) != "" && !StartsWith(Strip(raw), "event:")
    requires StartsWith(Strip(raw), "data:") && d == Strip(Strip(raw)[5..]) && d != "" && d != "ping"
    ensures Step(st, raw) == (Scanner(st.eventType, st.data + [d]), None)
  {
    StripIdempotent(raw);
  }

  /** A line that is neither blank, nor `event:`, nor a kept `data:` payload
      changes nothing. */
  lemma OtherLinesIgnored(st: Scanner, raw: string)
    requires Strip(raw) != "" && !StartsWith(Strip(raw), "event:")
    requires !StartsWith(Strip(raw), "data:") || Strip(Strip(raw)[5..]) in {"", "ping"}
    ensures Step(st, raw) == (st, None)
  {
    StripIdempotent(raw);
  }
}
