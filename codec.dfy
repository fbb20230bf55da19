/** The response-body decoder `_parse_sse_body`: a body is either one JSON
    document or a run of Server-Sent-Events blocks separated by blank lines, and
    the first block whose `data:` payloads decode wins.
 */
module FrameCodec {
  import opened Json
  import opened Text

  /** No two newlines meet anywhere in `b`. */
  predicate NoBlankLine(b: string) {
    forall k :: 0 <= k < |b| - 1 ==> !(b[k] == '\n' && b[k + 1] == '\n')
  }

  /** The first index at which two newlines meet, or `|s|` when none does. */
  function BreakAt(s: string): (i: nat)
    ensures i <= |s|
    ensures i < |s| ==> i + 1 < |s| && s[i] == '\n' && s[i + 1] == '\n'
    ensures NoBlankLine(s[..i])
    ensures i == |s| ==> NoBlankLine(s)
  {
    if |s| < 2 then |s|
    else if s[0] == '\n' && s[1] == '\n' then 0
    else
      var j := BreakAt(s[1..]);
      assert s[1..][..j] == s[1..j + 1];
      1 + j
  }

  /** What is left once a run of newlines at the front is consumed. */
  function SkipNewlines(s: string): (r: string)
    ensures |r| <= |s| && r == s[|s| - |r|..]
    ensures r == [] || r[0] != '\n'
    ensures forall k :: 0 <= k < |s| - |r| ==> s[k] == '\n'
  {
    if s != [] && s[0] == '\n' then SkipNewlines(s[1..]) else s
  }

  /** `re.split(r'\n\n+', s)`: cut at every maximal run of two or more newlines,
      scanning from the left. */
  function SplitBlocks(s: string): (blocks: seq<string>)
    ensures |blocks| >= 1
    ensures forall b | b in blocks :: NoBlankLine(b)
    decreases |s|
  {
    var i := BreakAt(s);
    if i == |s| then [s]
    else
      var rest := SplitBlocks(SkipNewlines(s[i + 2..]));
      assert forall b | b in [s[..i]] + rest :: b == s[..i] || b in rest;
      [s[..i]] + rest
  }

  /** Where `re.split` cuts: a text of several blocks is its first block, a
      maximal run of two or more newlines, and a rest that does not start with a
      newline and splits into the remaining blocks. The first block neither holds
      a blank line nor ends with a newline, so the run is the leftmost one. */
  lemma SplitBlocksCut(s: string) returns (n: string, rest: string)
    requires |SplitBlocks(s)| > 1
    ensures s == SplitBlocks(s)[0] + n + rest
    ensures |n| >= 2 && forall k :: 0 <= k < |n| ==> n[k] == '\n'
    ensures rest == [] || rest[0] != '\n'
    ensures SplitBlocks(s)[1..] == SplitBlocks(rest)
    ensures NoBlankLine(SplitBlocks(s)[0])
    ensures SplitBlocks(s)[0] == [] || SplitBlocks(s)[0][|SplitBlocks(s)[0]| - 1] != '\n'
  {
    var i := BreakAt(s);
    var b := SplitBlocks(s);
    assert i < |s|;
    rest := SkipNewlines(s[i + 2..]);
    assert b == [s[..i]] + SplitBlocks(rest);
    assert b[0] == s[..i] && b[0] in b;
    assert b[1..] == SplitBlocks(rest);
    BreakAtLeftmost(s);
    assert b[0] == [] || b[0][|b[0]| - 1] == s[i - 1];
    n := NewlineRun(s, i, rest);
  }

  /** The newlines between the cut at `i` and what `SkipNewlines` leaves. */
  lemma NewlineRun(s: string, i: nat, rest: string) returns (n: string)
    requires i + 1 < |s| && s[i] == '\n' && s[i + 1] == '\n'
    requires rest == SkipNewlines(s[i + 2..])
    ensures s == s[..i] + n + rest
    ensures |n| >= 2 && forall k :: 0 <= k < |n| ==> n[k] == '\n'
  {
    var j := RestAt(s, i + 2, rest);
    n := s[i..j];
    Cut3(s, i, j);
    forall k | 0 <= k < |n| ensures n[k] == '\n' {
      assert n[k] == s[i + k];
    }
  }

  /** Where the text `SkipNewlines` leaves after `i` starts, and that only
      newlines come before it. */
  lemma RestAt(s: string, i: nat, rest: string) returns (j: nat)
    requires i <= |s| && rest == SkipNewlines(s[i..])
    ensures i <= j <= |s| && rest == s[j..]
    ensures forall k :: i <= k < j ==> s[k] == '\n'
  {
    var tail := s[i..];
    j := |s| - |rest|;
    forall k | i <= k < j ensures s[k] == '\n' {
      assert s[k] == tail[k - i];
    }
  }

  lemma Cut3(s: string, i: nat, j: nat)
    requires i <= j <= |s|
    ensures s == s[..i] + s[i..j] + s[j..]
  {
    assert s[..j] == s[..i] + s[i..j];
    assert s == s[..j] + s[j..];
  }

  /** The cut `BreakAt` finds is not preceded by a newline. */
  lemma {:induction false} BreakAtLeftmost(s: string)
    ensures 0 < BreakAt(s) < |s| ==> s[BreakAt(s) - 1] != '\n'
    decreases |s|
  {
    if |s| >= 2 && !(s[0] == '\n' && s[1] == '\n') {
      BreakAtLeftmost(s[1..]);
    }
  }

  /** A text without a blank line is a single block, and only such a text is;
      a single block is the whole text. */
  lemma OneBlockIffNoBlankLine(s: string)
    ensures SplitBlocks(s) == [s] <==> NoBlankLine(s)
    ensures |SplitBlocks(s)| == 1 ==> SplitBlocks(s) == [s]
  {
    var i := BreakAt(s);
    if i < |s| {
      assert !NoBlankLine(s) by { assert s[i] == '\n' && s[i + 1] == '\n'; }
    }
  }

  /** The payload of one event line: the trimmed text after `data:`, unless it is
      empty or the keep-alive `ping`. Shared by the body decoder and the stream
      scanner. */
  function DataValue(line: string): (r: Option<string>)
    ensures r.Some? ==> r.value != "" && r.value != "ping"
  {
    var l := Strip(line);
    if StartsWith(l, "data:") then
      var d := Strip(l[5..]);
      if d != "" && d != "ping" then Some(d) else None
    else None
  }

  /** Which lines carry a payload, and which: exactly the `data:` lines whose
      trimmed remainder is neither empty nor `ping`, and the payload is that
      trimmed remainder. */
  lemma DataValueSpec(line: string)
    ensures DataValue(line).Some? <==> (StartsWith(Strip(line), "data:") &&
      Strip(Strip(line)[5..]) != "" && Strip(Strip(line)[5..]) != "ping")
    ensures DataValue(line).Some? ==> DataValue(line).value == Strip(Strip(line)[5..])
  {
  }

  /** The kept payloads of a block's lines, in order. */
  function DataPayloads(lines: seq<string>): (r: seq<string>)
    ensures |r| <= |lines|
    ensures forall i :: 0 <= i < |r| ==> r[i] != "" && r[i] != "ping"
  {
    if lines == [] then []
    else
      (match DataValue(lines[0]) case Some(d) => [d] case None => []) + DataPayloads(lines[1..])
  }

  /** The payloads are gathered in line order: a line adds its own kept payload,
      if any, after those of the lines before it. */
  lemma {:induction false} DataPayloadsAppend(ls: seq<string>, l: string)
    ensures DataPayloads(ls + [l]) ==
      DataPayloads(ls) + (if DataValue(l).Some? then [DataValue(l).value] else [])
    decreases |ls|
  {
    if ls == [] {
      assert [] + [l] == [l];
      assert [l][1..] == [];
    } else {
      assert (ls + [l])[0] == ls[0];
      assert (ls + [l])[1..] == ls[1..] + [l];
      DataPayloadsAppend(ls[1..], l);
    }
  }

  /** The text a block hands to the decoder: its payloads joined by newlines, or
      nothing when the block is blank or carries no payload. */
  function Payload(ev: string): Option<string> {
    if Strip(ev) == "" then None
    else
      var dl := DataPayloads(SplitOn(ev, '\n'));
      if dl == [] then None else Some(Join(dl, "\n"))
  }

  /** What one block decodes to, if anything. */
  function Decodes(ev: string, parse: Parser): Option<Json> {
    match Payload(ev)
    case Some(p) => parse(p)
    case None => None
  }

  /** The loop over blocks: the first one that decodes. */
  function FirstParsable(evs: seq<string>, parse: Parser): Option<Json> {
    if evs == [] then None
    else if Decodes(evs[0], parse).Some? then Decodes(evs[0], parse)
    else FirstParsable(evs[1..], parse)
  }

  /** `_parse_sse_body(body)`. None stands for Python's None when nothing decodes;
      a body that decodes to JSON null comes back as `Some(JNull)`, which every
      caller treats like None because both are falsy. */
  function ParseSseBody(body: string, parse: Parser): (r: Option<Json>)
    ensures Strip(body) == "" ==> r.None?
    ensures Strip(body) != "" && parse(body).Some? ==> r == parse(body)
    ensures Strip(body) != "" && parse(body).None? ==> r == FirstParsable(SplitBlocks(Strip(body)), parse)
  {
    if Strip(body) == "" then None
    else
      match parse(body)
      case Some(v) => Some(v)
      case None => FirstParsable(SplitBlocks(Strip(body)), parse)
  }

  /** Block `i` is the first one that decodes, and it decodes to `v`. */
  predicate FirstDecodingAt(evs: seq<string>, parse: Parser, i: nat, v: Json)
    requires i < |evs|
  {
    Decodes(evs[i], parse) == Some(v) && forall j :: 0 <= j < i ==> Decodes(evs[j], parse).None?
  }

  /** Dropping a leading block that decodes to nothing shifts the first decoding one place. */
  lemma ShiftFirst(evs: seq<string>, parse: Parser, i: nat, v: Json)
    requires evs != [] && Decodes(evs[0], parse).None? && i + 1 < |evs|
    ensures FirstDecodingAt(evs, parse, i + 1, v) <==> FirstDecodingAt(evs[1..], parse, i, v)
  {
    assert evs[1..][i] == evs[i + 1];
    assert forall j :: 0 <= j < i ==> evs[1..][j] == evs[j + 1];
    if FirstDecodingAt(evs[1..], parse, i, v) {
      forall j | 0 <= j < i + 1 ensures Decodes(evs[j], parse).None? {
        if j > 0 { assert evs[j] == evs[1..][j - 1]; }
      }
    }
  }

  /** The block loop returns `v` exactly when some block decodes to `v` and every
      block before it decodes to nothing. */
  lemma {:induction false} FirstParsableIsFirst(evs: seq<string>, parse: Parser, v: Json)
    ensures FirstParsable(evs, parse) == Some(v) <==>
      exists i: nat :: i < |evs| && FirstDecodingAt(evs, parse, i, v)
  {
    if evs != [] {
      FirstParsableIsFirst(evs[1..], parse, v);
      if Decodes(evs[0], parse).None? {
        if exists i: nat :: i < |evs| && FirstDecodingAt(evs, parse, i, v) {
          var i: nat :| i < |evs| && FirstDecodingAt(evs, parse, i, v);
          assert i > 0;
          ShiftFirst(evs, parse, i - 1, v);
        }
        if FirstParsable(evs, parse) == Some(v) {
          var i: nat :| i < |evs[1..]| && FirstDecodingAt(evs[1..], parse, i, v);
          ShiftFirst(evs, parse, i, v);
        }
      } else {
        assert FirstDecodingAt(evs, parse, 0, Decodes(evs[0], parse).value);
        if exists i: nat :: i < |evs| && FirstDecodingAt(evs, parse, i, v) {
          var i: nat :| i < |evs| && FirstDecodingAt(evs, parse, i, v);
          assert i == 0;
        }
      }
    }
  }

  /** The block loop returns nothing exactly when no block decodes. */
  lemma {:induction false} FirstParsableNone(evs: seq<string>, parse: Parser)
    ensures FirstParsable(evs, parse).None? <==>
      forall i :: 0 <= i < |evs| ==> Decodes(evs[i], parse).None?
  {
    if evs != [] {
      FirstParsableNone(evs[1..], parse);
      if Decodes(evs[0], parse).None? {
        assert forall i :: 1 <= i < |evs| ==> evs[i] == evs[1..][i - 1];
      }
    }
  }

  /** A block without any `data:` payload never decodes, whatever the decoder. */
  lemma SilentBlockSkipped(ev: string, parse: Parser)
    requires DataPayloads(SplitOn(ev, '\n')) == []
    ensures Decodes(ev, parse).None?
  {
  }
}
