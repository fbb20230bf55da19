/** Request headers: the custom-header text typed into the header dialog, and
    the header sets the two request paths send.
 */
module Headers {
  import opened Json
  import opened Text

  /** A line of the header dialog contributes a header when, trimmed, it is not
      empty, is not a `#` comment and contains a colon. */
  predicate Usable(line: string) {
    var l := Strip(line);
    l != "" && !StartsWith(l, "#") && ':' in l
  }

  /** The trimmed name before the first colon of a usable line. */
  function KeyOf(line: string): string
    requires Usable(line)
  {
    var l := Strip(line);
    Strip(l[..IndexOf(l, ':')])
  }

  /** The trimmed value after the first colon of a usable line. */
  function ValueOf(line: string): string
    requires Usable(line)
  {
    var l := Strip(line);
    Strip(l[IndexOf(l, ':') + 1..])
  }

  /** The dialog's loop over lines: each usable line stores its value under its
      key, a later line overwriting an earlier one. */
  function ParseLines(lines: seq<string>): map<string, string>
    decreases |lines|
  {
    if lines == [] then map[]
    else
      var m := ParseLines(lines[..|lines| - 1]);
      var last := lines[|lines| - 1];
      if Usable(last) then m[KeyOf(last) := ValueOf(last)] else m
  }

  /** Every name and every value the loop stores is trimmed. */
  lemma {:induction false} ParseLinesTrimmed(lines: seq<string>)
    ensures forall k | k in ParseLines(lines) :: Strip(k) == k && Strip(ParseLines(lines)[k]) == ParseLines(lines)[k]
    decreases |lines|
  {
    if lines != [] {
      var init := lines[..|lines| - 1];
      var last := lines[|lines| - 1];
      ParseLinesTrimmed(init);
      if Usable(last) {
        var l := Strip(last);
        StripIdempotent(l[..IndexOf(l, ':')]);
        StripIdempotent(l[IndexOf(l, ':') + 1..]);
      }
    }
  }

  /** The header text as the dialog turns it into `custom_headers`: every name
      and every value is trimmed. */
  function ParseHeaderText(text: string): (m: map<string, string>)
    ensures forall k | k in m :: Strip(k) == k && Strip(m[k]) == m[k]
  {
    ParseLinesTrimmed(SplitOn(text, '\n'));
    ParseLines(SplitOn(text, '\n'))
  }

  /** The line is usable and names header `k`. */
  predicate Carries(line: string, k: string) {
    Usable(line) && KeyOf(line) == k
  }

  /** A name is a header exactly when some usable line carries it. */
  lemma {:induction false} ParseLinesKeys(lines: seq<string>, k: string)
    ensures k in ParseLines(lines) <==> exists i :: 0 <= i < |lines| && Carries(lines[i], k)
    decreases |lines|
  {
    if lines != [] {
      var n := |lines| - 1;
      var init := lines[..n];
      ParseLinesKeys(init, k);
      assert k in ParseLines(lines) <==> k in ParseLines(init) || Carries(lines[n], k);
      assert forall i :: 0 <= i < n ==> init[i] == lines[i];
      if exists i :: 0 <= i < |lines| && Carries(lines[i], k) {
        var i :| 0 <= i < |lines| && Carries(lines[i], k);
        if i < n { assert Carries(init[i], k); }
      }
    }
  }

  /** A later line overwrites an earlier one: the value of a header is that of
      the last usable line carrying it. */
  lemma {:induction false} ParseLinesLastWins(lines: seq<string>, k: string, i: nat)
    requires i < |lines| && Carries(lines[i], k)
    requires forall j :: i < j < |lines| ==> !Carries(lines[j], k)
    ensures k in ParseLines(lines) && ParseLines(lines)[k] == ValueOf(lines[i])
    decreases |lines|
  {
    var n := |lines| - 1;
    if i < n {
      var init := lines[..n];
      assert init[i] == lines[i];
      assert forall j :: i < j < |init| ==> init[j] == lines[j];
      ParseLinesLastWins(init, k, i);
      assert !Carries(lines[n], k);
    }
  }

  /** Blank lines, comments and lines without a colon change nothing. */
  lemma IgnoredLine(lines: seq<string>, line: string)
    requires !Usable(line)
    ensures ParseLines(lines + [line]) == ParseLines(lines)
  {
    assert (lines + [line])[..|lines|] == lines;
  }

  const ContentType := "Content-Type"
  const AcceptHeader := "Accept"
  const SessionHeader := "Mcp-Session-Id"

  /** The headers every request starts from. */
  function Defaults(): map<string, string> {
    map[ContentType := "application/json", AcceptHeader := "application/json, text/event-stream"]
  }

  /** A session id counts as set when it is present and not empty. */
  predicate IsSet(session: Option<string>) {
    session.Some? && session.value != ""
  }

  /** The header map of the synchronous path: the defaults, updated with the
      custom headers, then the session id when one is set. */
  function SyncHeaders(custom: map<string, string>, session: Option<string>): (h: map<string, string>)
    ensures h.Keys == Defaults().Keys + custom.Keys + (if IsSet(session) then {SessionHeader} else {})
  {
    var base := Defaults() + custom;
    if IsSet(session) then base[SessionHeader := session.value] else base
  }

  /** Each header of the synchronous path takes its value from the highest
      source that has it: the session id over the custom headers over the
      defaults. */
  lemma SyncHeadersPriority(custom: map<string, string>, session: Option<string>, k: string)
    requires k in SyncHeaders(custom, session)
    ensures var h := SyncHeaders(custom, session);
      (IsSet(session) && k == SessionHeader ==> h[k] == session.value) &&
      (!(IsSet(session) && k == SessionHeader) && k in custom ==> h[k] == custom[k]) &&
      (!(IsSet(session) && k == SessionHeader) && k !in custom ==> k in Defaults() && h[k] == Defaults()[k])
  {
  }

  /** The header list of the asynchronous path, in the order the builder adds
      them: the two defaults, the custom headers as `order` enumerates the dict,
      and the session id when one is set. The builder adds rather than replaces,
      so names may repeat. */
  function AsyncHeaders(custom: map<string, string>, order: seq<string>, session: Option<string>): (hs: seq<(string, string)>)
    requires Lists(order, custom.Keys)
    ensures |hs| == 2 + |custom| + (if IsSet(session) then 1 else 0)
    ensures hs[..2] == [(ContentType, "application/json"), (AcceptHeader, "application/json, text/event-stream")]
    ensures forall k | k in custom :: exists i :: 2 <= i < 2 + |custom| && hs[i] == (k, custom[k])
    ensures IsSet(session) ==> hs[|hs| - 1] == (SessionHeader, session.value)
  {
    var pre := [(ContentType, "application/json"), (AcceptHeader, "application/json, text/event-stream")];
    var cs := CustomList(custom, order);
    var post := if IsSet(session) then [(SessionHeader, session.value)] else [];
    var hs := pre + cs + post;
    assert hs[..2] == pre;
    assert forall k | k in custom :: exists i :: 2 <= i < 2 + |custom| && hs[i] == (k, custom[k]) by {
      forall k | k in custom ensures exists i :: 2 <= i < 2 + |custom| && hs[i] == (k, custom[k]) {
        var j :| 0 <= j < |cs| && cs[j] == (k, custom[k]);
        assert hs[2 + j] == cs[j];
      }
    }
    hs
  }

  /** `for k, v in custom.items()`: every custom header exactly once, in the
      dict's iteration order. */
  function CustomList(custom: map<string, string>, order: seq<string>): (r: seq<(string, string)>)
    requires Lists(order, custom.Keys)
    ensures |r| == |order| == |custom|
    ensures forall i :: 0 <= i < |order| ==> r[i] == (order[i], custom[order[i]])
    ensures forall k | k in custom :: exists i :: 0 <= i < |r| && r[i] == (k, custom[k])
  {
    ListsCount(order, custom.Keys);
    assert |custom.Keys| == |custom|;
    Pairs(custom, order)
  }

  /** The pairs of `custom` named by `order`, in that order. */
  function Pairs(custom: map<string, string>, order: seq<string>): (r: seq<(string, string)>)
    requires forall i :: 0 <= i < |order| ==> order[i] in custom
    ensures |r| == |order|
    ensures forall i :: 0 <= i < |order| ==> r[i] == (order[i], custom[order[i]])
  {
    if order == [] then [] else [(order[0], custom[order[0]])] + Pairs(custom, order[1..])
  }

  /** A custom `Content-Type` replaces the default on the synchronous path but is
      sent next to it on the asynchronous one. */
  lemma CustomContentTypeSentTwice(custom: map<string, string>, order: seq<string>, session: Option<string>, i: nat)
    requires Lists(order, custom.Keys)
    requires i < |order| && order[i] == ContentType
    ensures var hs := AsyncHeaders(custom, order, session);
      hs[0] == (ContentType, "application/json") && hs[2 + i] == (ContentType, custom[ContentType])
    ensures SyncHeaders(custom, session)[ContentType] == custom[ContentType]
  {
  }
}
