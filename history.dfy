/** The request history behind the editor's back and forward buttons, and the
    trimming of the log pane.
 */
module History {
  import opened Json
  import opened Text

  const MaxEntries: nat := 50
  const MaxLogLines: nat := 5000

  /** `s[-n:]` when `s` holds more than `n` items, else `s`. */
  function KeepLast<T>(s: seq<T>, n: nat): seq<T> {
    if |s| > n then s[|s| - n..] else s
  }

  /** Trimming keeps the newest `min(|s|, n)` items, in order, and the newest of
      all among them. */
  lemma KeepLastSpec<T>(s: seq<T>, n: nat)
    ensures |KeepLast(s, n)| == if |s| <= n then |s| else n
    ensures KeepLast(s, n) == s[|s| - |KeepLast(s, n)|..]
    ensures n > 0 && s != [] ==> KeepLast(s, n)[|KeepLast(s, n)| - 1] == s[|s| - 1]
  {
  }

  /** One recorded exchange; the timestamp is the clock reading the caller passes. */
  datatype Entry = Entry(request: string, response: string, timestamp: string)

  /** `request_history` with its cursor `history_index`. */
  class Ring {
    var entries: seq<Entry>
    var index: int

    /** At most fifty entries; the cursor is on an entry, or at -1 exactly when
        there is none. */
    ghost predicate Valid()
      reads this
    {
      |entries| <= MaxEntries && -1 <= index < |entries| && (index == -1 <==> entries == [])
    }

    constructor ()
      ensures Valid() && entries == [] && index == -1
    {
      entries := [];
      index := -1;
    }

    /** What the back button's enabled state shows. */
    predicate CanGoBack()
      reads this
    {
      index > 0
    }

    /** What the forward button's enabled state shows. */
    predicate CanGoForward()
      reads this
    {
      index < |entries| - 1
    }

    /** `_add_to_history`: append, keep the newest fifty, and put the cursor on
        the new entry. */
    method Add(request: string, response: string, timestamp: string)
      requires Valid()
      modifies this
      ensures Valid()
      ensures entries == KeepLast(old(entries) + [Entry(request, response, timestamp)], MaxEntries)
      ensures index == |entries| - 1 && entries[index] == Entry(request, response, timestamp)
      ensures !CanGoForward()
    {
      KeepLastSpec(entries + [Entry(request, response, timestamp)], MaxEntries);
      entries := entries + [Entry(request, response, timestamp)];
      if |entries| > MaxEntries {
        entries := entries[|entries| - MaxEntries..];
      }
      index := |entries| - 1;
    }

    /** `_history_back`: step to the previous entry and show it, if there is one. */
    method Back() returns (shown: Option<Entry>)
      requires Valid()
      modifies this
      ensures Valid() && entries == old(entries)
      ensures old(CanGoBack()) ==> index == old(index) - 1 && shown == Some(entries[index])
      ensures !old(CanGoBack()) ==> index == old(index) && shown == None
    {
      shown := None;
      if index > 0 {
        index := index - 1;
        shown := Some(entries[index]);
      }
    }

    /** `_history_forward`: step to the next entry and show it, if there is one. */
    method Forward() returns (shown: Option<Entry>)
      requires Valid()
      modifies this
      ensures Valid() && entries == old(entries)
      ensures old(CanGoForward()) ==> index == old(index) + 1 && shown == Some(entries[index])
      ensures !old(CanGoForward()) ==> index == old(index) && shown == None
    {
      shown := None;
      if index < |entries| - 1 {
        index := index + 1;
        shown := Some(entries[index]);
      }
    }

    /** `_clear_history`. */
    method Clear()
      requires Valid()
      modifies this
      ensures Valid() && entries == [] && index == -1
      ensures !CanGoBack() && !CanGoForward()
    {
      entries := [];
      index := -1;
    }
  }

  /** Walking back one entry and forward again returns to the same entry. */
  method BackThenForward(r: Ring)
    requires r.Valid() && r.CanGoBack()
    modifies r
    ensures r.Valid() && r.entries == old(r.entries) && r.index == old(r.index)
  {
    var _ := r.Back();
    assert r.CanGoForward();
    var _ := r.Forward();
  }

  // ---- the log pane ------------------------------------------------------

  /** The text the log pane holds after `msg` is logged: the message is added as
      a line, and when the text then splits into more than 5000 pieces at
      newlines only the last 5000 are joined back together. */
  function AppendLog(current: string, msg: string): (r: string)
    ensures EndsWith(current + msg + "\n", r)
    ensures |r| <= |current| + |msg| + 1
  {
    var text := current + msg + "\n";
    var lines := SplitOn(text, '\n');
    if |lines| > MaxLogLines then
      JoinSplitOn(text, '\n');
      JoinSuffix(lines, "\n", |lines| - MaxLogLines);
      Join(lines[|lines| - MaxLogLines..], "\n")
    else
      assert text[|text| - |text|..] == text;
      text
  }

  /** The pane's lines are the newest 5000 lines of the appended text, and the
      pane always holds a suffix of that text. */
  lemma AppendLogSpec(current: string, msg: string)
    ensures SplitOn(AppendLog(current, msg), '\n') == KeepLast(SplitOn(current + msg + "\n", '\n'), MaxLogLines)
    ensures EndsWith(current + msg + "\n", AppendLog(current, msg))
    ensures |SplitOn(AppendLog(current, msg), '\n')| <= MaxLogLines || AppendLog(current, msg) == current + msg + "\n"
  {
    var text := current + msg + "\n";
    var lines := SplitOn(text, '\n');
    if |lines| > MaxLogLines {
      var k := |lines| - MaxLogLines;
      var kept := lines[k..];
      assert forall i :: 0 <= i < |kept| ==> kept[i] == lines[k + i];
      SplitOnJoin(kept, '\n');
      JoinSplitOn(text, '\n');
      JoinSuffix(lines, "\n", k);
    } else {
      assert EndsWith(text, text) by { assert text[|text| - |text|..] == text; }
    }
  }

  /** Dropping leading pieces leaves a suffix of the joined text. */
  lemma {:induction false} JoinSuffix(parts: seq<string>, sep: string, k: nat)
    requires k < |parts|
    ensures EndsWith(Join(parts, sep), Join(parts[k..], sep))
    decreases k
  {
    var whole := Join(parts, sep);
    if k == 0 {
      assert parts[0..] == parts;
      assert whole[|whole| - |whole|..] == whole;
    } else {
      var rest := Join(parts[1..], sep);
      JoinSuffix(parts[1..], sep, k - 1);
      assert parts[1..][k - 1..] == parts[k..];
      assert whole == (parts[0] + sep) + rest;
      EndsWithAfter(parts[0] + sep, rest, Join(parts[k..], sep));
    }
  }

  lemma EndsWithAfter(x: string, y: string, z: string)
    requires EndsWith(y, z)
    ensures EndsWith(x + y, z)
  {
    assert (x + y)[|x + y| - |z|..] == y[|y| - |z|..];
  }
}
