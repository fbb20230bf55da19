/** The deep-unescape transform behind the "Unescape JSON" button: a
    depth-bounded rewrite that replaces stringified or backslash-escaped JSON
    found inside a response by the value it encodes.
 */
module Unescape {
  import opened Json
  import opened Text

  /** Beyond this depth a value is returned as it is. */
  const MaxDepth: nat := 10

  /** The stripped text carries one of the escapes `\n`, `\"` or `\t`. */
  predicate HasEscapes(t: string) {
    Contains(t, "\\n") || Contains(t, "\\\"") || Contains(t, "\\t")
  }

  /** The stripped text is bracketed like an object or an array. */
  predicate LooksLikeJson(t: string) {
    (StartsWith(t, "{") && EndsWith(t, "}")) || (StartsWith(t, "[") && EndsWith(t, "]"))
  }

  /** A string leaf is worth reparsing: escapes, or a bracketed form longer than 10. */
  predicate IsCandidate(s: string) {
    var t := Strip(s);
    HasEscapes(t) || (LooksLikeJson(t) && |t| > 10)
  }

  /** The fixed substitution table, in the order it is applied: the escaped
      backslash comes last so that it cannot create new escapes. */
  const EscapeTable: seq<(string, string)> := [
    ("\\n", "\n"), ("\\\"", "\""), ("\\t", "\t"), ("\\r", "\r"),
    ("\\/", "/"), ("\\b", "\U{8}"), ("\\f", "\U{C}"), ("\\\\", "\\")
  ]

  /** `str.replace` with each pair of `table` in turn. */
  function ApplyTable(t: string, table: seq<(string, string)>): string
    requires forall i :: 0 <= i < |table| ==> table[i].0 != []
    decreases |table|
  {
    if table == [] then t else ApplyTable(ReplaceAll(t, table[0].0, table[0].1), table[1..])
  }

  function UnescapeTable(t: string): string {
    ApplyTable(t, EscapeTable)
  }

  /** A string without any backslash goes through the table unchanged. */
  lemma UnescapeTableNoBackslash(t: string)
    requires !Contains(t, "\\")
    ensures UnescapeTable(t) == t
  {
    ApplyTableNoBackslash(t, EscapeTable);
  }

  /** Without a backslash the substitution table has nothing to rewrite, so the
      second decoding attempt repeats the first: the outcome is that of parsing
      the stripped text. */
  lemma ReparseNoBackslash(s: string, parse: Parser)
    requires !Contains(Strip(s), "\\")
    ensures Reparse(s, parse) == parse(Strip(s))
  {
    UnescapeTableNoBackslash(Strip(s));
  }

  lemma {:induction false} ApplyTableNoBackslash(t: string, table: seq<(string, string)>)
    requires forall i :: 0 <= i < |table| ==> table[i].0 != [] && StartsWith(table[i].0, "\\")
    requires !Contains(t, "\\")
    ensures ApplyTable(t, table) == t
    decreases |table|
  {
    if table != [] {
      NotContainsLonger(t, "\\", table[0].0);
      ApplyTableNoBackslash(t, table[1..]);
    }
  }

  /** A text that does not contain `p` does not contain anything that starts with `p`. */
  lemma {:induction false} NotContainsLonger(s: string, p: string, q: string)
    requires StartsWith(q, p)
    requires !Contains(s, p)
    ensures !Contains(s, q)
    decreases |s|
  {
    if s != [] {
      NotContainsLonger(s[1..], p, q);
    }
  }

  /** The two parse attempts made on a candidate: the stripped text as it is,
      then (when it has escapes) the text after the substitution table. */
  function Reparse(s: string, parse: Parser): Option<Json> {
    var t := Strip(s);
    match parse(t)
    case Some(v) => Some(v)
    case None => parse(if HasEscapes(t) then UnescapeTable(t) else t)
  }

  /** `_deep_unescape_json(obj, depth)`. */
  function DeepUnescape(j: Json, depth: nat, parse: Parser): (r: Json)
    ensures depth > MaxDepth ==> r == j
    ensures j.JObject? && depth <= MaxDepth ==> r.JObject? && r.fields.Keys == j.fields.Keys
    ensures j.JArray? && depth <= MaxDepth ==> r.JArray? && |r.items| == |j.items|
    ensures j.JNull? || j.JBool? || j.JNumber? ==> r == j
    decreases MaxDepth + 1 - depth, 1
  {
    if depth > MaxDepth then j
    else
      match j
      case JObject(m) =>
        JObject(map k | k in m :: DeepUnescape(m[k], depth + 1, parse))
      case JArray(xs) =>
        JArray(Each(xs, depth, parse))
      case JString(s) => Leaf(s, depth, parse)
      case _ => j
  }

  /** The children of a list, each processed one level deeper, in order. */
  function Each(xs: seq<Json>, depth: nat, parse: Parser): (r: seq<Json>)
    requires depth <= MaxDepth
    ensures |r| == |xs|
    ensures forall i :: 0 <= i < |xs| ==> r[i] == DeepUnescape(xs[i], depth + 1, parse)
    decreases MaxDepth + 1 - depth, 0, |xs|
  {
    if xs == [] then [] else [DeepUnescape(xs[0], depth + 1, parse)] + Each(xs[1..], depth, parse)
  }

  /** A string leaf below the cap: reparsed when it is a candidate. */
  function Leaf(s: string, depth: nat, parse: Parser): (r: Json)
    requires depth <= MaxDepth
    decreases MaxDepth + 1 - depth, 0
  {
    if IsCandidate(s) then
      match Reparse(s, parse)
      case Some(v) => DeepUnescape(v, depth + 1, parse)
      case None => JString(s)
    else JString(s)
  }

  /** A string is replaced only when it is a candidate whose reparse succeeds. */
  lemma StringUntouched(s: string, depth: nat, parse: Parser)
    requires !IsCandidate(s) || Reparse(s, parse).None?
    ensures DeepUnescape(JString(s), depth, parse) == JString(s)
  {
  }

  /** No string anywhere inside the value is a reparse candidate. */
  predicate Settled(j: Json) {
    match j
    case JString(s) => !IsCandidate(s)
    case JArray(xs) => forall i :: 0 <= i < |xs| ==> Settled(xs[i])
    case JObject(m) => forall k :: k in m ==> Settled(m[k])
    case _ => true
  }

  /** A value with nothing left to unescape comes back unchanged, at every depth. */
  lemma {:induction false} SettledIsFixed(j: Json, depth: nat, parse: Parser)
    requires Settled(j)
    ensures DeepUnescape(j, depth, parse) == j
    decreases j
  {
    if depth <= MaxDepth {
      match j
      case JObject(m) =>
        forall k | k in m ensures DeepUnescape(m[k], depth + 1, parse) == m[k] {
          SettledIsFixed(m[k], depth + 1, parse);
        }
        assert DeepUnescape(j, depth, parse).fields == m;
      case JArray(xs) =>
        forall i | 0 <= i < |xs| ensures DeepUnescape(xs[i], depth + 1, parse) == xs[i] {
          SettledIsFixed(xs[i], depth + 1, parse);
        }
        assert DeepUnescape(j, depth, parse).items == xs;
      case _ =>
    }
  }

  /** `r` keeps the structure of `j`: scalars are equal, containers have the same
      keys or the same length and related children, and only a string that is a
      reparse candidate may have been replaced (by anything). */
  predicate SameShape(j: Json, r: Json) {
    match j
    case JObject(m) =>
      r.JObject? && r.fields.Keys == m.Keys && forall k :: k in m ==> SameShape(m[k], r.fields[k])
    case JArray(xs) =>
      r.JArray? && |r.items| == |xs| && forall i :: 0 <= i < |xs| ==> SameShape(xs[i], r.items[i])
    case JString(s) => r == j || IsCandidate(s)
    case _ => r == j
  }

  /** The transform rebuilds every container with the same keys, the same length
      and the same order, all the way down, and touches only candidate strings. */
  lemma {:induction false} DeepUnescapeKeepsShape(j: Json, depth: nat, parse: Parser)
    ensures SameShape(j, DeepUnescape(j, depth, parse))
    decreases j
  {
    var r := DeepUnescape(j, depth, parse);
    if depth > MaxDepth {
      SameShapeRefl(j);
    } else {
      match j
      case JObject(m) =>
        forall k | k in m ensures SameShape(m[k], r.fields[k]) {
          DeepUnescapeKeepsShape(m[k], depth + 1, parse);
        }
      case JArray(xs) =>
        forall i | 0 <= i < |xs| ensures SameShape(xs[i], r.items[i]) {
          DeepUnescapeKeepsShape(xs[i], depth + 1, parse);
        }
      case _ =>
    }
  }

  lemma {:induction false} SameShapeRefl(j: Json)
    ensures SameShape(j, j)
    decreases j
  {
    match j
    case JObject(m) =>
      forall k | k in m ensures SameShape(m[k], m[k]) {
        SameShapeRefl(m[k]);
      }
    case JArray(xs) =>
      forall i | 0 <= i < |xs| ensures SameShape(xs[i], xs[i]) {
        SameShapeRefl(xs[i]);
      }
    case _ =>
  }

  /** A string whose stripped text parses back to the very same string is one
      that re-embeds itself: each level recurses at depth + 1 until the cap, and
      the string comes back unchanged. */
  lemma {:induction false} SelfEmbeddingTerminates(s: string, depth: nat, parse: Parser)
    requires IsCandidate(s)
    requires parse(Strip(s)) == Some(JString(s))
    ensures DeepUnescape(JString(s), depth, parse) == JString(s)
    decreases MaxDepth + 1 - depth
  {
    if depth <= MaxDepth {
      SelfEmbeddingTerminates(s, depth + 1, parse);
    }
  }

  /** `k` singleton arrays around `j`. */
  function Nest(k: nat, j: Json): Json {
    if k == 0 then j else JArray([Nest(k - 1, j)])
  }

  /** Each array level costs one unit of depth. */
  lemma {:induction false} DeepUnescapeNest(k: nat, j: Json, depth: nat, parse: Parser)
    requires depth + k <= MaxDepth + 1
    ensures DeepUnescape(Nest(k, j), depth, parse) == Nest(k, DeepUnescape(j, depth + k, parse))
    decreases k
  {
    if k == 0 {
    } else {
      var inner, d := Nest(k - 1, j), DeepUnescape(j, depth + k, parse);
      calc {
        DeepUnescape(Nest(k, j), depth, parse);
        { assert Nest(k, j) == JArray([inner]); }
        DeepUnescape(JArray([inner]), depth, parse);
        { Singleton(inner, depth, parse); }
        JArray([DeepUnescape(inner, depth + 1, parse)]);
        { DeepUnescapeNest(k - 1, j, depth + 1, parse); }
        JArray([Nest(k - 1, d)]);
        Nest(k, d);
      }
    }
  }

  /** A one-element list below the cap holds its element processed one level deeper. */
  lemma Singleton(x: Json, depth: nat, parse: Parser)
    requires depth <= MaxDepth
    ensures DeepUnescape(JArray([x]), depth, parse) == JArray([DeepUnescape(x, depth + 1, parse)])
  {
    assert Each([x], depth, parse) == [DeepUnescape(x, depth + 1, parse)];
  }

  /** One level of a candidate string that decodes: the decoded value is processed one level deeper. */
  lemma StringStep(s: string, v: Json, depth: nat, parse: Parser)
    requires depth <= MaxDepth && IsCandidate(s) && Reparse(s, parse) == Some(v)
    ensures DeepUnescape(JString(s), depth, parse) == DeepUnescape(v, depth + 1, parse)
  {
  }

  /** The transform is not idempotent: the depth cap can stop it half-way through
      a chain of stringified values, and a second application goes on from there.
      A string `a` met at the cap that decodes to a string `b` that decodes once
      more (to something else) comes out as `b` the first time and changes again
      the second time. By `DeepUnescapeNest` a string inside ten nested arrays is
      met at the cap by a call at depth 0. */
  lemma CapBreaksIdempotence(a: string, b: string, c: Json, parse: Parser)
    requires IsCandidate(a) && Reparse(a, parse) == Some(JString(b))
    requires IsCandidate(b) && Reparse(b, parse) == Some(c) && c != JString(b)
    ensures DeepUnescape(DeepUnescape(JString(a), MaxDepth, parse), MaxDepth, parse)
         != DeepUnescape(JString(a), MaxDepth, parse)
  {
    StringStep(a, JString(b), MaxDepth, parse);
    StringStep(b, c, MaxDepth, parse);
  }

  /** The extension's own call, at depth 0, is not idempotent either: the same
      chain, wrapped in ten one-element lists, reaches the cap at the string `a`,
      so the first pass stops at `b` and the second goes on to `c`. */
  lemma TopLevelNotIdempotent(a: string, b: string, c: Json, parse: Parser)
    requires IsCandidate(a) && Reparse(a, parse) == Some(JString(b))
    requires IsCandidate(b) && Reparse(b, parse) == Some(c) && c != JString(b)
    ensures var once := DeepUnescape(Nest(MaxDepth, JString(a)), 0, parse);
      DeepUnescape(once, 0, parse) != once
  {
    DeepUnescapeNest(MaxDepth, JString(a), 0, parse);
    StringStep(a, JString(b), MaxDepth, parse);
    assert DeepUnescape(Nest(MaxDepth, JString(a)), 0, parse) == Nest(MaxDepth, JString(b));
    DeepUnescapeNest(MaxDepth, JString(b), 0, parse);
    StringStep(b, c, MaxDepth, parse);
    assert DeepUnescape(Nest(MaxDepth, JString(b)), 0, parse) == Nest(MaxDepth, c);
    NestInjective(MaxDepth, c, JString(b));
  }

  /** Wrapping in the same number of lists keeps different values different. */
  lemma {:induction false} NestInjective(k: nat, x: Json, y: Json)
    requires x != y
    ensures Nest(k, x) != Nest(k, y)
  {
    if k > 0 {
      NestInjective(k - 1, x, y);
      assert Nest(k, x).items[0] == Nest(k - 1, x);
    }
  }

  /** The escapes `\\n` and `\\t` are their own stripped texts and reparse candidates. */
  lemma EscapeIsCandidate(s: string)
    requires s == "\\n" || s == "\\t"
    ensures Strip(s) == s && IsCandidate(s)
  {
    assert TrimLeft(s) == s;
    assert TrimRight(s) == s;
    assert StartsWith(s, s) && Contains(s, s);
  }

  /** A text that is its own stripped form and decodes at the first attempt. */
  lemma ReparseFirst(s: string, v: Json, parse: Parser)
    requires Strip(s) == s && parse(s) == Some(v)
    ensures Reparse(s, parse) == Some(v)
  {
  }

  /** A decoder under which the hypotheses above can be met: `\\n` decodes to the
      string `\\t`, which decodes to null. */
  lemma ChainExists()
    ensures exists a: string, b: string, parse: Parser ::
      IsCandidate(a) && Reparse(a, parse) == Some(JString(b)) &&
      IsCandidate(b) && Reparse(b, parse) == Some(JNull)
  {
    var n, t := "\\n", "\\t";
    var parse: Parser := u => if u == n then Some(JString(t)) else if u == t then Some(JNull) else None;
    assert n != t by { assert n[1] != t[1]; }
    EscapeIsCandidate(n);
    EscapeIsCandidate(t);
    ReparseFirst(n, JString(t), parse);
    ReparseFirst(t, JNull, parse);
  }
}
