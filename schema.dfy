/** The two helpers that read a tool's `inputSchema`: the one-line parameter
    summary of the server-info panel and the sample arguments the editor is
    seeded with. Every Python exception they can raise on an ill-typed schema
    is reported as None.
 */
module Schema {
  import opened Json
  import opened Text

  /** `j.get(key, default)`; None when `j` is not an object, whose `.get` raises. */
  function Get(j: Json, key: string, default: Json): Option<Json> {
    if !j.JObject? then None else if key in j.fields then Some(j.fields[key]) else Some(default)
  }

  // ---- _get_param_summary ------------------------------------------------

  /** Values that `name in required` accepts without raising TypeError. */
  predicate Checkable(required: Json) {
    required.JArray? || required.JString? || required.JObject?
  }

  /** `name in required`: list membership, a substring test for a string, a key
      test for a dict. */
  function InRequired(name: string, required: Json): bool
    requires Checkable(required)
  {
    match required
    case JArray(xs) => JString(name) in xs
    case JString(s) => Contains(s, name)
    case JObject(m) => name in m
  }

  /** A required parameter is listed with a trailing star. */
  function Mark(name: string, req: bool): string {
    if req then name + "*" else name
  }

  /** The list `params` the loop builds, one entry per property in order. */
  function Marked(names: seq<string>, required: Json): (r: seq<string>)
    requires Checkable(required)
    ensures |r| == |names|
    ensures forall i :: 0 <= i < |names| ==> r[i] == Mark(names[i], InRequired(names[i], required))
  {
    if names == [] then [] else [Mark(names[0], InRequired(names[0], required))] + Marked(names[1..], required)
  }

  /** The caller supplies the iteration order of the `properties` dict, which the
      summary shows in that order. */
  predicate OrderFits(schema: Json, order: seq<string>) {
    match Get(schema, "properties", JObject(map[]))
    case Some(JObject(m)) => Lists(order, m.Keys)
    case _ => true
  }

  /** `_get_param_summary(schema)`: "none" for falsy properties, otherwise the
      first five names, required ones starred, joined by commas, with "..." when
      more were left out. */
  function ParamSummary(schema: Json, order: seq<string>): (r: Option<string>)
    requires OrderFits(schema, order)
    ensures r.Some? <==> (schema.JObject? &&
      (!Truthy(PropsOf(schema)) || (PropsOf(schema).JObject? && Checkable(RequiredOf(schema)))))
  {
    match (Get(schema, "properties", JObject(map[])), Get(schema, "required", JArray([])))
    case (Some(props), Some(required)) =>
      if !Truthy(props) then Some("none")
      else if !props.JObject? || !Checkable(required) then None
      else
        var params := Marked(order, required);
        var shown := if |params| <= 5 then params else params[..5];
        Some(Join(shown, ", ") + (if |params| > 5 then "..." else ""))
    case _ => None
  }

  /** The schema's `properties` and `required`, their defaults filled in. */
  function PropsOf(schema: Json): Json
    requires schema.JObject?
  {
    Get(schema, "properties", JObject(map[])).value
  }

  function RequiredOf(schema: Json): Json
    requires schema.JObject?
  {
    Get(schema, "required", JArray([])).value
  }

  /** No properties, or falsy ones of any type, read "none"; a schema that is not
      an object raises. */
  lemma SummaryNone(schema: Json, order: seq<string>)
    requires OrderFits(schema, order)
    ensures !schema.JObject? ==> ParamSummary(schema, order).None?
    ensures schema.JObject? && !Truthy(PropsOf(schema)) ==> ParamSummary(schema, order) == Some("none")
  {
  }

  /** Truthy properties that are not a dict, or a `required` that `in` cannot
      search, raise. */
  lemma SummaryRaises(schema: Json, order: seq<string>)
    requires OrderFits(schema, order)
    requires schema.JObject? && Truthy(PropsOf(schema))
    requires !PropsOf(schema).JObject? || !Checkable(RequiredOf(schema))
    ensures ParamSummary(schema, order).None?
  {
  }

  /** Each of the first five properties is named in the summary, starred when it
      is required, and a summary of more than five ends in "...". */
  lemma SummaryListsFirstFive(schema: Json, order: seq<string>, i: nat)
    requires OrderFits(schema, order)
    requires schema.JObject? && PropsOf(schema).JObject? && PropsOf(schema).fields != map[]
    requires Checkable(RequiredOf(schema))
    requires i < |order| && i < 5
    ensures ParamSummary(schema, order).Some?
    ensures Contains(ParamSummary(schema, order).value, Mark(order[i], InRequired(order[i], RequiredOf(schema))))
    ensures |order| > 5 ==> EndsWith(ParamSummary(schema, order).value, "...")
  {
    var params := Marked(order, RequiredOf(schema));
    var shown := if |params| <= 5 then params else params[..5];
    assert shown[i] == params[i];
    JoinContains(shown, ", ", i);
    var s := Join(shown, ", ");
    if |params| > 5 {
      ContainsBefore(s, "...", params[i]);
    } else {
      assert s + "" == s;
    }
  }

  // ---- _generate_sample_args ---------------------------------------------

  /** `details.get(key)`: Python's None, that is JSON null, when absent. */
  function Given(details: map<string, Json>, key: string): Json {
    if key in details then details[key] else JNull
  }

  /** `enum[0]` of a truthy enum: the first item of a list, the first character of
      a string; a dict has no key 0 and a number or boolean no subscript. */
  function First(e: Json): Option<Json>
    requires Truthy(e)
  {
    match e
    case JArray(xs) => Some(xs[0])
    case JString(s) => Some(JString([s[0]]))
    case _ => None
  }

  /** The empty value chosen from the declared type; anything unrecognised,
      "integer" and "string" included, gets the empty string. */
  function Fallback(t: Json): Json {
    if t == JString("number") then JNumber(0)
    else if t == JString("boolean") then JBool(false)
    else if t == JString("array") then JArray([])
    else if t == JString("object") then JObject(map[])
    else JString("")
  }

  /** The value proposed for one property: its default, else its example, else
      the first enum value, else the empty value of its type. */
  function SampleFor(details: Json): (r: Option<Json>)
    ensures r.None? <==> (!details.JObject? ||
      (Given(details.fields, "default") == JNull && Given(details.fields, "example") == JNull &&
       Truthy(Given(details.fields, "enum")) &&
       !Given(details.fields, "enum").JArray? && !Given(details.fields, "enum").JString?))
  {
    if !details.JObject? then None
    else
      var f := details.fields;
      if Given(f, "default") != JNull then Some(Given(f, "default"))
      else if Given(f, "example") != JNull then Some(Given(f, "example"))
      else if Truthy(Given(f, "enum")) then First(Given(f, "enum"))
      else Some(Fallback(if "type" in f then f["type"] else JString("string")))
  }

  /** `_generate_sample_args(schema)`: one sample per property. Properties that
      are not a dict (a list included, empty or not) raise, and so does the loop
      as soon as one property's details raise. */
  function SampleArgs(schema: Json): (r: Option<map<string, Json>>)
    ensures r.Some? ==> schema.JObject? && PropsOf(schema).JObject? && r.value.Keys == PropsOf(schema).fields.Keys
  {
    match Get(schema, "properties", JObject(map[]))
    case Some(JObject(props)) =>
      if forall k | k in props :: SampleFor(props[k]).Some? then
        Some(map k | k in props :: SampleFor(props[k]).value)
      else None
    case _ => None
  }

  /** The sample has exactly the schema's properties, each with the value chosen
      for it, and it exists exactly when every property's value can be chosen. */
  lemma SampleArgsCovers(schema: Json)
    requires schema.JObject? && PropsOf(schema).JObject?
    ensures var props := PropsOf(schema).fields;
      SampleArgs(schema).Some? <==> forall k | k in props :: SampleFor(props[k]).Some?
    ensures var props := PropsOf(schema).fields;
      SampleArgs(schema).Some? ==>
        SampleArgs(schema).value.Keys == props.Keys &&
        forall k | k in props :: SampleArgs(schema).value[k] == SampleFor(props[k]).value
  {
  }

  /** Properties that are not a dict, a schema that is not one, or a property
      whose details are not one, raise. */
  lemma SampleArgsRaises(schema: Json, k: string)
    ensures !schema.JObject? ==> SampleArgs(schema).None?
    ensures schema.JObject? && !PropsOf(schema).JObject? ==> SampleArgs(schema).None?
    ensures (schema.JObject? && PropsOf(schema).JObject? && k in PropsOf(schema).fields &&
             !PropsOf(schema).fields[k].JObject?) ==> SampleArgs(schema).None?
  {
  }

  /** Default beats example beats enum beats type, and a null default or example
      counts as absent. */
  lemma SamplePriority(f: map<string, Json>)
    ensures Given(f, "default") != JNull ==> SampleFor(JObject(f)) == Some(f["default"])
    ensures Given(f, "default") == JNull && Given(f, "example") != JNull ==>
      SampleFor(JObject(f)) == Some(f["example"])
    ensures (Given(f, "default") == JNull && Given(f, "example") == JNull && Truthy(Given(f, "enum")) &&
             f["enum"].JArray?) ==> SampleFor(JObject(f)) == Some(f["enum"].items[0])
    ensures (Given(f, "default") == JNull && Given(f, "example") == JNull && Truthy(Given(f, "enum")) &&
             !f["enum"].JArray? && !f["enum"].JString?) ==> SampleFor(JObject(f)).None?
  {
  }

  /** The JSON Schema type names and the values that belong to them. */
  predicate Conforms(v: Json, t: string) {
    match t
    case "number" => v.JNumber?
    case "boolean" => v.JBool?
    case "array" => v.JArray?
    case "object" => v.JObject?
    case "string" => v.JString?
    case _ => false
  }

  /** Without default, example or enum, a property of one of the five basic
      types (or of no declared type, read as "string") gets a value of that
      type. */
  lemma FallbackConforms(f: map<string, Json>, t: string)
    requires Given(f, "default") == JNull && Given(f, "example") == JNull && !Truthy(Given(f, "enum"))
    requires t in {"number", "boolean", "array", "object", "string"}
    requires ("type" in f && f["type"] == JString(t)) || ("type" !in f && t == "string")
    ensures SampleFor(JObject(f)).Some? && Conforms(SampleFor(JObject(f)).value, t)
  {
  }

  /** An "integer" property gets the empty string, which is not a number. */
  lemma IntegerGetsString()
    ensures SampleFor(JObject(map["type" := JString("integer")])) == Some(JString(""))
    ensures !Conforms(JString(""), "number")
  {
  }
}
