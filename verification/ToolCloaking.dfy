/** Removal of a schema field that the upstream rejects, anywhere in a JSON tree. */
module ToolCloaking {
  import opened Options
  import opened Records
  import opened Json

  const REMOVED := "enumDescriptions"

  // ----- The strip.

  function Strip(j: Json): Json
    decreases j
  {
    match j
    case Arr(items) => Arr(StripItems(items))
    case Obj(fields) => Obj(StripFields(fields))
    case _ => j
  }

  function StripItems(items: seq<Json>): (r: seq<Json>)
    ensures |r| == |items|
    ensures forall i :: 0 <= i < |items| ==> r[i] == Strip(items[i])
    decreases items
  {
    if items == [] then [] else [Strip(items[0])] + StripItems(items[1..])
  }

  function StripFields(fields: seq<Field<Json>>): (r: seq<Field<Json>>)
    ensures |r| <= |fields|
    decreases fields
  {
    if fields == [] then []
    else if fields[0].key == REMOVED then StripFields(fields[1..])
    else [Field(fields[0].key, Strip(fields[0].value))] + StripFields(fields[1..])
  }

  /** The key occurs somewhere in the tree. */
  predicate Occurs(j: Json)
    decreases j
  {
    match j
    case Arr(items) => exists i :: 0 <= i < |items| && Occurs(items[i])
    case Obj(fields) => exists i :: 0 <= i < |fields| && (fields[i].key == REMOVED || Occurs(fields[i].value))
    case _ => false
  }

  function StripOption(v: Option<Json>): Option<Json> {
    if v.Some? then Some(Strip(v.value)) else None
  }

  predicate Avoids(path: seq<Step>) {
    Key(REMOVED) !in path
  }

  lemma {:induction false} GetAfterStrip(fields: seq<Field<Json>>, key: string)
    requires key != REMOVED
    ensures Get(StripFields(fields), key) == StripOption(Get(fields, key))
  {
    if fields != [] {
      GetAfterStrip(fields[1..], key);
    }
  }

  /** For every tree and every path that avoids the key, looking up commutes with stripping. */
  lemma {:induction false} LookupCommutes(j: Json, path: seq<Step>)
    requires Avoids(path)
    ensures Lookup(Strip(j), path) == StripOption(Lookup(j, path))
    decreases |path|
  {
    if path != [] {
      assert forall s :: s in path[1..] ==> s in path;
      match (path[0], j)
      case (Key(k), Obj(fields)) =>
        GetAfterStrip(fields, k);
        var v := Get(fields, k);
        if v.Some? {
          LookupCommutes(v.value, path[1..]);
        }
      case (Index(i), Arr(items)) =>
        if i < |items| {
          LookupCommutes(items[i], path[1..]);
        }
      case _ =>
    }
  }

  lemma {:induction false} StripRemovesAll(j: Json)
    ensures !Occurs(Strip(j))
    decreases j
  {
    match j
    case Arr(items) =>
      forall i | 0 <= i < |items| ensures !Occurs(StripItems(items)[i]) {
        StripRemovesAll(items[i]);
      }
    case Obj(fields) => StripFieldsRemovesAll(fields);
    case _ =>
  }

  lemma {:induction false} StripFieldsRemovesAll(fields: seq<Field<Json>>)
    ensures forall i :: 0 <= i < |StripFields(fields)| ==>
              StripFields(fields)[i].key != REMOVED && !Occurs(StripFields(fields)[i].value)
    decreases fields
  {
    if fields != [] {
      StripFieldsRemovesAll(fields[1..]);
      StripRemovesAll(fields[0].value);
    }
  }

  /** A tree is unchanged exactly when it never had the key. */
  lemma {:induction false} UnchangedIff(j: Json)
    ensures Strip(j) == j <==> !Occurs(j)
    decreases j
  {
    match j
    case Arr(items) =>
      forall i | 0 <= i < |items| ensures StripItems(items)[i] == items[i] <==> !Occurs(items[i]) {
        UnchangedIff(items[i]);
      }
      if !Occurs(j) {
        assert StripItems(items) == items;
      }
    case Obj(fields) => FieldsUnchangedIff(fields);
    case _ =>
  }

  predicate CleanField(f: Field<Json>)
    decreases f
  {
    f.key != REMOVED && !Occurs(f.value)
  }

  predicate CleanFields(fields: seq<Field<Json>>) {
    forall i :: 0 <= i < |fields| ==> CleanField(fields[i])
  }

  lemma CleanStep(fields: seq<Field<Json>>)
    requires fields != []
    ensures CleanFields(fields) <==> CleanField(fields[0]) && CleanFields(fields[1..])
  {
    assert forall i :: 0 < i < |fields| ==> fields[i] == fields[1..][i - 1];
  }

  lemma SameHeadAndTail<T>(x: T, xs: seq<T>, s: seq<T>)
    requires s != []
    ensures [x] + xs == s <==> x == s[0] && xs == s[1..]
  {
    assert s == [s[0]] + s[1..];
    assert ([x] + xs)[1..] == xs;
  }

  lemma {:induction false} FieldsUnchangedIff(fields: seq<Field<Json>>)
    ensures StripFields(fields) == fields <==> CleanFields(fields)
    decreases fields
  {
    if fields != [] {
      var first, tail := fields[0], StripFields(fields[1..]);
      FieldsUnchangedIff(fields[1..]);
      UnchangedIff(first.value);
      CleanStep(fields);
      if first.key != REMOVED {
        SameHeadAndTail(Field(first.key, Strip(first.value)), tail, fields);
      }
    }
  }

  /** Stripping is idempotent. */
  lemma StripTwice(j: Json)
    ensures Strip(Strip(j)) == Strip(j)
  {
    StripRemovesAll(j);
    UnchangedIff(Strip(j));
  }

  // ----- The payload sanitizer.

  function SanitizeDeclaration(d: Json): Json {
    if d.Obj? && Get(d.fields, "parameters").Some?
    then Obj(Set(d.fields, "parameters", Strip(Get(d.fields, "parameters").value)))
    else d
  }

  function Declarations(tool: Json): Option<seq<Json>> {
    if tool.Obj? then
      var v := Get(tool.fields, "functionDeclarations");
      if v.Some? && v.value.Arr? then Some(v.value.items) else None
    else None
  }

  function MapJson(f: Json -> Json, items: seq<Json>): (r: seq<Json>)
    ensures |r| == |items|
    ensures forall i :: 0 <= i < |items| ==> r[i] == f(items[i])
  {
    seq(|items|, i requires 0 <= i < |items| => f(items[i]))
  }

  predicate Touched(d: Json) {
    d.Obj? && Get(d.fields, "parameters").Some?
  }

  /** Some declaration of the tool has a parameter schema. */
  predicate ToolChanges(tool: Json) {
    var ds := Declarations(tool);
    ds.Some? && exists i :: 0 <= i < |ds.value| && Touched(ds.value[i])
  }

  function SanitizeTool(tool: Json): Json {
    var ds := Declarations(tool);
    if ToolChanges(tool)
    then Obj(Set(tool.fields, "functionDeclarations", Arr(MapJson(SanitizeDeclaration, ds.value))))
    else tool
  }

  /** The payload with stripped parameter schemas; a payload with nothing to strip is returned as it is. */
  function SanitizePayload(body: Json): Json {
    if !body.Obj? then body
    else
      var request := Get(body.fields, "request");
      if request.None? || !request.value.Obj? then body
      else
        var tools := Get(request.value.fields, "tools");
        if tools.None? || !tools.value.Arr? then body
        else if !(exists i :: 0 <= i < |tools.value.items| && ToolChanges(tools.value.items[i])) then body
        else
          Obj(Set(body.fields, "request",
                  Obj(Set(request.value.fields, "tools", Arr(MapJson(SanitizeTool, tools.value.items))))))
  }

  /** A rewrite below a pattern of keys and array items; where the shape differs, nothing changes. */
  datatype Layer = AtKey(key: string) | AtItems

  function Rewrite(j: Json, pattern: seq<Layer>, f: Json -> Json): Json
    decreases |pattern|
  {
    if pattern == [] then f(j)
    else
      match (pattern[0], j)
      case (AtKey(k), Obj(fields)) =>
        var v := Get(fields, k);
        if v.Some? then Obj(Set(fields, k, Rewrite(v.value, pattern[1..], f))) else j
      case (AtItems, Arr(items)) =>
        Arr(seq(|items|, i requires 0 <= i < |items| => Rewrite(items[i], pattern[1..], f)))
      case _ => j
  }

  predicate StepMatches(s: Step, l: Layer) {
    match l
    case AtKey(k) => s == Key(k)
    case AtItems => s.Index?
  }

  /** The path follows the pattern as far as both go. */
  predicate Follows(path: seq<Step>, pattern: seq<Layer>)
    decreases |path|
  {
    path == [] || pattern == [] || (StepMatches(path[0], pattern[0]) && Follows(path[1..], pattern[1..]))
  }

  /** Off the pattern a rewrite changes nothing; below it, it applies `f`. */
  lemma {:induction false} LookupRewrite(j: Json, pattern: seq<Layer>, f: Json -> Json, path: seq<Step>)
    ensures !Follows(path, pattern) ==> Lookup(Rewrite(j, pattern, f), path) == Lookup(j, path)
    ensures Follows(path, pattern) && |path| >= |pattern| && Lookup(j, path[..|pattern|]).Some? ==>
              Lookup(Rewrite(j, pattern, f), path) == Lookup(f(Lookup(j, path[..|pattern|]).value), path[|pattern|..])
    decreases |pattern|
  {
    if pattern == [] {
      assert path[..0] == [] && path[0..] == path;
    } else if path != [] {
      var rest := pattern[1..];
      if |path| >= |pattern| {
        assert path[..|pattern|][1..] == path[1..][..|rest|];
        assert path[|pattern|..] == path[1..][|rest|..];
      }
      match (pattern[0], j)
      case (AtKey(k), Obj(fields)) =>
        var v := Get(fields, k);
        if v.Some? {
          LookupRewrite(v.value, rest, f, path[1..]);
          if path[0].Key? {
            GetAfterSet(fields, k, Rewrite(v.value, rest, f), path[0].key);
          }
        }
      case (AtItems, Arr(items)) =>
        if path[0].Index? && path[0].index < |items| {
          LookupRewrite(items[path[0].index], rest, f, path[1..]);
        }
      case _ =>
    }
  }

  lemma {:induction false} StripAfterSet(fields: seq<Field<Json>>, key: string, value: Json)
    requires Get(fields, key).Some? && Strip(value) == Strip(Get(fields, key).value)
    ensures StripFields(Set(fields, key, value)) == StripFields(fields)
  {
    if fields[0].key != key {
      StripAfterSet(fields[1..], key, value);
    }
  }

  /** A rewrite by a function that changes nothing but the removed key does the same. */
  lemma {:induction false} StripRewrite(j: Json, pattern: seq<Layer>, f: Json -> Json)
    requires forall x :: Strip(f(x)) == Strip(x)
    ensures Strip(Rewrite(j, pattern, f)) == Strip(j)
    decreases |pattern|
  {
    if pattern != [] {
      match (pattern[0], j)
      case (AtKey(k), Obj(fields)) =>
        var v := Get(fields, k);
        if v.Some? {
          StripRewrite(v.value, pattern[1..], f);
          StripAfterSet(fields, k, Rewrite(v.value, pattern[1..], f));
        }
      case (AtItems, Arr(items)) =>
        var rewritten := Rewrite(j, pattern, f).items;
        forall i | 0 <= i < |items| ensures Strip(rewritten[i]) == Strip(items[i]) {
          StripRewrite(items[i], pattern[1..], f);
        }
        assert StripItems(rewritten) == StripItems(items);
      case _ =>
    }
  }

  const DECLARATION_PATTERN: seq<Layer> := [AtKey("parameters")]
  const TOOL_PATTERN: seq<Layer> := [AtKey("functionDeclarations"), AtItems] + DECLARATION_PATTERN
  const PAYLOAD_PATTERN: seq<Layer> := [AtKey("request"), AtKey("tools"), AtItems] + TOOL_PATTERN

  lemma DeclarationIsRewrite(d: Json)
    ensures SanitizeDeclaration(d) == Rewrite(d, DECLARATION_PATTERN, Strip)
  {
    assert DECLARATION_PATTERN[1..] == [];
  }

  lemma ToolIsRewrite(tool: Json)
    ensures SanitizeTool(tool) == Rewrite(tool, TOOL_PATTERN, Strip)
  {
    assert TOOL_PATTERN[1..] == [AtItems] + DECLARATION_PATTERN;
    assert TOOL_PATTERN[1..][1..] == DECLARATION_PATTERN;
    var ds := Declarations(tool);
    if ds.Some? {
      var rewritten := Rewrite(Arr(ds.value), TOOL_PATTERN[1..], Strip);
      forall i | 0 <= i < |ds.value| ensures rewritten.items[i] == SanitizeDeclaration(ds.value[i]) {
        DeclarationIsRewrite(ds.value[i]);
      }
      assert rewritten.items == MapJson(SanitizeDeclaration, ds.value);
      if !ToolChanges(tool) {
        assert rewritten.items == ds.value;
        SetSame(tool.fields, "functionDeclarations", Arr(ds.value));
      }
    } else if tool.Obj? {
      var v := Get(tool.fields, "functionDeclarations");
      if v.Some? {
        RewriteMismatch(v.value, [AtItems] + DECLARATION_PATTERN);
        SetSame(tool.fields, "functionDeclarations", v.value);
      }
    }
  }

  lemma RewriteMismatch(j: Json, pattern: seq<Layer>)
    requires pattern != [] && (if pattern[0].AtItems? then !j.Arr? else !j.Obj?)
    ensures Rewrite(j, pattern, Strip) == j
  {
  }

  const TOOLS_PATTERN: seq<Layer> := [AtItems] + TOOL_PATTERN
  const REQUEST_PATTERN: seq<Layer> := [AtKey("tools")] + TOOLS_PATTERN

  lemma ToolsAreRewrite(items: seq<Json>)
    ensures Rewrite(Arr(items), TOOLS_PATTERN, Strip) == Arr(MapJson(SanitizeTool, items))
    ensures !(exists i :: 0 <= i < |items| && ToolChanges(items[i])) ==> MapJson(SanitizeTool, items) == items
  {
    assert TOOLS_PATTERN[1..] == TOOL_PATTERN;
    var rewritten := Rewrite(Arr(items), TOOLS_PATTERN, Strip).items;
    forall i | 0 <= i < |items| ensures rewritten[i] == SanitizeTool(items[i]) {
      ToolIsRewrite(items[i]);
    }
    assert rewritten == MapJson(SanitizeTool, items);
  }

  function ToolsOf(request: Json): Option<seq<Json>> {
    if request.Obj? then
      var v := Get(request.fields, "tools");
      if v.Some? && v.value.Arr? then Some(v.value.items) else None
    else None
  }

  lemma RequestIsRewrite(request: Json)
    ensures var tools := ToolsOf(request);
            Rewrite(request, REQUEST_PATTERN, Strip) ==
            if tools.Some? && (exists i :: 0 <= i < |tools.value| && ToolChanges(tools.value[i]))
            then Obj(Set(request.fields, "tools", Arr(MapJson(SanitizeTool, tools.value))))
            else request
  {
    assert REQUEST_PATTERN[1..] == TOOLS_PATTERN;
    if request.Obj? {
      var tools := Get(request.fields, "tools");
      if tools.Some? {
        if tools.value.Arr? {
          ToolsAreRewrite(tools.value.items);
        } else {
          RewriteMismatch(tools.value, TOOLS_PATTERN);
        }
        SetSame(request.fields, "tools", tools.value);
      }
    } else {
      RewriteMismatch(request, REQUEST_PATTERN);
    }
  }

  /** The sanitizer is the strip applied at every tool's every declaration's parameters, and nowhere else. */
  lemma SanitizeIsRewrite(body: Json)
    ensures SanitizePayload(body) == Rewrite(body, PAYLOAD_PATTERN, Strip)
  {
    assert PAYLOAD_PATTERN[1..] == REQUEST_PATTERN;
    if body.Obj? {
      var request := Get(body.fields, "request");
      if request.Some? {
        RequestIsRewrite(request.value);
        SetSame(body.fields, "request", request.value);
      }
    } else {
      RewriteMismatch(body, PAYLOAD_PATTERN);
    }
  }

  /**
   * The sanitizer keeps every tool, declaration, name and order: apart from the removed key the
   * payload is the same tree. Off the parameter schemas every lookup is unchanged, even of the
   * removed key, and inside them a lookup sees the stripped schema.
   */
  lemma SanitizeSpec(body: Json, path: seq<Step>)
    ensures Strip(SanitizePayload(body)) == Strip(body)
    ensures !Follows(path, PAYLOAD_PATTERN) ==> Lookup(SanitizePayload(body), path) == Lookup(body, path)
    ensures Follows(path, PAYLOAD_PATTERN) && |path| >= |PAYLOAD_PATTERN|
            && Lookup(body, path[..|PAYLOAD_PATTERN|]).Some? ==>
              Lookup(SanitizePayload(body), path)
              == Lookup(Strip(Lookup(body, path[..|PAYLOAD_PATTERN|]).value), path[|PAYLOAD_PATTERN|..])
  {
    SanitizeIsRewrite(body);
    LookupRewrite(body, PAYLOAD_PATTERN, Strip, path);
    forall x ensures Strip(Strip(x)) == Strip(x) { StripTwice(x); }
    StripRewrite(body, PAYLOAD_PATTERN, Strip);
  }
}
