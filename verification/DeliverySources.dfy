/** What conditions and templates of a delivery can ask, as it is written (internal/server/message_delivery.go). */
module DeliverySources {
  import opened Json
  import opened Strings
  import opened Expressions
  import opened ExpressionForms
  import opened ParamsMatch
  import opened SetState
  import opened HubManager
  import opened DeliveryReach
  import opened MessageDelivery
  import opened StringTemplating
  import opened ValueTemplating
  import opened TemplateForms
  import opened StateStore

  // ----- extensions -----

  /** Skipped by the boolean true and by nothing else. */
  lemma SkipIsTrue(payload: Value, extensions: map<string, Value>)
    ensures ValueSkip(MessageExample(payload, extensions)) <==>
              exists b :: "x-mock-skip" in extensions && extensions["x-mock-skip"] == Bool(b) && b
  {
    if "x-mock-skip" in extensions && extensions["x-mock-skip"].Bool? {
      assert extensions["x-mock-skip"] == Bool(extensions["x-mock-skip"].b);
    }
  }

  /** The newer key wins even when it holds no object; then there are no conditions. */
  lemma MatchIsNewer(payload: Value, extensions: map<string, Value>, conditions: map<string, Value>)
    ensures "x-mock-match" in extensions && extensions["x-mock-match"] == Obj(conditions) ==>
              ValueMatch(MessageExample(payload, extensions)) == conditions
    ensures "x-mock-match" in extensions && !extensions["x-mock-match"].Obj? ==>
              ValueMatch(MessageExample(payload, extensions)) == map[]
    ensures "x-mock-match" !in extensions && "x-mock-params-match" in extensions
            && extensions["x-mock-params-match"] == Obj(conditions) ==>
              ValueMatch(MessageExample(payload, extensions)) == conditions
    ensures "x-mock-match" !in extensions
            && ("x-mock-params-match" in extensions ==> !extensions["x-mock-params-match"].Obj?) ==>
              ValueMatch(MessageExample(payload, extensions)) == map[]
  {
  }

  lemma SetStateIsObject(payload: Value, extensions: map<string, Value>)
    ensures forall updates :: ValueSetState(MessageExample(payload, extensions)) == Some(updates) <==>
              "x-mock-set-state" in extensions && extensions["x-mock-set-state"] == Obj(updates)
  {
  }

  // ----- the connection -----

  function TextOrNull(s: string): Value {
    if s == "" then Null else Str(s)
  }

  /** A source that has null to say for a path has nothing there, so that a default applies. */
  function Present(v: Value): Option<Value> {
    if v.Null? then None else Some(v)
  }

  /** The three fields of a candidate. */
  lemma ConnectionFields(fixed: Sources, info: ConsumerInfo)
    ensures var sources := WithConnection(fixed, info);
            && Evaluate("{$connection.id}", sources) == Ok(TextOrNull(info.connectionID))
            && Evaluate("{$connection.channel}", sources) == Ok(TextOrNull(info.channel))
            && Evaluate("{$connection.path}", sources) == Ok(TextOrNull(info.path))
  {
    hide Evaluate, ConnectionGet, WithConnection;
    AsksConnection("{$connection.id}", "id", fixed, info);
    AsksConnection("{$connection.channel}", "channel", fixed, info);
    AsksConnection("{$connection.path}", "path", fixed, info);
    FieldsOf(ConnectionContext(info.connectionID, info.channel, info.path, info.query, info.headers));
  }

  lemma AsksConnection(expr: string, path: string, fixed: Sources, info: ConsumerInfo)
    requires expr == "{$" + "connection" + "." + path + "}" && '|' !in path
    ensures var context := ConnectionContext(info.connectionID, info.channel, info.path, info.query, info.headers);
            Evaluate(expr, WithConnection(fixed, info)) == Ok(ConnectionGet(context, path).GetOr(Null))
  {
    hide Evaluate, ConnectionGet;
    AsksSource(expr, "connection", path, WithConnection(fixed, info));
  }

  /** One expression without modifier. */
  lemma AsksSource(expr: string, source: string, path: string, sources: Sources)
    requires expr == "{$" + source + "." + path + "}"
    requires '.' !in source && '|' !in source && '|' !in path && source in sources
    ensures Evaluate(expr, sources) == Ok(sources[source](path).GetOr(Null))
  {
    PlainForm(source, path, sources);
    hide Evaluate;
  }

  lemma FieldsOf(c: ConnectionContext)
    ensures ConnectionGet(c, "id") == Present(TextOrNull(c.id))
    ensures ConnectionGet(c, "channel") == Present(TextOrNull(c.channel))
    ensures ConnectionGet(c, "path") == Present(TextOrNull(c.path))
  {
    hide SplitPath;
    OnePart("id");
    OnePart("channel");
    OnePart("path");
  }

  lemma OnePart(name: string)
    requires name != [] && forall i :: 0 <= i < |name| ==> name[i] != DOT && name[i] != BACKSLASH
    ensures SplitPath(name) == [name]
  {
    NameCells(name);
  }

  lemma {:induction false} NameCells(name: string)
    requires forall i :: 0 <= i < |name| ==> name[i] != DOT && name[i] != BACKSLASH
    ensures Cells(name) == [name]
  {
    if name != [] {
      NameCells(name[1..]);
      assert [name[0]] + name[1..] == name;
    }
  }

  /** The values of one key: null for none, the value alone, or the list. */
  function ValuesOf(m: map<string, seq<string>>, key: string): Value {
    if key !in m || |m[key]| == 0 then Null
    else if |m[key]| == 1 then Str(m[key][0])
    else Arr(seq(|m[key]|, i requires 0 <= i < |m[key]| => Str(m[key][i])))
  }

  /** Query parameters and headers, for a key that is one part. */
  lemma ConnectionValues(fixed: Sources, info: ConsumerInfo, key: string, part: string)
    requires SplitPath(key) == [part] && '|' !in key
    ensures var sources := WithConnection(fixed, info);
            && Evaluate("{$connection." + ("query." + key) + "}", sources) == Ok(ValuesOf(info.query, part))
            && Evaluate("{$connection." + ("header." + key) + "}", sources) == Ok(ValuesOf(info.headers, part))
  {
    hide Evaluate, ConnectionGet, SplitPath;
    var sources := WithConnection(fixed, info);
    assert "{$" + "connection" + "." == "{$connection.";
    AsksSource("{$connection." + ("query." + key) + "}", "connection", "query." + key, sources);
    AsksSource("{$connection." + ("header." + key) + "}", "connection", "header." + key, sources);
    KeysOf(ConnectionContext(info.connectionID, info.channel, info.path, info.query, info.headers), key, part);
  }

  lemma KeysOf(c: ConnectionContext, key: string, part: string)
    requires SplitPath(key) == [part]
    ensures ConnectionGet(c, "query." + key) == Present(ValuesOf(c.query, part))
    ensures ConnectionGet(c, "header." + key) == Present(ValuesOf(c.headers, part))
  {
    PathWithKey("query", key);
    PathWithKey("header", key);
    assert "query" + "." == "query." && "header" + "." == "header.";
    assert "query" + "." + key == "query." + key && "header" + "." + key == "header." + key;
    hide SplitPath, MultiValue;
    SameValues(c.query, part);
    SameValues(c.headers, part);
    assert ["query", part][1..] == [part] && ["header", part][1..] == [part];
  }

  /**
   * Behind id, channel and path nothing more is read; query and header take one part; nothing else is there to be asked
   * for.
   */
  lemma ConnectionOtherwise(fixed: Sources, info: ConsumerInfo, word: string, key: string)
    requires '|' !in word && '|' !in key && forall i :: 0 <= i < |word| ==> word[i] != '.' && word[i] != '\\'
    ensures word in {"query", "header"} ==> |SplitPath(key)| != 1 ==>
              Evaluate("{$connection." + (word + "." + key) + "}", WithConnection(fixed, info)) == Ok(Null)
    ensures word !in {"query", "header"} ==>
              Evaluate("{$connection." + (word + "." + key) + "}", WithConnection(fixed, info)) ==
                if word == "id" then Ok(TextOrNull(info.connectionID))
                else if word == "channel" then Ok(TextOrNull(info.channel))
                else if word == "path" then Ok(TextOrNull(info.path))
                else Ok(Null)
  {
    var sources := WithConnection(fixed, info);
    assert "{$" + "connection" + "." == "{$connection.";
    hide Evaluate, ConnectionGet, SplitPath;
    AsksConnection("{$connection." + (word + "." + key) + "}", word + "." + key, fixed, info);
    ByFirstPart(ConnectionContext(info.connectionID, info.channel, info.path, info.query, info.headers), word, key);
  }

  lemma ByFirstPart(c: ConnectionContext, word: string, key: string)
    requires forall i :: 0 <= i < |word| ==> word[i] != '.' && word[i] != '\\'
    ensures word in {"query", "header"} ==> |SplitPath(key)| != 1 ==> ConnectionGet(c, word + "." + key) == None
    ensures word !in {"query", "header"} ==>
              ConnectionGet(c, word + "." + key) == Present(
                if word == "id" then TextOrNull(c.id)
                else if word == "channel" then TextOrNull(c.channel)
                else if word == "path" then TextOrNull(c.path)
                else Null)
  {
    PathWithKey(word, key);
    hide SplitPath;
    assert ([word] + SplitPath(key))[1..] == SplitPath(key);
  }

  lemma SameValues(m: map<string, seq<string>>, key: string)
    ensures MultiValue(m, [key]) == Present(ValuesOf(m, key))
  {
    MultiValues(m, key);
    if key in m && |m[key]| > 1 {
      assert MultiValue(m, [key]).value.items == ValuesOf(m, key).items;
    }
  }

  // ----- event, environment and state -----

  /** Name and payload of the event; null when it has none. */
  lemma EventFields(state: map<string, Value>, env: map<string, string>, name: string, data: Option<map<string, Value>>)
    ensures var sources := FixedSources(state, env, name, data);
            && Evaluate("{$event.name}", sources) == Ok(TextOrNull(name))
            && Evaluate("{$event.data}", sources) == Ok(if data.Some? then Obj(data.value) else Null)
  {
    hide Evaluate, StateGet;
    var sources := FixedSources(state, env, name, data);
    SourcesOf(state, env, name, data);
    AsksSource("{$event.name}", "event", "name", sources);
    AsksSource("{$event.data}", "event", "data", sources);
  }

  /** Absent values are absent, not null. */
  lemma AbsentIsNotNull(state: map<string, Value>, env: map<string, string>, name: string,
                        data: Option<map<string, Value>>, parts: seq<string>, found: Value)
    requires parts != [] && Splittable(parts)
    ensures var path, sources := JoinEscaped(parts), FixedSources(state, env, name, data);
            && sources["event"]("name") == Present(TextOrNull(name))
            && sources["event"]("data") == (if data.Some? then Some(Obj(data.value)) else None)
            && (sources["state"](path) == Some(found) <==> Leads(Obj(state), parts, found))
            && (path !in {"name", "data"} ==>
                (sources["event"](path) == Some(found) <==> Leads(Obj(data.GetOr(map[])), parts, found)))
            && (sources["env"](path) == Some(found) <==>
                |parts| == 1 && parts[0] in env && found == Str(env[parts[0]]))
  {
    SourcesOf(state, env, name, data);
    SplitUndoesJoin(parts);
    StateGetIsNested(state, JoinEscaped(parts));
    StateGetIsNested(data.GetOr(map[]), JoinEscaped(parts));
    LeadsOnce(Obj(state), parts, found);
    LeadsOnce(Obj(data.GetOr(map[])), parts, found);
    hide StateGet, Nested, Leads, JoinEscaped, SplitPath, FixedSources;
  }

  lemma LeadsOnce(v: Value, parts: seq<string>, found: Value)
    ensures Leads(v, parts, found) <==> Nested(v, parts) == Some(found)
  {
    NestedLeads(v, parts);
    OneLead(v, parts, found);
  }

  lemma SourcesOf(state: map<string, Value>, env: map<string, string>, name: string, data: Option<map<string, Value>>)
    ensures var sources := FixedSources(state, env, name, data);
            && "state" in sources && sources["state"] == StateSource(state)
            && "env" in sources && sources["env"] == EnvSource(env)
            && "event" in sources && sources["event"] == EventSource(name, data)
  {
    assert "event" != "env" && "event" != "state" && "env" != "state";
  }

  /** Anything else asked of the event is looked up in its payload, and of the state in the captured namespace. */
  lemma NestedFields(state: map<string, Value>, env: map<string, string>, name: string, data: map<string, Value>,
                     parts: seq<string>, found: Value)
    requires parts != [] && Splittable(parts) && '|' !in JoinEscaped(parts)
    ensures var sources := FixedSources(state, env, name, Some(data));
            JoinEscaped(parts) !in {"name", "data"} && Leads(Obj(data), parts, found) ==>
              Evaluate("{$" + "event" + "." + JoinEscaped(parts) + "}", sources) == Ok(found)
    ensures var sources := FixedSources(state, env, name, Some(data));
            Leads(Obj(state), parts, found) ==>
              Evaluate("{$" + "state" + "." + JoinEscaped(parts) + "}", sources) == Ok(found)
    ensures var sources := FixedSources(state, env, name, Some(data));
            (forall v :: !Leads(Obj(state), parts, v)) ==>
              Evaluate("{$" + "state" + "." + JoinEscaped(parts) + "}", sources) == Ok(Null)
  {
    var path, sources := JoinEscaped(parts), FixedSources(state, env, name, Some(data));
    PlainForm("event", path, sources);
    PlainForm("state", path, sources);
    SplitUndoesJoin(parts);
    StateGetIsNested(data, path);
    StateGetIsNested(state, path);
    NestedLeads(Obj(data), parts);
    NestedLeads(Obj(state), parts);
    OneLead(Obj(data), parts, found);
    OneLead(Obj(state), parts, found);
    hide Evaluate, StateGet, Nested, Leads, JoinEscaped, SplitPath;
    assert "event" != "env" && "event" != STATE && "state" == STATE;
  }

  lemma {:induction false} OneLead(v: Value, parts: seq<string>, found: Value)
    ensures Leads(v, parts, found) ==> Nested(v, parts) == Some(found)
    decreases |parts|
  {
    if parts != [] && v.Obj? && parts[0] in v.fields {
      OneLead(v.fields[parts[0]], parts[1..], found);
    }
  }

  /** A variable of the environment; null when it is not set. */
  lemma EnvironmentFields(state: map<string, Value>, env: map<string, string>, name: string,
                          data: Option<map<string, Value>>, key: string, variable: string)
    requires '|' !in key
    ensures var answer := Evaluate("{$" + "env" + "." + key + "}", FixedSources(state, env, name, data));
            && (SplitPath(key) == [variable] ==> answer == Ok(if variable in env then Str(env[variable]) else Null))
            && (|SplitPath(key)| != 1 ==> answer == Ok(Null))
  {
    var sources := FixedSources(state, env, name, data);
    PlainForm("env", key, sources);
    hide Evaluate, StateGet, SplitPath;
    assert "env" != "event" && "env" != STATE;
  }

  // ----- bodies -----

  /** A payload that is one expression renders as the JSON of its value, or not at all. */
  lemma ExpressionBody(body: string, extensions: map<string, Value>, sources: Sources, lib: Library, text: string)
    requires !Contains(body + "}", "{$")
    ensures var ex, t := MessageExample(Str("{$" + body + "}"), extensions), TemplaterOf(sources, lib);
            match Evaluate("{$" + body + "}", sources)
            case Ok(v) =>
              && (IsBodyOf(text, ex, t, lib) <==> lib.marshal(v) == Some(text))
              && (RenderFails(ex, t, lib) <==> lib.marshal(v) == None)
            case Err(_) => !IsBodyOf(text, ex, t, lib) && RenderFails(ex, t, lib)
  {
    var e, t := "{$" + body + "}", TemplaterOf(sources, lib);
    hide Evaluate, Contains, Templated;
    var answer := match Evaluate(e, sources) case Ok(v) => Ok(v) case Err(cause) => Err(Evaluation(cause));
    forall r
      ensures Templated(Str(e), t, 0, r) <==> r == answer
    {
      WholeKeepsItsKind(body, t, 0, r);
    }
    BodyOfOne(Str(e), extensions, t, lib, answer, text);
  }

  lemma BodyOfOne(payload: Value, extensions: map<string, Value>, t: Templater, lib: Library,
                  answer: Result<Value, TemplateError>, text: string)
    requires payload != Null && forall r :: Templated(payload, t, 0, r) <==> r == answer
    ensures var ex := MessageExample(payload, extensions);
            && (IsBodyOf(text, ex, t, lib) <==> answer.Ok? && lib.marshal(answer.value) == Some(text))
            && (RenderFails(ex, t, lib) <==> answer.Err? || lib.marshal(answer.value) == None)
  {
    hide Templated;
    assert Templated(payload, t, 0, answer);
    assert answer.Ok? ==> Templated(payload, t, 0, Ok(answer.value));
  }

  /** A payload around one expression renders as the JSON of the text with its value in place. */
  lemma TextBody(before: string, body: string, after: string, extensions: map<string, Value>, sources: Sources,
                 lib: Library, text: string)
    requires before != "" && !Contains(before, "{$") && '}' !in body && !Contains(body + "}", "{$")
    requires !Contains(after, "{$")
    ensures var e := "{$" + body + "}";
            var shown := match Evaluate(e, sources)
                         case Err(_) => e
                         case Ok(Str(s)) => s
                         case Ok(v) => lib.marshal(v).GetOr(e);
            IsBodyOf(text, MessageExample(Str(before + e + after), extensions), TemplaterOf(sources, lib), lib) <==>
              lib.marshal(Str(before + shown + after)) == Some(text)
  {
    var e, t := "{$" + body + "}", TemplaterOf(sources, lib);
    var s := before + e + after;
    hide Contains, Render, Cut, Templated, Evaluate;
    EmbeddedOnce(before, body, after, t);
    NotBraced(before, "$" + body + "}" + after, s);
    var answer := Ok(Str(Render(Cut(s), t)));
    forall r
      ensures Templated(Str(s), t, 0, r) <==> r == answer
    {
      OthersStayText(s, t, 0, r);
    }
    BodyOfOne(Str(s), extensions, t, lib, answer, text);
    hide IsBodyOf;
  }

  lemma NotBraced(before: string, rest: string, s: string)
    requires before != "" && !Contains(before, "{$") && s == before + ("{" + rest)
    ensures forall body :: s != Braced(body)
  {
    OpeningIsContained(before);
    hide Contains;
    assert |before| == 1 ==> s[1] == '{';
    assert |before| > 1 ==> s[0] == before[0] && s[1] == before[1];
    assert !("{$" <= s);
  }

  lemma OpeningIsContained(s: string)
    ensures "{$" <= s ==> Contains(s, "{$")
  {
    if "{$" <= s {
      assert s[0..] == s && OccursAt("{$", s, 0);
    }
  }

  // ----- choosing by connection id -----

  /** A match on the connection id accepts a candidate exactly when its id equals the condition as JSON. */
  lemma IdMatch(fixed: Sources, info: ConsumerInfo, id: Value, lib: Library)
    requires !id.Obj? && (id.Str? ==> !OneExpression(id.s))
    ensures Matched(map["{$connection.id}" := id], WithConnection(fixed, info), lib)
            <==> SameJson(TextOrNull(info.connectionID), id, lib)
  {
    hide Judge, Evaluate, SameJson, OneExpression;
    var key := "{$connection.id}";
    var sources := WithConnection(fixed, info);
    ConnectionFields(fixed, info);
    LiteralCondition(key, id, sources, lib, TextOrNull(info.connectionID));
    MatchedOne(key, id, sources, lib);
  }

  lemma MatchedOne(expr: string, condition: Value, sources: Sources, lib: Library)
    ensures Matched(map[expr := condition], sources, lib) <==> Judge(expr, condition, sources, lib) == Holds
  {
    hide Judge;
    assert expr in map[expr := condition];
  }

  lemma IdMatchIsPerConnection(id: Value)
    ensures ConnectionPart(map["{$connection.id}" := id]) == map["{$connection.id}" := id]
    ensures CommonPart(map["{$connection.id}" := id]) == map[]
  {
    var pm: Match := map["{$connection.id}" := id];
    PartsByText(pm, "{$connection.id}");
    hide Contains;
    assert "{$connection.id}" == "" + "{$connection." + "id}";
  }

  /** What such an example does: rendered, it goes to exactly the candidates with that id. */
  lemma GoesToThatId(payload: Value, extensions: map<string, Value>, id: Value, report: Report, out: Writes,
                     before: Store, after: Store, e: Emission)
    requires "x-mock-match" in extensions && extensions["x-mock-match"] == Obj(map["{$connection.id}" := id])
    requires !id.Obj? && (id.Str? ==> !OneExpression(id.s))
    requires CONNECTION !in e.fixed && e.target.None?
    requires Explains(MessageExample(payload, extensions), report, out, before, after, e) && !report.Withheld?
    ensures report.PerConnection? && ListsConsumers(report.candidates, e.view, e.address)
    ensures forall info :: info in report.chosen <==>
              info in report.candidates && SameJson(TextOrNull(info.connectionID), id, e.lib)
    ensures Reaches(out.w, out.s, e.view, IdsOf(report.chosen, Ws), IdsOf(report.chosen, SignalR), report.body)
  {
    var ex := MessageExample(payload, extensions);
    var pm: Match := map["{$connection.id}" := id];
    MatchIsNewer(payload, extensions, pm);
    IdMatchIsPerConnection(id);
    assert "{$connection.id}" in pm;
    hide Matched, ListsConsumers, Reaches, StateStep, IsBodyOf, SameJson, ValueMatch, ConnectionPart, CommonPart,
      OneExpression;
    forall info: ConsumerInfo
      ensures Matched(pm, WithConnection(e.fixed, info), e.lib) <==> SameJson(TextOrNull(info.connectionID), id, e.lib)
    {
      IdMatch(e.fixed, info, id, e.lib);
    }
  }
}
