/** Match conditions and their split by connection reference (internal/extensions/match.go). */
module ParamsMatch {
  import opened Json
  import opened Strings
  import opened Expressions

  type Match = map<string, Value>

  /** Foreign code: number parsing, JSON encoding, schema validation (None: the schema does not compile). */
  datatype Library = Library(
    parseFloat: string -> Option<real>,
    marshal: Value -> Option<string>,
    validate: (Value, map<string, Value>) -> Option<bool>)

  // ----- comparing values -----

  function AsFloat(v: Value, lib: Library): Option<real> {
    match v
    case Str(s) => lib.parseFloat(s)
    case Number(kind, n) => if kind.OtherNumber? then None else Some(n)
    case _ => None
  }

  function EqualJSON(a: Value, b: Value, lib: Library): bool {
    var fa, fb := AsFloat(a, lib), AsFloat(b, lib);
    if fa.Some? && fb.Some? then fa == fb
    else lib.marshal(a).Some? && lib.marshal(a) == lib.marshal(b)
  }

  // ----- one condition -----

  const EVENT_REF := "{$event."
  const CONNECTION_REF := "{$connection."

  predicate IsFullExpression(s: string) {
    "{$" <= s && HasSuffix(s, "}") && Count(s, "{$") == 1
  }

  predicate ReferencesNewContext(expr: string) {
    Contains(expr, EVENT_REF) || Contains(expr, CONNECTION_REF)
  }

  /** Conditions whose string value is itself evaluated first. */
  predicate PreEvaluates(expr: string, condition: Value) {
    condition.Str? && IsFullExpression(condition.s) && ReferencesNewContext(expr)
  }

  datatype Verdict = Holds | Fails | Broken

  function Compare(value: Value, condition: Value, lib: Library): Verdict {
    match condition
    case Obj(schema) =>
      (match lib.validate(value, schema)
       case None => Broken
       case Some(valid) => if valid then Holds else Fails)
    case _ => if EqualJSON(value, condition, lib) then Holds else Fails
  }

  function Judge(expr: string, condition: Value, sources: Sources, lib: Library): Verdict {
    var resolved := if PreEvaluates(expr, condition) then Evaluate(condition.s, sources) else Ok(condition);
    var value := Evaluate(expr, sources);
    if resolved.Err? || value.Err? then Fails else Compare(value.value, resolved.value, lib)
  }

  // ----- the whole match -----

  ghost predicate Matched(pm: Match, sources: Sources, lib: Library) {
    forall expr :: expr in pm ==> Judge(expr, pm[expr], sources, lib) == Holds
  }

  /** In any visiting order: true without error exactly when every condition holds. */
  method EvaluateParamsMatch(pm: Match, sources: Sources, lib: Library) returns (ok: bool, broken: bool)
    ensures ok && !broken <==> Matched(pm, sources, lib)
    ensures broken ==> !ok && exists expr :: expr in pm && Judge(expr, pm[expr], sources, lib) == Broken
    ensures !ok && !broken ==> exists expr :: expr in pm && Judge(expr, pm[expr], sources, lib) == Fails
  {
    hide Evaluate, Compare;
    var todo := pm.Keys;
    while todo != {}
      invariant todo <= pm.Keys
      invariant forall expr :: expr in pm && expr !in todo ==> Judge(expr, pm[expr], sources, lib) == Holds
      decreases |todo|
    {
      var expr :| expr in todo;
      todo := todo - {expr};
      var condition := pm[expr];
      if condition.Str? && IsFullExpression(condition.s) && ReferencesNewContext(expr) {
        var resolved := Evaluate(condition.s, sources);
        if resolved.Err? {
          return false, false;
        }
        condition := resolved.value;
      }
      var value := Evaluate(expr, sources);
      if value.Err? {
        return false, false;
      }
      match Compare(value.value, condition, lib) {
        case Broken => return false, true;
        case Fails => return false, false;
        case Holds =>
      }
    }
    return true, false;
  }

  // ----- the two phases -----

  predicate ReferencesConnection(expr: string, condition: Value) {
    Contains(expr, CONNECTION_REF) || (condition.Str? && Contains(condition.s, CONNECTION_REF))
  }

  function CommonPart(pm: Match): Match {
    map expr | expr in pm && !ReferencesConnection(expr, pm[expr]) :: pm[expr]
  }

  function ConnectionPart(pm: Match): Match {
    map expr | expr in pm && ReferencesConnection(expr, pm[expr]) :: pm[expr]
  }

  method PartitionConnectionConditions(pm: Match) returns (common: Match, connection: Match)
    ensures common == CommonPart(pm) && connection == ConnectionPart(pm)
  {
    hide ReferencesConnection;
    common, connection := map[], map[];
    var todo := pm.Keys;
    while todo != {}
      invariant todo <= pm.Keys
      invariant common == map expr | expr in CommonPart(pm) && expr !in todo :: pm[expr]
      invariant connection == map expr | expr in ConnectionPart(pm) && expr !in todo :: pm[expr]
      decreases |todo|
    {
      var expr :| expr in todo;
      if ReferencesConnection(expr, pm[expr]) {
        connection := connection[expr := pm[expr]];
      } else {
        common := common[expr := pm[expr]];
      }
      todo := todo - {expr};
    }
  }

  /** The split is a partition: every condition goes to one part, with its own value. */
  lemma SplitIsPartition(pm: Match)
    ensures CommonPart(pm) + ConnectionPart(pm) == pm && CommonPart(pm).Keys !! ConnectionPart(pm).Keys
  {
    assert forall expr :: expr in pm ==> expr in CommonPart(pm) || expr in ConnectionPart(pm);
  }

  /** The expression asks the connection source. */
  predicate AsksConnection(expr: string) {
    Parse(expr).Ok? && Parse(expr).value.source == CONNECTION
  }

  /** A condition that asks the connection source without the text that would betray it. */
  predicate HidesConnection(expr: string, condition: Value) {
    && !ReferencesConnection(expr, condition)
    && (AsksConnection(expr) || (PreEvaluates(expr, condition) && AsksConnection(condition.s)))
  }

  ghost predicate Hides(pm: Match) {
    exists expr :: expr in pm && HidesConnection(expr, pm[expr])
  }

  /** Only a piped expression that opens with a space can hide its source. */
  lemma HidingNeedsALeadingSpace(expr: string, condition: Value)
    requires HidesConnection(expr, condition)
    ensures OpensWithSpace(expr) || (condition.Str? && OpensWithSpace(condition.s))
  {
    if AsksConnection(expr) {
      NotBetrayed(expr);
      ConnectionIsVisible(expr);
    } else {
      NotBetrayed(condition.s);
      ConnectionIsVisible(condition.s);
    }
  }

  predicate OpensWithSpace(expr: string) {
    '|' in expr && |expr| > 2 && IsSpace(expr[2])
  }

  lemma NotBetrayed(s: string)
    requires !Contains(s, CONNECTION_REF)
    ensures !(CONNECTION_REF <= s)
  {
    assert s[0..] == s;
    assert !OccursAt(CONNECTION_REF, s, 0);
  }

  /** Without the connection source a condition fails if it needs that source and is unaffected otherwise. */
  lemma JudgedWithout(expr: string, condition: Value, sources: Sources, source: DataSource, lib: Library)
    requires CONNECTION !in sources && !ReferencesConnection(expr, condition)
    ensures Judge(expr, condition, sources, lib) ==
              if HidesConnection(expr, condition) then Fails
              else Judge(expr, condition, sources[CONNECTION := source], lib)
  {
    hide Evaluate, Parse, Compare;
    OtherSourcesAreIrrelevant(expr, sources, CONNECTION, source);
    if condition.Str? {
      OtherSourcesAreIrrelevant(condition.s, sources, CONNECTION, source);
    }
  }

  /**
   * Checking the common part once without a connection and the rest per connection selects exactly the
   * connections that satisfy the unsplit match, except that a hidden connection reference selects nobody.
   */
  lemma TwoPhasesAreExact(pm: Match, sources: Sources, source: DataSource, lib: Library)
    requires CONNECTION !in sources
    ensures var full := sources[CONNECTION := source];
            (Matched(CommonPart(pm), sources, lib) && Matched(ConnectionPart(pm), full, lib))
            <==> !Hides(pm) && Matched(pm, full, lib)
  {
    hide Judge, ReferencesConnection, HidesConnection;
    var full := sources[CONNECTION := source];
    var common, connection := CommonPart(pm), ConnectionPart(pm);
    forall expr | expr in common
      ensures Judge(expr, common[expr], sources, lib) ==
                if HidesConnection(expr, pm[expr]) then Fails else Judge(expr, pm[expr], full, lib)
    {
      JudgedWithout(expr, pm[expr], sources, source, lib);
    }
    forall expr | expr in pm
      ensures if expr in common then common[expr] == pm[expr] && expr !in connection
              else expr in connection && connection[expr] == pm[expr] && !HidesConnection(expr, pm[expr])
    {
      HiddenIsCommon(expr, pm[expr]);
    }
    if Matched(common, sources, lib) && Matched(connection, full, lib) {
      assert forall expr :: expr in pm ==>
          !HidesConnection(expr, pm[expr]) && Judge(expr, pm[expr], full, lib) == Holds;
    }
  }

  lemma HiddenIsCommon(expr: string, condition: Value)
    ensures HidesConnection(expr, condition) ==> !ReferencesConnection(expr, condition)
  {
  }

  /** With the connection present in both phases, as for a targeted delivery, the split changes nothing. */
  lemma SplitIsExactWithConnection(pm: Match, full: Sources, lib: Library)
    ensures Matched(CommonPart(pm), full, lib) && Matched(ConnectionPart(pm), full, lib) <==> Matched(pm, full, lib)
  {
    hide Judge, ReferencesConnection;
    assert forall expr :: expr in pm ==> expr in CommonPart(pm) || expr in ConnectionPart(pm);
  }

  const HIDDEN := "{$" + (" connection.id" + "|" + "toJWT") + "}"
  const STUB := Str("[JWT stub]")

  /** A hidden reference: the unsplit match accepts every connection, the two phases reach none. */
  lemma HiddenConnectionIsLost(lib: Library, source: DataSource)
    requires lib.marshal(STUB).Some?
    ensures var pm := map[HIDDEN := STUB];
            && Hides(pm)
            && Matched(pm, map[CONNECTION := source], lib)
            && !Matched(CommonPart(pm), map[], lib)
  {
    var pm := map[HIDDEN := STUB];
    var none: Sources := map[];
    HiddenParses();
    HiddenIsNotBetrayed();
    HiddenEvaluates(source);
    hide Parse, Evaluate, Contains, IsFullExpression;
    assert !ReferencesConnection(HIDDEN, STUB) && !PreEvaluates(HIDDEN, STUB);
    assert HidesConnection(HIDDEN, pm[HIDDEN]);
    assert EqualJSON(STUB, STUB, lib);
    assert HIDDEN in CommonPart(pm) && CommonPart(pm)[HIDDEN] == STUB;
    assert Judge(HIDDEN, STUB, none, lib) == Fails;
  }

  lemma HiddenEvaluates(source: DataSource)
    ensures Evaluate(HIDDEN, map[CONNECTION := source]) == Ok(STUB)
    ensures Evaluate(HIDDEN, map[]) == Err(UnknownSource(CONNECTION))
  {
    HiddenParses();
    StubModifier(Null);
    StubModifier(source("id").GetOr(Null));
    hide Parse, ApplyModifier;
    assert "toJWT" != "" && "toJWT"[0] != "default:"[0];
  }

  lemma StubModifier(v: Value)
    ensures ApplyModifier(v, "toJWT") == Ok(STUB)
  {
    FindFirst("toJWT", ':', 5);
  }

  lemma HiddenParses()
    ensures Parse(HIDDEN) == Ok(Reference(CONNECTION, "id", "toJWT"))
  {
    hide Parse, TrimSpace;
    var inner := "connection.id";
    assert " " + inner == " connection.id";
    TrimOneSpace(inner);
    TrimNothing("toJWT");
    assert CONNECTION + [DOT] + "id" == inner;
    ParsePiped(" connection.id", "toJWT", CONNECTION, "id");
  }

  lemma TrimOneSpace(s: string)
    requires s != [] && !IsSpace(s[0]) && !IsSpace(s[|s| - 1])
    ensures TrimSpace(" " + s) == s
  {
    assert (" " + s)[1..] == s;
    assert TrimLeft(" " + s) == TrimLeft(s) == s;
  }

  lemma TrimNothing(s: string)
    requires s != [] && !IsSpace(s[0]) && !IsSpace(s[|s| - 1])
    ensures TrimSpace(s) == s
  {
  }

  lemma HiddenIsNotBetrayed()
    ensures !Contains(HIDDEN, CONNECTION_REF) && !Contains(STUB.s, CONNECTION_REF)
    ensures !Contains(HIDDEN, EVENT_REF)
  {
    var rest := "connection.id" + "|" + "toJWT" + "}";
    assert HIDDEN == "{$ " + rest;
    SpacedOpening(rest, CONNECTION_REF);
    SpacedOpening(rest, EVENT_REF);
    NoOpening(STUB.s, CONNECTION_REF);
  }

  lemma NoOpening(s: string, t: string)
    requires |t| > 2 && t[0] == '{' && '{' !in s
    ensures !Contains(s, t)
  {
    forall i: nat
      ensures !OccursAt(t, s, i)
    {
      if i < |s| {
        assert s[i..][0] == s[i];
      }
    }
  }

  lemma SpacedOpening(rest: string, t: string)
    requires |t| > 2 && t[0] == '{' && t[2] != ' ' && '{' !in rest
    ensures !Contains("{$ " + rest, t)
  {
    var s := "{$ " + rest;
    forall i: nat
      ensures !OccursAt(t, s, i)
    {
      if i + 2 < |s| {
        assert s[i..][0] == s[i] && s[i..][2] == s[i + 2];
      }
    }
  }

  // ----- conditions as they are written -----

  /** `v` is the number `x`, or a text that is parsed as `x`. */
  ghost predicate ReadsAs(v: Value, x: real, lib: Library) {
    || (exists s :: v == Str(s) && lib.parseFloat(s) == Some(x))
    || (exists kind :: v == Number(kind, x) && kind in {Float64, Float32, Int, Int64})
  }

  /** Equal as numbers if both read as numbers, otherwise equal as JSON texts. */
  ghost predicate SameJson(a: Value, b: Value, lib: Library) {
    if exists x, y :: ReadsAs(a, x, lib) && ReadsAs(b, y, lib) then exists x :: ReadsAs(a, x, lib) && ReadsAs(b, x, lib)
    else exists text :: lib.marshal(a) == Some(text) && lib.marshal(b) == Some(text)
  }

  lemma AsFloatMeans(v: Value, lib: Library)
    ensures forall x :: ReadsAs(v, x, lib) <==> AsFloat(v, lib) == Some(x)
  {
  }

  lemma EqualMeans(a: Value, b: Value, lib: Library)
    ensures EqualJSON(a, b, lib) <==> SameJson(a, b, lib)
  {
    AsFloatMeans(a, lib);
    AsFloatMeans(b, lib);
    hide ReadsAs, AsFloat;
    if AsFloat(a, lib).Some? && AsFloat(b, lib).Some? {
      assert ReadsAs(a, AsFloat(a, lib).value, lib) && ReadsAs(b, AsFloat(b, lib).value, lib);
    }
  }

  lemma SchemaCondition(expr: string, schema: map<string, Value>, sources: Sources, lib: Library, value: Value)
    requires Evaluate(expr, sources) == Ok(value)
    ensures Judge(expr, Obj(schema), sources, lib) == Holds <==> lib.validate(value, schema) == Some(true)
    ensures Judge(expr, Obj(schema), sources, lib) == Broken <==> lib.validate(value, schema) == None
  {
  }

  /** A single expression: nothing around it, and no further opening in it. */
  ghost predicate OneExpression(s: string) {
    exists body :: s == "{$" + body + "}" && !Contains(body + "}", "{$")
  }

  lemma OneExpressionIsFull(s: string)
    ensures OneExpression(s) <==> IsFullExpression(s)
  {
    FullByTail(s);
    hide Contains, IsFullExpression, Count, OneExpression;
    OneByTail(s);
  }

  lemma FullByTail(s: string)
    ensures IsFullExpression(s) <==> "{$" <= s && HasSuffix(s, "}") && !Contains(s[2..], "{$")
  {
    if "{$" <= s {
      CountsMore(s[2..], "{$");
      assert s[0..] == s && OccursAt("{$", s, 0) && Index(s, "{$") == 0;
    }
  }

  lemma OneByTail(s: string)
    ensures OneExpression(s) <==> "{$" <= s && HasSuffix(s, "}") && !Contains(s[2..], "{$")
  {
    hide Contains;
    if "{$" <= s && HasSuffix(s, "}") {
      assert s[1] == '$' && s[|s| - 1] == '}';
      var body := s[2..|s| - 1];
      assert s == "{$" + body + "}" && s[2..] == body + "}";
    }
    forall body | s == "{$" + body + "}"
      ensures "{$" <= s && HasSuffix(s, "}") && s[2..] == body + "}"
    {
    }
  }

  lemma CountsMore(s: string, t: string)
    requires t != []
    ensures Count(s, t) == 0 <==> !Contains(s, t)
  {
  }

  /** A key about the event or the connection, wherever the reference stands. */
  ghost predicate AboutContext(key: string) {
    exists before, after :: key == before + "{$event." + after || key == before + "{$connection." + after
  }

  lemma ContextIsNew(key: string)
    ensures AboutContext(key) <==> ReferencesNewContext(key)
  {
    hide Contains;
    ContainsMeans(key, "{$event.");
    ContainsMeans(key, "{$connection.");
  }

  /** A condition compared as it is written: anything but a single expression under a key about the context. */
  lemma LiteralCondition(expr: string, literal: Value, sources: Sources, lib: Library, value: Value)
    requires Evaluate(expr, sources) == Ok(value) && !literal.Obj?
    requires literal.Str? ==> !OneExpression(literal.s) || !AboutContext(expr)
    ensures Judge(expr, literal, sources, lib) == if SameJson(value, literal, lib) then Holds else Fails
  {
    hide Evaluate, OneExpression, AboutContext, IsFullExpression, ReferencesNewContext, SameJson;
    if literal.Str? {
      OneExpressionIsFull(literal.s);
      ContextIsNew(expr);
    }
    EqualMeans(value, literal, lib);
  }

  /** A single expression under such a key is compared by its value. */
  lemma ReferenceCondition(expr: string, text: string, sources: Sources, lib: Library, value: Value, expected: Value)
    requires Evaluate(expr, sources) == Ok(value) && AboutContext(expr) && OneExpression(text)
    ensures Evaluate(text, sources).Err? ==> Judge(expr, Str(text), sources, lib) == Fails
    ensures Evaluate(text, sources) == Ok(expected) && !expected.Obj? ==>
              Judge(expr, Str(text), sources, lib) == if SameJson(value, expected, lib) then Holds else Fails
  {
    hide Evaluate, OneExpression, AboutContext, IsFullExpression, ReferencesNewContext, SameJson;
    OneExpressionIsFull(text);
    ContextIsNew(expr);
    EqualMeans(value, expected, lib);
  }

  /** What a match with one condition answers. */
  method EvaluateCondition(expr: string, condition: Value, sources: Sources, lib: Library)
    returns (ok: bool, broken: bool)
    ensures Evaluate(expr, sources).Err? ==> !ok && !broken
    ensures Evaluate(expr, sources).Ok? && condition.Obj? ==>
              var answer := lib.validate(Evaluate(expr, sources).value, condition.fields);
              (ok <==> answer == Some(true)) && (broken <==> answer == None)
    ensures Evaluate(expr, sources).Ok? && !condition.Obj?
            && (condition.Str? ==> !OneExpression(condition.s) || !AboutContext(expr)) ==>
              !broken && (ok <==> SameJson(Evaluate(expr, sources).value, condition, lib))
    ensures Evaluate(expr, sources).Ok? && condition.Str? && OneExpression(condition.s) && AboutContext(expr) ==>
              match Evaluate(condition.s, sources)
              case Err(_) => !ok && !broken
              case Ok(expected) =>
                !expected.Obj? ==> !broken && (ok <==> SameJson(Evaluate(expr, sources).value, expected, lib))
  {
    var pm := map[expr := condition];
    ok, broken := EvaluateParamsMatch(pm, sources, lib);
    assert expr in pm && pm[expr] == condition;
    hide Evaluate, Compare, SameJson, OneExpression, AboutContext, IsFullExpression, ReferencesNewContext;
    assert ok && !broken <==> Judge(expr, condition, sources, lib) == Holds;
    assert broken ==> Judge(expr, condition, sources, lib) == Broken;
    assert !ok && !broken ==> Judge(expr, condition, sources, lib) == Fails;
    hide Judge;
    ConditionForms(expr, condition, sources, lib);
  }

  lemma ConditionForms(expr: string, condition: Value, sources: Sources, lib: Library)
    ensures var verdict, value := Judge(expr, condition, sources, lib), Evaluate(expr, sources);
            if value.Err? then verdict == Fails
            else if condition.Obj? then
              var answer := lib.validate(value.value, condition.fields);
              (verdict == Holds <==> answer == Some(true)) && (verdict == Broken <==> answer == None)
            else if condition.Str? && OneExpression(condition.s) && AboutContext(expr) then
              match Evaluate(condition.s, sources)
              case Err(_) => verdict == Fails
              case Ok(expected) =>
                !expected.Obj? ==> verdict == if SameJson(value.value, expected, lib) then Holds else Fails
            else verdict == if SameJson(value.value, condition, lib) then Holds else Fails
  {
    hide Evaluate, SameJson, OneExpression, AboutContext, IsFullExpression, ReferencesNewContext;
    var value := Evaluate(expr, sources);
    if value.Ok? {
      if condition.Obj? {
        SchemaCondition(expr, condition.fields, sources, lib, value.value);
      } else if condition.Str? && OneExpression(condition.s) && AboutContext(expr) {
        var expected := match Evaluate(condition.s, sources) case Ok(v) => v case Err(_) => Null;
        ReferenceCondition(expr, condition.s, sources, lib, value.value, expected);
      } else {
        LiteralCondition(expr, condition, sources, lib, value.value);
      }
    }
  }

  /** A condition belongs to the connection part when its key or its text value holds the reference, literally. */
  lemma PartsByText(pm: Match, expr: string)
    requires expr in pm
    ensures expr in ConnectionPart(pm) <==>
              || (exists before, after :: expr == before + "{$connection." + after)
              || (pm[expr].Str? && exists before, after :: pm[expr].s == before + "{$connection." + after)
    ensures expr in CommonPart(pm) <==> expr !in ConnectionPart(pm)
  {
    hide Contains;
    ContainsMeans(expr, "{$connection.");
    if pm[expr].Str? {
      ContainsMeans(pm[expr].s, "{$connection.");
    }
  }
}
