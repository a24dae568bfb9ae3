/** Runtime expressions such as {$state.user.name|default:x} (internal/runtime/expression.go). */
module Expressions {
  import opened Json
  import opened Strings

  // ----- dotted paths -----

  const DOT := '.'
  const BACKSLASH := '\\'

  /** Puts `s` in front of the first cell. */
  function Onto(s: string, cells: seq<string>): (r: seq<string>)
    requires cells != []
    ensures |r| == |cells| && r[0] == s + cells[0] && r[1..] == cells[1..]
    ensures s == [] ==> r == cells
  {
    assert s == [] ==> s + cells[0] == cells[0];
    [s + cells[0]] + cells[1..]
  }

  lemma OntoOnto(s: string, t: string, cells: seq<string>)
    requires cells != []
    ensures Onto(s, Onto(t, cells)) == Onto(s + t, cells)
  {
    assert s + (t + cells[0]) == s + t + cells[0];
  }

  /** Cells of a path: every unescaped dot ends one, the last may be empty. */
  function Cells(path: string): (cells: seq<string>)
    ensures cells != []
  {
    if path == [] then [[]]
    else if path[0] == BACKSLASH && |path| > 1 && path[1] == DOT then Onto([DOT], Cells(path[2..]))
    else if path[0] == DOT then [[]] + Cells(path[1..])
    else Onto([path[0]], Cells(path[1..]))
  }

  function SplitPath(path: string): seq<string> {
    var cells := Cells(path);
    if cells[|cells| - 1] == [] then cells[..|cells| - 1] else cells
  }

  /** Cells still to come at position `i`; after a consumed backslash the dot there is literal. */
  function Pending(path: string, i: nat, escape: bool): (cells: seq<string>)
    requires i <= |path| && (escape ==> i < |path|)
    ensures cells != []
  {
    if escape then Onto([path[i]], Cells(path[i + 1..])) else Cells(path[i..])
  }

  lemma PendingStep(path: string, i: nat)
    requires i < |path|
    ensures var ch, rest := path[i], Pending(path, i + 1, false);
            Pending(path, i, false) ==
              if ch == BACKSLASH && i + 1 < |path| && path[i + 1] == DOT then Pending(path, i + 1, true)
              else if ch == DOT then [[]] + rest
              else Onto([ch], rest)
  {
    assert path[i..][1..] == path[i + 1..];
    if i + 1 < |path| {
      assert path[i..][2..] == path[i + 2..];
    }
  }

  lemma PendingEscaped(path: string, i: nat)
    requires i < |path|
    ensures Pending(path, i, true) == Onto([path[i]], Pending(path, i + 1, false))
  {
  }

  lemma EndOfCell(parts: seq<string>, current: string, rest: seq<string>)
    requires rest != []
    ensures parts + Onto(current, [[]] + rest) == parts + [current] + Onto([], rest)
  {
    assert current + [] == current;
    assert Onto(current, [[]] + rest) == [current] + rest;
  }

  lemma FirstCells(path: string)
    ensures Cells(path) == [] + Onto([], Pending(path, 0, false))
  {
    assert path[0..] == path;
  }

  lemma LastCell(path: string, current: string)
    ensures Onto(current, Pending(path, |path|, false)) == [current]
  {
    assert path[|path|..] == [] && current + [] == current;
  }

  method SplitEscapedPath(path: string) returns (parts: seq<string>)
    ensures parts == SplitPath(path)
  {
    parts := [];
    var current := "";
    var escape := false;
    hide Cells, Onto, Pending;
    FirstCells(path);
    for i := 0 to |path|
      invariant escape ==> i < |path| && path[i] == DOT
      invariant Cells(path) == parts + Onto(current, Pending(path, i, escape))
    {
      PendingStep(path, i);
      var ch := path[i];
      if escape {
        PendingEscaped(path, i);
        OntoOnto(current, [ch], Pending(path, i + 1, false));
        current := current + [ch];
        escape := false;
        continue;
      }
      if ch == BACKSLASH {
        if i + 1 < |path| && path[i + 1] == DOT {
          escape := true;
          continue;
        }
        OntoOnto(current, [ch], Pending(path, i + 1, false));
        current := current + [ch];
      } else if ch == DOT {
        EndOfCell(parts, current, Pending(path, i + 1, false));
        parts := parts + [current];
        current := "";
      } else {
        OntoOnto(current, [ch], Pending(path, i + 1, false));
        current := current + [ch];
      }
    }
    LastCell(path, current);
    if |current| > 0 {
      parts := parts + [current];
    }
  }

  /** Writes a part so that none of its dots separates. */
  function Escape(part: string): string {
    if part == [] then []
    else (if part[0] == DOT then [BACKSLASH, DOT] else [part[0]]) + Escape(part[1..])
  }

  function JoinEscaped(parts: seq<string>): string {
    if parts == [] then []
    else if |parts| == 1 then Escape(parts[0])
    else Escape(parts[0]) + [DOT] + JoinEscaped(parts[1..])
  }

  predicate EndsInBackslash(part: string) {
    part != [] && part[|part| - 1] == BACKSLASH
  }

  /** The part lists that survive escaping, joining and splitting. */
  predicate Splittable(parts: seq<string>) {
    && (parts != [] ==> parts[|parts| - 1] != [])
    && NoneSwallows(parts)
  }

  lemma CellsOfLiteral(c: char, tail: string)
    requires c != DOT && (c == BACKSLASH ==> tail == [] || tail[0] != DOT)
    ensures Cells([c] + tail) == Onto([c], Cells(tail))
  {
    assert ([c] + tail)[1..] == tail;
  }

  lemma CellsOfEscapedDot(tail: string)
    ensures Cells([BACKSLASH, DOT] + tail) == Onto([DOT], Cells(tail))
  {
    assert ([BACKSLASH, DOT] + tail)[2..] == tail;
  }

  lemma CellsOfSeparator(tail: string)
    ensures Cells([DOT] + tail) == [[]] + Cells(tail)
  {
    assert ([DOT] + tail)[1..] == tail;
  }

  lemma {:induction false} CellsAfterPart(part: string, rest: string)
    requires EndsInBackslash(part) ==> rest == [] || rest[0] != DOT
    ensures Cells(Escape(part) + rest) == Onto(part, Cells(rest))
  {
    hide Cells;
    if part == [] {
      assert Escape(part) + rest == rest;
    } else {
      var tail := Escape(part[1..]) + rest;
      CellsAfterPart(part[1..], rest);
      OntoOnto([part[0]], part[1..], Cells(rest));
      assert [part[0]] + part[1..] == part;
      if part[0] == DOT {
        CellsOfEscapedDot(tail);
        assert Escape(part) + rest == [BACKSLASH, DOT] + tail;
      } else {
        assert |part| == 1 ==> tail == rest;
        assert |part| > 1 ==> tail[0] != DOT;
        CellsOfLiteral(part[0], tail);
        assert Escape(part) + rest == [part[0]] + tail;
      }
    }
  }

  /** A trailing backslash swallows the separator behind it. */
  lemma {:induction false} SwallowedSeparator(part: string, rest: string)
    requires EndsInBackslash(part)
    ensures |Cells(Escape(part) + [DOT] + rest)| == |Cells(rest)|
  {
    var front := part[..|part| - 1];
    EscapeSnoc(front, BACKSLASH);
    assert part == front + [BACKSLASH];
    var after := [BACKSLASH, DOT] + rest;
    CellsOfEscapedDot(rest);
    assert Escape(part) + [DOT] + rest == Escape(front) + after;
    CellsAfterPart(front, after);
  }

  lemma {:induction false} EscapeSnoc(front: string, c: char)
    requires c != DOT
    ensures Escape(front + [c]) == Escape(front) + [c]
  {
    if front == [] {
      assert front + [c] == [c];
    } else {
      EscapeSnoc(front[1..], c);
      assert (front + [c])[1..] == front[1..] + [c];
    }
  }

  lemma {:induction false} CellsOfJoin(parts: seq<string>)
    requires parts != []
    ensures var cells := Cells(JoinEscaped(parts));
            && |cells| <= |parts|
            && (|cells| == |parts| <==> NoneSwallows(parts))
            && (|cells| == |parts| ==> cells == parts)
  {
    if |parts| == 1 {
      CellsAfterPart(parts[0], []);
      assert Escape(parts[0]) + [] == Escape(parts[0]) && parts[0] + [] == parts[0];
    } else {
      CellsOfJoin(parts[1..]);
      assert NoneSwallows(parts) <==> !EndsInBackslash(parts[0]) && NoneSwallows(parts[1..]) by {
        assert forall i :: 1 <= i < |parts| - 1 ==> parts[i] == parts[1..][i - 1];
        assert forall i :: 0 <= i < |parts[1..]| - 1 ==> parts[1..][i] == parts[i + 1];
      }
      if EndsInBackslash(parts[0]) {
        SwallowedSeparator(parts[0], JoinEscaped(parts[1..]));
      } else {
        SeparatedPart(parts[0], JoinEscaped(parts[1..]));
        assert parts == [parts[0]] + parts[1..];
      }
    }
  }

  predicate NoneSwallows(parts: seq<string>) {
    forall i :: 0 <= i < |parts| - 1 ==> !EndsInBackslash(parts[i])
  }

  lemma SeparatedPart(part: string, rest: string)
    requires !EndsInBackslash(part)
    ensures Cells(Escape(part) + [DOT] + rest) == [part] + Cells(rest)
  {
    CellsAfterPart(part, [DOT] + rest);
    assert Escape(part) + ([DOT] + rest) == Escape(part) + [DOT] + rest;
    CellsOfSeparator(rest);
    assert part + [] == part;
  }

  /** Splitting undoes escaping and joining for the splittable lists and for no others. */
  lemma SplitUndoesJoin(parts: seq<string>)
    ensures SplitPath(JoinEscaped(parts)) == parts <==> Splittable(parts)
  {
    if parts != [] {
      CellsOfJoin(parts);
    }
  }

  // ----- nested lookup -----

  function Nested(obj: Value, parts: seq<string>): Option<Value> {
    if parts == [] then Some(obj)
    else if obj.Obj? && parts[0] in obj.fields then Nested(obj.fields[parts[0]], parts[1..])
    else None
  }

  method GetNested(obj: Value, parts: seq<string>) returns (found: Option<Value>)
    ensures found == Nested(obj, parts)
  {
    var current := obj;
    for i := 0 to |parts|
      invariant Nested(obj, parts) == Nested(current, parts[i..])
    {
      assert parts[i..][1..] == parts[i + 1..];
      match current
      case Obj(fields) =>
        if parts[i] !in fields {
          return None;
        }
        current := fields[parts[i]];
      case _ =>
        return None;
    }
    return Some(current);
  }

  // ----- data sources -----

  type DataSource = string -> Option<Value>

  function StateGet(data: map<string, Value>, path: string): Option<Value> {
    var parts := SplitPath(path);
    if parts == [] || parts[0] !in data then None
    else if |parts| == 1 then Some(data[parts[0]])
    else Nested(data[parts[0]], parts[1..])
  }

  function StateSource(data: map<string, Value>): DataSource {
    path => StateGet(data, path)
  }

  datatype ConnectionContext = ConnectionContext(
    id: string, channel: string, path: string,
    query: map<string, seq<string>>, headers: map<string, seq<string>>)

  function NonEmptyText(s: string): Option<Value> {
    if s == "" then None else Some(Str(s))
  }

  function MultiValue(m: map<string, seq<string>>, keys: seq<string>): Option<Value> {
    if |keys| != 1 || keys[0] !in m || m[keys[0]] == [] then None
    else
      var vals := m[keys[0]];
      if |vals| == 1 then Some(Str(vals[0]))
      else Some(Arr(seq(|vals|, i requires 0 <= i < |vals| => Str(vals[i]))))
  }

  function ConnectionGet(c: ConnectionContext, path: string): Option<Value> {
    var parts := SplitPath(path);
    if parts == [] then None
    else if parts[0] == "id" then NonEmptyText(c.id)
    else if parts[0] == "channel" then NonEmptyText(c.channel)
    else if parts[0] == "path" then NonEmptyText(c.path)
    else if parts[0] == "query" then MultiValue(c.query, parts[1..])
    else if parts[0] == "header" then MultiValue(c.headers, parts[1..])
    else None
  }

  function ConnectionSource(c: ConnectionContext): DataSource {
    path => ConnectionGet(c, path)
  }

  // ----- evaluation -----

  const CONNECTION := "connection"
  const STATE := "state"

  type Sources = map<string, DataSource>

  datatype EvalError =
    | BadFormat | BadSyntax | UnknownSource(name: string)
    | EmptyPath | PathNotFound(path: string) | UnknownModifier(name: string)

  /** Position of the first `c`, or the length when there is none. */
  function Find(s: string, c: char): (i: nat)
    ensures i <= |s| && c !in s[..i] && (i < |s| ==> s[i] == c)
  {
    if s == [] || s[0] == c then 0
    else
      var i := 1 + Find(s[1..], c);
      assert s[..i] == [s[0]] + s[1..][..i - 1];
      i
  }

  predicate IsSpace(c: char) {
    c == ' ' || '\t' <= c <= '\r'
  }

  function TrimLeft(s: string): string {
    if s != [] && IsSpace(s[0]) then TrimLeft(s[1..]) else s
  }

  function TrimRight(s: string): (t: string)
    ensures t <= s
  {
    if s != [] && IsSpace(s[|s| - 1]) then TrimRight(s[..|s| - 1]) else s
  }

  function TrimSpace(s: string): string { TrimRight(TrimLeft(s)) }

  datatype Reference = Reference(source: string, path: string, modifier: string)

  /** "{$source.path|modifier}" taken apart. */
  function Parse(expr: string): Result<Reference, EvalError> {
    if !("{$" <= expr) || !HasSuffix(expr, "}") then Err(BadFormat)
    else
      assert expr[1] == '$' && expr[|expr| - 1] == '}';
      var body := expr[2..|expr| - 1];
      var bar := Find(body, '|');
      var modifier := if bar < |body| then TrimSpace(body[bar + 1..]) else "";
      var inner := if bar < |body| then TrimSpace(body[..bar]) else body;
      var dot := Find(inner, DOT);
      if dot == |inner| then Err(BadSyntax)
      else Ok(Reference(inner[..dot], inner[dot + 1..], modifier))
  }

  function Evaluate(expr: string, sources: Sources): Result<Value, EvalError> {
    match Parse(expr)
    case Err(e) => Err(e)
    case Ok(ref) =>
      if ref.source !in sources then Err(UnknownSource(ref.source))
      else match sources[ref.source](ref.path)
        case None =>
          if "default:" <= ref.modifier then Ok(Str(ref.modifier[|"default:"|..]))
          else if ref.modifier != "" then ApplyModifier(Null, ref.modifier)
          else Ok(Null)
        case Some(v) =>
          if ref.modifier != "" then ApplyModifier(v, ref.modifier) else Ok(v)
  }

  function ApplyModifier(v: Value, modifier: string): Result<Value, EvalError> {
    var colon := Find(modifier, ':');
    if colon < |modifier| then
      var name, arg := modifier[..colon], modifier[colon + 1..];
      if name == "default" then Ok(v)
      else if name == "getByPath" then
        var parts := SplitPath(arg);
        if parts == [] then Err(EmptyPath)
        else match Nested(v, parts)
          case None => Err(PathNotFound(arg))
          case Some(r) => Ok(r)
      else Err(UnknownModifier(name))
    else if modifier == "toJWT" then Ok(Str("[JWT stub]"))
    else Err(UnknownModifier(modifier))
  }

  /** Evaluation consults one source only. */
  lemma OtherSourcesAreIrrelevant(expr: string, sources: Sources, name: string, source: DataSource)
    requires name !in sources
    ensures Parse(expr).Ok? && Parse(expr).value.source == name ==> Evaluate(expr, sources) == Err(UnknownSource(name))
    ensures !(Parse(expr).Ok? && Parse(expr).value.source == name) ==>
              Evaluate(expr, sources) == Evaluate(expr, sources[name := source])
  {
  }

  lemma TrimKeepsHead(s: string)
    requires s == [] || !IsSpace(s[0])
    ensures TrimSpace(s) <= s
  {
  }

  /** The text "{$connection." betrays every connection reference, unless a piped expression opens with a space. */
  lemma ConnectionIsVisible(expr: string)
    requires Parse(expr).Ok? && Parse(expr).value.source == CONNECTION
    ensures "{$connection." <= expr || ('|' in expr && |expr| > 2 && IsSpace(expr[2]))
  {
    assert expr[1] == '$' && expr[|expr| - 1] == '}';
    var body := expr[2..|expr| - 1];
    var bar := Find(body, '|');
    var inner := if bar < |body| then TrimSpace(body[..bar]) else body;
    assert inner[..|CONNECTION|] == CONNECTION && inner[|CONNECTION|] == DOT;
    if bar < |body| {
      assert expr[bar + 2] == '|';
      if bar > 0 && IsSpace(body[0]) {
        assert IsSpace(expr[2]);
      } else {
        TrimKeepsHead(body[..bar]);
        SeenAtFront(expr, inner);
      }
    } else {
      SeenAtFront(expr, inner);
    }
  }

  lemma SeenAtFront(expr: string, inner: string)
    requires "{$" <= expr && inner <= expr[2..]
    requires |inner| > |CONNECTION| && inner[..|CONNECTION|] == CONNECTION && inner[|CONNECTION|] == DOT
    ensures "{$connection." <= expr
  {
    assert forall i :: 0 <= i < |inner| ==> expr[i + 2] == inner[i];
    assert forall i :: 0 <= i < |CONNECTION| ==> inner[i] == CONNECTION[i];
  }

  lemma {:induction false} FindFirst(s: string, c: char, k: nat)
    requires k <= |s| && (forall i :: 0 <= i < k ==> s[i] != c) && (k < |s| ==> s[k] == c)
    ensures Find(s, c) == k
  {
    if k > 0 {
      FindFirst(s[1..], c, k - 1);
    }
  }

  lemma ParseSimple(source: string, path: string)
    requires DOT !in source && '|' !in source && '|' !in path
    ensures Parse("{$" + source + [DOT] + path + "}") == Ok(Reference(source, path, ""))
  {
    var expr := "{$" + source + [DOT] + path + "}";
    var body := source + [DOT] + path;
    assert expr[2..|expr| - 1] == body;
    FindFirst(body, '|', |body|);
    FindFirst(body, DOT, |source|);
    assert body[..|source|] == source && body[|source| + 1..] == path;
  }

  lemma ParsePiped(before: string, after: string, source: string, path: string)
    requires '|' !in before && TrimSpace(before) == source + [DOT] + path && DOT !in source
    ensures Parse("{$" + (before + "|" + after) + "}") == Ok(Reference(source, path, TrimSpace(after)))
  {
    hide TrimSpace, Find;
    var body := before + "|" + after;
    var expr := "{$" + body + "}";
    assert expr[2..|expr| - 1] == body;
    FindFirst(body, '|', |before|);
    assert body[..|before|] == before && body[|before| + 1..] == after;
    var inner := source + [DOT] + path;
    FindFirst(inner, DOT, |source|);
    assert inner[..|source|] == source && inner[|source| + 1..] == path;
  }

  lemma PlainEvaluate(expr: string, sources: Sources)
    requires Parse(expr).Ok? && Parse(expr).value.modifier == ""
    requires Parse(expr).value.source in sources
    ensures var found := sources[Parse(expr).value.source](Parse(expr).value.path);
            Evaluate(expr, sources) == Ok(if found.Some? then found.value else Null)
  {
  }

  /** Any value of the state, however deep and whatever dots its keys hold, is reached by its escaped path. */
  lemma EscapedPathReaches(data: map<string, Value>, parts: seq<string>, sources: Sources)
    requires parts != [] && Splittable(parts) && '|' !in JoinEscaped(parts)
    requires STATE in sources && sources[STATE] == StateSource(data)
    ensures var found := Nested(Obj(data), parts);
            Evaluate("{$" + STATE + [DOT] + JoinEscaped(parts) + "}", sources)
            == Ok(if found.Some? then found.value else Null)
  {
    var path := JoinEscaped(parts);
    ParseSimple(STATE, path);
    PlainEvaluate("{$" + STATE + [DOT] + path + "}", sources);
    SplitUndoesJoin(parts);
    StateGetIsNested(data, path);
  }

  lemma StateGetIsNested(data: map<string, Value>, path: string)
    requires SplitPath(path) != []
    ensures StateGet(data, path) == Nested(Obj(data), SplitPath(path))
  {
    var parts := SplitPath(path);
    if parts[0] in data {
      assert Nested(Obj(data), parts) == Nested(data[parts[0]], parts[1..]);
    }
  }
}
