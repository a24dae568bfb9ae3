/** What expressions answer, form by form, as they are written (internal/runtime/expression.go). */
module ExpressionForms {
  import opened Json
  import opened Strings
  import opened Expressions

  // ----- white space -----

  const BLANKS := " \t\n\U{0B}\U{0C}\r"

  predicate Blank(s: string) {
    forall c :: c in s ==> c in BLANKS
  }

  predicate Bare(s: string) {
    s != [] ==> s[0] !in BLANKS && s[|s| - 1] !in BLANKS
  }

  lemma SpaceIsBlank(c: char)
    ensures IsSpace(c) <==> c in BLANKS
  {
    assert BLANKS == [' ', '\t', '\n', '\U{0B}', '\U{0C}', '\r'];
  }

  lemma {:induction false} TrimLeftOf(blank: string, rest: string)
    requires Blank(blank) && (rest == [] || rest[0] !in BLANKS)
    ensures TrimLeft(blank + rest) == rest
  {
    if blank == [] {
      assert blank + rest == rest;
      if rest != [] {
        SpaceIsBlank(rest[0]);
      }
    } else {
      SpaceIsBlank(blank[0]);
      assert blank[0] in blank && (blank + rest)[1..] == blank[1..] + rest;
      TrimLeftOf(blank[1..], rest);
    }
  }

  lemma {:induction false} TrimRightOf(rest: string, blank: string)
    requires Blank(blank) && (rest == [] || rest[|rest| - 1] !in BLANKS)
    ensures TrimRight(rest + blank) == rest
  {
    if blank == [] {
      assert rest + blank == rest;
      if rest != [] {
        SpaceIsBlank(rest[|rest| - 1]);
      }
    } else {
      var n := |blank| - 1;
      SpaceIsBlank(blank[n]);
      assert blank[n] in blank && (rest + blank)[..|rest| + n] == rest + blank[..n];
      TrimRightOf(rest, blank[..n]);
    }
  }

  /** Trimming removes the blanks around a text and nothing else. */
  lemma TrimmedIsCore(before: string, core: string, after: string)
    requires Blank(before) && Blank(after) && Bare(core)
    ensures TrimSpace(before + core + after) == core
  {
    if core == [] {
      assert before + core + after == (before + after) + [];
      TrimLeftOf(before + after, []);
      TrimRightOf([], []);
    } else {
      assert before + core + after == before + (core + after);
      TrimLeftOf(before, core + after);
      TrimRightOf(core, after);
    }
  }

  // ----- forms -----

  /** No modifier: the value, null when the path is absent, an error when nobody provides the source. */
  lemma PlainForm(source: string, path: string, sources: Sources)
    requires '.' !in source && '|' !in source && '|' !in path
    ensures Evaluate("{$" + source + "." + path + "}", sources) ==
              if source !in sources then Err(UnknownSource(source))
              else match sources[source](path)
                case Some(v) => Ok(v)
                case None => Ok(Null)
  {
    assert [DOT] == ".";
    ParseSimple(source, path);
    hide Parse;
  }

  function Piped(source: string, path: string, modifier: string): string {
    "{$" + (source + "." + path + "|" + modifier) + "}"
  }

  /** Blanks around the reference and around the modifier do not matter. */
  lemma PaddedParses(a: string, source: string, path: string, b: string, c: string, modifier: string, d: string)
    requires '.' !in source && '|' !in source && '|' !in path && Bare(source + "." + path) && Bare(modifier)
    requires Blank(a) && Blank(b) && Blank(c) && Blank(d)
    ensures Parse("{$" + (a + (source + "." + path) + b + "|" + (c + modifier + d)) + "}")
            == Ok(Reference(source, path, modifier))
  {
    hide TrimSpace, Parse, Bare;
    var inner := source + "." + path;
    assert "." == [DOT];
    TrimmedIsCore(a, inner, b);
    TrimmedIsCore(c, modifier, d);
    ParsePiped(a + inner + b, c + modifier + d, source, path);
  }

  lemma PipedParses(source: string, path: string, modifier: string)
    requires '.' !in source && '|' !in source && '|' !in path && Bare(source + "." + path) && Bare(modifier)
    ensures Parse(Piped(source, path, modifier)) == Ok(Reference(source, path, modifier))
  {
    hide Parse, Bare;
    var inner := source + "." + path;
    PaddedParses([], source, path, [], [], modifier, []);
    assert [] + inner + [] == inner && [] + modifier + [] == modifier;
  }

  lemma ApplyDefault(v: Value, text: string)
    ensures ApplyModifier(v, "default:" + text) == Ok(v)
  {
    var modifier := "default:" + text;
    FindFirst(modifier, ':', 7);
    assert modifier[..7] == "default";
  }

  lemma ApplyJwt(v: Value, modifier: string)
    requires modifier == "toJWT"
    ensures ApplyModifier(v, modifier) == Ok(Str("[JWT stub]"))
  {
    FindFirst(modifier, ':', 5);
  }

  lemma ApplyGetByPath(v: Value, parts: seq<string>)
    requires parts != [] && Splittable(parts)
    ensures ApplyModifier(v, "getByPath:" + JoinEscaped(parts)) ==
              match Nested(v, parts)
              case Some(x) => Ok(x)
              case None => Err(PathNotFound(JoinEscaped(parts)))
  {
    hide JoinEscaped, SplitPath, Nested;
    var arg := JoinEscaped(parts);
    var modifier := "getByPath:" + arg;
    SplitUndoesJoin(parts);
    FindFirst(modifier, ':', 9);
    assert modifier[..9] == "getByPath" && modifier[10..] == arg;
    assert modifier[..9][0] == 'g' && "default"[0] == 'd';
  }

  lemma ApplyUnknown(v: Value, name: string, arg: string)
    requires ':' !in name && name != "default" && name != "getByPath"
    ensures ApplyModifier(v, name + ":" + arg) == Err(UnknownModifier(name))
    ensures name != "toJWT" ==> ApplyModifier(v, name) == Err(UnknownModifier(name))
  {
    var modifier := name + ":" + arg;
    FindFirst(modifier, ':', |name|);
    FindFirst(name, ':', |name|);
    assert modifier[..|name|] == name;
  }

  /** A default stands in for an absent path, and only for that. */
  lemma DefaultForm(source: string, path: string, text: string, sources: Sources)
    requires '.' !in source && '|' !in source && '|' !in path && Bare(source + "." + path) && Bare("default:" + text)
    requires source in sources
    ensures Evaluate(Piped(source, path, "default:" + text), sources) ==
              match sources[source](path)
              case Some(v) => Ok(v)
              case None => Ok(Str(text))
  {
    hide Parse, ApplyModifier, Piped, Bare;
    var modifier := "default:" + text;
    PipedParses(source, path, modifier);
    assert modifier[8..] == text;
    ApplyDefault(sources[source](path).GetOr(Null), text);
  }

  lemma JwtForm(source: string, path: string, modifier: string, sources: Sources)
    requires '.' !in source && '|' !in source && '|' !in path && Bare(source + "." + path)
    requires source in sources && modifier == "toJWT"
    ensures Evaluate(Piped(source, path, modifier), sources) == Ok(Str("[JWT stub]"))
  {
    hide Parse, ApplyModifier, Piped, Bare;
    assert Bare(modifier) by { JwtIsBare(modifier); }
    PipedParses(source, path, modifier);
    ApplyJwt(sources[source](path).GetOr(Null), modifier);
    assert modifier[0] == 't' && "default:"[0] == 'd';
  }

  lemma JwtIsBare(modifier: string)
    requires modifier == "toJWT"
    ensures Bare(modifier)
  {
    assert modifier[0] == 't' && modifier[4] == 'T';
    assert BLANKS == [' ', '\t', '\n', '\U{0B}', '\U{0C}', '\r'];
  }

  /** Looks further inside the value, null standing for an absent one. */
  lemma GetByPathForm(source: string, path: string, parts: seq<string>, sources: Sources)
    requires '.' !in source && '|' !in source && '|' !in path && Bare(source + "." + path)
    requires parts != [] && Splittable(parts) && Bare("getByPath:" + JoinEscaped(parts))
    requires source in sources
    ensures Evaluate(Piped(source, path, "getByPath:" + JoinEscaped(parts)), sources) ==
              match Nested(sources[source](path).GetOr(Null), parts)
              case Some(v) => Ok(v)
              case None => Err(PathNotFound(JoinEscaped(parts)))
  {
    hide Parse, ApplyModifier, Piped, Bare, JoinEscaped, Nested;
    var modifier := "getByPath:" + JoinEscaped(parts);
    PipedParses(source, path, modifier);
    ApplyGetByPath(sources[source](path).GetOr(Null), parts);
    assert modifier[0] == 'g' && "default:"[0] == 'd';
  }

  /** It needs a path. */
  lemma GetByNoPathForm(source: string, path: string, modifier: string, sources: Sources)
    requires '.' !in source && '|' !in source && '|' !in path && Bare(source + "." + path)
    requires source in sources && modifier == "getByPath:"
    ensures Evaluate(Piped(source, path, modifier), sources) == Err(EmptyPath)
  {
    hide Parse, ApplyModifier, Piped, Bare;
    assert Bare(modifier) by { GetByIsBare(modifier); }
    PipedParses(source, path, modifier);
    ApplyGetByNoPath(sources[source](path).GetOr(Null), modifier);
    assert modifier[0] == 'g' && "default:"[0] == 'd';
  }

  lemma GetByIsBare(modifier: string)
    requires modifier == "getByPath:"
    ensures Bare(modifier)
  {
    assert modifier[0] == 'g' && modifier[9] == ':';
    assert BLANKS == [' ', '\t', '\n', '\U{0B}', '\U{0C}', '\r'];
  }

  lemma ApplyGetByNoPath(v: Value, modifier: string)
    requires modifier == "getByPath:"
    ensures ApplyModifier(v, modifier) == Err(EmptyPath)
  {
    FindFirst(modifier, ':', 9);
    assert modifier[..9] == "getByPath" && modifier[10..] == "";
    assert modifier[..9][0] == 'g' && "default"[0] == 'd';
    assert SplitPath("") == [];
  }

  /** Anything else behind the bar is refused by its name, which ends at the first colon. */
  lemma UnknownForm(source: string, path: string, name: string, arg: string, sources: Sources)
    requires '.' !in source && '|' !in source && '|' !in path && Bare(source + "." + path)
    requires ':' !in name && name != "default" && name != "getByPath" && Bare(name + ":" + arg) && source in sources
    ensures Evaluate(Piped(source, path, name + ":" + arg), sources) == Err(UnknownModifier(name))
  {
    hide Parse, ApplyModifier, Piped, Bare;
    var modifier := name + ":" + arg;
    PipedParses(source, path, modifier);
    ApplyUnknown(sources[source](path).GetOr(Null), name, arg);
    NoDefaultBefore(name, arg);
  }

  lemma NoDefaultBefore(name: string, arg: string)
    requires ':' !in name && name != "default"
    ensures !("default:" <= name + ":" + arg) && !("default:" <= name)
  {
    var modifier := name + ":" + arg;
    assert modifier[|name|] == ':';
    assert "default:"[7] == ':' && forall i :: 0 <= i < 7 ==> "default:"[i] != ':' && "default:"[i] == "default"[i];
    assert "default:" <= modifier ==> |name| == 7 && name == "default";
    PrefixHasColon(name);
  }

  lemma PrefixHasColon(name: string)
    ensures "default:" <= name ==> ':' in name
  {
    if "default:" <= name {
      assert name[7] == "default:"[7] == ':';
    }
  }

  /** The same for a modifier without argument. */
  lemma UnknownWordForm(source: string, path: string, name: string, sources: Sources)
    requires '.' !in source && '|' !in source && '|' !in path && Bare(source + "." + path)
    requires name != "" && ':' !in name && name !in {"default", "getByPath", "toJWT"} && Bare(name) && source in sources
    ensures Evaluate(Piped(source, path, name), sources) == Err(UnknownModifier(name))
  {
    hide Parse, ApplyModifier, Piped, Bare;
    PipedParses(source, path, name);
    ApplyUnknown(sources[source](path).GetOr(Null), name, "");
    NoDefaultBefore(name, "");
  }

  lemma NotAnExpression(expr: string, sources: Sources)
    ensures !("{$" <= expr) || expr[|expr| - 1] != '}' ==> Evaluate(expr, sources) == Err(BadFormat)
  {
    HasSuffixMeans(expr, "}");
  }

  lemma NoPath(body: string, sources: Sources)
    requires '.' !in body && '|' !in body
    ensures Evaluate("{$" + body + "}", sources) == Err(BadSyntax)
  {
    var expr := "{$" + body + "}";
    assert expr[2..|expr| - 1] == body;
    FindFirst(body, '|', |body|);
    FindFirst(body, '.', |body|);
  }

  // ----- sources -----

  /** A path through nested objects, however its keys are spelled; null when some key is missing. */
  ghost predicate Leads(v: Value, parts: seq<string>, found: Value)
    decreases |parts|
  {
    if parts == [] then v == found
    else v.Obj? && parts[0] in v.fields && Leads(v.fields[parts[0]], parts[1..], found)
  }

  lemma {:induction false} NestedLeads(v: Value, parts: seq<string>)
    ensures match Nested(v, parts)
            case Some(found) => Leads(v, parts, found)
            case None => forall found :: !Leads(v, parts, found)
    decreases |parts|
  {
    if parts != [] && v.Obj? && parts[0] in v.fields {
      NestedLeads(v.fields[parts[0]], parts[1..]);
    }
  }

  /** One value for one entry, the list for several, nothing for none. */
  lemma MultiValues(m: map<string, seq<string>>, key: string)
    ensures key !in m || m[key] == [] ==> MultiValue(m, [key]) == None
    ensures key in m && |m[key]| == 1 ==> MultiValue(m, [key]) == Some(Str(m[key][0]))
    ensures key in m && |m[key]| > 1 ==>
              var r := MultiValue(m, [key]);
              && r.Some? && r.value.Arr? && |r.value.items| == |m[key]|
              && forall i :: 0 <= i < |m[key]| ==> r.value.items[i] == Str(m[key][i])
  {
  }

  lemma PathWithKey(category: string, key: string)
    requires forall i :: 0 <= i < |category| ==> category[i] != DOT && category[i] != BACKSLASH
    ensures SplitPath(category + "." + key) == [category] + SplitPath(key)
  {
    CategoryCells(category, key);
    var cells := Cells(key);
    var all := Cells(category + "." + key);
    assert all == [category] + cells;
    assert all[|all| - 1] == cells[|cells| - 1];
    assert all[..|all| - 1] == [category] + cells[..|cells| - 1];
  }

  lemma {:induction false} CategoryCells(category: string, key: string)
    requires forall i :: 0 <= i < |category| ==> category[i] != DOT && category[i] != BACKSLASH
    ensures Cells(category + "." + key) == [category] + Cells(key)
  {
    var path := category + "." + key;
    if category == [] {
      assert path == "." + key && path[1..] == key;
    } else {
      var rest := category[1..];
      assert path[0] == category[0] && path[1..] == rest + "." + key;
      CategoryCells(rest, key);
      assert Cells(path) == Onto([category[0]], Cells(rest + "." + key));
      assert [category[0]] + rest == category;
    }
  }

  // ----- paths as written -----

  predicate Word(s: string) {
    s != [] && forall i :: 0 <= i < |s| ==> s[i] != '.' && s[i] != '\\'
  }

  /** A dot separates, and one behind a backslash does not. */
  lemma DotsAsWritten(a: string, b: string)
    requires Word(a) && Word(b)
    ensures SplitPath(a + "." + b) == [a, b]
    ensures SplitPath(a + "\\." + b) == [a + "." + b]
  {
    hide Cells, Escape;
    WordIsItself(a);
    WordIsItself(b);
    WrittenPart(b);
    SeparatedPart(a, b);
    assert a + [DOT] + b == a + "." + b && [a] + [b] == [a, b];
    EscapedDot(a, b);
    WrittenPart(a + "." + b);
  }

  /** One part, written so that its dots do not separate. */
  lemma WrittenPart(part: string)
    ensures Cells(Escape(part)) == [part]
  {
    CellsAfterPart(part, []);
    assert Escape(part) + [] == Escape(part) && part + [] == part;
  }

  lemma {:induction false} WordIsItself(s: string)
    requires forall i :: 0 <= i < |s| ==> s[i] != '.' && s[i] != '\\'
    ensures Escape(s) == s
  {
    if s != [] {
      WordIsItself(s[1..]);
    }
  }

  lemma {:induction false} EscapedDot(a: string, b: string)
    requires Escape(a) == a && Escape(b) == b
    ensures Escape(a + "." + b) == a + "\\." + b
  {
    EscapeAppend(a, "." + b);
    EscapeAppend(".", b);
    assert Escape(".") == "\\." + Escape("");
    assert a + "." + b == a + ("." + b);
  }

  lemma {:induction false} EscapeAppend(a: string, b: string)
    ensures Escape(a + b) == Escape(a) + Escape(b)
    decreases |a|
  {
    hide Escape;
    if a == [] {
      assert a + b == b;
      assert Escape([]) == [] by { EscapeNothing(); }
    } else {
      EscapeAppend(a[1..], b);
      EscapeHead(a);
      EscapeHead(a + b);
      assert (a + b)[1..] == a[1..] + b;
    }
  }

  lemma EscapeNothing()
    ensures Escape([]) == []
  {
  }

  lemma EscapeHead(s: string)
    requires s != []
    ensures Escape(s) == (if s[0] == DOT then [BACKSLASH, DOT] else [s[0]]) + Escape(s[1..])
  {
  }
}
