/** What templating answers for texts as they are written (internal/server/engine_expr.go). */
module TemplateForms {
  import opened Json
  import opened Strings
  import opened StringTemplating
  import opened ValueTemplating

  /** One expression without another one inside it. */
  function Braced(body: string): string {
    "{$" + body + "}"
  }

  lemma WholeIsBraced(s: string)
    ensures IsWhole(s) <==> exists body :: s == Braced(body) && !Contains(body + "}", "{$")
  {
    hide Contains;
    if IsWhole(s) {
      assert s[1] == '$' && s[|s| - 1] == '}';
      var body := s[2..|s| - 1];
      assert s == Braced(body) && s[2..] == body + "}";
    }
    forall body | s == Braced(body) && !Contains(body + "}", "{$")
      ensures IsWhole(s)
    {
      assert s[2..] == body + "}";
    }
  }

  /** A text that is one expression becomes the value itself, of whatever kind, or the error. */
  lemma WholeKeepsItsKind(body: string, t: Templater, depth: nat, r: Result<Value, TemplateError>)
    requires !Contains(body + "}", "{$") && depth <= 256
    ensures Templated(Str("{$" + body + "}"), t, depth, r) <==>
              match t.eval("{$" + body + "}")
              case Ok(v) => r == Ok(v)
              case Err(e) => r == Err(Evaluation(e))
  {
    hide Contains, IsWhole;
    assert Braced(body) == "{$" + body + "}";
    WholeIsBraced(Braced(body));
  }

  /** Every other text stays a text. */
  lemma OthersStayText(s: string, t: Templater, depth: nat, r: Result<Value, TemplateError>)
    requires depth <= 256 && forall body :: s == Braced(body) ==> Contains(body + "}", "{$")
    ensures Templated(Str(s), t, depth, r) <==> r == Ok(Str(Render(Cut(s), t)))
  {
    hide Contains, IsWhole, Render, CutFrom;
    WholeIsBraced(s);
  }

  /** A key that is one expression becomes the text of its value. */
  lemma WholeKeyIsText(body: string, t: Templater)
    requires !Contains(body + "}", "{$")
    ensures KeyResult("{$" + body + "}", t) ==
              match t.eval("{$" + body + "}")
              case Err(e) => Err(Evaluation(e))
              case Ok(Str(text)) => Ok(text)
              case Ok(v) =>
                (match t.marshal(v)
                 case Some(json) => Ok(json)
                 case None => Err(NotMarshallable(v)))
  {
    hide Contains, IsWhole, Render, CutFrom;
    assert Braced(body) == "{$" + body + "}";
    WholeIsBraced(Braced(body));
  }

  // ----- expressions inside a text -----

  lemma BracedIsBalanced(body: string)
    requires '}' !in body && !Contains(body + "}", "{$")
    ensures Balanced("{$" + body + "}")
  {
    var e := "{$" + body + "}";
    assert e[2..] == body + "}" && e[..|e| - 1] == "{$" + body;
    NoOpeningLater(e);
    FirstBraceCloses(e, 2);
    CloseIsShortest(e, 2, 1, |e|);
    assert e[2..|e|] == e[2..];
  }

  /** The leftmost expression of a text gives way to its value; what stands behind it is treated in the same way. */
  lemma LeftmostGivesWay(before: string, e: string, after: string, t: Templater)
    requires !Contains(before, "{$") && Balanced(e)
    ensures Render(Cut(before + e + after), t) ==
              before + (match t.eval(e)
                        case Err(_) => e
                        case Ok(Str(text)) => text
                        case Ok(v) => t.marshal(v).GetOr(e)) + Render(Cut(after), t)
  {
    hide Contains, Balanced, Cut, WellCut;
    var a, b, rest := Literal(before), Expression(e), Cut(after);
    var pieces := [a, b] + rest;
    CutIsWellCut(after);
    Prepend(before, e, rest);
    TextOfTwo(a, b, rest);
    CutIsUnique(before + e + after, pieces);
    RenderOfTwo(a, b, rest, t);
  }

  lemma Prepend(before: string, e: string, rest: seq<Piece>)
    requires !Contains(before, "{$") && Balanced(e) && WellCut(rest)
    ensures WellCut([Literal(before), Expression(e)] + rest)
  {
    hide Contains, Balanced;
    var pieces := [Literal(before), Expression(e)] + rest;
    assert pieces[2..] == rest;
  }

  /** Text around one expression. */
  lemma EmbeddedOnce(before: string, body: string, after: string, t: Templater)
    requires !Contains(before, "{$") && '}' !in body && !Contains(body + "}", "{$") && !Contains(after, "{$")
    ensures Render(Cut(before + ("{$" + body + "}") + after), t) ==
              before + (match t.eval("{$" + body + "}")
                        case Err(_) => "{$" + body + "}"
                        case Ok(Str(text)) => text
                        case Ok(v) => t.marshal(v).GetOr("{$" + body + "}")) + after
  {
    hide Contains, Balanced, Cut, Render;
    BracedIsBalanced(body);
    LeftmostGivesWay(before, "{$" + body + "}", after, t);
    PlainText(after, t);
  }

  // ----- nesting -----

  /** Without expressions: unchanged up to 256 levels of nesting, refused from 257 on. */
  lemma NestingBound(v: Value, t: Templater, r: Result<Value, TemplateError>)
    requires Plain(v)
    ensures Templated(v, t, 0, r) <==> r == if HeightAtMost(v, 256) then Ok(v) else Err(TooDeep)
  {
    PlainValues(v, t, 0, r);
  }

  /** A value wrapped in `n` arrays. */
  function Wrapped(v: Value, n: nat): Value {
    if n == 0 then v else Arr([Wrapped(v, n - 1)])
  }

  lemma {:induction false} WrappedHeight(n: nat, h: int)
    ensures Plain(Wrapped(Null, n)) && (HeightAtMost(Wrapped(Null, n), h) <==> n <= h)
  {
    if n > 0 {
      WrappedHeight(n - 1, h - 1);
      assert Wrapped(Null, n).items[0] == Wrapped(Null, n - 1);
    }
  }

  /** The deepest value that passes. */
  lemma DeepestValue(n: nat, t: Templater, r: Result<Value, TemplateError>)
    ensures Templated(Wrapped(Null, n), t, 0, r) <==> r == if n <= 256 then Ok(Wrapped(Null, n)) else Err(TooDeep)
  {
    hide Templated;
    WrappedHeight(n, 256);
    NestingBound(Wrapped(Null, n), t, r);
  }
}
