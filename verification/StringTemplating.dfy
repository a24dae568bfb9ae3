/** Templating of strings with embedded expressions (internal/server/engine_expr.go). */
module StringTemplating {
  import opened Json
  import opened Strings
  import opened Expressions

  const OPEN := "{$"

  datatype TemplateError = TooDeep | Evaluation(cause: EvalError) | NotMarshallable(v: Value)

  /** An evaluator over fixed sources, and JSON marshalling. */
  datatype Templater = Templater(eval: string -> Result<Value, EvalError>, marshal: Value -> Option<string>)

  // ----- balanced expressions -----

  predicate OpensAt(s: string, i: nat) {
    i + 1 < |s| && s[i] == '{' && s[i + 1] == '$'
  }

  lemma OpensWhereOccurs(s: string, i: nat)
    ensures OccursAt(OPEN, s, i) <==> OpensAt(s, i)
  {
    if i + 1 < |s| {
      assert s[i..][0] == s[i] && s[i..][1] == s[i + 1];
    }
  }

  /** `t`, read with `depth` expressions open, closes the last of them with its very last byte. */
  predicate Closes(t: string, depth: nat) {
    t != [] &&
    if OpensAt(t, 0) then Closes(t[2..], depth + 1)
    else if t[0] == '}' then (if depth <= 1 then |t| == 1 else Closes(t[1..], depth - 1))
    else Closes(t[1..], depth)
  }

  /** One complete "{$...}", counting nested ones. */
  predicate Balanced(e: string) {
    OpensAt(e, 0) && Closes(e[2..], 1)
  }

  /** Where, from `j` on, the last of `depth` open expressions ends, or -1. */
  function Close(s: string, j: nat, depth: nat): (end: int)
    requires j <= |s| && depth > 0
    ensures end == -1 || j < end <= |s|
    decreases |s| - j
  {
    if j == |s| then -1
    else if OpensAt(s, j) then Close(s, j + 2, depth + 1)
    else if s[j] == '}' then (if depth == 1 then j + 1 else Close(s, j + 1, depth - 1))
    else Close(s, j + 1, depth)
  }

  /** Scanning finds the shortest closed piece, and there is only one closed piece. */
  lemma {:induction false} CloseIsShortest(s: string, j: nat, depth: nat, end: nat)
    requires depth > 0 && j <= end <= |s|
    ensures Closes(s[j..end], depth) <==> Close(s, j, depth) == end
    decreases |s| - j
  {
    if j < end {
      var p := s[j..end];
      assert p[1..] == s[j + 1..end];
      if OpensAt(s, j) {
        if j + 2 <= end {
          assert p[2..] == s[j + 2..end];
          CloseIsShortest(s, j + 2, depth + 1, end);
        } else {
          assert p[1..] == [];
        }
      } else if s[j] != '}' {
        CloseIsShortest(s, j + 1, depth, end);
      } else if depth > 1 {
        CloseIsShortest(s, j + 1, depth - 1, end);
      }
    }
  }

  // ----- cutting a string -----

  datatype Piece = Literal(text: string) | Expression(text: string)

  function Text(pieces: seq<Piece>): string {
    if pieces == [] then [] else pieces[0].text + Text(pieces[1..])
  }

  /** An opening that nothing closes. */
  ghost predicate Unclosed(t: string) {
    OpensAt(t, 0) && forall n :: 0 <= n <= |t| ==> !Balanced(t[..n])
  }

  /**
   * Literals and complete expressions alternate, literals hold no opening,
   * and only the tail may be an opening that is never closed.
   */
  ghost predicate WellCut(pieces: seq<Piece>) {
    pieces != [] ==>
      && pieces[0].Literal? && !Contains(pieces[0].text, OPEN)
      && if |pieces| == 1 then pieces[0].text != []
         else if pieces[1].Literal? then |pieces| == 2 && Unclosed(pieces[1].text)
         else Balanced(pieces[1].text) && WellCut(pieces[2..])
  }

  function Cut(s: string): seq<Piece> { CutFrom(s, 0) }

  function CutFrom(s: string, i: nat): (pieces: seq<Piece>)
    requires i <= |s|
    decreases |s| - i
  {
    var start := IndexFrom(s, OPEN, i);
    if start < 0 then (if i == |s| then [] else [Literal(s[i..])])
    else
      OpensWhereOccurs(s, start);
      var end := Close(s, start + 2, 1);
      if end < 0 then [Literal(s[i..start]), Literal(s[start..])]
      else [Literal(s[i..start]), Expression(s[start..end])] + CutFrom(s, end)
  }

  lemma TextOfTwo(a: Piece, b: Piece, rest: seq<Piece>)
    ensures Text([a, b] + rest) == a.text + b.text + Text(rest)
  {
    var pieces := [a, b] + rest;
    assert pieces[1..] == [b] + rest && pieces[1..][1..] == rest;
  }

  lemma TextOfOne(a: Piece)
    ensures Text([a]) == a.text
  {
    assert [a][1..] == [];
  }

  lemma CutIsWellCut(s: string)
    ensures Text(Cut(s)) == s && WellCut(Cut(s))
  {
    CutFromIsWellCut(s, 0);
    assert s[0..] == s;
  }

  lemma {:induction false} CutFromIsWellCut(s: string, i: nat)
    requires i <= |s|
    ensures Text(CutFrom(s, i)) == s[i..] && WellCut(CutFrom(s, i))
    decreases |s| - i
  {
    hide IndexFrom, Close, OccursAt, Closes, WellCut, Text, Contains, Unclosed, Balanced;
    var start := IndexFrom(s, OPEN, i);
    NoOpeningBefore(s, i, if start < 0 then |s| else start);
    if start < 0 {
      assert s[i..|s|] == s[i..];
      OnlyLiteral(s[i..]);
    } else {
      OpensWhereOccurs(s, start);
      ClosedByScan(s, start);
      var end := Close(s, start + 2, 1);
      if end < 0 {
        OnlyTail(s, i, start);
      } else {
        CutFromIsWellCut(s, end);
        Extend(s, i, start, end, CutFrom(s, end));
      }
    }
  }

  lemma OnlyLiteral(t: string)
    requires !Contains(t, OPEN)
    ensures var pieces := if t == [] then [] else [Literal(t)];
            Text(pieces) == t && WellCut(pieces)
  {
    TextOfOne(Literal(t));
  }

  lemma OnlyTail(s: string, i: nat, start: nat)
    requires i <= start && OpensAt(s, start) && !Contains(s[i..start], OPEN) && Unclosed(s[start..])
    ensures var pieces := [Literal(s[i..start]), Literal(s[start..])];
            Text(pieces) == s[i..] && WellCut(pieces)
  {
    var tail := [Literal(s[i..start]), Literal(s[start..])];
    TextOfTwo(tail[0], tail[1], []);
    assert tail + [] == tail;
    assert s[i..] == s[i..start] + s[start..];
  }

  lemma Extend(s: string, i: nat, start: nat, end: nat, rest: seq<Piece>)
    requires i <= start <= end <= |s|
    requires !Contains(s[i..start], OPEN) && Balanced(s[start..end])
    requires WellCut(rest) && Text(rest) == s[end..]
    ensures var pieces := [Literal(s[i..start]), Expression(s[start..end])] + rest;
            Text(pieces) == s[i..] && WellCut(pieces)
  {
    hide Contains, Unclosed, Balanced, Text;
    var a, b := Literal(s[i..start]), Expression(s[start..end]);
    var pieces := [a, b] + rest;
    TextOfTwo(a, b, rest);
    InThree(s, i, start, end);
    assert pieces[0] == a && pieces[1] == b && pieces[2..] == rest;
  }

  lemma InThree(s: string, i: nat, start: nat, end: nat)
    requires i <= start <= end <= |s|
    ensures s[i..start] + s[start..end] + s[end..] == s[i..]
  {
  }

  /** After an opening the scan finds the one closed piece there is, if there is one. */
  lemma ClosedByScan(s: string, start: nat)
    requires OpensAt(s, start)
    ensures Close(s, start + 2, 1) < 0 <==> Unclosed(s[start..])
    ensures forall end :: start + 2 <= end <= |s| ==> (Balanced(s[start..end]) <==> Close(s, start + 2, 1) == end)
  {
    hide Close, Closes;
    forall end | start + 2 <= end <= |s|
      ensures Balanced(s[start..end]) <==> Close(s, start + 2, 1) == end
    {
      CloseIsShortest(s, start + 2, 1, end);
      assert s[start..end][2..] == s[start + 2..end];
    }
    var t := s[start..];
    forall n | 0 <= n <= |t|
      ensures Balanced(t[..n]) <==> Close(s, start + 2, 1) == start + n
    {
      assert t[..n] == s[start..start + n];
    }
    var end := Close(s, start + 2, 1);
    assert end >= 0 ==> Balanced(t[..end - start]);
  }

  lemma NoOpeningBefore(s: string, i: nat, start: nat)
    requires i <= start <= |s|
    requires var found := IndexFrom(s, OPEN, i); found < 0 || start <= found
    ensures !Contains(s[i..start], OPEN)
  {
    forall k: nat | k < start - i
      ensures !OccursAt(OPEN, s[i..start], k)
    {
      OpensWhereOccurs(s[i..start], k);
      OpensWhereOccurs(s, i + k);
      assert !OccursAt(OPEN, s, i + k);
    }
  }

  /** Behind a literal without opening, the next opening is the leftmost one. */
  lemma LeftmostOpening(s: string, i: nat, start: nat)
    requires i <= start <= |s|
    requires !Contains(s[i..start], OPEN) && OpensAt(s, start)
    ensures IndexFrom(s, OPEN, i) == start
  {
    OpensWhereOccurs(s, start);
    forall k: nat | i <= k < start
      ensures !OccursAt(OPEN, s, k)
    {
      OpensWhereOccurs(s, k);
      OpensWhereOccurs(s[i..start], k - i);
      assert !OccursAt(OPEN, s[i..start], k - i);
    }
  }

  lemma NoOpeningAtAll(s: string, i: nat)
    requires i <= |s| && !Contains(s[i..], OPEN)
    ensures IndexFrom(s, OPEN, i) < 0
  {
    forall k: nat | i <= k <= |s|
      ensures !OccursAt(OPEN, s, k)
    {
      assert s[i..][k - i..] == s[k..];
      assert !OccursAt(OPEN, s[i..], k - i);
    }
  }

  /** There is exactly one way to cut a string well, and the scan finds it. */
  lemma CutIsUnique(s: string, pieces: seq<Piece>)
    requires WellCut(pieces) && Text(pieces) == s
    ensures pieces == Cut(s)
  {
    assert s[0..] == s;
    CutFromIsUnique(s, 0, pieces);
  }

  /** A well-cut list, seen from its front. */
  lemma WellCutFront(pieces: seq<Piece>)
    requires WellCut(pieces) && |pieces| > 1
    ensures pieces[0].Literal? && !Contains(pieces[0].text, OPEN)
    ensures OpensAt(pieces[1].text, 0)
    ensures if pieces[1].Literal? then |pieces| == 2 && Unclosed(pieces[1].text)
            else Balanced(pieces[1].text) && WellCut(pieces[2..])
  {
  }

  lemma {:induction false} CutFromIsUnique(s: string, i: nat, pieces: seq<Piece>)
    requires i <= |s|
    requires WellCut(pieces) && Text(pieces) == s[i..]
    ensures pieces == CutFrom(s, i)
    decreases |s| - i
  {
    hide CutFrom, IndexFrom, Close, WellCut, Text, Balanced;
    if |pieces| <= 1 {
      PlainTail(s, i, pieces);
    } else {
      var start := FrontOfCut(s, i, pieces);
      if pieces[1].Expression? {
        var end := start + |pieces[1].text|;
        CutFromIsUnique(s, end, pieces[2..]);
        CutStep(s, i, start, end);
        assert pieces == [pieces[0], pieces[1]] + pieces[2..];
      }
    }
  }

  lemma PlainTail(s: string, i: nat, pieces: seq<Piece>)
    requires i <= |s| && |pieces| <= 1
    requires WellCut(pieces) && Text(pieces) == s[i..]
    ensures pieces == CutFrom(s, i)
  {
    hide IndexFrom, Close, OccursAt;
    if |pieces| == 1 {
      TextOfOne(pieces[0]);
      NoOpeningAtAll(s, i);
    } else {
      NoOpeningAtEnd(s, i);
    }
  }

  lemma NoOpeningAtEnd(s: string, i: nat)
    requires i == |s|
    ensures IndexFrom(s, OPEN, i) < 0
  {
  }

  /** The first literal and what follows it are where the scan finds them. */
  lemma FrontOfCut(s: string, i: nat, pieces: seq<Piece>) returns (start: nat)
    requires i <= |s| && |pieces| > 1
    requires WellCut(pieces) && Text(pieces) == s[i..]
    ensures i <= start <= |s| && IndexFrom(s, OPEN, i) == start && OpensAt(s, start)
    ensures pieces[0] == Literal(s[i..start])
    ensures if pieces[1].Literal? then pieces == CutFrom(s, i)
            else
              var end := start + |pieces[1].text|;
              && end <= |s| && Close(s, start + 2, 1) == end && pieces[1] == Expression(s[start..end])
              && start < end && WellCut(pieces[2..]) && Text(pieces[2..]) == s[end..]
  {
    hide IndexFrom, Close, OccursAt, Closes;
    var lit, second, rest := pieces[0].text, pieces[1].text, Text(pieces[2..]);
    WellCutFront(pieces);
    assert pieces == [pieces[0], pieces[1]] + pieces[2..];
    TextOfTwo(pieces[0], pieces[1], pieces[2..]);
    start := i + |lit|;
    SplitInThree(s, i, lit, second, rest);
    assert second[0] == s[start] && second[1] == s[start + 1];
    LeftmostOpening(s, i, start);
    ClosedByScan(s, start);
    if pieces[1].Literal? {
      assert s[start..] == second;
      assert pieces == [Literal(s[i..start]), Literal(s[start..])];
    }
  }

  lemma CutStep(s: string, i: nat, start: nat, end: nat)
    requires i <= start <= end <= |s|
    requires IndexFrom(s, OPEN, i) == start && OpensAt(s, start) && Close(s, start + 2, 1) == end
    ensures CutFrom(s, i) == [Literal(s[i..start]), Expression(s[start..end])] + CutFrom(s, end)
  {
  }

  lemma SplitInThree(s: string, i: nat, a: string, b: string, c: string)
    requires i <= |s| && s[i..] == a + b + c
    ensures i + |a| + |b| <= |s|
    ensures s[i..i + |a|] == a && s[i + |a|..i + |a| + |b|] == b && s[i + |a| + |b|..] == c
  {
    assert forall k :: 0 <= k < |s| - i ==> s[i + k] == (a + b + c)[k];
  }

  // ----- substitution -----

  /** What an expression is replaced by; itself when it cannot be evaluated or marshalled. */
  function Substitute(e: string, t: Templater): string {
    match t.eval(e)
    case Err(_) => e
    case Ok(Str(s)) => s
    case Ok(v) => match t.marshal(v)
      case None => e
      case Some(json) => json
  }

  function Rendered(p: Piece, t: Templater): string {
    match p
    case Literal(text) => text
    case Expression(text) => Substitute(text, t)
  }

  function Render(pieces: seq<Piece>, t: Templater): string {
    if pieces == [] then [] else Rendered(pieces[0], t) + Render(pieces[1..], t)
  }

  lemma RenderOfTwo(a: Piece, b: Piece, rest: seq<Piece>, t: Templater)
    ensures Render([a, b] + rest, t) == Rendered(a, t) + Rendered(b, t) + Render(rest, t)
  {
    var pieces := [a, b] + rest;
    assert pieces[1..] == [b] + rest && pieces[1..][1..] == rest;
  }

  /** The substituted text from `i` on, without naming the pieces. */
  function Replaced(s: string, i: nat, t: Templater): string
    requires i <= |s|
    decreases |s| - i
  {
    var start := IndexFrom(s, OPEN, i);
    if start < 0 then s[i..]
    else
      OpensWhereOccurs(s, start);
      s[i..start] + Onward(s, start, t)
  }

  function Onward(s: string, start: nat, t: Templater): string
    requires OpensAt(s, start)
    decreases |s| - start, 0
  {
    var end := Close(s, start + 2, 1);
    if end < 0 then s[start..] else Substitute(s[start..end], t) + Replaced(s, end, t)
  }

  lemma {:induction false} ReplacedIsRender(s: string, i: nat, t: Templater)
    requires i <= |s|
    ensures Replaced(s, i, t) == Render(CutFrom(s, i), t)
    decreases |s| - i
  {
    hide IndexFrom, Close, OccursAt, Substitute;
    var start := IndexFrom(s, OPEN, i);
    if start < 0 {
      if i < |s| { assert [Literal(s[i..])][1..] == []; }
    } else {
      OpensWhereOccurs(s, start);
      var lit := Literal(s[i..start]);
      var end := Close(s, start + 2, 1);
      if end < 0 {
        RenderOfTwo(lit, Literal(s[start..]), [], t);
        assert [lit, Literal(s[start..])] + [] == [lit, Literal(s[start..])];
      } else {
        ReplacedIsRender(s, end, t);
        RenderOfTwo(lit, Expression(s[start..end]), CutFrom(s, end), t);
      }
    }
  }

  /** The inner loop: depth tracking from just behind the opening at `start`. */
  method FindClosing(str: string, start: nat) returns (closed: bool, j: nat)
    requires OpensAt(str, start)
    ensures var end := Close(str, start + 2, 1);
            if closed then j < |str| && end == j + 1 else end < 0
  {
    var braceDepth := 1;
    j := start + 2;
    while j < |str| && braceDepth > 0
      invariant start + 2 <= j <= |str| && braceDepth > 0
      invariant Close(str, start + 2, 1) == Close(str, j, braceDepth)
      decreases |str| - j
    {
      var ch := str[j];
      if ch == '{' && j + 1 < |str| && str[j + 1] == '$' {
        braceDepth := braceDepth + 1;
        j := j + 2;
        continue;
      }
      if ch == '}' {
        braceDepth := braceDepth - 1;
        if braceDepth == 0 {
          break;
        }
      }
      j := j + 1;
    }
    closed := braceDepth == 0;
  }

  /** One evaluated piece; the original text when evaluation or marshalling fails. */
  method EvaluatePiece(expr: string, t: Templater) returns (text: string)
    ensures text == Substitute(expr, t)
  {
    var value := t.eval(expr);
    if value.Err? {
      return expr;
    }
    match value.value
    case Str(s) => return s;
    case _ =>
      match t.marshal(value.value)
      case None => return expr;
      case Some(b) => return b;
  }

  lemma Write(whole: string, written: string, next: string, rest: string)
    requires whole == written + (next + rest)
    ensures whole == (written + next) + rest
  {
  }

  method ReplaceEmbedded(str: string, t: Templater) returns (result: string)
    ensures result == Render(Cut(str), t)
  {
    hide Close, IndexFrom, OccursAt, Substitute, CutFrom, Render, Replaced, Onward;
    ghost var whole := Render(Cut(str), t);
    ReplacedIsRender(str, 0, t);
    result := "";
    var i := 0;
    while i < |str|
      invariant 0 <= i <= |str|
      invariant whole == result + Replaced(str, i, t)
      decreases |str| - i
    {
      var start := IndexFrom(str, OPEN, i);
      ReplacedFrom(str, i, t);
      if start == -1 {
        return result + str[i..];
      }
      OpensWhereOccurs(str, start);
      Write(whole, result, str[i..start], Onward(str, start, t));
      result := result + str[i..start];
      var closed, end := FindClosing(str, start);
      OnwardFrom(str, start, t);
      if !closed {
        return result + str[start..];
      }
      var text := EvaluatePiece(str[start..end + 1], t);
      Write(whole, result, text, Replaced(str, end + 1, t));
      result := result + text;
      i := end + 1;
    }
    NothingToReplace(str, t);
    assert result + [] == result;
  }

  lemma ReplacedFrom(s: string, i: nat, t: Templater)
    requires i <= |s|
    ensures var start := IndexFrom(s, OPEN, i);
            if start < 0 then Replaced(s, i, t) == s[i..]
            else OpensAt(s, start) && Replaced(s, i, t) == s[i..start] + Onward(s, start, t)
  {
    hide IndexFrom, OccursAt, Onward;
    if IndexFrom(s, OPEN, i) >= 0 {
      OpensWhereOccurs(s, IndexFrom(s, OPEN, i));
    }
  }

  lemma OnwardFrom(s: string, start: nat, t: Templater)
    requires OpensAt(s, start)
    ensures var end := Close(s, start + 2, 1);
            Onward(s, start, t) == if end < 0 then s[start..] else Substitute(s[start..end], t) + Replaced(s, end, t)
  {
    hide Close, Substitute, Replaced;
  }

  lemma NothingToReplace(s: string, t: Templater)
    ensures Replaced(s, |s|, t) == []
  {
    ReplacedFrom(s, |s|, t);
    NoOpeningAtEnd(s, |s|);
  }

  /** When no expression can be replaced the string comes back unchanged. */
  lemma {:induction false} FailuresLeaveText(pieces: seq<Piece>, t: Templater)
    requires forall p :: p in pieces && p.Expression? ==> Substitute(p.text, t) == p.text
    ensures Render(pieces, t) == Text(pieces)
  {
    if pieces != [] {
      FailuresLeaveText(pieces[1..], t);
    }
  }

  lemma IdentityWhenNothingEvaluates(s: string, t: Templater)
    requires forall e :: t.eval(e).Err?
    ensures Render(Cut(s), t) == s
  {
    FailuresLeaveText(Cut(s), t);
    CutIsWellCut(s);
  }

  // ----- the whole-string shortcut -----

  predicate IsWhole(s: string) {
    OPEN <= s && HasSuffix(s, "}") && !Contains(s[2..], OPEN)
  }

  /** The two ways the program asks for a single full expression agree. */
  lemma WholeByCount(s: string)
    ensures IsWhole(s) <==> OPEN <= s && HasSuffix(s, "}") && Count(s, OPEN) == 1
  {
    if OPEN <= s {
      assert Index(s, OPEN) == 0;
    }
  }

  function WholeResult(s: string, t: Templater): Result<string, TemplateError> {
    match t.eval(s)
    case Err(e) => Err(Evaluation(e))
    case Ok(Str(text)) => Ok(text)
    case Ok(v) => match t.marshal(v)
      case None => Err(NotMarshallable(v))
      case Some(json) => Ok(json)
  }

  function KeyResult(s: string, t: Templater): Result<string, TemplateError> {
    if IsWhole(s) then WholeResult(s, t) else Ok(Render(Cut(s), t))
  }

  method EvaluateExpressionInString(str: string, t: Templater) returns (r: Result<string, TemplateError>)
    ensures r == KeyResult(str, t)
  {
    if OPEN <= str && HasSuffix(str, "}") && !Contains(str[2..], OPEN) {
      var result := t.eval(str);
      match result {
        case Err(e) => return Err(Evaluation(e));
        case Ok(v) =>
          match v
          case Str(s) => return Ok(s);
          case _ =>
            match t.marshal(v)
            case None => return Err(NotMarshallable(v));
            case Some(b) => return Ok(b);
      }
    }
    var s := ReplaceEmbedded(str, t);
    return Ok(s);
  }

  /** The shortcut takes the string for one expression; the scan does so exactly when no '}' precedes the last byte. */
  lemma ShortcutIsOnePiece(s: string)
    requires IsWhole(s)
    ensures Cut(s) == [Literal(""), Expression(s)] <==> '}' !in s[..|s| - 1]
  {
    assert s[1] == '$' && s[|s| - 1] == '}';
    assert Index(s, OPEN) == 0;
    NoOpeningLater(s);
    FirstBraceCloses(s, 2);
    var end := Close(s, 2, 1);
    assert s[..0] == [];
    assert Cut(s) == [Literal([]), Expression(s[0..end])] + CutFrom(s, end);
    if end == |s| {
      assert s[0..end] == s;
      NoOpeningAtAll(s, end);
    } else {
      assert s[..|s| - 1][end - 1] == '}';
      assert |Cut(s)[1].text| < |s|;
    }
  }

  lemma {:induction false} FirstBraceCloses(s: string, j: nat)
    requires j < |s| && s[|s| - 1] == '}'
    requires forall i :: j <= i < |s| ==> !OpensAt(s, i)
    ensures var end := Close(s, j, 1);
            j < end <= |s| && s[end - 1] == '}' && forall i :: j <= i < end - 1 ==> s[i] != '}'
    decreases |s| - j
  {
    if s[j] != '}' {
      FirstBraceCloses(s, j + 1);
    }
  }

  lemma NoOpeningLater(s: string)
    requires IsWhole(s)
    ensures forall i :: 2 <= i < |s| ==> !OpensAt(s, i)
  {
    forall i | 2 <= i < |s|
      ensures !OpensAt(s, i)
    {
      OpensWhereOccurs(s[2..], i - 2);
      assert !OccursAt(OPEN, s[2..], i - 2);
    }
  }

  /**
   * Where both see one expression, the shortcut succeeds with the scan's text or fails where the scan keeps the
   * input.
   */
  lemma ShortcutAgreesWithScan(s: string, t: Templater)
    requires IsWhole(s) && '}' !in s[..|s| - 1]
    ensures match KeyResult(s, t)
            case Ok(text) => Render(Cut(s), t) == text
            case Err(_) => Render(Cut(s), t) == s
  {
    ShortcutIsOnePiece(s);
    var pieces := [Literal(""), Expression(s)];
    assert pieces[1..] == [Expression(s)] && pieces[1..][1..] == [];
    assert Render(pieces[1..], t) == Substitute(s, t) + [];
  }

  /** A string without expressions is left alone. */
  lemma PlainText(s: string, t: Templater)
    requires !Contains(s, OPEN)
    ensures !IsWhole(s) && Render(Cut(s), t) == s && KeyResult(s, t) == Ok(s)
  {
    ReplacedIsRender(s, 0, t);
    assert s[0..] == s;
    assert !OccursAt(OPEN, s, 0);
  }
}
