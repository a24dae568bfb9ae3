/** Subscriber filters of the management stream (internal/server/manage_ws.go). */
module Glob {
  import opened Strings

  const STAR := '*'

  /** What a glob means: '*' stands for any string, every other byte for itself. */
  ghost predicate Matches(pattern: string, value: string)
    decreases |pattern|
  {
    if pattern == [] then value == []
    else if pattern[0] == STAR then
      exists k {:trigger Matches(pattern[1..], value[k..])} :: 0 <= k <= |value| && Matches(pattern[1..], value[k..])
    else value != [] && value[0] == pattern[0] && Matches(pattern[1..], value[1..])
  }

  // ----- splitting -----

  /** strings.Split(s, "*"): the maximal star-free pieces, empty ones included. */
  function Split(s: string): (parts: seq<string>)
    ensures parts != []
  {
    if s == [] then [[]]
    else if s[0] == STAR then [[]] + Split(s[1..])
    else var rest := Split(s[1..]); [[s[0]] + rest[0]] + rest[1..]
  }

  function NonEmpty(parts: seq<string>): (kept: seq<string>)
    ensures forall seg :: seg in kept ==> seg != [] && seg in parts
  {
    if parts == [] then []
    else (if parts[0] != [] then [parts[0]] else []) + NonEmpty(parts[1..])
  }

  lemma NonEmptySnoc(parts: seq<string>, last: string)
    ensures NonEmpty(parts + [last]) == NonEmpty(parts) + (if last != [] then [last] else [])
  {
    if parts == [] {
      assert parts + [last] == [last];
    } else {
      NonEmptySnoc(parts[1..], last);
      assert (parts + [last])[1..] == parts[1..] + [last];
    }
  }

  method SplitGlob(pattern: string) returns (parts: seq<string>)
    ensures parts == NonEmpty(Split(pattern))
  {
    parts := [];
    var pieces := Split(pattern);
    for i := 0 to |pieces|
      invariant parts == NonEmpty(pieces[..i])
    {
      NonEmptySnoc(pieces[..i], pieces[i]);
      assert pieces[..i + 1] == pieces[..i] + [pieces[i]];
      if pieces[i] != [] {
        parts := parts + [pieces[i]];
      }
    }
    assert pieces[..|pieces|] == pieces;
  }

  // ----- segments that may float -----

  /** `segs` occur in `v` in order, each after an arbitrary gap; when `anchored`, nothing follows the last one. */
  ghost predicate Gapped(segs: seq<string>, anchored: bool, v: string)
    decreases |segs|
  {
    if segs == [] then anchored ==> v == []
    else exists k: nat {:trigger OccursAt(segs[0], v, k)} ::
      OccursAt(segs[0], v, k) && Gapped(segs[1..], anchored, v[k..][|segs[0]|..])
  }

  lemma GapWitness(segs: seq<string>, anchored: bool, v: string) returns (k: nat)
    requires segs != [] && Gapped(segs, anchored, v)
    ensures OccursAt(segs[0], v, k) && Gapped(segs[1..], anchored, v[k..][|segs[0]|..])
  {
    k :| OccursAt(segs[0], v, k) && Gapped(segs[1..], anchored, v[k..][|segs[0]|..]);
  }

  /** A longer gap in front never hurts, as long as something may float. */
  lemma WidenGap(segs: seq<string>, anchored: bool, v: string, j: nat)
    requires j <= |v|
    requires segs != [] || !anchored
    requires Gapped(segs, anchored, v[j..])
    ensures Gapped(segs, anchored, v)
  {
    if segs != [] {
      var k := GapWitness(segs, anchored, v[j..]);
      assert v[j..][k..] == v[j + k..];
      assert OccursAt(segs[0], v, j + k);
    }
  }

  /** Exchange argument: the leftmost occurrence of a floating segment is as good as any other. */
  lemma LeftmostSuffices(segs: seq<string>, anchored: bool, v: string)
    requires segs != []
    requires |segs| > 1 || !anchored
    ensures var k := Index(v, segs[0]);
            Gapped(segs, anchored, v) <==> k >= 0 && Gapped(segs[1..], anchored, v[k..][|segs[0]|..])
  {
    if Gapped(segs, anchored, v) {
      var j := GapWitness(segs, anchored, v);
      LeftmostNoWorse(segs, anchored, v, j);
    }
  }

  lemma LeftmostNoWorse(segs: seq<string>, anchored: bool, v: string, j: nat)
    requires segs != [] && (|segs| > 1 || !anchored)
    requires OccursAt(segs[0], v, j) && Gapped(segs[1..], anchored, v[j..][|segs[0]|..])
    ensures var k := Index(v, segs[0]);
            0 <= k <= j && Gapped(segs[1..], anchored, v[k..][|segs[0]|..])
  {
    var k := Index(v, segs[0]);
    var tail := v[k..][|segs[0]|..];
    assert tail[j - k..] == v[j..][|segs[0]|..];
    WidenGap(segs[1..], anchored, tail, j - k);
  }

  /** The last segment of an unstarred tail sits at the very end. */
  lemma LastAnchored(seg: string, v: string)
    ensures Gapped([seg], true, v) <==> HasSuffix(v, seg)
  {
    if Gapped([seg], true, v) {
      var k := GapWitness([seg], true, v);
      assert v[k..] == seg;
    }
    if HasSuffix(v, seg) {
      var k := |v| - |seg|;
      assert v[k..][|seg|..] == [];
      assert OccursAt([seg][0], v, k);
      assert Gapped([seg][1..], true, v[k..][|seg|..]);
    }
  }

  // ----- from patterns to segments -----

  function Literal(p: string): (lit: string)
    ensures lit <= p && STAR !in lit
    ensures |lit| < |p| ==> p[|lit|] == STAR
  {
    if p == [] || p[0] == STAR then [] else [p[0]] + Literal(p[1..])
  }

  function Segments(p: string): seq<string> { NonEmpty(Split(p)) }

  ghost predicate Anchored(p: string) { p != [] && p[|p| - 1] != STAR }

  lemma {:induction false} MatchesLiteral(p: string, v: string)
    ensures var n := |Literal(p)|;
            Matches(p, v) <==> Literal(p) <= v && Matches(p[n..], v[n..])
  {
    if p != [] && p[0] != STAR {
      var n := |Literal(p)|;
      if v != [] && v[0] == p[0] {
        MatchesLiteral(p[1..], v[1..]);
        assert p[1..][n - 1..] == p[n..];
        if Literal(p[1..]) <= v[1..] {
          assert v[1..][n - 1..] == v[n..];
        }
        assert Literal(p) <= v <==> Literal(p[1..]) <= v[1..];
      }
    } else {
      assert p[0..] == p && v[0..] == v;
    }
  }

  lemma {:induction false} SplitLiteral(p: string)
    ensures var rest := p[|Literal(p)|..];
            Split(p) == if rest == [] then [Literal(p)] else [Literal(p)] + Split(rest[1..])
  {
    if p != [] && p[0] != STAR {
      SplitLiteral(p[1..]);
      assert p[1..][|Literal(p[1..])|..] == p[|Literal(p)|..];
    }
  }

  lemma NonEmptyCons(first: string, rest: seq<string>)
    ensures NonEmpty([first] + rest) == (if first != [] then [first] else []) + NonEmpty(rest)
  {
    assert ([first] + rest)[1..] == rest;
  }

  lemma SplitStarred(p: string)
    requires p != [] && p[0] == STAR
    ensures Split(p) == [[]] + Split(p[1..]) && Segments(p) == Segments(p[1..])
  {
    NonEmptyCons([], Split(p[1..]));
  }

  lemma NoSegments()
    ensures Segments([]) == []
  {
    NonEmptyCons([], []);
    assert [[]] + [] == Split([]);
  }

  lemma LiteralIsFirstSegment(p: string)
    requires p != [] && p[0] != STAR
    ensures Literal(p) != []
    ensures Segments(p) == [Literal(p)] + Segments(p[|Literal(p)|..])
  {
    hide Split, NonEmpty;
    SplitLiteral(p);
    var lit, rest := Literal(p), p[|Literal(p)|..];
    if rest == [] {
      NonEmptyCons(lit, []);
      NoSegments();
      assert [lit] + [] == [lit] && NonEmpty([]) == [] by { NonEmptyOfNothing(); }
    } else {
      SplitStarred(rest);
      NonEmptyCons(lit, Split(rest[1..]));
    }
  }

  lemma NonEmptyOfNothing()
    ensures NonEmpty([]) == []
  {
  }

  /** A pattern that opens with '*' is its segments with gaps in front. */
  lemma {:induction false} StarredIsGapped(p: string, v: string)
    requires p != [] && p[0] == STAR
    ensures Matches(p, v) <==> Gapped(Segments(p), Anchored(p), v)
    ensures Segments(p) == [] ==> !Anchored(p)
    decreases |p|
  {
    var q := p[1..];
    if q == [] {
      assert Matches(q, v[|v|..]);
      var split := Split(p);
      assert Split(q) == [[]] && split[1..] == [[]] && NonEmpty(split[1..]) == [];
    } else if q[0] == STAR {
      StarThenStar(p, v);
    } else {
      StarThenLiteral(p, v);
    }
  }

  lemma {:induction false} StarThenStar(p: string, v: string)
    requires |p| > 1 && p[0] == STAR && p[1] == STAR
    ensures Matches(p, v) <==> Gapped(Segments(p), Anchored(p), v)
    ensures Segments(p) == [] ==> !Anchored(p)
    decreases |p|, 0
  {
    var q := p[1..];
    assert Segments(p) == Segments(q) by {
      SplitStarred(p);
    }
    StarredIsGapped(q, v);
    if Matches(p, v) {
      var k :| 0 <= k <= |v| && Matches(q, v[k..]);
      StarredIsGapped(q, v[k..]);
      WidenGap(Segments(q), Anchored(q), v, k);
    }
    if Gapped(Segments(p), Anchored(p), v) {
      assert v[0..] == v;
      assert Matches(q, v[0..]);
    }
  }

  lemma {:induction false} StarThenLiteral(p: string, v: string)
    requires |p| > 1 && p[0] == STAR && p[1] != STAR
    ensures Matches(p, v) <==> Gapped(Segments(p), Anchored(p), v)
    ensures Segments(p) != []
    decreases |p|, 0
  {
    var q := p[1..];
    var lit, rest := Literal(q), q[|Literal(q)|..];
    LiteralIsFirstSegment(q);
    assert Segments(p) == Segments(q) by {
      SplitStarred(p);
    }
    var segs, anchored := Segments(p), Anchored(p);
    assert segs[0] == lit && segs[1..] == Segments(rest);
    forall k | 0 <= k <= |v|
      ensures Matches(q, v[k..]) <==> OccursAt(lit, v, k) && Gapped(segs[1..], anchored, v[k..][|lit|..])
    {
      MatchesLiteral(q, v[k..]);
      if lit <= v[k..] {
        RestIsGapped(q, rest, anchored, v[k..][|lit|..]);
      }
    }
    if Gapped(segs, anchored, v) {
      var k := GapWitness(segs, anchored, v);
      assert Matches(q, v[k..]);
    }
  }

  /** What follows a literal is empty or opens with '*'. */
  lemma {:induction false} RestIsGapped(q: string, rest: string, anchored: bool, w: string)
    requires q != [] && q[0] != STAR && rest == q[|Literal(q)|..] && anchored == Anchored(q)
    ensures Matches(rest, w) <==> Gapped(Segments(rest), anchored, w)
    decreases |q|
  {
    AfterLiteral(q, rest);
    if rest == [] {
      NothingLeft(w);
    } else {
      hide Matches, Gapped, Segments, Literal;
      StarredIsGapped(rest, w);
    }
  }

  lemma AfterLiteral(q: string, rest: string)
    requires q != [] && rest == q[|Literal(q)|..]
    ensures if rest == [] then Anchored(q) else rest[0] == STAR && Anchored(rest) == Anchored(q)
  {
    if rest == [] {
      assert q == Literal(q);
      assert q[|q| - 1] in Literal(q);
    } else {
      assert rest[|rest| - 1] == q[|q| - 1];
    }
  }

  lemma NothingLeft(w: string)
    ensures Matches([], w) <==> Gapped(Segments([]), true, w)
  {
    NoSegments();
  }

  lemma {:induction false} NoStarIsEquality(p: string, v: string)
    requires STAR !in p
    ensures Matches(p, v) <==> p == v
  {
    if p != [] && v != [] {
      NoStarIsEquality(p[1..], v[1..]);
      assert p == [p[0]] + p[1..] && v == [v[0]] + v[1..];
    }
  }

  // ----- the greedy matcher -----

  /** Greedy walk over the segments; it decides the declarative meaning of every pattern. */
  method GlobMatch(pattern: string, value: string) returns (matched: bool)
    ensures matched <==> Matches(pattern, value)
  {
    if pattern == "*" {
      assert Matches(pattern[1..], value[|value|..]);
      return true;
    }
    if STAR !in pattern {
      NoStarIsEquality(pattern, value);
      return pattern == value;
    }
    var segments := SplitGlob(pattern);
    SegmentsOf(pattern, value);

    var pos := 0;
    for i := 0 to |segments|
      invariant 0 <= pos <= |value|
      invariant i == 0 ==> pos == 0
      invariant Remains(pattern, value, segments, i, pos)
    {
      var seg := segments[i];
      if i == 0 && pattern[0] != STAR {
        if !(seg <= value) {
          return false;
        }
        pos := |seg|;
        continue;
      }
      var remaining := value[pos..];
      GreedyStep(pattern, value, segments, i, pos);
      if i == |segments| - 1 && pattern[|pattern| - 1] != STAR {
        return HasSuffix(remaining, seg);
      }
      var idx := Index(remaining, seg);
      if idx < 0 {
        return false;
      }
      pos := pos + idx + |seg|;
    }
    return true;
  }

  /** Loop state of the walk: whether the pattern matches is decided by what is left of both sides. */
  ghost predicate Remains(pattern: string, value: string, segments: seq<string>, i: nat, pos: nat)
    requires pattern != [] && i <= |segments| && pos <= |value|
  {
    && (i == |segments| || (|segments| == 1 && pattern[0] != STAR) ==> !Anchored(pattern))
    && if i == 0 && pattern[0] != STAR then
         && segments != []
         && (Matches(pattern, value) <==>
             segments[0] <= value && Gapped(segments[1..], Anchored(pattern), value[|segments[0]|..]))
       else
         Matches(pattern, value) <==> Gapped(segments[i..], Anchored(pattern), value[pos..])
  }

  lemma GreedyStep(pattern: string, value: string, segments: seq<string>, i: nat, pos: nat)
    requires pattern != [] && i < |segments| && pos <= |value|
    requires i == 0 ==> pattern[0] == STAR
    requires Remains(pattern, value, segments, i, pos)
    ensures if i == |segments| - 1 && Anchored(pattern) then
              Matches(pattern, value) <==> HasSuffix(value[pos..], segments[i])
            else
              var idx := Index(value[pos..], segments[i]);
              if idx < 0 then !Matches(pattern, value)
              else Remains(pattern, value, segments, i + 1, pos + idx + |segments[i]|)
  {
    hide Matches, Gapped, Remains, HasSuffix, Anchored;
    var remaining, left := value[pos..], segments[i..];
    WhatRemains(pattern, value, segments, i, pos);
    assert left[0] == segments[i] && left[1..] == segments[i + 1..];
    if i == |segments| - 1 && Anchored(pattern) {
      assert left == [segments[i]];
      LastAnchored(segments[i], remaining);
    } else {
      LeftmostSuffices(left, Anchored(pattern), remaining);
      var idx := Index(remaining, segments[i]);
      if idx >= 0 {
        var next := pos + idx + |segments[i]|;
        Beyond(value, pos, idx, segments[i]);
        WhatRemains(pattern, value, segments, i + 1, next);
      }
    }
  }

  lemma WhatRemains(pattern: string, value: string, segments: seq<string>, i: nat, pos: nat)
    requires pattern != [] && i <= |segments| && pos <= |value|
    requires i == 0 ==> pattern[0] == STAR
    ensures Remains(pattern, value, segments, i, pos) <==>
              && (i == |segments| || (|segments| == 1 && pattern[0] != STAR) ==> !Anchored(pattern))
              && (Matches(pattern, value) <==> Gapped(segments[i..], Anchored(pattern), value[pos..]))
  {
    hide Matches, Gapped, Anchored;
  }

  lemma Beyond(value: string, pos: nat, idx: nat, seg: string)
    requires pos <= |value| && OccursAt(seg, value[pos..], idx)
    ensures pos + idx + |seg| <= |value|
    ensures value[pos..][idx..][|seg|..] == value[pos + idx + |seg|..]
  {
  }

  lemma SegmentsOf(pattern: string, value: string)
    requires STAR in pattern
    ensures Remains(pattern, value, Segments(pattern), 0, 0)
  {
    if pattern[0] == STAR {
      StarredIsGapped(pattern, value);
    } else {
      var rest := pattern[|Literal(pattern)|..];
      LiteralIsFirstSegment(pattern);
      MatchesLiteral(pattern, value);
      assert rest != [] by {
        assert pattern == Literal(pattern) + rest;
      }
      if Literal(pattern) <= value {
        RestIsGapped(pattern, rest, Anchored(pattern), value[|Literal(pattern)|..]);
      }
      StarredIsGapped(rest, []);
    }
  }

  method GlobMatchAny(patterns: seq<string>, value: string) returns (matched: bool)
    ensures matched <==> exists p :: p in patterns && Matches(p, value)
  {
    for i := 0 to |patterns|
      invariant forall p :: p in patterns[..i] ==> !Matches(p, value)
    {
      var m := GlobMatch(patterns[i], value);
      if m {
        return true;
      }
    }
    return false;
  }
}
