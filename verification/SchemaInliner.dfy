/** Inlining of component references into one finite schema (cmd/gen-control-schema/main.go). */
module SchemaInliner {
  import opened Json

  const REF := "$ref"
  const COMPONENTS := "#/components/schemas/"

  type Schemas = map<string, Value>

  datatype Failure = NotAString(found: Value) | Unresolved(name: string) | Circular(name: string)

  // ----- what a schema says -----

  /** The component a "$ref" value names, if it is a component reference at all. */
  predicate IsComponentRef(v: Value) {
    v.Str? && COMPONENTS <= v.s
  }

  function RefName(v: Value): string
    requires IsComponentRef(v)
  {
    v.s[|COMPONENTS|..]
  }

  predicate IsRefNode(v: Value) {
    v.Obj? && REF in v.fields && IsComponentRef(v.fields[REF])
  }

  function NodeName(v: Value): string
    requires IsRefNode(v)
  {
    RefName(v.fields[REF])
  }

  /**
   * The finite value a schema stands for once every component reference is replaced by its target;
   * `onStack` are the components being unfolded. Siblings of a component reference do not contribute.
   */
  ghost function Unfold(v: Value, schemas: Schemas, onStack: set<string>): Option<Value>
    decreases schemas.Keys - onStack, v
  {
    match v
    case Obj(fields) =>
      if IsRefNode(v) then
        var name := NodeName(v);
        if name !in schemas || name in onStack then None
        else Unfold(schemas[name], schemas, onStack + {name})
      else if REF in fields && !fields[REF].Str? then None
      else if forall k :: k in fields ==> Unfold(fields[k], schemas, onStack).Some? then
        Some(Obj(map k | k in fields :: Unfold(fields[k], schemas, onStack).value))
      else None
    case Arr(items) =>
      if forall i :: 0 <= i < |items| ==> Unfold(items[i], schemas, onStack).Some? then
        Some(Arr(seq(|items|, i requires 0 <= i < |items| => Unfold(items[i], schemas, onStack).value)))
      else None
    case _ => Some(v)
  }

  /** Every failure some visiting order of the fields can report. */
  ghost predicate CanFail(v: Value, schemas: Schemas, onStack: set<string>, e: Failure)
    decreases schemas.Keys - onStack, v
  {
    match v
    case Obj(fields) =>
      || (REF in fields && !fields[REF].Str? && e == NotAString(fields[REF]))
      || (IsRefNode(v) &&
          var name := NodeName(v);
          if name !in schemas then e == Unresolved(name)
          else if name in onStack then e == Circular(name)
          else CanFail(schemas[name], schemas, onStack + {name}, e))
      || exists k :: k in fields && k != REF && CanFail(fields[k], schemas, onStack, e)
    case Arr(items) =>
      exists i :: 0 <= i < |items| && CanFail(items[i], schemas, onStack, e)
        && forall j :: 0 <= j < i ==> Unfold(items[j], schemas, onStack).Some?
    case _ => false
  }

  lemma UnfoldObj(v: Value, schemas: Schemas, onStack: set<string>, out: map<string, Value>)
    requires v.Obj? && !IsRefNode(v) && (REF in v.fields ==> v.fields[REF].Str?)
    requires out.Keys == v.fields.Keys
    requires forall k :: k in v.fields ==> Unfold(v.fields[k], schemas, onStack) == Some(out[k])
    ensures Unfold(v, schemas, onStack) == Some(Obj(out))
  {
    assert Unfold(v, schemas, onStack).Some?;
    assert Unfold(v, schemas, onStack).value.fields == out;
  }

  lemma UnfoldArr(v: Value, schemas: Schemas, onStack: set<string>, out: seq<Value>)
    requires v.Arr? && |out| == |v.items|
    requires forall i :: 0 <= i < |out| ==> Unfold(v.items[i], schemas, onStack) == Some(out[i])
    ensures Unfold(v, schemas, onStack) == Some(Arr(out))
  {
    assert Unfold(v, schemas, onStack).Some?;
    assert Unfold(v, schemas, onStack).value.items == out;
  }

  // ----- the inliner -----

  /** The cycle guard every nested call shares and must hand back as it found it. */
  class RefStack {
    var names: set<string>

    constructor ()
      ensures names == {}
    {
      names := {};
    }
  }

  /** What one call may answer, whatever order the fields were visited in. */
  ghost predicate Justified(v: Value, schemas: Schemas, onStack: set<string>, r: Result<Value, Failure>) {
    match r
    case Ok(resolved) => Unfold(v, schemas, onStack) == Some(resolved)
    case Err(e) => CanFail(v, schemas, onStack, e)
  }

  /** `v` is an object whose "$ref" is that text. */
  ghost predicate RefersTo(v: Value, text: string) {
    v.Obj? && "$ref" in v.fields && v.fields["$ref"] == Str(text)
  }

  method Deref(src: Value, schemas: Schemas) returns (r: Result<Value, Failure>)
    ensures Justified(src, schemas, {}, r)
    ensures forall n :: RefersTo(src, "#/components/schemas/" + n) && r.Ok? ==>
              n in schemas && Unfold(schemas[n], schemas, {n}) == Some(r.value)
    ensures forall s :: RefersTo(src, s) && !("#/components/schemas/" <= s) && r.Ok? ==>
              r.value.Obj? && r.value.fields.Keys == src.fields.Keys && r.value.fields["$ref"] == Str(s)
    ensures r.Ok? ==> Inlinable(src, schemas, false)
    ensures r.Err? ==> !Inlinable(src, schemas, true)
    ensures SiblingFree(src, schemas) ==> (r.Ok? <==> Inlinable(src, schemas, false))
  {
    hide Inlinable, Unfold, CanFail;
    var stack := new RefStack();
    r := DerefImpl(src, schemas, stack);
    AsWritten(src, schemas);
    OrderShows(src, schemas);
    if SiblingFree(src, schemas) && r.Err? {
      FailureIsFinal(src, schemas, {}, r.error);
    }
  }

  method DerefImpl(src: Value, schemas: Schemas, stack: RefStack) returns (r: Result<Value, Failure>)
    modifies stack
    ensures stack.names == old(stack.names)
    ensures Justified(src, schemas, old(stack.names), r)
    decreases schemas.Keys - stack.names, src, 1
  {
    match src
    case Obj(fields) => r := DerefMap(src, schemas, stack);
    case Arr(items) => r := DerefSlice(src, schemas, stack);
    case _ => r := Ok(src);
  }

  method DerefMap(src: Value, schemas: Schemas, stack: RefStack) returns (r: Result<Value, Failure>)
    requires src.Obj?
    modifies stack
    ensures stack.names == old(stack.names)
    ensures Justified(src, schemas, old(stack.names), r)
    decreases schemas.Keys - stack.names, src, 0
  {
    var fields := src.fields;
    ghost var onStack := stack.names;
    var out: map<string, Value> := map[];
    var todo := fields.Keys;
    while todo != {}
      invariant todo <= fields.Keys
      invariant stack.names == onStack
      invariant out.Keys == fields.Keys - todo
      invariant IsRefNode(src) ==> REF in todo
      invariant forall k :: k in out ==> Unfold(fields[k], schemas, onStack) == Some(out[k])
      invariant REF in out ==> fields[REF].Str?
      decreases |todo|
    {
      var k :| k in todo;
      var val := fields[k];
      if k == REF {
        if !val.Str? {
          return Err(NotAString(val));
        }
        if IsComponentRef(val) {
          r := InlineRef(val.s, schemas, stack);
          return;
        }
        out := out[k := val];
      } else {
        var child := DerefImpl(val, schemas, stack);
        if child.Err? {
          return child;
        }
        out := out[k := child.value];
      }
      todo := todo - {k};
    }
    UnfoldObj(src, schemas, onStack, out);
    return Ok(Obj(out));
  }

  method DerefSlice(src: Value, schemas: Schemas, stack: RefStack) returns (r: Result<Value, Failure>)
    requires src.Arr?
    modifies stack
    ensures stack.names == old(stack.names)
    ensures Justified(src, schemas, old(stack.names), r)
    decreases schemas.Keys - stack.names, src, 0
  {
    ghost var onStack := stack.names;
    var out := [];
    for i := 0 to |src.items|
      invariant stack.names == onStack
      invariant |out| == i
      invariant forall j :: 0 <= j < i ==> Unfold(src.items[j], schemas, onStack) == Some(out[j])
    {
      var child := DerefImpl(src.items[i], schemas, stack);
      if child.Err? {
        return child;
      }
      out := out + [child.value];
    }
    UnfoldArr(src, schemas, onStack, out);
    return Ok(Arr(out));
  }

  method InlineRef(ref: string, schemas: Schemas, stack: RefStack) returns (r: Result<Value, Failure>)
    requires IsComponentRef(Str(ref))
    modifies stack
    ensures stack.names == old(stack.names)
    ensures var name := RefName(Str(ref));
            if name !in schemas then r == Err(Unresolved(name))
            else if name in old(stack.names) then r == Err(Circular(name))
            else Justified(schemas[name], schemas, old(stack.names) + {name}, r)
    decreases schemas.Keys - stack.names, Str(ref), 0
  {
    var name := RefName(Str(ref));
    if name !in schemas {
      return Err(Unresolved(name));
    }
    if name in stack.names {
      return Err(Circular(name));
    }
    stack.names := stack.names + {name};
    r := DerefImpl(schemas[name], schemas, stack);
    stack.names := stack.names - {name};
  }

  // ----- when inlining succeeds -----

  /** No component reference carries sibling fields. */
  ghost predicate NoSiblings(v: Value) {
    match v
    case Obj(fields) => (IsRefNode(v) ==> fields.Keys == {REF}) && forall k :: k in fields ==> NoSiblings(fields[k])
    case Arr(items) => forall i :: 0 <= i < |items| ==> NoSiblings(items[i])
    case _ => true
  }

  ghost predicate SiblingFree(src: Value, schemas: Schemas) {
    NoSiblings(src) && forall n :: n in schemas ==> NoSiblings(schemas[n])
  }

  /** `v` itself, before any reference is followed, refers to component `n`. */
  ghost predicate Mentions(v: Value, n: string, siblings: bool) {
    match v
    case Obj(fields) =>
      || (IsRefNode(v) && n == NodeName(v))
      || ((siblings || !IsRefNode(v)) && exists k :: k in fields && Mentions(fields[k], n, siblings))
    case Arr(items) => exists i :: 0 <= i < |items| && Mentions(items[i], n, siblings)
    case _ => false
  }

  /** `v` itself holds a "$ref" that is not a string. */
  ghost predicate Malformed(v: Value, siblings: bool) {
    match v
    case Obj(fields) =>
      || (REF in fields && !fields[REF].Str?)
      || ((siblings || !IsRefNode(v)) && exists k :: k in fields && Malformed(fields[k], siblings))
    case Arr(items) => exists i :: 0 <= i < |items| && Malformed(items[i], siblings)
    case _ => false
  }

  /** `p` is a walk along references that starts in `v`. */
  ghost predicate Walk(v: Value, schemas: Schemas, p: seq<string>, siblings: bool)
    decreases |p|
  {
    && p != []
    && Mentions(v, p[0], siblings)
    && (|p| > 1 ==> p[0] in schemas && Walk(schemas[p[0]], schemas, p[1..], siblings))
  }

  ghost predicate Distinct(p: seq<string>) {
    forall i, j :: 0 <= i < j < |p| ==> p[i] != p[j]
  }

  ghost predicate Reaches(schemas: Schemas, p: seq<string>, siblings: bool)
    requires p != []
  {
    var n := p[|p| - 1];
    n in schemas && !Malformed(schemas[n], siblings) && Distinct(p)
  }

  /**
   * Every reachable "$ref" is a string, every reachable component exists, and no walk meets a component twice;
   * with `siblings`, walks also enter the fields beside a component reference.
   */
  ghost predicate Inlinable(src: Value, schemas: Schemas, siblings: bool) {
    !Malformed(src, siblings) && forall p :: Walk(src, schemas, p, siblings) ==> Reaches(schemas, p, siblings)
  }

  ghost predicate Avoids(p: seq<string>, onStack: set<string>) {
    forall n :: n in p ==> n !in onStack
  }

  ghost predicate WalksOk(v: Value, schemas: Schemas, onStack: set<string>, siblings: bool) {
    && !Malformed(v, siblings)
    && forall p :: Walk(v, schemas, p, siblings) ==> Reaches(schemas, p, siblings) && Avoids(p, onStack)
  }

  lemma NothingOnStack(v: Value, schemas: Schemas, siblings: bool)
    ensures WalksOk(v, schemas, {}, siblings) <==> Inlinable(v, schemas, siblings)
  {
  }

  /** Inlining has a result, in some visiting order, exactly when every walk is sound and acyclic. */
  lemma {:induction false} UnfoldIffWalks(v: Value, schemas: Schemas, onStack: set<string>)
    ensures Unfold(v, schemas, onStack).Some? <==> WalksOk(v, schemas, onStack, false)
    decreases schemas.Keys - onStack, v
  {
    hide WalksOk;
    match v
    case Obj(fields) =>
      ObjWalks(v, schemas, onStack, false);
      if IsRefNode(v) {
        var name := NodeName(v);
        if name in schemas && name !in onStack {
          UnfoldIffWalks(schemas[name], schemas, onStack + {name});
        }
      } else {
        forall k | k in fields
          ensures Unfold(fields[k], schemas, onStack).Some? <==> WalksOk(fields[k], schemas, onStack, false)
        {
          UnfoldIffWalks(fields[k], schemas, onStack);
        }
      }
    case Arr(items) =>
      ArrWalks(v, schemas, onStack, false);
      forall i | 0 <= i < |items|
        ensures Unfold(items[i], schemas, onStack).Some? <==> WalksOk(items[i], schemas, onStack, false)
      {
        UnfoldIffWalks(items[i], schemas, onStack);
      }
    case _ => LeafWalks(v, schemas, onStack, false);
  }

  ghost predicate SomeOrderFails(v: Value, schemas: Schemas, onStack: set<string>) {
    exists e :: CanFail(v, schemas, onStack, e)
  }

  /** No visiting order fails exactly when every walk, those through siblings included, is sound and acyclic. */
  lemma {:induction false} FailureIffWalks(v: Value, schemas: Schemas, onStack: set<string>)
    ensures SomeOrderFails(v, schemas, onStack) <==> !WalksOk(v, schemas, onStack, true)
    decreases schemas.Keys - onStack, v
  {
    hide WalksOk, SomeOrderFails, CanFail;
    match v
    case Obj(fields) =>
      ObjWalks(v, schemas, onStack, true);
      ObjFails(v, schemas, onStack);
      if IsRefNode(v) && NodeName(v) in schemas && NodeName(v) !in onStack {
        FailureIffWalks(schemas[NodeName(v)], schemas, onStack + {NodeName(v)});
      }
      forall k | k in fields
        ensures SomeOrderFails(fields[k], schemas, onStack) <==> !WalksOk(fields[k], schemas, onStack, true)
      {
        FailureIffWalks(fields[k], schemas, onStack);
      }
    case Arr(items) =>
      ArrWalks(v, schemas, onStack, true);
      ArrFails(v, schemas, onStack);
      forall i | 0 <= i < |items|
        ensures SomeOrderFails(items[i], schemas, onStack) <==> !WalksOk(items[i], schemas, onStack, true)
        ensures WalksOk(items[i], schemas, onStack, true) ==> Unfold(items[i], schemas, onStack).Some?
      {
        FailureIffWalks(items[i], schemas, onStack);
        UnfoldIffWalks(items[i], schemas, onStack);
        if WalksOk(items[i], schemas, onStack, true) {
          NoFailureMeansSuccess(items[i], schemas, onStack);
        }
      }
      if !WalksOk(v, schemas, onStack, true) {
        var i := 0;
        while WalksOk(items[i], schemas, onStack, true)
          invariant i < |items| && forall j :: 0 <= j < i ==> WalksOk(items[j], schemas, onStack, true)
          decreases |items| - i
        {
          i := i + 1;
        }
      }
    case _ =>
      LeafWalks(v, schemas, onStack, true);
      LeafFails(v, schemas, onStack);
  }

  ghost predicate TargetFails(v: Value, schemas: Schemas, onStack: set<string>) {
    IsRefNode(v) &&
    var name := NodeName(v);
    (name !in schemas || name in onStack || SomeOrderFails(schemas[name], schemas, onStack + {name}))
  }

  lemma ObjFails(v: Value, schemas: Schemas, onStack: set<string>)
    requires v.Obj?
    ensures SomeOrderFails(v, schemas, onStack) <==>
              || (REF in v.fields && !v.fields[REF].Str?)
              || TargetFails(v, schemas, onStack)
              || exists k :: k in v.fields && SomeOrderFails(v.fields[k], schemas, onStack)
  {
    var fields := v.fields;
    if REF in fields && !fields[REF].Str? {
      assert CanFail(v, schemas, onStack, NotAString(fields[REF]));
    }
    if TargetFails(v, schemas, onStack) {
      var name := NodeName(v);
      if name !in schemas {
        assert CanFail(v, schemas, onStack, Unresolved(name));
      } else if name in onStack {
        assert CanFail(v, schemas, onStack, Circular(name));
      } else {
        var e :| CanFail(schemas[name], schemas, onStack + {name}, e);
        assert CanFail(v, schemas, onStack, e);
      }
    }
    forall k | k in fields && SomeOrderFails(fields[k], schemas, onStack)
      ensures SomeOrderFails(v, schemas, onStack)
    {
      var e :| CanFail(fields[k], schemas, onStack, e);
      assert k != REF ==> CanFail(v, schemas, onStack, e);
    }
    if e :| CanFail(v, schemas, onStack, e) {
      assert IsRefNode(v) ==>
               var name := NodeName(v);
               name in schemas && CanFail(schemas[name], schemas, onStack + {name}, e) ==>
                 SomeOrderFails(schemas[name], schemas, onStack + {name});
      assert forall k :: k in fields && CanFail(fields[k], schemas, onStack, e) ==>
          SomeOrderFails(fields[k], schemas, onStack);
    }
  }

  lemma ArrFails(v: Value, schemas: Schemas, onStack: set<string>)
    requires v.Arr?
    ensures SomeOrderFails(v, schemas, onStack) <==>
              exists i :: 0 <= i < |v.items| && SomeOrderFails(v.items[i], schemas, onStack)
                && forall j :: 0 <= j < i ==> Unfold(v.items[j], schemas, onStack).Some?
  {
    forall i | 0 <= i < |v.items| && SomeOrderFails(v.items[i], schemas, onStack)
            && (forall j :: 0 <= j < i ==> Unfold(v.items[j], schemas, onStack).Some?)
      ensures SomeOrderFails(v, schemas, onStack)
    {
      var e :| CanFail(v.items[i], schemas, onStack, e);
      assert CanFail(v, schemas, onStack, e);
    }
    if e :| CanFail(v, schemas, onStack, e) {
      var i :| 0 <= i < |v.items| && CanFail(v.items[i], schemas, onStack, e)
        && forall j :: 0 <= j < i ==> Unfold(v.items[j], schemas, onStack).Some?;
      assert SomeOrderFails(v.items[i], schemas, onStack);
    }
  }

  lemma LeafFails(v: Value, schemas: Schemas, onStack: set<string>)
    requires !v.Obj? && !v.Arr?
    ensures !SomeOrderFails(v, schemas, onStack)
  {
  }

  /** The walks of an object are those of its target and those of the fields that are entered. */
  lemma ObjWalks(v: Value, schemas: Schemas, onStack: set<string>, siblings: bool)
    requires v.Obj?
    ensures WalksOk(v, schemas, onStack, siblings) <==>
              && (REF in v.fields ==> v.fields[REF].Str?)
              && (IsRefNode(v) ==> TargetWalksOk(NodeName(v), schemas, onStack, siblings))
              && (siblings || !IsRefNode(v) ==>
                    forall k :: k in v.fields ==> WalksOk(v.fields[k], schemas, onStack, siblings))
  {
    hide Reaches, Avoids;
    var fields := v.fields;
    forall p
      ensures Walk(v, schemas, p, siblings) <==>
                || (IsRefNode(v) && TargetWalk(NodeName(v), schemas, p, siblings))
                || ((siblings || !IsRefNode(v)) && exists k :: k in fields && Walk(fields[k], schemas, p, siblings))
    {
    }
    if IsRefNode(v) {
      TargetWalks(NodeName(v), schemas, onStack, siblings);
    }
  }

  /** `p` goes through `name` and on from there. */
  ghost predicate TargetWalk(name: string, schemas: Schemas, p: seq<string>, siblings: bool) {
    p != [] && p[0] == name && (|p| > 1 ==> name in schemas && Walk(schemas[name], schemas, p[1..], siblings))
  }

  ghost predicate TargetWalksOk(name: string, schemas: Schemas, onStack: set<string>, siblings: bool) {
    name in schemas && name !in onStack && WalksOk(schemas[name], schemas, onStack + {name}, siblings)
  }

  lemma LongerWalk(name: string, schemas: Schemas, onStack: set<string>, q: seq<string>, siblings: bool)
    requires name in schemas && Walk(schemas[name], schemas, q, siblings)
    requires TargetWalk(name, schemas, [name] + q, siblings) ==>
               Reaches(schemas, [name] + q, siblings) && Avoids([name] + q, onStack)
    ensures Reaches(schemas, q, siblings) && Avoids(q, onStack + {name})
  {
    var p := [name] + q;
    assert p[1..] == q;
    assert TargetWalk(name, schemas, p, siblings);
    assert forall i :: 0 <= i < |q| ==> q[i] == p[i + 1];
    assert forall n :: n in q ==> n in p;
  }

  lemma TargetWalks(name: string, schemas: Schemas, onStack: set<string>, siblings: bool)
    ensures TargetWalksOk(name, schemas, onStack, siblings) <==>
              forall p :: TargetWalk(name, schemas, p, siblings) ==> Reaches(schemas, p, siblings) && Avoids(p, onStack)
  {
    if forall p :: TargetWalk(name, schemas, p, siblings) ==> Reaches(schemas, p, siblings) && Avoids(p, onStack) {
      assert TargetWalk(name, schemas, [name], siblings);
      assert name in [name];
      forall q | Walk(schemas[name], schemas, q, siblings)
        ensures Reaches(schemas, q, siblings) && Avoids(q, onStack + {name})
      {
        LongerWalk(name, schemas, onStack, q, siblings);
      }
    }
    if TargetWalksOk(name, schemas, onStack, siblings) {
      forall p | TargetWalk(name, schemas, p, siblings)
        ensures Reaches(schemas, p, siblings) && Avoids(p, onStack)
      {
        if |p| > 1 {
          var q := p[1..];
          assert Walk(schemas[name], schemas, q, siblings);
          assert forall i :: 1 <= i < |p| ==> p[i] == q[i - 1] && p[i] in q;
        }
      }
    }
  }

  lemma ArrWalks(v: Value, schemas: Schemas, onStack: set<string>, siblings: bool)
    requires v.Arr?
    ensures WalksOk(v, schemas, onStack, siblings) <==>
              forall i :: 0 <= i < |v.items| ==> WalksOk(v.items[i], schemas, onStack, siblings)
  {
    hide Reaches, Avoids;
    forall p
      ensures Walk(v, schemas, p, siblings) <==>
                exists i :: 0 <= i < |v.items| && Walk(v.items[i], schemas, p, siblings)
    {
    }
  }

  lemma LeafWalks(v: Value, schemas: Schemas, onStack: set<string>, siblings: bool)
    requires !v.Obj? && !v.Arr?
    ensures WalksOk(v, schemas, onStack, siblings)
  {
  }

  /** Where no order fails there is a result. */
  lemma {:induction false} NoFailureMeansSuccess(v: Value, schemas: Schemas, onStack: set<string>)
    requires WalksOk(v, schemas, onStack, true)
    ensures WalksOk(v, schemas, onStack, false)
    decreases schemas.Keys - onStack, v
  {
    hide WalksOk;
    match v
    case Obj(fields) =>
      ObjWalks(v, schemas, onStack, true);
      ObjWalks(v, schemas, onStack, false);
      if IsRefNode(v) {
        NoFailureMeansSuccess(schemas[NodeName(v)], schemas, onStack + {NodeName(v)});
      }
      forall k | k in fields
        ensures WalksOk(fields[k], schemas, onStack, false)
      {
        NoFailureMeansSuccess(fields[k], schemas, onStack);
      }
    case Arr(items) =>
      ArrWalks(v, schemas, onStack, true);
      ArrWalks(v, schemas, onStack, false);
      forall i | 0 <= i < |items|
        ensures WalksOk(items[i], schemas, onStack, false)
      {
        NoFailureMeansSuccess(items[i], schemas, onStack);
      }
    case _ => LeafWalks(v, schemas, onStack, false);
  }

  /**
   * Some orders succeed and some fail exactly when all walks that skip siblings are sound and acyclic
   * while some walk that enters one is not.
   */
  lemma OrderShows(src: Value, schemas: Schemas)
    ensures Unfold(src, schemas, {}).Some? <==> Inlinable(src, schemas, false)
    ensures SomeOrderFails(src, schemas, {}) <==> !Inlinable(src, schemas, true)
    ensures Inlinable(src, schemas, true) ==> Inlinable(src, schemas, false)
  {
    hide WalksOk, Inlinable;
    UnfoldIffWalks(src, schemas, {});
    FailureIffWalks(src, schemas, {});
    NothingOnStack(src, schemas, false);
    NothingOnStack(src, schemas, true);
    if WalksOk(src, schemas, {}, true) {
      NoFailureMeansSuccess(src, schemas, {});
    }
  }

  /** Without siblings a reported failure means there is no result at all, so the order of fields is immaterial. */
  lemma {:induction false} FailureIsFinal(v: Value, schemas: Schemas, onStack: set<string>, e: Failure)
    requires SiblingFree(v, schemas)
    requires CanFail(v, schemas, onStack, e)
    ensures Unfold(v, schemas, onStack) == None
    decreases schemas.Keys - onStack, v
  {
    match v
    case Obj(fields) =>
      if IsRefNode(v) {
        var name := NodeName(v);
        if name in schemas && name !in onStack {
          FailureIsFinal(schemas[name], schemas, onStack + {name}, e);
        }
      } else if REF !in fields || fields[REF].Str? {
        var k :| k in fields && k != REF && CanFail(fields[k], schemas, onStack, e);
        FailureIsFinal(fields[k], schemas, onStack, e);
      }
    case Arr(items) =>
      var i :| 0 <= i < |items| && CanFail(items[i], schemas, onStack, e);
      FailureIsFinal(items[i], schemas, onStack, e);
  }

  /** With siblings the outcome depends on the visiting order: this schema can be inlined and can be rejected. */
  lemma SiblingsRace()
    ensures exists src, schemas, e ::
      Unfold(src, schemas, {}).Some? && CanFail(src, schemas, {}, e) && !SiblingFree(src, schemas)
  {
    var schemas := map["A" := Null];
    var bad := Obj(map[REF := Null]);
    var ref := Str(COMPONENTS + "A");
    var src := Obj(map[REF := ref, "x" := bad]);
    assert RefName(ref) == "A";
    assert Unfold(Null, schemas, {"A"}) == Some(Null);
    assert Unfold(src, schemas, {}) == Some(Null);
    assert CanFail(bad, schemas, {}, NotAString(Null));
    assert "x" in src.fields && src.fields["x"] == bad;
    assert CanFail(src, schemas, {}, NotAString(Null));
    assert "x" in src.fields.Keys && src.fields.Keys != {REF};
  }

  // ----- what the result is -----

  /** Unfolding under a smaller stack changes nothing once it succeeded. */
  lemma {:induction false} SmallerStack(v: Value, schemas: Schemas, onStack: set<string>, fewer: set<string>)
    requires fewer <= onStack
    requires Unfold(v, schemas, onStack).Some?
    ensures Unfold(v, schemas, fewer) == Unfold(v, schemas, onStack)
    decreases schemas.Keys - onStack, v
  {
    match v
    case Obj(fields) =>
      if IsRefNode(v) {
        var name := NodeName(v);
        SmallerStack(schemas[name], schemas, onStack + {name}, fewer + {name});
      } else {
        forall k | k in fields
          ensures Unfold(fields[k], schemas, fewer) == Unfold(fields[k], schemas, onStack)
        {
          SmallerStack(fields[k], schemas, onStack, fewer);
        }
        UnfoldObj(v, schemas, fewer, Unfold(v, schemas, onStack).value.fields);
      }
    case Arr(items) =>
      forall i | 0 <= i < |items|
        ensures Unfold(items[i], schemas, fewer) == Unfold(items[i], schemas, onStack)
      {
        SmallerStack(items[i], schemas, onStack, fewer);
      }
      UnfoldArr(v, schemas, fewer, Unfold(v, schemas, onStack).value.items);
    case _ =>
  }

  /** No component reference anywhere inside. */
  ghost predicate Resolved(v: Value) {
    match v
    case Obj(fields) => !IsRefNode(v) && forall k :: k in fields ==> Resolved(fields[k])
    case Arr(items) => forall i :: 0 <= i < |items| ==> Resolved(items[i])
    case _ => true
  }

  /** A result holds no component reference, and inlining it again, against any components, gives it back. */
  lemma {:induction false} ResultIsFixedPoint(v: Value, schemas: Schemas, onStack: set<string>, others: Schemas,
                                              stack': set<string>)
    requires Unfold(v, schemas, onStack).Some?
    ensures var r := Unfold(v, schemas, onStack).value;
            Resolved(r) && Unfold(r, others, stack') == Some(r)
    decreases schemas.Keys - onStack, v
  {
    var r := Unfold(v, schemas, onStack).value;
    match v
    case Obj(fields) =>
      if IsRefNode(v) {
        var name := NodeName(v);
        ResultIsFixedPoint(schemas[name], schemas, onStack + {name}, others, stack');
      } else {
        forall k | k in fields
          ensures Resolved(r.fields[k]) && Unfold(r.fields[k], others, stack') == Some(r.fields[k])
        {
          ResultIsFixedPoint(fields[k], schemas, onStack, others, stack');
        }
        assert REF in fields ==> r.fields[REF] == fields[REF];
        UnfoldObj(r, others, stack', r.fields);
      }
    case Arr(items) =>
      forall i | 0 <= i < |items|
        ensures Resolved(r.items[i]) && Unfold(r.items[i], others, stack') == Some(r.items[i])
      {
        ResultIsFixedPoint(items[i], schemas, onStack, others, stack');
      }
      UnfoldArr(r, others, stack', r.items);
    case _ =>
  }

  // ----- paths -----

  datatype Step = Field(key: string) | Element(index: nat)

  function Child(v: Value, step: Step): Option<Value> {
    match (v, step)
    case (Obj(fields), Field(k)) => if k in fields then Some(fields[k]) else None
    case (Arr(items), Element(i)) => if i < |items| then Some(items[i]) else None
    case _ => None
  }

  function Lookup(v: Value, path: seq<Step>): Option<Value> {
    if path == [] then Some(v)
    else match Child(v, path[0])
      case None => None
      case Some(c) => Lookup(c, path[1..])
  }

  /** Follows references until something that is not one. */
  function Follow(v: Value, schemas: Schemas, visited: set<string>): Option<Value>
    decreases schemas.Keys - visited
  {
    if !IsRefNode(v) then Some(v)
    else
      var name := NodeName(v);
      if name !in schemas || name in visited then None else Follow(schemas[name], schemas, visited + {name})
  }

  /** Looks a path up in the uninlined schemas, following a reference only when it is met. */
  function LazyLookup(v: Value, schemas: Schemas, path: seq<Step>): Option<Value>
    decreases |path|
  {
    match Follow(v, schemas, {})
    case None => None
    case Some(head) =>
      if path == [] then Some(head)
      else match Child(head, path[0])
        case None => None
        case Some(c) => LazyLookup(c, schemas, path[1..])
  }

  /** Two nodes that cannot be told apart without looking at their children. */
  ghost predicate SameHead(a: Value, b: Value) {
    match (a, b)
    case (Obj(f), Obj(g)) => f.Keys == g.Keys
    case (Arr(x), Arr(y)) => |x| == |y|
    case _ => a == b
  }

  lemma {:induction false} FollowUnfolds(v: Value, schemas: Schemas, onStack: set<string>)
    requires Unfold(v, schemas, onStack).Some?
    ensures var h := Follow(v, schemas, onStack);
            h.Some? && !IsRefNode(h.value) && Unfold(h.value, schemas, {}) == Unfold(v, schemas, onStack)
    decreases schemas.Keys - onStack
  {
    if IsRefNode(v) {
      var name := NodeName(v);
      FollowUnfolds(schemas[name], schemas, onStack + {name});
    } else {
      SmallerStack(v, schemas, onStack, {});
    }
  }

  /** On every path the inlined schema and the lazily followed one agree, node by node. */
  lemma {:induction false} LookupAgrees(v: Value, schemas: Schemas, path: seq<Step>)
    requires Unfold(v, schemas, {}).Some?
    ensures var eager, deferred := Lookup(Unfold(v, schemas, {}).value, path), LazyLookup(v, schemas, path);
            && (deferred.None? <==> eager.None?)
            && (deferred.Some? ==>
                  SameHead(eager.value, deferred.value) && Unfold(deferred.value, schemas, {}) == Some(eager.value))
    decreases |path|
  {
    FollowUnfolds(v, schemas, {});
    if path != [] {
      var head := Follow(v, schemas, {}).value;
      if Child(head, path[0]).Some? {
        LookupAgrees(Child(head, path[0]).value, schemas, path[1..]);
      }
    }
  }

  // ----- the guard after inlining -----

  predicate ContainsRef(v: Value) {
    match v
    case Obj(fields) => REF in fields || exists k :: k in fields && ContainsRef(fields[k])
    case Arr(items) => exists i :: 0 <= i < |items| && ContainsRef(items[i])
    case _ => false
  }

  ghost predicate IsForeignRef(found: Option<Value>) {
    found.Some? && found.value.Obj? && REF in found.value.fields
    && found.value.fields[REF].Str? && !IsComponentRef(found.value.fields[REF])
  }

  ghost predicate LeadsToForeignRef(r: Value) {
    exists path :: IsForeignRef(Lookup(r, path))
  }

  /** What the guard finds in a result is exactly a reachable reference to something that is not a component. */
  lemma GuardFindsForeignRefs(v: Value, schemas: Schemas, onStack: set<string>)
    requires Unfold(v, schemas, onStack).Some?
    ensures var r := Unfold(v, schemas, onStack).value;
            ContainsRef(r) <==> LeadsToForeignRef(r)
  {
    ResultIsFixedPoint(v, schemas, onStack, schemas, {});
    FoundByPath(Unfold(v, schemas, onStack).value, schemas);
  }

  lemma {:induction false} FoundByPath(r: Value, schemas: Schemas)
    requires Unfold(r, schemas, {}) == Some(r)
    requires Resolved(r)
    ensures ContainsRef(r) <==> LeadsToForeignRef(r)
  {
    match r
    case Obj(fields) =>
      forall k | k in fields
        ensures ContainsRef(fields[k]) <==> LeadsToForeignRef(Child(r, Field(k)).value)
      {
        assert Unfold(r, schemas, {}).value.fields[k] == Unfold(fields[k], schemas, {}).value;
        FoundByPath(fields[k], schemas);
      }
      LiftPaths(r);
    case Arr(items) =>
      forall i | 0 <= i < |items|
        ensures ContainsRef(items[i]) <==> LeadsToForeignRef(Child(r, Element(i)).value)
      {
        assert Unfold(r, schemas, {}).value.items[i] == Unfold(items[i], schemas, {}).value;
        FoundByPath(items[i], schemas);
      }
      LiftPaths(r);
    case _ =>
      LiftPaths(r);
  }

  lemma LiftPaths(r: Value)
    ensures LeadsToForeignRef(r)
       <==> IsForeignRef(Some(r)) || exists step :: Child(r, step).Some? && LeadsToForeignRef(Child(r, step).value)
  {
    if LeadsToForeignRef(r) {
      var path :| IsForeignRef(Lookup(r, path));
      if path != [] {
        assert IsForeignRef(Lookup(Child(r, path[0]).value, path[1..]));
      }
    }
    if IsForeignRef(Some(r)) {
      assert Lookup(r, []) == Some(r);
    }
    forall step | Child(r, step).Some? && LeadsToForeignRef(Child(r, step).value)
      ensures LeadsToForeignRef(r)
    {
      var path :| IsForeignRef(Lookup(Child(r, step).value, path));
      var longer := [step] + path;
      assert longer[0] == step && longer[1..] == path;
      assert Lookup(r, longer) == Lookup(Child(r, step).value, path);
    }
  }

  // ----- references as they are written -----

  lemma ComponentRefIs(n: string)
    ensures IsComponentRef(Str("#/components/schemas/" + n)) && RefName(Str("#/components/schemas/" + n)) == n
  {
  }

  /** A reference to component `n` stands for that component, whatever is written beside it, or for nothing. */
  lemma ComponentRefUnfolds(fields: map<string, Value>, n: string, schemas: Schemas, onStack: set<string>)
    requires "$ref" in fields && fields["$ref"] == Str("#/components/schemas/" + n)
    ensures Unfold(Obj(fields), schemas, onStack) ==
              if n in schemas && n !in onStack then Unfold(schemas[n], schemas, onStack + {n}) else None
  {
    ComponentRefIs(n);
  }

  /** A lone reference fails for the component that is missing, is being unfolded, or fails itself. */
  lemma ComponentRefFails(n: string, schemas: Schemas, onStack: set<string>, e: Failure)
    ensures CanFail(Obj(map["$ref" := Str("#/components/schemas/" + n)]), schemas, onStack, e) <==>
              if n !in schemas then e == Unresolved(n)
              else if n in onStack then e == Circular(n)
              else CanFail(schemas[n], schemas, onStack + {n}, e)
  {
    ComponentRefIs(n);
  }

  /** Any other text is kept, like every field beside it. */
  lemma OtherRefIsKept(fields: map<string, Value>, s: string, schemas: Schemas, onStack: set<string>)
    requires "$ref" in fields && fields["$ref"] == Str(s) && !("#/components/schemas/" <= s)
    ensures var r := Unfold(Obj(fields), schemas, onStack);
            && (r.Some? <==> forall k :: k in fields && k != "$ref" ==> Unfold(fields[k], schemas, onStack).Some?)
            && (r.Some? ==>
                  && r.value.Obj? && r.value.fields.Keys == fields.Keys && r.value.fields["$ref"] == Str(s)
                  && forall k :: k in fields ==> Unfold(fields[k], schemas, onStack) == Some(r.value.fields[k]))
  {
    assert !IsRefNode(Obj(fields));
    assert Unfold(Str(s), schemas, onStack) == Some(Str(s));
  }

  lemma RefMustBeText(fields: map<string, Value>, schemas: Schemas, onStack: set<string>)
    requires "$ref" in fields && !fields["$ref"].Str?
    ensures Unfold(Obj(fields), schemas, onStack) == None
    ensures CanFail(Obj(fields), schemas, onStack, NotAString(fields["$ref"]))
  {
  }

  ghost predicate NoRefs(v: Value) {
    match v
    case Obj(fields) => "$ref" !in fields && forall k :: k in fields ==> NoRefs(fields[k])
    case Arr(items) => forall i :: 0 <= i < |items| ==> NoRefs(items[i])
    case _ => true
  }

  /** What holds no "$ref" stands for itself, and only that passes the final guard. */
  lemma {:induction false} WithoutRefs(v: Value, schemas: Schemas, onStack: set<string>)
    ensures NoRefs(v) ==> Unfold(v, schemas, onStack) == Some(v)
    ensures NoRefs(v) <==> !ContainsRef(v)
    decreases v
  {
    match v
    case Obj(fields) =>
      forall k | k in fields
        ensures NoRefs(fields[k]) ==> Unfold(fields[k], schemas, onStack) == Some(fields[k])
        ensures NoRefs(fields[k]) <==> !ContainsRef(fields[k])
      {
        WithoutRefs(fields[k], schemas, onStack);
      }
      if NoRefs(v) {
        UnfoldObj(v, schemas, onStack, fields);
      }
    case Arr(items) =>
      forall i | 0 <= i < |items|
        ensures NoRefs(items[i]) ==> Unfold(items[i], schemas, onStack) == Some(items[i])
        ensures NoRefs(items[i]) <==> !ContainsRef(items[i])
      {
        WithoutRefs(items[i], schemas, onStack);
      }
      if NoRefs(v) {
        UnfoldArr(v, schemas, onStack, items);
      }
    case _ =>
  }

  /** What inlining a lone reference answers. */
  method DerefReference(n: string, schemas: Schemas) returns (r: Result<Value, Failure>)
    ensures n !in schemas ==> r == Err(Unresolved(n))
    ensures n in schemas && schemas[n] == Obj(map["$ref" := Str("#/components/schemas/" + n)]) ==> r == Err(Circular(n))
    ensures n in schemas && NoRefs(schemas[n]) ==> r == Ok(schemas[n])
    ensures n in schemas && r.Ok? ==> Unfold(schemas[n], schemas, {n}) == Some(r.value)
    ensures n in schemas && r.Err? ==> CanFail(schemas[n], schemas, {n}, r.error)
  {
    var reference := Obj(map["$ref" := Str("#/components/schemas/" + n)]);
    r := Deref(reference, schemas);
    ComponentRefUnfolds(reference.fields, n, schemas, {});
    assert {} + {n} == {n};
    forall e
      ensures CanFail(reference, schemas, {}, e) <==>
                if n !in schemas then e == Unresolved(n) else CanFail(schemas[n], schemas, {n}, e)
    {
      ComponentRefFails(n, schemas, {}, e);
    }
    if n in schemas {
      WithoutRefs(schemas[n], schemas, {n});
      NoFailureWithoutRefs(schemas[n], schemas, {n});
      if schemas[n] == reference {
        ComponentRefUnfolds(reference.fields, n, schemas, {n});
        forall e
          ensures CanFail(reference, schemas, {n}, e) <==> e == Circular(n)
        {
          ComponentRefFails(n, schemas, {n}, e);
        }
      }
    }
  }

  lemma {:induction false} NoFailureWithoutRefs(v: Value, schemas: Schemas, onStack: set<string>)
    ensures NoRefs(v) ==> forall e :: !CanFail(v, schemas, onStack, e)
    decreases v
  {
    match v
    case Obj(fields) =>
      forall k | k in fields
        ensures NoRefs(fields[k]) ==> forall e :: !CanFail(fields[k], schemas, onStack, e)
      {
        NoFailureWithoutRefs(fields[k], schemas, onStack);
      }
    case Arr(items) =>
      forall i | 0 <= i < |items|
        ensures NoRefs(items[i]) ==> forall e :: !CanFail(items[i], schemas, onStack, e)
      {
        NoFailureWithoutRefs(items[i], schemas, onStack);
      }
    case _ =>
  }

  lemma AsWritten(src: Value, schemas: Schemas)
    ensures forall n :: RefersTo(src, "#/components/schemas/" + n) ==>
              Unfold(src, schemas, {}) == if n in schemas then Unfold(schemas[n], schemas, {n}) else None
    ensures forall s :: RefersTo(src, s) && !("#/components/schemas/" <= s) ==>
              var r := Unfold(src, schemas, {});
              r.Some? ==> r.value.Obj? && r.value.fields.Keys == src.fields.Keys && r.value.fields["$ref"] == Str(s)
  {
    forall n | RefersTo(src, "#/components/schemas/" + n)
      ensures Unfold(src, schemas, {}) == if n in schemas then Unfold(schemas[n], schemas, {n}) else None
    {
      ComponentRefUnfolds(src.fields, n, schemas, {});
      assert {} + {n} == {n};
    }
    forall s | RefersTo(src, s) && !("#/components/schemas/" <= s)
      ensures var r := Unfold(src, schemas, {});
              r.Some? ==> r.value.Obj? && r.value.fields.Keys == src.fields.Keys && r.value.fields["$ref"] == Str(s)
    {
      OtherRefIsKept(src.fields, s, schemas, {});
    }
  }
}
