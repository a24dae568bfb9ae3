/** Per-namespace server state (internal/state/state.go). */
module StateStore {
  import opened Json

  type Store = map<string, map<string, Value>>

  function Lookup(st: Store, ns: string, key: string): Option<Value> {
    if ns in st && key in st[ns] then Some(st[ns][key]) else None
  }

  ghost predicate NoEmptyNamespace(st: Store) {
    forall ns :: ns in st ==> st[ns] != map[]
  }

  /** A store is determined by its lookups. */
  lemma SameLookups(a: Store, b: Store)
    requires NoEmptyNamespace(a) && NoEmptyNamespace(b)
    requires forall ns, key :: Lookup(a, ns, key) == Lookup(b, ns, key)
    ensures a == b
  {
    SameNamespaces(a, b);
    SameNamespaces(b, a);
  }

  lemma SameNamespaces(a: Store, b: Store)
    requires NoEmptyNamespace(a)
    requires forall ns, key :: Lookup(a, ns, key) == Lookup(b, ns, key)
    ensures forall ns :: ns in a ==> ns in b && a[ns] == b[ns]
  {
    forall ns | ns in a
      ensures ns in b && a[ns] == b[ns]
    {
      var key :| key in a[ns];
      assert Lookup(a, ns, key) == Lookup(b, ns, key);
      forall k
        ensures k in a[ns] <==> k in b[ns]
        ensures k in a[ns] ==> a[ns][k] == b[ns][k]
      {
        assert Lookup(a, ns, k) == Lookup(b, ns, k);
      }
    }
  }

  /** The numeric reading of a stored value that an increment builds on. */
  function Numeric(v: Value): Option<real> {
    if v.Number? && v.kind in {Float64, Int, Int64, Float32} then Some(v.n) else None
  }

  function Incremented(was: Option<Value>, delta: real): real {
    if was.Some? && Numeric(was.value).Some? then Numeric(was.value).value + delta else delta
  }

  class Manager {
    var state: Store

    ghost predicate Valid()
      reads this
    {
      NoEmptyNamespace(state)
    }

    constructor ()
      ensures Valid() && state == map[]
    {
      state := map[];
    }

    method Get(ns: string, key: string) returns (found: Option<Value>)
      ensures found == Lookup(state, ns, key)
    {
      if ns !in state || key !in state[ns] {
        return None;
      }
      return Some(state[ns][key]);
    }

    method Set(ns: string, key: string, value: Value)
      requires Valid()
      modifies this
      ensures Valid()
      ensures forall n, k :: Lookup(state, n, k) ==
                if n == ns && k == key then Some(value) else old(Lookup(state, n, k))
    {
      var entries := if ns in state then state[ns] else map[];
      entries := entries[key := value];
      assert key in entries;
      state := state[ns := entries];
    }

    method Increment(ns: string, key: string, delta: real) returns (newVal: real)
      requires Valid()
      modifies this
      ensures Valid()
      ensures newVal == Incremented(old(Lookup(state, ns, key)), delta)
      ensures forall n, k :: Lookup(state, n, k) ==
                if n == ns && k == key then Some(Number(Float64, newVal)) else old(Lookup(state, n, k))
    {
      var entries := if ns in state then state[ns] else map[];
      newVal := delta;
      if key in entries {
        match entries[key]
        case Number(kind, n) =>
          if kind == Float64 || kind == Int || kind == Int64 || kind == Float32 {
            newVal := n + delta;
          }
        case _ =>
      }
      entries := entries[key := Number(Float64, newVal)];
      assert key in entries;
      state := state[ns := entries];
    }

    method Delete(ns: string, key: string)
      requires Valid()
      modifies this
      ensures Valid()
      ensures forall n, k :: Lookup(state, n, k) == if n == ns && k == key then None else old(Lookup(state, n, k))
    {
      if ns !in state {
        return;
      }
      var entries := state[ns] - {key};
      if |entries| == 0 {
        assert forall k :: k in state[ns] ==> k == key by {
          assert forall k :: k in state[ns] && k != key ==> k in entries;
        }
        state := state - {ns};
      } else {
        state := state[ns := entries];
      }
    }

    method ClearNamespace(ns: string)
      requires Valid()
      modifies this
      ensures Valid()
      ensures forall n, k :: Lookup(state, n, k) == if n == ns then None else old(Lookup(state, n, k))
    {
      state := state - {ns};
    }

    method GetNamespace(ns: string) returns (snapshot: Option<map<string, Value>>)
      ensures snapshot == if ns in state then Some(state[ns]) else None
    {
      snapshot := if ns in state then Some(state[ns]) else None;
    }
  }
}
