/**
 * Copies handed out by the state store, over a heap of mutable maps and slices (internal/state/state.go).
 * A live structure may share parts of itself; a copy shares nothing with it.
 */
module DeepCopy {
  import opened Json

  class GoMap {
    var entries: map<string, GoValue>

    constructor ()
      ensures entries == map[]
    {
      entries := map[];
    }
  }

  /** A dynamic value: maps and slices are references, everything else is immutable. */
  datatype GoValue = Scalar(v: Value) | MapRef(m: GoMap) | SliceRef(a: array<GoValue>)

  /** `g` stands for the JSON value `v`, and every map and slice it reaches lies in `region`. */
  ghost predicate Denotes(g: GoValue, v: Value, region: set<object>)
    reads region
    decreases v
  {
    match g
    case Scalar(s) => v == s && !v.Obj? && !v.Arr?
    case MapRef(m) =>
      && m in region && v.Obj? && m.entries.Keys == v.fields.Keys
      && forall k :: k in v.fields ==> Denotes(m.entries[k], v.fields[k], region)
    case SliceRef(a) =>
      && a in region && v.Arr? && a.Length == |v.items|
      && forall i :: 0 <= i < a.Length ==> Denotes(a[i], v.items[i], region)
  }

  lemma {:induction false} DenotesInLarger(g: GoValue, v: Value, region: set<object>, larger: set<object>)
    requires Denotes(g, v, region) && region <= larger
    ensures Denotes(g, v, larger)
    decreases v
  {
    match g
    case Scalar(_) =>
    case MapRef(m) =>
      forall k | k in v.fields
        ensures Denotes(m.entries[k], v.fields[k], larger)
      {
        DenotesInLarger(m.entries[k], v.fields[k], region, larger);
      }
    case SliceRef(a) =>
      forall i | 0 <= i < a.Length
        ensures Denotes(a[i], v.items[i], larger)
      {
        DenotesInLarger(a[i], v.items[i], region, larger);
      }
  }

  /** A reference stands for one value only, so a copy that denotes what the original denotes is equal to it. */
  lemma {:induction false} DenotesOneValue(g: GoValue, v: Value, w: Value, region: set<object>)
    requires Denotes(g, v, region) && Denotes(g, w, region)
    ensures v == w
    decreases v
  {
    match g
    case Scalar(_) =>
    case MapRef(m) =>
      forall k | k in v.fields
        ensures v.fields[k] == w.fields[k]
      {
        DenotesOneValue(m.entries[k], v.fields[k], w.fields[k], region);
      }
      assert v.fields == w.fields;
    case SliceRef(a) =>
      forall i | 0 <= i < a.Length
        ensures v.items[i] == w.items[i]
      {
        DenotesOneValue(a[i], v.items[i], w.items[i], region);
      }
      assert v.items == w.items;
  }

  /**
   * A new structure for the same value: nothing of the original is written, and nothing of it is reachable from
   * the copy.
   */
  method DeepCopyValue(g: GoValue, ghost v: Value, ghost region: set<object>)
    returns (copy: GoValue, ghost own: set<object>)
    requires Denotes(g, v, region)
    ensures Denotes(copy, v, own) && fresh(own)
    decreases v, 1
  {
    match g
    case MapRef(m) =>
      var c;
      c, own := DeepCopyMap(m, v, region);
      copy := MapRef(c);
    case SliceRef(a) =>
      var out := new GoValue[a.Length];
      own := {};
      for i := 0 to a.Length
        invariant Denotes(g, v, region)
        invariant fresh(own) && out !in own
        invariant forall j :: 0 <= j < i ==> Denotes(out[j], v.items[j], own)
      {
        var c;
        ghost var more;
        c, more := DeepCopyValue(a[i], v.items[i], region);
        forall j | 0 <= j < i
          ensures Denotes(out[j], v.items[j], own + more)
        {
          DenotesInLarger(out[j], v.items[j], own, own + more);
        }
        DenotesInLarger(c, v.items[i], more, own + more);
        own := own + more;
        out[i] := c;
      }
      forall j | 0 <= j < out.Length
        ensures Denotes(out[j], v.items[j], own + {out})
      {
        DenotesInLarger(out[j], v.items[j], own, own + {out});
      }
      copy, own := SliceRef(out), own + {out};
    case Scalar(_) =>
      copy, own := g, {};
  }

  method DeepCopyMap(m: GoMap, ghost v: Value, ghost region: set<object>) returns (out: GoMap, ghost own: set<object>)
    requires Denotes(MapRef(m), v, region)
    ensures Denotes(MapRef(out), v, own) && fresh(own)
    decreases v, 0
  {
    hide Denotes, EntriesDenote;
    UnfoldMap(m, v, region);
    out := new GoMap();
    own := {};
    NoEntries(v.fields, own);
    var todo := m.entries.Keys;
    while todo != {}
      invariant todo <= m.entries.Keys && EntriesDenote(m.entries, v.fields, region)
      invariant fresh(own) && out !in own
      invariant forall j :: j in out.entries <==> j in m.entries && j !in todo
      invariant EntriesDenote(out.entries, v.fields, own)
      decreases |todo|
    {
      var k :| k in todo;
      todo := todo - {k};
      EntryAt(m.entries, v.fields, region, k);
      var c;
      ghost var more;
      c, more := DeepCopyValue(m.entries[k], v.fields[k], region);
      AddEntry(out.entries, v.fields, own, k, c, more);
      own := own + more;
      out.entries := out.entries[k := c];
    }
    FoldMap(out, v, own);
    own := own + {out};
  }

  ghost predicate EntriesDenote(entries: map<string, GoValue>, fields: map<string, Value>, region: set<object>)
    reads region
  {
    entries.Keys <= fields.Keys && forall k :: k in entries ==> Denotes(entries[k], fields[k], region)
  }

  lemma UnfoldMap(m: GoMap, v: Value, region: set<object>)
    requires Denotes(MapRef(m), v, region)
    ensures m in region && v.Obj? && m.entries.Keys == v.fields.Keys && EntriesDenote(m.entries, v.fields, region)
  {
  }

  lemma FoldMap(m: GoMap, v: Value, region: set<object>)
    requires v.Obj? && m.entries.Keys == v.fields.Keys && EntriesDenote(m.entries, v.fields, region)
    ensures Denotes(MapRef(m), v, region + {m})
  {
    forall k | k in m.entries
      ensures Denotes(m.entries[k], v.fields[k], region + {m})
    {
      DenotesInLarger(m.entries[k], v.fields[k], region, region + {m});
    }
  }

  lemma NoEntries(fields: map<string, Value>, region: set<object>)
    ensures EntriesDenote(map[], fields, region)
  {
  }

  lemma EntryAt(entries: map<string, GoValue>, fields: map<string, Value>, region: set<object>, k: string)
    requires EntriesDenote(entries, fields, region) && k in entries
    ensures k in fields && Denotes(entries[k], fields[k], region)
  {
  }

  lemma AddEntry(entries: map<string, GoValue>, fields: map<string, Value>, own: set<object>, k: string, c: GoValue,
                 more: set<object>)
    requires EntriesDenote(entries, fields, own) && k in fields && Denotes(c, fields[k], more)
    ensures EntriesDenote(entries[k := c], fields, own + more)
  {
    hide Denotes;
    forall j | j in entries
      ensures Denotes(entries[j], fields[j], own + more)
    {
      DenotesInLarger(entries[j], fields[j], own, own + more);
    }
    DenotesInLarger(c, fields[k], more, own + more);
  }

  /** Every namespace of the live state denotes the fields `st` records for it. */
  ghost predicate Represents(live: map<string, GoMap>, st: map<string, map<string, Value>>, region: set<object>)
    reads region
  {
    && live.Keys == st.Keys
    && forall ns :: ns in live ==> Denotes(MapRef(live[ns]), Obj(st[ns]), region)
  }

  /**
   * The snapshot denotes the namespace as it stood, in memory of its own: later writes to either side are not
   * seen by the other.
   */
  method GetNamespace(live: map<string, GoMap>, ns: string, ghost st: map<string, map<string, Value>>,
                      ghost region: set<object>)
    returns (copy: GoMap?, ghost own: set<object>)
    requires Represents(live, st, region)
    ensures if ns in st then copy != null && Denotes(MapRef(copy), Obj(st[ns]), own) else copy == null
    ensures fresh(own) && own !! region && Represents(live, st, region)
  {
    own := {};
    if ns !in live {
      return null, {};
    }
    copy, own := DeepCopyMap(live[ns], Obj(st[ns]), region);
  }
}
