/** The bounded cache of compiled match schemas (internal/extensions/match.go). */
module SchemaCache {
  import opened Json

  const CAPACITY := 1024

  predicate Distinct(keys: seq<string>) {
    forall i, j :: 0 <= i < j < |keys| ==> keys[i] != keys[j]
  }

  /** The youngest `n` insertions, oldest first. */
  function Youngest(inserted: seq<string>, n: nat): seq<string> {
    if |inserted| <= n then inserted else inserted[|inserted| - n..]
  }

  datatype Cache<V> = Cache(store: map<string, V>, order: seq<string>)

  /** Keys and order agree, nothing is kept twice, and what is kept are the youngest insertions. */
  ghost predicate Sound<V>(c: Cache<V>, inserted: seq<string>) {
    && Distinct(c.order)
    && |c.order| <= CAPACITY
    && (forall k :: k in c.order <==> k in c.store)
    && c.order == Youngest(inserted, CAPACITY)
  }

  function Insert<V>(c: Cache<V>, key: string, v: V): Cache<V> {
    if key in c.store then c
    else
      var order := c.order + [key];
      var store := c.store[key := v];
      if |order| > CAPACITY then Cache(store - {order[0]}, order[1..]) else Cache(store, order)
  }

  ghost function Inserted<V>(c: Cache<V>, inserted: seq<string>, key: string): seq<string> {
    if key in c.store then inserted else inserted + [key]
  }

  lemma DropOldest(order: seq<string>)
    requires order != [] && Distinct(order)
    ensures Distinct(order[1..])
    ensures forall k :: k in order[1..] <==> k in order && k != order[0]
  {
    assert order == [order[0]] + order[1..];
    assert forall i :: 0 <= i < |order[1..]| ==> order[1..][i] == order[i + 1];
  }

  lemma AddYoungest(order: seq<string>, inserted: seq<string>, key: string)
    requires |order| <= CAPACITY && order == Youngest(inserted, CAPACITY)
    ensures var longer := order + [key];
            Youngest(inserted + [key], CAPACITY) == if |longer| > CAPACITY then longer[1..] else longer
  {
  }

  lemma AppendNew(order: seq<string>, key: string)
    requires Distinct(order) && key !in order
    ensures Distinct(order + [key])
    ensures forall k :: k in order + [key] <==> k in order || k == key
  {
  }

  /** What one insertion does to the entries: kept ones are unchanged, and at most the oldest is dropped. */
  ghost predicate EntriesKept<V>(c: Cache<V>, c': Cache<V>, key: string, v: V) {
    && key in c'.store
    && (forall k :: k in c'.store ==> if k in c.store then c'.store[k] == c.store[k] else k == key && c'.store[k] == v)
    && (forall k :: k in c.store && k !in c'.store ==> c.order != [] && k == c.order[0])
  }

  lemma PutKeepsSound<V>(c: Cache<V>, inserted: seq<string>, key: string, v: V)
    requires Sound(c, inserted)
    ensures Sound(Insert(c, key, v), Inserted(c, inserted, key))
    ensures EntriesKept(c, Insert(c, key, v), key, v)
  {
    if key !in c.store {
      AddYoungest(c.order, inserted, key);
      hide Youngest, Distinct, EntriesKept;
      AppendNew(c.order, key);
      if |c.order| == CAPACITY {
        EvictOldest(c, inserted, key, v);
      } else {
        NothingDropped(c, key, v);
      }
    } else {
      NothingDropped(c, key, v);
    }
  }

  lemma NothingDropped<V>(c: Cache<V>, key: string, v: V)
    requires key in c.store || |c.order| < CAPACITY
    ensures EntriesKept(c, Insert(c, key, v), key, v)
  {
  }

  lemma EvictOldest<V>(c: Cache<V>, inserted: seq<string>, key: string, v: V)
    requires Sound(c, inserted) && key !in c.store && |c.order| == CAPACITY
    ensures Sound(Insert(c, key, v), Inserted(c, inserted, key))
    ensures EntriesKept(c, Insert(c, key, v), key, v)
  {
    AddYoungest(c.order, inserted, key);
    hide Youngest, Distinct, EntriesKept;
    AppendNew(c.order, key);
    EvictedEntries(c, key, v);
  }

  lemma EvictedEntries<V>(c: Cache<V>, key: string, v: V)
    requires key !in c.store && |c.order| == CAPACITY && Distinct(c.order + [key])
    requires forall k :: k in c.order <==> k in c.store
    ensures var c' := Insert(c, key, v);
            && Distinct(c'.order) && |c'.order| == CAPACITY && c'.order == (c.order + [key])[1..]
            && (forall k :: k in c'.order <==> k in c'.store)
            && EntriesKept(c, c', key, v)
  {
    hide Distinct;
    var longer := c.order + [key];
    DropOldest(longer);
    assert longer[0] == c.order[0] && c.order[0] in c.order;
    assert forall k :: k in longer <==> k in c.order || k == key;
  }

  class SchemaCacheStore<V> {
    var store: map<string, V>
    var order: seq<string>
    ghost var inserted: seq<string>

    function View(): Cache<V>
      reads this
    {
      Cache(store, order)
    }

    ghost predicate Valid()
      reads this
    {
      Sound(View(), inserted)
    }

    constructor ()
      ensures Valid() && View() == Cache(map[], []) && inserted == []
    {
      store, order, inserted := map[], [], [];
    }

    method Get(key: string) returns (cached: Option<V>)
      ensures cached == if key in store then Some(store[key]) else None
    {
      cached := if key in store then Some(store[key]) else None;
    }

    method Put(key: string, schema: V)
      requires Valid()
      modifies this
      ensures Valid()
      ensures View() == Insert(old(View()), key, schema)
      ensures inserted == Inserted(old(View()), old(inserted), key)
    {
      PutKeepsSound(View(), inserted, key, schema);
      if key in store {
        return;
      }
      store := store[key := schema];
      order := order + [key];
      inserted := inserted + [key];
      if |order| > CAPACITY {
        var evicted := order[0];
        order := order[1..];
        store := store - {evicted};
      }
    }
  }

  // ----- lookups through the cache -----

  datatype LookupError<E> = MarshalFailed | CompileFailed(cause: E)

  /** Foreign code: JSON encoding, content hashing and schema compilation. */
  datatype Compiler<V, E> = Compiler(
    marshal: Value -> Option<string>,
    hash: string -> string,
    compile: string -> Result<V, E>)
  {
    /** What compiling without any cache answers. */
    function Direct(schema: Value): Result<V, LookupError<E>> {
      match marshal(schema)
      case None => Err(MarshalFailed)
      case Some(text) => match compile(text)
        case Err(e) => Err(CompileFailed(e))
        case Ok(v) => Ok(v)
    }

    ghost predicate InjectiveHash() {
      forall a, b :: hash(a) == hash(b) ==> a == b
    }

    /** Every entry is the compilation of a text with its key. */
    ghost predicate Truthful(store: map<string, V>) {
      forall text :: hash(text) in store ==> compile(text) == Ok(store[hash(text)])
    }
  }

  method GetCachedSchema<V, E>(cache: SchemaCacheStore<V>, compiler: Compiler<V, E>, schema: Value)
    returns (r: Result<V, LookupError<E>>)
    requires cache.Valid() && compiler.InjectiveHash() && compiler.Truthful(cache.store)
    modifies cache
    ensures cache.Valid() && compiler.Truthful(cache.store)
    ensures r == compiler.Direct(schema)
  {
    var schemaJSON := compiler.marshal(schema);
    if schemaJSON.None? {
      return Err(MarshalFailed);
    }
    var key := compiler.hash(schemaJSON.value);
    var cached := cache.Get(key);
    if cached.Some? {
      return Ok(cached.value);
    }
    var compiled := compiler.compile(schemaJSON.value);
    if compiled.Err? {
      return Err(CompileFailed(compiled.error));
    }
    PutKeepsTruth(compiler, cache.View(), cache.inserted, schemaJSON.value);
    cache.Put(key, compiled.value);
    return Ok(compiled.value);
  }

  lemma PutKeepsTruth<V, E>(compiler: Compiler<V, E>, c: Cache<V>, inserted: seq<string>, text: string)
    requires compiler.InjectiveHash() && compiler.Truthful(c.store) && Sound(c, inserted)
    requires compiler.compile(text).Ok?
    ensures compiler.Truthful(Insert(c, compiler.hash(text), compiler.compile(text).value).store)
  {
    PutKeepsSound(c, inserted, compiler.hash(text), compiler.compile(text).value);
  }

  // ----- several callers at once -----

  /** Where one caller stands; lookup, compilation and insertion are separate atomic steps. */
  datatype Caller<V, E> =
    | Idle
    | Looking(schema: Value, text: string)
    | Compiling(schema: Value, text: string)
    | Storing(schema: Value, text: string, compiled: V)
    | Answered(schema: Value, answer: Result<V, LookupError<E>>)

  datatype System<V, E> = System(cache: Cache<V>, inserted: seq<string>, callers: map<nat, Caller<V, E>>)

  ghost predicate Starts<V, E>(s: System<V, E>) {
    s.cache == Cache(map[], []) && s.inserted == [] && forall c :: c in s.callers ==> s.callers[c] == Idle
  }

  /** The next state of caller `c`, which may begin a request for `schema` whenever it is not inside one. */
  ghost function Act<V, E>(s: System<V, E>, compiler: Compiler<V, E>, c: nat, schema: Value): System<V, E>
    requires c in s.callers
  {
    match s.callers[c]
    case Looking(wanted, text) =>
      var key := compiler.hash(text);
      if key in s.cache.store then s.(callers := s.callers[c := Answered(wanted, Ok(s.cache.store[key]))])
      else s.(callers := s.callers[c := Compiling(wanted, text)])
    case Compiling(wanted, text) =>
      (match compiler.compile(text)
       case Err(e) => s.(callers := s.callers[c := Answered(wanted, Err(CompileFailed(e)))])
       case Ok(v) => s.(callers := s.callers[c := Storing(wanted, text, v)]))
    case Storing(wanted, text, v) =>
      System(Insert(s.cache, compiler.hash(text), v), Inserted(s.cache, s.inserted, compiler.hash(text)),
             s.callers[c := Answered(wanted, Ok(v))])
    case _ =>
      match compiler.marshal(schema)
      case None => s.(callers := s.callers[c := Answered(schema, Err(MarshalFailed))])
      case Some(text) => s.(callers := s.callers[c := Looking(schema, text)])
  }

  ghost predicate Honest<V, E>(caller: Caller<V, E>, compiler: Compiler<V, E>) {
    match caller
    case Idle => true
    case Looking(schema, text) => compiler.marshal(schema) == Some(text)
    case Compiling(schema, text) => compiler.marshal(schema) == Some(text)
    case Storing(schema, text, v) => compiler.marshal(schema) == Some(text) && compiler.compile(text) == Ok(v)
    case Answered(schema, answer) => answer == compiler.Direct(schema)
  }

  ghost predicate Inv<V, E>(s: System<V, E>, compiler: Compiler<V, E>) {
    && Sound(s.cache, s.inserted)
    && compiler.Truthful(s.cache.store)
    && forall c :: c in s.callers ==> Honest(s.callers[c], compiler)
  }

  ghost predicate Run<V, E>(trace: seq<System<V, E>>, compiler: Compiler<V, E>) {
    && trace != [] && Starts(trace[0])
    && forall i :: 0 <= i < |trace| - 1 ==> Follows(trace[i], trace[i + 1], compiler)
  }

  ghost predicate Follows<V, E>(s: System<V, E>, s': System<V, E>, compiler: Compiler<V, E>) {
    exists c: nat, schema: Value :: c in s.callers && s' == Act(s, compiler, c, schema)
  }

  /** However the callers interleave, every answer is the direct compilation and the cache stays sound. */
  lemma {:induction false} EveryRunIsHonest<V, E>(trace: seq<System<V, E>>, compiler: Compiler<V, E>, n: nat)
    requires compiler.InjectiveHash() && Run(trace, compiler) && n < |trace|
    ensures Inv(trace[n], compiler)
    decreases n
  {
    if n > 0 {
      EveryRunIsHonest(trace, compiler, n - 1);
      assert Follows(trace[n - 1], trace[n - 1 + 1], compiler);
      var c: nat, schema: Value :| c in trace[n - 1].callers && trace[n] == Act(trace[n - 1], compiler, c, schema);
      ActKeepsInv(trace[n - 1], compiler, c, schema);
    }
  }

  lemma ActKeepsInv<V, E>(s: System<V, E>, compiler: Compiler<V, E>, c: nat, schema: Value)
    requires compiler.InjectiveHash() && Inv(s, compiler) && c in s.callers
    ensures Inv(Act(s, compiler, c, schema), compiler)
  {
    hide Sound, Insert, Compiler.InjectiveHash;
    assert Honest(s.callers[c], compiler);
    match s.callers[c]
    case Storing(_, text, v) =>
      PutKeepsSound(s.cache, s.inserted, compiler.hash(text), v);
      PutKeepsTruth(compiler, s.cache, s.inserted, text);
    case Looking(_, text) =>
      assert compiler.hash(text) in s.cache.store ==> compiler.compile(text) == Ok(s.cache.store[compiler.hash(text)]);
    case _ =>
  }

  // ----- the bound -----

  /** Up to 1024 different schemas nothing is forgotten; the next one drops the oldest and nothing else. */
  lemma ForgetsBeyond1024<V>(c: Cache<V>, inserted: seq<string>, key: string, v: V)
    requires Sound(c, inserted) && key !in c.store
    ensures |c.order| <= 1024
    ensures |c.order| < 1024 ==> forall k :: k in Insert(c, key, v).store <==> k in c.store || k == key
    ensures |c.order| == 1024 ==>
              forall k :: k in Insert(c, key, v).store <==>
                (k in c.store && k != inserted[|inserted| - 1024]) || k == key
  {
    hide Distinct;
    if |c.order| == 1024 {
      assert c.order[0] == inserted[|inserted| - 1024] && c.order[0] in c.order;
      assert (c.order + [key])[0] == c.order[0];
    }
  }
}
