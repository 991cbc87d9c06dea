/**
  Property access on the environment object, standing in for the engine's own
  lookup: a name that is an array index is that index; otherwise a read or
  write of a key reaches the TZ accessor, a named slot's accessor, a stored
  value, or an indexed value. Only own properties are modelled; anything else
  reads as `undefined`.

  The properties proved here are the ones a script can observe: a read that
  finds a value keeps returning it whatever the environment does afterwards
  (materialise once), a write is read back exactly, stored slots never revert,
  and TZ keeps the enumerability it was built with.
 */
module PropertyAccess {
  import opened Environment
  import opened ArrayIndex
  import opened Accessors

  /** A property key: a name, or an array index. */
  datatype Key = Name(name: string) | Index(index: ArrayIdx)

  /** The key the engine actually uses: a name that parses as an array index
      is that index, so `env["42"]` and `env[42]` are one property. The result
      is canonical (never a name that is an index), a key already canonical
      is left alone, and any other key is replaced by the index it denotes. */
  function Resolve(parseIndex: string -> Option<ArrayIdx>, key: Key): (k: Key)
    ensures k.Name? ==> parseIndex(k.name).None?
    ensures (key.Index? || parseIndex(key.name).None?) <==> k == key
    ensures k != key ==> key.Name? && k.Index? && parseIndex(key.name) == Some(k.index)
  {
    match key
    case Index(_) => key
    case Name(n) => if parseIndex(n).Some? then Index(parseIndex(n).value) else key
  }

  /** Every name the parser accepts starts with a digit, as array indices do;
      the builder only consults the parser for such names. */
  ghost predicate IndexNamesAreDigitLed(parseIndex: string -> Option<ArrayIdx>)
  {
    forall n :: parseIndex(n).Some? ==> |n| > 0 && IsDigit(n[0])
  }

  /** Slot `n` has been materialised into a plain stored value. */
  ghost predicate Materialized(obj: EnvMap, n: string)
  {
    n in obj.named && obj.named[n].Stored?
  }

  /** The object's well-formedness: the reserved name never has a named slot,
      so every access to it goes through the TZ accessor, and no named slot is
      an array index, so no property has two slots. */
  ghost predicate Wellformed(parseIndex: string -> Option<ArrayIdx>, obj: EnvMap)
  {
    && TZ !in obj.named
    && forall n :: n in obj.named ==> parseIndex(n).None?
  }

  /** Reading key `key`. An index reads its stored value; TZ goes through its
      accessor; a stored named slot reads its value; an accessor slot reads
      the environment and materialises; a name with no own slot is undefined. */
  function Get(parseIndex: string -> Option<ArrayIdx>, env: Env, obj: EnvMap, key: Key): (r: Read)
    ensures Resolve(parseIndex, key).Index? ==>
              var i := Resolve(parseIndex, key).index;
              && r.obj == obj
              && (i in obj.indexed ==> r.value == obj.indexed[i])
              && (i !in obj.indexed ==> r.value == Undefined)
    ensures Resolve(parseIndex, key) == Name(TZ) ==> r == TzGet(env, obj)
    ensures Resolve(parseIndex, key).Name? && key.name != TZ ==>
              var n := key.name;
              && (n !in obj.named ==> r == Read(Undefined, obj))
              && (n in obj.named && obj.named[n].Stored? ==> r == Read(obj.named[n].value, obj))
              && (n in obj.named && obj.named[n] == Accessor ==>
                    && (!r.value.Undefined? <==> n != "" && n in env.vars)
                    && (!r.value.Undefined? ==> r.value == Str(env.vars[n]) && n in r.obj.named && r.obj.named[n] == Stored(r.value)))
    ensures Resolve(parseIndex, key).Name? && key.name != TZ ==>
              r.obj.named - {key.name} == obj.named - {key.name} && r.obj.tz == obj.tz
    ensures r.value.Undefined? ==> r.obj == obj
    ensures r.obj.named.Keys == obj.named.Keys
    ensures r.obj.indexed == obj.indexed
    ensures r.obj.tz.enumerable == obj.tz.enumerable
    ensures forall n :: Materialized(obj, n) ==> Materialized(r.obj, n) && r.obj.named[n] == obj.named[n]
    ensures Wellformed(parseIndex, obj) ==> Wellformed(parseIndex, r.obj)
  {
    match Resolve(parseIndex, key)
    case Index(i) => Read(if i in obj.indexed then obj.indexed[i] else Undefined, obj)
    case Name(n) =>
      if n == TZ then TzGet(env, obj)
      else if n !in obj.named then Read(Undefined, obj)
      else
        match obj.named[n]
        case Stored(v) => Read(v, obj)
        case Accessor => GenericGet(env, obj, n)
  }

  /** Writing `v` to key `key`. Only TZ touches the process timezone; an index
      write changes that index alone, a named write that slot alone, a TZ
      write the TZ cache alone. */
  function Put(parseIndex: string -> Option<ArrayIdx>, overrideAccepted: string -> bool, clock: TimeZoneState,
               obj: EnvMap, key: Key, v: Value): (r: Write)
    ensures r.ok
    ensures Resolve(parseIndex, key) != Name(TZ) ==> r.clock == clock
    ensures Resolve(parseIndex, key).Index? ==>
              var i := Resolve(parseIndex, key).index;
              && r.obj.named == obj.named && r.obj.tz == obj.tz
              && i in r.obj.indexed && r.obj.indexed[i] == v
              && r.obj.indexed - {i} == obj.indexed - {i}
    ensures Resolve(parseIndex, key).Name? && key.name != TZ ==>
              && r.obj.indexed == obj.indexed && r.obj.tz == obj.tz
              && key.name in r.obj.named && r.obj.named[key.name] == Stored(v)
              && r.obj.named - {key.name} == obj.named - {key.name}
    ensures Resolve(parseIndex, key) == Name(TZ) ==>
              r.obj.named == obj.named && r.obj.indexed == obj.indexed && r.obj.tz.cache == Some(v)
    ensures Resolve(parseIndex, key) == Name(TZ) ==> r == TzSet(overrideAccepted, clock, obj, v)
    ensures r.obj.tz.enumerable == obj.tz.enumerable
    ensures forall n :: Materialized(obj, n) ==> Materialized(r.obj, n)
    ensures Wellformed(parseIndex, obj) ==> Wellformed(parseIndex, r.obj)
  {
    match Resolve(parseIndex, key)
    case Index(i) => Write(true, obj.(indexed := obj.indexed[i := v]), clock)
    case Name(n) =>
      if n == TZ then TzSet(overrideAccepted, clock, obj, v)
      else
        var w := GenericSet(obj, n, v);
        Write(w.ok, w.obj, clock)
  }

  /** The keys a `for ... in` over the object lists: every named and indexed
      slot, TZ only when it was marked enumerable, and nothing else. */
  function EnumerableKeys(obj: EnvMap): (ks: set<Key>)
    ensures TZ !in obj.named ==> (Name(TZ) in ks <==> obj.tz.enumerable)
    ensures forall n :: n in obj.named ==> Name(n) in ks
    ensures forall i :: i in obj.indexed ==> Index(i) in ks
    ensures forall k :: k in ks ==>
              || (k.Name? && k.name in obj.named)
              || (k.Index? && k.index in obj.indexed)
              || (k == Name(TZ) && obj.tz.enumerable)
  {
    (set n | n in obj.named :: Name(n))
      + (set i | i in obj.indexed :: Index(i))
      + (if obj.tz.enumerable then {Name(TZ)} else {})
  }

  /** Resolving twice is resolving once. */
  lemma ResolveIsIdempotent(parseIndex: string -> Option<ArrayIdx>, key: Key)
    ensures Resolve(parseIndex, Resolve(parseIndex, key)) == Resolve(parseIndex, key)
  {
  }

  /** A key and the key it resolves to are one property: reading or writing
      either has the same effect. */
  lemma KeyIsItsResolution(parseIndex: string -> Option<ArrayIdx>, overrideAccepted: string -> bool,
                           clock: TimeZoneState, env: Env, obj: EnvMap, key: Key, v: Value)
    ensures Get(parseIndex, env, obj, key) == Get(parseIndex, env, obj, Resolve(parseIndex, key))
    ensures Put(parseIndex, overrideAccepted, clock, obj, key, v)
              == Put(parseIndex, overrideAccepted, clock, obj, Resolve(parseIndex, key), v)
  {
  }

  /** Materialise once: a read that yields a value returns that same value,
      and changes nothing, on every later read, in whatever environment. */
  lemma ReadIsStable(parseIndex: string -> Option<ArrayIdx>, env: Env, later: Env, obj: EnvMap, key: Key)
    requires !Get(parseIndex, env, obj, key).value.Undefined?
    ensures Get(parseIndex, later, Get(parseIndex, env, obj, key).obj, key) == Get(parseIndex, env, obj, key)
  {
  }

  /** Reading twice in a row in the same environment is reading once. */
  lemma ReadIsIdempotent(parseIndex: string -> Option<ArrayIdx>, env: Env, obj: EnvMap, key: Key)
    ensures Get(parseIndex, env, Get(parseIndex, env, obj, key).obj, key) == Get(parseIndex, env, obj, key)
  {
  }

  /** A write is read back exactly, whatever the environment holds. */
  lemma WriteThenRead(parseIndex: string -> Option<ArrayIdx>, overrideAccepted: string -> bool, clock: TimeZoneState,
                      obj: EnvMap, key: Key, v: Value, env: Env)
    ensures Get(parseIndex, env, Put(parseIndex, overrideAccepted, clock, obj, key, v).obj, key).value == v
  {
  }
}
