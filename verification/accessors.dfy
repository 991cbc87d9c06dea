/**
  The environment object and its four custom accessors: the generic getter and
  setter every lazily materialised variable starts with, and the getter and
  setter of the reserved TZ slot.

  The engine's self-replacing accessor becomes an explicit slot state. A named
  slot is an `Accessor` until its first successful read or any write, after
  which it is `Stored` and never goes back. The TZ slot is never replaced: it
  keeps a separate optional cache (a private companion property in the engine).
 */
module Accessors {
  import opened Environment
  import opened ArrayIndex

  datatype Slot = Accessor | Stored(value: Value)

  /** The TZ slot: its private cache and whether it shows up when the object's
      keys are enumerated. */
  datatype TzSlot = TzSlot(cache: Option<Value>, enumerable: bool)

  /** The environment object: named slots, values stored under an array index,
      and the TZ slot. */
  datatype EnvMap = EnvMap(named: map<string, Slot>, indexed: map<ArrayIdx, Value>, tz: TzSlot)

  /** Process-wide timezone state, as seen from here: every name handed to the
      timezone override, in order, and how many times the date cache was reset. */
  datatype TimeZoneState = TimeZoneState(overrideCalls: seq<string>, dateCacheResets: nat)

  /** What a read gives back: the value and the object afterwards. */
  datatype Read = Read(value: Value, obj: EnvMap)

  /** What a generic write gives back: success and the object afterwards. */
  datatype Written = Written(ok: bool, obj: EnvMap)

  /** What a write that may touch the timezone gives back. */
  datatype Write = Write(ok: bool, obj: EnvMap, clock: TimeZoneState)

  /** Names this long or longer are never offered as a timezone override. */
  const MaxTimeZoneNameLength: nat := 32

  /** Whether writing `v` to TZ tries to change the process timezone. */
  predicate AttemptsOverride(v: Value)
  {
    v.Str? && |v.s| < MaxTimeZoneNameLength
  }

  /** The generic getter. An empty name or an undefined variable reads as
      `undefined` and leaves the slot an accessor, so the next read looks again;
      a defined variable is read, stored in place of the accessor, and returned. */
  function GenericGet(env: Env, obj: EnvMap, name: string): (r: Read)
    ensures !r.value.Undefined? <==> name != "" && name in env.vars
    ensures r.value.Undefined? ==> r.obj == obj
    ensures !r.value.Undefined? ==>
              && r.value == Str(env.vars[name])
              && name in r.obj.named && r.obj.named[name] == Stored(r.value)
    ensures r.obj.named - {name} == obj.named - {name}
    ensures r.obj.indexed == obj.indexed && r.obj.tz == obj.tz
  {
    if |name| == 0 then Read(Undefined, obj)
    else
      match Lookup(env, name)
      case None => Read(Undefined, obj)
      case Some(v) => Read(Str(v), obj.(named := obj.named[name := Stored(Str(v))]))
  }

  /** The generic setter: the written value replaces the slot, whatever it was,
      without asking the environment. */
  function GenericSet(obj: EnvMap, name: string, v: Value): (r: Written)
    ensures r.ok
    ensures name in r.obj.named && r.obj.named[name] == Stored(v)
    ensures r.obj.named - {name} == obj.named - {name}
    ensures r.obj.indexed == obj.indexed && r.obj.tz == obj.tz
  {
    Written(true, obj.(named := obj.named[name := Stored(v)]))
  }

  /** The TZ getter. A cached value, whatever it is, wins. Otherwise an
      undefined or empty TZ reads as `undefined` and nothing is cached; a
      non-empty TZ is cached and returned. */
  function TzGet(env: Env, obj: EnvMap): (r: Read)
    ensures obj.tz.cache.Some? ==> r == Read(obj.tz.cache.value, obj)
    ensures obj.tz.cache.None? ==>
              (!r.value.Undefined? <==> TZ in env.vars && env.vars[TZ] != "")
    ensures obj.tz.cache.None? && !r.value.Undefined? ==> r.value == Str(env.vars[TZ])
    ensures r.value.Undefined? ==> r.obj == obj
    ensures r.obj.tz.cache.Some? <==> obj.tz.cache.Some? || !r.value.Undefined?
    ensures r.obj.tz.cache.Some? ==> r.obj.tz.cache.value == r.value
    ensures r.obj.named == obj.named && r.obj.indexed == obj.indexed
    ensures r.obj.tz.enumerable == obj.tz.enumerable
  {
    match obj.tz.cache
    case Some(cached) => Read(cached, obj)
    case None =>
      match Lookup(env, TZ)
      case None => Read(Undefined, obj)
      case Some(v) =>
        if |v| == 0 then Read(Undefined, obj)
        else Read(Str(v), obj.(tz := obj.tz.(cache := Some(Str(v)))))
  }

  /** The TZ setter. A string shorter than `MaxTimeZoneNameLength` is handed to
      the timezone override (`overrideAccepted` stands for its answer), and the
      date cache is reset when the override reports success. Whatever the
      value, it is cached verbatim and the write succeeds; the slot stays an
      accessor with the enumerability it had. */
  function TzSet(overrideAccepted: string -> bool, clock: TimeZoneState, obj: EnvMap, v: Value): (r: Write)
    ensures r.ok
    ensures r.obj.tz.cache == Some(v)
    ensures r.obj.tz.enumerable == obj.tz.enumerable
    ensures r.obj.named == obj.named && r.obj.indexed == obj.indexed
    ensures AttemptsOverride(v) ==> r.clock.overrideCalls == clock.overrideCalls + [v.s]
    ensures !AttemptsOverride(v) ==> r.clock == clock
    ensures (r.clock.dateCacheResets == clock.dateCacheResets + 1)
        <==> (AttemptsOverride(v) && overrideAccepted(v.s))
    ensures r.clock.dateCacheResets - clock.dateCacheResets in {0, 1}
  {
    var clock' :=
      if AttemptsOverride(v) then
        var calls := clock.overrideCalls + [v.s];
        if overrideAccepted(v.s) then TimeZoneState(calls, clock.dateCacheResets + 1)
        else TimeZoneState(calls, clock.dateCacheResets)
      else clock;
    Write(true, obj.(tz := obj.tz.(cache := Some(v))), clock')
  }
}
