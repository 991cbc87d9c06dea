# Lazy environment-variable object

A Dafny model of Bun's `process.env` object as built in
`src/bun.js/bindings/JSEnvironmentVariableMap.cpp`. The engine does not copy the
whole environment when it builds the object. Each variable name gets a custom
accessor. The first successful read replaces that accessor with a plain stored
value, and so does any write. The replacement is permanent. Names that are
array indices cannot carry a custom accessor, so they are looked up at build
time and stored under their index. `TZ` has its own accessor, which is never
replaced. It keeps a private cache, and each write to it may change the process
timezone and reset the engine's date cache.

Modules:

- `Environment` (environment.dfy): script values (`undefined`, strings, other
  values kept opaque) and the environment source. The source is an enumeration
  of names plus a lookup map.
- `Accessors` (accessors.dfy): the object's state and the four custom accessors.
  - Named slots are `Accessor | Stored(v)`.
  - Indexed values are kept in a map keyed by the parsed index.
  - The TZ slot is a record `{cache, enumerable}`.
  - The process-wide timezone state is a log of the names offered to the
    timezone override, plus a count of date-cache resets.
- `PropertyAccess` (property_access.dfy): reads and writes of a key, routed the
  way the engine routes them. A name that parses as an array index is that
  index, so `env["42"]` and `env[42]` are one property. An index key is at
  most 2^32 − 2; a larger number is a name, as in the engine. Also covers which keys
  enumeration lists.
- `Builder` (builder.dfy): `createEnvironmentVariablesMap`. It makes one pass
  over the names, classifying each one as reserved, index or lazy.
- `ArrayIndex` (array_index.dfy): the array-index rule from section 6.1.7 of
  ECMA-262 (an integer from 0 to 2^32 − 2 in canonical decimal). The builder
  takes its index parser as a parameter, because the engine's `parseIndex` is
  not part of this model. This module gives one concrete parser and proves it
  is the exact inverse of decimal printing.
- `Scenarios` (scenarios.dfy): what the built object does on its first reads, and worked instances of the promised behaviour.

Two behaviours of the code that are easy to miss, and that the model keeps:

- A TZ cache holding `undefined` still counts as a cached value. A JavaScript
  `undefined` is a non-empty engine value, so the getter's "cached?" test (line
  69) succeeds. After `env.TZ = undefined`, reads return `undefined` even when
  TZ is set in the environment.
- An empty TZ value reads as absent (line 73). An empty value of any other
  variable is materialised as `""` (lines 35-40).

## Model

| member | source | states |
|---|---|---|
| Accessors.GenericGet | src/bun.js/bindings/JSEnvironmentVariableMap.cpp:20-42 | the read yields a value exactly when the name is non-empty and defined. A value read is the environment's text, and it replaces the accessor with that stored value. An `undefined` read leaves the object unchanged, so the next read looks again. No other slot changes. |
| Accessors.GenericSet | src/bun.js/bindings/JSEnvironmentVariableMap.cpp:44-53 | the write succeeds and the slot becomes exactly the written value, whatever it held before. No other slot changes and the environment is not consulted. |
| Accessors.TzGet | src/bun.js/bindings/JSEnvironmentVariableMap.cpp:55-81 | a cached value (even `undefined`) is returned unchanged. Otherwise the read yields a value exactly when TZ is defined and non-empty; that value is the environment's text and becomes the cache. After any read, the cache (if present) holds the value returned. Named slots, indexed slots and enumerability are untouched. |
| Accessors.TzSet | src/bun.js/bindings/JSEnvironmentVariableMap.cpp:86-112 | the write always succeeds and caches the raw value verbatim; slots and enumerability are unchanged. The override is offered the name exactly when the value is a string shorter than 32. The date cache is reset, once, exactly when that override reports success. Otherwise the timezone state is untouched. |
| PropertyAccess.Resolve | src/bun.js/bindings/JSEnvironmentVariableMap.cpp:142-152 | the key an access really reaches. The builder stores a name the index parser accepts under its index (lines 142-152), because the engine treats such a name as that index. The resolved key is never a name the parser accepts. A key already in that form is left alone, and any other key is the index its name denotes. |
| PropertyAccess.ResolveIsIdempotent | src/bun.js/bindings/JSEnvironmentVariableMap.cpp:142-152 | resolving a resolved key changes nothing. |
| PropertyAccess.KeyIsItsResolution | src/bun.js/bindings/JSEnvironmentVariableMap.cpp:142-152 | a key and its resolution are one property: reading or writing either has exactly the same effect. |
| PropertyAccess.Get | src/bun.js/bindings/JSEnvironmentVariableMap.cpp:32-80 | what each read returns. An index (or a name parsing to one) gives its stored value, or `undefined` with nothing changed. TZ gives exactly what the TZ getter gives. A stored slot gives its value. An accessor slot gives the environment's text exactly when the name is non-empty and defined, and then stores it. A name with no own slot gives `undefined`. A read that yields `undefined` changes nothing. A read of a name other than TZ changes no other named slot and not the TZ slot. No read adds or removes a named slot, changes an indexed value or TZ enumerability, or alters a stored slot. Well-formedness is kept: no named slot for TZ or for an index name. |
| PropertyAccess.Put | src/bun.js/bindings/JSEnvironmentVariableMap.cpp:44-111 | every write succeeds, and only a TZ write can touch the timezone state. An index write sets that index and leaves every other index, the named slots and the TZ slot alone. A named write stores the value in that slot alone, leaving indices and the TZ slot alone. A TZ write has exactly the effect of the TZ setter: it caches the value, may offer the name to the timezone override and reset the date cache, and leaves named and indexed slots alone. Stored slots stay stored. TZ enumerability and well-formedness are kept. |
| PropertyAccess.EnumerableKeys | src/bun.js/bindings/JSEnvironmentVariableMap.cpp:157-166 | enumeration lists exactly the named slots, the indexed slots, and TZ when its slot was marked enumerable. It lists nothing else. |
| PropertyAccess.ReadIsStable | src/bun.js/bindings/JSEnvironmentVariableMap.cpp:39-80 | materialise once: after a read that yields a value, every later read returns the same value and object, in any environment. |
| PropertyAccess.ReadIsIdempotent | src/bun.js/bindings/JSEnvironmentVariableMap.cpp:32-80 | reading twice in the same environment gives the same value and object as reading once. |
| PropertyAccess.WriteThenRead | src/bun.js/bindings/JSEnvironmentVariableMap.cpp:44-111 | a value written to any key, TZ included, is read back exactly, whatever the environment holds. |
| ArrayIndex.ParseArrayIndex | src/bun.js/bindings/JSEnvironmentVariableMap.cpp:145 | a name that parses as an index starts with a digit, and the index is at most 2^32 − 2. |
| ArrayIndex.DecimalOfToDecimal | src/bun.js/bindings/JSEnvironmentVariableMap.cpp:145 | the value of a number's decimal text is that number. |
| ArrayIndex.ToDecimalOfDecimal | src/bun.js/bindings/JSEnvironmentVariableMap.cpp:145 | canonical decimal text is the decimal printing of its own value. |
| ArrayIndex.ParseToDecimal | src/bun.js/bindings/JSEnvironmentVariableMap.cpp:145 | every array index is the parse of its decimal text. |
| ArrayIndex.ParsedIsCanonical | src/bun.js/bindings/JSEnvironmentVariableMap.cpp:145 | a name that parses is exactly the decimal text of its index, so no leading zeros, signs or stray characters get through. |
| ArrayIndex.ParseArrayIndexInjective | src/bun.js/bindings/JSEnvironmentVariableMap.cpp:145 | two different names never parse to the same index. |
| Builder.BuildSlotsNamed | src/bun.js/bindings/JSEnvironmentVariableMap.cpp:130-158 | the pass gives a named slot to exactly the names classified lazy: not TZ, and not a digit-led name that parses as an index. Every such slot starts as an accessor. |
| Builder.BuildSlotsSawTZ | src/bun.js/bindings/JSEnvironmentVariableMap.cpp:129-137 | the pass records TZ exactly when TZ is among the enumerated names. |
| Builder.BuildSlotsIndexKeys | src/bun.js/bindings/JSEnvironmentVariableMap.cpp:142-154 | the pass fills exactly the indices that some digit-led, non-TZ name parses to. |
| Builder.BuildSlotsIndexed | src/bun.js/bindings/JSEnvironmentVariableMap.cpp:142-154 | each filled index holds the looked-up value of the last name that parses to it, or `undefined` when that lookup fails. |
| Builder.CreateEnvironmentVariablesMap | src/bun.js/bindings/JSEnvironmentVariableMap.cpp:114-169 | the built object has one TZ slot with an empty cache, enumerable exactly when TZ was enumerated. TZ never gets a named slot. Lazy names are exactly the named slots, all accessors. The indices filled are exactly those some enumerated index name parses to, each holding the last such name's looked-up value. |
| Builder.BuildClassifiesName | src/bun.js/bindings/JSEnvironmentVariableMap.cpp:130-158 | for one enumerated name: TZ gets no named slot and makes TZ enumerable. A digit-led index name gets an indexed value and no named slot. Any other name, "1a" included, gets an accessor. |
| Builder.BuildIndexedValue | src/bun.js/bindings/JSEnvironmentVariableMap.cpp:144-153 | when no other enumerated name lands on the same index, the index holds exactly that name's looked-up value (`undefined` if the lookup fails). |
| Builder.LastAtIndexExists | src/bun.js/bindings/JSEnvironmentVariableMap.cpp:152 | whenever some enumerated name lands on an index, one of them is the last to do so (that name's value is the one `putDirectIndex` leaves there). |
| Scenarios.ParseArrayIndexIsDigitLed | src/bun.js/bindings/JSEnvironmentVariableMap.cpp:144-145 | every name the ECMAScript index parser accepts starts with a digit, so the builder's digit test never hides an index. |
| Scenarios.BuiltIsWellformed | src/bun.js/bindings/JSEnvironmentVariableMap.cpp:130-158 | with a parser that only accepts digit-led names, the built object has no named slot for TZ or for any index name. Every property therefore has exactly one slot. |
| Scenarios.BuiltTzEnumerable | src/bun.js/bindings/JSEnvironmentVariableMap.cpp:160-166 | enumeration of the built object lists TZ exactly when the environment enumerated it. |
| Scenarios.FirstReadOfBuiltName | src/bun.js/bindings/JSEnvironmentVariableMap.cpp:32-41 | for every lazily handled enumerated name, the first read of the built object yields the environment's text exactly when the name is non-empty and defined, and then that slot holds it as a stored value. |
| Scenarios.ReadOfBuiltIndexName | src/bun.js/bindings/JSEnvironmentVariableMap.cpp:144-153 | for every index name that no other enumerated name shares an index with, reading it by name or by index yields the value looked up at build time, in any later environment, and changes nothing. |
| Scenarios.BuiltNamesEnumerable | src/bun.js/bindings/JSEnvironmentVariableMap.cpp:157 | every lazily handled enumerated name is listed by enumeration. |
| Scenarios.ResolveArrayIndexName | src/bun.js/bindings/JSEnvironmentVariableMap.cpp:144-145 | with the ECMAScript parser, a name reaches index `i` exactly when it is the decimal text of `i`. |
| Scenarios.LargeNumberIsName | src/bun.js/bindings/JSEnvironmentVariableMap.cpp:145 | the decimal text of a number beyond 2^32 − 2 (such as "4294967295") is no index and stays a name. |
| Scenarios.BeyondLastIndex | src/bun.js/bindings/JSEnvironmentVariableMap.cpp:144-157 | a variable named by the decimal text of a number beyond the last index gets the lazy accessor, is listed by name, and reads the environment's value. |
| Scenarios.ReadOfBuiltArrayIndex | src/bun.js/bindings/JSEnvironmentVariableMap.cpp:144-153 | with the ECMAScript parser, the variable named by the decimal text of any index reads its build-time value, by name and by index, in any later environment. No other name can land on that index. |
| Scenarios.NumericPassthrough | src/bun.js/bindings/JSEnvironmentVariableMap.cpp:144-153 | with `42=x`, reading "42" or 42 yields "x" right after building, in any later environment. There is no named slot "42" and enumeration lists index 42 only. After writing "y" to "42", index 42 reads "y". |
| Scenarios.MalformedNumericIsLazy | src/bun.js/bindings/JSEnvironmentVariableMap.cpp:144-157 | with `1a=y`, "1a" gets an accessor and no index, and its first read materialises "y". |
| Scenarios.MaterializeOnce | src/bun.js/bindings/JSEnvironmentVariableMap.cpp:39-41 | HOME read as "/a" still reads as "/a" after the environment changes it to "/b". |
| Scenarios.TzAbsentThenWritten | src/bun.js/bindings/JSEnvironmentVariableMap.cpp:73-75 | without TZ, TZ reads as `undefined` without changing the object and is hidden from enumeration. After writing "UTC", it reads as "UTC". |
| Scenarios.UnusableTzWrite | src/bun.js/bindings/JSEnvironmentVariableMap.cpp:93-106 | writing TZ a non-string, or a string of 32 characters or more, leaves the timezone state unchanged, and the value is still read back exactly. |
| Scenarios.EmptyValueDiffers | src/bun.js/bindings/JSEnvironmentVariableMap.cpp:73 | an empty ordinary variable materialises "", while an empty TZ reads as `undefined` and stays uncached. |

## Left out

- The calls into the native environment store (`Bun__getEnvCount`, `Bun__getEnvKey`, `Bun__getEnvValue`): replaced by the `Env` record, an enumeration of names plus a lookup map.
- String transcoding (UTF-8 to engine strings and back): strings are plain `seq<char>`.
- The paths where `this` is not an object (lines 26-27, 48-49, 61-62, 90-91): every access is made on the environment object itself.
- Throw scopes and exceptions: no modelled step can throw.
- The prototype chain: a read of a name with no own slot gives `undefined`, and a write to it creates a plain stored slot.
- Attribute bits other than enumerability (`CustomAccessor`, the attributes of `putDirect`).
- `WTF::setTimeZoneOverride`: its answer is a parameter `string -> bool`, and its effect is recorded only as the name it was offered.
- `resetIfNecessarySlow`: recorded only as a reset count.
- The engine's `parseIndex`: not part of this model. The builder and property access take any parser that yields array indices (at most 2^32 − 2), the same one for both; `ArrayIndex.ParseArrayIndex` is the ECMA-262 rule.
- Pre-sizing the object when there are fewer than 63 variables (lines 122-126): performance only.
- The commented-out reinstall of the TZ accessor (lines 108-110): TZ enumerability is fixed when the object is built.
- Construction failing when the engine runs out of memory: not modelled.
- Sharing the process-wide timezone state between engine instances, and any concurrency on it.
- PropertyAccess.EnumerableKeys: gives the set of keys listed, not their order (the engine lists indices ascending, then names in the order they were installed, TZ last), because the model's slot maps keep no insertion order.
- Accessors.TzSet: counts the length of the name in characters, whereas the engine counts UTF-16 code units. The 32 bound is therefore the same only for names without characters outside the Basic Multilingual Plane.
- Builder.Classify: an empty enumerated name is handled as a lazy name. The source only asserts in debug builds that names are non-empty (line 138), and would read past the name otherwise.
