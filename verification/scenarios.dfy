/**
  The built object as a script sees it: what enumeration lists, what the first
  read of each kind of name returns, and worked instances of the object's
  promised behaviour (an index-named variable readable at
  once, a name like "1a" staying lazy, TZ reading as undefined until written,
  an over-long TZ write that leaves the process timezone alone).
 */
module Scenarios {
  import opened Environment
  import opened Accessors
  import opened PropertyAccess
  import opened Builder
  import opened ArrayIndex

  /** The ECMAScript array-index parser only accepts digit-led names. */
  lemma ParseArrayIndexIsDigitLed()
    ensures IndexNamesAreDigitLed(ParseArrayIndex)
  {
  }

  /** With a parser that only accepts digit-led names, the built object is
      well formed: no named slot for TZ, none for an array index. */
  lemma BuiltIsWellformed(env: Env, parseIndex: string -> Option<ArrayIdx>)
    requires IndexNamesAreDigitLed(parseIndex)
    ensures Wellformed(parseIndex, CreateEnvironmentVariablesMap(env, parseIndex))
  {
  }

  /** Enumeration lists TZ exactly when the environment enumerated it; TZ is
      reachable by name either way. */
  lemma BuiltTzEnumerable(env: Env, parseIndex: string -> Option<ArrayIdx>)
    ensures Name(TZ) in EnumerableKeys(CreateEnvironmentVariablesMap(env, parseIndex)) <==> TZ in env.names
  {
  }

  /** Every lazily handled enumerated name is listed by enumeration. */
  lemma BuiltNamesEnumerable(env: Env, parseIndex: string -> Option<ArrayIdx>, n: string)
    requires n in env.names && Classify(parseIndex, n) == Lazy
    ensures Name(n) in EnumerableKeys(CreateEnvironmentVariablesMap(env, parseIndex))
  {
  }

  /** The first read of a lazily handled enumerated name yields the
      environment's value exactly when the name is non-empty and defined, and
      then materialises it. */
  lemma FirstReadOfBuiltName(env: Env, parseIndex: string -> Option<ArrayIdx>, n: string)
    requires IndexNamesAreDigitLed(parseIndex)
    requires n in env.names && Classify(parseIndex, n) == Lazy
    ensures var r := Get(parseIndex, env, CreateEnvironmentVariablesMap(env, parseIndex), Name(n));
            && (!r.value.Undefined? <==> n != "" && n in env.vars)
            && (n != "" && n in env.vars ==>
                  r.value == Str(env.vars[n]) && n in r.obj.named && r.obj.named[n] == Stored(r.value))
  {
  }

  /** Reading an index name, by name or by index, yields its value from build
      time in any later environment, when no other enumerated name lands on
      the same index. */
  lemma ReadOfBuiltIndexName(env: Env, later: Env, parseIndex: string -> Option<ArrayIdx>, k: nat, i: ArrayIdx)
    requires k < |env.names| && Classify(parseIndex, env.names[k]) == IndexKey(i)
    requires forall j :: 0 <= j < |env.names| && Classify(parseIndex, env.names[j]) == IndexKey(i)
                     ==> env.names[j] == env.names[k]
    ensures var obj := CreateEnvironmentVariablesMap(env, parseIndex);
            && Get(parseIndex, later, obj, Name(env.names[k])) == Read(LookupValue(env, env.names[k]), obj)
            && Get(parseIndex, later, obj, Index(i)) == Read(LookupValue(env, env.names[k]), obj)
  {
    BuildIndexedValue(env, parseIndex, k, i);
  }

  /** With the ECMAScript parser, a name is routed to index `i` exactly when it
      is the decimal text of `i`. */
  lemma ResolveArrayIndexName(n: string, i: ArrayIdx)
    ensures Resolve(ParseArrayIndex, Name(n)) == Index(i) <==> n == ToDecimal(i)
  {
    if n == ToDecimal(i) {
      ParseToDecimal(i);
    }
    if Resolve(ParseArrayIndex, Name(n)) == Index(i) {
      ParsedIsCanonical(n);
    }
  }

  /** The decimal text of a number beyond the last array index stays a name. */
  lemma {:induction false} LargeNumberIsName(i: nat)
    requires i > MaxArrayIndex
    ensures Resolve(ParseArrayIndex, Name(ToDecimal(i))) == Name(ToDecimal(i))
  {
    var n := ToDecimal(i);
    if ParseArrayIndex(n).Some? {
      DecimalOfToDecimal(i);
      assert false;
    }
  }

  /** With the ECMAScript parser, the variable named by the decimal text of an
      index reads its value from build time, by name and by index, in any later
      environment: no other name can land on that index. */
  lemma ReadOfBuiltArrayIndex(env: Env, later: Env, i: ArrayIdx)
    requires ToDecimal(i) in env.names
    ensures var obj := CreateEnvironmentVariablesMap(env, ParseArrayIndex);
            && Get(ParseArrayIndex, later, obj, Name(ToDecimal(i))) == Read(LookupValue(env, ToDecimal(i)), obj)
            && Get(ParseArrayIndex, later, obj, Index(i)) == Read(LookupValue(env, ToDecimal(i)), obj)
  {
    ParseToDecimal(i);
    var k :| 0 <= k < |env.names| && env.names[k] == ToDecimal(i);
    forall j | 0 <= j < |env.names| && Classify(ParseArrayIndex, env.names[j]) == IndexKey(i)
      ensures env.names[j] == env.names[k]
    {
      ParseArrayIndexInjective(env.names[j], env.names[k]);
    }
    ReadOfBuiltIndexName(env, later, ParseArrayIndex, k, i);
  }

  /** A variable named by the decimal text of a number beyond the last array
      index (such as "4294967295") is an ordinary name: it gets the lazy
      accessor, is listed by name, and reads the environment's value. */
  lemma BeyondLastIndex(env: Env, i: nat)
    requires i > MaxArrayIndex && ToDecimal(i) in env.names
    ensures var obj := CreateEnvironmentVariablesMap(env, ParseArrayIndex);
            && ToDecimal(i) in obj.named && obj.named[ToDecimal(i)] == Accessor
            && Name(ToDecimal(i)) in EnumerableKeys(obj)
            && Get(ParseArrayIndex, env, obj, Name(ToDecimal(i))).value == LookupValue(env, ToDecimal(i))
  {
    LargeNumberIsName(i);
  }

  /** "42" = "x" is stored under index 42 while building: reading it, as "42"
      or as 42, needs no accessor and no environment, it is listed once, and
      writing "42" changes index 42. */
  lemma NumericPassthrough(later: Env, overrideAccepted: string -> bool, clock: TimeZoneState)
    ensures var env := Env(["42"], map["42" := "x"]);
            var obj := CreateEnvironmentVariablesMap(env, ParseArrayIndex);
            && "42" !in obj.named
            && Get(ParseArrayIndex, later, obj, Index(42)) == Read(Str("x"), obj)
            && Get(ParseArrayIndex, later, obj, Name("42")) == Read(Str("x"), obj)
            && EnumerableKeys(obj) == {Index(42)}
            && Get(ParseArrayIndex, later,
                   Put(ParseArrayIndex, overrideAccepted, clock, obj, Name("42"), Str("y")).obj,
                   Index(42)).value == Str("y")
  {
    var env := Env(["42"], map["42" := "x"]);
    assert ParseArrayIndex("42") == Some(42) by {
      assert "4"[..0] == "";
      assert DecimalValue("4") == 4;
      assert "42"[..1] == "4";
      assert DecimalValue("42") == 42;
      assert Canonical("42");
    }
    ReadOfBuiltIndexName(env, later, ParseArrayIndex, 0, 42);
    var obj := CreateEnvironmentVariablesMap(env, ParseArrayIndex);
    assert obj.named == map[];
    assert obj.indexed.Keys == {42};
  }

  /** "1a" starts with a digit but is no index: it gets the lazy accessor, and
      its first read materialises the value. */
  lemma MalformedNumericIsLazy()
    ensures var env := Env(["1a"], map["1a" := "y"]);
            var obj := CreateEnvironmentVariablesMap(env, ParseArrayIndex);
            && obj.named["1a"] == Accessor
            && obj.indexed == map[]
            && Get(ParseArrayIndex, env, obj, Name("1a")).value == Str("y")
            && Get(ParseArrayIndex, env, obj, Name("1a")).obj.named["1a"] == Stored(Str("y"))
  {
  }

  /** A variable changed after its first read keeps the value first read. */
  lemma MaterializeOnce()
    ensures var before := Env(["HOME"], map["HOME" := "/a"]);
            var after := Env(["HOME"], map["HOME" := "/b"]);
            var obj := CreateEnvironmentVariablesMap(before, ParseArrayIndex);
            var first := Get(ParseArrayIndex, before, obj, Name("HOME"));
            && first.value == Str("/a")
            && Get(ParseArrayIndex, after, first.obj, Name("HOME")).value == Str("/a")
  {
  }

  /** Without TZ in the environment, TZ reads as undefined and is hidden from
      enumeration; after writing "UTC" it reads as "UTC". */
  lemma TzAbsentThenWritten(overrideAccepted: string -> bool, clock: TimeZoneState, env: Env)
    requires TZ !in env.names && TZ !in env.vars
    ensures var obj := CreateEnvironmentVariablesMap(env, ParseArrayIndex);
            && Get(ParseArrayIndex, env, obj, Name(TZ)) == Read(Undefined, obj)
            && Name(TZ) !in EnumerableKeys(obj)
            && Get(ParseArrayIndex, env, Put(ParseArrayIndex, overrideAccepted, clock, obj, Name(TZ), Str("UTC")).obj, Name(TZ)).value == Str("UTC")
  {
  }

  /** Writing TZ a value that is not a string, or a string of 32 characters or
      more, leaves the process timezone alone and is still read back exactly. */
  lemma UnusableTzWrite(overrideAccepted: string -> bool, clock: TimeZoneState, obj: EnvMap, v: Value, env: Env)
    requires !v.Str? || |v.s| >= MaxTimeZoneNameLength
    ensures Put(ParseArrayIndex, overrideAccepted, clock, obj, Name(TZ), v).clock == clock
    ensures Get(ParseArrayIndex, env, Put(ParseArrayIndex, overrideAccepted, clock, obj, Name(TZ), v).obj, Name(TZ)).value == v
  {
  }

  /** An empty value is a value for an ordinary variable but counts as absent
      for TZ: the ordinary one materialises "", TZ reads as undefined and stays
      uncached. */
  lemma EmptyValueDiffers()
    ensures var env := Env(["LANG", TZ], map["LANG" := "", TZ := ""]);
            var obj := CreateEnvironmentVariablesMap(env, ParseArrayIndex);
            && Get(ParseArrayIndex, env, obj, Name("LANG")).value == Str("")
            && Get(ParseArrayIndex, env, obj, Name("LANG")).obj.named["LANG"] == Stored(Str(""))
            && Get(ParseArrayIndex, env, obj, Name(TZ)) == Read(Undefined, obj)
  {
  }
}
