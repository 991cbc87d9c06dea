/**
  Building the environment object: one pass over the enumerated names, in
  order. TZ is only noted; a digit-led name that parses as an array index is
  looked up at once and stored under that index; every other name gets the
  lazy accessor. The TZ accessor comes last, with an empty cache, enumerable
  exactly when TZ was among the names.

  The index parser is a parameter: the engine's own is not part of this model
  (ArrayIndex.ParseArrayIndex is the one ECMAScript prescribes).
 */
module Builder {
  import opened Environment
  import opened ArrayIndex
  import opened Accessors

  /** How the builder treats an enumerated name. */
  datatype Kind = Reserved | IndexKey(index: ArrayIdx) | Lazy

  function Classify(parseIndex: string -> Option<ArrayIdx>, name: string): Kind
  {
    if name == TZ then Reserved
    else if |name| > 0 && IsDigit(name[0]) && parseIndex(name).Some? then IndexKey(parseIndex(name).value)
    else Lazy
  }

  /** The builder's state during its pass: slots so far, and whether TZ was seen. */
  datatype Slots = Slots(named: map<string, Slot>, indexed: map<ArrayIdx, Value>, hasTZ: bool)

  /** One step of the pass. */
  function Install(env: Env, parseIndex: string -> Option<ArrayIdx>, s: Slots, name: string): Slots
  {
    match Classify(parseIndex, name)
    case Reserved => s.(hasTZ := true)
    case IndexKey(i) => s.(indexed := s.indexed[i := LookupValue(env, name)])
    case Lazy => s.(named := s.named[name := Accessor])
  }

  /** The pass over `names`, the last name installed last. */
  function BuildSlots(env: Env, parseIndex: string -> Option<ArrayIdx>, names: seq<string>): Slots
    decreases |names|
  {
    if |names| == 0 then Slots(map[], map[], false)
    else Install(env, parseIndex, BuildSlots(env, parseIndex, names[..|names| - 1]), names[|names| - 1])
  }

  /** Name `names[k]` is the last one in `names` that lands on index `i`, so its
      value is the one left there. */
  ghost predicate LastAtIndex(parseIndex: string -> Option<ArrayIdx>, names: seq<string>, k: int, i: ArrayIdx)
  {
    && 0 <= k < |names|
    && Classify(parseIndex, names[k]) == IndexKey(i)
    && forall j :: k < j < |names| ==> Classify(parseIndex, names[j]) != IndexKey(i)
  }

  /** One step of the pass changes the named slots only for a lazy name. */
  lemma InstallNamed(env: Env, parseIndex: string -> Option<ArrayIdx>, s: Slots, name: string)
    ensures Classify(parseIndex, name) == Lazy ==>
              Install(env, parseIndex, s, name).named == s.named[name := Accessor]
    ensures Classify(parseIndex, name) != Lazy ==> Install(env, parseIndex, s, name).named == s.named
  {
  }

  /** The pass gives an accessor to exactly the names classified `Lazy`. */
  lemma {:induction false} BuildSlotsNamed(env: Env, parseIndex: string -> Option<ArrayIdx>, names: seq<string>)
    ensures forall n :: n in BuildSlots(env, parseIndex, names).named
                    <==> n in names && Classify(parseIndex, n) == Lazy
    ensures forall n :: n in BuildSlots(env, parseIndex, names).named
                    ==> BuildSlots(env, parseIndex, names).named[n] == Accessor
  {
    if |names| > 0 {
      var last := names[|names| - 1];
      var init := names[..|names| - 1];
      BuildSlotsNamed(env, parseIndex, init);
      var b0 := BuildSlots(env, parseIndex, init);
      var b := BuildSlots(env, parseIndex, names);
      InstallNamed(env, parseIndex, b0, last);
      assert names == init + [last];
      forall n
        ensures n in b.named <==> n in names && Classify(parseIndex, n) == Lazy
      {
        assert n in names <==> n in init || n == last;
      }
    }
  }

  /** The pass records TZ exactly when it is among the names. */
  lemma {:induction false} BuildSlotsSawTZ(env: Env, parseIndex: string -> Option<ArrayIdx>, names: seq<string>)
    ensures BuildSlots(env, parseIndex, names).hasTZ <==> TZ in names
  {
    if |names| > 0 {
      var init := names[..|names| - 1];
      BuildSlotsSawTZ(env, parseIndex, init);
      assert names == init + [names[|names| - 1]];
    }
  }

  /** One step of the pass changes the indexed values only for an index name. */
  lemma InstallIndexed(env: Env, parseIndex: string -> Option<ArrayIdx>, s: Slots, name: string)
    ensures Classify(parseIndex, name).IndexKey? ==>
              Install(env, parseIndex, s, name).indexed
                == s.indexed[Classify(parseIndex, name).index := LookupValue(env, name)]
    ensures !Classify(parseIndex, name).IndexKey? ==> Install(env, parseIndex, s, name).indexed == s.indexed
  {
  }

  /** The pass fills exactly the indices some name parses to. */
  lemma {:induction false} BuildSlotsIndexKeys(env: Env, parseIndex: string -> Option<ArrayIdx>, names: seq<string>)
    ensures forall i :: i in BuildSlots(env, parseIndex, names).indexed
                    <==> exists k :: 0 <= k < |names| && Classify(parseIndex, names[k]) == IndexKey(i)
  {
    if |names| > 0 {
      var last := |names| - 1;
      var init := names[..last];
      BuildSlotsIndexKeys(env, parseIndex, init);
      var b0 := BuildSlots(env, parseIndex, init);
      var b := BuildSlots(env, parseIndex, names);
      InstallIndexed(env, parseIndex, b0, names[last]);
      forall i
        ensures i in b.indexed <==> exists k :: 0 <= k < |names| && Classify(parseIndex, names[k]) == IndexKey(i)
      {
        if i in b.indexed && Classify(parseIndex, names[last]) != IndexKey(i) {
          assert i in b0.indexed;
          var k :| 0 <= k < |init| && Classify(parseIndex, init[k]) == IndexKey(i);
          assert names[k] == init[k];
        }
        if exists k :: 0 <= k < |names| && Classify(parseIndex, names[k]) == IndexKey(i) {
          var k :| 0 <= k < |names| && Classify(parseIndex, names[k]) == IndexKey(i);
          if k < last {
            assert init[k] == names[k];
          }
        }
      }
    }
  }

  /** Each filled index holds the looked-up value of the last name that lands
      on it. */
  lemma {:induction false} BuildSlotsIndexed(env: Env, parseIndex: string -> Option<ArrayIdx>, names: seq<string>)
    ensures forall i, k :: LastAtIndex(parseIndex, names, k, i)
                    ==> i in BuildSlots(env, parseIndex, names).indexed
                        && BuildSlots(env, parseIndex, names).indexed[i] == LookupValue(env, names[k])
  {
    if |names| > 0 {
      var last := |names| - 1;
      var init := names[..last];
      BuildSlotsIndexed(env, parseIndex, init);
      var b := BuildSlots(env, parseIndex, names);
      InstallIndexed(env, parseIndex, BuildSlots(env, parseIndex, init), names[last]);
      forall i, k | LastAtIndex(parseIndex, names, k, i)
        ensures i in b.indexed && b.indexed[i] == LookupValue(env, names[k])
      {
        if k < last {
          assert init[k] == names[k];
          assert LastAtIndex(parseIndex, init, k, i);
        }
      }
    }
  }

  /** Some name landing on index `i` is the last one to do so. */
  lemma {:induction false} LastAtIndexExists(parseIndex: string -> Option<ArrayIdx>, names: seq<string>, k: nat, i: ArrayIdx)
    requires k < |names| && Classify(parseIndex, names[k]) == IndexKey(i)
    ensures exists k' :: LastAtIndex(parseIndex, names, k', i)
    decreases |names| - k
  {
    if !LastAtIndex(parseIndex, names, k, i) {
      var j :| k < j < |names| && Classify(parseIndex, names[j]) == IndexKey(i);
      LastAtIndexExists(parseIndex, names, j, i);
    }
  }

  /** Building the object from the environment source. */
  function CreateEnvironmentVariablesMap(env: Env, parseIndex: string -> Option<ArrayIdx>): (obj: EnvMap)
    ensures obj.tz == TzSlot(None, TZ in env.names)
    ensures TZ !in obj.named
    ensures forall n :: n in obj.named <==> n in env.names && Classify(parseIndex, n) == Lazy
    ensures forall n :: n in obj.named ==> obj.named[n] == Accessor
    ensures forall i :: i in obj.indexed
                    <==> exists k :: 0 <= k < |env.names| && Classify(parseIndex, env.names[k]) == IndexKey(i)
    ensures forall i, k :: LastAtIndex(parseIndex, env.names, k, i)
                    ==> i in obj.indexed && obj.indexed[i] == LookupValue(env, env.names[k])
  {
    var s := BuildSlots(env, parseIndex, env.names);
    BuildSlotsNamed(env, parseIndex, env.names);
    BuildSlotsSawTZ(env, parseIndex, env.names);
    BuildSlotsIndexKeys(env, parseIndex, env.names);
    BuildSlotsIndexed(env, parseIndex, env.names);
    EnvMap(s.named, s.indexed, TzSlot(None, s.hasTZ))
  }

  /** The builder's classification of a single name: TZ gets no slot of its own,
      a digit-led name that parses as an index is stored there already read,
      and any other name, "1a" included, gets an accessor. */
  lemma BuildClassifiesName(env: Env, parseIndex: string -> Option<ArrayIdx>, n: string)
    requires n in env.names
    ensures var obj := CreateEnvironmentVariablesMap(env, parseIndex);
            && (n == TZ ==> n !in obj.named && obj.tz.enumerable)
            && (n != TZ && |n| > 0 && IsDigit(n[0]) && parseIndex(n).Some? ==>
                  n !in obj.named && parseIndex(n).value in obj.indexed)
            && (n != TZ && !(|n| > 0 && IsDigit(n[0]) && parseIndex(n).Some?) ==>
                  n in obj.named && obj.named[n] == Accessor)
  {
  }

  /** When no other enumerated name lands on the same index, an index name's
      slot holds exactly its own looked-up value (undefined when the lookup
      fails). */
  lemma BuildIndexedValue(env: Env, parseIndex: string -> Option<ArrayIdx>, k: nat, i: ArrayIdx)
    requires k < |env.names| && Classify(parseIndex, env.names[k]) == IndexKey(i)
    requires forall j :: 0 <= j < |env.names| && Classify(parseIndex, env.names[j]) == IndexKey(i)
                     ==> env.names[j] == env.names[k]
    ensures var obj := CreateEnvironmentVariablesMap(env, parseIndex);
            i in obj.indexed && obj.indexed[i] == LookupValue(env, env.names[k])
  {
    LastAtIndexExists(parseIndex, env.names, k, i);
    var k' :| LastAtIndex(parseIndex, env.names, k', i);
  }
}
