/**
  The values the environment object deals in, and the environment source it
  reads from.

  The source enumerates variable names and answers point lookups; both come
  from outside the engine, so here they are a plain sequence of names and a
  map from name to text.
 */
module Environment {

  datatype Option<+T> = None | Some(value: T)

  /** A script value as far as this object is concerned: `undefined`, a string,
      or any other value (number, object, ...), kept opaque. */
  datatype Value = Undefined | Str(s: string) | Other(id: nat)

  /** The environment source: the enumeration order of names and the current
      value of every defined variable. Nothing forces `names` and `vars` to
      agree; the object copes with a name whose lookup fails. */
  datatype Env = Env(names: seq<string>, vars: map<string, string>)

  /** The one reserved variable name. */
  const TZ: string := "TZ"

  /** Point lookup of one variable. */
  function Lookup(env: Env, name: string): Option<string>
  {
    if name in env.vars then Some(env.vars[name]) else None
  }

  /** The value a lookup turns into: the text as a string, or `undefined` when
      the variable is not defined. */
  function LookupValue(env: Env, name: string): Value
  {
    match Lookup(env, name)
    case Some(v) => Str(v)
    case None => Undefined
  }
}
