/**
 * The part of the embedded Lua runtime that the configuration store relies on,
 * reduced to values: a global environment of named values, member access on a
 * value, and the two operations that can raise a `LuaException` (creating a
 * context and evaluating a script file), given as an oracle.
 */
module Lua {

  /** The absent marker (a nil `LuaRef`) is `None`. */
  datatype Option<T> = None | Some(value: T)

  /**
   * A Lua value that a configuration script can bind: a scalar, a table of
   * named members, or a value of another Lua type (a function, for one) whose
   * contents play no part in resolution.
   */
  datatype Value =
    | Boolean(b: bool)
    | Number(n: int)
    | Text(s: string)
    | Table(fields: map<string, Value>)
    | Other

  /** The global environment of a live context. */
  type Globals = map<string, Value>

  /** What evaluating a script file does: it raises a fault, or it leaves new globals behind. */
  datatype EvalOutcome = Fault(message: string) | Evaluated(globals: Globals)

  /**
   * The foreign runtime as seen by the store: whether constructing a context
   * faults, and what `doFile` does when given the globals of the context it
   * runs in and the full path of the file.
   */
  datatype Runtime = Runtime(contextFaults: bool, doFile: (Globals, string) -> EvalOutcome)

  /** Looking up a global binding by name; an unset name is absent. */
  function GetGlobal(g: Globals, name: string): (r: Option<Value>)
    ensures r.Some? <==> name in g
    ensures r.Some? ==> r.value == g[name]
  {
    if name in g then Some(g[name]) else None
  }

  /**
   * Member access `token[key]`. Indexing an absent value or any value that is
   * not a table yields the absent marker, as does a key the table does not bind.
   */
  function Index(token: Option<Value>, key: string): (r: Option<Value>)
    ensures r.Some? <==> token.Some? && token.value.Table? && key in token.value.fields
    ensures r.Some? ==> r.value == token.value.fields[key]
  {
    match token
    case Some(Table(fields)) => if key in fields then Some(fields[key]) else None
    case _ => None
  }
}
