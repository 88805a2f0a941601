/** The JSON request bodies the handlers read, and the replies they send. */
module Requests {
  import opened Wrappers

  /** A JSON value as Python sees it after `request.json`. A list or an
      object is `Compound`, with whether it is non-empty; numbers with a
      fractional part are not modelled. */
  datatype Json = Null | Bool(truth: bool) | Int(number: int) | Str(text: string) | Compound(nonEmpty: bool)

  /** `data.get(key)`: `None` when the key is absent. */
  function Get(data: map<string, Json>, key: string): Json
  {
    if key in data then data[key] else Null
  }

  /** Python's truth value: `None`, `False`, `0`, `""`, `[]` and `{}` are false. */
  predicate Truthy(v: Json)
  {
    match v
    case Null => false
    case Bool(b) => b
    case Int(n) => n != 0
    case Str(s) => s != ""
    case Compound(nonEmpty) => nonEmpty
  }

  /** The integer dictionary key a hashable JSON value is equal to, if any:
      Python's `True == 1` and `False == 0`; a string equals no integer. */
  function RowKey(v: Json): Option<int>
  {
    match v
    case Int(n) => Some(n)
    case Bool(b) => Some(if b then 1 else 0)
    case _ => None
  }

  /** The falsy JSON values are exactly `None`, `False`, `0`, `""`, and an empty list or object. */
  lemma TruthySpec(v: Json)
    ensures !Truthy(v) <==> v in {Null, Bool(false), Int(0), Str(""), Compound(false)}
  {
  }

  /** `RowKey(v)` is `n` exactly when Python's `v == n` holds: `v` is the
      number `n`, or a boolean and `n` is 1 for `True` and 0 for `False`. */
  lemma RowKeySpec(v: Json, n: int)
    ensures RowKey(v) == Some(n) <==> v == Int(n) || (0 <= n <= 1 && v == Bool(n == 1))
  {
  }

  /** A handler's answer: a JSON success body, or an HTTP error status with its message. */
  datatype Reply<T> = Ok(value: T) | Fail(code: int, error: string)
}
