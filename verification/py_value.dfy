/** The JSON-shaped values a request body carries, with the parts of
    Python's semantics the validators rely on: truthiness, `==` against a
    few literals, `isinstance` and `str()`. */
module PyValue {
  import opened Text

  /** A decoded JSON value.  `Bool` is kept apart from `Int` because
      `str()` and `==` treat them differently, although `isinstance(v, int)`
      holds for both. */
  datatype Value =
    | Null
    | Str(s: string)
    | Int(i: int)
    | Bool(b: bool)
    | Float(r: real)
    | List(items: seq<Value>)
    | Dict(entries: map<string, Value>)

  /** `bool(v)`. */
  predicate Truthy(v: Value) {
    match v
    case Null => false
    case Str(s) => s != ""
    case Int(i) => i != 0
    case Bool(b) => b
    case Float(r) => r != 0.0
    case List(items) => items != []
    case Dict(entries) => entries != map[]
  }

  /** `v in ['', None, [], {}]`, which compares with `==`. */
  predicate IsEmptyLiteral(v: Value) {
    v == Str("") || v == Null || v == List([]) || v == Dict(map[])
  }

  /** `isinstance(v, int)`: booleans are integers in Python. */
  predicate IsIntLike(v: Value) {
    v.Int? || v.Bool?
  }

  /** `v == n` for an integer literal `n`. */
  predicate EqualsInt(v: Value, n: int) {
    match v
    case Int(i) => i == n
    case Bool(b) => (if b then 1 else 0) == n
    case Float(r) => r == n as real
    case _ => false
  }

  /** `str(v)` for an `int` (or `bool`). */
  function IntText(v: Value): (s: string)
    requires IsIntLike(v)
  {
    match v
    case Int(i) => IntToString(i)
    case Bool(b) => if b then "True" else "False"
  }

  /** `d.get(k)`: `None` for a missing key. */
  function Get(d: map<string, Value>, k: string): (v: Value)
    ensures k !in d ==> v == Null
    ensures k in d ==> v == d[k]
  {
    if k in d then d[k] else Null
  }

  /** The values Python treats as false are the four empty literals and
      the three zeros; so `0`, `False` and `0.0` are false without being
      "empty" in the `['', None, [], {}]` sense. */
  lemma FalsyValues(v: Value)
    ensures !Truthy(v) <==> IsEmptyLiteral(v) || v == Int(0) || v == Bool(false) || v == Float(0.0)
  {
  }

  /** `bool` values compare equal to 0 and 1 only. */
  lemma BoolEqualsInt(b: bool, n: int)
    ensures EqualsInt(Bool(b), n) <==> n == (if b then 1 else 0)
  {
  }
}
