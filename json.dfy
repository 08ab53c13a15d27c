/**
 * The JSON values exchanged with the search API and held in entry
 * dictionaries, with Python's truthiness and hashing on them.
 * Floating-point numbers are not represented.
 */
module Json {

  datatype Value =
    | Null
    | Bool(b: bool)
    | Int(i: int)
    | Str(s: string)
    | Arr(items: seq<Value>)
    | Obj(fields: map<string, Value>)

  /** Python's bool(v): None, False, 0, "", [] and {} are false. */
  predicate Truthy(v: Value)
  {
    match v
    case Null => false
    case Bool(b) => b
    case Int(i) => i != 0
    case Str(s) => s != ""
    case Arr(items) => items != []
    case Obj(fields) => fields != map[]
  }

  /** hash(v) is defined: lists and dictionaries are unhashable. */
  predicate Hashable(v: Value)
  {
    !v.Arr? && !v.Obj?
  }

  /**
   * The element a set of hashable values stores for v: True and 1 are
   * equal with equal hashes, and so are False and 0, so a Boolean stands
   * for the integer it equals. Two hashable values are the same member
   * of a set exactly when their keys are equal.
   */
  function HashKey(v: Value): (k: Value)
    ensures Truthy(k) == Truthy(v) && Hashable(k) == Hashable(v)
    ensures !k.Bool? && (!v.Bool? ==> k == v)
    ensures v.Bool? ==> k == Int(if v.b then 1 else 0)
  {
    match v
    case Bool(b) => Int(if b then 1 else 0)
    case _ => v
  }

  /** Two hashable values have the same key exactly when Python's == holds between them. */
  lemma SameKey(u: Value, v: Value)
    requires Hashable(u) && Hashable(v)
    ensures HashKey(u) == HashKey(v) <==>
      u == v || (u.Bool? && v == Int(if u.b then 1 else 0)) || (v.Bool? && u == Int(if v.b then 1 else 0))
  {
  }

  /** Python's d.get(key): the value stored under key, or None. */
  function Get(d: map<string, Value>, key: string): Value
  {
    if key in d then d[key] else Null
  }
}
