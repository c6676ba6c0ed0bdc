/** The Python values construction variables and keyword arguments can hold,
    as far as the tools inspect them. */
module PyValue {

  datatype Value =
    | VNone
    | VBool(b: bool)
    | VInt(i: int)
    | VStr(s: string)
    | VList(items: seq<Value>)
    | VDict(entries: seq<(string, Value)>)

  /** Python truthiness: `None`, `False`, `0`, `""`, `[]` and `{}` are false. */
  predicate Truthy(v: Value) {
    match v
    case VNone => false
    case VBool(b) => b
    case VInt(i) => i != 0
    case VStr(s) => s != ""
    case VList(items) => |items| > 0
    case VDict(entries) => |entries| > 0
  }

  /** A construction environment or a keyword-argument dictionary. */
  type Env = map<string, Value>

  /** `d.get(k)`: the value, or `None` when the key is missing. */
  function Get(d: Env, k: string): (r: Value)
    ensures k !in d ==> r == VNone
    ensures k in d ==> r == d[k]
  {
    if k in d then d[k] else VNone
  }
}
