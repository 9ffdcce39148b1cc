/** Python's view of a decoded JSON document, as `requests.Response.json()`
    hands it to main.py: `None`, `bool`, `int`, `str`, `list` and `dict`.
    Truthiness, `dict.get`, the `or` operator and set membership follow
    Python's rules. */
module PyJson {

  datatype Option<+T> = None | Some(value: T)

  datatype Json =
    | JNull
    | JBool(b: bool)
    | JInt(i: int)
    | JStr(s: string)
    | JArr(items: seq<Json>)
    | JObj(fields: map<string, Json>)

  /** Python's `bool(v)`: `None`, `False`, `0`, `""`, `[]` and `{}` are falsy. */
  predicate Truthy(v: Json) {
    match v
    case JNull => false
    case JBool(b) => b
    case JInt(i) => i != 0
    case JStr(s) => |s| > 0
    case JArr(a) => |a| > 0
    case JObj(m) => |m| > 0
  }

  /** Python's `a or b`: the first operand when it is truthy, else the second. */
  function Or(a: Json, b: Json): (r: Json)
    ensures Truthy(r) <==> Truthy(a) || Truthy(b)
    ensures Truthy(a) ==> r == a
    ensures !Truthy(a) ==> r == b
  {
    if Truthy(a) then a else b
  }

  /** `o.get(k)` on a dict: the value under `k`, or `None` when `k` is absent.
      On anything that is not a dict the source would fail; callers test
      `JObj?` first. */
  function Get(o: Json, k: string): (r: Json)
    ensures o.JObj? && k in o.fields ==> r == o.fields[k]
    ensures !(o.JObj? && k in o.fields) ==> r == JNull
  {
    if o.JObj? && k in o.fields then o.fields[k] else JNull
  }

  /** Whether Python can put the value in a `set`: lists and dicts cannot. */
  predicate Hashable(v: Json) {
    !v.JArr? && !v.JObj?
  }

  /** The identity a Python `set` uses for a hashable value: `True == 1`
      and `False == 0` (with equal hashes), so each pair shares one key. */
  function Key(v: Json): (k: Json)
    ensures !v.JBool? ==> k == v
    ensures v.JBool? ==> k.JInt? && (k.i == 1 <==> v.b) && (k.i == 0 <==> !v.b)
    ensures Hashable(v) ==> Hashable(k)
    ensures Truthy(v) <==> Truthy(k)
  {
    match v
    case JBool(b) => JInt(if b then 1 else 0)
    case _ => v
  }

  /** Two hashable values are the same set element exactly when they are
      equal or are `True` and `1`, or `False` and `0`. */
  lemma KeyEquality(a: Json, b: Json)
    requires Hashable(a) && Hashable(b)
    ensures Key(a) == Key(b) <==>
      a == b || {a, b} == {JBool(true), JInt(1)} || {a, b} == {JBool(false), JInt(0)}
  {
  }
}
