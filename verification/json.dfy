/** The Python values `json.loads` produces, and the few Python operations the poller
    applies to them: `dict.get(key, default)`, subscripting with `[0]`, truthiness and
    `str(...)`. Numbers are integers; an object's keys are distinct, as in the `dict`
    that `json.loads` builds (a later duplicate key overwrites an earlier one). */
module Json {
  import opened Wrappers
  import Text

  datatype Json =
    | JNull
    | JBool(b: bool)
    | JNum(n: int)
    | JStr(s: string)
    | JArr(items: seq<Json>)
    | JObj(fields: seq<(string, Json)>)

  /** The exception a Python expression raises when it fails. */
  datatype PyError =
    | DecodeError     // json.loads on text that is not JSON
    | AttributeError  // .get on something that is not a dict
    | IndexError      // [0] on an empty list or string
    | KeyError        // [0] on a dict (JSON keys are strings, never 0)
    | TypeError       // [0] on None, a bool or a number

  /** The outcome of evaluating a Python expression: a value, or the exception it raised. */
  datatype Eval = Ok(value: Json) | Raised(error: PyError) {
    predicate IsFailure() { Raised? }

    function PropagateFailure(): Eval
      requires Raised?
    {
      this
    }

    function Extract(): Json
      requires Ok?
    {
      value
    }
  }

  const EmptyObject: Json := JObj([])

  /** The value stored under `key` in an object's fields, if any. */
  function Get(fields: seq<(string, Json)>, key: string): (r: Option<Json>)
    ensures r.None? <==> forall i :: 0 <= i < |fields| ==> fields[i].0 != key
    ensures r.Some? ==> exists i :: 0 <= i < |fields| && fields[i] == (key, r.value)
  {
    if |fields| == 0 then None
    else if fields[0].0 == key then Some(fields[0].1)
    else Get(fields[1..], key)
  }

  /** The object fields map `key` to `v`. */
  predicate HasField(fields: seq<(string, Json)>, key: string, v: Json) {
    Get(fields, key) == Some(v)
  }

  /** The object fields have no `key`. */
  predicate LacksField(fields: seq<(string, Json)>, key: string) {
    Get(fields, key).None?
  }

  /** Python's `v.get(key, default)`: only a dict has `.get`. */
  function DictGet(v: Json, key: string, default: Json): (r: Eval)
    ensures r.Ok? <==> v.JObj?
    ensures v.JObj? ==> r.value == Get(v.fields, key).GetOr(default)
  {
    match v
    case JObj(fields) => Ok(Get(fields, key).GetOr(default))
    case _ => Raised(AttributeError)
  }

  /** Python's `v[0]`. A list gives its first element and a string its first character;
      every other value, and an empty list or string, raises. */
  function Index0(v: Json): (r: Eval)
    ensures r.Ok? <==> (v.JArr? && |v.items| > 0) || (v.JStr? && |v.s| > 0)
    ensures v.JArr? && |v.items| > 0 ==> r == Ok(v.items[0])
    ensures v.JStr? && |v.s| > 0 ==> r == Ok(JStr(v.s[..1]))
    ensures (v.JArr? && |v.items| == 0) || (v.JStr? && |v.s| == 0) ==> r == Raised(IndexError)
    ensures v.JObj? ==> r == Raised(KeyError)
    ensures v.JNull? || v.JBool? || v.JNum? ==> r == Raised(TypeError)
  {
    match v
    case JArr(items) => if |items| > 0 then Ok(items[0]) else Raised(IndexError)
    case JStr(s) => if |s| > 0 then Ok(JStr(s[..1])) else Raised(IndexError)
    case JObj(_) => Raised(KeyError)
    case _ => Raised(TypeError)
  }

  /** Python truthiness: `None`, `False`, `0`, and empty strings, lists and dicts are false. */
  function Truthy(v: Json): (b: bool)
    ensures !b <==> v in {JNull, JBool(false), JNum(0), JStr(""), JArr([]), JObj([])}
  {
    match v
    case JNull => false
    case JBool(b) => b
    case JNum(n) => n != 0
    case JStr(s) => |s| > 0
    case JArr(items) => |items| > 0
    case JObj(fields) => |fields| > 0
  }

  /** Python's `repr(v)`, as `str` of a list or dict shows its elements. */
  function Repr(v: Json): string {
    match v
    case JNull => "None"
    case JBool(b) => if b then "True" else "False"
    case JNum(n) => Text.IntToString(n)
    case JStr(s) => "'" + s + "'"
    case JArr(items) =>
      "[" + Text.Join(seq(|items|, i requires 0 <= i < |items| => Repr(items[i])), ", ") + "]"
    case JObj(fields) =>
      "{" + Text.Join(seq(|fields|, i requires 0 <= i < |fields| =>
                        "'" + fields[i].0 + "': " + Repr(fields[i].1)), ", ") + "}"
  }

  /** Python's `str(v)`, which an f-string applies: a string is shown as itself. */
  function Str(v: Json): (r: string)
    ensures v.JStr? ==> r == v.s
    ensures v == JNull ==> r == "None"
    ensures v == JBool(true) ==> r == "True"
    ensures v == JBool(false) ==> r == "False"
    ensures v.JNum? ==> r == Text.IntToString(v.n)
    ensures v.JArr? ==> |r| >= 2 && r[0] == '[' && r[|r| - 1] == ']'
    ensures v.JObj? ==> |r| >= 2 && r[0] == '{' && r[|r| - 1] == '}'
  {
    if v.JStr? then v.s else Repr(v)
  }
}
