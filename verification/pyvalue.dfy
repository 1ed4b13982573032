/**
 * Raw values handed over by the quotation providers (decoded JSON documents
 * or the attribute sets of the provider's client objects), together with the
 * few pieces of Python semantics the collectors rely on: truthiness, the
 * `isinstance(x, (int, float))` test, `dict.get`, `getattr` and raised errors.
 */
module PyValue {

  /** A decoded JSON value, or the attributes of a client object as a `Dict`. */
  datatype Val =
    | Null
    | Bool(b: bool)
    | Num(x: real)
    | Str(s: string)
    | List(items: seq<Val>)
    | Dict(fields: map<string, Val>)

  /** Outcome of a Python expression: a value, or an exception raised. */
  datatype Py<+T> = Ok(value: T) | Raise

  /** Python truthiness: None, False, 0, "" and empty containers are false. */
  predicate Truthy(v: Val)
  {
    match v
    case Null => false
    case Bool(b) => b
    case Num(x) => x != 0.0
    case Str(s) => |s| > 0
    case List(items) => |items| > 0
    case Dict(fields) => |fields| > 0
  }

  /** `isinstance(v, (int, float))`; `bool` is a subclass of `int` in Python. */
  predicate IsNumber(v: Val)
  {
    v.Num? || v.Bool?
  }

  /** The numeric value of a number (`True` is 1, `False` is 0). */
  function NumberOf(v: Val): (r: real)
    requires IsNumber(v)
    ensures v.Num? ==> r == v.x
    ensures v.Bool? ==> (r == 1.0 <==> v.b) && (r == 0.0 <==> !v.b)
  {
    match v
    case Num(x) => x
    case Bool(b) => if b then 1.0 else 0.0
  }

  /** `getattr(v, key, None)`, or `v.get(key)` on a dictionary known to be one. */
  function Attr(v: Val, key: string): (r: Val)
    ensures v.Dict? && key in v.fields ==> r == v.fields[key]
    ensures !(v.Dict? && key in v.fields) ==> r == Null
  {
    if v.Dict? && key in v.fields then v.fields[key] else Null
  }

  /** `v.get(key)`: raises `AttributeError` when `v` is not a dictionary. */
  function Get(v: Val, key: string): (r: Py<Val>)
    ensures r.Raise? <==> !v.Dict?
    ensures r.Ok? ==> r.value == Attr(v, key)
  {
    if v.Dict? then Ok(Attr(v, key)) else Raise
  }

  /** `v.get(key, default)` on a dictionary: the default only when the key is absent. */
  function GetDefault(v: Val, key: string, default: Val): (r: Py<Val>)
    ensures r.Raise? <==> !v.Dict?
    ensures r.Ok? && key in v.fields ==> r.value == v.fields[key]
    ensures r.Ok? && key !in v.fields ==> r.value == default
  {
    if !v.Dict? then Raise
    else if key in v.fields then Ok(v.fields[key])
    else Ok(default)
  }

  /** `v.key` on a client object: raises `AttributeError` when the attribute is missing. */
  function AttrStrict(v: Val, key: string): (r: Py<Val>)
    ensures r.Ok? <==> v.Dict? && key in v.fields
    ensures r.Ok? ==> r.value == v.fields[key]
  {
    if v.Dict? && key in v.fields then Ok(v.fields[key]) else Raise
  }

  /**
   * `float(v)`. Numbers convert exactly; text goes through `parse`, which
   * stands for Python's decimal literal reader (None = `ValueError`);
   * anything else raises `TypeError`.
   */
  function Float(v: Val, parse: string -> Option<real>): (r: Py<real>)
    ensures IsNumber(v) ==> r == Ok(NumberOf(v))
    ensures v.Str? ==> (r.Ok? <==> parse(v.s).Some?)
    ensures v.Str? && r.Ok? ==> r.value == parse(v.s).value
    ensures !IsNumber(v) && !v.Str? ==> r.Raise?
  {
    match v
    case Num(x) => Ok(x)
    case Bool(b) => Ok(if b then 1.0 else 0.0)
    case Str(s) => if parse(s).Some? then Ok(parse(s).value) else Raise
    case _ => Raise
  }

  /** `v > 0`: ordering a non-number against an integer raises `TypeError`. */
  function IsPositive(v: Val): (r: Py<bool>)
    ensures r.Ok? <==> IsNumber(v)
    ensures r.Ok? ==> (r.value <==> NumberOf(v) > 0.0)
  {
    if IsNumber(v) then Ok(NumberOf(v) > 0.0) else Raise
  }

  /** `s * n` for a sequence and a non-negative integer: `n` copies in a row. */
  function Repeat<T>(s: seq<T>, n: nat): (r: seq<T>)
    ensures |r| == |s| * n
    ensures n > 0 ==> r[..|s|] == s
  {
    if n == 0 then [] else s + Repeat(s, n - 1)
  }

  /**
   * `v * 100`. Numbers scale; text and lists repeat a hundred times;
   * `None` and dictionaries raise `TypeError`.
   */
  function TimesHundred(v: Val): (r: Py<Val>)
    ensures IsNumber(v) ==> r == Ok(Num(100.0 * NumberOf(v)))
    ensures r.Raise? <==> v.Null? || v.Dict?
    ensures v.Str? ==> r.Ok? && r.value.Str? && |r.value.s| == 100 * |v.s|
    ensures v.List? ==> r.Ok? && r.value.List? && |r.value.items| == 100 * |v.items|
  {
    match v
    case Num(x) => Ok(Num(100.0 * x))
    case Bool(b) => Ok(Num(if b then 100.0 else 0.0))
    case Str(s) => Ok(Str(Repeat(s, 100)))
    case List(items) => Ok(List(Repeat(items, 100)))
    case _ => Raise
  }

  /** Text of a value that is a string, None otherwise. */
  function TextOf(v: Val): (r: Option<string>)
    ensures r.Some? <==> v.Str?
    ensures r.Some? ==> r.value == v.s
  {
    if v.Str? then Some(v.s) else None
  }

  import opened Wrappers
}
