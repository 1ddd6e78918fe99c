/** The Python built-ins the services apply to parsed JSON values: truthiness,
    `or`, `str()`, `int()`, `in`, subscripting, item assignment and `.get`, and the
    exceptions they raise. A raised exception is the `Failure` side of a `Result`. */
module Builtins {
  import opened Wrappers
  import opened Text
  import opened Json

  datatype Exception =
    | KeyError(key: string)
    | TypeError(message: string)
    | ValueError(message: string)
    | AttributeError(message: string)
    | OverflowError(message: string)

  /** Python's `bool(v)`: None, False, zero, and empty strings, lists and dicts are false. */
  predicate Truthy(v: Json) {
    match v
    case JNull => false
    case JBool(b) => b
    case JInt(i) => i != 0
    case JFloat(m, _) => m != 0
    case JString(s) => s != ""
    case JArray(items) => items != []
    case JObject(d) => d.entries != map[]
  }

  /** Python's `a or b`. */
  function Or(a: Json, b: Json): Json {
    if Truthy(a) then a else b
  }

  /** Python's `str(v)`. Strings, ints, booleans and None are rendered exactly as
      Python renders them; floats, lists and dicts are rendered by `repr`, which
      stands for Python's own rendering of those kinds. */
  function Str(repr: Json -> string, v: Json): string {
    match v
    case JString(s) => s
    case JInt(i) => IntToString(i)
    case JBool(b) => if b then "True" else "False"
    case JNull => "None"
    case _ => repr(v)
  }

  function Pow10(e: nat): (r: nat)
    ensures 0 < r
  {
    if e == 0 then 1 else 10 * Pow10(e - 1)
  }

  /** Integer division rounding toward zero, as Python's `int()` truncates a float. */
  function TruncDiv(a: int, b: int): int
    requires 0 < b
  {
    if 0 <= a then a / b else -((-a) / b)
  }

  /** Python's `int(v)`. */
  function ToInt(v: Json): (r: Result<int, Exception>)
    ensures v.JInt? ==> r == Success(v.i)
    ensures v.JString? ==> (r.Success? <==> ParseInt(v.s).Some?)
    ensures v.JString? && r.Success? ==> ParseInt(v.s) == Some(r.value)
    ensures v.JNull? || v.JArray? || v.JObject? ==> r.Failure? && r.error.TypeError?
  {
    match v
    case JBool(b) => Success(if b then 1 else 0)
    case JInt(i) => Success(i)
    case JFloat(m, e) => Success(if 0 <= e then m * Pow10(e) else TruncDiv(m, Pow10(-e)))
    case JString(s) =>
      (match ParseInt(s)
       case Some(i) => Success(i)
       case None => Failure(ValueError("invalid literal for int() with base 10")))
    case _ => Failure(TypeError("int() argument must be a string, a bytes-like object or a real number"))
  }

  /** `int()` of a float with a fractional part drops that part, rounding toward zero:
      the result is the integer of largest magnitude not beyond the float's value. */
  lemma FloatToIntTruncates(m: int, e: int)
    requires e < 0
    ensures var n := ToInt(JFloat(m, e)).value; var p := Pow10(-e);
      && (0 <= m ==> 0 <= n && n * p <= m < (n + 1) * p)
      && (m < 0 ==> n <= 0 && (n - 1) * p < m <= n * p)
  {
    var p := Pow10(-e);
    if 0 <= m {
      DivisionBounds(m, p);
    } else {
      DivisionBounds(-m, p);
      var q := (-m) / p;
      assert (-q - 1) * p == -((q + 1) * p);
      assert (-q) * p == -(q * p);
    }
  }

  lemma DivisionBounds(a: nat, p: nat)
    requires 0 < p
    ensures 0 <= a / p && (a / p) * p <= a < (a / p + 1) * p
  {
    var q, r := a / p, a % p;
    assert a == q * p + r && 0 <= r < p;
    assert (q + 1) * p == q * p + p;
  }

  /** `int(str(i)) == i` for every int. */
  lemma IntOfStr(repr: Json -> string, i: int)
    ensures ToInt(JString(Str(repr, JInt(i)))) == Success(i)
  {
    ParseIntToString(i);
  }

  /** Python's `key in container` for a string key: dict membership, list
      membership, or substring search; TypeError for numbers, booleans and None. */
  function In(key: string, container: Json): Result<bool, Exception> {
    match container
    case JObject(f) => Success(HasKey(f, key))
    case JArray(items) => Success(JString(key) in items)
    case JString(s) => Success(Occurs(key, s))
    case _ => Failure(TypeError("argument is not iterable"))
  }

  /** Python's `container[key]` for a string key. */
  function GetItem(container: Json, key: string): Result<Json, Exception> {
    match container
    case JObject(f) => if HasKey(f, key) then Success(Lookup(f, key).value) else Failure(KeyError(key))
    case JArray(_) => Failure(TypeError("list indices must be integers or slices, not str"))
    case JString(_) => Failure(TypeError("string indices must be integers"))
    case _ => Failure(TypeError("object is not subscriptable"))
  }

  /** Python's `container[key] = v` for a string key. */
  function SetItem(container: Json, key: string, v: Json): Result<Json, Exception> {
    match container
    case JObject(f) => Success(JObject(Put(f, key, v)))
    case JArray(_) => Failure(TypeError("list indices must be integers or slices, not str"))
    case JString(_) => Failure(TypeError("'str' object does not support item assignment"))
    case _ => Failure(TypeError("object does not support item assignment"))
  }

  /** The dict a `.get` call needs: any other value raises AttributeError. */
  function AsDict(v: Json): Result<Dict, Exception> {
    if v.JObject? then Success(v.fields) else Failure(AttributeError("object has no attribute 'get'"))
  }
}
