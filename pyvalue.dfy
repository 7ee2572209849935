/**
 * Decoded JSON/YAML values as the Python code sees them, with Python's
 * truthiness, `a or b`, `dict.get`, `str(v)`, `float(v)` and `int(v)`.
 */
module PyValue {
  import opened Wrappers
  import opened Text
  import opened Numbers

  datatype Value =
    | PyNone
    | PyBool(b: bool)
    | PyInt(i: int)
    | PyFloat(x: real)
    | PyStr(s: string)
    | PyList(items: seq<Value>)
    | PyDict(fields: map<string, Value>)

  /**
   * The exceptions the modelled code raises or catches. `TimestampOutOfRange`
   * stands for whatever `datetime.fromtimestamp` raises for a time outside the
   * years 1 to 9999 (ValueError, OverflowError or OSError, by platform).
   */
  datatype Exception =
    TypeError | ValueError | AttributeError | KeyError(key: string) | ZeroDivisionError | RuntimeError | UnicodeDecodeError
    | TimestampOutOfRange

  /** `bool(v)`. */
  predicate Truthy(v: Value) {
    match v
    case PyNone => false
    case PyBool(b) => b
    case PyInt(i) => i != 0
    case PyFloat(x) => x != 0.0
    case PyStr(s) => s != []
    case PyList(items) => items != []
    case PyDict(fields) => fields != map[]
  }

  /** `vs[0] or vs[1] or ...`: the first truthy value, or the last one when none is truthy. */
  function FirstTruthy(vs: seq<Value>): (r: Value)
    requires |vs| >= 1
  {
    if |vs| == 1 || Truthy(vs[0]) then vs[0] else FirstTruthy(vs[1..])
  }

  /** An `or` chain picks the first truthy operand, and falls through to the last operand only when none is truthy. */
  lemma {:induction false} FirstTruthyPicks(vs: seq<Value>, k: nat)
    requires k < |vs|
    requires forall j :: 0 <= j < k ==> !Truthy(vs[j])
    requires Truthy(vs[k]) || k == |vs| - 1
    ensures FirstTruthy(vs) == vs[k]
  {
    if k > 0 {
      assert !Truthy(vs[0]);
      FirstTruthyPicks(vs[1..], k - 1);
    }
  }

  /** An `or` chain yields a falsy value exactly when every operand is falsy. */
  lemma {:induction false} FirstTruthyFalsy(vs: seq<Value>)
    requires |vs| >= 1
    ensures !Truthy(FirstTruthy(vs)) <==> forall j :: 0 <= j < |vs| ==> !Truthy(vs[j])
  {
    if |vs| > 1 && !Truthy(vs[0]) {
      FirstTruthyFalsy(vs[1..]);
      assert forall j :: 1 <= j < |vs| ==> vs[j] == vs[1..][j - 1];
    }
  }

  /** `a or b`. */
  lemma FirstTruthyOfTwo(a: Value, b: Value)
    ensures FirstTruthy([a, b]) == if Truthy(a) then a else b
  {
    assert [a, b][1..] == [b];
  }

  /** `a or b or c`. */
  lemma FirstTruthyOfThree(a: Value, b: Value, c: Value)
    ensures FirstTruthy([a, b, c]) == if Truthy(a) then a else if Truthy(b) then b else c
  {
    assert [a, b, c][1..] == [b, c];
    FirstTruthyOfTwo(b, c);
  }

  /** `d.get(k)`. */
  function Get(d: map<string, Value>, k: string): (v: Value)
    ensures k !in d ==> v == PyNone
  {
    if k in d then d[k] else PyNone
  }

  /** `str(v)`. Floats are rendered only when integral and below 10**16, lists and dicts not at all. */
  function Render(v: Value): string {
    match v
    case PyNone => "None"
    case PyBool(b) => if b then "True" else "False"
    case PyInt(i) => IntToString(i)
    case PyFloat(x) =>
      if x == x.Floor as real && -10_000_000_000_000_000 < x.Floor < 10_000_000_000_000_000
      then IntToString(x.Floor) + ".0" else "<float>"
    case PyStr(s) => s
    case PyList(_) => "<list>"
    case PyDict(_) => "<dict>"
  }

  /** `str(v or "")`, the way every text field of a payload is read. */
  function TextOf(v: Value): (s: string)
    ensures s == [] <==> !Truthy(v)
  {
    if Truthy(v) then Render(v) else ""
  }

  /** `float(v)`. */
  function ToFloat(v: Value): (r: Result<real, Exception>)
    ensures r.Err? ==> r.error == TypeError || r.error == ValueError
  {
    match v
    case PyBool(b) => Ok(if b then 1.0 else 0.0)
    case PyInt(i) => Ok(i as real)
    case PyFloat(x) => Ok(x)
    case PyStr(s) => if ParseFloat(s).Some? then Ok(ParseFloat(s).value) else Err(ValueError)
    case _ => Err(TypeError)
  }

  /** `int(v)`. */
  function ToInt(v: Value): (r: Result<int, Exception>)
    ensures r.Err? ==> r.error == TypeError || r.error == ValueError
  {
    match v
    case PyBool(b) => Ok(if b then 1 else 0)
    case PyInt(i) => Ok(i)
    case PyFloat(x) => Ok(Trunc(x))
    case PyStr(s) => if ParseInt(s).Some? then Ok(ParseInt(s).value) else Err(ValueError)
    case _ => Err(TypeError)
  }

  /** `_as_float(value, default)` of backend/store.py: `float(value)`, or `default` on TypeError/ValueError. */
  function AsFloat(v: Value, default: real): (r: real)
    ensures v.PyNone? || v.PyList? || v.PyDict? ==> r == default
    ensures v.PyInt? ==> r == v.i as real
    ensures v.PyFloat? ==> r == v.x
  {
    match ToFloat(v)
    case Ok(x) => x
    case Err(_) => default
  }

  /** `_as_int(value, default)` of backend/store.py: `int(value)`, or `default` on TypeError/ValueError. */
  function AsInt(v: Value, default: int): (r: int)
    ensures v.PyNone? || v.PyList? || v.PyDict? ==> r == default
    ensures v.PyInt? ==> r == v.i
  {
    match ToInt(v)
    case Ok(i) => i
    case Err(_) => default
  }

  /** Text that parses as an integer converts to that integer. */
  lemma AsIntOfText(s: string, default: int)
    requires ParseInt(s).Some?
    ensures AsInt(PyStr(s), default) == ParseInt(s).value
  {
  }

  /** Text that parses as a number converts to that number. */
  lemma AsFloatOfText(s: string, default: real)
    requires ParseFloat(s).Some?
    ensures AsFloat(PyStr(s), default) == ParseFloat(s).value
  {
  }

  /** A rendered integer read back as text gives the integer back. */
  lemma TextNumbersRoundTrip(i: int, intDefault: int, floatDefault: real)
    ensures AsInt(PyStr(IntToString(i)), intDefault) == i
    ensures AsFloat(PyStr(IntToString(i)), floatDefault) == i as real
  {
    ParseIntRender(i);
    AsIntOfText(IntToString(i), intDefault);
    ParseFloatRender(i);
    AsFloatOfText(IntToString(i), floatDefault);
  }
}
