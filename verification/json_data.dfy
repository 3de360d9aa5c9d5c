/** The JSON values the sidecar file carries, as Python's `json` module decodes
    them, and the few Python conversions the renderer applies to them. */
module JsonData {
  import opened Base
  import Paths

  /** A decoded JSON value: integers and floats stay apart as Python keeps them. */
  datatype Json =
    | JNull
    | JBool(b: bool)
    | JInt(i: int)
    | JReal(r: real)
    | JStr(s: string)
    | JList(items: seq<Json>)
    | JObject(fields: map<string, Json>)

  /** A JSON object, Python's `dict`. */
  type Obj = map<string, Json>

  /** The exceptions the conversions raise. */
  datatype PyError = TypeError | ValueError | AttributeError

  /** `d.get(key, default)`. */
  function Get(d: Obj, key: string, default: Json): (v: Json)
    ensures key in d ==> v == d[key]
    ensures key !in d ==> v == default
  {
    if key in d then d[key] else default
  }

  predicate AllDigits(s: string) {
    forall k :: 0 <= k < |s| ==> Paths.IsDigit(s[k])
  }

  /** Python `int(v)`: booleans count as 0/1, floats truncate toward zero, a
      string of decimal digits is read as a number, `None`, lists and dicts
      raise `TypeError` and any other string raises `ValueError`. */
  function ToInt(v: Json): (r: Result<int, PyError>)
    ensures v.JInt? ==> r == Ok(v.i)
    ensures v.JNull? || v.JList? || v.JObject? ==> r == Err(TypeError)
    ensures r.Err? <==> v.JNull? || v.JList? || v.JObject? || (v.JStr? && !(|v.s| > 0 && AllDigits(v.s)))
    ensures v.JReal? && v.r >= 0.0 ==> r.Ok? && r.value as real <= v.r < r.value as real + 1.0
    ensures v.JReal? && v.r < 0.0 ==> r.Ok? && r.value as real - 1.0 < v.r <= r.value as real
    ensures v.JBool? ==> r == Ok(if v.b then 1 else 0)
  {
    match v
    case JNull => Err(TypeError)
    case JBool(b) => Ok(if b then 1 else 0)
    case JInt(i) => Ok(i)
    case JReal(x) => Ok(TruncReal(x))
    case JStr(s) => if |s| > 0 && AllDigits(s) then Ok(Paths.DecimalValue(s)) else Err(ValueError)
    case JList(_) => Err(TypeError)
    case JObject(_) => Err(TypeError)
  }

  /** The JSON an integer is written as, and `int()` reads it back unchanged. */
  lemma IntRoundTrip(i: int)
    ensures ToInt(JInt(i)) == Ok(i)
    ensures i >= 0 ==> ToInt(JStr(Paths.NatToString(i))) == Ok(i)
  {
    if i >= 0 {
      Paths.DecimalRoundTrip(i);
    }
  }

  /** A JSON number as a Python float comparison sees it; other values have none. */
  function Number(v: Json): (r: Option<real>)
    ensures r.Some? <==> v.JInt? || v.JReal? || v.JBool?
    ensures v.JInt? ==> r == Some(v.i as real)
    ensures v.JReal? ==> r == Some(v.r)
  {
    match v
    case JInt(i) => Some(i as real)
    case JReal(x) => Some(x)
    case JBool(b) => Some(if b then 1.0 else 0.0)
    case _ => None
  }
}
