/**
 * Decoded JSON documents, seen the way the agent's Python code sees them after
 * `json.loads`: objects are dicts, `null` is `None`, and the code branches on
 * truthiness, calls `dict.get`, and formats values with f-strings.
 * JSON numbers are modelled as integers only.
 */
module PyJson {

  datatype Json =
    | JNull
    | JBool(b: bool)
    | JInt(i: int)
    | JStr(s: string)
    | JList(items: seq<Json>)
    | JObject(fields: map<string, Json>)

  /** Python truthiness: None, False, 0, "", [] and {} are false. */
  predicate Truthy(j: Json)
  {
    match j
    case JNull => false
    case JBool(b) => b
    case JInt(i) => i != 0
    case JStr(s) => s != ""
    case JList(items) => items != []
    case JObject(fields) => fields != map[]
  }

  /** `d.get(key)`: the value under `key`, or None when the key is absent. */
  function Get(d: map<string, Json>, key: string): Json
  {
    if key in d then d[key] else JNull
  }

  /** `d.get(key, default)`: the default only when the key is absent, even if the value is None. */
  function GetOr(d: map<string, Json>, key: string, default: Json): Json
  {
    if key in d then d[key] else default
  }

  /** The name Python gives the type of a decoded value, as it appears in exception messages. */
  function TypeName(j: Json): string
  {
    match j
    case JNull => "NoneType"
    case JBool(_) => "bool"
    case JInt(_) => "int"
    case JStr(_) => "str"
    case JList(_) => "list"
    case JObject(_) => "dict"
  }

  /** The message of the AttributeError raised by `j.attr` when `j` lacks that method. */
  function NoAttribute(j: Json, attr: string): string
  {
    "'" + TypeName(j) + "' object has no attribute '" + attr + "'"
  }

  predicate IsDigit(c: char)
  {
    '0' <= c <= '9'
  }

  function DigitChar(d: nat): char
    requires d < 10
  {
    "0123456789"[d]
  }

  /** Decimal digits of a natural number, most significant first, no leading zero. */
  function Digits(n: nat): (s: string)
    ensures |s| >= 1
    ensures forall k | 0 <= k < |s| :: IsDigit(s[k])
    ensures n > 0 ==> s[0] != '0'
    decreases n
  {
    if n < 10 then [DigitChar(n)] else Digits(n / 10) + [DigitChar(n % 10)]
  }

  /** The number a string of decimal digits denotes. */
  function DigitsValue(s: string): nat
    requires forall k | 0 <= k < |s| :: IsDigit(s[k])
  {
    if s == [] then 0
    else
      assert IsDigit(s[|s| - 1]);
      DigitsValue(s[..|s| - 1]) * 10 + ((s[|s| - 1] as int) - ('0' as int))
  }

  /** Reading the digits back gives the number they were written from. */
  lemma {:induction false} DigitsRoundTrip(n: nat)
    ensures DigitsValue(Digits(n)) == n
    decreases n
  {
    if n >= 10 {
      DigitsRoundTrip(n / 10);
      var s := Digits(n);
      assert s[..|s| - 1] == Digits(n / 10);
    }
  }

  /** `str(i)` for a Python int: an optional minus sign followed by decimal digits. */
  function Decimal(i: int): (s: string)
    ensures |s| >= 1
    ensures i < 0 <==> s[0] == '-'
    ensures i >= 0 ==> s == Digits(i)
    ensures i < 0 ==> s[1..] == Digits(-i)
  {
    if i < 0 then "-" + Digits(-i) else Digits(i)
  }

  /** Scalars that an f-string can render here: None, booleans, integers and strings. */
  predicate Scalar(j: Json)
  {
    !j.JList? && !j.JObject?
  }

  /** `f"{j}"` for a scalar: Python's `str` of the decoded value. */
  function PyStr(j: Json): (s: string)
    requires Scalar(j)
    ensures j.JStr? ==> s == j.s
  {
    match j
    case JNull => "None"
    case JBool(b) => if b then "True" else "False"
    case JInt(i) => Decimal(i)
    case JStr(s) => s
  }
}
