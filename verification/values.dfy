/** Dynamic values as they appear in change-set rows and in intent payloads
    (JSON scalars), with Python's truthiness and `str()` rendering. */
module Values {
  import opened Wrappers
  import Text

  /** A JSON scalar: Python `None`, a bool, an int or a str. */
  datatype Value = Null | Bool(b: bool) | Int(i: int) | Str(s: string)

  /** Python truthiness of a scalar. */
  predicate Truthy(v: Value) {
    match v
    case Null => false
    case Bool(b) => b
    case Int(i) => i != 0
    case Str(s) => s != ""
  }

  /** Python's `str(v)`. */
  function Render(v: Value): string {
    match v
    case Null => "None"
    case Bool(b) => if b then "True" else "False"
    case Int(i) => Text.IntToString(i)
    case Str(s) => s
  }

  /** A change-set row or a payload object: a flat key-value map. */
  type Row = map<string, Value>

  /** `row.get(key, default)`. */
  function Get(row: Row, key: string, default: Value): Value {
    if key in row then row[key] else default
  }

  /** The string under `key`, or "" when it is absent or not a string. */
  function TextAt(row: Row, key: string): string {
    if key in row && row[key].Str? then row[key].s else ""
  }

  // ---------------------------------------------------------------------------
  // Optional strings (`str | None` attributes of the intent models)

  /** Truthiness of an optional string: present and non-empty. */
  predicate Present(o: Option<string>) {
    o.Some? && o.value != ""
  }

  /** Python's `a or b` on optional strings. */
  function OrElse(a: Option<string>, b: Option<string>): (r: Option<string>)
    ensures Present(r) <==> Present(a) || Present(b)
    ensures Present(a) ==> r == a
  {
    if Present(a) then a else b
  }

  /** An optional string as an f-string renders it. */
  function Show(o: Option<string>): string {
    match o
    case None => "None"
    case Some(s) => s
  }

  /** An optional string as a row value. */
  function AsValue(o: Option<string>): Value {
    match o
    case None => Null
    case Some(s) => Str(s)
  }
}
