/** Dynamically typed scalars as the widgets receive them in rows and form
    data, and their conversion with `String(...)`. */
module Values {
  import opened Text

  /** An optional value: `undefined` or `null` versus a present one. */
  datatype Option<T> = None | Some(value: T)

  /** A JavaScript scalar; numbers are restricted to integers. */
  datatype Value = Str(s: string) | Int(n: int) | Bool(b: bool) | Null

  /** A record `Record<string, any>` with scalar fields. */
  type Record = map<string, Value>

  /** `String(v)`. */
  function ToText(v: Value): string
  {
    match v
    case Str(s) => s
    case Int(n) => IntToString(n)
    case Bool(b) => if b then "true" else "false"
    case Null => "null"
  }

  /** `String(row[key])`: a field the record lacks reads as `undefined`. */
  function FieldText(row: Record, key: string): (r: string)
    ensures key in row ==> r == ToText(row[key])
    ensures key !in row ==> r == "undefined"
  {
    if key in row then ToText(row[key]) else "undefined"
  }
}
