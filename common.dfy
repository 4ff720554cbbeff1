/** Small value types shared by every module: optional values, HTTP-like
    outcomes and JavaScript truthiness of request fields. */
module Common {

  datatype Option<+T> = None | Some(value: T) {
    function GetOr(default: T): T {
      match this
      case Some(v) => v
      case None => default
    }
  }

  datatype Result<+T, +E> = Ok(value: T) | Err(error: E)

  /** A scalar as it arrives in a JSON request body.  `Undefined` stands for
      a missing field (and for `null`). */
  datatype JsValue = Undefined | Str(s: string) | Num(n: int) | Bool(b: bool)

  /** JavaScript truthiness: `undefined`, `""`, `0` and `false` are falsy. */
  predicate Truthy(v: JsValue) {
    match v
    case Undefined => false
    case Str(s) => s != ""
    case Num(n) => n != 0
    case Bool(b) => b
  }

  /** A numeric form field as the server sees it: absent (or empty), a
      number, or text that does not parse as a number (`NaN`). */
  datatype FormNumber = Absent | Number(value: int) | NotANumber

  function Min(a: int, b: int): (m: int)
    ensures m <= a && m <= b && (m == a || m == b)
  {
    if a <= b then a else b
  }

  function Max(a: int, b: int): (m: int)
    ensures m >= a && m >= b && (m == a || m == b)
  {
    if a >= b then a else b
  }
}
