/** The JSON values a request body and a stored restaurant are made of, and
    JavaScript's truthiness on them. */
module Json {

  /** A JavaScript value as the controller sees it.  `StrList` is an array of
      strings (the shape of `images`); `Composite` stands for any other array
      or object, which the controller only carries through. */
  datatype Value =
    | Undefined
    | Null
    | Bool(b: bool)
    | Num(n: int)
    | Str(s: string)
    | StrList(items: seq<string>)
    | Composite(text: string)

  /** A plain object: a partial record. */
  type Fields = map<string, Value>

  /** Property access `obj.key`: a missing key reads as `undefined`. */
  function Get(obj: Fields, key: string): Value
  {
    if key in obj then obj[key] else Undefined
  }

  /** JavaScript's `!!v`: `undefined`, `null`, `false`, `0` and `""` are falsy. */
  predicate Truthy(v: Value)
  {
    match v
    case Undefined => false
    case Null => false
    case Bool(b) => b
    case Num(n) => n != 0
    case Str(s) => s != ""
    case StrList(_) => true
    case Composite(_) => true
  }
}
