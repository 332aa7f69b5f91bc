/**
 * The loosely typed documents the program consumes: what `yaml.safe_load`
 * produces for a symbols file, and what the request body carries as `symbols`.
 */
module Values {

  /** A YAML/JSON value as Python sees it after loading. */
  datatype Value =
    | Null
    | Bool(b: bool)
    | Num(x: real)
    | Str(s: string)
    | List(items: seq<Value>)
    | Dict(entries: map<string, Value>)

  /** The keys naming the two source classes a symbols document may list. */
  const Tsetmc: string := "tsetmc"
  const Crypto: string := "crypto"

  /**
   * Python truthiness: the falsy values are exactly `None`, `False`, zero, and
   * the empty string, list and dict; a dict is truthy when it has some key.
   */
  function Truthy(v: Value): (t: bool)
    ensures !t <==> v in {Null, Bool(false), Num(0.0), Str(""), List([]), Dict(map[])}
    ensures v.Dict? ==> (t <==> exists k :: k in v.entries)
  {
    match v
    case Null => false
    case Bool(b) => b
    case Num(x) => x != 0.0
    case Str(s) => |s| > 0
    case List(items) => |items| > 0
    case Dict(entries) => entries != map[]
  }
}
