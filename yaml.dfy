/** A parsed YAML document, as the Python values `yaml.safe_load` produces for
    it: None, booleans, integers, strings, lists and string-keyed dicts. */
module Yaml {
  import Dict

  datatype Node =
    | Null
    | Bool(b: bool)
    | Int(i: int)
    | Str(s: string)
    | List(items: seq<Node>)
    | Map(entries: Dict.Dict<Node>)

  /** Python truthiness: `bool(n)`. */
  predicate Truthy(n: Node) {
    match n
    case Null => false
    case Bool(b) => b
    case Int(i) => i != 0
    case Str(s) => s != []
    case List(xs) => xs != []
    case Map(m) => m != []
  }

  /** `n or []` */
  function OrEmpty(n: Node): (r: Node)
    ensures Truthy(r) ==> r == n
    ensures !Truthy(r) ==> r == List([])
  {
    if Truthy(n) then n else List([])
  }

  /** The string nodes of a list of strings. */
  function Strs(ts: seq<string>): (r: seq<Node>)
    ensures |r| == |ts|
    ensures forall i :: 0 <= i < |ts| ==> r[i] == Str(ts[i])
  {
    seq(|ts|, i requires 0 <= i < |ts| => Str(ts[i]))
  }
}
