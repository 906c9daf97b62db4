/** Plain values and configuration trees.

    A configuration is what the YAML loader returns: nested dictionaries, lists and scalars. The tree is kept
    organised the way the schema reads it: a parameter is a `Leaf`, a nested section is a `Sec` and a list of nested
    sections is an `Items`. Each list item carries the identity of its dictionary object, because a YAML anchor makes
    the same object appear in several lists and the comparison marks list items in place. */
module Values {

  datatype Option<+T> = None | Some(value: T)

  /** A value that holds no nested section. */
  datatype Json =
    | Null
    | Bool(b: bool)
    | Int(i: int)
    | Real(r: real)
    | Str(s: string)
    | Arr(elems: seq<Json>)
    | Obj(fields: map<string, Json>)

  datatype Node = Leaf(v: Json) | Sec(body: map<string, Node>) | Items(items: seq<Item>)

  datatype Item = Item(id: nat, body: map<string, Node>)

  /** A missing value, Python's `None`. */
  const NONE: Node := Leaf(Null)

  /** The text recorded for the missing side of an added or removed section. */
  const DASH: Node := Leaf(Str("-"))

  /** Python truth of a plain value. */
  predicate TruthyJson(v: Json) {
    match v
    case Null => false
    case Bool(b) => b
    case Int(i) => i != 0
    case Real(r) => r != 0.0
    case Str(s) => s != ""
    case Arr(a) => a != []
    case Obj(m) => m != map[]
  }

  /** Python truth of a node: an empty section or list counts as absent. */
  predicate Truthy(n: Node) {
    match n
    case Leaf(v) => TruthyJson(v)
    case Sec(m) => m != map[]
    case Items(s) => s != []
  }

  /** `body.get(key)`. */
  function Get(body: map<string, Node>, key: string): Node {
    if key in body then body[key] else NONE
  }

  /** `section.get(key) if section else None`, for a section that may be missing. */
  function Entry(section: Node, key: string): Node {
    if section.Sec? then Get(section.body, key) else NONE
  }

  /** `section.get(key, [])`, for a section that may be missing. */
  function ListOf(section: Node, key: string): seq<Item> {
    if Entry(section, key).Items? then Entry(section, key).items else []
  }

  function Digits(n: nat): string
    decreases n
  {
    if n < 10 then [("0123456789")[n]] else Digits(n / 10) + [("0123456789")[n % 10]]
  }

  /** The text Python's string formatting gives for an update-key value. */
  function Text(n: Node): string {
    match n
    case Leaf(Str(s)) => s
    case Leaf(Null) => "None"
    case Leaf(Bool(b)) => if b then "True" else "False"
    case Leaf(Int(i)) => if i >= 0 then Digits(i) else "-" + Digits(-i)
    case _ => "?"
  }

  /** The path segment of a list item: `key[name]`. */
  function Segment(key: string, name: Node): string {
    key + "[" + Text(name) + "]"
  }
}
