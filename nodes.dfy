/**
 * Node instances and the attribute values they hold.
 */
module Nodes {
  import opened Catalog

  /**
   * The values a node attribute or a construction argument can hold: the
   * scalars the parser produces, a child node, or a list of values.
   */
  datatype Value =
    | VNone
    | VBool(b: bool)
    | VInt(i: int)
    | VStr(s: string)
    | VBytes(bytes: seq<bv8>)
    | VNode(node: Node)
    | VList(items: seq<Value>)

  /**
   * An instance of a catalog class: its class, and the attributes that
   * `__init__` set on it. A slot never assigned is absent from `attrs`.
   */
  datatype Node = Node(kind: Kind, attrs: map<string, Value>)

  /**
   * Python truthiness. A node is always true: the node classes define
   * neither `__bool__` nor `__len__`.
   */
  predicate Truthy(v: Value)
  {
    match v
    case VNone => false
    case VBool(b) => b
    case VInt(i) => i != 0
    case VStr(s) => |s| > 0
    case VBytes(bs) => |bs| > 0
    case VNode(_) => true
    case VList(xs) => |xs| > 0
  }

  /** `getattr(node, name, None)`. */
  function GetAttr(n: Node, f: string): Value
  {
    if f in n.attrs then n.attrs[f] else VNone
  }
}
