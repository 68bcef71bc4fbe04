/**
 * Structural equality `VyperNode.__eq__`: the other object must be an
 * instance of the receiver's class, and every slot of that class except the
 * four metadata slots must compare equal, an unset attribute reading as
 * `None`.
 */
module Equality {
  import opened Wrappers
  import opened Catalog
  import opened Slots
  import opened Nodes

  function BoolAsInt(b: bool): int
  {
    if b then 1 else 0
  }

  /**
   * Python's `x == y` on attribute values. `bool` is a subclass of `int`, so
   * `True == 1`; lists compare element by element; `None` equals only
   * `None`; two nodes compare through the node rule (see `SameNode`).
   */
  predicate ValueEq(x: Value, y: Value)
    decreases x
  {
    match x
    case VNone => y.VNone?
    case VBool(p) => (y.VBool? && y.b == p) || (y.VInt? && y.i == BoolAsInt(p))
    case VInt(n) => (y.VInt? && y.i == n) || (y.VBool? && BoolAsInt(y.b) == n)
    case VStr(s) => y.VStr? && y.s == s
    case VBytes(bs) => y.VBytes? && y.bytes == bs
    case VList(xs) =>
      y.VList? && |xs| == |y.items| &&
      forall j :: 0 <= j < |xs| ==> ValueEq(xs[j], y.items[j])
    case VNode(a) => y.VNode? && a.kind == y.node.kind && NodeEq(a, y.node)
  }

  /**
   * The comparison of one slot in the loop of `__eq__`:
   * `getattr(a, f, None) == getattr(b, f, None)`.
   */
  predicate FieldEq(a: Node, b: Node, f: string)
    decreases a, 0
  {
    if f in a.attrs then ValueEq(a.attrs[f], GetAttr(b, f)) else GetAttr(b, f).VNone?
  }

  /** The loop of `__eq__`: every non-metadata slot of `a`'s class agrees. */
  predicate SlotsAgree(a: Node, b: Node)
    decreases a, 1
  {
    forall f :: f in GetSlots(a.kind) && f !in Metadata ==> FieldEq(a, b, f)
  }

  /** `a.__eq__(b)`. */
  predicate NodeEq(a: Node, b: Node)
    decreases a, 2
  {
    IsSubkind(b.kind, a.kind) && SlotsAgree(a, b)
  }

  /**
   * The `==` operator between two nodes. CPython tries the right operand's
   * `__eq__` first when its class is a proper subclass of the left's.
   */
  predicate RichCompare(a: Node, b: Node)
  {
    if a.kind != b.kind && IsSubkind(b.kind, a.kind) then NodeEq(b, a) else NodeEq(a, b)
  }

  /**
   * The `==` operator on two nodes holds exactly when they have the same
   * class and the receiver's `__eq__` holds; this is the rule `ValueEq`
   * applies to child nodes, which `__eq__` compares with `!=`.
   */
  lemma RichCompareSameKind(a: Node, b: Node)
    ensures RichCompare(a, b) <==> a.kind == b.kind && NodeEq(a, b)
    ensures ValueEq(VNode(a), VNode(b)) <==> RichCompare(a, b)
  {
    if a.kind != b.kind && IsSubkind(b.kind, a.kind) && IsSubkind(a.kind, b.kind) {
      SubkindAntisymmetric(a.kind, b.kind);
    }
  }

  /** The loop of `__eq__` reads an unset attribute as `None`. */
  lemma FieldEqReadsUnsetAsNone(a: Node, b: Node, f: string)
    ensures FieldEq(a, b, f) <==> ValueEq(GetAttr(a, f), GetAttr(b, f))
  {
  }

  lemma SlotsAgreeIff(a: Node, b: Node)
    ensures SlotsAgree(a, b) <==>
      forall f :: f in SemanticFields(a.kind) ==> ValueEq(GetAttr(a, f), GetAttr(b, f))
  {
    forall f ensures (f in GetSlots(a.kind) && f !in Metadata) <==> f in SemanticFields(a.kind) {
      AcceptsIffField(a.kind, f);
    }
    forall f ensures FieldEq(a, b, f) <==> ValueEq(GetAttr(a, f), GetAttr(b, f)) {
      FieldEqReadsUnsetAsNone(a, b, f);
    }
  }

  /**
   * `a.__eq__(b)` holds exactly when `b` is an instance of `a`'s class and
   * every non-metadata field of that class compares equal.
   */
  lemma NodeEqIff(a: Node, b: Node)
    ensures NodeEq(a, b) <==>
      IsSubkind(b.kind, a.kind) &&
      forall f :: f in SemanticFields(a.kind) ==> ValueEq(GetAttr(a, f), GetAttr(b, f))
  {
    SlotsAgreeIff(a, b);
  }

  /** Every value equals itself. */
  lemma {:induction false} ValueEqReflexive(v: Value)
    decreases v
    ensures ValueEq(v, v)
  {
    match v
    case VList(xs) =>
      forall j | 0 <= j < |xs| ensures ValueEq(xs[j], xs[j]) {
        ValueEqReflexive(xs[j]);
      }
    case VNode(n) => NodeEqReflexive(n);
    case _ =>
  }

  /** Every node equals itself. */
  lemma {:induction false} NodeEqReflexive(n: Node)
    decreases n
    ensures NodeEq(n, n)
  {
    forall f | f in n.attrs ensures ValueEq(n.attrs[f], n.attrs[f]) {
      ValueEqReflexive(n.attrs[f]);
    }
  }

  /**
   * Equality never looks at the metadata: nodes whose other attributes
   * agree are equal when the second is an instance of the first's class.
   */
  lemma MetadataBlind(a: Node, b: Node)
    requires IsSubkind(b.kind, a.kind)
    requires forall f :: f !in Metadata ==> GetAttr(a, f) == GetAttr(b, f)
    ensures NodeEq(a, b)
  {
    NodeEqIff(a, b);
    forall f | f in SemanticFields(a.kind)
      ensures ValueEq(GetAttr(a, f), GetAttr(b, f))
    {
      ValueEqReflexive(GetAttr(a, f));
    }
  }

  /**
   * A slot left unset and the same slot set to `None` compare equal, in
   * both directions.
   */
  lemma UnsetEqualsNone(a: Node, f: string)
    requires f !in a.attrs
    ensures NodeEq(a, Node(a.kind, a.attrs[f := VNone]))
    ensures NodeEq(Node(a.kind, a.attrs[f := VNone]), a)
  {
    var b := Node(a.kind, a.attrs[f := VNone]);
    assert Mro(a.kind)[0] == a.kind;
    assert forall g :: GetAttr(a, g) == GetAttr(b, g);
    MetadataBlind(a, b);
    MetadataBlind(b, a);
  }

  /** One non-metadata field that differs makes two nodes unequal. */
  lemma SemanticMismatch(a: Node, b: Node, f: string)
    requires f in SemanticFields(a.kind)
    requires !ValueEq(GetAttr(a, f), GetAttr(b, f))
    ensures !NodeEq(a, b)
  {
    NodeEqIff(a, b);
  }

  /**
   * Only `Op` and the base class have subclasses, so for every other class
   * `__eq__` holds only between nodes of that same class.
   */
  lemma EqualNodesShareKind(a: Node, b: Node)
    requires a.kind != Op && a.kind != VyperNode
    requires NodeEq(a, b)
    ensures a.kind == b.kind
  {
    MroMembers(b.kind, a.kind);
  }

  /** Any two instances of one marker class are equal. */
  lemma MarkerInstancesEqual(a: Node, b: Node)
    requires a.kind == b.kind && IsMarker(a.kind)
    ensures NodeEq(a, b) && RichCompare(a, b)
  {
    MarkerIffNoSemanticFields(a.kind);
    NodeEqIff(a, b);
    assert Mro(a.kind)[0] == a.kind;
  }

  /**
   * An instance of the base class itself is equal, by its `__eq__`, to every
   * node: every node is an instance of it and it has no semantic field.
   */
  lemma BaseEqualsEveryNode(a: Node, b: Node)
    requires a.kind == VyperNode
    ensures NodeEq(a, b)
  {
    MarkerIffNoSemanticFields(VyperNode);
    NodeEqIff(a, b);
    var m := Mro(b.kind);
    assert m[|m| - 1] == VyperNode;
  }
}
