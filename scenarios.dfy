/**
 * Concrete constructions and comparisons: the behaviour of particular
 * calls, derived from the general rules.
 */
module Scenarios {
  import opened Wrappers
  import opened Catalog
  import opened Slots
  import opened Nodes
  import opened Construction
  import opened Equality
  import opened NodeProperties

  const NumOne: Node := Node(Num, map["n" := VInt(1)])

  /** `Slice(lower=None)` succeeds and leaves `lower` unset. */
  lemma SliceLowerNone()
    ensures Constructed(Slice, [("lower", VNone)]) == Ok(Node(Slice, map[]))
  {
    ExtrasAreNotSlots(Slice);
    assert "lower" in OnlyEmptyFields(Slice);
  }

  /** `Slice(lower=Num(n=1))` raises, naming `lower`, `Slice` and the value. */
  lemma SliceLowerNode()
    ensures Constructed(Slice, [("lower", VNode(NumOne))]) ==
      Err(CompilerPanic("lower", Slice, VNode(NumOne)))
  {
    ExtrasAreNotSlots(Slice);
    assert "lower" in OnlyEmptyFields(Slice);
  }

  /** `arguments(vararg='args')` raises, naming `vararg`. */
  lemma ArgumentsVararg()
    ensures Constructed(arguments, [("vararg", VStr("args"))]) ==
      Err(CompilerPanic("vararg", arguments, VStr("args")))
  {
    ExtrasAreNotSlots(arguments);
    assert "vararg" in OnlyEmptyFields(arguments);
  }

  /**
   * `ctx` is listed in `ignored_fields`, yet `Name(ctx='Load')` raises like
   * any other unknown name with a true value.
   */
  lemma IgnoredCtxRejected()
    ensures Constructed(Name, [("ctx", VStr("Load"))]) ==
      Err(CompilerPanic("ctx", Name, VStr("Load")))
  {
    ExtrasAreNotSlots(Name);
    assert "ctx" in IgnoredFields;
  }

  lemma StoredThree(slots: seq<string>, op: Value, left: Value, right: Value)
    requires "op" in slots && "left" in slots && "right" in slots
    ensures Stored(slots, [("op", op), ("left", left), ("right", right)]) ==
      map["op" := op, "left" := left, "right" := right]
  {
    var k1, k2, k3 := [("op", op)], [("op", op), ("left", left)], [("op", op), ("left", left), ("right", right)];
    assert k1[..0] == [];
    assert Stored(slots, k1) == map["op" := op];
    assert k2[..1] == k1;
    assert Stored(slots, k2) == map["op" := op, "left" := left];
    assert k3[..2] == k2;
  }

  /** A class accepting `op`, `left` and `right` stores all three. */
  lemma OperandsStored(kind: Kind, op: Value, left: Value, right: Value)
    requires Accepts(kind, "op") && Accepts(kind, "left") && Accepts(kind, "right")
    ensures Constructed(kind, [("op", op), ("left", left), ("right", right)]) ==
            Ok(Node(kind, map["op" := op, "left" := left, "right" := right]))
  {
    var kwargs := [("op", op), ("left", left), ("right", right)];
    forall i | 0 <= i < |kwargs| ensures Accepts(kind, kwargs[i].0) {
      if i == 0 {
      } else if i == 1 {
      } else {
        assert kwargs[i].0 == "right";
      }
    }
    AllAcceptedStored(kind, kwargs);
    StoredThree(GetSlots(kind), op, left, right);
  }

  /**
   * `BinOp(op=..., left=..., right=...)` succeeds and stores the three
   * values, e.g. `BinOp(op=Add(), left=Name(id='a'), right=Num(n=1))`.
   */
  lemma BinOpStoresOperands(op: Value, left: Value, right: Value)
    ensures Constructed(BinOp, [("op", op), ("left", left), ("right", right)]) ==
            Ok(Node(BinOp, map["op" := op, "left" := left, "right" := right]))
  {
    BinOpAccepts();
    OperandsStored(BinOp, op, left, right);
  }

  /** The keyword arguments of `Name(id=...)` carrying a node id and a position. */
  function NameArgs(id: Value, nodeId: Value, line: Value, col: Value): (kwargs: Kwargs)
    ensures |kwargs| == 4 && kwargs[0] == (IdField, id)
  {
    [(IdField, id), (NodeIdField, nodeId), (LinenoField, line), (ColOffsetField, col)]
  }

  lemma NameArgsDistinct(id: Value, nodeId: Value, line: Value, col: Value)
    ensures DistinctNames(NameArgs(id, nodeId, line, col))
  {
  }

  /** Apart from the metadata, the arguments carry only `id`. */
  lemma NameArgsLookup(id: Value, nodeId: Value, line: Value, col: Value, f: string)
    requires f !in Metadata
    ensures Lookup(NameArgs(id, nodeId, line, col), f) == if f == IdField then Some(id) else None
  {
    var rest := [(NodeIdField, nodeId), (LinenoField, line), (ColOffsetField, col)];
    assert NameArgs(id, nodeId, line, col)[1..] == rest;
    if f != IdField {
      assert rest[1..] == [(LinenoField, line), (ColOffsetField, col)];
      assert rest[1..][1..] == [(ColOffsetField, col)];
      assert Lookup(rest, f) == Lookup(rest[1..], f) == Lookup(rest[1..][1..], f) == None;
    }
  }

  /** `Name` accepts `id` and every metadata slot, so the construction succeeds. */
  lemma NameConstruction(id: Value, nodeId: Value, line: Value, col: Value)
    ensures Constructed(Name, NameArgs(id, nodeId, line, col)).Ok?
  {
    var kwargs := NameArgs(id, nodeId, line, col);
    NameFields();
    assert Accepts(Name, IdField);
    MetadataAccepted(Name);
    assert Accepts(Name, NodeIdField) && Accepts(Name, LinenoField) && Accepts(Name, ColOffsetField);
    forall i | 0 <= i < |kwargs| ensures Accepts(Name, kwargs[i].0) {
      if i == 0 {
      } else if i == 1 {
      } else if i == 2 {
      } else {
        assert kwargs[i].0 == ColOffsetField;
      }
    }
  }

  /** `Name(id='x')` created at two different positions compares equal. */
  lemma NameAtTwoPositions()
    ensures Constructed(Name, NameArgs(VStr("x"), VInt(1), VInt(3), VInt(0))).Ok?
    ensures Constructed(Name, NameArgs(VStr("x"), VInt(2), VInt(9), VInt(4))).Ok?
    ensures NodeEq(Constructed(Name, NameArgs(VStr("x"), VInt(1), VInt(3), VInt(0))).node,
                   Constructed(Name, NameArgs(VStr("x"), VInt(2), VInt(9), VInt(4))).node)
  {
    var kw1 := NameArgs(VStr("x"), VInt(1), VInt(3), VInt(0));
    var kw2 := NameArgs(VStr("x"), VInt(2), VInt(9), VInt(4));
    NameConstruction(VStr("x"), VInt(1), VInt(3), VInt(0));
    NameConstruction(VStr("x"), VInt(2), VInt(9), VInt(4));
    NameArgsDistinct(VStr("x"), VInt(1), VInt(3), VInt(0));
    NameArgsDistinct(VStr("x"), VInt(2), VInt(9), VInt(4));
    forall f | f !in Metadata ensures Lookup(kw1, f) == Lookup(kw2, f) {
      NameArgsLookup(VStr("x"), VInt(1), VInt(3), VInt(0), f);
      NameArgsLookup(VStr("x"), VInt(2), VInt(9), VInt(4), f);
    }
    ConstructedIgnoresMetadata(Name, kw1, kw2);
  }

  /** `Name(id='x')` and `Name(id='y')` are unequal, even at the same position. */
  lemma NameWithOtherId()
    ensures Constructed(Name, NameArgs(VStr("x"), VInt(2), VInt(9), VInt(4))).Ok?
    ensures Constructed(Name, NameArgs(VStr("y"), VInt(2), VInt(9), VInt(4))).Ok?
    ensures !NodeEq(Constructed(Name, NameArgs(VStr("x"), VInt(2), VInt(9), VInt(4))).node,
                    Constructed(Name, NameArgs(VStr("y"), VInt(2), VInt(9), VInt(4))).node)
  {
    var kw1 := NameArgs(VStr("x"), VInt(2), VInt(9), VInt(4));
    var kw2 := NameArgs(VStr("y"), VInt(2), VInt(9), VInt(4));
    NameConstruction(VStr("x"), VInt(2), VInt(9), VInt(4));
    NameConstruction(VStr("y"), VInt(2), VInt(9), VInt(4));
    NameArgsDistinct(VStr("x"), VInt(2), VInt(9), VInt(4));
    NameArgsDistinct(VStr("y"), VInt(2), VInt(9), VInt(4));
    NameFields();
    assert PassedOrNone(kw1, IdField) == VStr("x");
    assert PassedOrNone(kw2, IdField) == VStr("y");
    ConstructedSemanticDifference(Name, kw1, kw2, IdField);
  }

  lemma NameFields()
    ensures SemanticFields(Name) == {"id"}
  {
    BaseFields();
    assert OwnFields(Name) == {"id"};
  }

  /**
   * With `Op.__eq__`, an `Op` equals a `BinOp` holding the same attributes,
   * yet the `BinOp`'s `__eq__` rejects the `Op`, and so does `==`.
   */
  lemma OpAgainstBinOp(attrs: map<string, Value>)
    ensures NodeEq(Node(Op, attrs), Node(BinOp, attrs))
    ensures !NodeEq(Node(BinOp, attrs), Node(Op, attrs))
    ensures !RichCompare(Node(Op, attrs), Node(BinOp, attrs))
  {
    var op, bin := Node(Op, attrs), Node(BinOp, attrs);
    BinOpIsOp();
    MetadataBlind(op, bin);
    if NodeEq(bin, op) {
      EqualNodesShareKind(bin, op);
    }
    RichCompareSameKind(op, bin);
  }

  lemma BinOpIsOp()
    ensures IsSubkind(BinOp, Op)
  {
    assert Mro(BinOp) == [BinOp] + Mro(Op);
  }

  /** A class that accepts `f` stores the one argument `f=v` as given. */
  lemma SingleStored(kind: Kind, f: string, v: Value)
    requires Accepts(kind, f)
    ensures Constructed(kind, [(f, v)]) == Ok(Node(kind, map[f := v]))
  {
    AllAcceptedStored(kind, [(f, v)]);
    assert [(f, v)][..0] == [];
  }

  lemma NumFields()
    ensures SemanticFields(Num) == {"n"}
    ensures Accepts(Num, "n")
  {
    BaseFields();
    assert OwnFields(Num) == {"n"};
    AcceptsIffField(Num, "n");
  }

  /** `True == 1` in Python, so `Num(n=True)` equals `Num(n=1)`. */
  lemma TrueEqualsOne()
    ensures Constructed(Num, [("n", VBool(true))]).Ok? && Constructed(Num, [("n", VInt(1))]).Ok?
    ensures NodeEq(Constructed(Num, [("n", VBool(true))]).node, Constructed(Num, [("n", VInt(1))]).node)
  {
    NumFields();
    SingleStored(Num, "n", VBool(true));
    SingleStored(Num, "n", VInt(1));
    var t := Node(Num, map["n" := VBool(true)]);
    assert Mro(Num)[0] == Num;
    assert ValueEq(GetAttr(t, "n"), GetAttr(NumOne, "n"));
    NodeEqIff(t, NumOne);
  }

  /**
   * A false value is not `None`: `NameConstant(value=False)` differs from
   * `NameConstant()`, whose `value` stays unset.
   */
  lemma FalseIsNotUnset()
    ensures Constructed(NameConstant, [("value", VBool(false))]).Ok? && Constructed(NameConstant, []).Ok?
    ensures !NodeEq(Constructed(NameConstant, [("value", VBool(false))]).node, Constructed(NameConstant, []).node)
  {
    BaseFields();
    assert OwnFields(NameConstant) == {"value"};
    assert SemanticFields(NameConstant) == {"value"};
    AcceptsIffField(NameConstant, "value");
    SingleStored(NameConstant, "value", VBool(false));
    EmptyConstruction(NameConstant);
    assert PassedOrNone([("value", VBool(false))], "value") == VBool(false);
    ConstructedSemanticDifference(NameConstant, [("value", VBool(false))], [], "value");
  }
}
