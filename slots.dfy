/**
 * Field-set resolution (`VyperNode.get_slots`): the names a kind accepts
 * are the `__slots__` of every class on its method resolution order.
 */
module Slots {
  import opened Wrappers
  import opened Catalog

  /** The four metadata slots the base class declares. */
  const Metadata: set<string> := {NodeIdField, SourceCodeField, ColOffsetField, LinenoField}

  /**
   * The method resolution order of a kind: the kind itself, then each class
   * it extends, ending at the base. (Python's `object` follows the base; it
   * has no `__slots__` and contributes nothing.)
   */
  function Mro(k: Kind): (r: seq<Kind>)
    decreases Depth(k)
    ensures |r| == Depth(k) + 1
    ensures r[0] == k && r[|r| - 1] == VyperNode
    ensures forall i :: 0 < i < |r| ==> Parent(r[i - 1]) == Some(r[i])
  {
    match Parent(k)
    case None => [k]
    case Some(p) => [k] + Mro(p)
  }

  /** `isinstance`: an object of kind `k` is an instance of class `c`. */
  predicate IsSubkind(k: Kind, c: Kind)
  {
    c in Mro(k)
  }

  /**
   * `getattr(klass, '__slots__', [])`: a class that declares no `__slots__`
   * finds the tuple of the nearest class above it that does.
   */
  function SlotsAttr(k: Kind): seq<string>
    decreases Depth(k)
  {
    match DeclaredSlots(k)
    case Some(s) => s
    case None =>
      match Parent(k)
      case None => []
      case Some(p) => SlotsAttr(p)
  }

  /** `chain.from_iterable` of the slot tuples of a sequence of classes. */
  function Chain(ks: seq<Kind>): seq<string>
  {
    if ks == [] then [] else SlotsAttr(ks[0]) + Chain(ks[1..])
  }

  /** `get_slots`: the slot names along the MRO, duplicates included. */
  function GetSlots(k: Kind): seq<string>
  {
    Chain(Mro(k))
  }

  /** The membership test `__init__` makes: `field_name in self.get_slots()`. */
  predicate Accepts(k: Kind, f: string)
  {
    f in GetSlots(k)
  }

  /** The names of a slot tuple, as a set. */
  function NamesOf(s: seq<string>): set<string>
  {
    if s == [] then {} else {s[0]} + NamesOf(s[1..])
  }

  /** The names a class declares in its own body. */
  function OwnFields(k: Kind): set<string>
  {
    match DeclaredSlots(k)
    case None => {}
    case Some(s) => NamesOf(s)
  }

  /**
   * Reference definition of the accepted fields: the union of the fields
   * declared along the kind's inheritance chain.
   */
  function Fields(k: Kind): set<string>
    decreases Depth(k)
  {
    OwnFields(k) + match Parent(k) case None => {} case Some(p) => Fields(p)
  }

  /** The accepted fields that take part in equality. */
  function SemanticFields(k: Kind): set<string>
  {
    Fields(k) - Metadata
  }

  lemma {:induction false} NamesOfMember(s: seq<string>, f: string)
    ensures f in NamesOf(s) <==> f in s
  {
    if s != [] {
      NamesOfMember(s[1..], f);
    }
  }

  lemma OwnFieldsMember(k: Kind, f: string)
    ensures f in OwnFields(k) <==> DeclaredSlots(k).Some? && f in DeclaredSlots(k).value
  {
    if DeclaredSlots(k).Some? {
      NamesOfMember(DeclaredSlots(k).value, f);
    }
  }

  lemma {:induction false} SlotsAttrWithinFields(k: Kind, f: string)
    requires f in SlotsAttr(k)
    decreases Depth(k)
    ensures f in Fields(k)
  {
    OwnFieldsMember(k, f);
    if DeclaredSlots(k).None? {
      SlotsAttrWithinFields(Parent(k).value, f);
    }
  }

  lemma ChainOfMro(k: Kind)
    ensures GetSlots(k) == SlotsAttr(k) + match Parent(k) case None => [] case Some(p) => GetSlots(p)
  {
    var r := Mro(k);
    assert r[1..] == match Parent(k) case None => [] case Some(p) => Mro(p);
  }

  /**
   * `get_slots` accepts exactly the declared union: a slot tuple inherited
   * by a class that declares none only repeats names already on the chain.
   */
  lemma {:induction false} AcceptsIffField(k: Kind, f: string)
    decreases Depth(k)
    ensures Accepts(k, f) <==> f in Fields(k)
  {
    ChainOfMro(k);
    OwnFieldsMember(k, f);
    if f in SlotsAttr(k) {
      SlotsAttrWithinFields(k, f);
    }
    if Parent(k).Some? {
      AcceptsIffField(Parent(k).value, f);
    }
  }

  lemma GetSlotsIsDeclaredUnion(k: Kind)
    ensures forall f :: Accepts(k, f) <==> f in Fields(k)
  {
    forall f {
      AcceptsIffField(k, f);
    }
  }

  /** Every kind accepts the four metadata fields. */
  lemma {:induction false} MetadataAccepted(k: Kind)
    decreases Depth(k)
    ensures Metadata <= Fields(k)
    ensures forall f :: f in Metadata ==> Accepts(k, f)
  {
    match Parent(k)
    case None =>
      assert DeclaredSlots(k).value == [NodeIdField, SourceCodeField, ColOffsetField, LinenoField];
    case Some(p) => MetadataAccepted(p);
    GetSlotsIsDeclaredUnion(k);
  }

  /** A subclass accepts every field each of its superclasses accepts. */
  lemma {:induction false} SubkindAcceptsMore(k: Kind, c: Kind)
    requires IsSubkind(k, c)
    decreases Depth(k)
    ensures Fields(c) <= Fields(k)
  {
    if c != k {
      var p := Parent(k).value;
      assert Mro(k) == [k] + Mro(p);
      SubkindAcceptsMore(p, c);
    }
  }

  /** Every class on a kind's MRO is the kind itself, `Op`, or the base. */
  lemma MroMembers(k: Kind, c: Kind)
    requires IsSubkind(k, c)
    ensures c == k || c == Op || c == VyperNode
    ensures c == Op ==> k in {Op, BoolOp, BinOp, UnaryOp}
  {
    if k == VyperNode {
      assert Mro(k) == [k];
    } else if Parent(k) == Some(VyperNode) {
      assert Mro(k) == [k] + Mro(VyperNode) == [k, VyperNode];
    } else {
      assert Mro(k) == [k] + Mro(Op) == [k, Op, VyperNode];
    }
  }

  /** `isinstance` is antisymmetric on the catalog. */
  lemma {:induction false} SubkindAntisymmetric(a: Kind, b: Kind)
    requires IsSubkind(a, b) && IsSubkind(b, a)
    ensures a == b
  {
    MroMembers(a, b);
    MroMembers(b, a);
  }

  lemma BaseFields()
    ensures Fields(VyperNode) == Metadata
  {
  }

  lemma OpFields()
    ensures Fields(Op) == {OpField, LeftField, RightField} + Metadata
  {
    assert OwnFields(Op) == {OpField, LeftField, RightField};
    assert Fields(Op) == OwnFields(Op) + Fields(VyperNode);
    BaseFields();
  }

  /** `BoolOp` adds `values` to the three slots of `Op`. */
  lemma BoolOpFields()
    ensures Fields(BoolOp) == {OpField, LeftField, RightField, ValuesField} + Metadata
  {
    assert Fields(BoolOp) == {ValuesField} + Fields(Op) by {
      assert OwnFields(BoolOp) == {ValuesField};
    }
    OpFields();
  }

  /** `UnaryOp` adds `operand` to the three slots of `Op`. */
  lemma UnaryOpFields()
    ensures Fields(UnaryOp) == {OpField, LeftField, RightField, OperandField} + Metadata
  {
    assert Fields(UnaryOp) == {OperandField} + Fields(Op) by {
      assert OwnFields(UnaryOp) == {OperandField};
    }
    OpFields();
  }

  /**
   * `BinOp` declares no `__slots__`, so `get_slots` finds `Op`'s tuple twice
   * and accepts exactly `op`, `left`, `right` and the metadata.
   */
  lemma BinOpAccepts()
    ensures forall f :: Accepts(BinOp, f) <==> f in {OpField, LeftField, RightField} + Metadata
  {
    OpFields();
    assert Fields(BinOp) == Fields(Op);
    GetSlotsIsDeclaredUnion(BinOp);
  }

  /** Every name some class below the base declares in its `__slots__`. */
  const ClassFieldNames: set<string> := {
      BodyField, IdField, SliceField, ValueField, ArgField, AnnotationField, EltsField,
      ArgsField, ReturnsField, NameField, DecoratorListField, PosField, DefaultsField,
      DefaultField, NamesField, FuncField, KeywordsField, KeywordField, SField,
      ComparatorsField, OpsField, LeftField, RightField, NField, AttrField, OpField,
      ValuesField, OperandField, KeysField, TargetField, SimpleField, TargetsField,
      TestField, OrelseField, MsgField, IterField, ClassTypeField, ExcField, AsnameField,
      ModuleField}

  lemma ClassFieldsKnown(k: Kind, f: string)
    requires k != VyperNode && DeclaredSlots(k).Some? && f in DeclaredSlots(k).value
    ensures f in ClassFieldNames
  {
  }

  /** None of those names is a metadata slot or the ignored `ctx`. */
  lemma ClassFieldNamesNotReserved()
    ensures ClassFieldNames !! Metadata
    ensures CtxField !in ClassFieldNames
  {
  }

  /**
   * A name that a class below the base declares in its own `__slots__` is
   * never one of the base's metadata slots, nor the ignored `ctx`.
   */
  lemma ClassSlotsNotReserved(k: Kind, f: string)
    requires k != VyperNode && DeclaredSlots(k).Some? && f in DeclaredSlots(k).value
    ensures f !in Metadata && f != CtxField
  {
    ClassFieldsKnown(k, f);
    ClassFieldNamesNotReserved();
  }

  /** No class below the base redeclares a metadata slot. */
  lemma OwnFieldsNotMetadata(k: Kind)
    requires k != VyperNode
    ensures OwnFields(k) !! Metadata
  {
    ClassFieldNamesNotReserved();
    forall f | f in OwnFields(k) ensures f !in Metadata {
      OwnFieldsMember(k, f);
      ClassFieldsKnown(k, f);
    }
  }

  lemma DeclaredSlotsNonEmpty(k: Kind)
    requires DeclaredSlots(k).Some?
    ensures |DeclaredSlots(k).value| > 0
  {
  }

  lemma MarkerFieldsAreMetadata(k: Kind)
    requires IsMarker(k)
    ensures Fields(k) == Metadata
  {
    BaseFields();
  }

  lemma DeclaringKindHasSemanticField(k: Kind)
    requires DeclaredSlots(k).Some? && k != VyperNode
    ensures DeclaredSlots(k).value[0] in SemanticFields(k)
  {
    DeclaredSlotsNonEmpty(k);
    var f := DeclaredSlots(k).value[0];
    ClassFieldsKnown(k, f);
    ClassFieldNamesNotReserved();
    OwnFieldsMember(k, f);
  }

  /**
   * A kind has no field beyond the metadata exactly when it is a marker
   * kind or the base class itself.
   */
  lemma MarkerIffNoSemanticFields(k: Kind)
    ensures SemanticFields(k) == {} <==> IsMarker(k) || k == VyperNode
  {
    if k == VyperNode {
      BaseFields();
    } else if IsMarker(k) {
      MarkerFieldsAreMetadata(k);
    } else if DeclaredSlots(k).Some? {
      DeclaringKindHasSemanticField(k);
    } else {
      OpFields();
      assert OpField in SemanticFields(k);
    }
  }

  lemma IgnoredNotOwnField(k: Kind)
    ensures forall f :: f in IgnoredFields ==> f !in OwnFields(k)
  {
    OwnFieldsMember(k, CtxField);
    if k == VyperNode {
      assert CtxField !in Metadata;
    } else if DeclaredSlots(k).Some? && CtxField in DeclaredSlots(k).value {
      ClassFieldsKnown(k, CtxField);
      ClassFieldNamesNotReserved();
    }
  }

  lemma {:induction false} IgnoredNotField(k: Kind)
    decreases Depth(k)
    ensures forall f :: f in IgnoredFields ==> f !in Fields(k)
  {
    IgnoredNotOwnField(k);
    if Parent(k).Some? {
      IgnoredNotField(Parent(k).value);
    }
  }

  lemma ArgumentsFields()
    ensures Fields(arguments) == {ArgsField, DefaultsField, DefaultField} + Metadata
  {
    assert OwnFields(arguments) == {ArgsField, DefaultsField, DefaultField};
    BaseFields();
  }

  lemma ArgumentsOnlyEmptyNotFields()
    ensures forall f :: f in OnlyEmptyFields(arguments) ==> f !in Fields(arguments)
  {
    ArgumentsFields();
  }

  lemma SliceOnlyEmptyNotFields()
    ensures forall f :: f in OnlyEmptyFields(Slice) ==> f !in Fields(Slice)
  {
    MarkerFieldsAreMetadata(Slice);
  }

  lemma OnlyEmptyNotField(k: Kind)
    ensures forall f :: f in OnlyEmptyFields(k) ==> f !in Fields(k)
  {
    if k == arguments {
      ArgumentsOnlyEmptyNotFields();
    } else if k == Slice {
      SliceOnlyEmptyNotFields();
    } else {
      assert OnlyEmptyFields(k) == [];
    }
  }

  /**
   * Neither `ignored_fields` nor any `only_empty_fields` name is a slot of
   * the kind, so `__init__` treats them like any other unknown name.
   */
  lemma ExtrasAreNotSlots(k: Kind)
    ensures forall f :: f in IgnoredFields ==> !Accepts(k, f)
    ensures forall f :: f in OnlyEmptyFields(k) ==> !Accepts(k, f)
  {
    GetSlotsIsDeclaredUnion(k);
    IgnoredNotField(k);
    OnlyEmptyNotField(k);
  }
}
