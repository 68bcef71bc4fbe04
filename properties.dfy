/**
 * Properties that relate construction and equality, and the behaviour of
 * concrete constructions and comparisons.
 */
module NodeProperties {
  import opened Wrappers
  import opened Catalog
  import opened Slots
  import opened Nodes
  import opened Construction
  import opened Equality

  /** The value passed for keyword `f`, if any. */
  function Lookup(kwargs: Kwargs, f: string): Option<Value>
  {
    if kwargs == [] then None
    else if kwargs[0].0 == f then Some(kwargs[0].1)
    else Lookup(kwargs[1..], f)
  }

  lemma {:induction false} LookupFinds(kwargs: Kwargs, f: string)
    ensures Lookup(kwargs, f).None? ==> forall i :: 0 <= i < |kwargs| ==> kwargs[i].0 != f
    ensures Lookup(kwargs, f).Some? ==> exists i :: 0 <= i < |kwargs| && kwargs[i] == (f, Lookup(kwargs, f).value)
  {
    if kwargs != [] && kwargs[0].0 != f {
      LookupFinds(kwargs[1..], f);
      if Lookup(kwargs, f).Some? {
        var i :| 0 <= i < |kwargs[1..]| && kwargs[1..][i] == (f, Lookup(kwargs, f).value);
        assert kwargs[i + 1] == kwargs[1..][i];
      } else {
        forall i | 0 <= i < |kwargs| ensures kwargs[i].0 != f {
          if i > 0 {
            assert kwargs[i] == kwargs[1..][i - 1];
          }
        }
      }
    }
  }

  lemma {:induction false} LookupAt(kwargs: Kwargs, i: nat)
    requires DistinctNames(kwargs) && i < |kwargs|
    ensures Lookup(kwargs, kwargs[i].0) == Some(kwargs[i].1)
  {
    if i > 0 {
      var rest := kwargs[1..];
      assert rest[i - 1] == kwargs[i];
      assert DistinctNames(rest);
      LookupAt(rest, i - 1);
    }
  }

  /**
   * The attribute a successful construction leaves under `f`: the supplied
   * value when `f` is a slot and was passed, `None` otherwise.
   */
  lemma GetAttrOfConstructed(kind: Kind, kwargs: Kwargs, f: string)
    requires DistinctNames(kwargs) && Constructed(kind, kwargs).Ok?
    ensures GetAttr(Constructed(kind, kwargs).node, f) ==
      if Accepts(kind, f) && Lookup(kwargs, f).Some? then Lookup(kwargs, f).value else VNone
  {
    ConstructStoresAccepted(kind, kwargs);
    LookupFinds(kwargs, f);
    if Lookup(kwargs, f).Some? {
      var i :| 0 <= i < |kwargs| && kwargs[i] == (f, Lookup(kwargs, f).value);
    }
  }

  /**
   * Two constructions of one class from arguments that agree on every
   * non-metadata name either both panic or both give equal nodes.
   */
  lemma ConstructedIgnoresMetadata(kind: Kind, kw1: Kwargs, kw2: Kwargs)
    requires DistinctNames(kw1) && DistinctNames(kw2)
    requires forall f :: f !in Metadata ==> Lookup(kw1, f) == Lookup(kw2, f)
    ensures Constructed(kind, kw1).Ok? <==> Constructed(kind, kw2).Ok?
    ensures Constructed(kind, kw1).Ok? ==>
      NodeEq(Constructed(kind, kw1).node, Constructed(kind, kw2).node) &&
      NodeEq(Constructed(kind, kw2).node, Constructed(kind, kw1).node)
  {
    MetadataAccepted(kind);
    RejectionAgrees(kind, kw1, kw2);
    RejectionAgrees(kind, kw2, kw1);
    if Constructed(kind, kw1).Ok? {
      var a, b := Constructed(kind, kw1).node, Constructed(kind, kw2).node;
      forall f ensures f !in Metadata ==> GetAttr(a, f) == GetAttr(b, f) {
        GetAttrOfConstructed(kind, kw1, f);
        GetAttrOfConstructed(kind, kw2, f);
      }
      assert Mro(kind)[0] == kind;
      MetadataBlind(a, b);
      MetadataBlind(b, a);
    }
  }

  lemma RejectionAgrees(kind: Kind, kw1: Kwargs, kw2: Kwargs)
    requires DistinctNames(kw1)
    requires forall f :: f in Metadata ==> Accepts(kind, f)
    requires forall f :: f !in Metadata ==> Lookup(kw1, f) == Lookup(kw2, f)
    ensures Constructed(kind, kw2).Ok? ==> Constructed(kind, kw1).Ok?
  {
    if Constructed(kind, kw2).Ok? {
      forall i | 0 <= i < |kw1| ensures Accepts(kind, kw1[i].0) || !Truthy(kw1[i].1) {
        var f := kw1[i].0;
        if !Accepts(kind, f) {
          LookupAt(kw1, i);
          LookupFinds(kw2, f);
          var j :| 0 <= j < |kw2| && kw2[j] == (f, kw1[i].1);
        }
      }
    }
  }

  /** The value passed for `f`, read as `None` when it was not passed. */
  function PassedOrNone(kwargs: Kwargs, f: string): Value
  {
    match Lookup(kwargs, f)
    case None => VNone
    case Some(v) => v
  }

  /**
   * Two constructions of one class whose arguments disagree on a
   * non-metadata slot give unequal nodes.
   */
  lemma ConstructedSemanticDifference(kind: Kind, kw1: Kwargs, kw2: Kwargs, f: string)
    requires DistinctNames(kw1) && DistinctNames(kw2)
    requires Constructed(kind, kw1).Ok? && Constructed(kind, kw2).Ok?
    requires f in SemanticFields(kind)
    requires !ValueEq(PassedOrNone(kw1, f), PassedOrNone(kw2, f))
    ensures !NodeEq(Constructed(kind, kw1).node, Constructed(kind, kw2).node)
  {
    GetSlotsIsDeclaredUnion(kind);
    GetAttrOfConstructed(kind, kw1, f);
    GetAttrOfConstructed(kind, kw2, f);
    SemanticMismatch(Constructed(kind, kw1).node, Constructed(kind, kw2).node, f);
  }
}
