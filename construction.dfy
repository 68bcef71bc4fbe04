/**
 * The validating constructor `VyperNode.__init__`: keyword arguments whose
 * name is a slot of the class are stored, false-valued unknown names are
 * dropped, and a true-valued unknown name raises `CompilerPanic`.
 */
module Construction {
  import opened Wrappers
  import opened Catalog
  import opened Slots
  import opened Nodes

  /** `CompilerPanic`, with the field name, the class and the value it reports. */
  datatype Panic = CompilerPanic(fieldName: string, kind: Kind, value: Value)

  /** The outcome of a construction: the new node, or the raised panic. */
  datatype Result = Ok(node: Node) | Err(panic: Panic)

  /** The keyword arguments of one call, in the order Python iterates them. */
  type Kwargs = seq<(string, Value)>

  /** A Python call never passes the same keyword twice. */
  predicate DistinctNames(kwargs: Kwargs)
  {
    forall i, j :: 0 <= i < j < |kwargs| ==> kwargs[i].0 != kwargs[j].0
  }

  /**
   * The argument `__init__` raises on, given the class's slot names: not a
   * slot, and a true value.
   */
  predicate Rejects(slots: seq<string>, arg: (string, Value))
  {
    arg.0 !in slots && Truthy(arg.1)
  }

  /** The position of the first rejected argument, if any. */
  function FirstRejected(slots: seq<string>, kwargs: Kwargs): (r: Option<nat>)
    ensures r.None? <==> forall j :: 0 <= j < |kwargs| ==> !Rejects(slots, kwargs[j])
    ensures r.Some? ==> r.value < |kwargs| && Rejects(slots, kwargs[r.value])
    ensures r.Some? ==> forall j :: 0 <= j < r.value ==> !Rejects(slots, kwargs[j])
  {
    if kwargs == [] then None
    else if Rejects(slots, kwargs[0]) then Some(0)
    else match FirstRejected(slots, kwargs[1..])
      case None => None
      case Some(i) => Some(i + 1)
  }

  /** The attributes the `setattr` calls leave, in argument order. */
  function Stored(slots: seq<string>, kwargs: Kwargs): map<string, Value>
  {
    if kwargs == [] then map[]
    else
      var rest := Stored(slots, kwargs[..|kwargs| - 1]);
      var (name, value) := kwargs[|kwargs| - 1];
      if name in slots then rest[name := value] else rest
  }

  /** Exactly the accepted names are set: every key is a slot, every slot passed is a key. */
  lemma {:induction false} StoredKeys(slots: seq<string>, kwargs: Kwargs)
    ensures forall f :: f in Stored(slots, kwargs) ==> f in slots
    ensures forall i :: 0 <= i < |kwargs| && kwargs[i].0 in slots ==> kwargs[i].0 in Stored(slots, kwargs)
  {
    if kwargs != [] {
      var n := |kwargs| - 1;
      var prefix := kwargs[..n];
      StoredKeys(slots, prefix);
      assert forall i :: 0 <= i < n ==> prefix[i] == kwargs[i];
    }
  }

  /**
   * What `Kind(**kwargs)` produces: the panic for the first rejected
   * argument, otherwise a node of that kind holding the accepted arguments.
   */
  function Constructed(kind: Kind, kwargs: Kwargs): (r: Result)
    ensures r.Ok? <==> forall i :: 0 <= i < |kwargs| ==> !(!Accepts(kind, kwargs[i].0) && Truthy(kwargs[i].1))
    ensures r.Ok? ==> r.node.kind == kind
    ensures r.Ok? ==> forall f :: f in r.node.attrs ==> Accepts(kind, f)
    ensures r.Err? ==> exists i :: 0 <= i < |kwargs| && !Accepts(kind, kwargs[i].0) && Truthy(kwargs[i].1) &&
                                   r.panic == CompilerPanic(kwargs[i].0, kind, kwargs[i].1) &&
                                   (forall j :: 0 <= j < i ==> Accepts(kind, kwargs[j].0) || !Truthy(kwargs[j].1))
  {
    var slots := GetSlots(kind);
    match FirstRejected(slots, kwargs)
    case Some(i) => Err(CompilerPanic(kwargs[i].0, kind, kwargs[i].1))
    case None => StoredKeys(slots, kwargs); Ok(Node(kind, Stored(slots, kwargs)))
  }

  /** The attributes after one more argument has been handled. */
  lemma StoredStep(slots: seq<string>, kwargs: Kwargs, i: nat)
    requires i < |kwargs|
    ensures Stored(slots, kwargs[..i + 1]) ==
      if kwargs[i].0 in slots then Stored(slots, kwargs[..i])[kwargs[i].0 := kwargs[i].1]
      else Stored(slots, kwargs[..i])
  {
    var prefix := kwargs[..i + 1];
    assert prefix[..i] == kwargs[..i];
  }

  /** A rejected argument with none rejected before it is the first one. */
  lemma FirstRejectedAt(slots: seq<string>, kwargs: Kwargs, i: nat)
    requires i < |kwargs| && Rejects(slots, kwargs[i])
    requires forall j :: 0 <= j < i ==> !Rejects(slots, kwargs[j])
    ensures FirstRejected(slots, kwargs) == Some(i)
  {
  }

  /**
   * `VyperNode.__init__`: walks the keyword arguments in order, sets each
   * accepted one and raises at the first true-valued unknown one.
   */
  method Init(kind: Kind, kwargs: Kwargs) returns (r: Result)
    ensures r == Constructed(kind, kwargs)
  {
    var slots := GetSlots(kind);
    var attrs: map<string, Value> := map[];
    var i := 0;
    while i < |kwargs|
      invariant 0 <= i <= |kwargs|
      invariant attrs == Stored(slots, kwargs[..i])
      invariant forall j :: 0 <= j < i ==> !Rejects(slots, kwargs[j])
    {
      var (name, value) := kwargs[i];
      StoredStep(slots, kwargs, i);
      if name in slots {
        attrs := attrs[name := value];
      } else if Truthy(value) {
        FirstRejectedAt(slots, kwargs, i);
        return Err(CompilerPanic(name, kind, value));
      }
      i := i + 1;
    }
    assert kwargs[..i] == kwargs;
    return Ok(Node(kind, attrs));
  }

  lemma {:induction false} StoredValue(slots: seq<string>, kwargs: Kwargs, i: nat)
    requires DistinctNames(kwargs)
    requires i < |kwargs| && kwargs[i].0 in slots
    ensures kwargs[i].0 in Stored(slots, kwargs)
    ensures Stored(slots, kwargs)[kwargs[i].0] == kwargs[i].1
  {
    var n := |kwargs| - 1;
    if i < n {
      var prefix := kwargs[..n];
      assert prefix[i] == kwargs[i];
      assert DistinctNames(prefix);
      StoredValue(slots, prefix, i);
      assert kwargs[n].0 != kwargs[i].0;
    }
  }

  lemma {:induction false} StoredComesFromKwargs(slots: seq<string>, kwargs: Kwargs, f: string)
    requires f in Stored(slots, kwargs)
    ensures exists i :: 0 <= i < |kwargs| && kwargs[i].0 == f
  {
    var n := |kwargs| - 1;
    if kwargs[n].0 != f {
      var prefix := kwargs[..n];
      StoredComesFromKwargs(slots, prefix, f);
      var i :| 0 <= i < |prefix| && prefix[i].0 == f;
      assert kwargs[i].0 == f;
    }
  }

  /**
   * A successful construction holds exactly the accepted arguments, each
   * with the value supplied, whether that value is true or false.
   */
  lemma ConstructStoresAccepted(kind: Kind, kwargs: Kwargs)
    requires DistinctNames(kwargs)
    requires Constructed(kind, kwargs).Ok?
    ensures forall i :: 0 <= i < |kwargs| && Accepts(kind, kwargs[i].0) ==>
      GetAttr(Constructed(kind, kwargs).node, kwargs[i].0) == kwargs[i].1
    ensures forall f :: f in Constructed(kind, kwargs).node.attrs ==>
      Accepts(kind, f) && exists i :: 0 <= i < |kwargs| && kwargs[i].0 == f
  {
    var slots := GetSlots(kind);
    var attrs := Stored(slots, kwargs);
    assert Constructed(kind, kwargs).node.attrs == attrs;
    forall i | 0 <= i < |kwargs| && kwargs[i].0 in slots
      ensures kwargs[i].0 in attrs && attrs[kwargs[i].0] == kwargs[i].1
    {
      StoredValue(slots, kwargs, i);
    }
    forall f | f in attrs
      ensures exists i :: 0 <= i < |kwargs| && kwargs[i].0 == f
    {
      StoredComesFromKwargs(slots, kwargs, f);
    }
  }

  /** `kwargs` without the argument at position `i`. */
  function Without(kwargs: Kwargs, i: nat): (r: Kwargs)
    requires i < |kwargs|
    ensures |r| == |kwargs| - 1
  {
    kwargs[..i] + kwargs[i + 1..]
  }

  lemma WithoutAt(kwargs: Kwargs, i: nat, j: nat)
    requires i < |kwargs| && j < |kwargs| - 1
    ensures Without(kwargs, i)[j] == kwargs[if j < i then j else j + 1]
  {
  }

  lemma {:induction false} StoredWithoutUnaccepted(slots: seq<string>, kwargs: Kwargs, i: nat)
    requires i < |kwargs| && kwargs[i].0 !in slots
    ensures Stored(slots, Without(kwargs, i)) == Stored(slots, kwargs)
  {
    var n := |kwargs| - 1;
    var r := Without(kwargs, i);
    if i == n {
      assert r == kwargs[..n];
    } else {
      var prefix := kwargs[..n];
      StoredWithoutUnaccepted(slots, prefix, i);
      assert r[..|r| - 1] == Without(prefix, i);
      assert r[|r| - 1] == kwargs[n];
    }
  }

  lemma FirstRejectedWithoutNone(slots: seq<string>, kwargs: Kwargs, i: nat)
    requires i < |kwargs| && FirstRejected(slots, kwargs).None?
    ensures FirstRejected(slots, Without(kwargs, i)).None?
  {
    var r := Without(kwargs, i);
    forall j | 0 <= j < |r| ensures !Rejects(slots, r[j]) {
      WithoutAt(kwargs, i, j);
    }
  }

  lemma FirstRejectedWithoutSome(slots: seq<string>, kwargs: Kwargs, i: nat, a: nat)
    requires i < |kwargs| && !Rejects(slots, kwargs[i])
    requires FirstRejected(slots, kwargs) == Some(a)
    ensures FirstRejected(slots, Without(kwargs, i)) == Some(if a < i then a else a - 1)
  {
    var r := Without(kwargs, i);
    WithoutAt(kwargs, i, if a < i then a else a - 1);
    WithoutAt(kwargs, i, FirstRejected(slots, r).value);
  }

  /**
   * Removing an argument that is not rejected leaves the first rejected
   * argument where it was, shifted by one if it came after.
   */
  lemma FirstRejectedWithout(slots: seq<string>, kwargs: Kwargs, i: nat)
    requires i < |kwargs| && !Rejects(slots, kwargs[i])
    ensures FirstRejected(slots, Without(kwargs, i)) ==
      match FirstRejected(slots, kwargs)
      case None => None
      case Some(a) => Some(if a < i then a else a - 1)
  {
    match FirstRejected(slots, kwargs)
    case None => FirstRejectedWithoutNone(slots, kwargs, i);
    case Some(a) => FirstRejectedWithoutSome(slots, kwargs, i, a);
  }

  /**
   * An unknown argument with a false value is dropped: the construction
   * comes out exactly as if it had not been passed, and the attribute stays
   * unset.
   */
  lemma FalsyUnknownIsDropped(kind: Kind, kwargs: Kwargs, i: nat)
    requires i < |kwargs| && !Accepts(kind, kwargs[i].0) && !Truthy(kwargs[i].1)
    ensures Constructed(kind, Without(kwargs, i)) == Constructed(kind, kwargs)
    ensures Constructed(kind, kwargs).Ok? ==> kwargs[i].0 !in Constructed(kind, kwargs).node.attrs
  {
    var slots, w := GetSlots(kind), Without(kwargs, i);
    StoredWithoutUnaccepted(slots, kwargs, i);
    FirstRejectedWithout(slots, kwargs, i);
    match FirstRejected(slots, kwargs)
    case None =>
      assert Constructed(kind, w) == Ok(Node(kind, Stored(slots, kwargs)));
    case Some(a) =>
      var b := if a < i then a else a - 1;
      WithoutAt(kwargs, i, b);
      assert Constructed(kind, w) == Err(CompilerPanic(kwargs[a].0, kind, kwargs[a].1));
  }

  /** When every name is accepted, construction succeeds and stores them all. */
  lemma AllAcceptedStored(kind: Kind, kwargs: Kwargs)
    requires forall i :: 0 <= i < |kwargs| ==> Accepts(kind, kwargs[i].0)
    ensures Constructed(kind, kwargs) == Ok(Node(kind, Stored(GetSlots(kind), kwargs)))
  {
  }

  /** Constructing with no arguments always succeeds, with nothing set. */
  lemma EmptyConstruction(kind: Kind)
    ensures Constructed(kind, []) == Ok(Node(kind, map[]))
  {
  }
}
