# Vyper AST node layer, modelled in Dafny

This project models the node layer of the Vyper compiler front end,
`vyper/ast.py`. It covers two parts.

- **The base class `VyperNode`:**
  - its four metadata slots `node_id`, `source_code`, `col_offset` and `lineno`;
  - `get_slots`, which chains the `__slots__` of every class on the method resolution order;
  - the validating constructor `__init__`;
  - the structural equality `__eq__`.
- **The catalog of node classes**, from `Module` to `ImportFrom`. Each class is a constructor of `Catalog.Kind`. `Catalog.DeclaredSlots` is the tuple each class declares in its own body, spelled exactly as the source spells it. The one real inheritance chain is `Op` → `BoolOp` / `BinOp` / `UnaryOp`.

Modules:

- **`Catalog`** holds:
  - the classes;
  - the class each one extends;
  - the declared `__slots__`;
  - `ignored_fields` and `only_empty_fields`, as data.
- **`Slots`** is field-set resolution:
  - `Mro`, the method resolution order;
  - `SlotsAttr`, which is `getattr(klass, '__slots__', [])`. A class that declares no `__slots__` of its own (`pass`, or only `only_empty_fields`) finds the tuple of the class it extends;
  - `GetSlots`, which chains those tuples over the MRO, duplicates included;
  - a reference definition `Fields`, the union of the declared tuples along the inheritance chain, proved equal to what `get_slots` accepts.
- **`Nodes`** holds:
  - the closed `Value` universe: `None`, bool, int, str, bytes, a child node, a list;
  - Python truthiness;
  - `getattr(node, f, None)`.
- **`Construction`** models `__init__`:
  - `Init` is a method with the source's loop;
  - it is proved equal to the specification function `Constructed`. That function stores every accepted argument and panics at the first rejected one. A rejected argument is an unknown name with a true value.
- **`Equality`** models `__eq__`:
  - `NodeEq` is the body of `__eq__`: an `isinstance` test, then every non-metadata slot of the receiver's class compared, reading an unset attribute as `None`;
  - `ValueEq` is Python's `==` on attribute values. `True == 1` holds, lists compare element by element, and child nodes compare through the rich-comparison rule;
  - `RichCompare` is CPython's `==` between two nodes. The right operand's `__eq__` is tried first when its class is a proper subclass of the left's.
- **`NodeProperties`** relates construction and equality.
- **`Scenarios`** holds concrete calls such as `Slice(lower=None)`, `arguments(vararg='args')` and `BinOp(op=..., left=..., right=...)`.

Inputs that are not part of the node layer (the parser, the raw parse tree) do not appear. The keyword arguments of a call are a parameter: a sequence of distinct (name, value) pairs in the order Python iterates them.

Points where the code's behaviour may be unexpected:

- **Metadata names.** The four metadata slots are `node_id`, `source_code`, `col_offset` and `lineno` (vyper/ast.py:15). `__eq__` skips exactly these names (vyper/ast.py:40).
- **Kind test in equality.** `__eq__` tests `isinstance(other, type(self))` (vyper/ast.py:38). An `Op` therefore equals a `BinOp` holding the same fields by `Op.__eq__`, though not by `==` (`Scenarios.OpAgainstBinOp`). A bare `VyperNode` instance equals every node by its own `__eq__` (`Equality.BaseEqualsEveryNode`).
- **`ignored_fields` and `only_empty_fields`.** `__init__` never reads them (vyper/ast.py:28-35). A `ctx` argument with a true value raises, like any unknown name (`Scenarios.IgnoredCtxRejected`). An `only_empty_fields` name with a false value is dropped, so the attribute stays unset (`Scenarios.SliceLowerNone`).
- **Subclasses without their own slots.** A class without its own `__slots__` accepts exactly the fields of the class it extends. `BinOp` accepts `op`, `left`, `right` and the metadata (vyper/ast.py:121-122).
- **Unset slots.** An unset slot reads as `None`, so it equals the same slot explicitly set to `None` (vyper/ast.py:41, `Equality.UnsetEqualsNone`).

## Model

| member | source | states |
|---|---|---|
| Catalog.DeclaredSlots | vyper/ast.py:48-278 | the `__slots__` tuple each class declares in its own body, in the source's order and spelling, or none for a class that declares none (`pass`, or only `only_empty_fields`); what follows from it is stated by the `Slots` lemmas on concrete classes (`BaseFields`, `OpFields`, `ArgumentsFields`, `ClassSlotsNotReserved`) |
| Catalog.IgnoredFields | vyper/ast.py:16 | the base's `ignored_fields`, `['ctx']`, which no class overrides; `Slots.IgnoredNotField` states that `ctx` is no class's field, and `Slots.ExtrasAreNotSlots` that `__init__` accepts it for no class |
| Catalog.OnlyEmptyFields | vyper/ast.py:17 | `only_empty_fields`: `vararg`, `kwonlyargs`, `kwarg` and `kw_defaults` for `arguments` (vyper/ast.py:78), `lower` for `Slice` (vyper/ast.py:270), the base's empty list elsewhere; `Slots.ArgumentsOnlyEmptyNotFields`, `Slots.SliceOnlyEmptyNotFields` and `Slots.ExtrasAreNotSlots` state that none of these names is a slot of its class |
| Catalog.Parent | vyper/ast.py:113-126 | only the base class has no parent; `BoolOp`, `BinOp` and `UnaryOp` extend `Op`, every other class extends the base, each parent one level closer to the base |
| Slots.Metadata | vyper/ast.py:15 | the four metadata names, declared by the base and skipped by `__eq__` (vyper/ast.py:40); `MetadataAccepted` states every class accepts them, and `Equality.MetadataBlind` that `__eq__` ignores them |
| Slots.IsSubkind | vyper/ast.py:38 | `isinstance(other, type(self))`: the class is on the object's MRO; `SubkindAntisymmetric` states two classes each an instance of the other are equal, and `MroMembers` lists which classes can be on an MRO |
| Slots.Mro | vyper/ast.py:20-24 | the MRO starts at the class itself, ends at the base, and each entry is the class the previous one extends |
| Slots.SlotsAttr | vyper/ast.py:22 | `getattr(klass, '__slots__', [])`: the class's own tuple, else the tuple found on the class it extends, else empty; every name it yields is in `Fields` (`SlotsAttrWithinFields`) |
| Slots.Chain | vyper/ast.py:21-24 | the tuples of a sequence of classes, concatenated in order; `ChainOfMro` unfolds it along the inheritance chain |
| Slots.GetSlots | vyper/ast.py:19-24 | `get_slots()`, duplicates kept; `ChainOfMro` states it is the class's own tuple followed by its parent's `get_slots()`, and `GetSlotsIsDeclaredUnion` gives its set of names |
| Slots.Accepts | vyper/ast.py:29 | the test `field_name in self.get_slots()`; `AcceptsIffField` states it holds exactly for the names in `Fields` |
| Slots.Fields | vyper/ast.py:14-278 | reference definition: the union of the tuples declared along the inheritance chain, proved equal to `Accepts` by `AcceptsIffField` |
| Slots.GetSlotsIsDeclaredUnion | vyper/ast.py:19-24 | a name is in `get_slots()` exactly when some class on the inheritance chain declares it; the inherited tuple a class without its own `__slots__` finds adds no new name |
| Slots.AcceptsIffField | vyper/ast.py:19-24 | the same equivalence for one name, by induction along the chain |
| Slots.MetadataAccepted | vyper/ast.py:14-24 | every class accepts `node_id`, `source_code`, `col_offset` and `lineno` |
| Slots.SubkindAcceptsMore | vyper/ast.py:20-24 | a subclass accepts every field of each class it is an instance of |
| Slots.MroMembers | vyper/ast.py:113-126 | the only classes on an MRO are the class itself, `Op` and the base; `Op` appears only for `Op` and its three subclasses |
| Slots.SubkindAntisymmetric | vyper/ast.py:38 | two classes each an `isinstance` of the other are the same class |
| Slots.BaseFields | vyper/ast.py:14-15 | the base class accepts exactly the four metadata slots |
| Slots.OpFields | vyper/ast.py:113-114 | `Op` accepts exactly `op`, `left`, `right` and the metadata |
| Slots.BoolOpFields | vyper/ast.py:117-118 | `BoolOp` accepts exactly `op`, `left`, `right`, `values` and the metadata |
| Slots.BinOpAccepts | vyper/ast.py:121-122 | `BinOp` accepts exactly `op`, `left`, `right` and the metadata |
| Slots.UnaryOpFields | vyper/ast.py:125-126 | `UnaryOp` accepts exactly `op`, `left`, `right`, `operand` and the metadata |
| Slots.ClassSlotsNotReserved | vyper/ast.py:48-278 | a name that any class below the base declares in its own `__slots__` is neither a metadata slot nor `ctx` |
| Slots.OwnFieldsNotMetadata | vyper/ast.py:48-278 | no class below the base redeclares a metadata slot |
| Slots.MarkerFieldsAreMetadata | vyper/ast.py:141-270 | a marker class (declares no slots, extends the base) accepts only the metadata |
| Slots.MarkerIffNoSemanticFields | vyper/ast.py:141-270 | a class has no field beyond the metadata exactly when it is a marker class or the base itself |
| Slots.IgnoredNotField | vyper/ast.py:16 | `ctx`, the one ignored field, is declared by no class on any chain |
| Slots.ArgumentsFields | vyper/ast.py:76-77 | `arguments` accepts exactly `args`, `defaults`, `default` and the metadata |
| Slots.ArgumentsOnlyEmptyNotFields | vyper/ast.py:76-78 | none of `vararg`, `kwonlyargs`, `kwarg`, `kw_defaults` is a field of `arguments` |
| Slots.SliceOnlyEmptyNotFields | vyper/ast.py:269-270 | `lower` is not a field of `Slice` |
| Slots.ExtrasAreNotSlots | vyper/ast.py:16-31 | `__init__` accepts no `ignored_fields` name and no `only_empty_fields` name of the class |
| Nodes.Truthy | vyper/ast.py:31 | Python truthiness of an argument value, the `elif value` test; `Construction.Constructed` and `Construction.FalsyUnknownIsDropped` state its effect on construction |
| Nodes.GetAttr | vyper/ast.py:41 | `getattr(node, f, None)`: the stored value, or `None` when unset; `NodeProperties.GetAttrOfConstructed` and `Equality.UnsetEqualsNone` state what it reads |
| Construction.Rejects | vyper/ast.py:29-31 | an argument is rejected when its name is not a slot and its value is true; `FirstRejected` and `Constructed` state that construction fails exactly on such an argument |
| Construction.Stored | vyper/ast.py:28-30 | the attributes the loop sets; `StoredKeys`, `StoredValue` and `StoredComesFromKwargs` state that they are exactly the accepted arguments, with the values passed |
| Construction.FirstRejected | vyper/ast.py:28-35 | none when no argument is an unknown name with a true value; otherwise the index of such an argument with none before it |
| Construction.StoredKeys | vyper/ast.py:28-30 | every attribute set is a slot name, and every argument whose name is a slot is set |
| Construction.Constructed | vyper/ast.py:26-35 | succeeds exactly when no argument is unknown and true; the node has the requested class and only accepted attributes; a failure carries the name, class and value of the first such argument |
| Construction.Init | vyper/ast.py:26-35 | the loop over the arguments returns exactly the outcome `Constructed` specifies |
| Construction.StoredValue | vyper/ast.py:28-30 | an accepted argument is stored under its name with the value passed |
| Construction.StoredComesFromKwargs | vyper/ast.py:28-30 | every attribute set was passed as an argument |
| Construction.ConstructStoresAccepted | vyper/ast.py:28-30 | a successful construction holds every accepted argument unchanged, true or false, and nothing that was not passed |
| Construction.FirstRejectedWithout | vyper/ast.py:28-35 | removing an argument that is not rejected keeps the first rejected argument, shifted by one when it came later |
| Construction.StoredWithoutUnaccepted | vyper/ast.py:28-30 | removing an argument whose name is not a slot leaves the attributes unchanged |
| Construction.FalsyUnknownIsDropped | vyper/ast.py:29-31 | an unknown name with a false value changes nothing: the outcome equals the outcome without it, and the attribute stays unset |
| Construction.AllAcceptedStored | vyper/ast.py:28-30 | when every name is accepted, construction succeeds with all arguments stored |
| Construction.EmptyConstruction | vyper/ast.py:26-28 | a call with no arguments succeeds with no attribute set |
| Equality.ValueEq | vyper/ast.py:41 | Python `==` on attribute values; `ValueEqReflexive` and `Scenarios.TrueEqualsOne` state its properties |
| Equality.FieldEq | vyper/ast.py:41 | one slot's comparison; `FieldEqReadsUnsetAsNone` states it compares both sides read with `None` as default |
| Equality.SlotsAgree | vyper/ast.py:39-42 | the slot loop of `__eq__`; `SlotsAgreeIff` states it holds exactly when every non-metadata accepted field compares equal |
| Equality.NodeEq | vyper/ast.py:37-45 | `a.__eq__(b)`; `NodeEqIff` states it holds exactly when `b` is an instance of `a`'s class and every non-metadata field compares equal |
| Equality.RichCompare | vyper/ast.py:37-45 | `==` between two nodes under the reflected-operand rule; `RichCompareSameKind` states it holds exactly when both nodes have the same class and the left one's `__eq__` holds |
| Equality.RichCompareSameKind | vyper/ast.py:37-45 | `==` between two nodes holds exactly when they have the same class and the receiver's `__eq__` holds; this is also how a child node compares inside `__eq__` |
| Equality.FieldEqReadsUnsetAsNone | vyper/ast.py:41 | one slot compares as `getattr(a, f, None) == getattr(b, f, None)` |
| Equality.SlotsAgreeIff | vyper/ast.py:39-42 | the slot loop succeeds exactly when every non-metadata accepted field compares equal |
| Equality.NodeEqIff | vyper/ast.py:37-45 | `a.__eq__(b)` holds exactly when `b` is an instance of `a`'s class and every non-metadata field of that class compares equal |
| Equality.ValueEqReflexive | vyper/ast.py:37-45 | every attribute value equals itself |
| Equality.NodeEqReflexive | vyper/ast.py:37-45 | every node equals itself |
| Equality.MetadataBlind | vyper/ast.py:39-43 | nodes that differ only in metadata are equal when the second is an instance of the first's class |
| Equality.UnsetEqualsNone | vyper/ast.py:41 | an unset slot and the same slot set to `None` compare equal, in both directions |
| Equality.SemanticMismatch | vyper/ast.py:39-42 | one non-metadata field that compares unequal makes the nodes unequal |
| Equality.EqualNodesShareKind | vyper/ast.py:38 | for every class other than `Op` and the base, `__eq__` holds only between instances of that same class |
| Equality.MarkerInstancesEqual | vyper/ast.py:38-43 | two instances of one marker class are equal, by `__eq__` and by `==` |
| Equality.BaseEqualsEveryNode | vyper/ast.py:37-43 | an instance of the base class is equal, by its own `__eq__`, to every node |
| NodeProperties.GetAttrOfConstructed | vyper/ast.py:28-30 | after a successful construction an attribute reads as the value passed when the name is accepted and was passed, and as `None` otherwise |
| NodeProperties.RejectionAgrees | vyper/ast.py:28-35 | arguments that agree off the metadata agree on whether construction panics |
| NodeProperties.ConstructedIgnoresMetadata | vyper/ast.py:26-43 | two constructions of one class whose arguments differ only in metadata both fail or both give nodes equal in both directions |
| NodeProperties.ConstructedSemanticDifference | vyper/ast.py:26-43 | two constructions whose arguments disagree on a non-metadata field give unequal nodes |
| Scenarios.SliceLowerNone | vyper/ast.py:269-270 | `Slice(lower=None)` succeeds with nothing set |
| Scenarios.SliceLowerNode | vyper/ast.py:269-270 | `Slice(lower=Num(n=1))` panics, naming `lower`, `Slice` and the value |
| Scenarios.ArgumentsVararg | vyper/ast.py:76-78 | `arguments(vararg='args')` panics, naming `vararg` |
| Scenarios.IgnoredCtxRejected | vyper/ast.py:16 | `Name(ctx='Load')` panics, naming `ctx` |
| Scenarios.OperandsStored | vyper/ast.py:28-30 | a class accepting `op`, `left` and `right` stores all three as given |
| Scenarios.BinOpStoresOperands | vyper/ast.py:121-122 | `BinOp(op=..., left=..., right=...)` succeeds and stores the three values |
| Scenarios.NameFields | vyper/ast.py:52-53 | the one non-metadata field of `Name` is `id` |
| Scenarios.NameConstruction | vyper/ast.py:26-31 | `Name(id=..., node_id=..., lineno=..., col_offset=...)` succeeds for any values |
| Scenarios.NameAtTwoPositions | vyper/ast.py:26-53 | `Name(id='x')` constructed at two different positions succeeds both times and the two nodes compare equal |
| Scenarios.NameWithOtherId | vyper/ast.py:26-53 | `Name(id='x')` and `Name(id='y')`, constructed at the same position, compare unequal |
| Scenarios.BinOpIsOp | vyper/ast.py:121 | a `BinOp` is an instance of `Op` |
| Scenarios.OpAgainstBinOp | vyper/ast.py:113-122 | for any attributes, `Op.__eq__` accepts the `BinOp`, `BinOp.__eq__` rejects the `Op`, and `==` is false |
| Scenarios.SingleStored | vyper/ast.py:28-30 | a call with one argument whose name the class accepts succeeds and stores exactly that argument |
| Scenarios.NumFields | vyper/ast.py:101-102 | the one non-metadata field of `Num` is `n`, and `Num` accepts it |
| Scenarios.TrueEqualsOne | vyper/ast.py:26-45 | `Num(n=True)` (vyper/ast.py:101-102) and `Num(n=1)` both succeed and the first compares equal to the second |
| Scenarios.FalseIsNotUnset | vyper/ast.py:26-45 | `NameConstant(value=False)` (vyper/ast.py:105-106) and `NameConstant()` both succeed and compare unequal |

## Left out

- Python reflection: the mechanics of `__slots__`, `itertools.chain` and `type.mro` are replaced by the explicit `Catalog.Parent` and `Catalog.DeclaredSlots` functions. `object`, the last entry of every Python MRO, has no `__slots__` and contributes nothing, so it is left off `Slots.Mro`.
- Reflected-comparison machinery beyond the one rule that decides node comparisons: `NotImplemented` and overridden `__ne__`. No class of the catalog overrides either.
- The text of the panic message and the `repr` of the class and value. A panic carries the field name, the class and the value.
- `vyper.exceptions.CompilerPanic` is not part of this model. It is an opaque error constructor here.
- Floats in `Num.n`: literal payloads are ints, bools, strings, bytes, nodes or lists.
- Hashing: defining `__eq__` disables `__hash__`, which no modelled operation uses.
- The parser that builds nodes and the passes that read them: both are outside this file.
- Attribute assignment after construction, and aliasing between nodes: nodes are values here, and `Init` builds a fresh attribute map.
- `Construction.Init` computes `get_slots()` once, before the loop, where the source calls it once per argument. It is a pure function of the class, so the outcome is the same.
- The identity shortcut of Python list comparison (`x is y`) is not modelled. By `Equality.ValueEqReflexive` it never changes a result.
