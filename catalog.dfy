/**
 * The closed catalog of node kinds of the Vyper compiler's AST layer
 * (vyper/ast.py): one constructor per class, the class each one extends,
 * and the `__slots__` tuple each one declares itself.
 */
module Catalog {
  import opened Wrappers

  /** One constructor per class of vyper/ast.py, the base class included. */
  datatype Kind =
    | VyperNode
    | Module | Name | Subscript | Index | arg | Tuple | FunctionDef | arguments
    | Import | Call | keyword | Str | Compare | Num | NameConstant | Attribute
    | Op | BoolOp | BinOp | UnaryOp
    | List | Dict | Bytes
    | Add | Sub | Mult | Div | Mod | Pow | In | Gt | GtE | LtE | Lt | Eq | NotEq
    | And | Or | Not | USub
    | Expr | Pass | AnnAssign | Assign | If | Assert | For | AugAssign
    | Break | Continue | Return | Delete | stmt | ClassDef | Raise | Slice
    | alias | ImportFrom

  /** Distance from the base class along the single-inheritance chain. */
  function Depth(k: Kind): nat
  {
    match k
    case VyperNode => 0
    case BoolOp | BinOp | UnaryOp => 2
    case _ => 1
  }

  /**
   * The class a kind extends: `Op` for the three operator nodes, the base
   * for every other class, nothing for the base itself.
   */
  function Parent(k: Kind): (p: Option<Kind>)
    ensures p.None? <==> k == VyperNode
    ensures p.Some? ==> Depth(p.value) + 1 == Depth(k)
  {
    match k
    case VyperNode => None
    case BoolOp | BinOp | UnaryOp => Some(Op)
    case _ => Some(VyperNode)
  }

  /**
   * The attribute names the catalog mentions, one constant each, spelled
   * exactly as the classes spell them.
   */
  const NodeIdField: string := "node_id"
  const SourceCodeField: string := "source_code"
  const ColOffsetField: string := "col_offset"
  const LinenoField: string := "lineno"
  const BodyField: string := "body"
  const IdField: string := "id"
  const SliceField: string := "slice"
  const ValueField: string := "value"
  const ArgField: string := "arg"
  const AnnotationField: string := "annotation"
  const EltsField: string := "elts"
  const ArgsField: string := "args"
  const ReturnsField: string := "returns"
  const NameField: string := "name"
  const DecoratorListField: string := "decorator_list"
  const PosField: string := "pos"
  const DefaultsField: string := "defaults"
  const DefaultField: string := "default"
  const NamesField: string := "names"
  const FuncField: string := "func"
  const KeywordsField: string := "keywords"
  const KeywordField: string := "keyword"
  const SField: string := "s"
  const ComparatorsField: string := "comparators"
  const OpsField: string := "ops"
  const LeftField: string := "left"
  const RightField: string := "right"
  const NField: string := "n"
  const AttrField: string := "attr"
  const OpField: string := "op"
  const ValuesField: string := "values"
  const OperandField: string := "operand"
  const KeysField: string := "keys"
  const TargetField: string := "target"
  const SimpleField: string := "simple"
  const TargetsField: string := "targets"
  const TestField: string := "test"
  const OrelseField: string := "orelse"
  const MsgField: string := "msg"
  const IterField: string := "iter"
  const ClassTypeField: string := "class_type"
  const ExcField: string := "exc"
  const AsnameField: string := "asname"
  const ModuleField: string := "module"
  const CtxField: string := "ctx"
  const VarargField: string := "vararg"
  const KwonlyargsField: string := "kwonlyargs"
  const KwargField: string := "kwarg"
  const KwDefaultsField: string := "kw_defaults"
  const LowerField: string := "lower"

  /**
   * The `__slots__` tuple a class declares in its own body, or None for a
   * class whose body declares none (`pass`, or only `only_empty_fields`).
   */
  function DeclaredSlots(k: Kind): Option<seq<string>>
  {
    match k
    case VyperNode => Some([NodeIdField, SourceCodeField, ColOffsetField, LinenoField])
    case Module => Some([BodyField])
    case Name => Some([IdField])
    case Subscript => Some([SliceField, ValueField])
    case Index => Some([ValueField])
    case arg => Some([ArgField, AnnotationField])
    case Tuple => Some([EltsField])
    case FunctionDef => Some([ArgsField, BodyField, ReturnsField, NameField, DecoratorListField, PosField])
    case arguments => Some([ArgsField, DefaultsField, DefaultField])
    case Import => Some([NamesField])
    case Call => Some([FuncField, ArgsField, KeywordsField, KeywordField])
    case keyword => Some([ArgField, ValueField])
    case Str => Some([SField])
    case Compare => Some([ComparatorsField, OpsField, LeftField, RightField])
    case Num => Some([NField])
    case NameConstant => Some([ValueField])
    case Attribute => Some([AttrField, ValueField])
    case Op => Some([OpField, LeftField, RightField])
    case BoolOp => Some([ValuesField])
    case BinOp => None
    case UnaryOp => Some([OperandField])
    case List => Some([EltsField])
    case Dict => Some([KeysField, ValuesField])
    case Bytes => Some([SField])
    case Add | Sub | Mult | Div | Mod | Pow | In | Gt | GtE | LtE | Lt | Eq | NotEq
      | And | Or | Not | USub => None
    case Expr => Some([ValueField])
    case Pass => None
    case AnnAssign => Some([TargetField, AnnotationField, ValueField, SimpleField])
    case Assign => Some([TargetsField, ValueField])
    case If => Some([TestField, BodyField, OrelseField])
    case Assert => Some([TestField, MsgField])
    case For => Some([IterField, TargetField, OrelseField, BodyField])
    case AugAssign => Some([OpField, TargetField, ValueField])
    case Break | Continue => None
    case Return => Some([ValueField])
    case Delete => Some([TargetsField])
    case stmt => None
    case ClassDef => Some([ClassTypeField, NameField, BodyField])
    case Raise => Some([ExcField])
    case Slice => None
    case alias => Some([NameField, AsnameField])
    case ImportFrom => Some([ModuleField, NamesField])
  }

  /** The base class's `ignored_fields` list; no class overrides it. */
  const IgnoredFields: seq<string> := [CtxField]

  /**
   * A class's `only_empty_fields` list: declared by `arguments` and `Slice`,
   * inherited as the base's empty list everywhere else.
   */
  function OnlyEmptyFields(k: Kind): seq<string>
  {
    match k
    case arguments => [VarargField, KwonlyargsField, KwargField, KwDefaultsField]
    case Slice => [LowerField]
    case _ => []
  }

  /** The marker kinds: direct subclasses of the base that declare no slots. */
  predicate IsMarker(k: Kind)
  {
    DeclaredSlots(k).None? && Parent(k) == Some(VyperNode)
  }
}
