/** The entities an abstract heap is made of: program values, calling contexts,
    abstract references and fields (internal/pkg/earpointer/heap.go). */
module References {

  datatype Option<+T> = None | Some(value: T)

  /** A function of the analysed program. */
  datatype Function = Function(id: nat)

  /** A call site: the identity of a call instruction. */
  datatype Site = Site(id: nat)

  /** An SSA value, reduced to what the pointer analysis asks of it: identity, source
      position, the function it belongs to (None for globals), and the answers of
      typeMayShareObject and isLocal. */
  datatype Value =
    | Register(id: nat, pos: int, parent: Option<Function>, shareable: bool, local: bool)
    | GlobalVariable(id: nat, pos: int, shareable: bool)

  /** Whether a value is a local or a global and its type allows object sharing. */
  predicate MayShareObject(v: Value) {
    v.shareable && (v.GlobalVariable? || v.local)
  }

  /** A calling context, a stack of call sites. The source passes contexts as pointers, so a
      context has an identity besides its contents: the shared empty one, or the
      index-th context of its owner. */
  datatype Context =
    | EmptyContext
    | CallString(owner: Function, index: nat, stack: seq<Site>)
  {
    function Sites(): seq<Site> {
      if EmptyContext? then [] else stack
    }
  }

  datatype SyntheticKind = ValueOf | FieldOf

  datatype Reference =
    | Local(context: Context, reg: Value)
    | Global(global: Value)
    | Synthetic(kind: SyntheticKind, ref: Reference)
  {
    /** The local or global underneath. */
    function Value(): Value {
      match this
      case Local(_, reg) => reg
      case Global(global) => global
      case Synthetic(_, ref) => ref.Value()
    }

    /** The source position of the underlying value. */
    function Pos(): int {
      Value().pos
    }
  }

  /** References to a value lie where it does, synthesised ones where what they were synthesised for does. */
  lemma PositionsAreThoseOfValues(r: Reference)
    ensures match r
            case Local(_, reg) => r.Pos() == reg.pos
            case Global(global) => r.Pos() == global.pos
            case Synthetic(_, ref) => r.Pos() == ref.Pos()
  {
  }

  function MakeReference(context: Context, v: Value): (r: Reference)
    ensures !r.Synthetic? && r.Value() == v
  {
    if v.GlobalVariable? then Global(v) else Local(context, v)
  }

  datatype Field = Field(name: string, irField: Option<nat>)

  /** The pseudo-field of array, slice, map and channel elements. */
  const ANY_INDEX_FIELD := Field("AnyField", None)

  /** The pseudo-field of the direct points-to relation. */
  const DIRECT_POINT_TO_FIELD := Field("->", None)

  type FieldMap = map<Field, Reference>
}
