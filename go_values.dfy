/**
 * The runtime values that the core inspects by reflection, made explicit:
 * every non-nil value carries its dynamic type, `IsZero` is the structural
 * zero test of `reflect.Value.IsZero`, and `==` on `Value` is the deep
 * structural equality of `cmp.Equal`.
 */
module GoValues {
  import opened Wrappers

  /** The kinds of `reflect.Kind` that a captured value can have. */
  datatype Kind =
    | Bool | String
    | Int | Int8 | Int16 | Int32 | Int64
    | Uint | Uint8 | Uint16 | Uint32 | Uint64 | Uintptr
    | Float32 | Float64 | Complex64 | Complex128
    | Pointer | Slice | Map | Chan | Func | Interface
    | Struct | Array

  /**
   * A dynamic type: one of Go's predeclared types (`int`, `string`, ...),
   * or any other type (a defined type, a pointer, slice or struct type),
   * told apart from the rest by an identity.
   */
  datatype GoType = Predeclared(kind: Kind) | Other(kind: Kind, id: nat)

  /**
   * A value held in an `any`.  Scalars (booleans and numbers) are given by
   * their bit pattern, so a scalar is zero when its bits are 0; references
   * (pointers, slices, maps, channels, functions) by what they refer to,
   * `None` being nil; structs and arrays by their parts.
   */
  datatype Value =
    | Nil
    | Scalar(typ: GoType, bits: int)
    | Text(typ: GoType, s: string)
    | Ref(typ: GoType, target: Option<Value>)
    | Aggregate(typ: GoType, parts: seq<Value>)

  /** `reflect.TypeOf(v)`; `None` for the untyped nil. */
  function TypeOf(v: Value): (t: Option<GoType>)
    ensures t == None <==> v == Nil
    ensures t.Some? ==> t.value == v.typ
  {
    if v.Nil? then None else Some(v.typ)
  }

  /** `isZero(v)`: nil, a zero scalar, the empty string, a nil reference, or a struct or array of zero parts. */
  predicate IsZero(v: Value)
  {
    match v
    case Nil => true
    case Scalar(_, bits) => bits == 0
    case Text(_, s) => s == ""
    case Ref(_, target) => target == None
    case Aggregate(_, parts) => forall i :: 0 <= i < |parts| ==> IsZero(parts[i])
  }
}
