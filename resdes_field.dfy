/**
 * A declared field assertion (field.go) and the failures it reports
 * (the error constructors of errors.go).  A `Field` is built once by
 * `NewField`, which fixes its normalised path, its mask membership and
 * whether its value is zero; `Validate` is a pure decision over it.
 */
module ResdesField {
  import opened Wrappers
  import opened GoValues
  import opened ResdesPolicy
  import ResdesMask
  import GoErrors

  /** Why a field check failed; each case wraps one sentinel error of errors.go. */
  datatype Failure =
    | NotComparable(path: string, valueType: Option<GoType>, targetType: Option<GoType>)
    | MustEqualFailed(path: string, expected: Value, actual: Value)
    | MustNotEqualFailed(path: string, actual: Value)
    | MustNotBeZeroFailed(path: string, actual: Value)

  const NotComparableMessage := "equality check failed, types not comparable"
  const MustEqualMessage := "expected values to be equal"
  const MustNotEqualMessage := "field set to forbidden value"
  const MustNotBeZeroMessage := "field set to zero value"

  /** The sentinel message a failure wraps. */
  function Sentinel(f: Failure): string
  {
    match f
    case NotComparable(_, _, _) => NotComparableMessage
    case MustEqualFailed(_, _, _) => MustEqualMessage
    case MustNotEqualFailed(_, _) => MustNotEqualMessage
    case MustNotBeZeroFailed(_, _) => MustNotBeZeroMessage
  }

  /** The failure as an error: one cause naming the field and ending in the sentinel message. */
  function FailureErr(f: Failure): (e: GoErrors.Err)
    ensures |e| == 1 && e[0] == "field: " + f.path + ": " + Sentinel(f)
  {
    GoErrors.New("field: " + f.path + ": " + Sentinel(f))
  }

  datatype Field = Field(
    path: string,
    pathNormalized: string,
    value: Value,
    inMask: bool,
    zero: bool,
    policy: Policy,
    condition: Condition,
    cmpTo: Value)
  {
    /** `ID()`: the path as declared. */
    function ID(): string
    {
      path
    }

    /** `Path(normalized)`. */
    function Path(normalized: bool): string
    {
      if normalized then pathNormalized else path
    }
  }

  /**
   * `NewField`: mask membership is decided once, on the normalised path,
   * and zero-ness once, on the captured value.
   */
  function NewField(path: string, value: Value, policy: Policy, condition: Condition,
                    cmpTo: Value, paths: Option<set<string>>): (f: Field)
    ensures f.path == path && f.value == value && f.cmpTo == cmpTo
    ensures f.policy == policy && f.condition == condition
    ensures f.pathNormalized == ResdesMask.Normalize(path)
    ensures f.inMask <==> paths.Some? && ResdesMask.Normalize(path) in paths.value
    ensures f.zero <==> IsZero(value)
  {
    var normalized := ResdesMask.Normalize(path);
    Field(path, normalized, value, ResdesMask.IsPathInMask(normalized, paths),
          IsZero(value), policy, condition, cmpTo)
  }

  /** The identity accessors of a built field: the declared path, and its underscore-free normal form. */
  lemma NewFieldPaths(path: string, value: Value, policy: Policy, condition: Condition,
                      cmpTo: Value, paths: Option<set<string>>)
    ensures NewField(path, value, policy, condition, cmpTo, paths).ID() == path
    ensures NewField(path, value, policy, condition, cmpTo, paths).Path(false) == path
    ensures NewField(path, value, policy, condition, cmpTo, paths).Path(true) == ResdesMask.Normalize(path)
    ensures '_' !in NewField(path, value, policy, condition, cmpTo, paths).Path(true)
  {
    ResdesMask.NormalizeDropsUnderscores(path, false);
  }

  /** `checkEquals`: values of different dynamic types are not comparable; otherwise deep equality. */
  function CheckEquals(f: Field): (r: Result<bool>)
    ensures r.Failure? <==> TypeOf(f.value) != TypeOf(f.cmpTo)
    ensures r.Success? ==> (r.value <==> f.value == f.cmpTo)
  {
    if TypeOf(f.value) != TypeOf(f.cmpTo) then Failure(NotComparableMessage)
    else Success(f.value == f.cmpTo)
  }

  /** Whether the field's policy applies: not when it is mask-conditioned and outside the mask. */
  predicate Applies(f: Field)
  {
    !(f.condition == InMask && !f.inMask)
  }

  /**
   * `Validate`.  A mask-conditioned field outside the mask passes whatever
   * its policy; NonZero fails exactly on a zero value; every other policy
   * first needs both sides to have the same dynamic type, and then
   * NotEqualTo fails exactly on equal values and MustEqual exactly on
   * different ones (Custom and unknown policies then pass).
   */
  function Validate(f: Field): (r: Option<Failure>)
    ensures !Applies(f) ==> r == None
    ensures Applies(f) && f.policy == NonZero ==>
      r == if f.zero then Some(MustNotBeZeroFailed(f.path, f.value)) else None
    ensures Applies(f) && f.policy != NonZero && TypeOf(f.value) != TypeOf(f.cmpTo) ==>
      r == Some(NotComparable(f.path, TypeOf(f.value), TypeOf(f.cmpTo)))
    ensures Applies(f) && f.policy == NotEqualTo && TypeOf(f.value) == TypeOf(f.cmpTo) ==>
      (r.Some? <==> f.value == f.cmpTo)
    ensures Applies(f) && f.policy == MustEqual && TypeOf(f.value) == TypeOf(f.cmpTo) ==>
      (r.Some? <==> f.value != f.cmpTo)
    ensures Applies(f) && f.policy > MustEqual && TypeOf(f.value) == TypeOf(f.cmpTo) ==> r == None
    ensures r.Some? ==> r.value.path == f.path
  {
    if f.condition == InMask && !f.inMask then None
    else if f.policy == NonZero then
      (if f.zero then Some(MustNotBeZeroFailed(f.path, f.value)) else None)
    else
      match CheckEquals(f)
      case Failure(_) => Some(NotComparable(f.path, TypeOf(f.value), TypeOf(f.cmpTo)))
      case Success(eq) =>
        if f.policy == NotEqualTo && eq then Some(MustNotEqualFailed(f.path, f.cmpTo))
        else if f.policy == MustEqual && !eq then Some(MustEqualFailed(f.path, f.cmpTo, f.value))
        else None
  }

  /**
   * Mask scoping is default-deny: without mask entries, a mask-conditioned
   * field never reports anything, and with them it reports only when its
   * normalised path is one of the normalised entries.
   */
  lemma MaskConditionedField(path: string, value: Value, policy: Policy, cmpTo: Value, fieldMask: seq<string>)
    ensures Validate(NewField(path, value, policy, InMask, cmpTo, ResdesMask.MaskPaths(fieldMask))).Some? ==>
      exists m :: m in fieldMask && ResdesMask.Normalize(m) == ResdesMask.Normalize(path)
    ensures fieldMask == [] ==>
      Validate(NewField(path, value, policy, InMask, cmpTo, ResdesMask.MaskPaths(fieldMask))) == None
  {
  }

  /** An always-checked NonZero field fails exactly when its captured value is zero (`isZero(nil)` included). */
  lemma NonZeroFieldFailsOnZero(path: string, value: Value, cmpTo: Value, paths: Option<set<string>>)
    ensures Validate(NewField(path, value, NonZero, Always, cmpTo, paths)).Some? <==> IsZero(value)
    ensures Validate(NewField(path, Nil, NonZero, Always, cmpTo, paths)).Some?
  {
  }
}
