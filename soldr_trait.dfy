/**
 * Traits a policy subject must have, chained with AND and OR links
 * (trait.go).
 *
 * A trait chain is evaluated as a value (`Trait`); the setters that build
 * chains overwrite link fields in place and are methods of `TraitNode`.
 */
module SoldrTrait {
  import opened Wrappers
  import opened GoValues

  /** `TraitType`, a `uint32`. */
  newtype TraitType = x: int | 0 <= x < 0x1_0000_0000

  const Unspecified: TraitType := 0
  const NoTraits: TraitType := 1
  const NotZero: TraitType := 2
  const NotEqual: TraitType := 3
  const Custom: TraitType := 4

  /** A trait: its type, the trait it is ANDed with, the trait it is ORed with, and the forbidden value. */
  datatype Trait = Trait(traitType: TraitType, andTrait: Option<Trait>, orTrait: Option<Trait>, notEqualTo: Value)

  /** `Traitless`. */
  function Traitless(): (t: Trait)
    ensures t.traitType == NoTraits && t.andTrait == None && t.orTrait == None && t.notEqualTo == Nil
  {
    Trait(NoTraits, None, None, Nil)
  }

  /** `NotZeroTrait`. */
  function NotZeroTrait(): (t: Trait)
    ensures t.traitType == NotZero && t.andTrait == None && t.orTrait == None && t.notEqualTo == Nil
  {
    Trait(NotZero, None, None, Nil)
  }

  /** The kinds the type switch of `validValue` accepts. */
  const PrimitiveKinds: set<Kind> :=
    {Bool, String, Int, Int8, Int16, Int32, Int64, Uint, Uint8, Uint16, Uint32, Uint64, Uintptr,
     Float32, Float64, Complex64, Complex128}

  /**
   * `validValue`: the dynamic type is one of the predeclared boolean,
   * string and numeric types; a defined type over one of them does not
   * match the type switch, and neither does nil.
   */
  function ValidValue(v: Value): (b: bool)
    ensures b <==> TypeOf(v).Some? && TypeOf(v).value.Predeclared? && TypeOf(v).value.kind in PrimitiveKinds
  {
    match v
    case Nil => false
    case _ => v.typ.Predeclared? && v.typ.kind in PrimitiveKinds
  }

  const NonPrimitiveMessage := "cannot compare non-primitive types"

  /** `NotEqualTrait`: an error for a value that is not primitive, otherwise a NotEqual trait holding it. */
  function NotEqualTrait(ne: Value): (r: Result<Trait>)
    ensures r.Failure? <==> !ValidValue(ne)
    ensures r.Failure? ==> r.error == NonPrimitiveMessage
    ensures r.Success? ==> r.value.traitType == NotEqual && r.value.notEqualTo == ne
    ensures r.Success? ==> r.value.andTrait == None && r.value.orTrait == None
  {
    if !ValidValue(ne) then Failure(NonPrimitiveMessage)
    else Success(Trait(NotEqual, None, None, ne))
  }

  /** `IsCompoundTrait`: whether a trait of this type takes links. */
  predicate IsCompoundTrait(t: TraitType)
  {
    t != Unspecified && t != NoTraits
  }

  /** The traits the constructors build: a traitless one takes no links, the others do. */
  lemma ConstructedTraitsCompound(ne: Value)
    ensures !IsCompoundTrait(Traitless().traitType)
    ensures IsCompoundTrait(NotZeroTrait().traitType)
    ensures NotEqualTrait(ne).Success? ==> IsCompoundTrait(NotEqualTrait(ne).value.traitType)
    ensures !IsCompoundTrait(Unspecified)
  {
  }

  /**
   * A trait as the pointer the setters work on: `and`, `or`, `And` and `Or`
   * overwrite a link field of the trait they are called on.
   */
  class TraitNode {
    var traitType: TraitType
    var andTrait: TraitNode?
    var orTrait: TraitNode?
    var notEqualTo: Value

    /** `&trait{traitType: t, notEqualTo: ne}`: a trait with no links. */
    constructor (t: TraitType, ne: Value)
      ensures traitType == t && notEqualTo == ne && andTrait == null && orTrait == null
    {
      traitType := t;
      notEqualTo := ne;
      andTrait := null;
      orTrait := null;
    }

    /** `and`: a compound trait gets the AND link; any other trait is left as it is.  Returns the receiver. */
    method LinkAnd(and: TraitNode?) returns (r: TraitNode)
      modifies this
      ensures r == this
      ensures IsCompoundTrait(traitType) ==> andTrait == and
      ensures !IsCompoundTrait(traitType) ==> andTrait == old(andTrait)
      ensures traitType == old(traitType) && orTrait == old(orTrait) && notEqualTo == old(notEqualTo)
    {
      if !IsCompoundTrait(traitType) {
        return this;
      }
      andTrait := and;
      return this;
    }

    /** `or`: a compound trait gets the OR link; any other trait is left as it is.  Returns the receiver. */
    method LinkOr(or: TraitNode?) returns (r: TraitNode)
      modifies this
      ensures r == this
      ensures IsCompoundTrait(traitType) ==> orTrait == or
      ensures !IsCompoundTrait(traitType) ==> orTrait == old(orTrait)
      ensures traitType == old(traitType) && andTrait == old(andTrait) && notEqualTo == old(notEqualTo)
    {
      if !IsCompoundTrait(traitType) {
        return this;
      }
      orTrait := or;
      return this;
    }

    /** `And`: sets the AND link whatever the trait's type. */
    method SetAnd(st: TraitNode?)
      modifies this
      ensures andTrait == st
      ensures traitType == old(traitType) && orTrait == old(orTrait) && notEqualTo == old(notEqualTo)
    {
      andTrait := st;
    }

    /** `Or`: sets the OR link whatever the trait's type. */
    method SetOr(st: TraitNode?)
      modifies this
      ensures orTrait == st
      ensures traitType == old(traitType) && andTrait == old(andTrait) && notEqualTo == old(notEqualTo)
    {
      orTrait := st;
    }
  }

  /**
   * The links of a non-compound trait never change through `and` and `or`:
   * building a chain from a traitless trait leaves it a lone trait.
   */
  method TraitlessTakesNoLinks(a: TraitNode?, o: TraitNode?) returns (t: TraitNode)
    ensures fresh(t) && t.traitType == NoTraits && t.andTrait == null && t.orTrait == null
  {
    t := new TraitNode(NoTraits, Nil);
    var r := t.LinkAnd(a);
    r := t.LinkOr(o);
  }

  /** On a compound trait, the last `and` call wins and does not touch the OR link set before it. */
  method LinkedChain(first: TraitNode?, second: TraitNode?, o: TraitNode?) returns (t: TraitNode)
    ensures fresh(t) && t.traitType == NotZero && t.andTrait == second && t.orTrait == o
  {
    t := new TraitNode(NotZero, Nil);
    var r := t.LinkAnd(first);
    r := t.LinkOr(o);
    r := t.LinkAnd(second);
  }

  /** `Valid`: the trait is present (a non-nil pointer). */
  predicate Valid(t: Option<Trait>)
  {
    t.Some?
  }

  const NotZeroFault := "it should not be zero"
  const NotEqualFault := "it should not be equal to the supplied value"

  /** `FaultString`: the not-zero message for NotZero traits, the not-equal message for every other type. */
  function FaultString(t: Trait): (s: string)
    ensures s == NotZeroFault <==> t.traitType == NotZero
    ensures s == NotZeroFault || s == NotEqualFault
  {
    if t.traitType == NotZero then NotZeroFault else NotEqualFault
  }
}
