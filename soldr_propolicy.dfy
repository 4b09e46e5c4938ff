/**
 * Evaluating a subject against a trait chain, and running an action on it
 * (propolicy.go).
 *
 * The subject's `HasTrait` is a predicate on traits, its `ID` a string, and
 * the policy's condition is given by what it returns: an error and whether
 * to go on.  A missing link (`Valid()` false) ends the walk down that link.
 */
module SoldrPolicy {
  import opened Wrappers
  import opened SoldrTrait
  import GoErrors

  /** A failed policy: the subject's ID and the error. */
  datatype PolicyFault = PolicyFault(subjectID: string, error: GoErrors.Err)

  /** Every trait of a chain: the trait itself and those reachable through its AND and OR links. */
  ghost function Links(t: Trait): set<Trait>
  {
    {t}
      + (if t.andTrait.Some? then Links(t.andTrait.value) else {})
      + (if t.orTrait.Some? then Links(t.orTrait.value) else {})
  }

  /**
   * `assertSubjectTraits`: a trait the subject has sends the walk down its
   * AND link (passing when there is none); a trait it lacks sends the walk
   * down its OR link, failing with the trait's fault text when there is none.
   */
  function AssertSubjectTraits(hasTrait: Trait -> bool, mustHave: Option<Trait>): (e: GoErrors.Err)
    ensures e == [] || |e| == 1
  {
    match mustHave
    case None => []
    case Some(t) =>
      if !hasTrait(t) then
        if Valid(t.orTrait) then AssertSubjectTraits(hasTrait, t.orTrait) else GoErrors.New(FaultString(t))
      else if Valid(t.andTrait) then AssertSubjectTraits(hasTrait, t.andTrait)
      else []
  }

  /** A failure always names a trait of the chain that the subject lacks. */
  lemma {:induction false} FaultNamesMissingTrait(hasTrait: Trait -> bool, t: Trait)
    ensures AssertSubjectTraits(hasTrait, Some(t)) != [] ==>
      exists u :: u in Links(t) && !hasTrait(u) && AssertSubjectTraits(hasTrait, Some(t)) == GoErrors.New(FaultString(u))
  {
    if !hasTrait(t) && t.orTrait.Some? {
      FaultNamesMissingTrait(hasTrait, t.orTrait.value);
    } else if hasTrait(t) && t.andTrait.Some? {
      FaultNamesMissingTrait(hasTrait, t.andTrait.value);
    }
  }

  /** A subject with every trait of the chain passes. */
  lemma {:induction false} AllTraitsPass(hasTrait: Trait -> bool, t: Trait)
    requires forall u :: u in Links(t) ==> hasTrait(u)
    ensures AssertSubjectTraits(hasTrait, Some(t)) == []
  {
    if t.andTrait.Some? {
      AllTraitsPass(hasTrait, t.andTrait.value);
    }
  }

  /**
   * A trait's OR link is consulted only when the subject lacks it, and its
   * AND link only when the subject has it (for a subject that judges a trait
   * by its type and forbidden value, not by its links).
   */
  lemma OtherLinkIgnored(hasTrait: Trait -> bool, t: Trait, link: Option<Trait>)
    requires forall u: Trait, v: Trait :: u.traitType == v.traitType && u.notEqualTo == v.notEqualTo ==> hasTrait(u) == hasTrait(v)
    ensures hasTrait(t) ==> AssertSubjectTraits(hasTrait, Some(t.(orTrait := link))) == AssertSubjectTraits(hasTrait, Some(t))
    ensures !hasTrait(t) ==> AssertSubjectTraits(hasTrait, Some(t.(andTrait := link))) == AssertSubjectTraits(hasTrait, Some(t))
  {
    assert hasTrait(t.(orTrait := link)) == hasTrait(t);
    assert hasTrait(t.(andTrait := link)) == hasTrait(t);
  }

  /**
   * `EvaluateSubject`: a condition error is a fault on the subject; a
   * condition that says not to go on passes; otherwise the subject is
   * checked against the chain, and a failure is a fault on the subject.
   */
  function EvaluateSubject(subjectID: string, condition: (GoErrors.Err, bool), hasTrait: Trait -> bool,
                           traits: Option<Trait>): (r: Option<PolicyFault>)
    ensures condition.0 != [] ==> r == Some(PolicyFault(subjectID, condition.0))
    ensures condition.0 == [] && !condition.1 ==> r == None
    ensures condition.0 == [] && condition.1 ==>
      (r == None <==> AssertSubjectTraits(hasTrait, traits) == []) &&
      (r != None ==> r.value == PolicyFault(subjectID, AssertSubjectTraits(hasTrait, traits)))
  {
    var (err, cont) := condition;
    if err != [] then Some(PolicyFault(subjectID, err))
    else if !cont then None
    else
      var e := AssertSubjectTraits(hasTrait, traits);
      if e != [] then Some(PolicyFault(subjectID, e)) else None
  }

  /** `RunAction`: the same condition gating, then the action's error as a fault on the subject. */
  function RunAction<T>(subjectID: string, condition: (GoErrors.Err, bool), action: T -> GoErrors.Err, msg: T): (r: Option<PolicyFault>)
    ensures condition.0 != [] ==> r == Some(PolicyFault(subjectID, condition.0))
    ensures condition.0 == [] && !condition.1 ==> r == None
    ensures condition.0 == [] && condition.1 ==>
      (r == None <==> action(msg) == []) && (r != None ==> r.value == PolicyFault(subjectID, action(msg)))
  {
    var (err, cont) := condition;
    if err != [] then Some(PolicyFault(subjectID, err))
    else if !cont then None
    else
      var e := action(msg);
      if e != [] then Some(PolicyFault(subjectID, e)) else None
  }

  /** An action policy has no traits: with an action that succeeds, it decides as a traitless policy does. */
  lemma ActionPolicyIsTraitless<T>(subjectID: string, condition: (GoErrors.Err, bool), hasTrait: Trait -> bool,
                                   action: T -> GoErrors.Err, msg: T)
    requires action(msg) == []
    ensures RunAction(subjectID, condition, action, msg) == EvaluateSubject(subjectID, condition, hasTrait, None)
  {
  }
}
