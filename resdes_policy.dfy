/**
 * The policy a declared field is checked against and the condition under
 * which the check applies (policy.go).  Both are `uint32` in the source, so
 * values beyond the named constants exist and are modelled.
 */
module ResdesPolicy {

  newtype Policy = x: int | 0 <= x < 0x1_0000_0000

  const NonZero: Policy := 0
  const NotEqualTo: Policy := 1
  const MustEqual: Policy := 2
  const Custom: Policy := 3

  /** `Policy.String`: the four named policies have their own names, every other value is unknown. */
  function PolicyName(p: Policy): (s: string)
    ensures p > Custom <==> s == "unknown policy"
    ensures p == NonZero ==> s == "non-zero"
    ensures p == NotEqualTo ==> s == "must not equal"
    ensures p == MustEqual ==> s == "must equal"
    ensures p == Custom ==> s == "custom evaluation"
  {
    if p == NonZero then "non-zero"
    else if p == MustEqual then "must equal"
    else if p == NotEqualTo then "must not equal"
    else if p == Custom then "custom evaluation"
    else "unknown policy"
  }

  /** The name of a named policy identifies it. */
  lemma PolicyNamesDistinct(p: Policy, q: Policy)
    requires p <= Custom && q <= Custom
    requires PolicyName(p) == PolicyName(q)
    ensures p == q
  {
    assert "non-zero"[0] != "must equal"[0];
    assert "non-zero"[0] != "must not equal"[0];
    assert "non-zero"[0] != "custom evaluation"[0];
    assert |"must equal"| != |"must not equal"|;
    assert "must equal"[0] != "custom evaluation"[0];
    assert "must not equal"[0] != "custom evaluation"[0];
  }

  newtype Condition = x: int | 0 <= x < 0x1_0000_0000

  const Always: Condition := 0
  const InMask: Condition := 1
}
