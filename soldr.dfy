/**
 * The earlier iteration of the validator and pipeline (soldr.go).
 *
 * `ValidationResult` keeps an ordered list of `FieldFault`s and an index from
 * path to list position: a second fault on a listed path joins its cause
 * into that entry in place.  Unlike the later iteration, the validator keeps
 * one `ValidationResult` for its whole life, its `Exec` checks the fields
 * before running custom validation, a custom error is returned at once in
 * place of the field faults, and mask paths are compared as given.
 *
 * A declared field's own check (`Field.Validate`) is defined outside
 * soldr.go, so `Exec` takes it as a function parameter.  Callbacks are
 * Dafny functions of the message.
 */
module Soldr {
  import opened Wrappers
  import opened GoValues
  import opened GoStrings
  import GoErrors

  /** The field assertions and conditions soldr.go declares fields with. */
  datatype Assertion = NonZero | NotEqualTo | MustEqual
  datatype Condition = Always | InMask

  /** A declared field: its path (also its `ID`), value, mask membership, assertion, condition and comparison target. */
  datatype Field = Field(path: string, value: Value, inMask: bool, assertion: Assertion, condition: Condition, cmpTo: Value)

  /** One entry of the fault list. */
  datatype FieldFault = FieldFault(path: string, err: GoErrors.Err)

  /** The paths of a fault list, in list order. */
  function PathsOf(l: seq<FieldFault>): (ps: seq<string>)
    ensures |ps| == |l| && forall i :: 0 <= i < |l| ==> ps[i] == l[i].path
  {
    seq(|l|, i requires 0 <= i < |l| => l[i].path)
  }

  /**
   * The list after `addErr(path, err)`: a new path is appended with `err`;
   * a listed path keeps its position and gets `err` joined after its causes.
   */
  function Merge(l: seq<FieldFault>, path: string, err: GoErrors.Err): (r: seq<FieldFault>)
    ensures path !in PathsOf(l) ==> r == l + [FieldFault(path, err)]
    ensures path in PathsOf(l) ==> |r| == |l| && forall i :: 0 <= i < |l| ==>
      r[i] == if i == IndexOf(PathsOf(l), path) then l[i].(err := GoErrors.Join(l[i].err, err)) else l[i]
    ensures path in PathsOf(l) ==> PathsOf(r) == PathsOf(l)
    ensures PathsOf(l) <= PathsOf(r)
  {
    var k := IndexOf(PathsOf(l), path);
    if k < 0 then l + [FieldFault(path, err)]
    else l[k := l[k].(err := GoErrors.Join(l[k].err, err))]
  }

  /** The causes recorded for a path (nil when it has no entry). */
  function CausesAt(l: seq<FieldFault>, p: string): GoErrors.Err
  {
    var k := IndexOf(PathsOf(l), p);
    if k < 0 then [] else l[k].err
  }

  /** Merging a fault adds its causes after those already recorded for its path, and touches no other path. */
  lemma MergeCauses(l: seq<FieldFault>, path: string, err: GoErrors.Err, p: string)
    ensures CausesAt(Merge(l, path, err), p) == CausesAt(l, p) + (if p == path then err else [])
  {
    var r := Merge(l, path, err);
    if path !in PathsOf(l) {
      assert PathsOf(r) == PathsOf(l) + [path];
      IndexOfAppend(PathsOf(l), path, p);
    } else {
      var k := IndexOf(PathsOf(l), p);
      if k >= 0 {
        assert r[k] == if k == IndexOf(PathsOf(l), path) then l[k].(err := GoErrors.Join(l[k].err, err)) else l[k];
      }
    }
  }

  /** What `ToErr` returns: nil for no faults, otherwise one "path: causes" cause per fault, in list order. */
  function FaultsErr(l: seq<FieldFault>): (e: GoErrors.Err)
    ensures |e| == |l|
    ensures forall i :: 0 <= i < |l| ==> |e[i]| >= |l[i].path| + 2 && e[i][..|l[i].path| + 2] == l[i].path + ": "
  {
    if l == [] then []
    else
      var last := l[|l| - 1];
      var before := FaultsErr(l[..|l| - 1]);
      var w := GoErrors.Wrap(last.path + ": ", last.err);
      assert w[0][..|last.path| + 2] == last.path + ": ";
      assert GoErrors.Join(before, w) == before + w;
      assert forall i :: 0 <= i < |before| ==> (before + w)[i] == before[i] && l[i] == l[..|l| - 1][i];
      GoErrors.Join(before, w)
  }

  /** Each cause of `ToErr` is "<path>: " followed by the text of that fault's error. */
  lemma {:induction false} FaultsErrAt(l: seq<FieldFault>, i: int)
    requires 0 <= i < |l|
    ensures FaultsErr(l)[i] == l[i].path + ": " + (if l[i].err == [] then "%!w(<nil>)" else GoErrors.Text(l[i].err))
  {
    var init := l[..|l| - 1];
    if i < |l| - 1 {
      FaultsErrAt(init, i);
      assert FaultsErr(l)[i] == FaultsErr(init)[i];
    }
  }

  /** The fault aggregate. */
  class ValidationResult {
    var fieldFaults: seq<FieldFault>
    var resultIdx: map<string, int>

    /** `resultIdx` maps exactly the listed paths, each to its own position. */
    ghost predicate Valid()
      reads this
    {
      && (forall i :: 0 <= i < |fieldFaults| ==> fieldFaults[i].path in resultIdx && resultIdx[fieldFaults[i].path] == i)
      && (forall p :: p in resultIdx ==> 0 <= resultIdx[p] < |fieldFaults| && fieldFaults[resultIdx[p]].path == p)
    }

    /** `NewValidationResult`. */
    constructor ()
      ensures Valid() && fieldFaults == []
    {
      fieldFaults := [];
      resultIdx := map[];
    }

    /** `Valid` makes the index agree with the path search of `Merge`, and the paths distinct. */
    lemma IndexAgrees(p: string)
      requires Valid()
      ensures forall i, j :: 0 <= i < j < |fieldFaults| ==> fieldFaults[i].path != fieldFaults[j].path
      ensures p in resultIdx <==> p in PathsOf(fieldFaults)
      ensures p in resultIdx ==> resultIdx[p] == IndexOf(PathsOf(fieldFaults), p)
    {
      var ps := PathsOf(fieldFaults);
      if p in ps {
        var k := IndexOf(ps, p);
        assert fieldFaults[k].path == p;
      }
    }

    /** `addErr`: append a new path, or join the cause into the entry of a listed one. */
    method AddErr(path: string, err: GoErrors.Err)
      requires Valid()
      modifies this
      ensures Valid()
      ensures fieldFaults == Merge(old(fieldFaults), path, err)
    {
      IndexAgrees(path);
      if path in resultIdx {
        var k := resultIdx[path];
        fieldFaults := fieldFaults[k := fieldFaults[k].(err := GoErrors.Join(fieldFaults[k].err, err))];
      } else {
        fieldFaults := fieldFaults + [FieldFault(path, err)];
        resultIdx := resultIdx[path := |fieldFaults| - 1];
      }
    }

    /** `AppendFieldFault`. */
    method AppendFieldFault(path: string, err: GoErrors.Err)
      requires Valid()
      modifies this
      ensures Valid()
      ensures fieldFaults == Merge(old(fieldFaults), path, err)
    {
      AddErr(path, err);
    }

    /** `AppendFieldFaultErrStr`: the fault is a new error with the given text. */
    method AppendFieldFaultErrStr(path: string, details: string)
      requires Valid()
      modifies this
      ensures Valid()
      ensures fieldFaults == Merge(old(fieldFaults), path, GoErrors.New(details))
    {
      AddErr(path, GoErrors.New(details));
    }

    /** `ToErr`. */
    method ToErr() returns (e: GoErrors.Err)
      ensures e == FaultsErr(fieldFaults)
    {
      if |fieldFaults| == 0 {
        return [];
      }
      e := [];
      for i := 0 to |fieldFaults|
        invariant e == FaultsErr(fieldFaults[..i])
      {
        assert fieldFaults[..i + 1][..i] == fieldFaults[..i];
        var fault := fieldFaults[i];
        e := GoErrors.Join(e, GoErrors.Wrap(fault.path + ": ", fault.err));
      }
      assert fieldFaults[..|fieldFaults|] == fieldFaults;
    }
  }

  /** `Failed`: a non-nil aggregate holding at least one fault. */
  predicate Failed(v: ValidationResult?)
    reads v
  {
    v != null && |v.fieldFaults| > 0
  }

  /** `ToErr` is nil exactly when the aggregate has not failed. */
  lemma FailedIffErr(v: ValidationResult)
    ensures Failed(v) <==> FaultsErr(v.fieldFaults) != []
  {
  }

  /** `getPathsFromMask`: nil for no entries, otherwise the entries as given. */
  function MaskSet(fieldMask: seq<string>): (paths: Option<set<string>>)
    ensures paths == None <==> fieldMask == []
    ensures paths.Some? ==> forall p :: p in paths.value <==> p in fieldMask
  {
    if fieldMask == [] then None else Some(set p | p in fieldMask)
  }

  method GetPathsFromMask(fieldMask: seq<string>) returns (paths: Option<set<string>>)
    ensures paths == MaskSet(fieldMask)
  {
    if |fieldMask| == 0 {
      return None;
    }
    var s: set<string> := {};
    for i := 0 to |fieldMask|
      invariant s == set p | p in fieldMask[..i]
    {
      assert fieldMask[..i + 1] == fieldMask[..i] + [fieldMask[i]];
      s := s + {fieldMask[i]};
    }
    assert fieldMask[..|fieldMask|] == fieldMask;
    paths := Some(s);
  }

  /** `isFieldInMask`: never in a nil mask, otherwise membership of the path exactly as written. */
  function IsFieldInMask(paths: Option<set<string>>, path: string): (b: bool)
    ensures b <==> paths.Some? && path in paths.value
  {
    match paths
    case None => false
    case Some(s) => path in s
  }

  /** One call a custom validation function makes on the aggregate it is handed. */
  datatype FaultAdd = AddFault(path: string, err: GoErrors.Err) | AddFaultText(path: string, details: string)

  /** One run of a custom validation function: its calls, in order, and the error it returns. */
  datatype CustomOutcome = CustomOutcome(adds: seq<FaultAdd>, returned: GoErrors.Err)

  const CustomErrorPrefix := "an error occurred during custom message validation: "

  function AddedErr(a: FaultAdd): (e: GoErrors.Err)
    ensures a.AddFaultText? ==> e != []
  {
    match a
    case AddFault(_, err) => err
    case AddFaultText(_, details) => GoErrors.New(details)
  }

  /** The list after a custom validation function's calls. */
  function ApplyAdds(l: seq<FieldFault>, adds: seq<FaultAdd>): seq<FieldFault>
  {
    if adds == [] then l
    else Merge(ApplyAdds(l, adds[..|adds| - 1]), adds[|adds| - 1].path, AddedErr(adds[|adds| - 1]))
  }

  /** The list after checking the fields in declaration order, merging each failure under the field's path. */
  function CheckFields(l: seq<FieldFault>, fields: seq<Field>, check: Field -> GoErrors.Err): seq<FieldFault>
  {
    if fields == [] then l
    else
      var f := fields[|fields| - 1];
      var before := CheckFields(l, fields[..|fields| - 1], check);
      if check(f) == [] then before else Merge(before, f.path, check(f))
  }

  /** The causes the failing fields at path `p` contribute, in declaration order. */
  function FieldCauses(fields: seq<Field>, check: Field -> GoErrors.Err, p: string): GoErrors.Err
  {
    if fields == [] then []
    else
      var f := fields[|fields| - 1];
      FieldCauses(fields[..|fields| - 1], check, p) + (if f.path == p then check(f) else [])
  }

  /** The causes a custom function's calls add at path `p`, in call order. */
  function AddedCauses(adds: seq<FaultAdd>, p: string): GoErrors.Err
  {
    if adds == [] then []
    else
      var a := adds[|adds| - 1];
      AddedCauses(adds[..|adds| - 1], p) + (if a.path == p then AddedErr(a) else [])
  }

  lemma {:induction false} CheckFieldsCauses(l: seq<FieldFault>, fields: seq<Field>, check: Field -> GoErrors.Err, p: string)
    ensures CausesAt(CheckFields(l, fields, check), p) == CausesAt(l, p) + FieldCauses(fields, check, p)
  {
    if fields != [] {
      var f := fields[|fields| - 1];
      CheckFieldsCauses(l, fields[..|fields| - 1], check, p);
      if check(f) != [] {
        MergeCauses(CheckFields(l, fields[..|fields| - 1], check), f.path, check(f), p);
      }
    }
  }

  lemma {:induction false} ApplyAddsCauses(l: seq<FieldFault>, adds: seq<FaultAdd>, p: string)
    ensures CausesAt(ApplyAdds(l, adds), p) == CausesAt(l, p) + AddedCauses(adds, p)
  {
    if adds != [] {
      var a := adds[|adds| - 1];
      ApplyAddsCauses(l, adds[..|adds| - 1], p);
      MergeCauses(ApplyAdds(l, adds[..|adds| - 1]), a.path, AddedErr(a), p);
    }
  }

  lemma {:induction false} CheckFieldsExtends(l: seq<FieldFault>, fields: seq<Field>, check: Field -> GoErrors.Err)
    ensures PathsOf(l) <= PathsOf(CheckFields(l, fields, check))
  {
    if fields != [] {
      CheckFieldsExtends(l, fields[..|fields| - 1], check);
    }
  }

  lemma {:induction false} ApplyAddsExtends(l: seq<FieldFault>, adds: seq<FaultAdd>)
    ensures PathsOf(l) <= PathsOf(ApplyAdds(l, adds))
  {
    if adds != [] {
      ApplyAddsExtends(l, adds[..|adds| - 1]);
    }
  }

  /** The list after one `Exec`: the field checks, then the custom function's calls, on the kept list. */
  function ExecFaults<T>(l: seq<FieldFault>, custom: Option<T -> CustomOutcome>, fields: seq<Field>,
                         check: Field -> GoErrors.Err, message: T): seq<FieldFault>
  {
    var checked := CheckFields(l, fields, check);
    match custom
    case None => checked
    case Some(fn) => ApplyAdds(checked, fn(message).adds)
  }

  /** What one `Exec` returns: the wrapped custom error if there is one, otherwise the aggregate's error. */
  function ExecErr<T>(l: seq<FieldFault>, custom: Option<T -> CustomOutcome>, fields: seq<Field>,
                      check: Field -> GoErrors.Err, message: T): GoErrors.Err
  {
    if custom.Some? && custom.value(message).returned != [] then
      GoErrors.Wrap(CustomErrorPrefix, custom.value(message).returned)
    else FaultsErr(ExecFaults(l, custom, fields, check, message))
  }

  /**
   * The result is kept across calls: a run never drops a listed path, so
   * once failed the aggregate stays failed, and each run's causes for a path
   * come after the earlier runs' causes: first the field failures, then the
   * custom function's additions.
   */
  lemma ExecKeepsResult<T>(l: seq<FieldFault>, custom: Option<T -> CustomOutcome>, fields: seq<Field>,
                           check: Field -> GoErrors.Err, message: T, p: string)
    ensures PathsOf(l) <= PathsOf(ExecFaults(l, custom, fields, check, message))
    ensures CausesAt(ExecFaults(l, custom, fields, check, message), p)
         == CausesAt(l, p) + FieldCauses(fields, check, p) + (if custom.Some? then AddedCauses(custom.value(message).adds, p) else [])
  {
    var checked := CheckFields(l, fields, check);
    CheckFieldsExtends(l, fields, check);
    CheckFieldsCauses(l, fields, check, p);
    if custom.Some? {
      ApplyAddsExtends(checked, custom.value(message).adds);
      ApplyAddsCauses(checked, custom.value(message).adds, p);
    }
  }

  /** Running the same field checks twice on a fresh validator records every failure twice. */
  lemma RunTwiceDoublesCauses(fields: seq<Field>, check: Field -> GoErrors.Err, p: string)
    ensures CausesAt(CheckFields(CheckFields([], fields, check), fields, check), p)
         == FieldCauses(fields, check, p) + FieldCauses(fields, check, p)
  {
    var once := CheckFields([], fields, check);
    CheckFieldsCauses([], fields, check, p);
    assert CausesAt([], p) == [];
    CheckFieldsCauses(once, fields, check, p);
  }

  /** A custom error is returned in place of any field faults; otherwise the error is nil exactly when nothing is recorded. */
  lemma ExecErrCases<T>(l: seq<FieldFault>, custom: Option<T -> CustomOutcome>, fields: seq<Field>,
                        check: Field -> GoErrors.Err, message: T)
    ensures custom.Some? && custom.value(message).returned != [] ==>
      ExecErr(l, custom, fields, check, message) == GoErrors.Wrap(CustomErrorPrefix, custom.value(message).returned)
    ensures !(custom.Some? && custom.value(message).returned != []) ==>
      (ExecErr(l, custom, fields, check, message) == [] <==> ExecFaults(l, custom, fields, check, message) == [])
  {
  }

  /** The validator.  Its aggregate is created once and kept. */
  class DefaultMessageValidator<T> {
    var customValidation: Option<T -> CustomOutcome>
    var result: ValidationResult
    var paths: Option<set<string>>
    var fields: seq<Field>

    ghost predicate Valid()
      reads this, result
    {
      result.Valid()
    }

    /** `ForMessage`: an empty aggregate, no declarations and the mask set of the given entries. */
    constructor ForMessage(fieldMask: seq<string>)
      ensures Valid() && fresh(result)
      ensures result.fieldFaults == [] && fields == [] && customValidation == None
      ensures paths == MaskSet(fieldMask)
    {
      var p := GetPathsFromMask(fieldMask);
      paths := p;
      result := new ValidationResult();
      fields := [];
      customValidation := None;
    }

    /** Appends one field declaration whose mask membership is looked up now. */
    method Declare(path: string, value: Value, assertion: Assertion, condition: Condition, cmpTo: Value)
      returns (self: DefaultMessageValidator<T>)
      modifies this
      ensures self == this
      ensures fields == old(fields) + [Field(path, value, IsFieldInMask(paths, path), assertion, condition, cmpTo)]
      ensures paths == old(paths) && result == old(result) && customValidation == old(customValidation)
    {
      fields := fields + [Field(path, value, IsFieldInMask(paths, path), assertion, condition, cmpTo)];
      self := this;
    }

    /** `AssertNonZero`. */
    method AssertNonZero(path: string, value: Value) returns (self: DefaultMessageValidator<T>)
      modifies this
      ensures self == this
      ensures fields == old(fields) + [Field(path, value, IsFieldInMask(paths, path), NonZero, Always, Nil)]
      ensures paths == old(paths) && result == old(result) && customValidation == old(customValidation)
    {
      self := Declare(path, value, NonZero, Always, Nil);
    }

    /** `AssertNotEqualTo`. */
    method AssertNotEqualTo(path: string, value: Value, notEqualTo: Value) returns (self: DefaultMessageValidator<T>)
      modifies this
      ensures self == this
      ensures fields == old(fields) + [Field(path, value, IsFieldInMask(paths, path), NotEqualTo, Always, notEqualTo)]
      ensures paths == old(paths) && result == old(result) && customValidation == old(customValidation)
    {
      self := Declare(path, value, NotEqualTo, Always, notEqualTo);
    }

    /** `AssertEqualTo`. */
    method AssertEqualTo(path: string, value: Value, equalTo: Value) returns (self: DefaultMessageValidator<T>)
      modifies this
      ensures self == this
      ensures fields == old(fields) + [Field(path, value, IsFieldInMask(paths, path), MustEqual, Always, equalTo)]
      ensures paths == old(paths) && result == old(result) && customValidation == old(customValidation)
    {
      self := Declare(path, value, MustEqual, Always, equalTo);
    }

    /** `AssertNonZeroWhenInMask`. */
    method AssertNonZeroWhenInMask(path: string, value: Value) returns (self: DefaultMessageValidator<T>)
      modifies this
      ensures self == this
      ensures fields == old(fields) + [Field(path, value, IsFieldInMask(paths, path), NonZero, InMask, Nil)]
      ensures paths == old(paths) && result == old(result) && customValidation == old(customValidation)
    {
      self := Declare(path, value, NonZero, InMask, Nil);
    }

    /** `AssertNotEqualToWhenInMask`. */
    method AssertNotEqualToWhenInMask(path: string, value: Value, notEqualTo: Value) returns (self: DefaultMessageValidator<T>)
      modifies this
      ensures self == this
      ensures fields == old(fields) + [Field(path, value, IsFieldInMask(paths, path), NotEqualTo, InMask, notEqualTo)]
      ensures paths == old(paths) && result == old(result) && customValidation == old(customValidation)
    {
      self := Declare(path, value, NotEqualTo, InMask, notEqualTo);
    }

    /** `AssertEqualToWhenInMask`. */
    method AssertEqualToWhenInMask(path: string, value: Value, equalTo: Value) returns (self: DefaultMessageValidator<T>)
      modifies this
      ensures self == this
      ensures fields == old(fields) + [Field(path, value, IsFieldInMask(paths, path), MustEqual, InMask, equalTo)]
      ensures paths == old(paths) && result == old(result) && customValidation == old(customValidation)
    {
      self := Declare(path, value, MustEqual, InMask, equalTo);
    }

    /** `CustomValidation`: replaces any custom function set before. */
    method CustomValidation(act: T -> CustomOutcome) returns (self: DefaultMessageValidator<T>)
      modifies this
      ensures self == this && customValidation == Some(act)
      ensures fields == old(fields) && paths == old(paths) && result == old(result)
    {
      customValidation := Some(act);
      self := this;
    }

    /** The list the next `Exec` leaves in the aggregate. */
    ghost function NextFaults(message: T, check: Field -> GoErrors.Err): seq<FieldFault>
      reads this, result
    {
      ExecFaults(result.fieldFaults, customValidation, fields, check, message)
    }

    /** The error the next `Exec` returns. */
    ghost function NextErr(message: T, check: Field -> GoErrors.Err): GoErrors.Err
      reads this, result
    {
      ExecErr(result.fieldFaults, customValidation, fields, check, message)
    }

    /** The field checks of `Exec`, merged into the kept aggregate. */
    static method CheckInto(v: ValidationResult, fields: seq<Field>, check: Field -> GoErrors.Err)
      requires v.Valid()
      modifies v
      ensures v.Valid()
      ensures v.fieldFaults == CheckFields(old(v.fieldFaults), fields, check)
    {
      for i := 0 to |fields|
        invariant v.Valid()
        invariant v.fieldFaults == CheckFields(old(v.fieldFaults), fields[..i], check)
      {
        assert fields[..i + 1][..i] == fields[..i];
        var err := check(fields[i]);
        if err != [] {
          v.AppendFieldFault(fields[i].path, err);
        }
      }
      assert fields[..|fields|] == fields;
    }

    /** The calls a custom validation run makes on the aggregate it is handed. */
    static method ApplyInto(v: ValidationResult, adds: seq<FaultAdd>)
      requires v.Valid()
      modifies v
      ensures v.Valid()
      ensures v.fieldFaults == ApplyAdds(old(v.fieldFaults), adds)
    {
      for i := 0 to |adds|
        invariant v.Valid()
        invariant v.fieldFaults == ApplyAdds(old(v.fieldFaults), adds[..i])
      {
        assert adds[..i + 1][..i] == adds[..i];
        match adds[i]
        case AddFault(path, err) => v.AppendFieldFault(path, err);
        case AddFaultText(path, details) => v.AppendFieldFaultErrStr(path, details);
      }
      assert adds[..|adds|] == adds;
    }

    /** `Exec`: fields first, then custom validation, both into the kept aggregate. */
    method Exec(message: T, check: Field -> GoErrors.Err) returns (err: GoErrors.Err)
      requires Valid()
      modifies result
      ensures Valid()
      ensures result.fieldFaults == old(NextFaults(message, check))
      ensures err == old(NextErr(message, check))
    {
      CheckInto(result, fields, check);
      if customValidation.Some? {
        var outcome := customValidation.value(message);
        ApplyInto(result, outcome.adds);
        if outcome.returned != [] {
          return GoErrors.Wrap(CustomErrorPrefix, outcome.returned);
        }
      }
      if Failed(result) {
        err := result.ToErr();
      } else {
        err := [];
      }
    }
  }

  /** The stages of the pipeline. */
  datatype Stage = AuthStage | ValidateStage | HandleStage

  /** The pipeline.  A stage left unset is skipped as if it passed. */
  class Arrangement<T, U> {
    var auth: Option<T -> GoErrors.Err>
    var validate: DefaultMessageValidator?<T>
    var handle: Option<T -> (Option<U>, GoErrors.Err)>

    /** `Arrange`: no stage set. */
    constructor Arrange()
      ensures auth == None && validate == null && handle == None
    {
      auth := None;
      validate := null;
      handle := None;
    }

    /** `WithAuth`. */
    method WithAuth(act: T -> GoErrors.Err) returns (self: Arrangement<T, U>)
      modifies this
      ensures self == this && auth == Some(act)
      ensures validate == old(validate) && handle == old(handle)
    {
      auth := Some(act);
      self := this;
    }

    /** `WithValidate`. */
    method WithValidate(fv: DefaultMessageValidator?<T>) returns (self: Arrangement<T, U>)
      modifies this
      ensures self == this && validate == fv
      ensures auth == old(auth) && handle == old(handle)
    {
      validate := fv;
      self := this;
    }

    /** `WithHandle`. */
    method WithHandle(act: T -> (Option<U>, GoErrors.Err)) returns (self: Arrangement<T, U>)
      modifies this
      ensures self == this && handle == Some(act)
      ensures auth == old(auth) && validate == old(validate)
    {
      handle := Some(act);
      self := this;
    }

    /**
     * `Exec`: the auth error, else the validation error, else what Handle
     * returns; no stage runs after one that failed, and only a validation
     * run that happened changes the validator's aggregate.
     */
    method Exec(message: T, check: Field -> GoErrors.Err) returns (res: Option<U>, err: GoErrors.Err, ghost ran: seq<Stage>)
      requires validate != null ==> validate.Valid()
      modifies if validate != null then {validate.result} else {}
      ensures validate != null ==> validate.Valid()
      ensures auth.Some? && auth.value(message) != [] ==>
        res == None && err == auth.value(message) && ran == [AuthStage] &&
        (validate != null ==> unchanged(validate.result))
      ensures !(auth.Some? && auth.value(message) != []) && validate != null ==>
        validate.result.fieldFaults == old(validate.NextFaults(message, check))
      ensures !(auth.Some? && auth.value(message) != []) && validate != null && old(validate.NextErr(message, check)) != [] ==>
        res == None && err == old(validate.NextErr(message, check)) &&
        ran == (if auth.Some? then [AuthStage] else []) + [ValidateStage]
      ensures !(auth.Some? && auth.value(message) != []) && (validate == null || old(validate.NextErr(message, check)) == []) ==>
        ran == (if auth.Some? then [AuthStage] else []) + (if validate != null then [ValidateStage] else [])
               + (if handle.Some? then [HandleStage] else []) &&
        (res, err) == (if handle.Some? then handle.value(message) else (None, []))
    {
      ran := [];
      if auth.Some? {
        ran := ran + [AuthStage];
        var e := auth.value(message);
        if e != [] {
          return None, e, ran;
        }
      }
      if validate != null {
        ran := ran + [ValidateStage];
        var e := validate.Exec(message, check);
        if e != [] {
          return None, e, ran;
        }
      }
      if handle.Some? {
        ran := ran + [HandleStage];
        var out := handle.value(message);
        return out.0, out.1, ran;
      }
      return None, [], ran;
    }
  }
}
