/**
 * The message validator and the staged request pipeline (resdes.go).
 *
 * A `DefaultMessageValidator` collects field declarations in order and at
 * most one custom validation function; `Exec` runs the custom function
 * first, then every declared field in declaration order, into a fresh fault
 * aggregate, and returns nil exactly when nothing was recorded.  An
 * `Arrangement` runs Auth, then Validate, then Serve, stopping at the first
 * stage that fails and reporting it in that stage's slot of the envelope.
 *
 * Callbacks are Dafny functions of the message: what a custom validation
 * function does to the aggregate is given by the `CustomOutcome` it
 * produces, an auth function by the error it returns, a serve function by
 * its result and error.
 */
module Resdes {
  import opened Wrappers
  import opened GoValues
  import opened ResdesPolicy
  import opened ResdesField
  import opened ResdesErrors
  import ResdesMask
  import GoErrors
  import opened GoStrings

  /** One `AddFieldErr` call made by a custom validation function. */
  datatype FieldAdd = FieldAdd(path: string, err: GoErrors.Err, options: seq<ErrOption>)

  /** What a custom validation function returns: nil, the aggregate it was handed, or another error. */
  datatype CustomReturn = ReturnsNil | ReturnsCollector | ReturnsError(err: GoErrors.Err)

  /**
   * One run of a custom validation function: the faults it adds, in order;
   * the argument of its last `SetCustomValidationErr` call on the aggregate,
   * if it makes one; and what it returns.
   */
  datatype CustomOutcome = CustomOutcome(adds: seq<FieldAdd>, setCustom: Option<GoErrors.Err>, returned: CustomReturn)

  const CustomErrorPrefix := "an error occurred during custom message validation: "

  /** The contents of the aggregate after a run of `Exec`. */
  datatype Report = Report(fieldErrors: seq<FieldError>, customError: GoErrors.Err)

  /** The entry an `AddFieldErr` call records. */
  function AddedError(a: FieldAdd): (fe: FieldError)
    ensures fe.path == a.path && fe.policy == Custom && fe.err == a.err
  {
    ApplyOptions(FieldError(a.path, Custom, Nil, Nil, a.err), a.options)
  }

  /** The list after the custom function's `AddFieldErr` calls. */
  function AddAll(l: seq<FieldError>, adds: seq<FieldAdd>): seq<FieldError>
  {
    if adds == [] then l
    else Record(AddAll(l, adds[..|adds| - 1]), AddedError(adds[|adds| - 1]))
  }

  /** The list after checking the fields in declaration order, recording each failure. */
  function CheckAll(l: seq<FieldError>, fields: seq<Field>): seq<FieldError>
  {
    if fields == [] then l
    else
      var before := CheckAll(l, fields[..|fields| - 1]);
      var f := fields[|fields| - 1];
      match Validate(f)
      case None => before
      case Some(failure) => Record(before, FieldErrorFromField(f, FailureErr(failure)))
  }

  /**
   * The message-level error after the custom function: a returned error
   * other than nil and the aggregate itself replaces, wrapped, whatever the
   * function set on the aggregate; otherwise what it set stays.
   */
  function CustomError(o: CustomOutcome): (e: GoErrors.Err)
    ensures o.returned.ReturnsError? && o.returned.err != [] ==>
      e == [CustomErrorPrefix + GoErrors.Text(o.returned.err)]
    ensures !(o.returned.ReturnsError? && o.returned.err != []) ==>
      e == if o.setCustom.Some? then o.setCustom.value else []
    ensures e != [] <==> (o.returned.ReturnsError? && o.returned.err != []) || (o.setCustom.Some? && o.setCustom.value != [])
  {
    var kept := if o.setCustom.Some? then o.setCustom.value else [];
    match o.returned
    case ReturnsError(err) => if err == [] then kept else GoErrors.Wrap(CustomErrorPrefix, err)
    case _ => kept
  }

  /** What one run of `Exec` records: custom validation first, then the fields. */
  function ExecReport<T>(custom: Option<T -> CustomOutcome>, fields: seq<Field>, message: T): Report
  {
    match custom
    case None => Report(CheckAll([], fields), [])
    case Some(fn) =>
      var o := fn(message);
      Report(CheckAll(AddAll([], o.adds), fields), CustomError(o))
  }

  /** The causes the custom function adds for path `p`, in call order. */
  function CustomCauses(adds: seq<FieldAdd>, p: string): GoErrors.Err
  {
    if adds == [] then []
    else CustomCauses(adds[..|adds| - 1], p) + (if adds[|adds| - 1].path == p then adds[|adds| - 1].err else [])
  }

  /** The failures of the fields declared at path `p`, in declaration order. */
  function FieldCauses(fields: seq<Field>, p: string): GoErrors.Err
  {
    if fields == [] then []
    else
      var f := fields[|fields| - 1];
      FieldCauses(fields[..|fields| - 1], p)
        + (if f.path == p && Validate(f).Some? then FailureErr(Validate(f).value) else [])
  }

  lemma {:induction false} AddAllCauses(l: seq<FieldError>, adds: seq<FieldAdd>, p: string)
    ensures CausesAt(AddAll(l, adds), p) == CausesAt(l, p) + CustomCauses(adds, p)
  {
    if adds != [] {
      var init, last := adds[..|adds| - 1], adds[|adds| - 1];
      AddAllCauses(l, init, p);
      RecordCauses(AddAll(l, init), AddedError(last), p);
      assert CustomCauses(adds, p) == CustomCauses(init, p) + (if last.path == p then last.err else []);
    }
  }

  lemma {:induction false} CheckAllCauses(l: seq<FieldError>, fields: seq<Field>, p: string)
    ensures CausesAt(CheckAll(l, fields), p) == CausesAt(l, p) + FieldCauses(fields, p)
  {
    if fields != [] {
      var f := fields[|fields| - 1];
      CheckAllCauses(l, fields[..|fields| - 1], p);
      if Validate(f).Some? {
        RecordCauses(CheckAll(l, fields[..|fields| - 1]), FieldErrorFromField(f, FailureErr(Validate(f).value)), p);
      }
    }
  }

  /**
   * Every cause recorded for a path: first those the custom function added,
   * then one per failing field declared at that path, in declaration order;
   * faults on the same path are merged into one entry, never lost.
   */
  lemma ExecCauses<T>(custom: Option<T -> CustomOutcome>, fields: seq<Field>, message: T, p: string)
    ensures CausesAt(ExecReport(custom, fields, message).fieldErrors, p)
         == (if custom.Some? then CustomCauses(custom.value(message).adds, p) else []) + FieldCauses(fields, p)
  {
    assert CausesAt([], p) == [];
    if custom.Some? {
      var adds := custom.value(message).adds;
      var start := AddAll([], adds);
      AddAllCauses([], adds, p);
      assert CausesAt(start, p) == CustomCauses(adds, p);
      CheckAllCauses(start, fields, p);
      assert ExecReport(custom, fields, message).fieldErrors == CheckAll(start, fields);
    } else {
      CheckAllCauses([], fields, p);
      assert ExecReport(custom, fields, message).fieldErrors == CheckAll([], fields);
    }
  }

  /** Checking more fields only ever appends paths. */
  lemma {:induction false} CheckAllExtends(l: seq<FieldError>, fields: seq<Field>)
    ensures PathsOf(l) <= PathsOf(CheckAll(l, fields))
  {
    if fields != [] {
      CheckAllExtends(l, fields[..|fields| - 1]);
    }
  }

  /** Some field declared at `p` fails. */
  predicate SomeFieldFails(fields: seq<Field>, p: string)
  {
    exists i :: 0 <= i < |fields| && fields[i].path == p && Validate(fields[i]).Some?
  }

  lemma SomeFieldFailsSnoc(fields: seq<Field>, p: string)
    requires fields != []
    ensures SomeFieldFails(fields, p) <==>
      SomeFieldFails(fields[..|fields| - 1], p) || (fields[|fields| - 1].path == p && Validate(fields[|fields| - 1]).Some?)
  {
    var init := fields[..|fields| - 1];
    if SomeFieldFails(init, p) {
      var i :| 0 <= i < |init| && init[i].path == p && Validate(init[i]).Some?;
      assert fields[i] == init[i];
    }
    if SomeFieldFails(fields, p) {
      var i :| 0 <= i < |fields| && fields[i].path == p && Validate(fields[i]).Some?;
      if i < |init| {
        assert init[i] == fields[i];
      }
    }
  }

  /** A path is listed after the checks exactly when it was listed before or some field declared at it fails. */
  lemma {:induction false} CheckAllMembership(l: seq<FieldError>, fields: seq<Field>, p: string)
    ensures p in PathsOf(CheckAll(l, fields)) <==> p in PathsOf(l) || SomeFieldFails(fields, p)
  {
    if fields != [] {
      CheckAllMembership(l, fields[..|fields| - 1], p);
      SomeFieldFailsSnoc(fields, p);
    }
  }

  /** Checking a list of fields in two parts is checking it in one. */
  lemma {:induction false} CheckAllSplit(l: seq<FieldError>, a: seq<Field>, b: seq<Field>)
    ensures CheckAll(l, a + b) == CheckAll(CheckAll(l, a), b)
  {
    if b == [] {
      assert a + b == a;
    } else {
      assert (a + b)[..|a + b| - 1] == a + b[..|b| - 1];
      CheckAllSplit(l, a, b[..|b| - 1]);
    }
  }

  /**
   * Faults appear in first-failure order: when field `i` fails and field `j`
   * (later) fails on a path that neither the list nor any failing field up to
   * `i` had, field `i`'s path is listed before field `j`'s.
   */
  lemma FirstFailureOrder(l: seq<FieldError>, fields: seq<Field>, i: nat, j: nat)
    requires i < j < |fields|
    requires Validate(fields[i]).Some? && Validate(fields[j]).Some?
    requires fields[j].path !in PathsOf(l) && !SomeFieldFails(fields[..i + 1], fields[j].path)
    ensures fields[i].path in PathsOf(CheckAll(l, fields)) && fields[j].path in PathsOf(CheckAll(l, fields))
    ensures IndexOf(PathsOf(CheckAll(l, fields)), fields[i].path) < IndexOf(PathsOf(CheckAll(l, fields)), fields[j].path)
  {
    var a, b := fields[..i + 1], fields[i + 1..];
    assert a + b == fields;
    var p, q := fields[i].path, fields[j].path;
    var mid := CheckAll(l, a);
    var all := CheckAll(l, fields);
    CheckAllSplit(l, a, b);
    CheckAllExtends(mid, b);
    CheckAllMembership(l, a, p);
    assert a[i] == fields[i];
    assert SomeFieldFails(a, p);
    CheckAllMembership(l, a, q);
    CheckAllMembership(l, fields, q);
    assert SomeFieldFails(fields, q);
    IndexOfExtensionOrder(PathsOf(mid), PathsOf(all), p, q);
  }

  /** The validator.  Declarations are only ever appended; `Exec` leaves it unchanged. */
  class DefaultMessageValidator<T> {
    var customValidation: Option<T -> CustomOutcome>
    var paths: Option<set<string>>
    var fields: seq<Field>

    /** `ForMessage`: no declarations yet, and the mask set of the given entries. */
    constructor ForMessage(fieldMask: seq<string>)
      ensures customValidation == None && fields == []
      ensures paths == ResdesMask.MaskPaths(fieldMask)
    {
      var p := ResdesMask.GetPathsFromMask(fieldMask);
      customValidation := None;
      paths := p;
      fields := [];
    }

    /** Appends one field declaration built against this validator's mask set. */
    method Declare(path: string, value: Value, policy: Policy, condition: Condition, cmpTo: Value)
      returns (self: DefaultMessageValidator<T>)
      modifies this
      ensures self == this
      ensures fields == old(fields) + [NewField(path, value, policy, condition, cmpTo, paths)]
      ensures paths == old(paths) && customValidation == old(customValidation)
    {
      fields := fields + [NewField(path, value, policy, condition, cmpTo, paths)];
      self := this;
    }

    /** `AssertNonZero`. */
    method AssertNonZero(path: string, value: Value) returns (self: DefaultMessageValidator<T>)
      modifies this
      ensures self == this
      ensures fields == old(fields) + [NewField(path, value, NonZero, Always, Nil, paths)]
      ensures paths == old(paths) && customValidation == old(customValidation)
    {
      self := Declare(path, value, NonZero, Always, Nil);
    }

    /** `AssertNotEqualTo`. */
    method AssertNotEqualTo(path: string, value: Value, notEqualTo: Value) returns (self: DefaultMessageValidator<T>)
      modifies this
      ensures self == this
      ensures fields == old(fields) + [NewField(path, value, NotEqualTo, Always, notEqualTo, paths)]
      ensures paths == old(paths) && customValidation == old(customValidation)
    {
      self := Declare(path, value, NotEqualTo, Always, notEqualTo);
    }

    /** `AssertEqualTo`. */
    method AssertEqualTo(path: string, value: Value, equalTo: Value) returns (self: DefaultMessageValidator<T>)
      modifies this
      ensures self == this
      ensures fields == old(fields) + [NewField(path, value, MustEqual, Always, equalTo, paths)]
      ensures paths == old(paths) && customValidation == old(customValidation)
    {
      self := Declare(path, value, MustEqual, Always, equalTo);
    }

    /** `AssertNonZeroWhenInMask`. */
    method AssertNonZeroWhenInMask(path: string, value: Value) returns (self: DefaultMessageValidator<T>)
      modifies this
      ensures self == this
      ensures fields == old(fields) + [NewField(path, value, NonZero, InMask, Nil, paths)]
      ensures paths == old(paths) && customValidation == old(customValidation)
    {
      self := Declare(path, value, NonZero, InMask, Nil);
    }

    /** `AssertNotEqualToWhenInMask`. */
    method AssertNotEqualToWhenInMask(path: string, value: Value, notEqualTo: Value) returns (self: DefaultMessageValidator<T>)
      modifies this
      ensures self == this
      ensures fields == old(fields) + [NewField(path, value, NotEqualTo, InMask, notEqualTo, paths)]
      ensures paths == old(paths) && customValidation == old(customValidation)
    {
      self := Declare(path, value, NotEqualTo, InMask, notEqualTo);
    }

    /** `AssertEqualToWhenInMask`. */
    method AssertEqualToWhenInMask(path: string, value: Value, equalTo: Value) returns (self: DefaultMessageValidator<T>)
      modifies this
      ensures self == this
      ensures fields == old(fields) + [NewField(path, value, MustEqual, InMask, equalTo, paths)]
      ensures paths == old(paths) && customValidation == old(customValidation)
    {
      self := Declare(path, value, MustEqual, InMask, equalTo);
    }

    /** `CustomValidation`: replaces any custom function set before. */
    method CustomValidation(act: T -> CustomOutcome) returns (self: DefaultMessageValidator<T>)
      modifies this
      ensures self == this
      ensures customValidation == Some(act)
      ensures fields == old(fields) && paths == old(paths)
    {
      customValidation := Some(act);
      self := this;
    }

    /** The `AddFieldErr` calls a custom validation run makes on the aggregate it is handed. */
    static method ApplyCustomAdds(errs: ValidationErrors, adds: seq<FieldAdd>)
      requires errs.Valid()
      modifies errs
      ensures errs.Valid()
      ensures errs.fieldErrors == AddAll(old(errs.fieldErrors), adds)
      ensures errs.customValidationError == old(errs.customValidationError)
    {
      for i := 0 to |adds|
        invariant errs.Valid()
        invariant errs.fieldErrors == AddAll(old(errs.fieldErrors), adds[..i])
        invariant errs.customValidationError == old(errs.customValidationError)
      {
        assert adds[..i + 1][..i] == adds[..i];
        errs.AddFieldErr(adds[i].path, adds[i].err, adds[i].options);
      }
      assert adds[..|adds|] == adds;
    }

    /** The field checks of `Exec`: each declared field in order, each failure recorded. */
    static method CheckFields(errs: ValidationErrors, fields: seq<Field>)
      requires errs.Valid()
      modifies errs
      ensures errs.Valid()
      ensures errs.fieldErrors == CheckAll(old(errs.fieldErrors), fields)
      ensures errs.customValidationError == old(errs.customValidationError)
    {
      for i := 0 to |fields|
        invariant errs.Valid()
        invariant errs.fieldErrors == CheckAll(old(errs.fieldErrors), fields[..i])
        invariant errs.customValidationError == old(errs.customValidationError)
      {
        assert fields[..i + 1][..i] == fields[..i];
        var failure := Validate(fields[i]);
        if failure.Some? {
          errs.AddFieldFailure(fields[i], FailureErr(failure.value));
        }
      }
      assert fields[..|fields|] == fields;
    }

    /**
     * `Exec`: a fresh aggregate on every call; custom validation first (a
     * returned error other than the aggregate itself becomes the wrapped
     * custom error, replacing any the function set on the aggregate), then
     * each declared field in order; nil exactly when nothing was recorded.
     */
    method Exec(message: T) returns (errs: ValidationErrors?)
      ensures errs == null <==> ExecReport(customValidation, fields, message) == Report([], [])
      ensures errs != null ==> fresh(errs) && errs.Valid()
      ensures errs != null ==> errs.fieldErrors == ExecReport(customValidation, fields, message).fieldErrors
      ensures errs != null ==> errs.customValidationError == ExecReport(customValidation, fields, message).customError
    {
      var e := new ValidationErrors();
      if customValidation.Some? {
        var outcome := customValidation.value(message);
        ApplyCustomAdds(e, outcome.adds);
        if outcome.setCustom.Some? {
          e.SetCustomValidationErr(outcome.setCustom.value);
        }
        if outcome.returned.ReturnsError? && outcome.returned.err != [] {
          e.SetCustomValidationErr(GoErrors.Wrap(CustomErrorPrefix, outcome.returned.err));
        }
      }
      CheckFields(e, fields);
      if e.HasErrors() {
        errs := e;
      } else {
        errs := null;
      }
    }
  }

  /** The pipeline.  A stage left unset is skipped as if it passed. */
  class Arrangement<T, U> {
    var auth: Option<T -> GoErrors.Err>
    var validate: DefaultMessageValidator?<T>
    var serve: Option<T -> (Option<U>, GoErrors.Err)>

    /** `Arrange`: no stage set. */
    constructor Arrange()
      ensures auth == None && validate == null && serve == None
    {
      auth := None;
      validate := null;
      serve := None;
    }

    /** `WithAuth`. */
    method WithAuth(act: T -> GoErrors.Err) returns (self: Arrangement<T, U>)
      modifies this
      ensures self == this && auth == Some(act)
      ensures validate == old(validate) && serve == old(serve)
    {
      auth := Some(act);
      self := this;
    }

    /** `WithValidate`. */
    method WithValidate(fv: DefaultMessageValidator?<T>) returns (self: Arrangement<T, U>)
      modifies this
      ensures self == this && validate == fv
      ensures auth == old(auth) && serve == old(serve)
    {
      validate := fv;
      self := this;
    }

    /** `WithServe`. */
    method WithServe(act: T -> (Option<U>, GoErrors.Err)) returns (self: Arrangement<T, U>)
      modifies this
      ensures self == this && serve == Some(act)
      ensures auth == old(auth) && validate == old(validate)
    {
      serve := Some(act);
      self := this;
    }

    /** Whether the auth stage is set and fails on `message`. */
    predicate AuthFails(message: T)
      reads this
    {
      auth.Some? && auth.value(message) != []
    }

    /** Whether the validate stage is set and records something for `message`. */
    predicate ValidationFails(message: T)
      reads this, validate
    {
      validate != null && ExecReport(validate.customValidation, validate.fields, message) != Report([], [])
    }

    /** Whether the serve stage is set and returns an error for `message`. */
    predicate ServeFails(message: T)
      reads this
    {
      serve.Some? && serve.value(message).1 != []
    }

    /** The stages that a run invokes: each set stage up to and including the first that fails. */
    ghost function StagesRun(message: T): seq<Stage>
      reads this, validate
    {
      var a := if auth.Some? then [AuthStage] else [];
      var v := if validate != null then [ValidateStage] else [];
      var s := if serve.Some? then [ServeStage] else [];
      if AuthFails(message) then a
      else if ValidationFails(message) then a + v
      else a + v + s
    }

    /**
     * `Exec`: Auth, then Validate, then Serve.  The first failing stage fills
     * its own slot of a fresh envelope and nothing after it runs; on success
     * the envelope is nil and the result is Serve's (the zero value when
     * there is no Serve stage).
     */
    method Exec(message: T) returns (res: Option<U>, serr: Error?, ghost ran: seq<Stage>)
      ensures ran == StagesRun(message)
      ensures serr != null ==> ran != [] && Reported(serr) == Some(ran[|ran| - 1])
      ensures AuthFails(message) ==>
        res == None && serr != null && fresh(serr) &&
        serr.authError == Some(auth.value(message)) && serr.validationErrs == null && serr.serveError == None
      ensures !AuthFails(message) && ValidationFails(message) ==>
        res == None && serr != null && fresh(serr) && serr.authError == None && serr.serveError == None &&
        serr.validationErrs != null && fresh(serr.validationErrs) &&
        serr.validationErrs.fieldErrors == ExecReport(validate.customValidation, validate.fields, message).fieldErrors &&
        serr.validationErrs.customValidationError == ExecReport(validate.customValidation, validate.fields, message).customError
      ensures !AuthFails(message) && !ValidationFails(message) && ServeFails(message) ==>
        res == serve.value(message).0 && serr != null && fresh(serr) &&
        serr.authError == None && serr.validationErrs == null && serr.serveError == Some(serve.value(message).1)
      ensures !AuthFails(message) && !ValidationFails(message) && !ServeFails(message) ==>
        serr == null && res == (if serve.Some? then serve.value(message).0 else None)
    {
      ran := [];
      res := None;
      if auth.Some? {
        ran := ran + [AuthStage];
        var err := auth.value(message);
        if err != [] {
          serr := new Error();
          serr.SetAuthError(err);
          return;
        }
      }
      if validate != null {
        ran := ran + [ValidateStage];
        var errs := validate.Exec(message);
        if errs != null {
          serr := new Error();
          serr.SetValidationErrors(errs);
          return;
        }
      }
      if serve.Some? {
        ran := ran + [ServeStage];
        var out := serve.value(message);
        res := out.0;
        if out.1 != [] {
          serr := new Error();
          serr.SetServeError(out.1);
          return;
        }
      }
      serr := null;
    }
  }

  /**
   * An envelope with the slot of one stage set and the others empty, the
   * shape `Arrangement.Exec` builds on a failure, reports that stage.
   */
  lemma EnvelopeReportsFailingStage(e: Error, stage: Stage)
    requires stage == AuthStage ==> e.authError.Some? && e.validationErrs == null && e.serveError == None
    requires stage == ValidateStage ==> e.authError == None && e.validationErrs != null && e.serveError == None
    requires stage == ServeStage ==> e.authError == None && e.validationErrs == null && e.serveError.Some?
    ensures Reported(e) == Some(stage)
  {
  }
}
