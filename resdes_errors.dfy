/**
 * The fault aggregate and the stage envelope (errors.go).
 *
 * `ValidationErrors` keeps an ordered list of `FieldError`s and an index
 * from path to list position: a second fault on a path already listed joins
 * its cause into that entry in place instead of adding a new entry.  It also
 * holds an optional message-level custom error.  The envelope `Error` has one
 * slot per stage (auth, validation, serve); its rendering and unwrapping
 * pick the first set slot in that order.
 */
module ResdesErrors {
  import opened Wrappers
  import opened GoValues
  import opened ResdesPolicy
  import opened ResdesField
  import GoErrors
  import opened GoStrings

  /** One entry of the fault list. */
  datatype FieldError = FieldError(path: string, policy: Policy, value: Value, expected: Value, err: GoErrors.Err)

  /** `FieldErrorFromField`: the entry for a failing declared field. */
  function FieldErrorFromField(f: Field, err: GoErrors.Err): (fe: FieldError)
    ensures fe.path == f.ID() && fe.policy == f.policy
    ensures fe.value == f.value && fe.expected == f.cmpTo && fe.err == err
  {
    FieldError(f.path, f.policy, f.value, f.cmpTo, err)
  }

  /** `FieldError.Error()`: "<path> failed <policy> policy: <causes>", or "" for a nil cause. */
  function FieldErrorText(fe: FieldError): (s: string)
    ensures s == "" <==> fe.err == []
  {
    if fe.err == [] then ""
    else fe.path + " failed " + PolicyName(fe.policy) + " policy: " + GoErrors.Text(fe.err)
  }

  /** The options `WithValue` and `WithExpectedValue` of `AddFieldErr`. */
  datatype ErrOption = WithValue(v: Value) | WithExpectedValue(v: Value)

  /** Applies the options in order, so the last option of each kind wins. */
  function ApplyOptions(fe: FieldError, options: seq<ErrOption>): (r: FieldError)
    ensures r.path == fe.path && r.policy == fe.policy && r.err == fe.err
    ensures (forall i :: 0 <= i < |options| ==> !options[i].WithValue?) ==> r.value == fe.value
    ensures (forall i :: 0 <= i < |options| ==> !options[i].WithExpectedValue?) ==> r.expected == fe.expected
  {
    if options == [] then fe
    else
      var o := options[|options| - 1];
      var before := ApplyOptions(fe, options[..|options| - 1]);
      match o
      case WithValue(v) => before.(value := v)
      case WithExpectedValue(v) => before.(expected := v)
  }

  /** `options[i]` is the last `WithValue` option (when `value`) or the last `WithExpectedValue` one. */
  predicate LastOfKind(options: seq<ErrOption>, i: int, value: bool)
  {
    0 <= i < |options| && options[i].WithValue? == value &&
    forall j :: i < j < |options| ==> options[j].WithValue? != value
  }

  /** The last option of each kind decides the value (expected value) of the entry. */
  lemma {:induction false} ApplyOptionsLastWins(fe: FieldError, options: seq<ErrOption>, i: int)
    ensures LastOfKind(options, i, true) ==> ApplyOptions(fe, options).value == options[i].v
    ensures LastOfKind(options, i, false) ==> ApplyOptions(fe, options).expected == options[i].v
  {
    if options != [] && i < |options| - 1 {
      var init := options[..|options| - 1];
      ApplyOptionsLastWins(fe, init, i);
      if LastOfKind(options, i, true) || LastOfKind(options, i, false) {
        assert LastOfKind(init, i, options[i].WithValue?);
      }
    }
  }

  /** The paths of a fault list, in list order. */
  function PathsOf(l: seq<FieldError>): (ps: seq<string>)
    ensures |ps| == |l| && forall i :: 0 <= i < |l| ==> ps[i] == l[i].path
  {
    seq(|l|, i requires 0 <= i < |l| => l[i].path)
  }

  /** No path is listed twice. */
  ghost predicate DistinctPaths(l: seq<FieldError>)
  {
    forall i, j :: 0 <= i < j < |l| ==> l[i].path != l[j].path
  }

  /**
   * The list after `addErr(fe)`, found by path rather than through the index:
   * a new path is appended; an existing path keeps its entry and position
   * (policy, value and expected value of the first fault) with `fe`'s causes
   * joined after its own.
   */
  function Record(l: seq<FieldError>, fe: FieldError): (r: seq<FieldError>)
    ensures fe.path !in PathsOf(l) ==> r == l + [fe] && PathsOf(r) == PathsOf(l) + [fe.path]
    ensures fe.path in PathsOf(l) ==> |r| == |l| && PathsOf(r) == PathsOf(l)
    ensures fe.path in PathsOf(l) ==> forall i :: 0 <= i < |l| ==>
      r[i] == if l[i].path == fe.path && i == IndexOf(PathsOf(l), fe.path)
              then l[i].(err := GoErrors.Join(l[i].err, fe.err)) else l[i]
    ensures DistinctPaths(l) ==> DistinctPaths(r)
  {
    var k := IndexOf(PathsOf(l), fe.path);
    if k < 0 then l + [fe]
    else l[k := l[k].(err := GoErrors.Join(l[k].err, fe.err))]
  }

  /** The causes recorded for a path (nil when the path has no entry). */
  function CausesAt(l: seq<FieldError>, p: string): GoErrors.Err
  {
    var k := IndexOf(PathsOf(l), p);
    if k < 0 then [] else l[k].err
  }

  /** Recording a fault adds its causes after those already recorded for its path and touches no other path. */
  lemma RecordCauses(l: seq<FieldError>, fe: FieldError, p: string)
    ensures CausesAt(Record(l, fe), p) == CausesAt(l, p) + (if p == fe.path then fe.err else [])
  {
    var r := Record(l, fe);
    var k := IndexOf(PathsOf(l), p);
    if fe.path !in PathsOf(l) {
      IndexOfAppend(PathsOf(l), fe.path, p);
      if p == fe.path {
        assert IndexOf(PathsOf(r), p) == |l| && r[|l|] == fe;
        assert CausesAt(l, p) == [];
      } else if k >= 0 {
        assert IndexOf(PathsOf(r), p) == k && r[k] == l[k];
      }
    } else {
      assert PathsOf(r) == PathsOf(l);
      if k >= 0 {
        assert r[k] == if l[k].path == fe.path && k == IndexOf(PathsOf(l), fe.path)
                       then l[k].(err := GoErrors.Join(l[k].err, fe.err)) else l[k];
      }
    }
  }

  /** Every cause of a list, entry by entry: what `Unwrap` joins. */
  function AllCauses(l: seq<FieldError>): (e: GoErrors.Err)
    ensures e == [] <==> forall i :: 0 <= i < |l| ==> l[i].err == []
  {
    if l == [] then []
    else GoErrors.Join(AllCauses(l[..|l| - 1]), l[|l| - 1].err)
  }

  /** The field lines of the rendering: one line per entry, in list order. */
  function FieldLines(l: seq<FieldError>): (s: string)
    ensures |s| >= |l|
  {
    if l == [] then ""
    else FieldLines(l[..|l| - 1]) + FieldErrorText(l[|l| - 1]) + "\n"
  }

  /** `ValidationErrors.Error()` of a non-nil aggregate: the custom error's line first, then the field lines. */
  function Render(custom: GoErrors.Err, l: seq<FieldError>): string
  {
    (if custom != [] then GoErrors.Text(custom) + "\n" else "") + FieldLines(l)
  }

  /** The rendering is empty exactly when nothing was recorded. */
  lemma RenderEmptyIff(custom: GoErrors.Err, l: seq<FieldError>)
    ensures Render(custom, l) == "" <==> custom == [] && l == []
  {
  }

  /** Recording a fault on a new path adds its line at the end of the rendering; a merge adds no line. */
  lemma RenderRecord(custom: GoErrors.Err, l: seq<FieldError>, fe: FieldError)
    ensures fe.path !in PathsOf(l) ==>
      Render(custom, Record(l, fe)) == Render(custom, l) + FieldErrorText(fe) + "\n"
    ensures |Record(l, fe)| == |l| + (if fe.path in PathsOf(l) then 0 else 1)
  {
    var r := Record(l, fe);
    if fe.path !in PathsOf(l) {
      FieldLinesSnoc(l, fe);
      var head := if custom != [] then GoErrors.Text(custom) + "\n" else "";
      AppendAssoc(head, FieldLines(l), FieldErrorText(fe));
    } else {
      assert |PathsOf(r)| == |PathsOf(l)|;
    }
  }

  /** Regrouping a three-part concatenation that ends in a newline. */
  lemma AppendAssoc(a: string, b: string, c: string)
    ensures a + (b + c + "\n") == a + b + c + "\n"
  {
  }

  /** Appending an entry appends its line. */
  lemma FieldLinesSnoc(l: seq<FieldError>, fe: FieldError)
    ensures FieldLines(l + [fe]) == FieldLines(l) + FieldErrorText(fe) + "\n"
  {
    assert (l + [fe])[..|l|] == l;
  }

  /** The fault aggregate.  `fieldErrors` and `idx` are kept in step by `Valid`. */
  class ValidationErrors {
    var fieldErrors: seq<FieldError>
    var customValidationError: GoErrors.Err
    var idx: map<string, int>

    /** `idx` maps exactly the listed paths, each to its own position. */
    ghost predicate Valid()
      reads this
    {
      && (forall i :: 0 <= i < |fieldErrors| ==> fieldErrors[i].path in idx && idx[fieldErrors[i].path] == i)
      && (forall p :: p in idx ==> 0 <= idx[p] < |fieldErrors| && fieldErrors[idx[p]].path == p)
    }

    /** `NewValidationErrors`. */
    constructor ()
      ensures Valid() && fieldErrors == [] && customValidationError == []
    {
      fieldErrors := [];
      customValidationError := [];
      idx := map[];
    }

    /** `Valid` makes the index agree with the path search of `Record`. */
    lemma IndexAgrees(p: string)
      requires Valid()
      ensures DistinctPaths(fieldErrors)
      ensures p in idx <==> p in PathsOf(fieldErrors)
      ensures p in idx ==> idx[p] == IndexOf(PathsOf(fieldErrors), p)
    {
      var ps := PathsOf(fieldErrors);
      if p in ps {
        var k := IndexOf(ps, p);
        assert fieldErrors[k].path == p;
      }
    }

    /** `addErr`: append a new path, or join the causes of an existing one in place. */
    method AddErr(fe: FieldError)
      requires Valid()
      modifies this
      ensures Valid()
      ensures fieldErrors == Record(old(fieldErrors), fe)
      ensures customValidationError == old(customValidationError)
    {
      IndexAgrees(fe.path);
      if fe.path in idx {
        var k := idx[fe.path];
        fieldErrors := fieldErrors[k := fieldErrors[k].(err := GoErrors.Join(fieldErrors[k].err, fe.err))];
      } else {
        fieldErrors := fieldErrors + [fe];
        idx := idx[fe.path := |fieldErrors| - 1];
      }
    }

    /** `addFieldErr`: record the failure of a declared field. */
    method AddFieldFailure(field: Field, err: GoErrors.Err)
      requires Valid()
      modifies this
      ensures Valid()
      ensures fieldErrors == Record(old(fieldErrors), FieldErrorFromField(field, err))
      ensures customValidationError == old(customValidationError)
    {
      AddErr(FieldErrorFromField(field, err));
    }

    /** `AddFieldErr`: record a fault from custom validation, under the Custom policy. */
    method AddFieldErr(path: string, err: GoErrors.Err, options: seq<ErrOption>)
      requires Valid()
      modifies this
      ensures Valid()
      ensures fieldErrors == Record(old(fieldErrors), ApplyOptions(FieldError(path, Custom, Nil, Nil, err), options))
      ensures customValidationError == old(customValidationError)
    {
      var fe := FieldError(path, Custom, Nil, Nil, err);
      fe := ApplyOptions(fe, options);
      AddErr(fe);
    }

    /** `SetCustomValidationErr`. */
    method SetCustomValidationErr(err: GoErrors.Err)
      modifies this
      ensures customValidationError == err
      ensures fieldErrors == old(fieldErrors) && idx == old(idx)
    {
      customValidationError := err;
    }

    /** `HasErrors`. */
    predicate HasErrors()
      reads this
    {
      |fieldErrors| > 0 || customValidationError != []
    }

    /** `Paths`: the listed paths in list order. */
    method Paths() returns (ps: seq<string>)
      ensures ps == PathsOf(fieldErrors)
    {
      ps := [];
      for i := 0 to |fieldErrors|
        invariant ps == PathsOf(fieldErrors[..i])
      {
        ps := ps + [fieldErrors[i].path];
      }
      assert fieldErrors[..|fieldErrors|] == fieldErrors;
    }

    /** `Unwrap`: the causes of every entry joined in list order; the custom error is not included. */
    method Unwrap() returns (e: GoErrors.Err)
      ensures e == AllCauses(fieldErrors)
    {
      if |fieldErrors| == 0 {
        return [];
      }
      e := [];
      for i := 0 to |fieldErrors|
        invariant e == AllCauses(fieldErrors[..i])
      {
        assert fieldErrors[..i + 1][..i] == fieldErrors[..i];
        e := GoErrors.Join(e, fieldErrors[i].err);
      }
      assert fieldErrors[..|fieldErrors|] == fieldErrors;
    }
  }

  /** The loop of `ValidationErrors.Error()` over the entries: one line each, in list order. */
  method WriteFieldLines(l: seq<FieldError>) returns (out: string)
    ensures out == FieldLines(l)
  {
    out := "";
    for i := 0 to |l|
      invariant out == FieldLines(l[..i])
    {
      var line := FieldErrorText(l[i]) + "\n";
      assert l[..i + 1][..i] == l[..i];
      out := out + line;
    }
    assert l[..|l|] == l;
  }

  /** `ValidationErrors.Error()`; a nil aggregate renders "". */
  method ValidationErrorsText(v: ValidationErrors?) returns (s: string)
    ensures v == null ==> s == ""
    ensures v != null ==> s == Render(v.customValidationError, v.fieldErrors)
  {
    if v == null {
      return "";
    }
    s := if v.customValidationError != [] then GoErrors.Text(v.customValidationError) + "\n" else "";
    var lines := WriteFieldLines(v.fieldErrors);
    s := s + lines;
  }

  /**
   * `AsMap`: nil for a nil aggregate; otherwise the listed paths as keys,
   * each mapped to the last entry with that path (the only one, when `Valid`).
   */
  method AsMap(v: ValidationErrors?) returns (m: Option<map<string, FieldError>>)
    ensures v == null <==> m == None
    ensures v != null ==> m.Some? && m.value.Keys == set i | 0 <= i < |v.fieldErrors| :: v.fieldErrors[i].path
    ensures v != null ==> forall p :: p in m.value ==>
      exists i :: 0 <= i < |v.fieldErrors| && v.fieldErrors[i] == m.value[p] && p == v.fieldErrors[i].path &&
        forall j :: i < j < |v.fieldErrors| ==> v.fieldErrors[j].path != p
  {
    if v == null {
      return None;
    }
    var l := v.fieldErrors;
    var acc: map<string, FieldError> := map[];
    for i := 0 to |l|
      invariant acc.Keys == set k | 0 <= k < i :: l[k].path
      invariant forall p :: p in acc ==>
        exists k :: 0 <= k < i && l[k] == acc[p] && p == l[k].path && forall j :: k < j < i ==> l[j].path != p
    {
      acc := acc[l[i].path := l[i]];
    }
    m := Some(acc);
  }

  /** The stages of a request, in the order they run. */
  datatype Stage = AuthStage | ValidateStage | ServeStage

  /**
   * The stage envelope `Error`.  `Some(err)` in an auth or serve slot is the
   * `AuthError` / `ServeErr` wrapper around `err`; the validation slot holds
   * the aggregate itself.
   */
  class Error {
    var authError: Option<GoErrors.Err>
    var validationErrs: ValidationErrors?
    var serveError: Option<GoErrors.Err>

    /** The empty envelope `&Error{}`. */
    constructor ()
      ensures authError == None && validationErrs == null && serveError == None
    {
      authError := None;
      validationErrs := null;
      serveError := None;
    }

    /** `SetAuthError`. */
    method SetAuthError(err: GoErrors.Err)
      modifies this
      ensures authError == Some(err)
      ensures validationErrs == old(validationErrs) && serveError == old(serveError)
    {
      authError := Some(err);
    }

    /** `SetValidationErrors`. */
    method SetValidationErrors(errs: ValidationErrors?)
      modifies this
      ensures validationErrs == errs
      ensures authError == old(authError) && serveError == old(serveError)
    {
      validationErrs := errs;
    }

    /** `SetServeError`. */
    method SetServeError(err: GoErrors.Err)
      modifies this
      ensures serveError == Some(err)
      ensures authError == old(authError) && validationErrs == old(validationErrs)
    {
      serveError := Some(err);
    }
  }

  /** `GetAuthError`; nil on a nil envelope. */
  function GetAuthError(e: Error?): (r: Option<GoErrors.Err>)
    reads e
    ensures e == null ==> r == None
    ensures e != null ==> r == e.authError
  {
    if e == null then None else e.authError
  }

  /** `GetValidationErrors`; nil on a nil envelope. */
  function GetValidationErrors(e: Error?): (r: ValidationErrors?)
    reads e
    ensures e == null ==> r == null
    ensures e != null ==> r == e.validationErrs
  {
    if e == null then null else e.validationErrs
  }

  /** `GetServeError`; nil on a nil envelope. */
  function GetServeError(e: Error?): (r: Option<GoErrors.Err>)
    reads e
    ensures e == null ==> r == None
    ensures e != null ==> r == e.serveError
  {
    if e == null then None else e.serveError
  }

  /** The slot that `Error()` and `Unwrap()` report: auth before validation before serve. */
  function Reported(e: Error?): (r: Option<Stage>)
    reads e
    ensures r == Some(AuthStage) <==> GetAuthError(e).Some?
    ensures r == Some(ValidateStage) <==> GetAuthError(e) == None && GetValidationErrors(e) != null
    ensures r == Some(ServeStage) <==>
      GetAuthError(e) == None && GetValidationErrors(e) == null && GetServeError(e).Some?
  {
    if GetAuthError(e).Some? then Some(AuthStage)
    else if GetValidationErrors(e) != null then Some(ValidateStage)
    else if GetServeError(e).Some? then Some(ServeStage)
    else None
  }

  /** What `Error.Unwrap` returns. */
  datatype Unwrapped = NoCause | AuthCause(err: GoErrors.Err) | ValidationCause(errs: ValidationErrors) | ServeCause(err: GoErrors.Err)

  /** `Error.Unwrap`: the wrapper of the reported slot, or nil. */
  function UnwrapEnvelope(e: Error?): (r: Unwrapped)
    reads e
    ensures r == NoCause <==> Reported(e) == None
    ensures r.AuthCause? <==> Reported(e) == Some(AuthStage)
    ensures r.AuthCause? ==> Some(r.err) == GetAuthError(e)
    ensures r.ValidationCause? <==> Reported(e) == Some(ValidateStage)
    ensures r.ValidationCause? ==> r.errs == GetValidationErrors(e)
    ensures r.ServeCause? <==> Reported(e) == Some(ServeStage)
    ensures r.ServeCause? ==> Some(r.err) == GetServeError(e)
  {
    if GetAuthError(e).Some? then AuthCause(GetAuthError(e).value)
    else if GetValidationErrors(e) != null then ValidationCause(GetValidationErrors(e))
    else if GetServeError(e).Some? then ServeCause(GetServeError(e).value)
    else NoCause
  }

  /** `Error.Error()`: the text of the reported slot, "" when no slot is set (or the envelope is nil). */
  method EnvelopeText(e: Error?) returns (s: string)
    ensures Reported(e) == None ==> s == ""
    ensures Reported(e) == Some(AuthStage) ==> s == GoErrors.Text(GetAuthError(e).value)
    ensures Reported(e) == Some(ValidateStage) ==>
      s == Render(GetValidationErrors(e).customValidationError, GetValidationErrors(e).fieldErrors)
    ensures Reported(e) == Some(ServeStage) ==> s == GoErrors.Text(GetServeError(e).value)
  {
    if GetAuthError(e).Some? {
      s := GoErrors.Text(GetAuthError(e).value);
    } else if GetValidationErrors(e) != null {
      s := ValidationErrorsText(GetValidationErrors(e));
    } else if GetServeError(e).Some? {
      s := GoErrors.Text(GetServeError(e).value);
    } else {
      s := "";
    }
  }
}
