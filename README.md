# resdes / soldr in Dafny

This project models the request-validation core of the Go repository
`signal426/resdes`. The repository holds two iterations of one design, in
the packages `resdes` and `soldr`.

**resdes**
- A `DefaultMessageValidator` collects field assertions: non-zero,
  not-equal-to and must-equal, each either always checked or checked only
  when the field's path is in a field mask. It also holds at most one custom
  validation function.
- `Exec` runs the custom function first, then every declared field in
  declaration order. It records the faults in a fresh `ValidationErrors`
  aggregate and returns nil exactly when nothing was recorded.
- The aggregate keeps one entry per path. A second fault on a path joins its
  cause into the existing entry instead of adding a new one.
- Mask entries and declared paths are compared after snake_case segments are
  turned into camelCase.
- An `Arrangement` runs Auth, then Validate, then Serve. It stops at the
  first stage that fails and reports that stage in its own slot of an
  `Error` envelope.

**soldr**
- The same validator, but its `ValidationResult` lives as long as the
  validator. `Exec` checks the fields before running custom validation, and
  a custom error is returned at once in place of the field faults.
- `fault.go` sorts leveled faults and renders them in sections by level.
- `processor.go` answers "is the field at this dotted path set?" over a
  message tree and memoises each step in a cache.
- `trait.go` and `propolicy.go` evaluate a subject against a chain of traits
  linked by AND and OR.

## How the model is built
- **Errors.** A Go `error` is the list of its causes' messages
  (`GoErrors.Err`). `[]` is nil, and `errors.Join` concatenates the lists.
  An error's text is its causes' messages joined with newlines.
- **Reflection.** Dynamic values are the datatype `GoValues.Value`. Each
  non-nil value carries its dynamic type. `IsZero` is the structural zero
  test, and `==` stands for `cmp.Equal`.
- **Callbacks.** Auth, serve and handle functions, custom validation, the
  policy condition and the subject's `HasTrait` become Dafny functions of
  their inputs.
  - A custom validation run is described by the list of fault-adding calls
    it makes on the aggregate it is handed, by the error it sets there with
    `SetCustomValidationErr` (if any), and by what it returns.
  - soldr's `Field.Validate` and `FaultType.String` are defined outside the
    modelled files, so they are parameters.
- **Mutable objects become classes.** This covers the aggregates, the
  validators, the arrangements, the envelope, the field processor and trait
  nodes.
  - Each method states its whole new state. Most do so through a
    specification function: `Record`/`Merge` for one fault, and
    `ExecReport`, `ExecFaults`, `ExecErr` and `IsFieldSetAsWritten` for one
    run.
  - The promised properties are proved as lemmas about those functions.
- **Message trees.** Protobuf messages are explicit trees of field
  descriptors.

Two behaviours of the code that a reader might not expect:
- **Mask normalisation.** Mask entries are compared with the whole declared
  path, both normalised. So a mask entry `last_name` (normalised to
  `lastName`) does not select the declared path `user.last_name` (normalised
  to `user.lastName`); the entry has to name the full path.
  `ResdesMask.MaskMembership` states this.
- **Serve errors.** When Serve fails, resdes `Arrangement.Exec` returns
  Serve's result together with the envelope.

## Model

| member | source | states |
|---|---|---|
| ResdesMask.NormalizePath | mask.go:8-24 | the one-pass loop with a pending upper-case flag yields exactly `Normalize(path)` |
| ResdesMask.NormalizeDropsUnderscores | mask.go:11-15 | no underscore survives normalisation |
| ResdesMask.NormalizeKeepsPlainPath | mask.go:8-24 | a path without underscores is its own normal form |
| ResdesMask.NormalizeLength | mask.go:11-22 | the normal form is shorter by exactly the number of underscores |
| ResdesMask.NormalizeAt | mask.go:11-22 | each non-underscore character moves left by the underscores before it; it is upper-cased exactly when an underscore directly precedes it |
| ResdesMask.NormalizeIdempotent | mask.go:8-24 | normalising twice is normalising once |
| ResdesMask.MaskPaths | mask.go:26-35 | nil exactly for an empty mask; otherwise a path is in the set iff it is the normal form of some entry |
| ResdesMask.GetPathsFromMask | mask.go:26-35 | the entry-by-entry loop builds exactly `MaskPaths(fieldMask)` |
| ResdesMask.IsPathInMask | mask.go:37-43 | a nil set contains nothing; otherwise set membership |
| ResdesMask.MaskMembership | mask.go:26-43 | a declared path is in the mask iff some entry has the same normal form, and no path is in an empty mask |
| ResdesPolicy.PolicyName | policy.go:12-25 | each named policy has its own name; every value above Custom, and only those, is "unknown policy" |
| ResdesPolicy.PolicyNamesDistinct | policy.go:12-25 | distinct named policies have distinct names |
| ResdesField.FailureErr | errors.go:23-37 | a failure is one cause that names the field and ends in its sentinel message |
| GoValues.IsZero | field.go:9-20 | defined as: nil, a scalar whose bits are 0, the empty string, a nil reference, or a struct or array all of whose parts are zero |
| GoValues.TypeOf | field.go:106-107 | the dynamic type of the value, and none exactly for the untyped nil |
| ResdesField.NewField | field.go:33-45 | keeps path, value, policy, condition and target; stores the normalised path; mask membership is decided on the normalised path; zero-ness is `IsZero(value)` |
| ResdesField.Field.Path | field.go:82-87 | defined as: the normalised path when `normalized` is true, otherwise the declared path |
| ResdesField.Field.ID | field.go:97-99 | defined as: the declared path |
| ResdesField.NewFieldPaths | field.go:82-99 | `ID()` and `Path(false)` are the declared path; `Path(true)` is its normal form and has no underscore |
| ResdesField.CheckEquals | field.go:105-112 | not comparable iff the dynamic types differ; otherwise the answer is deep equality |
| ResdesField.Validate | field.go:47-68 | a mask-conditioned field outside the mask passes; NonZero fails iff the value is zero; other policies fail on a type mismatch; otherwise NotEqualTo fails iff the values are equal and MustEqual iff they differ; Custom and unknown policies pass; a failure names the field's path |
| ResdesField.MaskConditionedField | field.go:33-50 | a mask-conditioned field reports only when some mask entry normalises to its normalised path, and never with an empty mask |
| ResdesField.NonZeroFieldFailsOnZero | field.go:47-56 | an always-checked NonZero field fails iff its value is zero, nil included |
| ResdesErrors.FieldErrorFromField | errors.go:265-273 | the entry carries the field's ID, policy, value and target, and the given error |
| ResdesErrors.FieldErrorText | errors.go:275-280 | the entry's text is empty iff its error is nil |
| ResdesErrors.ApplyOptions | errors.go:145-157 | options never change path, policy or error; without a WithValue (WithExpectedValue) option the value (expected value) is kept |
| ResdesErrors.ApplyOptionsLastWins | errors.go:184-188 | the value is the argument of the last WithValue option, and the expected value that of the last WithExpectedValue option |
| ResdesErrors.Record | errors.go:204-215 | a new path is appended; a listed path keeps its position and gets the new cause joined after its own; no other entry changes; distinct paths stay distinct |
| ResdesErrors.RecordCauses | errors.go:204-215 | recording adds the fault's causes after those already recorded for its path and changes no other path's causes |
| ResdesErrors.AllCauses | errors.go:246-255 | the joined causes are nil iff every entry's error is nil |
| ResdesErrors.RenderEmptyIff | errors.go:221-233 | the rendering is empty iff there is neither a custom error nor an entry |
| ResdesErrors.RenderRecord | errors.go:221-233 | recording a new path appends exactly its line to the rendering; a merge adds no entry |
| ResdesErrors.ValidationErrors.constructor | errors.go:166-171 | an empty, consistent aggregate |
| ResdesErrors.ValidationErrors.IndexAgrees | errors.go:204-215 | in a consistent aggregate the paths are distinct, and the index holds exactly the listed paths at their first position |
| ResdesErrors.ValidationErrors.AddErr | errors.go:204-215 | the list becomes `Record(old list, fe)`; index consistency is kept; the custom error is untouched |
| ResdesErrors.ValidationErrors.AddFieldFailure | errors.go:173-175 | records the field's entry as `AddErr` does |
| ResdesErrors.ValidationErrors.AddFieldErr | errors.go:177-190 | records a Custom-policy entry with the options applied in order |
| ResdesErrors.ValidationErrors.SetCustomValidationErr | errors.go:217-219 | sets only the custom error |
| ResdesErrors.ValidationErrors.HasErrors | errors.go:200-202 | defined as: the aggregate lists at least one entry or holds a non-nil custom error |
| ResdesErrors.ValidationErrors.Paths | errors.go:192-198 | the listed paths in list order |
| ResdesErrors.ValidationErrors.Unwrap | errors.go:246-255 | every entry's causes joined in list order; the custom error is not included |
| ResdesErrors.WriteFieldLines | errors.go:229-231 | one line per entry, in list order |
| ResdesErrors.ValidationErrorsText | errors.go:221-233 | "" for a nil aggregate; otherwise the custom error's line first, then the entries' lines |
| ResdesErrors.AsMap | errors.go:235-244 | nil iff the aggregate is nil; the keys are exactly the listed paths, each mapped to the last entry with that path |
| ResdesErrors.Error.constructor | resdes.go:166 | the empty envelope |
| ResdesErrors.Error.SetAuthError | errors.go:96-98 | fills the auth slot only |
| ResdesErrors.Error.SetValidationErrors | errors.go:100-102 | fills the validation slot only |
| ResdesErrors.Error.SetServeError | errors.go:104-106 | fills the serve slot only |
| ResdesErrors.GetAuthError | errors.go:108-113 | nil for a nil envelope, otherwise the auth slot |
| ResdesErrors.GetValidationErrors | errors.go:115-120 | nil for a nil envelope, otherwise the validation slot |
| ResdesErrors.GetServeError | errors.go:122-127 | nil for a nil envelope, otherwise the serve slot |
| ResdesErrors.Reported | errors.go:133-143 | auth is reported iff set; validation iff set and auth is not; serve iff set and neither earlier slot is |
| ResdesErrors.UnwrapEnvelope | errors.go:84-94 | unwraps to the wrapper of the reported slot, and to nil iff no slot is set |
| ResdesErrors.EnvelopeText | errors.go:133-143 | the text of the reported slot, "" when none is set |
| Resdes.AddedError | errors.go:177-190 | a custom fault is recorded under its path with the Custom policy and its own error |
| Resdes.CustomError | resdes.go:99-104 | a returned error other than nil and the aggregate becomes the one cause "an error occurred during custom message validation: " + its text, replacing what the function set; otherwise the error the function set with `SetCustomValidationErr` stays (nil if it set none) |
| Resdes.AddAllCauses | resdes.go:99-101 | after the custom calls, each path's causes are its old causes followed by the calls' causes for it, in call order |
| Resdes.CheckAllCauses | resdes.go:106-112 | after the field checks, each path's causes are its old causes followed by one cause per failing field declared at it, in declaration order |
| Resdes.ExecCauses | resdes.go:97-119 | a run records for each path the custom function's causes first, then the failing fields' causes; merged, never lost |
| Resdes.CheckAllExtends | resdes.go:106-112 | checking fields only appends paths |
| Resdes.CheckAllMembership | resdes.go:106-112 | a path is listed after the checks iff it was listed before or some field declared at it fails |
| Resdes.CheckAllSplit | resdes.go:106-112 | checking a list of fields in two parts is checking it in one |
| Resdes.FirstFailureOrder | resdes.go:106-112 | take a failing field, and a later failing field whose path appears nowhere before it; the earlier field's path is listed before the later field's path |
| Resdes.DefaultMessageValidator.ForMessage | resdes.go:41-46 | no declarations, no custom function, and the mask set of the entries |
| Resdes.DefaultMessageValidator.Declare | resdes.go:48-82 | appends the field built by `NewField` against the validator's mask set; nothing else changes |
| Resdes.DefaultMessageValidator.AssertNonZero | resdes.go:49-52 | appends an always-checked NonZero field |
| Resdes.DefaultMessageValidator.AssertNotEqualTo | resdes.go:55-58 | appends an always-checked NotEqualTo field with its forbidden value |
| Resdes.DefaultMessageValidator.AssertEqualTo | resdes.go:61-64 | appends an always-checked MustEqual field with its expected value |
| Resdes.DefaultMessageValidator.AssertNonZeroWhenInMask | resdes.go:67-70 | appends a mask-conditioned NonZero field |
| Resdes.DefaultMessageValidator.AssertNotEqualToWhenInMask | resdes.go:73-76 | appends a mask-conditioned NotEqualTo field |
| Resdes.DefaultMessageValidator.AssertEqualToWhenInMask | resdes.go:79-82 | appends a mask-conditioned MustEqual field |
| Resdes.DefaultMessageValidator.CustomValidation | resdes.go:89-92 | replaces the custom function; declarations and mask are kept |
| Resdes.DefaultMessageValidator.ApplyCustomAdds | resdes.go:99-101 | the custom function's calls leave the list `AddAll(old list, calls)`, consistent |
| Resdes.DefaultMessageValidator.CheckFields | resdes.go:106-112 | the field loop leaves the list `CheckAll(old list, fields)`, consistent |
| Resdes.DefaultMessageValidator.Exec | resdes.go:97-119 | nil iff the run records nothing; otherwise a fresh, consistent aggregate holding exactly `ExecReport` |
| Resdes.Arrangement.Arrange | resdes.go:136-138 | no stage set |
| Resdes.Arrangement.WithAuth | resdes.go:141-144 | sets the auth stage only, and returns the receiver |
| Resdes.Arrangement.WithValidate | resdes.go:147-150 | sets the validate stage only, and returns the receiver |
| Resdes.Arrangement.WithServe | resdes.go:153-156 | sets the serve stage only, and returns the receiver |
| Resdes.Arrangement.Exec | resdes.go:163-193 | see the notes below the table |
| Resdes.EnvelopeReportsFailingStage | errors.go:133-143 | an envelope whose only set slot is one stage's, as `Arrangement.Exec` builds, reports that stage |
| Soldr.Merge | soldr.go:62-70 | a new path is appended; a listed path keeps its position with the cause joined after its own; no other entry changes; paths are only ever appended |
| Soldr.MergeCauses | soldr.go:62-70 | merging adds the causes after those already recorded for the path and changes no other path |
| Soldr.FaultsErr | soldr.go:39-48 | one cause per fault, in list order, each starting with "<path>: " |
| Soldr.FaultsErrAt | soldr.go:44-46 | cause `i` of `ToErr` is the path of fault `i`, then ": ", then the text of its error (`%!w(<nil>)` for a nil error) |
| Soldr.ValidationResult.constructor | soldr.go:32-37 | an empty, consistent aggregate |
| Soldr.ValidationResult.IndexAgrees | soldr.go:62-70 | in a consistent aggregate the paths are distinct, and the index holds exactly the listed paths at their position |
| Soldr.ValidationResult.AddErr | soldr.go:62-70 | the list becomes `Merge(old list, path, err)`, consistent |
| Soldr.ValidationResult.AppendFieldFault | soldr.go:54-56 | merges the given error |
| Soldr.ValidationResult.AppendFieldFaultErrStr | soldr.go:58-60 | merges a new error with the given text |
| Soldr.ValidationResult.ToErr | soldr.go:39-48 | the loop returns `FaultsErr` of the list |
| Soldr.Failed | soldr.go:50-52 | defined as: the aggregate is non-nil and lists at least one fault |
| Soldr.FailedIffErr | soldr.go:39-52 | the aggregate has failed iff its error is non-nil |
| Soldr.MaskSet | soldr.go:165-174 | nil exactly for no entries; otherwise exactly the entries as written |
| Soldr.GetPathsFromMask | soldr.go:165-174 | the loop builds `MaskSet(fieldMask)` |
| Soldr.IsFieldInMask | soldr.go:157-163 | true iff the mask is non-nil and contains the path exactly as written |
| Soldr.AddedErr | soldr.go:58-60 | a fault added by text is never nil |
| Soldr.CheckFieldsCauses | soldr.go:136-142 | after the field checks, each path's causes are its old causes then the failing fields' causes, in declaration order |
| Soldr.ApplyAddsCauses | soldr.go:144-146 | after the custom calls, each path's causes are its old causes then the calls' causes, in call order |
| Soldr.CheckFieldsExtends | soldr.go:136-142 | field checks only append paths |
| Soldr.ApplyAddsExtends | soldr.go:144-146 | custom calls only append paths |
| Soldr.ExecKeepsResult | soldr.go:135-155 | the kept aggregate never loses a path; each path's causes grow by the field failures, then the custom additions |
| Soldr.RunTwiceDoublesCauses | soldr.go:135-142 | the same checks run twice on one validator record every failure twice |
| Soldr.ExecErrCases | soldr.go:144-155 | a custom error is returned wrapped in place of the field faults; otherwise the error is nil iff the aggregate is empty |
| Soldr.DefaultMessageValidator.ForMessage | soldr.go:92-98 | a fresh empty aggregate, no declarations, and the mask set of the entries |
| Soldr.DefaultMessageValidator.Declare | soldr.go:100-128 | appends a field whose mask membership is looked up at declaration; nothing else changes |
| Soldr.DefaultMessageValidator.AssertNonZero | soldr.go:100-103 | appends an always-checked NonZero field |
| Soldr.DefaultMessageValidator.AssertNotEqualTo | soldr.go:105-108 | appends an always-checked NotEqualTo field |
| Soldr.DefaultMessageValidator.AssertEqualTo | soldr.go:110-113 | appends an always-checked MustEqual field |
| Soldr.DefaultMessageValidator.AssertNonZeroWhenInMask | soldr.go:115-118 | appends a mask-conditioned NonZero field |
| Soldr.DefaultMessageValidator.AssertNotEqualToWhenInMask | soldr.go:120-123 | appends a mask-conditioned NotEqualTo field |
| Soldr.DefaultMessageValidator.AssertEqualToWhenInMask | soldr.go:125-128 | appends a mask-conditioned MustEqual field |
| Soldr.DefaultMessageValidator.CustomValidation | soldr.go:130-133 | replaces the custom function only |
| Soldr.DefaultMessageValidator.CheckInto | soldr.go:136-142 | the field loop leaves `CheckFields(old list, fields, check)`, consistent |
| Soldr.DefaultMessageValidator.ApplyInto | soldr.go:144-146 | the custom calls leave `ApplyAdds(old list, calls)`, consistent |
| Soldr.DefaultMessageValidator.Exec | soldr.go:135-155 | the kept aggregate becomes `ExecFaults` of its old contents, and the returned error is `ExecErr` |
| Soldr.Arrangement.Arrange | soldr.go:190-192 | no stage set |
| Soldr.Arrangement.WithAuth | soldr.go:194-197 | sets the auth stage only |
| Soldr.Arrangement.WithValidate | soldr.go:199-202 | sets the validate stage only |
| Soldr.Arrangement.WithHandle | soldr.go:204-207 | sets the handle stage only |
| Soldr.Arrangement.Exec | soldr.go:209-231 | see the notes below the table |
| SoldrFault.ConfigFault | fault.go:21-26 | a ConfigLevel fault with no field |
| SoldrFault.FieldFault | fault.go:28-34 | a FieldLevel fault naming its field |
| SoldrFault.CustomFault | fault.go:36-41 | a CustomLevel fault with no field |
| SoldrFault.RequestFault | fault.go:43-48 | a RequestLevel fault with no field |
| SoldrFault.LevelsArePowersOfTwo | fault.go:13-19 | the levels are the increasing powers of two 1, 2, 4, 8, 16 |
| SoldrFault.SwapAdjacent | fault.go:66-68 | exchanges two neighbours and nothing else; a permutation |
| SoldrFault.InsertAt | fault.go:62-64 | extends the sorted prefix by one element; a permutation |
| SoldrFault.SortByType | fault.go:108 | the faults end in non-decreasing level and are a permutation of the input |
| SoldrFault.WriteSections | fault.go:109-126 | the loop writes exactly `Written(faults, typeName)` |
| SoldrFault.WrittenIsSections | fault.go:109-127 | the writing loop lays the faults out in sections by level, provided level names are non-empty and tell levels apart |
| SoldrFault.OneSectionPerLevel | fault.go:107-117 | after sorting, two section openers have different levels, so each level has one section |
| SoldrFault.ToError | fault.go:99-129 | nil for no faults; otherwise the faults are sorted in place (a permutation) and the error is the written sections plus the closing "]\n" |
| SoldrFault.ParseFieldNameFromPath | fault.go:133-143 | without a dot: parent "" and the whole path; with one: parent + "." + name is the path, and the name has no dot |
| SoldrProcessor.ByName | processor.go:70 | the first field with that name, and None iff no field has it |
| SoldrProcessor.ByJSONName | processor.go:73 | the first field with that JSON name, and None iff no field has it |
| SoldrProcessor.Lookup | processor.go:70-74 | a field matching by name or JSON name, and None iff none matches either way |
| SoldrProcessor.EntryFor | processor.go:75-87 | an entry is marked set only for an existing field that is set |
| SoldrProcessor.AsWrittenKey | processor.go:39-44 | segment `i`'s key is the path followed by `i` dots |
| SoldrProcessor.WalkKeepsEntries | processor.go:46-99 | the walk never changes an entry already cached |
| SoldrProcessor.WalkNewKeys | processor.go:39-44 | every key the walk adds is the path followed by dots |
| SoldrProcessor.WalkWithoutHits | processor.go:69-99 | with none of its keys cached, the walk answers as the uncached resolution does |
| SoldrProcessor.FirstCallResolves | processor.go:21-103 | a new processor's first answer is the uncached resolution |
| SoldrProcessor.AsWrittenOnlyAdds | processor.go:39-99 | an `isFieldSet` call keeps every cached entry and adds only keys "path" + dots, fewer dots than segments |
| SoldrProcessor.FieldProcessor.constructor | processor.go:21-25 | an empty cache |
| SoldrProcessor.FieldProcessor.IsFieldSet | processor.go:27-103 | answer and new cache are `IsFieldSetAsWritten`; false with the cache untouched for nil, "" and "." |
| SoldrProcessor.KeyCollision | processor.go:39-67 | a concrete well-formed message whose message field `b` is unset; a first call for "a.b." makes the call for "a.b" answer true although `b` is unset |
| SoldrProcessor.PrefixProcessor.constructor | processor.go:21-25 | an empty cache |
| SoldrProcessor.PrefixProcessor.Fetch | processor.go:46-87 | returns the uncached walk's entry for the segment, keeps the cache valid, and never changes a cached entry |
| SoldrProcessor.PrefixProcessor.IsFieldSet | processor.go:27-103 | with prefix keys: false for nil, "" and "."; otherwise the answer is the uncached resolution; the cache stays valid and keeps its entries |
| SoldrProcessor.EmptyCacheValid | processor.go:21-25 | a new processor's cache is valid for every message |
| SoldrTrait.Traitless | trait.go:27-31 | a NoTraits trait without links |
| SoldrTrait.NotZeroTrait | trait.go:33-37 | a NotZero trait without links |
| SoldrTrait.ValidValue | trait.go:49-60 | true iff the value's dynamic type is a predeclared boolean, string or numeric type |
| SoldrTrait.IsCompoundTrait | trait.go:62-68 | defined as: the trait type is neither Unspecified nor NoTraits |
| SoldrTrait.NotEqualTrait | trait.go:39-47 | fails with "cannot compare non-primitive types" iff the value is not primitive; otherwise a link-less NotEqual trait holding the value |
| SoldrTrait.ConstructedTraitsCompound | trait.go:62-68 | Traitless and Unspecified traits are not compound; the other constructed traits are |
| SoldrTrait.TraitNode.constructor | trait.go:15-25 | a trait node with the given type and value and no links |
| SoldrTrait.TraitNode.LinkAnd | trait.go:70-76 | a compound trait gets the AND link; any other trait is unchanged; returns the receiver |
| SoldrTrait.TraitNode.LinkOr | trait.go:108-114 | a compound trait gets the OR link; any other trait is unchanged; returns the receiver |
| SoldrTrait.TraitNode.SetAnd | trait.go:82-85 | sets the AND link whatever the type; nothing else changes |
| SoldrTrait.TraitNode.SetOr | trait.go:91-94 | sets the OR link whatever the type; nothing else changes |
| SoldrTrait.TraitlessTakesNoLinks | trait.go:62-76 | `and` and `or` on a traitless trait leave it without links |
| SoldrTrait.LinkedChain | trait.go:70-114 | on a compound trait the last `and` wins and leaves the OR link alone |
| SoldrTrait.FaultString | trait.go:116-121 | the not-zero message iff the type is NotZero, otherwise the not-equal message |
| SoldrTrait.Valid | trait.go:104-106 | defined as: the trait is present (a non-nil pointer) |
| SoldrPolicy.AssertSubjectTraits | propolicy.go:57-80 | the walk yields nil or a single error |
| SoldrPolicy.FaultNamesMissingTrait | propolicy.go:57-80 | a failure is the fault text of a trait in the chain that the subject lacks |
| SoldrPolicy.AllTraitsPass | propolicy.go:57-80 | a subject with every trait of the chain passes |
| SoldrPolicy.OtherLinkIgnored | propolicy.go:62-79 | see the notes below the table |
| SoldrPolicy.EvaluateSubject | propolicy.go:31-55 | see the notes below the table |
| SoldrPolicy.RunAction | propolicy.go:96-119 | the same condition gating as `EvaluateSubject`, then the action's error as a fault on the subject |
| SoldrPolicy.ActionPolicyIsTraitless | propolicy.go:89-119 | with an action that succeeds, an action policy decides as a policy with no traits does |

Notes on the longer contracts:
- **`Resdes.Arrangement.Exec`** (resdes.go:163-193):
  - The stages run in order, and none runs after the first one that fails.
  - The failing stage fills only its own slot of a fresh envelope.
  - A validation failure stores the fresh aggregate holding `ExecReport`.
  - A serve failure returns Serve's result with the envelope.
  - A returned envelope reports the last stage that ran.
  - On success the envelope is nil and the result is Serve's.
- **`Soldr.Arrangement.Exec`** (soldr.go:209-231):
  - An auth error is returned, and the validator's aggregate is unchanged.
  - Otherwise, if a validator is set, its aggregate takes one `Exec` step, and a non-nil validation error is returned.
  - Otherwise the result is what Handle returns.
  - The ghost `ran` lists exactly the stages run.
- **`SoldrPolicy.OtherLinkIgnored`** (propolicy.go:62-79): when the subject has a trait, changing the trait's OR link does not change the outcome. When it lacks the trait, changing the AND link does not change it.
- **`SoldrPolicy.EvaluateSubject`** (propolicy.go:31-55):
  - A condition error is a fault on the subject.
  - When the condition says not to go on, the subject passes.
  - Otherwise there is a fault iff the trait walk fails, and it carries the walk's error.

## Left out
- The gRPC status conversion (`ToGrpcStatus`), the envelope helpers of `envelope.go` and `context.Context` are not part of this model.
  - Callbacks see only the message.
- `fmt` formatting of values (`%v`) is not modelled. A field failure's text names the field and the sentinel message but not the values.
  - `FieldError` still carries the value and the expected value.
- ResdesField.CheckEquals: `cmp.Equal` is structural equality of the `Value` datatype. Floating-point values are compared by bit pattern, so NaN and negative zero are not treated as Go treats them.
- ResdesMask.NormalizePath: upper-casing is ASCII only. `unicode.ToUpper` on other letters is not modelled.
- Resdes.CustomError: only a custom function that returns the aggregate itself is recognised as "returning the collector". An error that wraps the aggregate (which `errors.Is` would also match) counts as a custom error.
- ResdesErrors.ApplyOptions: only the two options the package defines (`WithValue`, `WithExpectedValue`) are modelled. A caller-written option, which may change any field of the entry, is not.
- Resdes.ExecReport: a custom function acts on the aggregate only through `AddFieldErr` calls and `SetCustomValidationErr`, of which the last call counts. Direct edits of the exported `FieldErrors` slice are not modelled, and neither are other method calls that change the aggregate.
- Resdes.Arrangement.Exec: the Validate stage is a `DefaultMessageValidator`. Other implementations of the `MessageValidator` interface are not modelled.
- ResdesErrors.Error.SetAuthError: setting a nil auth or serve error yields a wrapper whose text would panic in Go. The model stores the nil cause list.
  - Nil receivers of the aggregate's methods (other than `Error()` and `AsMap`, which are modelled) are not modelled.
- Soldr.DefaultMessageValidator.Exec: soldr's `Field`, `NewField` and `Field.Validate` are not part of the modelled files.
  - A declared field's check is a function parameter.
  - Its `ID()` is taken to be its path.
  - soldr's assertion and condition names are declared locally.
- `FaultType.String` and the `Format`/JSON options of the fault handler are not part of the modelled files. The level naming is a parameter of `ToError`.
- SoldrFault.ToError: section headers are lower-cased ASCII only. `strings.ToLower` on other letters is not modelled.
- Soldr.Arrangement.Exec: the Validate stage is a `DefaultMessageValidator`. Other implementations of the `MessageValidator` interface are not modelled.
- SoldrFault.ToError requires every fault's error to be non-nil, because the Go code calls `Err.Error()` and would panic on nil.
  - The faults are a Dafny array of values; sharing of `*Fault` pointers is not modelled.
  - The sort's order among faults of one level is left open, since `sort.Sort` is not stable.
- SoldrProcessor.PrefixProcessor.IsFieldSet: its agreement theorem assumes every call uses the same message and a well-formed tree (`Proper`).
  - Protobuf reflection is an explicit tree of descriptors.
  - On a path that continues past a scalar field, Go panics at `Value.Message()`; the model answers false.
- SoldrTrait.TraitNode.LinkAnd: the trait chains a policy evaluates are the `Trait` datatype. Turning a graph of `TraitNode`s (possibly cyclic) into that value is not modelled.
  - The getters `GetAnd`, `GetOr`, `Type` and `NotEqualTo` are plain field reads.
- SoldrPolicy.AssertSubjectTraits: a missing link is the only trait for which `Valid()` is false.
  - The subject's `HasTrait` is a predicate on trait values, and its `ID` is a string.
  - In the source, `Or()`/`And()` are called as getters but declared as setters. They are read here as the links.

## Findings

| source | as written | input that shows it | evidently intended | confidence | as-written member | corrected member |
|---|---|---|---|---|---|---|
| processor.go:39-44 | the cache key of segment `i` is the whole path followed by `i` dots, so different paths share keys | message with field `a` set, holding a message whose message field `b` is unset; call `isFieldSet("a.b.")` and then `isFieldSet("a.b")`: the second call finds `a`'s entry under key "a.b." for segment `b` and answers true | each segment keyed by the path prefix ending at it, so that a cached answer equals the uncached one | not executed | SoldrProcessor.KeyCollision | SoldrProcessor.PrefixProcessor.IsFieldSet |
