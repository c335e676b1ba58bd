# Dynamic Form Builder — a verified model of its core

The Dynamic Form Builder is a single-page application for building forms.
Authors assemble a form schema: fields of seven kinds, each with a label,
a default value, options, validation rules and an optional *derived*
configuration. A derived field has parent fields and a formula that
computes its value. Schemas are saved to a list of saved forms. The
preview page then fills in a schema: it seeds values from the defaults,
recomputes derived fields whenever values change, validates each change,
and validates the whole form on submit.

This project models that core in Dafny:

| file | module | what it holds |
|---|---|---|
| `wrappers.dfy` | `Wrappers` | `Option` |
| `text_ops.dfy` | `TextOps` | JavaScript `trim`, its whitespace set, and decimal rendering of numbers in messages |
| `form_types.dfy` | `FormTypes` | the schema's data types, and `findIndex` by id |
| `validation.dfy` | `Validation` | `validateValue`: the `Messages` specification, the imperative `ValidateValue`, and the laws of the rules |
| `form_slice.dfy` | `FormSlice` | the store: the `FormStore` class with one method per reducer, and the list edits behind them |
| `preview_form.dfy` | `PreviewForm` | the preview session: initial values, the derived-recompute pass, `handleChange`, `handleSubmit` |
| `field_editor.dfy` | `FieldEditor` | each editor control as a function from the local field to the next one |
| `create_form.dfy` | `CreateForm` | the new field, the save guard with save-then-reset, and the move guards |

Values are a small JavaScript value universe:
`Str | Num | Bool | Null | Undefined | Arr`.
The formula evaluator is a parameter of type
`(formula, parentMap) -> Option<Value>`, where `None` means it threw.
Fresh ids (uuid) and timestamps are also passed in as parameters.

## Model

| member | source | states |
|---|---|---|
| `TextOps.TrimStart` | frontend/src/store/formSlice.ts:55 | the result is a suffix of the input, starts with a non-whitespace character, and only whitespace was dropped |
| `TextOps.TrimEnd` | frontend/src/store/formSlice.ts:55 | the result is a prefix of the input, ends with a non-whitespace character, and only whitespace was dropped |
| `TextOps.Trim` | frontend/src/store/formSlice.ts:55 | `trim()` never lengthens the string, leaves no whitespace at either end, and gives `''` exactly for an all-whitespace string |
| `TextOps.TrimShape` | frontend/src/store/formSlice.ts:55 | `trim()` gives the middle of the string between two whitespace runs, with no whitespace at either end |
| `TextOps.TrimEmptyIffAllSpace` | frontend/src/pages/CreateForm.tsx:41 | a name trims to `''` exactly when it is all whitespace |
| `TextOps.TrimIdempotent` | frontend/src/store/formSlice.ts:55 | trimming twice is trimming once |
| `TextOps.NatToString` | frontend/src/utils/validation.ts:16 | the interpolated number is a non-empty string of decimal digits with no leading zero |
| `TextOps.NatToStringRoundTrip` | frontend/src/utils/validation.ts:16 | reading the rendered digits back gives the number |
| `TextOps.IntToStringShape` | frontend/src/utils/validation.ts:16-19 | an interpolated bound starts with `-` exactly when negative, and the digits after it read back as its magnitude |
| `TextOps.IntToStringInjective` | frontend/src/utils/validation.ts:16-19 | different bounds render as different text |
| `FormTypes.FindIndex` | frontend/src/store/formSlice.ts:41 | `findIndex` returns the first index holding the id, or -1 exactly when no field has it |
| `Validation.Coalesce` | frontend/src/utils/validation.ts:7 | `value ?? ''` turns null and undefined into `''` and leaves every other value as it is |
| `Validation.MissingValueIsEmptyString` | frontend/src/utils/validation.ts:7 | null and undefined get exactly the messages `''` gets, under every rule set |
| `Validation.IsBlank` | frontend/src/utils/validation.ts:10 | a string is blank iff empty, an array iff empty, and a boolean or number never |
| `Validation.Enforced` | frontend/src/utils/validation.ts:15-18 | a length bound is checked iff it is present and non-zero (JavaScript truthiness of a number) |
| `Validation.HasDigit` | frontend/src/utils/validation.ts:27 | the scan for `\d` succeeds iff some character is an ASCII digit |
| `Validation.MatchesEmail` | frontend/src/utils/validation.ts:22-23 | an accepted address has no whitespace and at least five characters; its exact language is stated by `EmailMatchSpec` |
| `Validation.EmailMatchSpec` | frontend/src/utils/validation.ts:22-23 | the executable email test accepts exactly the strings with no whitespace and some `@`, then `.`, each with at least one character before it and after the dot |
| `Validation.Messages` | frontend/src/utils/validation.ts:3-31 | no rule set gives no messages; at most five messages; a non-string value gets either nothing or only the required message |
| `Validation.ValidateValue` | frontend/src/utils/validation.ts:3-31 | the push-and-return procedure yields exactly `Messages` |
| `Validation.MinRank` | frontend/src/utils/validation.ts:16 | a minimum-length message is the first kind in the checking order |
| `Validation.MaxRank` | frontend/src/utils/validation.ts:19 | a maximum-length message is the second kind in the checking order |
| `Validation.FixedRanks` | frontend/src/utils/validation.ts:11-27 | the email, password-length, password-digit and required messages have ranks 2 to 5 |
| `Validation.RankedAppend` | frontend/src/utils/validation.ts:15-28 | appending messages of later rank keeps the list in checking order |
| `Validation.PartRanks` | frontend/src/utils/validation.ts:15-28 | every message a string check produces carries that check's rank |
| `Validation.MessagesOrdered` | frontend/src/utils/validation.ts:15-28 | messages always appear in rule order (min, max, email, password length, password digit) with no kind repeated |
| `Validation.PartsOrdered` | frontend/src/utils/validation.ts:15-28 | the five string checks' messages, concatenated in checking order, are ranked |
| `Validation.MinLengthMessageInjective` | frontend/src/utils/validation.ts:16 | equal minimum messages name equal bounds |
| `Validation.MaxLengthMessageInjective` | frontend/src/utils/validation.ts:19 | equal maximum messages name equal bounds |
| `Validation.StringMessagesByRank` | frontend/src/utils/validation.ts:15-28 | each message about a string comes from the one check of its rank |
| `Validation.RequiredIff` | frontend/src/utils/validation.ts:9-14 | the required message appears iff the rules say required and the value is blank, and it then appears alone |
| `Validation.RequiredAcceptsFalseZeroAndNonEmptyList` | frontend/src/utils/validation.ts:10 | `false`, `0` and a non-empty array pass every rule set, required included |
| `Validation.MinLengthIff` | frontend/src/utils/validation.ts:15-17 | the minimum message for `m` appears iff `m` is the set, non-zero minimum and the string is shorter |
| `Validation.MaxLengthIff` | frontend/src/utils/validation.ts:18-20 | the maximum message for `n` appears iff `n` is the set, non-zero maximum and the string is longer |
| `Validation.MinAboveMaxGivesBoth` | frontend/src/utils/validation.ts:15-20 | a minimum above the maximum is accepted, and a string between them gets both messages |
| `Validation.LengthWindow` | frontend/src/utils/validation.ts:15-20 | a string whose length is within the bounds passes; one character too short or too long gets exactly that message |
| `Validation.ZeroBoundIsAbsent` | frontend/src/utils/validation.ts:15-18 | a bound of 0 is falsy and behaves exactly like no bound |
| `Validation.EmailIff` | frontend/src/utils/validation.ts:21-24 | the email message appears iff the rule is on and the string lacks the `x@y.z` shape |
| `Validation.PasswordIff` | frontend/src/utils/validation.ts:25-28 | the two password messages fire independently: under 8 characters, and no digit |
| `Validation.PasswordExamples` | frontend/src/utils/validation.ts:25-28 | "abc" fails both password checks, "abcdefgh" only the digit check, "abcdefg1" neither |
| `Validation.EmailExamples` | frontend/src/utils/validation.ts:21-24 | "a@b.com" passes the email rule and "not-an-email" fails it |
| `FormSlice.Draft` | frontend/src/store/formSlice.ts:27-32 | the reset draft has the given id and time, an empty name and no fields |
| `FormSlice.SaveName` | frontend/src/store/formSlice.ts:55 | the saved name is never empty and is already trimmed; it is the trimmed input, or "Untitled Form" when that is empty |
| `FormSlice.UntitledIsTrimmed` | frontend/src/store/formSlice.ts:55 | the fallback name has no surrounding whitespace |
| `FormSlice.Saved` | frontend/src/store/formSlice.ts:56-61 | the saved copy keeps the draft's fields, takes the save name and time, and keeps the draft's id unless it is empty |
| `FormSlice.SaveKeepsDraftId` | frontend/src/store/formSlice.ts:60 | two saves of one draft without a reset in between store the same id |
| `FormSlice.ReplaceFirstById` | frontend/src/store/formSlice.ts:40-43 | updating keeps the length and changes only the field at `findIndex`; every other position keeps its field |
| `FormSlice.ReplaceAtFoundIndex` | frontend/src/store/formSlice.ts:40-43 | the update is the assignment at the found index, and a no-op for an unknown id |
| `FormSlice.ReplaceKeepsUniqueIds` | frontend/src/store/formSlice.ts:40-43 | updating keeps field ids unique |
| `FormSlice.WithoutId` | frontend/src/store/formSlice.ts:44-46 | after removal, exactly the fields with another id remain, and the list never grows |
| `FormSlice.WithoutIdConcat` | frontend/src/store/formSlice.ts:45 | removal distributes over concatenation, so the kept fields stay in order |
| `FormSlice.WithoutAbsentId` | frontend/src/store/formSlice.ts:45 | removing an id no field has changes nothing |
| `FormSlice.WithoutIdKeepsUniqueIds` | frontend/src/store/formSlice.ts:45 | removal keeps field ids unique |
| `FormSlice.MovedAt` | frontend/src/store/formSlice.ts:51-52 | after the two splices, each position holds the element from a computed old position |
| `FormSlice.Moved` | frontend/src/store/formSlice.ts:51-52 | the splice pair is a permutation that puts the moved field at `to` |
| `FormSlice.MovedInverse` | frontend/src/store/formSlice.ts:51-52 | moving from `to` back to `from` undoes a move |
| `FormSlice.MovedAdjacentSwap` | frontend/src/store/formSlice.ts:51-52 | a move by one position swaps two neighbours |
| `FormSlice.MovedKeepsUniqueIds` | frontend/src/store/formSlice.ts:51-52 | a reorder keeps field ids unique |
| `FormSlice.FormStore.constructor` | frontend/src/store/formSlice.ts:12-20 | the initial state is a fresh empty draft plus the persisted forms |
| `FormSlice.FormStore.ResetCurrentForm` | frontend/src/store/formSlice.ts:26-33 | the draft becomes an empty draft with a fresh id; saved forms are untouched |
| `FormSlice.FormStore.SetCurrentForm` | frontend/src/store/formSlice.ts:34-36 | the draft becomes the given schema; saved forms are untouched |
| `FormSlice.FormStore.AddField` | frontend/src/store/formSlice.ts:37-39 | the field is appended and nothing else changes; a field with a new id keeps ids unique |
| `FormSlice.FormStore.UpdateField` | frontend/src/store/formSlice.ts:40-43 | the first field with that id is replaced, or nothing changes; ids stay unique |
| `FormSlice.FormStore.RemoveField` | frontend/src/store/formSlice.ts:44-46 | every field with that id is removed; ids stay unique |
| `FormSlice.FormStore.ReorderFields` | frontend/src/store/formSlice.ts:47-53 | an in-range request moves the field and anything else is a no-op; ids stay unique |
| `FormSlice.FormStore.SaveForm` | frontend/src/store/formSlice.ts:54-64 | one copy of the draft is appended to the saved forms; the draft stays as it was |
| `PreviewForm.Lookup` | frontend/src/pages/PreviewForm.tsx:62 | reading a present key gives its value, a missing key reads as undefined |
| `PreviewForm.DefaultOf` | frontend/src/pages/PreviewForm.tsx:32 | a present default is kept; a missing one becomes `false` for a checkbox and `''` otherwise; never null or undefined |
| `PreviewForm.InitialValues` | frontend/src/pages/PreviewForm.tsx:29-35 | the loop builds one key per field id, and each key holds the default of the last field with that id |
| `PreviewForm.InitialMapStep` | frontend/src/pages/PreviewForm.tsx:31-33 | one more write keeps the description of the initial map, the new field now being the last with its id |
| `PreviewForm.LastIndexOf` | frontend/src/pages/PreviewForm.tsx:31-33 | locates the field whose write to a key survives the loop, or says no field has that id |
| `PreviewForm.InitialMapDetermined` | frontend/src/pages/PreviewForm.tsx:29-35 | the description of the initial values determines the map uniquely |
| `PreviewForm.InitialMapOfUniqueFields` | frontend/src/pages/PreviewForm.tsx:32 | with unique ids each field starts at its own default: `false` for a checkbox without one, `''` otherwise |
| `PreviewForm.EffectiveFormula` | frontend/src/pages/PreviewForm.tsx:43 | an empty formula is replaced by the literal `""`; a non-empty one is passed as it is |
| `PreviewForm.ParentMap` | frontend/src/pages/PreviewForm.tsx:41-42 | the parent map has exactly the parent ids as keys, each holding that id's current value or undefined |
| `PreviewForm.EvalDerived` | frontend/src/pages/PreviewForm.tsx:10-20 | a throwing evaluation yields `''`; otherwise its result is passed through |
| `PreviewForm.EmptyFormulaGivesEmptyString` | frontend/src/pages/PreviewForm.tsx:43 | a derived field with an empty formula gets the evaluation of `""`; given an evaluator that yields `''` for `""` or throws, it becomes `''` |
| `PreviewForm.DerivedReadsOnlyParents` | frontend/src/pages/PreviewForm.tsx:41-43 | a derived value depends only on the values of its parents |
| `PreviewForm.DerivedValue` | frontend/src/pages/PreviewForm.tsx:41-43 | defined as the formula (or `""`) evaluated over the parent map; see `EmptyFormulaGivesEmptyString`, `DerivedReadsOnlyParents` and `PassComputes` |
| `PreviewForm.RecomputeDerived` | frontend/src/pages/PreviewForm.tsx:37-49 | the effect's loop computes `Pass`: each active field is written from the values before the pass |
| `PreviewForm.Pass` | frontend/src/pages/PreviewForm.tsx:38-46 | defined as the fold of the forEach over the fields, reading parents from the pre-pass map; see `PassKeys`, `PassKeepsOthers`, `PassComputes` |
| `PreviewForm.PassKeys` | frontend/src/pages/PreviewForm.tsx:38-46 | the pass adds exactly the ids of the derived fields that have parents |
| `PreviewForm.PassKeepsOthers` | frontend/src/pages/PreviewForm.tsx:40 | values of plain fields, and of derived fields without parents, are untouched |
| `PreviewForm.PassComputes` | frontend/src/pages/PreviewForm.tsx:42-44 | each derived field with parents gets its formula's result over its parents' pre-pass values |
| `PreviewForm.PassOrderIndependent` | frontend/src/pages/PreviewForm.tsx:37-49 | with unique ids, the order of the fields does not change a pass's result |
| `PreviewForm.SubmitErrorsKeys` | frontend/src/pages/PreviewForm.tsx:61-67 | the submit error map's keys are exactly the ids of the failing fields |
| `PreviewForm.SubmitErrors` | frontend/src/pages/PreviewForm.tsx:59-67 | defined as the fold of the submit forEach, each failing field writing its messages; see `SubmitErrorsKeys`, `SubmitErrorsAt` |
| `PreviewForm.SubmitErrorsAt` | frontend/src/pages/PreviewForm.tsx:62-66 | a failing field's entry holds its own messages |
| `PreviewForm.SubmitErrorsOfUniqueFields` | frontend/src/pages/PreviewForm.tsx:58-69 | with unique ids every failing field's messages are recorded, and the map is empty iff no field fails |
| `PreviewForm.MissingKeyValidatesAsEmpty` | frontend/src/pages/PreviewForm.tsx:62 | a field whose id has no value yet is validated as `''` |
| `PreviewForm.CollectErrors` | frontend/src/pages/PreviewForm.tsx:59-67 | the loop builds the submit error map, and `ok` holds iff that map is empty |
| `PreviewForm.FormSession.constructor` | frontend/src/pages/PreviewForm.tsx:25-35 | binding a schema starts at the initial values with no errors |
| `PreviewForm.FormSession.Recompute` | frontend/src/pages/PreviewForm.tsx:37-49 | one run of the effect replaces the values by the pass over them |
| `PreviewForm.FormSession.HandleChange` | frontend/src/pages/PreviewForm.tsx:51-56 | only this id's value and this id's error entry change; the entry is the messages of the first field with the id |
| `PreviewForm.FormSession.HandleSubmit` | frontend/src/pages/PreviewForm.tsx:58-71 | errors become the submit error map, and the values are submitted iff no field fails |
| `FieldEditor.Update` | frontend/src/components/FieldEditor.tsx:26-30 | each attribute the partial update sets is overwritten; every other attribute is kept |
| `FieldEditor.UpdateLaws` | frontend/src/components/FieldEditor.tsx:26-30 | an empty update changes nothing, a whole one replaces the field, two updates equal one merged update, and an update is idempotent |
| `FieldEditor.EditBasic` | frontend/src/components/FieldEditor.tsx:52-64 | the label, type and default inputs change only their own attribute; the default becomes the typed string |
| `FieldEditor.SetRequired` | frontend/src/components/FieldEditor.tsx:60 | the Required switch, as written, changes only the field's own `required` flag |
| `FieldEditor.RequiredSwitchNotEnforced` | frontend/src/components/FieldEditor.tsx:60 | after the switch is turned on, an empty value still gets no required message |
| `FieldEditor.SetRequiredEnforced` | frontend/src/components/FieldEditor.tsx:60 | the corrected switch sets both the flag and the rule set's `required`, and changes nothing else |
| `FieldEditor.RequiredSwitchEnforced` | frontend/src/utils/validation.ts:9-14 | with the corrected switch on, every blank value gets exactly the required message; with it off, never |
| `FieldEditor.OptionLabel` | frontend/src/components/FieldEditor.tsx:33 | the label is `Option ` followed by digits that read back as the number |
| `FieldEditor.AddOption` | frontend/src/components/FieldEditor.tsx:32-35 | appends one option labelled `Option k`, where k is the new count; nothing else changes |
| `FieldEditor.DropIndex` | frontend/src/components/FieldEditor.tsx:38 | filtering out index `i` shifts the later entries down by one, and an out-of-range index keeps the list |
| `FieldEditor.RemoveOptionAt` | frontend/src/components/FieldEditor.tsx:37-40 | only the options change, by dropping index `i` |
| `FieldEditor.SetOptionAt` | frontend/src/components/FieldEditor.tsx:42-46 | only option `i` changes, and the count stays the same |
| `FieldEditor.SetDerivedEnabled` | frontend/src/components/FieldEditor.tsx:100-104 | on installs an empty configuration, off clears it; nothing else changes |
| `FieldEditor.Dedup` | frontend/src/components/FieldEditor.tsx:116-119 | the `Set` round trip lists each parent once and keeps the same members (order is stated only through `DedupOfNoDups` and `TogglePresence`) |
| `FieldEditor.DedupOfNoDups` | frontend/src/components/FieldEditor.tsx:116-119 | a list without duplicates survives the `Set` round trip unchanged, order included |
| `FieldEditor.RemoveAll` | frontend/src/components/FieldEditor.tsx:117 | deleting an id drops exactly that id, and a list without duplicates stays without |
| `FieldEditor.RemoveAllAppended` | frontend/src/components/FieldEditor.tsx:117-118 | deleting the id just appended gives back the list |
| `FieldEditor.TogglePresence` | frontend/src/components/FieldEditor.tsx:115-119 | a chip click flips exactly that id's membership, appends it when new, and leaves each parent listed once |
| `FieldEditor.ToggleTwice` | frontend/src/components/FieldEditor.tsx:115-119 | clicking a new chip twice restores the parent list |
| `FieldEditor.ToggleParent` | frontend/src/components/FieldEditor.tsx:115-120 | the chip click changes only the derived parents |
| `FieldEditor.SetFormula` | frontend/src/components/FieldEditor.tsx:129 | the formula input changes only the formula |
| `FieldEditor.ParentCandidates` | frontend/src/components/FieldEditor.tsx:108 | the chips offered are exactly the other fields |
| `FieldEditor.NeverOwnParent` | frontend/src/components/FieldEditor.tsx:108-120 | clicking an offered chip never makes a field its own parent |
| `FieldEditor.EditValidation` | frontend/src/components/FieldEditor.tsx:69-82 | each rule input changes only its own rule, keeps the other rules, and turns a missing rule set into one |
| `CreateForm.NewField` | frontend/src/pages/CreateForm.tsx:15-24 | a new field is a text field labelled "New Field" with an empty default, no options, an empty rule set and no derivation |
| `CreateForm.NewFieldIsPlain` | frontend/src/pages/CreateForm.tsx:15-24 | a new field accepts every value, is never recomputed, and starts as `''` in the preview |
| `CreateForm.HandleAdd` | frontend/src/pages/CreateForm.tsx:14-26 | Add Field appends the new field to the draft |
| `CreateForm.HandleSave` | frontend/src/pages/CreateForm.tsx:40-45 | a blank name changes nothing; otherwise the draft is saved under the trimmed name and replaced by a fresh empty draft |
| `CreateForm.SaveTwice` | frontend/src/pages/CreateForm.tsx:40-45 | two saves from the page store two entries with different ids, given fresh ids from the generator |
| `CreateForm.MoveUpRequest` | frontend/src/pages/CreateForm.tsx:66 | Up issues a request iff the field is not first, moving it one place up |
| `CreateForm.MoveDownRequest` | frontend/src/pages/CreateForm.tsx:67 | Down issues a request iff the field is not last, moving it one place down |
| `CreateForm.MoveRequestsInRange` | frontend/src/pages/CreateForm.tsx:66-67 | every request the guards issue is in range, so the reducer never ignores one |
| `CreateForm.MoveUp` | frontend/src/pages/CreateForm.tsx:66 | Up swaps the field with the one above, or does nothing for the first field |
| `CreateForm.MoveDown` | frontend/src/pages/CreateForm.tsx:67 | Down swaps the field with the one below, or does nothing for the last field |

## Left out

- `evalDerived`'s body builds a JavaScript function from the formula text. That is outside any model here, so the evaluator is a parameter. Only its catch-to-`''` wrapper is modelled.
- Persistence: reading and writing localStorage, JSON encoding, and the `loadSavedForms` reducer. The store's constructor takes the persisted list as a parameter.
- `uuidv4()` and `new Date().toISOString()` are parameters (`draftId`, `freshId`, `now`).
- React is left out: rendering, `key`s, and when effects re-run. The effect that re-runs on `values` is modelled as one pass per call of `Recompute`. Repeating it until it settles is left to the caller.
- `alert` messages are left out. The submit alert with the JSON of the values is modelled as `HandleSubmit` returning the values.
- `frontend/src/App.tsx` and `frontend/src/pages/MyForms.tsx` are not part of this model. That includes which schema the preview page binds to (PreviewForm.tsx:25): the session's constructor takes the schema.
- Numbers are mathematical integers. Fractional bounds, `NaN` from a non-numeric bound input and floating-point lengths are not modelled. The bound inputs arrive as `Option<int>`, with an empty input as `None`.
- String lengths count Dafny characters, not UTF-16 code units, so lengths differ for characters outside the Basic Multilingual Plane.
- Absent and `null` optional attributes are one case (`None`), and so are absent options and `[]`. The source treats them the same everywhere in this core.
- `PreviewForm.FormSession.HandleChange` requires the id to be a field of the schema. The source dereferences the result of `find` with `!`, so an unknown id throws there.
- `FieldEditor.SetOptionAt` requires an index inside the options. Writing past the end of a JavaScript array leaves holes, which the model has no value for. The editor only offers existing indices.
- `PreviewForm.FormSession.HandleChange` also overwrites derived fields when asked. The disabled inputs that stop this in the page are rendering. For a derived field with at least one parent the next `Recompute` writes the computed value again; a derived field with no parents is skipped by the pass (PreviewForm.tsx:40) and keeps the overwritten value.
- `FieldEditor.ParentCandidates` is modelled through the same filter as the store's `removeField`, with the chip's rendering left out.
- `FieldEditor.TogglePresence` models `Set` insertion order: deduplicated first occurrences, then the new id. This is stated directly, not by simulating a hash set.
- The editor's local-copy resync (`useEffect(() => setLocal(field), [field])`) and its `onChange` callback are the caller's business. Each edit function returns the next field, which is what `onChange` receives.

## Findings

| source | as written | input that shows it | evidently intended | confidence | as-written member | corrected member |
|---|---|---|---|---|---|---|
| frontend/src/components/FieldEditor.tsx:60 | the Required switch sets the field's own `required` flag, but `validateValue` reads only `validations.required` | a field with rules `{}`: turn Required on, leave the value `''`; submitting shows no error | the switch also sets `validations.required`, so a blank required field is rejected | not executed | `FieldEditor.RequiredSwitchNotEnforced` | `FieldEditor.RequiredSwitchEnforced` |
