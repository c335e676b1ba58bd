/**
 * The form session behind the preview page: the value map seeded from the
 * schema's defaults, the pass that recomputes derived fields, per-field
 * validation on change, and the whole-form check on submit.
 */
module PreviewForm {
  import opened Wrappers
  import opened FormTypes
  import opened Validation

  type ValueMap = map<string, Value>
  type ErrorMap = map<string, seq<string>>

  /**
   * The formula evaluator, taken as given: it receives the formula text and
   * the parent values by id, and yields a value or `None` when it throws.
   */
  type Evaluator = (string, ValueMap) -> Option<Value>

  /** `values[k]`: a present key reads its value, a missing key reads as undefined. */
  function Lookup(values: ValueMap, k: string): (v: Value)
    ensures k in values ==> v == values[k]
    ensures k !in values ==> v.Undefined?
  {
    if k in values then values[k] else Undefined
  }

  /** `f.defaultValue ?? (f.type === 'checkbox' ? false : '')` */
  function DefaultOf(f: FormField): (v: Value)
    ensures !v.Null? && !v.Undefined?
    ensures !(f.defaultValue.Null? || f.defaultValue.Undefined?) ==> v == f.defaultValue
    ensures (f.defaultValue.Null? || f.defaultValue.Undefined?) && f.kind == Checkbox ==> v == Bool(false)
    ensures (f.defaultValue.Null? || f.defaultValue.Undefined?) && f.kind != Checkbox ==> v == Str("")
  {
    if f.defaultValue.Null? || f.defaultValue.Undefined? then
      (if f.kind == Checkbox then Bool(false) else Str(""))
    else f.defaultValue
  }

  /** No later field shares the id of field `i` (a later write to the same key wins). */
  predicate LastWithId(fields: seq<FormField>, i: nat)
    requires i < |fields|
  {
    forall j :: i < j < |fields| ==> fields[j].id != fields[i].id
  }

  /** `m` is the map the initial-values pass builds: one key per field id, holding that field's default. */
  ghost predicate IsInitialMap(fields: seq<FormField>, m: ValueMap) {
    && m.Keys == IdsOf(fields)
    && forall i :: 0 <= i < |fields| && LastWithId(fields, i) ==> m[fields[i].id] == DefaultOf(fields[i])
  }

  /** The initial-values effect: one write per field, in schema order. */
  method InitialValues(fields: seq<FormField>) returns (initial: ValueMap)
    ensures IsInitialMap(fields, initial)
  {
    initial := map[];
    var i := 0;
    while i < |fields|
      invariant 0 <= i <= |fields|
      invariant IsInitialMap(fields[..i], initial)
    {
      var f := fields[i];
      InitialMapStep(fields[..i], initial, f);
      initial := initial[f.id := DefaultOf(f)];
      assert fields[..i + 1] == fields[..i] + [f];
      i := i + 1;
    }
    assert fields[..|fields|] == fields;
  }

  /** One more write keeps the description: the new field is now the last with its id. */
  lemma InitialMapStep(prefix: seq<FormField>, m: ValueMap, f: FormField)
    requires IsInitialMap(prefix, m)
    ensures IsInitialMap(prefix + [f], m[f.id := DefaultOf(f)])
  {
    var pre, next := prefix + [f], m[f.id := DefaultOf(f)];
    assert IdsOf(pre) == IdsOf(prefix) + {f.id} by {
      assert forall g :: g in pre <==> g in prefix || g == f;
    }
    forall p | 0 <= p < |prefix| && LastWithId(pre, p)
      ensures next[pre[p].id] == DefaultOf(pre[p])
    {
      assert pre[p] == prefix[p];
      forall j | p < j < |prefix| ensures prefix[j].id != prefix[p].id {
        assert prefix[j] == pre[j];
      }
      assert pre[|prefix|] == f;
    }
  }

  /** The last index holding `k`, or -1. */
  function LastIndexOf(fields: seq<FormField>, k: string): (r: int)
    ensures -1 <= r < |fields|
    ensures r >= 0 ==> fields[r].id == k && LastWithId(fields, r)
    ensures r == -1 ==> k !in IdsOf(fields)
  {
    if fields == [] then -1
    else if fields[|fields| - 1].id == k then |fields| - 1
    else
      var r := LastIndexOf(fields[..|fields| - 1], k);
      assert IdsOf(fields) == IdsOf(fields[..|fields| - 1]) + {fields[|fields| - 1].id} by {
        assert fields == fields[..|fields| - 1] + [fields[|fields| - 1]];
      }
      r
  }

  /** The description of the initial map leaves no freedom: it determines the map. */
  lemma InitialMapDetermined(fields: seq<FormField>, m1: ValueMap, m2: ValueMap)
    requires IsInitialMap(fields, m1) && IsInitialMap(fields, m2)
    ensures m1 == m2
  {
    forall k | k in m1 ensures m1[k] == m2[k] {
      var i := LastIndexOf(fields, k);
    }
  }

  /** With unique ids, every field's key holds its own default: `false` for a checkbox without one, `''` for others. */
  lemma InitialMapOfUniqueFields(fields: seq<FormField>, m: ValueMap, f: FormField)
    requires UniqueIds(fields) && IsInitialMap(fields, m) && f in fields
    ensures f.id in m && m[f.id] == DefaultOf(f)
    ensures (f.defaultValue.Null? || f.defaultValue.Undefined?) && f.kind == Checkbox ==> m[f.id] == Bool(false)
    ensures (f.defaultValue.Null? || f.defaultValue.Undefined?) && f.kind != Checkbox ==> m[f.id] == Str("")
  {
    var i :| 0 <= i < |fields| && fields[i] == f;
    assert LastWithId(fields, i);
  }

  /** A field the pass recomputes: derived, with at least one parent. */
  predicate Active(f: FormField) {
    f.derived.Some? && |f.derived.value.parents| > 0
  }

  /** The JavaScript source text of the empty string, used in place of an empty formula. */
  const EmptyStringLiteral := "\"\""

  function EffectiveFormula(formula: string): (r: string)
    ensures r != ""
    ensures formula != "" ==> r == formula
    ensures formula == "" ==> r == EmptyStringLiteral
  {
    if formula == "" then EmptyStringLiteral else formula
  }

  /** The parent values handed to the formula: one entry per distinct parent id, read from `values`. */
  function ParentMap(parents: seq<string>, values: ValueMap): (pm: ValueMap)
    ensures pm.Keys == set p | p in parents
    ensures forall p :: p in pm ==> pm[p] == Lookup(values, p)
  {
    map p | p in parents :: Lookup(values, p)
  }

  /** `evalDerived`: a throwing evaluation becomes the empty string and never escapes. */
  function EvalDerived(eval: Evaluator, formula: string, pm: ValueMap): (v: Value)
    ensures eval(formula, pm).None? ==> v == Str("")
    ensures eval(formula, pm).Some? ==> v == eval(formula, pm).value
  {
    match eval(formula, pm)
    case Some(res) => res
    case None => Str("")
  }

  /** The value a derived field gets from the map `pre`. */
  function DerivedValue(f: FormField, pre: ValueMap, eval: Evaluator): Value
    requires Active(f)
  {
    EvalDerived(eval, EffectiveFormula(f.derived.value.formula), ParentMap(f.derived.value.parents, pre))
  }

  /**
   * An empty formula hands the evaluator the empty-string literal; the field
   * becomes `''` whenever that evaluation yields `''` or throws.
   */
  lemma EmptyFormulaGivesEmptyString(f: FormField, pre: ValueMap, eval: Evaluator)
    requires Active(f) && f.derived.value.formula == ""
    ensures DerivedValue(f, pre, eval) == EvalDerived(eval, EmptyStringLiteral, ParentMap(f.derived.value.parents, pre))
    ensures var r := eval(EmptyStringLiteral, ParentMap(f.derived.value.parents, pre));
      r.None? || r == Some(Str("")) ==> DerivedValue(f, pre, eval) == Str("")
  {
  }

  /** A derived field's value depends only on its parents' values, never on any other key. */
  lemma DerivedReadsOnlyParents(f: FormField, pre1: ValueMap, pre2: ValueMap, eval: Evaluator)
    requires Active(f)
    requires forall p :: p in f.derived.value.parents ==> Lookup(pre1, p) == Lookup(pre2, p)
    ensures DerivedValue(f, pre1, eval) == DerivedValue(f, pre2, eval)
  {
    assert ParentMap(f.derived.value.parents, pre1) == ParentMap(f.derived.value.parents, pre2);
  }

  /**
   * One recompute pass over `fields`: starting from `pre`, each active field
   * in turn writes the value computed from `pre` (never from the partly
   * updated map) under its id.
   */
  function Pass(fields: seq<FormField>, pre: ValueMap, eval: Evaluator): ValueMap
    decreases |fields|
  {
    if fields == [] then pre
    else
      var last := fields[|fields| - 1];
      var acc := Pass(fields[..|fields| - 1], pre, eval);
      if Active(last) then acc[last.id := DerivedValue(last, pre, eval)] else acc
  }

  function ActiveIds(fields: seq<FormField>): set<string> {
    set f | f in fields && Active(f) :: f.id
  }

  /** The derived-recompute effect: a loop over the fields writing into a copy of the values. */
  method RecomputeDerived(fields: seq<FormField>, values: ValueMap, eval: Evaluator) returns (next: ValueMap)
    ensures next == Pass(fields, values, eval)
  {
    next := values;
    var i := 0;
    while i < |fields|
      invariant 0 <= i <= |fields|
      invariant next == Pass(fields[..i], values, eval)
    {
      var f := fields[i];
      if f.derived.Some? && |f.derived.value.parents| > 0 {
        var parentMap := ParentMap(f.derived.value.parents, values);
        var res := EvalDerived(eval, EffectiveFormula(f.derived.value.formula), parentMap);
        next := next[f.id := res];
      }
      assert fields[..i + 1][..i] == fields[..i];
      i := i + 1;
    }
    assert fields[..|fields|] == fields;
  }

  /** The pass adds exactly the ids of active fields to the keys. */
  lemma {:induction false} PassKeys(fields: seq<FormField>, pre: ValueMap, eval: Evaluator)
    ensures Pass(fields, pre, eval).Keys == pre.Keys + ActiveIds(fields)
  {
    if fields != [] {
      var init := fields[..|fields| - 1];
      PassKeys(init, pre, eval);
      assert fields == init + [fields[|fields| - 1]];
      assert ActiveIds(fields) == ActiveIds(init) + ActiveIds([fields[|fields| - 1]]);
    }
  }

  /** Every key that no active field owns keeps its value; derived fields without parents are untouched. */
  lemma {:induction false} PassKeepsOthers(fields: seq<FormField>, pre: ValueMap, eval: Evaluator, k: string)
    requires k !in ActiveIds(fields) && k in pre
    ensures k in Pass(fields, pre, eval) && Pass(fields, pre, eval)[k] == pre[k]
  {
    if fields != [] {
      var init := fields[..|fields| - 1];
      assert ActiveIds(init) <= ActiveIds(fields) by {
        forall f | f in init ensures f in fields { }
      }
      PassKeepsOthers(init, pre, eval, k);
    }
  }

  /** The last active field with a given id decides that id's value, computed from the pre-pass map. */
  lemma {:induction false} PassComputes(fields: seq<FormField>, pre: ValueMap, eval: Evaluator, i: nat)
    requires i < |fields| && Active(fields[i])
    requires forall j :: i < j < |fields| && Active(fields[j]) ==> fields[j].id != fields[i].id
    ensures fields[i].id in Pass(fields, pre, eval)
    ensures Pass(fields, pre, eval)[fields[i].id] == DerivedValue(fields[i], pre, eval)
  {
    var n := |fields|;
    if i < n - 1 {
      var init := fields[..n - 1];
      assert init[i] == fields[i];
      PassComputes(init, pre, eval, i);
    }
  }

  /** With unique ids the pass does not depend on the order of the fields. */
  lemma PassOrderIndependent(a: seq<FormField>, b: seq<FormField>, pre: ValueMap, eval: Evaluator)
    requires UniqueIds(a) && UniqueIds(b) && multiset(a) == multiset(b)
    ensures Pass(a, pre, eval) == Pass(b, pre, eval)
  {
    var pa, pb := Pass(a, pre, eval), Pass(b, pre, eval);
    assert forall f :: f in a <==> f in b by {
      forall f ensures f in a <==> f in b {
        assert f in a <==> f in multiset(a);
        assert f in b <==> f in multiset(b);
      }
    }
    assert ActiveIds(a) == ActiveIds(b);
    PassKeys(a, pre, eval);
    PassKeys(b, pre, eval);
    forall k | k in pa ensures pa[k] == pb[k] {
      if k in ActiveIds(a) {
        var f :| f in a && Active(f) && f.id == k;
        var i :| 0 <= i < |a| && a[i] == f;
        var j :| 0 <= j < |b| && b[j] == f;
        PassComputes(a, pre, eval, i);
        PassComputes(b, pre, eval, j);
      } else {
        PassKeepsOthers(a, pre, eval, k);
        PassKeepsOthers(b, pre, eval, k);
      }
    }
  }

  /** The messages a field shows for its current value. */
  function FieldMessages(f: FormField, values: ValueMap): seq<string> {
    Messages(Lookup(values, f.id), f.validations)
  }

  /** A field whose id has no value yet is validated as the empty string. */
  lemma MissingKeyValidatesAsEmpty(f: FormField, values: ValueMap)
    requires f.id !in values
    ensures FieldMessages(f, values) == Messages(Str(""), f.validations)
  {
    MissingValueIsEmptyString(f.validations);
  }

  /** A field fails validation when its current value yields at least one message. */
  predicate Failing(f: FormField, values: ValueMap) {
    FieldMessages(f, values) != []
  }

  function FailingIds(fields: seq<FormField>, values: ValueMap): set<string> {
    set f | f in fields && Failing(f, values) :: f.id
  }

  /**
   * The error map a submit builds: visiting the fields in order, each failing
   * field writes its messages under its id.
   */
  function SubmitErrors(fields: seq<FormField>, values: ValueMap): ErrorMap
    decreases |fields|
  {
    if fields == [] then map[]
    else
      var last := fields[|fields| - 1];
      var acc := SubmitErrors(fields[..|fields| - 1], values);
      if Failing(last, values) then acc[last.id := FieldMessages(last, values)] else acc
  }

  /** The error map has exactly the failing fields' ids as keys. */
  lemma {:induction false} SubmitErrorsKeys(fields: seq<FormField>, values: ValueMap)
    ensures SubmitErrors(fields, values).Keys == FailingIds(fields, values)
  {
    if fields != [] {
      var init, last := fields[..|fields| - 1], fields[|fields| - 1];
      SubmitErrorsKeys(init, values);
      assert fields == init + [last];
      assert FailingIds(fields, values) == FailingIds(init, values) + FailingIds([last], values);
    }
  }

  /** A failing field that no later failing field with the same id overrides has its own messages in the map. */
  lemma {:induction false} SubmitErrorsAt(fields: seq<FormField>, values: ValueMap, i: nat)
    requires i < |fields| && Failing(fields[i], values)
    requires forall j :: i < j < |fields| && fields[j].id == fields[i].id ==> !Failing(fields[j], values)
    ensures fields[i].id in SubmitErrors(fields, values)
    ensures SubmitErrors(fields, values)[fields[i].id] == FieldMessages(fields[i], values)
  {
    var n := |fields|;
    if i < n - 1 {
      var init := fields[..n - 1];
      assert init[i] == fields[i];
      SubmitErrorsAt(init, values, i);
    }
  }

  /** With unique ids, each failing field's entry is exactly its messages, and a submit succeeds iff no field fails. */
  lemma SubmitErrorsOfUniqueFields(fields: seq<FormField>, values: ValueMap)
    requires UniqueIds(fields)
    ensures forall f :: f in fields && Failing(f, values) ==>
      f.id in SubmitErrors(fields, values) && SubmitErrors(fields, values)[f.id] == FieldMessages(f, values)
    ensures SubmitErrors(fields, values) == map[] <==> forall f :: f in fields ==> !Failing(f, values)
  {
    SubmitErrorsKeys(fields, values);
    forall f | f in fields && Failing(f, values)
      ensures f.id in SubmitErrors(fields, values) && SubmitErrors(fields, values)[f.id] == FieldMessages(f, values)
    {
      var i :| 0 <= i < |fields| && fields[i] == f;
      SubmitErrorsAt(fields, values, i);
    }
  }

  /** The submit loop: validates every field, recording the failing ones and clearing `ok` on any failure. */
  method CollectErrors(fields: seq<FormField>, values: ValueMap) returns (ok: bool, allErrors: ErrorMap)
    ensures allErrors == SubmitErrors(fields, values)
    ensures ok <==> allErrors == map[]
  {
    allErrors := map[];
    ok := true;
    var i := 0;
    while i < |fields|
      invariant 0 <= i <= |fields|
      invariant allErrors == SubmitErrors(fields[..i], values)
      invariant ok <==> allErrors == map[]
    {
      var f := fields[i];
      var errs := ValidateValue(Lookup(values, f.id), f.validations);
      if |errs| > 0 {
        ok := false;
        allErrors := allErrors[f.id := errs];
        assert f.id in allErrors;
      }
      assert fields[..i + 1][..i] == fields[..i];
      i := i + 1;
    }
    assert fields[..|fields|] == fields;
  }

  /** A session of the preview page: the bound schema's fields, the live values and the shown errors. */
  class FormSession {
    var fields: seq<FormField>
    var values: ValueMap
    var errors: ErrorMap

    /** Binding a schema: values from the defaults, no errors. */
    constructor (schema: FormSchema)
      ensures fields == schema.fields
      ensures IsInitialMap(fields, values)
      ensures errors == map[]
    {
      fields := schema.fields;
      var initial := InitialValues(schema.fields);
      values := initial;
      errors := map[];
    }

    /** One run of the derived-recompute effect. */
    method Recompute(eval: Evaluator)
      modifies this
      ensures values == Pass(fields, old(values), eval)
      ensures fields == old(fields) && errors == old(errors)
    {
      values := RecomputeDerived(fields, values, eval);
    }

    /** `handleChange`: only this id's value and error entry change; the errors are the first such field's messages. */
    method HandleChange(id: string, v: Value)
      requires id in IdsOf(fields)
      modifies this
      ensures fields == old(fields)
      ensures values == old(values)[id := v]
      ensures errors == old(errors)[id := Messages(v, fields[FindIndex(fields, id)].validations)]
    {
      values := values[id := v];
      var field := fields[FindIndex(fields, id)];
      var errs := ValidateValue(v, field.validations);
      errors := errors[id := errs];
    }

    /** `handleSubmit`: replaces the errors by those of every failing field; submits the values iff none fails. */
    method HandleSubmit() returns (submitted: Option<ValueMap>)
      modifies this
      ensures errors == SubmitErrors(fields, values)
      ensures submitted.Some? <==> errors == map[]
      ensures submitted.Some? ==> submitted.value == values
      ensures fields == old(fields) && values == old(values)
    {
      var ok, allErrors := CollectErrors(fields, values);
      errors := allErrors;
      if !ok {
        return None;
      }
      return Some(values);
    }
  }
}
