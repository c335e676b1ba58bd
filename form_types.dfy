/**
 * The form builder's data model: field kinds, validation rule sets, derived
 * (computed) field configuration, fields, form schemas, and the dynamically
 * typed values a form holds at run time.
 */
module FormTypes {
  import opened Wrappers

  datatype FieldType = Text | Number | TextArea | Select | Radio | Checkbox | Date

  /**
   * A rule set. The optional booleans are plain booleans (an absent flag is
   * `false`); an absent and a `null` length bound are both `None`.
   */
  datatype ValidationRules = ValidationRules(
    required: bool,
    minLength: Option<int>,
    maxLength: Option<int>,
    email: bool,
    passwordRule: bool)

  /** The empty rule set `{}`: present, but enforcing nothing. */
  const NoRules := ValidationRules(false, None, None, false, false)

  /** A computed field: the ids it reads (in chip order) and the formula text. */
  datatype DerivedConfig = DerivedConfig(parents: seq<string>, formula: string)

  /** A run-time form value; `Undefined` is also what a missing key reads as. */
  datatype Value = Str(s: string) | Num(n: int) | Bool(b: bool) | Null | Undefined | Arr(items: seq<Value>)

  /**
   * One field. `defaultValue` is `Undefined` when absent, `options` is `[]`
   * when absent, `validations` is `None` when absent, and `derived` is `None`
   * when absent or `null`.
   */
  datatype FormField = FormField(
    id: string,
    kind: FieldType,
    labelText: string,
    required: bool,
    defaultValue: Value,
    options: seq<string>,
    validations: Option<ValidationRules>,
    derived: Option<DerivedConfig>)

  datatype FormSchema = FormSchema(id: string, name: string, createdAt: string, fields: seq<FormField>)

  function IdsOf(fields: seq<FormField>): set<string> {
    set f | f in fields :: f.id
  }

  predicate UniqueIds(fields: seq<FormField>) {
    forall i, j :: 0 <= i < j < |fields| ==> fields[i].id != fields[j].id
  }

  /** `fields.findIndex(f => f.id === id)`: the first index holding `id`, or -1. */
  function FindIndex(fields: seq<FormField>, id: string): (r: int)
    ensures -1 <= r < |fields|
    ensures r >= 0 ==> fields[r].id == id && forall k :: 0 <= k < r ==> fields[k].id != id
    ensures r == -1 <==> id !in IdsOf(fields)
  {
    if fields == [] then -1
    else if fields[0].id == id then 0
    else
      var r := FindIndex(fields[1..], id);
      assert IdsOf(fields) == {fields[0].id} + IdsOf(fields[1..]);
      if r == -1 then -1 else r + 1
  }
}
