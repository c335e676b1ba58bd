/**
 * The field editor's edits. The editor keeps a local copy of one field and
 * every control produces a new field merged from a partial update; these
 * functions give the new field each control produces.
 */
module FieldEditor {
  import opened Wrappers
  import opened TextOps
  import opened FormTypes
  import opened Validation
  import FormSlice

  /** A `Partial<FormField>`: `Some` for each attribute the update sets. */
  datatype FieldPatch = FieldPatch(
    id: Option<string>,
    kind: Option<FieldType>,
    labelText: Option<string>,
    required: Option<bool>,
    defaultValue: Option<Value>,
    options: Option<seq<string>>,
    validations: Option<Option<ValidationRules>>,
    derived: Option<Option<DerivedConfig>>)

  const NoChange := FieldPatch(None, None, None, None, None, None, None, None)

  /** The patch that sets every attribute to that of `g`. */
  function Whole(g: FormField): FieldPatch {
    FieldPatch(Some(g.id), Some(g.kind), Some(g.labelText), Some(g.required), Some(g.defaultValue),
               Some(g.options), Some(g.validations), Some(g.derived))
  }

  /** `{ ...local, ...partial }`: each attribute the patch sets is overwritten, every other one is kept. */
  function Update(local: FormField, patch: FieldPatch): (next: FormField)
    ensures next.id == patch.id.GetOr(local.id)
    ensures next.kind == patch.kind.GetOr(local.kind)
    ensures next.labelText == patch.labelText.GetOr(local.labelText)
    ensures next.required == patch.required.GetOr(local.required)
    ensures next.defaultValue == patch.defaultValue.GetOr(local.defaultValue)
    ensures next.options == patch.options.GetOr(local.options)
    ensures next.validations == patch.validations.GetOr(local.validations)
    ensures next.derived == patch.derived.GetOr(local.derived)
  {
    FormField(
      patch.id.GetOr(local.id),
      patch.kind.GetOr(local.kind),
      patch.labelText.GetOr(local.labelText),
      patch.required.GetOr(local.required),
      patch.defaultValue.GetOr(local.defaultValue),
      patch.options.GetOr(local.options),
      patch.validations.GetOr(local.validations),
      patch.derived.GetOr(local.derived))
  }

  function Later<T>(a: Option<T>, b: Option<T>): Option<T> {
    if b.Some? then b else a
  }

  /** One patch applied after another: the later one wins key by key. */
  function Merge(p: FieldPatch, q: FieldPatch): FieldPatch {
    FieldPatch(Later(p.id, q.id), Later(p.kind, q.kind), Later(p.labelText, q.labelText),
               Later(p.required, q.required), Later(p.defaultValue, q.defaultValue),
               Later(p.options, q.options), Later(p.validations, q.validations), Later(p.derived, q.derived))
  }

  /** An empty patch changes nothing, a whole patch replaces the field, and updating twice is updating once with the merged patch. */
  lemma UpdateLaws(f: FormField, g: FormField, p: FieldPatch, q: FieldPatch)
    ensures Update(f, NoChange) == f
    ensures Update(f, Whole(g)) == g
    ensures Update(Update(f, p), q) == Update(f, Merge(p, q))
    ensures Update(Update(f, p), p) == Update(f, p)
  {
  }

  /** The text, select and switch inputs for the label, the type and the default value. */
  datatype BasicEdit = LabelInput(text: string) | KindInput(kind: FieldType) | DefaultInput(text: string)

  function EditBasic(local: FormField, e: BasicEdit): (next: FormField)
    ensures e.LabelInput? ==> next == local.(labelText := e.text)
    ensures e.KindInput? ==> next == local.(kind := e.kind)
    ensures e.DefaultInput? ==> next == local.(defaultValue := Str(e.text))
  {
    match e
    case LabelInput(t) => Update(local, NoChange.(labelText := Some(t)))
    case KindInput(k) => Update(local, NoChange.(kind := Some(k)))
    case DefaultInput(t) => Update(local, NoChange.(defaultValue := Some(Str(t))))
  }

  /** The "Required" switch as written: it sets the field's own `required` flag only. */
  function SetRequired(local: FormField, on: bool): (next: FormField)
    ensures next == local.(required := on)
  {
    Update(local, NoChange.(required := Some(on)))
  }

  /**
   * Switching "Required" on does not make the value required: validation
   * reads the rule set, which the switch leaves alone, so an empty value still
   * gets no required message.
   */
  lemma RequiredSwitchNotEnforced(local: FormField)
    requires local.validations.None? || !local.validations.value.required
    ensures SetRequired(local, true).required
    ensures RequiredMessage !in Messages(Str(""), SetRequired(local, true).validations)
  {
    RequiredIff(Str(""), local.validations);
  }

  /** The "Required" switch as intended: the flag and the rule set's `required` move together. */
  function SetRequiredEnforced(local: FormField, on: bool): (next: FormField)
    ensures next.required == on && next.validations.Some? && next.validations.value.required == on
    ensures next.validations.value == local.validations.GetOr(NoRules).(required := on)
    ensures next.(required := local.required, validations := local.validations) == local
  {
    Update(local, NoChange.(required := Some(on), validations := Some(Some(local.validations.GetOr(NoRules).(required := on)))))
  }

  /** With the intended switch on, every blank value gets exactly the required message; with it off, never. */
  lemma RequiredSwitchEnforced(local: FormField, v: Value)
    ensures IsBlank(Coalesce(v)) ==> Messages(v, SetRequiredEnforced(local, true).validations) == [RequiredMessage]
    ensures RequiredMessage !in Messages(v, SetRequiredEnforced(local, false).validations)
  {
    RequiredIff(v, SetRequiredEnforced(local, false).validations);
  }

  /** The label of the option "Add option" appends: `Option ` followed by the decimal digits of `k`. */
  function OptionLabel(k: nat): (r: string)
    ensures |r| > 7 && r[..7] == "Option "
    ensures AllDigits(r[7..]) && DecimalValue(r[7..]) == k
  {
    NatToStringRoundTrip(k);
    assert ("Option " + NatToString(k))[7..] == NatToString(k);
    "Option " + NatToString(k)
  }

  function AddOption(local: FormField): (next: FormField)
    ensures |next.options| == |local.options| + 1
    ensures next.options[..|local.options|] == local.options
    ensures next.options[|local.options|] == OptionLabel(|local.options| + 1)
    ensures next.(options := local.options) == local
  {
    Update(local, Whole(local.(options := local.options + [OptionLabel(|local.options| + 1)])))
  }

  /** `s.filter((_, idx) => idx !== i)` */
  function DropIndex<T>(s: seq<T>, i: nat): (r: seq<T>)
    ensures i < |s| ==> |r| == |s| - 1
    ensures i >= |s| ==> r == s
    ensures forall k :: 0 <= k < i && k < |r| ==> r[k] == s[k]
    ensures forall k :: i <= k < |r| ==> r[k] == s[k + 1]
  {
    if s == [] then []
    else if i == 0 then s[1..]
    else [s[0]] + DropIndex(s[1..], i - 1)
  }

  function RemoveOptionAt(local: FormField, i: nat): (next: FormField)
    ensures next == local.(options := DropIndex(local.options, i))
  {
    Update(local, NoChange.(options := Some(DropIndex(local.options, i))))
  }

  /** Only the entry at index `i` changes. */
  function SetOptionAt(local: FormField, i: nat, v: string): (next: FormField)
    requires i < |local.options|
    ensures |next.options| == |local.options| && next.options[i] == v
    ensures forall k :: 0 <= k < |local.options| && k != i ==> next.options[k] == local.options[k]
    ensures next.(options := local.options) == local
  {
    var opts := local.options;
    Update(local, NoChange.(options := Some(opts[i := v])))
  }

  /** The "Derived field" switch: on installs an empty configuration, off clears it. */
  function SetDerivedEnabled(local: FormField, on: bool): (next: FormField)
    ensures on ==> next.derived == Some(DerivedConfig([], ""))
    ensures !on ==> next.derived.None?
    ensures next.(derived := local.derived) == local
  {
    if on then Update(local, NoChange.(derived := Some(Some(DerivedConfig([], "")))))
    else Update(local, NoChange.(derived := Some(None)))
  }

  predicate NoDups<T(==)>(s: seq<T>) {
    forall i, j :: 0 <= i < j < |s| ==> s[i] != s[j]
  }

  /** `Array.from(new Set(s))`: each member of `s` listed once. */
  function Dedup(s: seq<string>): (r: seq<string>)
    ensures NoDups(r)
    ensures forall x :: x in r <==> x in s
    ensures |r| <= |s|
  {
    if s == [] then []
    else
      var d := Dedup(s[..|s| - 1]);
      var x := s[|s| - 1];
      assert s == s[..|s| - 1] + [x];
      if x in d then d else d + [x]
  }

  lemma {:induction false} DedupOfNoDups(s: seq<string>)
    requires NoDups(s)
    ensures Dedup(s) == s
  {
    if s != [] {
      var init := s[..|s| - 1];
      DedupOfNoDups(init);
      assert s[|s| - 1] !in init;
      assert s == init + [s[|s| - 1]];
    }
  }

  /** `Set.delete`: drops `x` and keeps every other member. */
  function RemoveAll(s: seq<string>, x: string): (r: seq<string>)
    ensures forall y :: y in r <==> y in s && y != x
    ensures NoDups(s) ==> NoDups(r)
  {
    if s == [] then []
    else if s[0] == x then RemoveAll(s[1..], x)
    else
      var t := RemoveAll(s[1..], x);
      assert NoDups(s) ==> s[0] !in s[1..] by {
        forall k | 0 <= k < |s| - 1 ensures NoDups(s) ==> s[1..][k] != s[0] {
          assert s[1..][k] == s[k + 1];
        }
      }
      [s[0]] + t
  }

  lemma {:induction false} RemoveAllAppended(s: seq<string>, x: string)
    requires x !in s
    ensures RemoveAll(s + [x], x) == s
  {
    if s == [] {
      assert [x][1..] == [];
    } else {
      assert (s + [x])[1..] == s[1..] + [x];
      RemoveAllAppended(s[1..], x);
    }
  }

  /** The chip toggle: deletes the id when it is a parent, appends it otherwise; the result lists each parent once. */
  function TogglePresence(parents: seq<string>, pid: string): (r: seq<string>)
    ensures NoDups(r)
    ensures pid in r <==> pid !in parents
    ensures forall x :: x != pid ==> (x in r <==> x in parents)
    ensures pid !in parents ==> r == Dedup(parents) + [pid]
  {
    var d := Dedup(parents);
    if pid in d then RemoveAll(d, pid) else d + [pid]
  }

  /** Toggling a new parent twice gives back a duplicate-free list. */
  lemma ToggleTwice(parents: seq<string>, pid: string)
    requires NoDups(parents) && pid !in parents
    ensures TogglePresence(TogglePresence(parents, pid), pid) == parents
  {
    DedupOfNoDups(parents);
    DedupOfNoDups(parents + [pid]);
    RemoveAllAppended(parents, pid);
  }

  function ToggleParent(local: FormField, pid: string): (next: FormField)
    requires local.derived.Some?
    ensures next.derived == Some(local.derived.value.(parents := TogglePresence(local.derived.value.parents, pid)))
    ensures next.(derived := local.derived) == local
  {
    var d := local.derived.value;
    Update(local, NoChange.(derived := Some(Some(d.(parents := TogglePresence(d.parents, pid))))))
  }

  function SetFormula(local: FormField, formula: string): (next: FormField)
    requires local.derived.Some?
    ensures next.derived == Some(local.derived.value.(formula := formula))
    ensures next.(derived := local.derived) == local
  {
    Update(local, NoChange.(derived := Some(Some(local.derived.value.(formula := formula)))))
  }

  /** The chips offered as parents: every other field of the form. */
  function ParentCandidates(allFields: seq<FormField>, selfId: string): (r: seq<FormField>)
    ensures forall f :: f in r <==> f in allFields && f.id != selfId
  {
    FormSlice.WithoutId(allFields, selfId)
  }

  /** Toggling an offered chip never makes a field its own parent. */
  lemma NeverOwnParent(allFields: seq<FormField>, local: FormField, chip: FormField)
    requires local.derived.Some? && local.id !in local.derived.value.parents
    requires chip in ParentCandidates(allFields, local.id)
    ensures local.id !in ToggleParent(local, chip.id).derived.value.parents
  {
  }

  /** The inputs for the four rules; an empty bound input is `None`. */
  datatype RuleEdit = MinLengthInput(bound: Option<int>) | MaxLengthInput(bound: Option<int>)
                    | EmailSwitch(on: bool) | PasswordSwitch(on: bool)

  /** `{ ...(local.validations || {}), rule: value }` */
  function EditValidation(local: FormField, e: RuleEdit): (next: FormField)
    ensures next.validations.Some?
    ensures var before, after := local.validations.GetOr(NoRules), next.validations.value;
      && after.required == before.required
      && after.minLength == (if e.MinLengthInput? then e.bound else before.minLength)
      && after.maxLength == (if e.MaxLengthInput? then e.bound else before.maxLength)
      && after.email == (if e.EmailSwitch? then e.on else before.email)
      && after.passwordRule == (if e.PasswordSwitch? then e.on else before.passwordRule)
    ensures next.(validations := local.validations) == local
  {
    var rules := local.validations.GetOr(NoRules);
    var edited := match e
      case MinLengthInput(b) => rules.(minLength := b)
      case MaxLengthInput(b) => rules.(maxLength := b)
      case EmailSwitch(on) => rules.(email := on)
      case PasswordSwitch(on) => rules.(passwordRule := on)
    ;
    Update(local, NoChange.(validations := Some(Some(edited))))
  }
}
