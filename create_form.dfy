/**
 * The authoring page: the field "Add Field" creates, the save guard with its
 * save-then-reset sequence, and the guards of the up/down buttons. Every state
 * change goes through the store's reducers.
 */
module CreateForm {
  import opened Wrappers
  import opened TextOps
  import opened FormTypes
  import opened Validation
  import opened FormSlice
  import PreviewForm

  /** The field "Add Field" creates. */
  function NewField(freshId: string): (f: FormField)
    ensures f.id == freshId && f.kind == Text && f.labelText == "New Field" && !f.required
    ensures f.defaultValue == Str("") && f.options == []
    ensures f.validations == Some(NoRules) && f.derived.None?
  {
    FormField(freshId, Text, "New Field", false, Str(""), [], Some(NoRules), None)
  }

  /** A new field accepts every value, is not computed, and starts out as the empty string. */
  lemma NewFieldIsPlain(freshId: string, v: Value)
    ensures Messages(v, NewField(freshId).validations) == []
    ensures !PreviewForm.Active(NewField(freshId))
    ensures PreviewForm.DefaultOf(NewField(freshId)) == Str("")
  {
  }

  method HandleAdd(store: FormStore, freshId: string)
    modifies store
    ensures store.currentForm == old(store.currentForm).(fields := old(store.currentForm.fields) + [NewField(freshId)])
    ensures store.savedForms == old(store.savedForms)
  {
    store.AddField(NewField(freshId));
  }

  /**
   * `handleSave`: a blank name changes nothing; otherwise the draft is saved
   * under the trimmed name and replaced by a fresh empty draft.
   */
  method HandleSave(store: FormStore, name: string, now: string, freshId: string, draftId: string, draftNow: string)
    returns (saved: bool)
    modifies store
    ensures saved <==> Trim(name) != ""
    ensures !saved ==> store.currentForm == old(store.currentForm) && store.savedForms == old(store.savedForms)
    ensures saved ==> store.savedForms == old(store.savedForms) + [Saved(old(store.currentForm), name, now, freshId)]
    ensures saved ==> store.savedForms[|old(store.savedForms)|].name == Trim(name)
    ensures saved ==> store.currentForm == Draft(draftId, draftNow)
  {
    TrimEmptyIffAllSpace(name);
    if name == "" || Trim(name) == "" {
      return false;
    }
    store.SaveForm(name, now, freshId);
    store.ResetCurrentForm(draftId, draftNow);
    return true;
  }

  /**
   * Two saves from the page, each followed by its reset, store two entries
   * with different ids, as long as the id generator gives fresh ids.
   */
  method SaveTwice(store: FormStore, n1: string, n2: string, t1: string, t2: string,
                   u1: string, u2: string, d1: string, d2: string)
    requires Trim(n1) != "" && Trim(n2) != ""
    requires d1 != "" && d1 != store.currentForm.id && d1 != u1
    modifies store
    ensures |store.savedForms| == |old(store.savedForms)| + 2
    ensures store.savedForms[..|old(store.savedForms)|] == old(store.savedForms)
    ensures store.savedForms[|old(store.savedForms)|].id != store.savedForms[|old(store.savedForms)| + 1].id
    ensures store.currentForm == Draft(d2, t2)
  {
    ghost var before := store.savedForms;
    ghost var first := Saved(store.currentForm, n1, t1, u1);
    var ok1 := HandleSave(store, n1, t1, u1, d1, t1);
    ghost var second := Saved(store.currentForm, n2, t2, u2);
    var ok2 := HandleSave(store, n2, t2, u2, d2, t2);
    assert store.savedForms == before + [first] + [second];
    assert store.savedForms[..|before|] == before;
  }

  /** A reorder request. */
  datatype Move = Move(from: nat, to: nat)

  /** The "Up" handler's guard: only a field below the first asks to move. */
  function MoveUpRequest(idx: nat): (r: Option<Move>)
    ensures r.Some? <==> idx > 0
    ensures r.Some? ==> r.value.from == idx && r.value.to + 1 == idx
  {
    if idx > 0 then Some(Move(idx, idx - 1)) else None
  }

  /** The "Down" handler's guard: only a field above the last asks to move. */
  function MoveDownRequest(idx: nat, len: nat): (r: Option<Move>)
    ensures r.Some? <==> idx + 1 < len
    ensures r.Some? ==> r.value.from == idx && r.value.to == idx + 1
  {
    if idx < len - 1 then Some(Move(idx, idx + 1)) else None
  }

  /** Both guards only ever issue requests that are inside the list, so the reorder reducer never ignores them. */
  lemma MoveRequestsInRange(idx: nat, len: nat)
    requires idx < len
    ensures var up := MoveUpRequest(idx); up.Some? ==> up.value.from < len && up.value.to < len
    ensures var down := MoveDownRequest(idx, len); down.Some? ==> down.value.from < len && down.value.to < len
  {
  }

  /** The "Up" button of the field at `idx`: swaps it with the field above, if any. */
  method MoveUp(store: FormStore, idx: nat)
    requires idx < |store.currentForm.fields|
    modifies store
    ensures var s := old(store.currentForm.fields);
      store.currentForm.fields == if idx > 0 then s[idx - 1 := s[idx]][idx := s[idx - 1]] else s
    ensures store.currentForm.(fields := old(store.currentForm.fields)) == old(store.currentForm)
    ensures store.savedForms == old(store.savedForms)
  {
    var request := MoveUpRequest(idx);
    if request.Some? {
      MovedAdjacentSwap(store.currentForm.fields, idx);
      store.ReorderFields(request.value.from, request.value.to);
    }
  }

  /** The "Down" button of the field at `idx`: swaps it with the field below, if any. */
  method MoveDown(store: FormStore, idx: nat)
    requires idx < |store.currentForm.fields|
    modifies store
    ensures var s := old(store.currentForm.fields);
      store.currentForm.fields == if idx + 1 < |s| then s[idx := s[idx + 1]][idx + 1 := s[idx]] else s
    ensures store.currentForm.(fields := old(store.currentForm.fields)) == old(store.currentForm)
    ensures store.savedForms == old(store.savedForms)
  {
    var request := MoveDownRequest(idx, |store.currentForm.fields|);
    if request.Some? {
      MovedAdjacentSwap(store.currentForm.fields, idx + 1);
      store.ReorderFields(request.value.from, request.value.to);
    }
  }
}
