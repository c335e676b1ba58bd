/**
 * The schema authoring store: a draft form being edited and the list of
 * saved forms. Each reducer is a method of `FormStore`; the list edits the
 * reducers perform are specified by the functions before it, and the lemmas
 * state what those edits keep.
 */
module FormSlice {
  import opened TextOps
  import opened FormTypes

  /** The empty draft `resetCurrentForm` installs, with a fresh id and the current time. */
  function Draft(draftId: string, now: string): (d: FormSchema)
    ensures d.id == draftId && d.createdAt == now
    ensures d.name == "" && d.fields == []
  {
    FormSchema(draftId, "", now, [])
  }

  const UntitledName := "Untitled Form"

  /** `name.trim() || 'Untitled Form'`: always a non-empty, already trimmed name. */
  function SaveName(name: string): (r: string)
    ensures r != "" && Trim(r) == r
    ensures Trim(name) != "" ==> r == Trim(name)
    ensures Trim(name) == "" ==> r == UntitledName
  {
    var t := Trim(name);
    TrimIdempotent(name);
    UntitledIsTrimmed();
    if t == "" then UntitledName else t
  }

  lemma UntitledIsTrimmed()
    ensures Trim(UntitledName) == UntitledName
  {
    var u := UntitledName;
    assert u[0] == 'U' && !IsSpace(u[0]);
    assert TrimStart(u) == u;
    assert u[|u| - 1] == 'm' && !IsSpace(u[|u| - 1]);
    assert TrimEnd(u) == u;
  }

  /** The copy of the draft that `saveForm` appends. */
  function Saved(draft: FormSchema, name: string, now: string, freshId: string): (s: FormSchema)
    ensures s.fields == draft.fields
    ensures s.name == SaveName(name) && s.createdAt == now
    ensures draft.id != "" ==> s.id == draft.id
    ensures draft.id == "" ==> s.id == freshId
  {
    draft.(name := SaveName(name), createdAt := now, id := if draft.id != "" then draft.id else freshId)
  }

  /** Without a reset in between, two saves of the same draft store the same id twice. */
  lemma SaveKeepsDraftId(draft: FormSchema, n1: string, n2: string, t1: string, t2: string, u1: string, u2: string)
    requires draft.id != ""
    ensures Saved(draft, n1, t1, u1).id == Saved(draft, n2, t2, u2).id == draft.id
  {
  }

  /** `fields[findIndex(...)] = f`: only the first field carrying `f.id` is replaced; with no such field nothing changes. */
  function ReplaceFirstById(fields: seq<FormField>, f: FormField): (r: seq<FormField>)
    ensures |r| == |fields|
    ensures forall k :: 0 <= k < |r| ==> r[k] == if k == FindIndex(fields, f.id) then f else fields[k]
  {
    if fields == [] then []
    else if fields[0].id == f.id then [f] + fields[1..]
    else
      var t := ReplaceFirstById(fields[1..], f);
      assert forall k :: 0 < k < |fields| ==> ([fields[0]] + t)[k] == t[k - 1];
      [fields[0]] + t
  }

  /** Replacing at `findIndex` is the same edit. */
  lemma ReplaceAtFoundIndex(fields: seq<FormField>, f: FormField)
    ensures FindIndex(fields, f.id) >= 0 ==> ReplaceFirstById(fields, f) == fields[FindIndex(fields, f.id) := f]
    ensures FindIndex(fields, f.id) == -1 ==> ReplaceFirstById(fields, f) == fields
  {
  }

  /** Replacing a field by one with the same id keeps ids unique. */
  lemma ReplaceKeepsUniqueIds(fields: seq<FormField>, f: FormField)
    requires UniqueIds(fields)
    ensures UniqueIds(ReplaceFirstById(fields, f))
  {
    var r := ReplaceFirstById(fields, f);
    assert forall k :: 0 <= k < |fields| ==> r[k].id == fields[k].id;
  }

  /** `fields.filter(f => f.id !== id)`: exactly the fields with another id remain. */
  function WithoutId(fields: seq<FormField>, id: string): (r: seq<FormField>)
    ensures |r| <= |fields|
    ensures forall g :: g in r <==> g in fields && g.id != id
  {
    if fields == [] then []
    else
      var t := WithoutId(fields[1..], id);
      assert forall g :: g in fields <==> g == fields[0] || g in fields[1..];
      if fields[0].id == id then t else [fields[0]] + t
  }

  /** Removal distributes over concatenation, so the kept fields stay in their relative order. */
  lemma {:induction false} WithoutIdConcat(a: seq<FormField>, b: seq<FormField>, id: string)
    ensures WithoutId(a + b, id) == WithoutId(a, id) + WithoutId(b, id)
  {
    if a != [] {
      assert (a + b)[1..] == a[1..] + b;
      WithoutIdConcat(a[1..], b, id);
    } else {
      assert a + b == b;
    }
  }

  /** Removing an id no field has changes nothing. */
  lemma {:induction false} WithoutAbsentId(fields: seq<FormField>, id: string)
    requires id !in IdsOf(fields)
    ensures WithoutId(fields, id) == fields
  {
    if fields != [] {
      assert IdsOf(fields[1..]) <= IdsOf(fields);
      WithoutAbsentId(fields[1..], id);
      assert fields == [fields[0]] + fields[1..];
    }
  }

  /** Removal keeps ids unique. */
  lemma {:induction false} WithoutIdKeepsUniqueIds(fields: seq<FormField>, id: string)
    requires UniqueIds(fields)
    ensures UniqueIds(WithoutId(fields, id))
  {
    if fields != [] {
      var t := fields[1..];
      assert UniqueIds(t) by {
        forall i, j | 0 <= i < j < |t| ensures t[i].id != t[j].id {
          assert t[i] == fields[i + 1] && t[j] == fields[j + 1];
        }
      }
      WithoutIdKeepsUniqueIds(t, id);
      if fields[0].id != id {
        var r := WithoutId(t, id);
        forall g | g in r ensures g.id != fields[0].id {
          var k :| 0 <= k < |t| && t[k] == g;
          assert fields[k + 1] == g;
        }
        var w := [fields[0]] + r;
        forall i, j | 0 <= i < j < |w| ensures w[i].id != w[j].id {
          if i == 0 {
            assert w[j] in r;
          } else {
            assert w[i] == r[i - 1] && w[j] == r[j - 1];
          }
        }
      }
    }
  }

  /** The splice pair of `reorderFields`: take the element at `from` out, insert it at `to`; the result is a permutation with that element at `to`. */
  function Moved<T>(s: seq<T>, from: nat, to: nat): (r: seq<T>)
    requires from < |s| && to < |s|
    ensures |r| == |s|
    ensures multiset(r) == multiset(s)
    ensures r[to] == s[from]
  {
    var rest := s[..from] + s[from + 1..];
    assert s == s[..from] + [s[from]] + s[from + 1..];
    assert multiset(s) == multiset(rest) + multiset{s[from]};
    assert rest == rest[..to] + rest[to..];
    assert multiset(rest) == multiset(rest[..to]) + multiset(rest[to..]);
    rest[..to] + [s[from]] + rest[to..]
  }

  /** The old index of the element that lands at index `k`. */
  function MovedSource(from: nat, to: nat, k: nat): nat {
    if k == to then from
    else if from <= to && from <= k < to then k + 1
    else if to < from && to < k <= from then k - 1
    else k
  }

  lemma MovedAt<T>(s: seq<T>, from: nat, to: nat, k: nat)
    requires from < |s| && to < |s| && k < |s|
    ensures MovedSource(from, to, k) < |s|
    ensures Moved(s, from, to)[k] == s[MovedSource(from, to, k)]
  {
    var rest := s[..from] + s[from + 1..];
    assert forall x :: 0 <= x < |rest| ==> rest[x] == if x < from then s[x] else s[x + 1];
  }

  /** Moving back undoes a move. */
  lemma MovedInverse<T>(s: seq<T>, from: nat, to: nat)
    requires from < |s| && to < |s|
    ensures Moved(Moved(s, from, to), to, from) == s
  {
    var m := Moved(s, from, to);
    forall k | 0 <= k < |s| ensures Moved(m, to, from)[k] == s[k] {
      MovedAt(m, to, from, k);
      MovedAt(s, from, to, MovedSource(to, from, k));
    }
  }

  /** Moving by one position swaps two neighbours. */
  lemma MovedAdjacentSwap<T>(s: seq<T>, i: nat)
    requires 0 < i < |s|
    ensures Moved(s, i, i - 1) == s[i - 1 := s[i]][i := s[i - 1]]
    ensures Moved(s, i - 1, i) == s[i - 1 := s[i]][i := s[i - 1]]
  {
    var t := s[i - 1 := s[i]][i := s[i - 1]];
    forall k | 0 <= k < |s|
      ensures Moved(s, i, i - 1)[k] == t[k]
      ensures Moved(s, i - 1, i)[k] == t[k]
    {
      MovedAt(s, i, i - 1, k);
      MovedAt(s, i - 1, i, k);
    }
  }

  /** A move keeps ids unique. */
  lemma MovedKeepsUniqueIds(s: seq<FormField>, from: nat, to: nat)
    requires from < |s| && to < |s| && UniqueIds(s)
    ensures UniqueIds(Moved(s, from, to))
  {
    var m := Moved(s, from, to);
    forall i, j | 0 <= i < j < |m| ensures m[i].id != m[j].id {
      MovedAt(s, from, to, i);
      MovedAt(s, from, to, j);
      var a, b := MovedSource(from, to, i), MovedSource(from, to, j);
      assert a != b;
      if a < b {
        assert s[a].id != s[b].id;
      } else {
        assert s[b].id != s[a].id;
      }
    }
  }

  /** The store's state: the draft being authored and the forms saved so far. */
  class FormStore {
    var currentForm: FormSchema
    var savedForms: seq<FormSchema>

    /** The initial state: a fresh empty draft and whatever was persisted. */
    constructor (draftId: string, now: string, persisted: seq<FormSchema>)
      ensures currentForm == Draft(draftId, now)
      ensures savedForms == persisted
    {
      currentForm := Draft(draftId, now);
      savedForms := persisted;
    }

    method ResetCurrentForm(draftId: string, now: string)
      modifies this
      ensures currentForm == Draft(draftId, now)
      ensures savedForms == old(savedForms)
    {
      currentForm := Draft(draftId, now);
    }

    method SetCurrentForm(schema: FormSchema)
      modifies this
      ensures currentForm == schema
      ensures savedForms == old(savedForms)
    {
      currentForm := schema;
    }

    method AddField(f: FormField)
      modifies this
      ensures currentForm == old(currentForm).(fields := old(currentForm.fields) + [f])
      ensures savedForms == old(savedForms)
      ensures UniqueIds(old(currentForm.fields)) && f.id !in IdsOf(old(currentForm.fields)) ==> UniqueIds(currentForm.fields)
    {
      currentForm := currentForm.(fields := currentForm.fields + [f]);
      ghost var s := currentForm.fields;
      if UniqueIds(old(currentForm.fields)) && f.id !in IdsOf(old(currentForm.fields)) {
        forall i, j | 0 <= i < j < |s| ensures s[i].id != s[j].id {
          if j == |s| - 1 {
            assert s[i] in old(currentForm.fields);
          }
        }
      }
    }

    method UpdateField(f: FormField)
      modifies this
      ensures currentForm == old(currentForm).(fields := ReplaceFirstById(old(currentForm.fields), f))
      ensures savedForms == old(savedForms)
      ensures UniqueIds(old(currentForm.fields)) ==> UniqueIds(currentForm.fields)
    {
      ReplaceAtFoundIndex(currentForm.fields, f);
      if UniqueIds(currentForm.fields) {
        ReplaceKeepsUniqueIds(currentForm.fields, f);
      }
      var idx := FindIndex(currentForm.fields, f.id);
      if idx >= 0 {
        currentForm := currentForm.(fields := currentForm.fields[idx := f]);
      }
    }

    method RemoveField(id: string)
      modifies this
      ensures currentForm == old(currentForm).(fields := WithoutId(old(currentForm.fields), id))
      ensures savedForms == old(savedForms)
      ensures UniqueIds(old(currentForm.fields)) ==> UniqueIds(currentForm.fields)
    {
      if UniqueIds(currentForm.fields) {
        WithoutIdKeepsUniqueIds(currentForm.fields, id);
      }
      currentForm := currentForm.(fields := WithoutId(currentForm.fields, id));
    }

    /** An index outside the list makes the request a no-op. */
    method ReorderFields(from: int, to: int)
      modifies this
      ensures var n := |old(currentForm.fields)|;
        if 0 <= from < n && 0 <= to < n
        then currentForm == old(currentForm).(fields := Moved(old(currentForm.fields), from, to))
        else currentForm == old(currentForm)
      ensures savedForms == old(savedForms)
      ensures UniqueIds(old(currentForm.fields)) ==> UniqueIds(currentForm.fields)
    {
      var arr := currentForm.fields;
      if from < 0 || to < 0 || from >= |arr| || to >= |arr| {
        return;
      }
      if UniqueIds(arr) {
        MovedKeepsUniqueIds(arr, from, to);
      }
      var item := arr[from];
      arr := arr[..from] + arr[from + 1..];
      arr := arr[..to] + [item] + arr[to..];
      currentForm := currentForm.(fields := arr);
    }

    /** Appends a copy of the draft; earlier saved forms and the draft itself are untouched. */
    method SaveForm(name: string, now: string, freshId: string)
      modifies this
      ensures savedForms == old(savedForms) + [Saved(old(currentForm), name, now, freshId)]
      ensures currentForm == old(currentForm)
    {
      var saveName := Trim(name);
      if saveName == "" {
        saveName := UntitledName;
      }
      assert saveName == SaveName(name);
      var toSave := currentForm.(name := saveName, createdAt := now,
                                 id := if currentForm.id != "" then currentForm.id else freshId);
      savedForms := savedForms + [toSave];
    }
  }
}
