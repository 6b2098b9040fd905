/**
 * `MedicineFormComponent`: the medicine catalogue with a create form and inline row
 * editing. Service requests are returned; their answers arrive through the `On...` methods.
 */
module MedicineForm {
  import opened Js
  import opened Wrappers
  import opened RowForms
  import opened Catalog

  /** The row key of a medicine, none for a medicine without id. */
  function KeyOf(s: Medicine): Option<string> {
    if s.id.Some? then Some(RowKey(s.id.value)) else None
  }

  /** The row form's value for a medicine: its name. */
  function NameOf(s: Medicine): string {
    s.name
  }

  /** `medicines.findIndex(medicine => medicine.id === id)` */
  function IndexOfMedicine(medicines: seq<Medicine>, id: int): Option<nat> {
    FindFirst(medicines, (s: Medicine) => s.id == Some(id))
  }

  /** The medicines after `applyMedicineUpdate(updated)`: nothing changes for an update without
      id or without a match, else the first medicine with that id is replaced. */
  function UpdatedMedicines(medicines: seq<Medicine>, updated: Medicine): (r: seq<Medicine>)
    ensures |r| == |medicines|
    ensures updated.id.None? ==> r == medicines
    ensures updated.id.Some? && (forall i | 0 <= i < |medicines| :: medicines[i].id != updated.id) ==> r == medicines
    ensures updated.id.Some? ==>
              forall i | 0 <= i < |medicines| && medicines[i].id == updated.id
                && (forall j | 0 <= j < i :: medicines[j].id != updated.id) ::
                r == medicines[i := updated]
  {
    if updated.id.None? then medicines
    else
      match IndexOfMedicine(medicines, updated.id.value)
      case None => medicines
      case Some(i) => medicines[i := updated]
  }

  /** After a refresh the row keys are exactly the ids of the medicines that have one. */
  lemma RowFormsFollowMedicines(forms: Forms<string>, medicines: seq<Medicine>)
    ensures Synced(forms, medicines, KeyOf, NameOf).Keys == set s | s in medicines && s.id.Some? :: RowKey(s.id.value)
  {
    KeysOfAsSet(medicines, KeyOf);
    SyncedSpec(forms, medicines, KeyOf, NameOf);
  }

  class MedicineFormComponent {
    var medicines: seq<Medicine>
    /** The create form's name control. */
    var form: RowForm<string>
    var rowForms: Forms<string>
    var editingId: Option<int>
    var savingId: Option<int>
    var creating: bool
    var submitError: bool
    /** Whether the create form's name control carries the `required` error that `submit`
        sets on a blank name; resetting the form clears it. */
    var formNameRequired: bool
    /** The row keys whose name control carries the `required` error that `save` sets on a
        blank name; `setValue` and `patchValue` on that row form clear it. */
    var rowNameRequired: set<string>

    constructor()
      ensures medicines == [] && rowForms == map[]
      ensures form == RowForm("", false) && editingId.None? && savingId.None?
      ensures !creating && !submitError
      ensures !formNameRequired && rowNameRequired == {}
    {
      medicines := [];
      form := RowForm("", false);
      rowForms := map[];
      editingId := None;
      savingId := None;
      creating := false;
      submitError := false;
      formNameRequired := false;
      rowNameRequired := {};
    }

    /** `submit()`: the create payload with the trimmed name, or None for an invalid form
        (marked touched) or a name that is only whitespace. */
    method Submit(formValid: bool) returns (payload: Option<Medicine>)
      modifies this`form, this`creating, this`submitError, this`formNameRequired
      ensures payload.Some? <==> formValid && !AllWhitespace(old(form).value)
      ensures payload.Some? ==> payload.value == Medicine(None, Trim(old(form).value), Undefined)
                                && creating && !submitError
      ensures payload.None? ==> creating == old(creating) && submitError == old(submitError)
      ensures !formValid ==> form == RowForm(old(form).value, true)
      ensures formValid ==> form == old(form)
      ensures formValid && AllWhitespace(old(form).value) ==> formNameRequired
      ensures !(formValid && AllWhitespace(old(form).value)) ==> formNameRequired == old(formNameRequired)
      ensures medicines == old(medicines) && rowForms == old(rowForms)
    {
      if !formValid {
        form := RowForm(form.value, true);
        return None;
      }
      var trimmedName := Trim(form.value);
      TrimEmptyIff(form.value);
      if trimmedName == "" {
        formNameRequired := true;
        return None;
      }
      creating := true;
      submitError := false;
      payload := Some(Medicine(None, trimmedName, Undefined));
    }

    /** The medicine was created: it goes first and the form is cleared. */
    method OnCreateSuccess(created: Medicine)
      modifies this`medicines, this`form, this`rowForms, this`creating, this`formNameRequired, this`rowNameRequired
      ensures medicines == [created] + old(medicines)
      ensures rowForms == Synced(old(rowForms), medicines, KeyOf, NameOf)
      ensures form == RowForm("", false) && !creating && !formNameRequired && rowNameRequired == {}
    {
      PrependMedicine(created);
      form := RowForm("", false);
      formNameRequired := false;
      creating := false;
    }

    method OnCreateError()
      modifies this`creating, this`submitError
      ensures submitError && !creating && medicines == old(medicines) && form == old(form)
    {
      submitError := true;
      creating := false;
    }

    /** `startEdit(medicine)`: nothing for a medicine without id. */
    method StartEdit(s: Medicine)
      modifies this`rowForms, this`editingId, this`rowNameRequired
      ensures rowNameRequired == (if s.id.Some? then old(rowNameRequired) - {RowKey(s.id.value)} else old(rowNameRequired))
      ensures s.id.None? ==> rowForms == old(rowForms) && editingId == old(editingId)
      ensures s.id.Some? ==> rowForms == Upsert(old(rowForms), RowKey(s.id.value), s.name)
                             && editingId == s.id
      ensures medicines == old(medicines) && savingId == old(savingId)
    {
      if s.id.None? {
        return;
      }
      EnsureRowForm(s);
      editingId := s.id;
    }

    /** `cancelEdit(medicine)`: the row form is reset to the medicine's name. */
    method CancelEdit(s: Medicine)
      modifies this`rowForms, this`editingId, this`rowNameRequired
      ensures rowNameRequired == (if s.id.Some? then old(rowNameRequired) - {RowKey(s.id.value)} else old(rowNameRequired))
      ensures s.id.None? ==> rowForms == old(rowForms) && editingId == old(editingId)
      ensures s.id.Some? ==> rowForms == Patch(old(rowForms), RowKey(s.id.value), s.name) && editingId.None?
      ensures medicines == old(medicines) && savingId == old(savingId)
    {
      if s.id.None? {
        return;
      }
      rowForms := Patch(rowForms, RowKey(s.id.value), s.name);
      rowNameRequired := rowNameRequired - {RowKey(s.id.value)};
      editingId := None;
    }

    /** `save(medicine)`: the update payload with the trimmed name, or None for a medicine
        without id, a missing or invalid row form (marked touched), or a blank name. */
    method Save(s: Medicine, formValid: bool) returns (payload: Option<Medicine>)
      modifies this`rowForms, this`savingId, this`rowNameRequired
      ensures rowNameRequired ==
                if s.id.Some? && RowKey(s.id.value) in old(rowForms) && formValid
                   && AllWhitespace(old(rowForms)[RowKey(s.id.value)].value)
                then old(rowNameRequired) + {RowKey(s.id.value)} else old(rowNameRequired)
      ensures payload.Some? <==>
                s.id.Some? && RowKey(s.id.value) in old(rowForms) && formValid
                && !AllWhitespace(old(rowForms)[RowKey(s.id.value)].value)
      ensures payload.Some? ==>
                payload.value == Medicine(s.id, Trim(old(rowForms)[RowKey(s.id.value)].value), Undefined)
                && savingId == s.id
      ensures payload.None? ==> savingId == old(savingId)
      ensures s.id.Some? && RowKey(s.id.value) in old(rowForms) && !formValid ==>
                rowForms == old(rowForms)[RowKey(s.id.value) := RowForm(old(rowForms)[RowKey(s.id.value)].value, true)]
      ensures !(s.id.Some? && RowKey(s.id.value) in old(rowForms) && !formValid) ==> rowForms == old(rowForms)
      ensures medicines == old(medicines) && editingId == old(editingId)
    {
      if s.id.None? {
        return None;
      }
      var key := RowKey(s.id.value);
      if key !in rowForms {
        return None;
      }
      if !formValid {
        rowForms := rowForms[key := RowForm(rowForms[key].value, true)];
        return None;
      }
      var trimmedName := Trim(rowForms[key].value);
      TrimEmptyIff(rowForms[key].value);
      if trimmedName == "" {
        rowNameRequired := rowNameRequired + {key};
        return None;
      }
      savingId := s.id;
      payload := Some(Medicine(s.id, trimmedName, Undefined));
    }

    /** The update succeeded with `updated` (None for an empty body). */
    method OnSaveSuccess(s: Medicine, trimmedName: string, updated: Option<Medicine>)
      modifies this`medicines, this`rowForms, this`editingId, this`savingId, this`rowNameRequired
      ensures var merged := if updated.Some? then updated.value else s.(name := trimmedName);
              medicines == UpdatedMedicines(old(medicines), merged) &&
              (merged.id.Some? && IndexOfMedicine(old(medicines), merged.id.value).Some? ==>
                 rowForms == Synced(old(rowForms), medicines, KeyOf, NameOf) && rowNameRequired == {}) &&
              (merged.id.None? || IndexOfMedicine(old(medicines), merged.id.value).None? ==>
                 rowForms == old(rowForms) && rowNameRequired == old(rowNameRequired))
      ensures editingId.None? && savingId.None?
    {
      ApplyMedicineUpdate(if updated.Some? then updated.value else s.(name := trimmedName));
      editingId := None;
      savingId := None;
    }

    /** The update failed: the row form gets the medicine's name back. */
    method OnSaveError(s: Medicine)
      modifies this`rowForms, this`savingId, this`rowNameRequired
      ensures rowNameRequired == (if s.id.Some? then old(rowNameRequired) - {RowKey(s.id.value)} else old(rowNameRequired))
      ensures rowForms == (if s.id.Some? then Patch(old(rowForms), RowKey(s.id.value), s.name) else old(rowForms))
      ensures savingId.None? && medicines == old(medicines) && editingId == old(editingId)
    {
      if s.id.Some? {
        rowForms := Patch(rowForms, RowKey(s.id.value), s.name);
        rowNameRequired := rowNameRequired - {RowKey(s.id.value)};
      }
      savingId := None;
    }

    /** `delete(medicine)`: the id to delete, None for a medicine without id. */
    method Delete(s: Medicine) returns (request: Option<int>)
      ensures request == s.id
    {
      request := s.id;
    }

    /** `isEditing(id)`: never for a missing id. */
    method IsEditing(id: Option<int>) returns (b: bool)
      ensures id.None? ==> !b
      ensures id.Some? ==> (b <==> editingId == id)
    {
      if id.None? {
        return false;
      }
      b := editingId == id;
    }

    /** `getRowForm(id)`: the row form under the id's key, none for a missing id. */
    method GetRowForm(id: Option<int>) returns (form: Option<RowForm<string>>)
      ensures form.Some? <==> id.Some? && RowKey(id.value) in rowForms
      ensures form.Some? ==> form.value == rowForms[RowKey(id.value)]
    {
      if id.None? {
        return None;
      }
      var key := RowKey(id.value);
      form := if key in rowForms then Some(rowForms[key]) else None;
    }

    /** The catalogue arrived (`medicines ?? []`); a failed load shows an empty list. */
    method OnLoaded(loaded: Option<seq<Medicine>>)
      modifies this`medicines, this`rowForms, this`rowNameRequired
      ensures medicines == (if loaded.Some? then loaded.value else [])
      ensures rowForms == Synced(old(rowForms), medicines, KeyOf, NameOf) && rowNameRequired == {}
    {
      medicines := if loaded.Some? then loaded.value else [];
      RefreshTable();
    }

    /** `refreshTable()` */
    method RefreshTable()
      modifies this`rowForms, this`rowNameRequired
      ensures rowForms == Synced(old(rowForms), medicines, KeyOf, NameOf)
      ensures rowNameRequired == {}
      ensures medicines == old(medicines) && editingId == old(editingId) && savingId == old(savingId)
      ensures form == old(form) && creating == old(creating) && submitError == old(submitError)
    {
      rowForms := Sync(rowForms, medicines, KeyOf, NameOf);
      rowNameRequired := {};
    }

    /** `ensureRowForm(medicine)` */
    method EnsureRowForm(s: Medicine)
      modifies this`rowForms, this`rowNameRequired
      ensures rowNameRequired == (if s.id.Some? then old(rowNameRequired) - {RowKey(s.id.value)} else old(rowNameRequired))
      ensures s.id.None? ==> rowForms == old(rowForms)
      ensures s.id.Some? ==> rowForms == Upsert(old(rowForms), RowKey(s.id.value), s.name)
      ensures medicines == old(medicines) && editingId == old(editingId) && savingId == old(savingId)
    {
      if s.id.None? {
        return;
      }
      rowForms := Upsert(rowForms, RowKey(s.id.value), s.name);
      rowNameRequired := rowNameRequired - {RowKey(s.id.value)};
    }

    /** `applyMedicineUpdate(updated)` */
    method ApplyMedicineUpdate(updated: Medicine)
      modifies this`medicines, this`rowForms, this`rowNameRequired
      ensures medicines == UpdatedMedicines(old(medicines), updated)
      ensures updated.id.Some? && IndexOfMedicine(old(medicines), updated.id.value).Some? ==>
                rowForms == Synced(old(rowForms), medicines, KeyOf, NameOf) && rowNameRequired == {}
      ensures updated.id.None? || IndexOfMedicine(old(medicines), updated.id.value).None? ==>
                rowForms == old(rowForms) && rowNameRequired == old(rowNameRequired)
      ensures editingId == old(editingId) && savingId == old(savingId)
    {
      if updated.id.None? {
        return;
      }
      var index := IndexOfMedicine(medicines, updated.id.value);
      if index.Some? {
        medicines := medicines[index.value := updated];
        RefreshTable();
      }
    }

    /** `removeMedicineFromTable(id)` */
    method RemoveMedicineFromTable(id: int)
      modifies this`medicines, this`rowForms, this`editingId, this`savingId, this`rowNameRequired
      ensures rowNameRequired == {}
      ensures medicines == RemoveWhere(old(medicines), (s: Medicine) => s.id, Some(id))
      ensures rowForms == Synced(old(rowForms) - {RowKey(id)}, medicines, KeyOf, NameOf)
      ensures editingId == ClearIfEqual(old(editingId), id)
      ensures savingId == ClearIfEqual(old(savingId), id)
    {
      medicines := RemoveWhere(medicines, (s: Medicine) => s.id, Some(id));
      rowForms := rowForms - {RowKey(id)};
      editingId := ClearIfEqual(editingId, id);
      savingId := ClearIfEqual(savingId, id);
      RefreshTable();
    }

    /** `prependMedicine(medicine)` */
    method PrependMedicine(s: Medicine)
      modifies this`medicines, this`rowForms, this`rowNameRequired
      ensures medicines == [s] + old(medicines)
      ensures rowNameRequired == {}
      ensures rowForms == Synced(old(rowForms), medicines, KeyOf, NameOf)
      ensures editingId == old(editingId) && savingId == old(savingId)
    {
      medicines := [s] + medicines;
      RefreshTable();
    }
  }
}
