/**
 * `VitalSignFormComponent`: the vital-sign catalogue with a create form and inline row
 * editing. Service requests are returned; their answers arrive through the `On...` methods.
 */
module VitalSignForm {
  import opened Js
  import opened Wrappers
  import opened Utility
  import opened RowForms
  import opened Catalog

  /** The row key of a sign, none for a sign without id. */
  function KeyOf(s: VitalSign): Option<string> {
    if s.id.Some? then Some(RowKey(s.id.value)) else None
  }

  /** The row form's value for a sign: its name. */
  function NameOf(s: VitalSign): string {
    s.name
  }

  /** `this.decodedToken?.userId ?? 0` */
  function UserIdClaim(decoded: Option<Claims>): (v: JsValue)
    ensures decoded.None? ==> v == Num(0)
    ensures decoded.Some? && !Nullish(decoded.value.userId) ==> v == decoded.value.userId
    ensures decoded.Some? && Nullish(decoded.value.userId) ==> v == Num(0)
  {
    if decoded.None? then Num(0) else Coalesce(decoded.value.userId, Num(0))
  }

  /** `vitalSigns.findIndex(sign => sign.id === id)` */
  function IndexOfSign(signs: seq<VitalSign>, id: int): Option<nat> {
    FindFirst(signs, (s: VitalSign) => s.id == Some(id))
  }

  /** The signs after `applyVitalSignUpdate(updated)`: nothing changes for an update without
      id or without a match, else the first sign with that id is replaced. */
  function UpdatedSigns(signs: seq<VitalSign>, updated: VitalSign): (r: seq<VitalSign>)
    ensures |r| == |signs|
    ensures updated.id.None? ==> r == signs
    ensures updated.id.Some? && (forall i | 0 <= i < |signs| :: signs[i].id != updated.id) ==> r == signs
    ensures updated.id.Some? ==>
              forall i | 0 <= i < |signs| && signs[i].id == updated.id
                && (forall j | 0 <= j < i :: signs[j].id != updated.id) ::
                r == signs[i := updated]
  {
    if updated.id.None? then signs
    else
      match IndexOfSign(signs, updated.id.value)
      case None => signs
      case Some(i) => signs[i := updated]
  }

  /** After a refresh the row keys are exactly the ids of the signs that have one. */
  lemma RowFormsFollowSigns(forms: Forms<string>, signs: seq<VitalSign>)
    ensures Synced(forms, signs, KeyOf, NameOf).Keys == set s | s in signs && s.id.Some? :: RowKey(s.id.value)
  {
    KeysOfAsSet(signs, KeyOf);
    SyncedSpec(forms, signs, KeyOf, NameOf);
  }

  class VitalSignFormComponent {
    const decoded: Option<Claims>
    var vitalSigns: seq<VitalSign>
    /** The create form's name control. */
    var form: RowForm<string>
    var rowForms: Forms<string>
    var editingId: Option<int>
    var savingId: Option<int>
    var creating: bool
    var submitError: bool
    /** Whether the create form's name control carries the `required` error that `submit`
        sets on a blank name; resetting the form clears it. */
    var formNameRequired: bool
    /** The row keys whose name control carries the `required` error that `save` sets on a
        blank name; `setValue` and `patchValue` on that row form clear it. */
    var rowNameRequired: set<string>

    /** `decoded` is the stored token's claims (None without a token). */
    constructor(decoded: Option<Claims>)
      ensures this.decoded == decoded && vitalSigns == [] && rowForms == map[]
      ensures form == RowForm("", false) && editingId.None? && savingId.None?
      ensures !creating && !submitError
      ensures !formNameRequired && rowNameRequired == {}
    {
      this.decoded := decoded;
      vitalSigns := [];
      form := RowForm("", false);
      rowForms := map[];
      editingId := None;
      savingId := None;
      creating := false;
      submitError := false;
      formNameRequired := false;
      rowNameRequired := {};
    }

    /** `submit()`: the create payload with the trimmed name, or None for an invalid form
        (marked touched) or a name that is only whitespace. */
    method Submit(formValid: bool) returns (payload: Option<VitalSign>)
      modifies this`form, this`creating, this`submitError, this`formNameRequired
      ensures payload.Some? <==> formValid && !AllWhitespace(old(form).value)
      ensures payload.Some? ==> payload.value == VitalSign(None, Trim(old(form).value), UserIdClaim(decoded))
                                && creating && !submitError
      ensures payload.None? ==> creating == old(creating) && submitError == old(submitError)
      ensures !formValid ==> form == RowForm(old(form).value, true)
      ensures formValid ==> form == old(form)
      ensures formValid && AllWhitespace(old(form).value) ==> formNameRequired
      ensures !(formValid && AllWhitespace(old(form).value)) ==> formNameRequired == old(formNameRequired)
      ensures vitalSigns == old(vitalSigns) && rowForms == old(rowForms)
    {
      if !formValid {
        form := RowForm(form.value, true);
        return None;
      }
      var trimmedName := Trim(form.value);
      TrimEmptyIff(form.value);
      if trimmedName == "" {
        formNameRequired := true;
        return None;
      }
      creating := true;
      submitError := false;
      payload := Some(VitalSign(None, trimmedName, UserIdClaim(decoded)));
    }

    /** The sign was created: it goes first and the form is cleared. */
    method OnCreateSuccess(created: VitalSign)
      modifies this`vitalSigns, this`form, this`rowForms, this`creating, this`formNameRequired, this`rowNameRequired
      ensures vitalSigns == [created] + old(vitalSigns)
      ensures rowForms == Synced(old(rowForms), vitalSigns, KeyOf, NameOf)
      ensures form == RowForm("", false) && !creating && !formNameRequired && rowNameRequired == {}
    {
      PrependVitalSign(created);
      form := RowForm("", false);
      formNameRequired := false;
      creating := false;
    }

    method OnCreateError()
      modifies this`creating, this`submitError
      ensures submitError && !creating && vitalSigns == old(vitalSigns) && form == old(form)
    {
      submitError := true;
      creating := false;
    }

    /** `startEdit(vitalSign)`: nothing for a sign without id. */
    method StartEdit(s: VitalSign)
      modifies this`rowForms, this`editingId, this`rowNameRequired
      ensures rowNameRequired == (if s.id.Some? then old(rowNameRequired) - {RowKey(s.id.value)} else old(rowNameRequired))
      ensures s.id.None? ==> rowForms == old(rowForms) && editingId == old(editingId)
      ensures s.id.Some? ==> rowForms == Upsert(old(rowForms), RowKey(s.id.value), s.name)
                             && editingId == s.id
      ensures vitalSigns == old(vitalSigns) && savingId == old(savingId)
    {
      if s.id.None? {
        return;
      }
      EnsureRowForm(s);
      editingId := s.id;
    }

    /** `cancelEdit(vitalSign)`: the row form is reset to the sign's name. */
    method CancelEdit(s: VitalSign)
      modifies this`rowForms, this`editingId, this`rowNameRequired
      ensures rowNameRequired == (if s.id.Some? then old(rowNameRequired) - {RowKey(s.id.value)} else old(rowNameRequired))
      ensures s.id.None? ==> rowForms == old(rowForms) && editingId == old(editingId)
      ensures s.id.Some? ==> rowForms == Patch(old(rowForms), RowKey(s.id.value), s.name) && editingId.None?
      ensures vitalSigns == old(vitalSigns) && savingId == old(savingId)
    {
      if s.id.None? {
        return;
      }
      rowForms := Patch(rowForms, RowKey(s.id.value), s.name);
      rowNameRequired := rowNameRequired - {RowKey(s.id.value)};
      editingId := None;
    }

    /** `save(vitalSign)`: the update payload with the trimmed name, or None for a sign
        without id, a missing or invalid row form (marked touched), or a blank name. */
    method Save(s: VitalSign, formValid: bool) returns (payload: Option<VitalSign>)
      modifies this`rowForms, this`savingId, this`rowNameRequired
      ensures rowNameRequired ==
                if s.id.Some? && RowKey(s.id.value) in old(rowForms) && formValid
                   && AllWhitespace(old(rowForms)[RowKey(s.id.value)].value)
                then old(rowNameRequired) + {RowKey(s.id.value)} else old(rowNameRequired)
      ensures payload.Some? <==>
                s.id.Some? && RowKey(s.id.value) in old(rowForms) && formValid
                && !AllWhitespace(old(rowForms)[RowKey(s.id.value)].value)
      ensures payload.Some? ==>
                payload.value == VitalSign(s.id, Trim(old(rowForms)[RowKey(s.id.value)].value), UserIdClaim(decoded))
                && savingId == s.id
      ensures payload.None? ==> savingId == old(savingId)
      ensures s.id.Some? && RowKey(s.id.value) in old(rowForms) && !formValid ==>
                rowForms == old(rowForms)[RowKey(s.id.value) := RowForm(old(rowForms)[RowKey(s.id.value)].value, true)]
      ensures !(s.id.Some? && RowKey(s.id.value) in old(rowForms) && !formValid) ==> rowForms == old(rowForms)
      ensures vitalSigns == old(vitalSigns) && editingId == old(editingId)
    {
      if s.id.None? {
        return None;
      }
      var key := RowKey(s.id.value);
      if key !in rowForms {
        return None;
      }
      if !formValid {
        rowForms := rowForms[key := RowForm(rowForms[key].value, true)];
        return None;
      }
      var trimmedName := Trim(rowForms[key].value);
      TrimEmptyIff(rowForms[key].value);
      if trimmedName == "" {
        rowNameRequired := rowNameRequired + {key};
        return None;
      }
      savingId := s.id;
      payload := Some(VitalSign(s.id, trimmedName, UserIdClaim(decoded)));
    }

    /** The update succeeded with `updated` (None for an empty body). */
    method OnSaveSuccess(s: VitalSign, trimmedName: string, updated: Option<VitalSign>)
      modifies this`vitalSigns, this`rowForms, this`editingId, this`savingId, this`rowNameRequired
      ensures var merged := if updated.Some? then updated.value else s.(name := trimmedName);
              vitalSigns == UpdatedSigns(old(vitalSigns), merged) &&
              (merged.id.Some? && IndexOfSign(old(vitalSigns), merged.id.value).Some? ==>
                 rowForms == Synced(old(rowForms), vitalSigns, KeyOf, NameOf) && rowNameRequired == {}) &&
              (merged.id.None? || IndexOfSign(old(vitalSigns), merged.id.value).None? ==>
                 rowForms == old(rowForms) && rowNameRequired == old(rowNameRequired))
      ensures editingId.None? && savingId.None?
    {
      ApplyVitalSignUpdate(if updated.Some? then updated.value else s.(name := trimmedName));
      editingId := None;
      savingId := None;
    }

    /** The update failed: the row form gets the sign's name back. */
    method OnSaveError(s: VitalSign)
      modifies this`rowForms, this`savingId, this`rowNameRequired
      ensures rowNameRequired == (if s.id.Some? then old(rowNameRequired) - {RowKey(s.id.value)} else old(rowNameRequired))
      ensures rowForms == (if s.id.Some? then Patch(old(rowForms), RowKey(s.id.value), s.name) else old(rowForms))
      ensures savingId.None? && vitalSigns == old(vitalSigns) && editingId == old(editingId)
    {
      if s.id.Some? {
        rowForms := Patch(rowForms, RowKey(s.id.value), s.name);
        rowNameRequired := rowNameRequired - {RowKey(s.id.value)};
      }
      savingId := None;
    }

    /** `delete(vitalSign)`: the id to delete, None for a sign without id. */
    method Delete(s: VitalSign) returns (request: Option<int>)
      ensures request == s.id
    {
      request := s.id;
    }

    /** `isEditing(id)`: never for a missing id. */
    method IsEditing(id: Option<int>) returns (b: bool)
      ensures id.None? ==> !b
      ensures id.Some? ==> (b <==> editingId == id)
    {
      if id.None? {
        return false;
      }
      b := editingId == id;
    }

    /** `getRowForm(id)`: the row form under the id's key, none for a missing id. */
    method GetRowForm(id: Option<int>) returns (form: Option<RowForm<string>>)
      ensures form.Some? <==> id.Some? && RowKey(id.value) in rowForms
      ensures form.Some? ==> form.value == rowForms[RowKey(id.value)]
    {
      if id.None? {
        return None;
      }
      var key := RowKey(id.value);
      form := if key in rowForms then Some(rowForms[key]) else None;
    }

    /** The catalogue arrived (`signs ?? []`); a failed load shows an empty list. */
    method OnLoaded(signs: Option<seq<VitalSign>>)
      modifies this`vitalSigns, this`rowForms, this`rowNameRequired
      ensures vitalSigns == (if signs.Some? then signs.value else [])
      ensures rowForms == Synced(old(rowForms), vitalSigns, KeyOf, NameOf) && rowNameRequired == {}
    {
      vitalSigns := if signs.Some? then signs.value else [];
      RefreshTable();
    }

    /** `refreshTable()` */
    method RefreshTable()
      modifies this`rowForms, this`rowNameRequired
      ensures rowForms == Synced(old(rowForms), vitalSigns, KeyOf, NameOf)
      ensures rowNameRequired == {}
      ensures vitalSigns == old(vitalSigns) && editingId == old(editingId) && savingId == old(savingId)
      ensures form == old(form) && creating == old(creating) && submitError == old(submitError)
    {
      rowForms := Sync(rowForms, vitalSigns, KeyOf, NameOf);
      rowNameRequired := {};
    }

    /** `ensureRowForm(sign)` */
    method EnsureRowForm(s: VitalSign)
      modifies this`rowForms, this`rowNameRequired
      ensures rowNameRequired == (if s.id.Some? then old(rowNameRequired) - {RowKey(s.id.value)} else old(rowNameRequired))
      ensures s.id.None? ==> rowForms == old(rowForms)
      ensures s.id.Some? ==> rowForms == Upsert(old(rowForms), RowKey(s.id.value), s.name)
      ensures vitalSigns == old(vitalSigns) && editingId == old(editingId) && savingId == old(savingId)
    {
      if s.id.None? {
        return;
      }
      rowForms := Upsert(rowForms, RowKey(s.id.value), s.name);
      rowNameRequired := rowNameRequired - {RowKey(s.id.value)};
    }

    /** `applyVitalSignUpdate(updated)` */
    method ApplyVitalSignUpdate(updated: VitalSign)
      modifies this`vitalSigns, this`rowForms, this`rowNameRequired
      ensures vitalSigns == UpdatedSigns(old(vitalSigns), updated)
      ensures updated.id.Some? && IndexOfSign(old(vitalSigns), updated.id.value).Some? ==>
                rowForms == Synced(old(rowForms), vitalSigns, KeyOf, NameOf) && rowNameRequired == {}
      ensures updated.id.None? || IndexOfSign(old(vitalSigns), updated.id.value).None? ==>
                rowForms == old(rowForms) && rowNameRequired == old(rowNameRequired)
      ensures editingId == old(editingId) && savingId == old(savingId)
    {
      if updated.id.None? {
        return;
      }
      var index := IndexOfSign(vitalSigns, updated.id.value);
      if index.Some? {
        vitalSigns := vitalSigns[index.value := updated];
        RefreshTable();
      }
    }

    /** `removeVitalSignFromTable(id)` */
    method RemoveVitalSignFromTable(id: int)
      modifies this`vitalSigns, this`rowForms, this`editingId, this`savingId, this`rowNameRequired
      ensures rowNameRequired == {}
      ensures vitalSigns == RemoveWhere(old(vitalSigns), (s: VitalSign) => s.id, Some(id))
      ensures rowForms == Synced(old(rowForms) - {RowKey(id)}, vitalSigns, KeyOf, NameOf)
      ensures editingId == ClearIfEqual(old(editingId), id)
      ensures savingId == ClearIfEqual(old(savingId), id)
    {
      vitalSigns := RemoveWhere(vitalSigns, (s: VitalSign) => s.id, Some(id));
      rowForms := rowForms - {RowKey(id)};
      editingId := ClearIfEqual(editingId, id);
      savingId := ClearIfEqual(savingId, id);
      RefreshTable();
    }

    /** `prependVitalSign(sign)` */
    method PrependVitalSign(s: VitalSign)
      modifies this`vitalSigns, this`rowForms, this`rowNameRequired
      ensures vitalSigns == [s] + old(vitalSigns)
      ensures rowNameRequired == {}
      ensures rowForms == Synced(old(rowForms), vitalSigns, KeyOf, NameOf)
      ensures editingId == old(editingId) && savingId == old(savingId)
    {
      vitalSigns := [s] + vitalSigns;
      RefreshTable();
    }
  }
}
