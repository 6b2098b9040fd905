/**
 * `DashboardComponent`: the patient table with inline editing, the new-patient form and the
 * bag-type catalogue. Requests to the patient and bag-type services are returned to the
 * caller; their answers arrive through the `On...` continuation methods.
 */
module Dashboard {
  import opened Js
  import opened Wrappers
  import opened Utility
  import opened RowForms

  datatype BagType = BagType(id: JsNumber, kind: string, description: string)

  /** `PatientResponse` */
  datatype Patient = Patient(id: string, name: string, age: JsValue, userId: int,
                             bagType: Option<BagType>, status: Option<string>)

  /** `PatientRequest` */
  datatype PatientRequest = PatientRequest(name: string, age: JsValue, userId: int,
                                           bagTypeId: JsNumber, status: Option<string>)

  /** The values of a patient form: name, age and bag-type id as the controls hold them. */
  datatype PatientForm = PatientForm(name: string, age: JsValue, bagTypeId: JsValue)

  /** `patient.bagType?.id ?? null` */
  function BagTypeIdOf(p: Patient): (v: JsValue)
    ensures p.bagType.None? ==> v == Null
    ensures p.bagType.Some? ==> ToNumber(v) == p.bagType.value.id
  {
    match p.bagType
    case None => Null
    case Some(b) => FromNumber(b.id)
  }

  /** The row form's values for a patient. */
  function FormOf(p: Patient): PatientForm {
    PatientForm(p.name, p.age, BagTypeIdOf(p))
  }

  /** The row key of a patient: its id. */
  function KeyOf(p: Patient): Option<string> {
    Some(p.id)
  }

  /** `Number(decodedToken?.jti ?? decodedToken?.id ?? decodedToken?.sub)`, kept only when
      finite. */
  function DeriveUserId(claims: Claims): (r: Option<int>)
    ensures r.Some? <==> ToNumber(Coalesce(Coalesce(claims.jti, claims.id), claims.sub)).Finite?
  {
    match ToNumber(Coalesce(Coalesce(claims.jti, claims.id), claims.sub))
    case NaN => None
    case Finite(n) => Some(n)
  }

  /** The id chain: the first present claim decides, even when it is not numeric; absent
      claims give no id, and a null `sub` after absent claims gives 0. */
  lemma DeriveUserIdSpec(claims: Claims)
    ensures !Nullish(claims.jti) ==> DeriveUserId(claims) == (if ToNumber(claims.jti).Finite? then Some(ToNumber(claims.jti).value) else None)
    ensures Nullish(claims.jti) && !Nullish(claims.id) ==>
              DeriveUserId(claims) == (if ToNumber(claims.id).Finite? then Some(ToNumber(claims.id).value) else None)
    ensures Nullish(claims.jti) && Nullish(claims.id) && claims.sub == Undefined ==> DeriveUserId(claims).None?
    ensures Nullish(claims.jti) && Nullish(claims.id) && claims.sub == Null ==> DeriveUserId(claims) == Some(0)
  {
  }

  /** The bag-type control is empty: `value == null || value === ''`. */
  predicate BagTypeMissing(v: JsValue) {
    v == Undefined || v == Null || v == Str("")
  }

  /** The index of the first catalogue entry whose id is strictly equal to `id`. */
  function FirstBagTypeWithId(bagTypes: seq<BagType>, id: JsNumber): (r: Option<nat>)
    ensures r.Some? ==> r.value < |bagTypes| && StrictEqualsNumber(bagTypes[r.value].id, id)
    ensures r.Some? ==> forall j :: 0 <= j < r.value ==> !StrictEqualsNumber(bagTypes[j].id, id)
    ensures r.None? ==> forall j :: 0 <= j < |bagTypes| ==> !StrictEqualsNumber(bagTypes[j].id, id)
  {
    FindFirst(bagTypes, (b: BagType) => StrictEqualsNumber(b.id, id))
  }

  /** The bag type kept after a successful update without a response body: the response's,
      else the catalogue entry with that id, else the patient's, else a placeholder. */
  function ResolveBagType(updated: Option<Patient>, bagTypes: seq<BagType>, normalized: JsNumber, p: Patient): (r: BagType)
    ensures updated.Some? && updated.value.bagType.Some? ==> r == updated.value.bagType.value
    ensures (updated.None? || updated.value.bagType.None?) && FirstBagTypeWithId(bagTypes, normalized).Some?
            ==> r == bagTypes[FirstBagTypeWithId(bagTypes, normalized).value]
    ensures (updated.None? || updated.value.bagType.None?) && FirstBagTypeWithId(bagTypes, normalized).None?
            ==> r == (if p.bagType.Some? then p.bagType.value else BagType(normalized, "Sin asignar", ""))
  {
    if updated.Some? && updated.value.bagType.Some? then updated.value.bagType.value
    else
      match FirstBagTypeWithId(bagTypes, normalized)
      case Some(i) => bagTypes[i]
      case None =>
        if p.bagType.Some? then p.bagType.value else BagType(normalized, "Sin asignar", "")
  }

  class DashboardComponent {
    var patients: seq<Patient>
    var bagTypes: seq<BagType>
    var newPatientForm: RowForm<PatientForm>
    var currentUserId: Option<int>
    var rowForms: Forms<PatientForm>
    var editingPatientId: Option<string>
    var savingPatientId: Option<string>
    var creatingPatient: bool

    /** The constructor with the stored token's claims (None without a token). */
    constructor(claims: Option<Claims>)
      ensures claims.None? ==> currentUserId.None?
      ensures claims.Some? ==> currentUserId == DeriveUserId(claims.value)
      ensures patients == [] && bagTypes == [] && rowForms == map[]
      ensures editingPatientId.None? && savingPatientId.None? && !creatingPatient
      ensures newPatientForm == RowForm(PatientForm("", Null, Null), false)
    {
      patients := [];
      bagTypes := [];
      newPatientForm := RowForm(PatientForm("", Null, Null), false);
      rowForms := map[];
      editingPatientId := None;
      savingPatientId := None;
      creatingPatient := false;
      currentUserId := if claims.Some? then DeriveUserId(claims.value) else None;
    }

    /** `refreshTable()`: brings the row forms in line with the patients. */
    method RefreshTable()
      modifies this`rowForms
      ensures rowForms == Synced(old(rowForms), patients, KeyOf, FormOf)
      ensures patients == old(patients) && editingPatientId == old(editingPatientId)
      ensures savingPatientId == old(savingPatientId) && bagTypes == old(bagTypes)
      ensures newPatientForm == old(newPatientForm) && currentUserId == old(currentUserId)
      ensures creatingPatient == old(creatingPatient)
    {
      rowForms := Sync(rowForms, patients, KeyOf, FormOf);
    }

    /** `startEdit(patient)` */
    method StartEdit(p: Patient)
      modifies this`rowForms, this`editingPatientId
      ensures rowForms == Upsert(old(rowForms), p.id, FormOf(p))
      ensures editingPatientId == Some(p.id)
      ensures patients == old(patients) && savingPatientId == old(savingPatientId)
    {
      rowForms := Upsert(rowForms, p.id, FormOf(p));
      editingPatientId := Some(p.id);
    }

    /** `cancelEdit(patient)`: the row form (when there is one) is reset to the patient. */
    method CancelEdit(p: Patient)
      modifies this`rowForms, this`editingPatientId
      ensures rowForms == Patch(old(rowForms), p.id, FormOf(p))
      ensures editingPatientId.None?
      ensures patients == old(patients) && savingPatientId == old(savingPatientId)
    {
      rowForms := Patch(rowForms, p.id, FormOf(p));
      editingPatientId := None;
    }

    /** `isEditing(patientId)` */
    method IsEditing(id: string) returns (b: bool)
      ensures b <==> editingPatientId == Some(id)
    {
      b := editingPatientId == Some(id);
    }

    /** `savePatient(patient)`: the update request, or None when the row form is missing or
        invalid or its bag type is empty (then the form is marked touched). */
    method SavePatient(p: Patient, formValid: bool) returns (req: Option<PatientRequest>)
      modifies this`rowForms, this`savingPatientId
      ensures req.Some? <==> p.id in old(rowForms) && formValid && !BagTypeMissing(old(rowForms)[p.id].value.bagTypeId)
      ensures req.Some? ==>
                var f := old(rowForms)[p.id].value;
                req.value == PatientRequest(f.name, f.age, p.userId, ToNumber(f.bagTypeId), p.status)
                && savingPatientId == Some(p.id) && rowForms == old(rowForms)
      ensures req.None? ==> savingPatientId == old(savingPatientId)
      ensures req.None? && p.id in old(rowForms) ==>
                rowForms == old(rowForms)[p.id := RowForm(old(rowForms)[p.id].value, true)]
      ensures req.None? && p.id !in old(rowForms) ==> rowForms == old(rowForms)
      ensures patients == old(patients) && editingPatientId == old(editingPatientId)
    {
      if p.id !in rowForms {
        return None;
      }
      var form := rowForms[p.id];
      if !formValid {
        rowForms := rowForms[p.id := RowForm(form.value, true)];
        return None;
      }
      var f := form.value;
      if BagTypeMissing(f.bagTypeId) {
        rowForms := rowForms[p.id := RowForm(form.value, true)];
        return None;
      }
      savingPatientId := Some(p.id);
      req := Some(PatientRequest(f.name, f.age, p.userId, ToNumber(f.bagTypeId), p.status));
    }

    /** The update succeeded with `updated` (None for an empty body); `sent` is the form
        value the request was built from. */
    method OnSaveSuccess(p: Patient, sent: PatientForm, updated: Option<Patient>)
      modifies this`patients, this`rowForms, this`editingPatientId, this`savingPatientId
      ensures var merged := if updated.Some? then updated.value
                            else Patient(p.id, sent.name, sent.age, p.userId,
                                         Some(ResolveBagType(updated, old(bagTypes), ToNumber(sent.bagTypeId), p)), p.status);
              patients == UpdatedPatients(old(patients), merged) &&
              (IndexOfPatient(old(patients), merged.id).Some? ==> rowForms == Synced(old(rowForms), patients, KeyOf, FormOf)) &&
              (IndexOfPatient(old(patients), merged.id).None? ==> rowForms == old(rowForms))
      ensures editingPatientId.None? && savingPatientId.None?
    {
      var normalized := ToNumber(sent.bagTypeId);
      var resolved := ResolveBagType(updated, bagTypes, normalized, p);
      var merged := if updated.Some? then updated.value
                    else Patient(p.id, sent.name, sent.age, p.userId, Some(resolved), p.status);
      ApplyPatientUpdate(merged);
      editingPatientId := None;
      savingPatientId := None;
    }

    /** The update failed: the row form is reset to the patient. */
    method OnSaveError(p: Patient)
      modifies this`rowForms, this`savingPatientId
      ensures rowForms == Patch(old(rowForms), p.id, FormOf(p))
      ensures savingPatientId.None? && patients == old(patients) && editingPatientId == old(editingPatientId)
    {
      rowForms := Patch(rowForms, p.id, FormOf(p));
      savingPatientId := None;
    }

    /** `applyPatientUpdate(updated)`: the first patient with that id is replaced, then the
        table is refreshed; without a match nothing changes. */
    method ApplyPatientUpdate(updated: Patient)
      modifies this`patients, this`rowForms
      ensures patients == UpdatedPatients(old(patients), updated)
      ensures IndexOfPatient(old(patients), updated.id).Some? ==> rowForms == Synced(old(rowForms), patients, KeyOf, FormOf)
      ensures IndexOfPatient(old(patients), updated.id).None? ==> rowForms == old(rowForms)
      ensures editingPatientId == old(editingPatientId) && savingPatientId == old(savingPatientId)
    {
      var index := IndexOfPatient(patients, updated.id);
      if index.Some? {
        patients := patients[index.value := updated];
        RefreshTable();
      }
    }

    /** `removePatientFromTable(patient)` */
    method RemovePatientFromTable(p: Patient)
      modifies this`patients, this`rowForms, this`editingPatientId, this`savingPatientId
      ensures patients == RemoveWhere(old(patients), (q: Patient) => q.id, p.id)
      ensures rowForms == Synced(old(rowForms) - {p.id}, patients, KeyOf, FormOf)
      ensures editingPatientId == ClearIfEqual(old(editingPatientId), p.id)
      ensures savingPatientId == ClearIfEqual(old(savingPatientId), p.id)
    {
      patients := RemoveWhere(patients, (q: Patient) => q.id, p.id);
      rowForms := rowForms - {p.id};
      editingPatientId := ClearIfEqual(editingPatientId, p.id);
      savingPatientId := ClearIfEqual(savingPatientId, p.id);
      RefreshTable();
    }

    /** `submitNewPatient()`: the create request, or None without a user id or with an
        invalid form (then marked touched). */
    method SubmitNewPatient(formValid: bool) returns (req: Option<PatientRequest>)
      modifies this`newPatientForm, this`creatingPatient
      ensures req.Some? <==> old(currentUserId).Some? && old(currentUserId).value != 0 && formValid
      ensures req.Some? ==>
                var f := old(newPatientForm).value;
                req.value == PatientRequest(f.name, f.age, old(currentUserId).value, ToNumber(f.bagTypeId), None)
                && creatingPatient
      ensures req.None? ==> creatingPatient == old(creatingPatient)
      ensures old(currentUserId).Some? && old(currentUserId).value != 0 && !formValid ==>
                newPatientForm == RowForm(old(newPatientForm).value, true)
      ensures !(old(currentUserId).Some? && old(currentUserId).value != 0 && !formValid) ==>
                newPatientForm == old(newPatientForm)
      ensures patients == old(patients) && rowForms == old(rowForms)
    {
      if currentUserId.None? || currentUserId.value == 0 {
        return None;
      }
      if !formValid {
        newPatientForm := RowForm(newPatientForm.value, true);
        return None;
      }
      var f := newPatientForm.value;
      creatingPatient := true;
      req := Some(PatientRequest(f.name, f.age, currentUserId.value, ToNumber(f.bagTypeId), None));
    }

    /** The patient was created: it goes first, and the form is reset with the first bag type. */
    method OnCreateSuccess(created: Patient)
      modifies this`patients, this`newPatientForm, this`rowForms, this`creatingPatient
      ensures patients == [created] + old(patients)
      ensures rowForms == Synced(old(rowForms), patients, KeyOf, FormOf)
      ensures newPatientForm == RowForm(PatientForm("", Null, DefaultBagTypeId(bagTypes)), false)
      ensures !creatingPatient
    {
      patients := [created] + patients;
      RefreshTable();
      newPatientForm := RowForm(PatientForm("", Null, DefaultBagTypeId(bagTypes)), false);
      creatingPatient := false;
    }

    /** Creating the patient failed: the error is only logged, and creation ends. */
    method OnCreateError()
      modifies this`creatingPatient
      ensures !creatingPatient
    {
      creatingPatient := false;
    }

    /** The patient list of the signed-in user arrived: it replaces the table. */
    method OnPatientsLoaded(data: seq<Patient>)
      modifies this`patients, this`rowForms
      ensures patients == data
      ensures rowForms == Synced(old(rowForms), data, KeyOf, FormOf)
      ensures editingPatientId == old(editingPatientId) && savingPatientId == old(savingPatientId)
      ensures bagTypes == old(bagTypes) && newPatientForm == old(newPatientForm)
    {
      patients := data;
      RefreshTable();
    }

    /** Loading the bag types failed: the catalogue is empty. */
    method OnBagTypesError()
      modifies this`bagTypes
      ensures bagTypes == []
      ensures patients == old(patients) && rowForms == old(rowForms) && newPatientForm == old(newPatientForm)
    {
      bagTypes := [];
    }

    /** The bag types arrived. */
    method OnBagTypesLoaded(types: seq<BagType>)
      modifies this`bagTypes, this`newPatientForm
      ensures bagTypes == types
      ensures BagTypeMissing(old(newPatientForm).value.bagTypeId) && types != [] ==>
                newPatientForm == RowForm(old(newPatientForm).value.(bagTypeId := FromNumber(types[0].id)),
                                          old(newPatientForm).touched)
      ensures !(BagTypeMissing(old(newPatientForm).value.bagTypeId) && types != []) ==>
                newPatientForm == old(newPatientForm)
    {
      bagTypes := types;
      EnsureDefaultBagTypeSelection();
    }

    /** `ensureDefaultBagTypeSelection()`: an empty control gets the first bag type's id. */
    method EnsureDefaultBagTypeSelection()
      modifies this`newPatientForm
      ensures BagTypeMissing(old(newPatientForm).value.bagTypeId) && bagTypes != [] ==>
                newPatientForm == RowForm(old(newPatientForm).value.(bagTypeId := FromNumber(bagTypes[0].id)),
                                          old(newPatientForm).touched)
      ensures !(BagTypeMissing(old(newPatientForm).value.bagTypeId) && bagTypes != []) ==>
                newPatientForm == old(newPatientForm)
      ensures bagTypes == old(bagTypes) && patients == old(patients) && rowForms == old(rowForms)
    {
      var current := newPatientForm.value.bagTypeId;
      if BagTypeMissing(current) && |bagTypes| > 0 {
        newPatientForm := RowForm(newPatientForm.value.(bagTypeId := FromNumber(bagTypes[0].id)), newPatientForm.touched);
      }
    }
  }

  /** `bagTypes[0]?.id ?? null` */
  function DefaultBagTypeId(bagTypes: seq<BagType>): (v: JsValue)
    ensures bagTypes == [] ==> v == Null
    ensures bagTypes != [] ==> ToNumber(v) == bagTypes[0].id
  {
    if bagTypes == [] then Null else FromNumber(bagTypes[0].id)
  }

  /** `patients.findIndex(p => p.id === id)` */
  function IndexOfPatient(patients: seq<Patient>, id: string): Option<nat> {
    FindFirst(patients, (q: Patient) => q.id == id)
  }

  /** The patients after `applyPatientUpdate(updated)`: the first patient with that id is
      replaced and every other position is kept; without a match nothing changes. */
  function UpdatedPatients(patients: seq<Patient>, updated: Patient): (r: seq<Patient>)
    ensures |r| == |patients|
    ensures (forall i | 0 <= i < |patients| :: patients[i].id != updated.id) ==> r == patients
    ensures forall i | 0 <= i < |patients| && patients[i].id == updated.id
              && (forall j | 0 <= j < i :: patients[j].id != updated.id) ::
              r == patients[i := updated]
  {
    match IndexOfPatient(patients, updated.id)
    case None => patients
    case Some(i) => patients[i := updated]
  }

  /** After a refresh every patient has a row form holding its values, and no other forms
      remain. */
  lemma RowFormsFollowPatients(forms: Forms<PatientForm>, patients: seq<Patient>)
    requires forall i, j | 0 <= i < j < |patients| :: patients[i].id != patients[j].id
    ensures Synced(forms, patients, KeyOf, FormOf).Keys == set p | p in patients :: p.id
    ensures forall i | 0 <= i < |patients| :: Synced(forms, patients, KeyOf, FormOf)[patients[i].id].value == FormOf(patients[i])
  {
    KeysOfSpec(patients, KeyOf);
    SyncedSpec(forms, patients, KeyOf, FormOf);
    forall i | 0 <= i < |patients|
      ensures Synced(forms, patients, KeyOf, FormOf)[patients[i].id].value == FormOf(patients[i])
    {
      LastValueOfUniqueKey(patients, KeyOf, FormOf, i);
    }
    KeysOfAsSet(patients, KeyOf);
  }
}
