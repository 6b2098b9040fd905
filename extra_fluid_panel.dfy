/**
 * `ExtraFluidPanelComponent`: a patient's extra-fluid records (urine and ingested volume at
 * a date) with a create form and inline row editing, optionally filtered by a date range.
 * Service requests are returned; their answers arrive through the `On...` methods.
 */
module ExtraFluidPanel {
  import opened Js
  import opened Wrappers
  import opened Dates
  import opened RowForms
  import opened Panels

  /** A record as the backend sends it; any of the three id fields may be missing. */
  datatype FluidRecord = FluidRecord(id: JsValue, extraFluidId: JsValue, fluidId: JsValue,
                                     date: DateValue, urine: JsValue, ingested: JsValue)

  /** The value of a row form or of the create form. */
  datatype FluidForm = FluidForm(date: Option<JsDate>, urine: JsValue, ingested: JsValue)

  /** The `ExtraFluid` payload of a create or update request. */
  datatype ExtraFluid = ExtraFluid(patientId: int, urine: JsNumber, ingested: JsNumber, date: Option<JsDate>)

  datatype UpdateRequest = UpdateRequest(id: JsNumber, payload: ExtraFluid)

  /** `extractRecordId(record)`: `Number(id ?? extraFluidId ?? fluidId)`, null when all three
      are missing. */
  function ExtractRecordId(r: FluidRecord): (id: Option<JsNumber>)
    ensures id.None? <==> Nullish(r.id) && Nullish(r.extraFluidId) && Nullish(r.fluidId)
    ensures !Nullish(r.id) ==> id == Some(ToNumber(r.id))
    ensures Nullish(r.id) && !Nullish(r.extraFluidId) ==> id == Some(ToNumber(r.extraFluidId))
    ensures Nullish(r.id) && Nullish(r.extraFluidId) && !Nullish(r.fluidId) ==> id == Some(ToNumber(r.fluidId))
  {
    RecordId(Coalesce(Coalesce(Coalesce(r.id, r.extraFluidId), r.fluidId), Null))
  }

  function KeyOf(r: FluidRecord): Option<string> {
    KeyOfId(ExtractRecordId(r))
  }

  /** The form value of a record: its date as a `Date` (or null), its two volumes. */
  function FormOf(r: FluidRecord): FluidForm {
    FluidForm(DateOf(r.date), r.urine, r.ingested)
  }

  /** `normalizeRecords(records)`: every date becomes a `Date` object or null, nothing else
      changes. */
  function NormalizeRecords(records: seq<FluidRecord>): (r: seq<FluidRecord>)
    ensures |r| == |records|
    ensures forall i | 0 <= i < |r| ::
              r[i] == records[i].(date := NormalizedDate(records[i].date)) && FormOf(r[i]) == FormOf(records[i])
  {
    seq(|records|, i requires 0 <= i < |records| => records[i].(date := NormalizedDate(records[i].date)))
  }

  /** `mapFormToPayload(formValue)`: the volumes through `Number(...)`, the date copied, the
      patient the form names or else the panel's. */
  function MapFormToPayload(f: FluidForm, formPatientId: Option<int>, patientId: int): (p: ExtraFluid)
    ensures p.patientId == formPatientId.GetOr(patientId)
    ensures p.urine == ToNumber(f.urine) && p.ingested == ToNumber(f.ingested)
    ensures p.date.None? <==> f.date.None?
    ensures f.date.Some? ==> p.date == f.date
  {
    var baseDate := if f.date.Some? then Some(f.date.value) else None;
    ExtraFluid(formPatientId.GetOr(patientId), ToNumber(f.urine), ToNumber(f.ingested), baseDate)
  }

  /** After a sync the row keys are exactly the keys of the records with an id, and the form
      of a record whose id no other record shares holds that record's values. */
  lemma RowFormsFollowRecords(forms: Forms<FluidForm>, records: seq<FluidRecord>, j: nat)
    ensures Synced(forms, records, KeyOf, FormOf).Keys
            == set x | x in records && ExtractRecordId(x).Some? :: RowKey(ExtractRecordId(x).value)
    ensures (j < |records| && ExtractRecordId(records[j]).Some?
             && forall i | 0 <= i < |records| && i != j :: KeyOf(records[i]) != KeyOf(records[j]))
            ==> Synced(forms, records, KeyOf, FormOf)[KeyOf(records[j]).value].value == FormOf(records[j])
  {
    KeysOfAsSet(records, KeyOf);
    SyncedSpec(forms, records, KeyOf, FormOf);
    if j < |records| && KeyOf(records[j]).Some?
       && forall i | 0 <= i < |records| && i != j :: KeyOf(records[i]) != KeyOf(records[j]) {
      LastValueOfUniqueKey(records, KeyOf, FormOf, j);
    }
  }

  class ExtraFluidPanelComponent {
    var patientId: int
    var filterStart: DateValue
    var filterEnd: DateValue
    var records: seq<FluidRecord>
    var createForm: RowForm<FluidForm>
    var rowForms: Forms<FluidForm>
    var loading: bool
    var creating: bool
    var savingId: Option<JsNumber>
    var editingId: Option<JsNumber>

    /** The create form starts at the current instant `now` with both volumes empty. */
    constructor(patientId: int, filterStart: DateValue, filterEnd: DateValue, now: Civil)
      ensures this.patientId == patientId && this.filterStart == filterStart && this.filterEnd == filterEnd
      ensures records == [] && rowForms == map[] && !loading && !creating
      ensures createForm == RowForm(FluidForm(Some(ValidDate(now)), Null, Null), false)
      ensures savingId.None? && editingId.None?
    {
      this.patientId := patientId;
      this.filterStart := filterStart;
      this.filterEnd := filterEnd;
      records := [];
      createForm := RowForm(FluidForm(Some(ValidDate(now)), Null, Null), false);
      rowForms := map[];
      loading := false;
      creating := false;
      savingId := None;
      editingId := None;
    }

    /** `ngOnInit()`: loads when there is a patient. */
    method NgOnInit() returns (request: Option<RecordsRequest>)
      modifies this`loading
      ensures request == LoadRequest(patientId, filterStart, filterEnd)
      ensures loading == (request.Some? || old(loading))
      ensures records == old(records) && rowForms == old(rowForms) && editingId == old(editingId)
    {
      request := None;
      if patientId != 0 {
        request := LoadRecords();
      }
    }

    /** `ngOnChanges(changes)`: the inputs take their current values, and the records are
        reloaded exactly when the reload rule holds. */
    method NgOnChanges(changes: Changes) returns (request: Option<RecordsRequest>)
      modifies this`patientId, this`filterStart, this`filterEnd, this`loading
      ensures patientId == Applied(old(patientId), changes.patientId)
      ensures filterStart == Applied(old(filterStart), changes.filterStart)
      ensures filterEnd == Applied(old(filterEnd), changes.filterEnd)
      ensures request.Some? <==> ShouldReload(changes) && patientId != 0
      ensures request.Some? ==> request == LoadRequest(patientId, filterStart, filterEnd) && loading
      ensures request.None? ==> loading == old(loading)
      ensures records == old(records) && rowForms == old(rowForms) && editingId == old(editingId)
    {
      patientId := Applied(patientId, changes.patientId);
      filterStart := Applied(filterStart, changes.filterStart);
      filterEnd := Applied(filterEnd, changes.filterEnd);
      request := None;
      if ShouldReload(changes) {
        request := LoadRecords();
      }
    }

    /** `loadRecords()` */
    method LoadRecords() returns (request: Option<RecordsRequest>)
      modifies this`loading
      ensures request == LoadRequest(patientId, filterStart, filterEnd)
      ensures loading == (request.Some? || old(loading))
      ensures patientId == old(patientId) && filterStart == old(filterStart) && filterEnd == old(filterEnd)
      ensures records == old(records) && rowForms == old(rowForms)
      ensures editingId == old(editingId) && savingId == old(savingId)
      ensures createForm == old(createForm) && creating == old(creating)
    {
      request := LoadRequest(patientId, filterStart, filterEnd);
      if request.Some? {
        loading := true;
      }
    }

    /** The records arrived: they are normalised and the row forms follow them. */
    method OnRecordsLoaded(loaded: seq<FluidRecord>)
      modifies this`records, this`rowForms, this`loading
      ensures records == NormalizeRecords(loaded)
      ensures rowForms == Synced(old(rowForms), records, KeyOf, FormOf)
      ensures !loading && editingId == old(editingId) && savingId == old(savingId)
    {
      records := NormalizeRecords(loaded);
      rowForms := Sync(rowForms, records, KeyOf, FormOf);
      loading := false;
    }

    method OnRecordsError()
      modifies this`loading
      ensures !loading && records == old(records) && rowForms == old(rowForms)
    {
      loading := false;
    }

    /** `startEdit(record)`: a form for the record is created if missing, existing ones are
        left as they are. */
    method StartEdit(r: FluidRecord)
      modifies this`rowForms, this`editingId
      ensures ExtractRecordId(r).None? ==> rowForms == old(rowForms) && editingId == old(editingId)
      ensures ExtractRecordId(r).Some? ==>
                rowForms == EnsurePresent(old(rowForms), KeyOf(r).value, FormOf(r)) && editingId == ExtractRecordId(r)
      ensures records == old(records) && savingId == old(savingId)
    {
      var id := ExtractRecordId(r);
      if id.None? {
        return;
      }
      rowForms := EnsurePresent(rowForms, RowKey(id.value), FormOf(r));
      editingId := id;
    }

    /** `cancelEdit(record)`: an existing row form gets the record's values back and no row
        is being edited any more. */
    method CancelEdit(r: FluidRecord)
      modifies this`rowForms, this`editingId
      ensures ExtractRecordId(r).None? ==> rowForms == old(rowForms) && editingId == old(editingId)
      ensures ExtractRecordId(r).Some? ==>
                rowForms == Patch(old(rowForms), KeyOf(r).value, FormOf(r)) && editingId.None?
      ensures records == old(records) && savingId == old(savingId)
    {
      var id := ExtractRecordId(r);
      if id.None? {
        return;
      }
      rowForms := Patch(rowForms, RowKey(id.value), FormOf(r));
      editingId := None;
    }

    /** `saveRecord(record)`: the update request, or None for a record without id, a missing
        row form, or an invalid one (then marked touched). */
    method SaveRecord(r: FluidRecord, formValid: bool) returns (request: Option<UpdateRequest>)
      modifies this`rowForms, this`savingId
      ensures request.Some? <==> KeyOf(r).Some? && KeyOf(r).value in old(rowForms) && formValid
      ensures request.Some? ==>
                request.value == UpdateRequest(ExtractRecordId(r).value,
                                               MapFormToPayload(old(rowForms)[KeyOf(r).value].value, None, patientId))
                && savingId == ExtractRecordId(r)
      ensures request.None? ==> savingId == old(savingId)
      ensures (KeyOf(r).Some? && KeyOf(r).value in old(rowForms) && !formValid) ==>
                rowForms == old(rowForms)[KeyOf(r).value := RowForm(old(rowForms)[KeyOf(r).value].value, true)]
      ensures !(KeyOf(r).Some? && KeyOf(r).value in old(rowForms) && !formValid) ==> rowForms == old(rowForms)
      ensures records == old(records) && editingId == old(editingId) && patientId == old(patientId)
    {
      var id := ExtractRecordId(r);
      if id.None? {
        return None;
      }
      var key := RowKey(id.value);
      if key !in rowForms {
        return None;
      }
      if !formValid {
        rowForms := rowForms[key := RowForm(rowForms[key].value, true)];
        return None;
      }
      savingId := id;
      request := Some(UpdateRequest(id.value, MapFormToPayload(rowForms[key].value, None, patientId)));
    }

    /** The update succeeded: editing ends and the records are reloaded. */
    method OnSaveSuccess() returns (request: Option<RecordsRequest>)
      modifies this`loading, this`savingId, this`editingId
      ensures editingId.None? && savingId.None?
      ensures request == LoadRequest(patientId, filterStart, filterEnd)
      ensures records == old(records) && rowForms == old(rowForms)
    {
      editingId := None;
      request := LoadRecords();
      savingId := None;
    }

    method OnSaveError()
      modifies this`savingId
      ensures savingId.None? && editingId == old(editingId) && rowForms == old(rowForms) && records == old(records)
    {
      savingId := None;
    }

    /** `deleteRecord(record)`: the id to delete, None for a record without id. */
    method DeleteRecord(r: FluidRecord) returns (request: Option<JsNumber>)
      ensures request == ExtractRecordId(r)
    {
      request := ExtractRecordId(r);
    }

    /** The record `id` was deleted: editing stops only if it was that record's, and the
        records are reloaded. */
    method OnDeleteSuccess(id: JsNumber) returns (request: Option<RecordsRequest>)
      modifies this`loading, this`editingId
      ensures editingId == ClearIfSame(old(editingId), id)
      ensures request == LoadRequest(patientId, filterStart, filterEnd)
      ensures records == old(records) && rowForms == old(rowForms) && savingId == old(savingId)
    {
      editingId := ClearIfSame(editingId, id);
      request := LoadRecords();
    }

    /** `submitCreate()`: the create payload for the panel's patient, or None for a falsy
        patient id or an invalid form (then marked touched). */
    method SubmitCreate(formValid: bool) returns (payload: Option<ExtraFluid>)
      modifies this`createForm, this`creating
      ensures payload.Some? <==> patientId != 0 && formValid
      ensures payload.Some? ==> payload.value == MapFormToPayload(old(createForm).value, Some(patientId), patientId)
                                && payload.value.patientId == patientId && creating
      ensures payload.None? ==> creating == old(creating)
      ensures (patientId != 0 && !formValid) ==> createForm == RowForm(old(createForm).value, true)
      ensures !(patientId != 0 && !formValid) ==> createForm == old(createForm)
      ensures records == old(records) && rowForms == old(rowForms) && editingId == old(editingId)
    {
      if patientId == 0 {
        return None;
      }
      if !formValid {
        createForm := RowForm(createForm.value, true);
        return None;
      }
      var p := MapFormToPayload(createForm.value, Some(patientId), patientId);
      creating := true;
      payload := Some(p.(patientId := patientId));
    }

    /** The record was created: the form is reset to the current instant `now` with empty
        volumes, and the records are reloaded. */
    method OnCreateSuccess(now: Civil) returns (request: Option<RecordsRequest>)
      modifies this`createForm, this`loading, this`creating
      ensures createForm == RowForm(FluidForm(Some(ValidDate(now)), Null, Null), false)
      ensures !creating && request == LoadRequest(patientId, filterStart, filterEnd)
      ensures records == old(records) && rowForms == old(rowForms) && editingId == old(editingId)
    {
      createForm := RowForm(FluidForm(Some(ValidDate(now)), Null, Null), false);
      request := LoadRecords();
      creating := false;
    }

    method OnCreateError()
      modifies this`creating
      ensures !creating && createForm == old(createForm) && records == old(records)
    {
      creating := false;
    }

    /** `isEditing(record)`: the record has an id and it is `===` the one being edited. */
    method IsEditing(r: FluidRecord) returns (b: bool)
      ensures b <==> IsSameId(editingId, ExtractRecordId(r))
      ensures ExtractRecordId(r) == Some(NaN) ==> !b
    {
      var id := ExtractRecordId(r);
      b := id.Some? && editingId.Some? && StrictEqualsNumber(id.value, editingId.value);
    }

    /** `getRowForm(record)`: the record's row form, if it has an id and a form. */
    method GetRowForm(r: FluidRecord) returns (form: Option<RowForm<FluidForm>>)
      ensures form.Some? <==> KeyOf(r).Some? && KeyOf(r).value in rowForms
      ensures form.Some? ==> form.value == rowForms[KeyOf(r).value]
    {
      var id := ExtractRecordId(r);
      if id.None? {
        return None;
      }
      var key := RowKey(id.value);
      form := if key in rowForms then Some(rowForms[key]) else None;
    }
  }
}
