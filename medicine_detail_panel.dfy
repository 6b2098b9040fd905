/**
 * `MedicineDetailPanelComponent`: the medicines prescribed to a patient (medicine, dose,
 * frequency, date) with a create form and inline row editing, and the medicine catalogue
 * the forms choose from. Service requests are returned; their answers arrive through the
 * `On...` methods.
 */
module MedicineDetailPanel {
  import opened Js
  import opened Wrappers
  import opened Dates
  import opened RowForms
  import opened Panels
  import Catalog

  type Medicine = Catalog.Medicine

  /** A record as the backend sends it; the embedded medicine may be missing. */
  datatype DetailRecord = DetailRecord(id: JsValue, medicineDetailId: JsValue, date: DateValue,
                                       medicine: Option<Medicine>, dose: JsValue, frequency: JsValue)

  /** The value of a row form or of the create form. */
  datatype DetailForm = DetailForm(date: Option<JsDate>, medicineId: JsValue, dose: JsValue, frequency: JsValue)

  /** The `MedicineDetail` payload of a create or update request; the date is an ISO string. */
  datatype MedicineDetail = MedicineDetail(patientId: int, medicine: Medicine, dose: string,
                                           frequency: string, date: Option<string>)

  datatype UpdateRequest = UpdateRequest(id: JsNumber, payload: MedicineDetail)

  /** `extractRecordId(record)`: `Number(id ?? medicineDetailId)`, null when both are missing. */
  function ExtractRecordId(r: DetailRecord): (id: Option<JsNumber>)
    ensures id.None? <==> Nullish(r.id) && Nullish(r.medicineDetailId)
    ensures !Nullish(r.id) ==> id == Some(ToNumber(r.id))
    ensures Nullish(r.id) && !Nullish(r.medicineDetailId) ==> id == Some(ToNumber(r.medicineDetailId))
  {
    RecordId(Coalesce(Coalesce(r.id, r.medicineDetailId), Null))
  }

  /** `extractMedicineId(record)`: `record?.medicine?.id ?? null` */
  function ExtractMedicineId(r: DetailRecord): (id: Option<int>)
    ensures id.Some? <==> r.medicine.Some? && r.medicine.value.id.Some?
    ensures id.Some? ==> id == r.medicine.value.id
  {
    if r.medicine.Some? then r.medicine.value.id else None
  }

  function KeyOf(r: DetailRecord): Option<string> {
    KeyOfId(ExtractRecordId(r))
  }

  /** The form value of a record: its date as a `Date` (or null), the embedded medicine's id
      (or null), dose and frequency with `''` for a missing one. */
  function FormOf(r: DetailRecord): DetailForm {
    var medicineId := ExtractMedicineId(r);
    DetailForm(DateOf(r.date), if medicineId.Some? then Num(medicineId.value) else Null,
               Coalesce(r.dose, Str("")), Coalesce(r.frequency, Str("")))
  }

  /** `normalizeRecords(records)`: every date becomes a `Date` object or null. */
  function NormalizeRecords(records: seq<DetailRecord>): (r: seq<DetailRecord>)
    ensures |r| == |records|
    ensures forall i | 0 <= i < |r| ::
              r[i] == records[i].(date := NormalizedDate(records[i].date)) && FormOf(r[i]) == FormOf(records[i])
  {
    seq(|records|, i requires 0 <= i < |records| => records[i].(date := NormalizedDate(records[i].date)))
  }

  /** `medicines.find(med => med.id === id)` */
  function FindMedicineById(medicines: seq<Medicine>, id: int): (r: Option<Medicine>)
    ensures r.Some? ==> r.value in medicines && r.value.id == Some(id)
    ensures r.None? ==> forall m | m in medicines :: m.id != Some(id)
    ensures r.Some? ==> exists i :: (0 <= i < |medicines| && medicines[i] == r.value
                                     && forall j | 0 <= j < i :: medicines[j].id != Some(id))
  {
    if medicines == [] then None
    else if medicines[0].id == Some(id) then Some(medicines[0])
    else
      var r := FindMedicineById(medicines[1..], id);
      if r.Some? then
        var i :| 0 <= i < |medicines[1..]| && medicines[1..][i] == r.value
                 && forall j | 0 <= j < i :: medicines[1..][j].id != Some(id);
        assert medicines[i + 1] == r.value;
        r
      else r
  }

  /** `buildMedicinePayload(rawId)`: a blank medicine for an id that is not a finite number,
      the catalogue entry with that id, or else a blank medicine carrying the id. */
  function BuildMedicinePayload(medicines: seq<Medicine>, rawId: JsValue): (m: Medicine)
    ensures ToNumber(rawId).NaN? ==> m == Catalog.Medicine(None, "", Num(0))
    ensures ToNumber(rawId).Finite? ==> m.id == Some(ToNumber(rawId).value)
    ensures ToNumber(rawId).Finite? && m in medicines ==> m == FindMedicineById(medicines, ToNumber(rawId).value).value
    ensures ToNumber(rawId).Finite? && FindMedicineById(medicines, ToNumber(rawId).value).None? ==>
              m == Catalog.Medicine(Some(ToNumber(rawId).value), "", Num(0))
  {
    var id := ToNumber(rawId);
    if id.NaN? then Catalog.Medicine(None, "", Num(0))
    else
      var found := FindMedicineById(medicines, id.value);
      if found.Some? then found.value else Catalog.Medicine(Some(id.value), "", Num(0))
  }

  /** A missing control (`null`) reads as the number 0, so it selects the medicine with id 0. */
  lemma BuildMedicinePayloadOfNull(medicines: seq<Medicine>)
    ensures BuildMedicinePayload(medicines, Null).id == Some(0)
  {
  }

  /** `toUtcIsoString(date)`: the date's wall-clock year, month, day, hour and minute read
      as UTC by `Date.UTC`, seconds and milliseconds dropped, as an ISO string. */
  function ToUtcIsoString(c: Civil): string {
    ToIsoString(ValidDate(AtTime(c, c.hour, c.minute))).value
  }

  /** The ISO string is the calendar day `Date.UTC` lands on, with the date's hour and minute
      and zero seconds and milliseconds; outside years 0 to 99 that is the date's own day.
      Two dates within one minute give the same string. */
  lemma ToUtcIsoStringSpec(a: Civil, b: Civil)
    ensures ToUtcIsoString(a) == IsoDatePart(ConstructedDay(a)) + "T" + TwoDigits(a.hour) + ":" + TwoDigits(a.minute) + ":00.000Z"
    ensures !(0 <= a.year <= 99) ==>
              ToUtcIsoString(a) == IsoDatePart(a) + "T" + TwoDigits(a.hour) + ":" + TwoDigits(a.minute) + ":00.000Z"
    ensures (SameDay(a, b) && a.hour == b.hour && a.minute == b.minute) ==> ToUtcIsoString(a) == ToUtcIsoString(b)
  {
    UtcIsoStringShape(a);
    UtcIsoStringShape(b);
    if !(0 <= a.year <= 99) {
      IsoDatePartOfDay(ConstructedDay(a), a);
    }
    if SameDay(a, b) {
      IsoDatePartOfDay(ConstructedDay(a), ConstructedDay(b));
    }
  }

  lemma UtcIsoStringShape(a: Civil)
    ensures ToUtcIsoString(a) == IsoDatePart(ConstructedDay(a)) + "T" + TwoDigits(a.hour) + ":" + TwoDigits(a.minute) + ":00.000Z"
  {
    var t := AtTime(a, a.hour, a.minute);
    IsoStringOnTheMinute(t);
    IsoDatePartOfDay(t, ConstructedDay(a));
  }

  /** A date in year 50 is sent as one in 1950: 0050-03-01T10:20 gives
      "1950-03-01T10:20:00.000Z". */
  lemma ToUtcIsoStringOfYear50(c: Civil)
    requires c == CivilTime(50, 2, 1, 10, 20, 0, 0)
    ensures ToUtcIsoString(c) == "1950-03-01T10:20:00.000Z"
  {
    UtcIsoStringShape(c);
    assert ConstructedDay(c) == CivilTime(1950, 2, 1, 0, 0, 0, 0);
    IsoDatePartOf1950();
    TwoDigitsOf(10);
    TwoDigitsOf(20);
    ConcatOfYear50(IsoDatePart(ConstructedDay(c)), TwoDigits(c.hour), TwoDigits(c.minute));
  }

  lemma ConcatOfYear50(datePart: string, hh: string, mm: string)
    requires datePart == "1950-03-01" && hh == "10" && mm == "20"
    ensures datePart + "T" + hh + ":" + mm + ":00.000Z" == "1950-03-01T10:20:00.000Z"
  {
  }

  lemma IsoDatePartOf1950()
    ensures IsoDatePart(CivilTime(1950, 2, 1, 0, 0, 0, 0)) == "1950-03-01"
  {
    FixedDigitsOf1950();
    TwoDigitsOf(3);
    TwoDigitsOf(1);
    ConcatOf1950(IsoYear(1950), TwoDigits(3), TwoDigits(1));
  }

  lemma ConcatOf1950(year: string, mm: string, dd: string)
    requires year == "1950" && mm == "03" && dd == "01"
    ensures year + "-" + mm + "-" + dd == "1950-03-01"
  {
  }

  lemma FixedDigitsOf1950()
    ensures FixedDigits(1950, 4) == "1950"
  {
    assert Pow10(1) == 10 && Pow10(2) == 100 && Pow10(3) == 1000 && Pow10(4) == 10000;
    var d1 := FixedDigits(1, 1);
    var d2 := FixedDigits(19, 2);
    var d3 := FixedDigits(195, 3);
    FixedDigitsStep(1, 0);
    assert d1 == "1";
    FixedDigitsStep(19, 1);
    assert d2 == d1 + ['9'];
    FixedDigitsStep(195, 2);
    assert d3 == d2 + ['5'];
    FixedDigitsStep(1950, 3);
    assert FixedDigits(1950, 4) == d3 + ['0'];
  }

  lemma FixedDigitsStep(n: nat, width: nat)
    requires n < Pow10(width + 1)
    ensures n / 10 < Pow10(width)
    ensures FixedDigits(n, width + 1) == FixedDigits(n / 10, width) + [('0' as int + n % 10) as char]
  {
  }

  lemma TwoDigitsOf(n: nat)
    requires n < 100
    ensures TwoDigits(n) == [('0' as int + n / 10) as char, ('0' as int + n % 10) as char]
  {
  }

  lemma IsoDatePartOfDay(a: Civil, b: Civil)
    requires SameDay(a, b)
    ensures IsoDatePart(a) == IsoDatePart(b)
  {
  }

  /** A date with zero seconds and milliseconds ends in ":00.000Z". */
  lemma IsoStringOnTheMinute(c: Civil)
    requires c.second == 0 && c.millis == 0
    ensures ToIsoString(ValidDate(c)).value
            == IsoDatePart(c) + "T" + TwoDigits(c.hour) + ":" + TwoDigits(c.minute) + ":00.000Z"
  {
    ZeroSuffix(IsoDatePart(c) + "T" + TwoDigits(c.hour) + ":" + TwoDigits(c.minute));
  }

  lemma ZeroSuffix(prefix: string)
    ensures prefix + ":" + TwoDigits(0) + "." + FixedDigits(0, 3) + "Z" == prefix + ":00.000Z"
  {
    assert TwoDigits(0) == "00";
    assert FixedDigits(0, 3) == "000" by {
      assert FixedDigits(0, 0) == "";
      assert FixedDigits(0, 1) == "0";
      assert FixedDigits(0, 2) == "00";
    }
  }

  /** `mapFormToPayload(formValue)`: the patient the form names or else the panel's, the
      medicine through `buildMedicinePayload`, dose and frequency as trimmed text, the date
      through `toUtcIsoString`. None when the date is an invalid `Date`: `toISOString` throws. */
  function MapFormToPayload(medicines: seq<Medicine>, f: DetailForm, formPatientId: Option<int>, patientId: int)
    : (p: Option<MedicineDetail>)
    ensures p.None? <==> f.date == Some(InvalidDate)
    ensures p.Some? ==> p.value.patientId == formPatientId.GetOr(patientId)
                        && p.value.medicine == BuildMedicinePayload(medicines, f.medicineId)
                        && p.value.dose == Trim(TextOf(f.dose)) && p.value.frequency == Trim(TextOf(f.frequency))
    ensures p.Some? ==> (p.value.date.None? <==> f.date.None?)
    ensures p.Some? && f.date.Some? ==> p.value.date == Some(ToUtcIsoString(f.date.value.at))
  {
    var baseDate := f.date;
    if baseDate == Some(InvalidDate) then None
    else
      Some(MedicineDetail(formPatientId.GetOr(patientId), BuildMedicinePayload(medicines, f.medicineId),
                          Trim(TextOf(f.dose)), Trim(TextOf(f.frequency)),
                          if baseDate.Some? then Some(ToUtcIsoString(baseDate.value.at)) else None))
  }

  /** Dose and frequency in a payload carry no surrounding whitespace. */
  lemma PayloadTextTrimmed(medicines: seq<Medicine>, f: DetailForm, patientId: int)
    requires MapFormToPayload(medicines, f, None, patientId).Some?
    ensures var p := MapFormToPayload(medicines, f, None, patientId).value;
            p.dose == Trim(p.dose) && p.frequency == Trim(p.frequency)
  {
    TrimIdempotent(TextOf(f.dose));
    TrimIdempotent(TextOf(f.frequency));
  }

  /** `getMedicineLabel(record)`: the embedded medicine's name, else the catalogue name for
      its id, else `Medicamento #<id>`, and `Sin medicamento` without a non-zero id. */
  function GetMedicineLabel(medicines: seq<Medicine>, r: DetailRecord): (name: string)
    ensures r.medicine.Some? && r.medicine.value.name != "" ==> name == r.medicine.value.name
    ensures !(r.medicine.Some? && r.medicine.value.name != "") ==>
              (ExtractMedicineId(r).None? || ExtractMedicineId(r) == Some(0) ==> name == "Sin medicamento")
    ensures !(r.medicine.Some? && r.medicine.value.name != "") && ExtractMedicineId(r).Some?
            && ExtractMedicineId(r).value != 0 ==>
              name == (var found := FindMedicineById(medicines, ExtractMedicineId(r).value);
                        if found.Some? then found.value.name else "Medicamento #" + IntToString(ExtractMedicineId(r).value))
  {
    if r.medicine.Some? && r.medicine.value.name != "" then r.medicine.value.name
    else
      var id := ExtractMedicineId(r);
      if id.Some? && id.value != 0 then
        var found := FindMedicineById(medicines, id.value);
        if found.Some? then found.value.name else "Medicamento #" + IntToString(id.value)
      else "Sin medicamento"
  }

  /** After a sync the row keys are exactly the keys of the records with an id. */
  lemma RowFormsFollowRecords(forms: Forms<DetailForm>, records: seq<DetailRecord>)
    ensures Synced(forms, records, KeyOf, FormOf).Keys
            == set x | x in records && ExtractRecordId(x).Some? :: RowKey(ExtractRecordId(x).value)
  {
    KeysOfAsSet(records, KeyOf);
    SyncedSpec(forms, records, KeyOf, FormOf);
  }

  /** The form that `new Date()`, no medicine and empty texts give. */
  function EmptyForm(now: Civil): DetailForm {
    DetailForm(Some(ValidDate(now)), Null, Str(""), Str(""))
  }

  class MedicineDetailPanelComponent {
    var patientId: int
    var creating: bool
    var createForm: RowForm<DetailForm>
    var medicines: seq<Medicine>
    var records: seq<DetailRecord>
    var rowForms: Forms<DetailForm>
    var editingId: Option<JsNumber>
    var loading: bool
    var savingId: Option<JsNumber>
    var medicinesLoading: bool

    constructor(patientId: int, now: Civil)
      ensures this.patientId == patientId && records == [] && rowForms == map[] && medicines == []
      ensures createForm == RowForm(EmptyForm(now), false)
      ensures !loading && !creating && !medicinesLoading && savingId.None? && editingId.None?
    {
      this.patientId := patientId;
      records := [];
      createForm := RowForm(EmptyForm(now), false);
      rowForms := map[];
      loading := false;
      creating := false;
      savingId := None;
      editingId := None;
      medicines := [];
      medicinesLoading := false;
    }

    /** `ngOnInit()`: the catalogue is always requested, the records when there is a patient. */
    method NgOnInit() returns (request: Option<int>)
      modifies this`loading, this`medicinesLoading
      ensures medicinesLoading
      ensures request == (if patientId != 0 then Some(patientId) else None)
      ensures loading == (request.Some? || old(loading))
      ensures records == old(records) && rowForms == old(rowForms) && medicines == old(medicines)
    {
      LoadMedicines();
      request := None;
      if patientId != 0 {
        request := LoadRecords();
      }
    }

    /** `ngOnChanges(changes)`: reloads only on a change of the patient after its first. */
    method NgOnChanges(changes: Changes) returns (request: Option<int>)
      modifies this`patientId, this`loading
      ensures patientId == Applied(old(patientId), changes.patientId)
      ensures request.Some? <==> PatientChanged(changes) && patientId != 0
      ensures request.Some? ==> request == Some(patientId) && loading
      ensures request.None? ==> loading == old(loading)
      ensures records == old(records) && rowForms == old(rowForms) && editingId == old(editingId)
    {
      patientId := Applied(patientId, changes.patientId);
      request := None;
      if PatientChanged(changes) {
        request := LoadRecords();
      }
    }

    /** `loadRecords()`: the patient whose records to fetch, None for a falsy patient id. */
    method LoadRecords() returns (request: Option<int>)
      modifies this`loading
      ensures request == (if patientId != 0 then Some(patientId) else None)
      ensures loading == (request.Some? || old(loading))
      ensures patientId == old(patientId) && records == old(records) && rowForms == old(rowForms)
      ensures editingId == old(editingId) && savingId == old(savingId) && medicines == old(medicines)
      ensures createForm == old(createForm) && creating == old(creating) && medicinesLoading == old(medicinesLoading)
    {
      request := None;
      if patientId != 0 {
        loading := true;
        request := Some(patientId);
      }
    }

    /** `loadMedicines()` */
    method LoadMedicines()
      modifies this`medicinesLoading
      ensures medicinesLoading && medicines == old(medicines) && patientId == old(patientId)
      ensures loading == old(loading) && records == old(records) && rowForms == old(rowForms)
    {
      medicinesLoading := true;
    }

    /** The catalogue arrived (`meds ?? []`); a failed load leaves it empty. */
    method OnMedicinesLoaded(meds: Option<seq<Medicine>>)
      modifies this`medicines, this`medicinesLoading
      ensures medicines == (if meds.Some? then meds.value else []) && !medicinesLoading
      ensures records == old(records) && rowForms == old(rowForms)
    {
      medicines := if meds.Some? then meds.value else [];
      medicinesLoading := false;
    }

    method OnMedicinesError()
      modifies this`medicines, this`medicinesLoading
      ensures medicines == [] && !medicinesLoading && records == old(records)
    {
      medicines := [];
      medicinesLoading := false;
    }

    /** The records arrived: they are normalised and the row forms follow them. */
    method OnRecordsLoaded(loaded: seq<DetailRecord>)
      modifies this`records, this`rowForms, this`loading
      ensures records == NormalizeRecords(loaded)
      ensures rowForms == Synced(old(rowForms), records, KeyOf, FormOf)
      ensures !loading && editingId == old(editingId) && savingId == old(savingId)
    {
      records := NormalizeRecords(loaded);
      rowForms := Sync(rowForms, records, KeyOf, FormOf);
      loading := false;
    }

    method OnRecordsError()
      modifies this`loading
      ensures !loading && records == old(records) && rowForms == old(rowForms)
    {
      loading := false;
    }

    /** `startEdit(record)`: a form for the record is created if missing. */
    method StartEdit(r: DetailRecord)
      modifies this`rowForms, this`editingId
      ensures ExtractRecordId(r).None? ==> rowForms == old(rowForms) && editingId == old(editingId)
      ensures ExtractRecordId(r).Some? ==>
                rowForms == EnsurePresent(old(rowForms), KeyOf(r).value, FormOf(r)) && editingId == ExtractRecordId(r)
      ensures records == old(records) && savingId == old(savingId)
    {
      var id := ExtractRecordId(r);
      if id.None? {
        return;
      }
      rowForms := EnsurePresent(rowForms, RowKey(id.value), FormOf(r));
      editingId := id;
    }

    /** `cancelEdit(record)`: an existing row form gets the record's values back. */
    method CancelEdit(r: DetailRecord)
      modifies this`rowForms, this`editingId
      ensures ExtractRecordId(r).None? ==> rowForms == old(rowForms) && editingId == old(editingId)
      ensures ExtractRecordId(r).Some? ==>
                rowForms == Patch(old(rowForms), KeyOf(r).value, FormOf(r)) && editingId.None?
      ensures records == old(records) && savingId == old(savingId)
    {
      var id := ExtractRecordId(r);
      if id.None? {
        return;
      }
      rowForms := Patch(rowForms, RowKey(id.value), FormOf(r));
      editingId := None;
    }

    /** `saveRecord(record)`: the update request, or None for a record without id, a missing
        row form, an invalid one (then marked touched), or an invalid date (the payload throws
        before anything changes). */
    method SaveRecord(r: DetailRecord, formValid: bool) returns (request: Option<UpdateRequest>)
      modifies this`rowForms, this`savingId
      ensures request.Some? <==>
                KeyOf(r).Some? && KeyOf(r).value in old(rowForms) && formValid
                && MapFormToPayload(medicines, old(rowForms)[KeyOf(r).value].value, None, patientId).Some?
      ensures request.Some? ==>
                request.value == UpdateRequest(ExtractRecordId(r).value,
                                               MapFormToPayload(medicines, old(rowForms)[KeyOf(r).value].value, None, patientId).value)
                && savingId == ExtractRecordId(r)
      ensures request.None? ==> savingId == old(savingId)
      ensures (KeyOf(r).Some? && KeyOf(r).value in old(rowForms) && !formValid) ==>
                rowForms == old(rowForms)[KeyOf(r).value := RowForm(old(rowForms)[KeyOf(r).value].value, true)]
      ensures !(KeyOf(r).Some? && KeyOf(r).value in old(rowForms) && !formValid) ==> rowForms == old(rowForms)
      ensures records == old(records) && editingId == old(editingId) && medicines == old(medicines)
    {
      var id := ExtractRecordId(r);
      if id.None? {
        return None;
      }
      var key := RowKey(id.value);
      if key !in rowForms {
        return None;
      }
      if !formValid {
        rowForms := rowForms[key := RowForm(rowForms[key].value, true)];
        return None;
      }
      var payload := MapFormToPayload(medicines, rowForms[key].value, None, patientId);
      if payload.None? {
        return None;
      }
      savingId := id;
      request := Some(UpdateRequest(id.value, payload.value));
    }

    /** The update succeeded: editing ends and the records are reloaded. */
    method OnSaveSuccess() returns (request: Option<int>)
      modifies this`editingId, this`loading, this`savingId
      ensures editingId.None? && savingId.None?
      ensures request == (if patientId != 0 then Some(patientId) else None)
      ensures records == old(records) && rowForms == old(rowForms)
    {
      editingId := None;
      request := LoadRecords();
      savingId := None;
    }

    method OnSaveError()
      modifies this`savingId
      ensures savingId.None? && editingId == old(editingId) && rowForms == old(rowForms) && records == old(records)
    {
      savingId := None;
    }

    /** `deleteRecord(record)`: the id to delete, None for a record without id. */
    method DeleteRecord(r: DetailRecord) returns (request: Option<JsNumber>)
      ensures request == ExtractRecordId(r)
    {
      request := ExtractRecordId(r);
    }

    /** The record `id` was deleted: editing stops only if it was that record's. */
    method OnDeleteSuccess(id: JsNumber) returns (request: Option<int>)
      modifies this`editingId, this`loading
      ensures editingId == ClearIfSame(old(editingId), id)
      ensures request == (if patientId != 0 then Some(patientId) else None)
      ensures records == old(records) && rowForms == old(rowForms) && savingId == old(savingId)
    {
      editingId := ClearIfSame(editingId, id);
      request := LoadRecords();
    }

    /** `submitCreate()`: the create payload, or None for a falsy patient id, an invalid form
        (then marked touched) or an invalid date. */
    method SubmitCreate(formValid: bool) returns (payload: Option<MedicineDetail>)
      modifies this`creating, this`createForm
      ensures payload.Some? ==>
                payload == MapFormToPayload(old(medicines), old(createForm).value, Some(patientId), patientId)
      ensures payload.Some? ==> payload.value.patientId == patientId && creating
      ensures payload.None? ==> creating == old(creating)
      ensures (patientId != 0 && !formValid) ==> createForm == RowForm(old(createForm).value, true)
      ensures !(patientId != 0 && !formValid) ==> createForm == old(createForm)
      ensures records == old(records) && rowForms == old(rowForms) && editingId == old(editingId)
      ensures medicines == old(medicines)
      ensures payload.Some? <==> patientId != 0 && formValid && old(createForm).value.date != Some(InvalidDate)
    {
      if patientId == 0 {
        payload := None;
      } else if !formValid {
        createForm := RowForm(createForm.value, true);
        payload := None;
      } else {
        payload := MapFormToPayload(medicines, createForm.value, Some(patientId), patientId);
        if payload.Some? {
          creating := true;
        }
      }
    }

    /** The record was created: the form is reset (`resetCreateForm`) and the records reloaded. */
    method OnCreateSuccess(now: Civil) returns (request: Option<int>)
      modifies this`creating, this`createForm, this`loading
      ensures createForm == RowForm(EmptyForm(now), false)
      ensures !creating && request == (if patientId != 0 then Some(patientId) else None)
      ensures records == old(records) && rowForms == old(rowForms) && editingId == old(editingId)
    {
      createForm := RowForm(EmptyForm(now), false);
      request := LoadRecords();
      creating := false;
    }

    method OnCreateError()
      modifies this`creating
      ensures !creating && createForm == old(createForm) && records == old(records)
    {
      creating := false;
    }

    /** `isEditing(record)` */
    method IsEditing(r: DetailRecord) returns (b: bool)
      ensures b <==> IsSameId(editingId, ExtractRecordId(r))
    {
      var id := ExtractRecordId(r);
      b := id.Some? && editingId.Some? && StrictEqualsNumber(id.value, editingId.value);
    }

    /** `getRowForm(record)`: the record's row form, if it has an id and a form. */
    method GetRowForm(r: DetailRecord) returns (form: Option<RowForm<DetailForm>>)
      ensures form.Some? <==> KeyOf(r).Some? && KeyOf(r).value in rowForms
      ensures form.Some? ==> form.value == rowForms[KeyOf(r).value]
    {
      var id := ExtractRecordId(r);
      if id.None? {
        return None;
      }
      var key := RowKey(id.value);
      form := if key in rowForms then Some(rowForms[key]) else None;
    }

    /** `getMedicineLabel(record)` against the loaded catalogue. */
    method MedicineLabel(r: DetailRecord) returns (name: string)
      ensures name == GetMedicineLabel(medicines, r)
      ensures r.medicine.Some? && r.medicine.value.name != "" ==> name == r.medicine.value.name
    {
      name := GetMedicineLabel(medicines, r);
    }
  }
}
