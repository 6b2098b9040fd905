/**
 * What the patient-detail panels (extra fluids, medicines, vital signs) share: the numeric
 * record id and its row key, the `editingId === id` tests, the `value ? new Date(value) :
 * null` normalisation, the `areDatesEqual` comparison of filter bounds, the `ngOnChanges`
 * reload rule and the choice between the range request and the plain one.
 */
module Panels {
  import opened Js
  import opened Wrappers
  import opened Dates

  /** `candidate == null ? null : Number(candidate)`, where `candidate` is the first
      non-nullish id field of the record. */
  function RecordId(candidate: JsValue): (r: Option<JsNumber>)
    ensures r.None? <==> Nullish(candidate)
    ensures r.Some? ==> r.value == ToNumber(candidate)
  {
    if Nullish(candidate) then None else Some(ToNumber(candidate))
  }

  /** `rowKey(id)`: `id.toString()`. */
  function RowKey(id: JsNumber): string {
    NumberToString(id)
  }

  /** Row keys tell ids apart (NaN included, whose key is "NaN"). */
  lemma RowKeyInjective(a: JsNumber, b: JsNumber)
    ensures RowKey(a) == RowKey(b) <==> a == b
  {
    NumberToStringInjective(a, b);
  }

  function KeyOfId(id: Option<JsNumber>): Option<string> {
    if id.Some? then Some(RowKey(id.value)) else None
  }

  /** `id !== null && id === current`: NaN matches nothing. */
  predicate IsSameId(current: Option<JsNumber>, id: Option<JsNumber>) {
    id.Some? && current.Some? && StrictEqualsNumber(id.value, current.value)
  }

  /** After a deletion, the editing id is cleared when it is `===` the deleted id. */
  function ClearIfSame(current: Option<JsNumber>, id: JsNumber): (r: Option<JsNumber>)
    ensures IsSameId(current, Some(id)) ==> r.None?
    ensures !IsSameId(current, Some(id)) ==> r == current
  {
    if current.Some? && StrictEqualsNumber(current.value, id) then None else current
  }

  /** `(v ?? '').toString()` */
  function TextOf(v: JsValue): (s: string)
    ensures Nullish(v) ==> s == ""
    ensures v.Str? ==> s == v.s
  {
    if Nullish(v) then "" else ToJsString(v)
  }

  /** `value ? new Date(value) : null` */
  function DateOf(v: DateValue): (r: Option<JsDate>)
    ensures r.None? <==> v.Falsy?
    ensures v.DateObject? ==> r == Some(v.date)
  {
    if TruthyDate(v) then Some(NewDate(v)) else None
  }

  /** A record's date after `normalizeRecords`: a `Date` object, or null. */
  function NormalizedDate(v: DateValue): (r: DateValue)
    ensures r.Falsy? || r.DateObject?
    ensures DateOf(r) == DateOf(v)
  {
    if TruthyDate(v) then DateObject(NewDate(v)) else Falsy
  }

  /** Normalising twice is normalising once. */
  lemma NormalizedDateIdempotent(v: DateValue)
    ensures NormalizedDate(NormalizedDate(v)) == NormalizedDate(v)
  {
  }

  /** `areDatesEqual(a, b)`: two absent values are equal, an absent and a present one are
      not, and two present ones are equal when both are valid dates with one time value. */
  function AreDatesEqual(a: DateValue, b: DateValue): bool {
    if !TruthyDate(a) && !TruthyDate(b) then true
    else if !TruthyDate(a) || !TruthyDate(b) then false
    else
      var first := GetTime(NewDate(a));
      var second := GetTime(NewDate(b));
      if first.NaN? || second.NaN? then false
      else first.value == second.value
  }

  /** The four rules of `areDatesEqual`, both directions of the last one. */
  lemma AreDatesEqualSpec(a: DateValue, b: DateValue)
    ensures a.Falsy? && b.Falsy? ==> AreDatesEqual(a, b)
    ensures a.Falsy? != b.Falsy? ==> !AreDatesEqual(a, b)
    ensures (TruthyDate(a) && NewDate(a).InvalidDate?) || (TruthyDate(b) && NewDate(b).InvalidDate?) ==>
              !AreDatesEqual(a, b)
    ensures TruthyDate(a) && TruthyDate(b) && NewDate(a).ValidDate? && NewDate(b).ValidDate? ==>
              (AreDatesEqual(a, b) <==> TimeValue(NewDate(a).at) == TimeValue(NewDate(b).at))
  {
  }

  /** The comparison is symmetric, but not reflexive: an invalid date differs from itself,
      so a bound that stays invalid still counts as changed. */
  lemma AreDatesEqualSymmetricNotReflexive(a: DateValue, b: DateValue)
    ensures AreDatesEqual(a, b) == AreDatesEqual(b, a)
    ensures !AreDatesEqual(DateObject(InvalidDate), DateObject(InvalidDate))
    ensures TruthyDate(a) && NewDate(a).ValidDate? ==> AreDatesEqual(a, a)
  {
  }

  /** One entry of Angular's `SimpleChanges`. */
  datatype Change<T> = Change(previousValue: T, currentValue: T, firstChange: bool)

  /** The `SimpleChanges` a panel receives: None for an input that did not change. */
  datatype Changes = Changes(patientId: Option<Change<int>>,
                             filterStart: Option<Change<DateValue>>,
                             filterEnd: Option<Change<DateValue>>)

  /** `!!changes['patientId'] && !changes['patientId'].firstChange` */
  predicate PatientChanged(changes: Changes) {
    changes.patientId.Some? && !changes.patientId.value.firstChange
  }

  /** `!!changes[bound] && !areDatesEqual(previousValue, currentValue)` */
  predicate BoundChanged(change: Option<Change<DateValue>>) {
    change.Some? && !AreDatesEqual(change.value.previousValue, change.value.currentValue)
  }

  /** The reload rule of the panels with a date filter. */
  predicate ShouldReload(changes: Changes) {
    PatientChanged(changes) || BoundChanged(changes.filterStart) || BoundChanged(changes.filterEnd)
  }

  /** The inputs after Angular applied the changes: a changed input holds its current value. */
  function Applied<T>(current: T, change: Option<Change<T>>): (r: T)
    ensures change.None? ==> r == current
    ensures change.Some? ==> r == change.value.currentValue
  {
    if change.Some? then change.value.currentValue else current
  }

  /** The first change of the patient id alone never reloads; a later one always does; a
      bound that moves to another valid instant reloads, one re-sent with the same instant
      does not. */
  lemma ShouldReloadSpec(changes: Changes)
    ensures (changes.patientId.Some? && changes.patientId.value.firstChange
             && changes.filterStart.None? && changes.filterEnd.None?) ==> !ShouldReload(changes)
    ensures PatientChanged(changes) ==> ShouldReload(changes)
    ensures (changes.filterStart.Some? && changes.filterStart.value.previousValue.DateObject?
             && changes.filterStart.value.currentValue.DateObject?
             && changes.filterStart.value.previousValue.date.ValidDate?
             && changes.filterStart.value.currentValue.date.ValidDate?)
            ==> (BoundChanged(changes.filterStart) <==>
                   TimeValue(changes.filterStart.value.previousValue.date.at)
                   != TimeValue(changes.filterStart.value.currentValue.date.at))
    ensures (!PatientChanged(changes) && !BoundChanged(changes.filterStart) && !BoundChanged(changes.filterEnd))
            ==> !ShouldReload(changes)
  {
  }

  /** The two list requests: by date range, or the patient's current records. */
  datatype RecordsRequest = RangeRequest(patient: int, start: Civil, end: Civil) | CurrentRequest(patient: int)

  /** `loadRecords()`: no request for a falsy patient id; the range request exactly when
      both bounds are present and valid dates, the plain one otherwise. */
  function LoadRequest(patientId: int, filterStart: DateValue, filterEnd: DateValue): (r: Option<RecordsRequest>)
    ensures r.None? <==> patientId == 0
    ensures r.Some? ==> r.value.patient == patientId
    ensures r.Some? ==> (r.value.RangeRequest? <==>
                           DateOf(filterStart).Some? && DateOf(filterStart).value.ValidDate?
                           && DateOf(filterEnd).Some? && DateOf(filterEnd).value.ValidDate?)
    ensures r.Some? && r.value.RangeRequest? ==>
              DateOf(filterStart) == Some(ValidDate(r.value.start)) && DateOf(filterEnd) == Some(ValidDate(r.value.end))
  {
    if patientId == 0 then None
    else
      var start := DateOf(filterStart);
      var end := DateOf(filterEnd);
      if start.Some? && end.Some? && start.value.ValidDate? && end.value.ValidDate?
      then Some(RangeRequest(patientId, start.value.at, end.value.at))
      else Some(CurrentRequest(patientId))
  }

  /** A missing or invalid bound alone makes the panel ask for the current records. */
  lemma LoadRequestIgnoresPartialFilter(patientId: int, start: Civil)
    requires patientId != 0
    ensures LoadRequest(patientId, DateObject(ValidDate(start)), Falsy) == Some(CurrentRequest(patientId))
    ensures LoadRequest(patientId, DateObject(ValidDate(start)), DateObject(InvalidDate)) == Some(CurrentRequest(patientId))
  {
  }
}
