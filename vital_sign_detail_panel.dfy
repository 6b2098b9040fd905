/**
 * `VitalSignDetailPanelComponent`: the vital-sign readings of a patient (sign, value, date)
 * with a create form, inline row editing, a date filter, the vital-sign catalogue the forms
 * choose from, and a paginated table that draws a divider where the calendar day changes.
 * Service requests are returned; their answers, and the answer of the delete confirmation
 * dialog, arrive as parameters or through the `On...` methods.
 */
module VitalSignDetailPanel {
  import opened Js
  import opened Wrappers
  import opened Dates
  import opened RowForms
  import opened Panels
  import Catalog

  type VitalSign = Catalog.VitalSign

  /** A reading as the backend sends it; the embedded vital sign may be missing. */
  datatype VitalRecord = VitalRecord(id: JsValue, vitalSignDetailId: JsValue, date: DateValue,
                                     vitalSign: Option<VitalSign>, value: JsValue)

  /** The value of a row form or of the create form. */
  datatype VitalForm = VitalForm(date: Option<JsDate>, vitalSignId: JsValue, value: JsValue)

  /** The `VitalSignDetail` payload of a create or update request. */
  datatype VitalSignDetail = VitalSignDetail(patientId: int, vitalSign: VitalSign, value: string,
                                             date: Option<JsDate>)

  datatype UpdateRequest = UpdateRequest(id: JsNumber, payload: VitalSignDetail)

  /** `extractRecordId(record)`: `Number(id ?? vitalSignDetailId)`, null when both are missing. */
  function ExtractRecordId(r: VitalRecord): (id: Option<JsNumber>)
    ensures id.None? <==> Nullish(r.id) && Nullish(r.vitalSignDetailId)
    ensures !Nullish(r.id) ==> id == Some(ToNumber(r.id))
    ensures Nullish(r.id) && !Nullish(r.vitalSignDetailId) ==> id == Some(ToNumber(r.vitalSignDetailId))
  {
    RecordId(Coalesce(Coalesce(r.id, r.vitalSignDetailId), Null))
  }

  /** `extractVitalSignId(record)`: `record?.vitalSign?.id ?? null` */
  function ExtractVitalSignId(r: VitalRecord): (id: Option<int>)
    ensures id.Some? <==> r.vitalSign.Some? && r.vitalSign.value.id.Some?
    ensures id.Some? ==> id == r.vitalSign.value.id
  {
    if r.vitalSign.Some? then r.vitalSign.value.id else None
  }

  function KeyOf(r: VitalRecord): Option<string> {
    KeyOfId(ExtractRecordId(r))
  }

  /** The form value of a record: its date as a `Date` (or null), the embedded sign's id (or
      null) and the value with `''` for a missing one. */
  function FormOf(r: VitalRecord): VitalForm {
    var signId := ExtractVitalSignId(r);
    VitalForm(DateOf(r.date), if signId.Some? then Num(signId.value) else Null, Coalesce(r.value, Str("")))
  }

  /** `normalizeRecords(records)`: every date becomes a `Date` object or null. */
  function NormalizeRecords(records: seq<VitalRecord>): (r: seq<VitalRecord>)
    ensures |r| == |records|
    ensures forall i | 0 <= i < |r| ::
              r[i] == records[i].(date := NormalizedDate(records[i].date)) && FormOf(r[i]) == FormOf(records[i])
  {
    seq(|records|, i requires 0 <= i < |records| => records[i].(date := NormalizedDate(records[i].date)))
  }

  /** `vitalSigns.find(sign => sign.id === id)` */
  function FindSignById(signs: seq<VitalSign>, id: int): (r: Option<VitalSign>)
    ensures r.Some? ==> r.value in signs && r.value.id == Some(id)
    ensures r.None? ==> forall s | s in signs :: s.id != Some(id)
    ensures r.Some? ==> exists i :: (0 <= i < |signs| && signs[i] == r.value
                                     && forall j | 0 <= j < i :: signs[j].id != Some(id))
  {
    if signs == [] then None
    else if signs[0].id == Some(id) then Some(signs[0])
    else
      var r := FindSignById(signs[1..], id);
      if r.Some? then
        var i :| 0 <= i < |signs[1..]| && signs[1..][i] == r.value
                 && forall j | 0 <= j < i :: signs[1..][j].id != Some(id);
        assert signs[i + 1] == r.value;
        r
      else r
  }

  /** `buildVitalSignPayload(rawId)`: a blank sign for an id that is not a finite number, the
      catalogue entry with that id, or else a blank sign carrying the id. */
  function BuildVitalSignPayload(signs: seq<VitalSign>, rawId: JsValue): (s: VitalSign)
    ensures ToNumber(rawId).NaN? ==> s == Catalog.VitalSign(None, "", Num(0))
    ensures ToNumber(rawId).Finite? ==> s.id == Some(ToNumber(rawId).value)
    ensures ToNumber(rawId).Finite? && s in signs ==> s == FindSignById(signs, ToNumber(rawId).value).value
    ensures ToNumber(rawId).Finite? && FindSignById(signs, ToNumber(rawId).value).None? ==>
              s == Catalog.VitalSign(Some(ToNumber(rawId).value), "", Num(0))
  {
    var id := ToNumber(rawId);
    if id.NaN? then Catalog.VitalSign(None, "", Num(0))
    else
      var found := FindSignById(signs, id.value);
      if found.Some? then found.value else Catalog.VitalSign(Some(id.value), "", Num(0))
  }

  /** `mapFormToPayload(formValue)`: the patient the form names or else the panel's, the sign
      through `buildVitalSignPayload`, the value as trimmed text, the date copied. */
  function MapFormToPayload(signs: seq<VitalSign>, f: VitalForm, formPatientId: Option<int>, patientId: int)
    : (p: VitalSignDetail)
    ensures p.patientId == formPatientId.GetOr(patientId)
    ensures p.vitalSign == BuildVitalSignPayload(signs, f.vitalSignId)
    ensures p.value == Trim(TextOf(f.value))
    ensures p.date == f.date
  {
    var baseDate := if f.date.Some? then Some(f.date.value) else None;
    VitalSignDetail(formPatientId.GetOr(patientId), BuildVitalSignPayload(signs, f.vitalSignId),
                    Trim(TextOf(f.value)), baseDate)
  }

  /** The value in a payload carries no surrounding whitespace, and it is empty exactly when
      the form's text is blank. */
  lemma PayloadValueTrimmed(signs: seq<VitalSign>, f: VitalForm, formPatientId: Option<int>, patientId: int)
    ensures var p := MapFormToPayload(signs, f, formPatientId, patientId);
            p.value == Trim(p.value) && (p.value == "" <==> AllWhitespace(TextOf(f.value)))
  {
    TrimIdempotent(TextOf(f.value));
    TrimEmptyIff(TextOf(f.value));
  }

  /** `getVitalSignLabel(record)`: the embedded sign's name, else the catalogue name for its
      id, else `Signo #<id>`, and `Sin signo` without a non-zero id. */
  function GetVitalSignLabel(signs: seq<VitalSign>, r: VitalRecord): (name: string)
    ensures r.vitalSign.Some? && r.vitalSign.value.name != "" ==> name == r.vitalSign.value.name
    ensures !(r.vitalSign.Some? && r.vitalSign.value.name != "") ==>
              (ExtractVitalSignId(r).None? || ExtractVitalSignId(r) == Some(0) ==> name == "Sin signo")
    ensures !(r.vitalSign.Some? && r.vitalSign.value.name != "") && ExtractVitalSignId(r).Some?
            && ExtractVitalSignId(r).value != 0 ==>
              name == (var found := FindSignById(signs, ExtractVitalSignId(r).value);
                        if found.Some? then found.value.name else "Signo #" + IntToString(ExtractVitalSignId(r).value))
  {
    if r.vitalSign.Some? && r.vitalSign.value.name != "" then r.vitalSign.value.name
    else
      var id := ExtractVitalSignId(r);
      if id.Some? && id.value != 0 then
        var found := FindSignById(signs, id.value);
        if found.Some? then found.value.name else "Signo #" + IntToString(id.value)
      else "Sin signo"
  }

  /** After a sync the row keys are exactly the keys of the records with an id. */
  lemma RowFormsFollowRecords(forms: Forms<VitalForm>, records: seq<VitalRecord>)
    ensures Synced(forms, records, KeyOf, FormOf).Keys
            == set x | x in records && ExtractRecordId(x).Some? :: RowKey(ExtractRecordId(x).value)
  {
    KeysOfAsSet(records, KeyOf);
    SyncedSpec(forms, records, KeyOf, FormOf);
  }

  /** The form that `new Date()`, no sign and an empty value give. */
  function EmptyForm(now: Civil): VitalForm {
    VitalForm(Some(ValidDate(now)), Null, Str(""))
  }

  // ---------------------------------------------------------------------------
  // Pagination and day dividers
  // ---------------------------------------------------------------------------

  /** The table's paginator, once the view has attached one. */
  datatype Paginator = Paginator(pageIndex: int, pageSize: int)

  /** `resolvePageSize(fallback)`: the paginator's page size when it is positive, otherwise
      the fallback. */
  function ResolvePageSize(paginator: Option<Paginator>, fallback: int): (size: int)
    ensures size == fallback || (paginator.Some? && size == paginator.value.pageSize)
    ensures fallback > 0 ==> size > 0
  {
    var pageSize := if paginator.Some? then paginator.value.pageSize else fallback;
    if pageSize > 0 then pageSize else fallback
  }

  /** The position in the whole data set of the row drawn at `index` on the current page. */
  function GlobalIndex(dataset: seq<VitalRecord>, paginator: Option<Paginator>, index: int): int {
    var pageSize := ResolvePageSize(paginator, |dataset|);
    var pageIndex := if paginator.Some? then paginator.value.pageIndex else 0;
    pageIndex * pageSize + index
  }

  /** `getRenderedRow(index)`: the record drawn at `index` on the current page, if any. */
  function GetRenderedRow(dataset: seq<VitalRecord>, paginator: Option<Paginator>, index: int): Option<VitalRecord> {
    if index < 0 then None
    else if |dataset| == 0 then None
    else
      var globalIndex := GlobalIndex(dataset, paginator, index);
      if globalIndex < 0 || globalIndex >= |dataset| then None
      else Some(dataset[globalIndex])
  }

  /** A row is drawn exactly when the index is not negative and its position on the page is
      inside the data set; without a paginator the index is the position itself, and on a
      page of positive size the rows are that page's slice of the data. */
  lemma GetRenderedRowSpec(dataset: seq<VitalRecord>, paginator: Option<Paginator>, index: int)
    ensures GetRenderedRow(dataset, paginator, index).Some? <==>
              index >= 0 && 0 <= GlobalIndex(dataset, paginator, index) < |dataset|
    ensures GetRenderedRow(dataset, paginator, index).Some? ==>
              GetRenderedRow(dataset, paginator, index).value == dataset[GlobalIndex(dataset, paginator, index)]
    ensures paginator.None? && 0 <= index < |dataset| ==> GetRenderedRow(dataset, paginator, index) == Some(dataset[index])
    ensures (paginator.Some? && paginator.value.pageSize > 0 && index >= 0
             && 0 <= paginator.value.pageIndex * paginator.value.pageSize + index < |dataset|) ==>
              GetRenderedRow(dataset, paginator, index)
              == Some(dataset[paginator.value.pageIndex * paginator.value.pageSize + index])
  {
  }

  /** `toDate(value)`: no date for a falsy value; a `Date` object as it is, even an invalid
      one; anything else parsed, and no date when parsing fails. */
  function ToDate(v: DateValue): Option<JsDate> {
    if !TruthyDate(v) then None
    else if v.DateObject? then Some(v.date)
    else
      var parsed := NewDate(v);
      if GetTime(parsed).NaN? then None else Some(parsed)
  }

  /** `getFullYear()`, `getMonth()` and `getDate()`: NaN on an invalid date. */
  function FullYear(d: JsDate): JsNumber {
    if d.ValidDate? then Finite(d.at.year) else NaN
  }

  function MonthOf(d: JsDate): JsNumber {
    if d.ValidDate? then Finite(d.at.month) else NaN
  }

  function DayOf(d: JsDate): JsNumber {
    if d.ValidDate? then Finite(d.at.day) else NaN
  }

  function PlusOne(n: JsNumber): JsNumber {
    if n.Finite? then Finite(n.value + 1) else NaN
  }

  /** `buildDateKey(value)`: `${year}-${month}-${day}` with month and day padded to two
      digits, `invalid` when there is no date. */
  function BuildDateKey(v: DateValue): string {
    var date := ToDate(v);
    if date.None? then "invalid" else KeyOfDate(date.value)
  }

  /** The key of a date once there is one. */
  function KeyOfDate(d: JsDate): string {
    NumberToString(FullYear(d)) + "-" + PadStart(NumberToString(PlusOne(MonthOf(d))), 2) + "-"
    + PadStart(NumberToString(DayOf(d)), 2)
  }

  /** The key of a calendar day: year, 1-based month and day, the last two with two digits. */
  function DayKey(c: Civil): string {
    IntToString(c.year) + "-" + TwoDigits(c.month + 1) + "-" + TwoDigits(c.day)
  }

  /** The three kinds of key: `invalid` for a missing or unparsable value, `NaN-NaN-NaN` for
      an invalid `Date` object, and the day key of a valid date. */
  lemma BuildDateKeySpec(v: DateValue)
    ensures ToDate(v).None? <==> v.Falsy? || (!v.DateObject? && NewDate(v).InvalidDate?)
    ensures ToDate(v).None? ==> BuildDateKey(v) == "invalid"
    ensures v == DateObject(InvalidDate) ==> BuildDateKey(v) == "NaN-NaN-NaN"
    ensures ToDate(v).Some? && ToDate(v).value.ValidDate? ==> BuildDateKey(v) == DayKey(ToDate(v).value.at)
    ensures TruthyDate(v) && NewDate(v).ValidDate? ==> BuildDateKey(v) == DayKey(NewDate(v).at)
  {
    if ToDate(v).Some? && ToDate(v).value.ValidDate? {
      BuildDateKeyOfValid(v);
    } else if v == DateObject(InvalidDate) {
      BuildDateKeyOfInvalidObject();
    }
  }

  lemma BuildDateKeyOfValid(v: DateValue)
    requires ToDate(v).Some? && ToDate(v).value.ValidDate?
    ensures BuildDateKey(v) == DayKey(ToDate(v).value.at)
  {
    KeyOfValidDate(ToDate(v).value.at);
  }

  lemma KeyOfValidDate(c: Civil)
    ensures KeyOfDate(ValidDate(c)) == DayKey(c)
  {
    PaddedNumber(c.month + 1);
    PaddedNumber(c.day);
  }

  lemma PaddedNumber(n: nat)
    requires n < 100
    ensures PadStart(NumberToString(Finite(n)), 2) == TwoDigits(n)
  {
    PadStartTwoDigits(n);
  }

  lemma BuildDateKeyOfInvalidObject()
    ensures BuildDateKey(DateObject(InvalidDate)) == "NaN-NaN-NaN"
  {
    assert ToDate(DateObject(InvalidDate)) == Some(InvalidDate);
    assert PadStart("NaN", 2) == "NaN";
    assert KeyOfDate(InvalidDate) == "NaN" + "-" + "NaN" + "-" + "NaN";
  }

  /** Where the year, month and day stand in a day key. */
  lemma DayKeyParts(c: Civil)
    ensures var k, y := DayKey(c), IntToString(c.year);
            |k| == |y| + 6 && k[..|y|] == y && k[|y| + 1..|y| + 3] == TwoDigits(c.month + 1)
            && k[|y| + 4..] == TwoDigits(c.day) && k[|k| - 3] == '-'
  {
    var y, m, d := IntToString(c.year), TwoDigits(c.month + 1), TwoDigits(c.day);
    var k := DayKey(c);
    assert k == y + ("-" + m + "-" + d);
    assert ("-" + m + "-" + d)[1..3] == m;
    assert ("-" + m + "-" + d)[4..] == d;
  }

  /** Two valid dates have the same day key exactly when they fall on the same calendar day. */
  lemma DayKeyInjective(a: Civil, b: Civil)
    ensures DayKey(a) == DayKey(b) <==> SameDay(a, b)
  {
    if DayKey(a) == DayKey(b) {
      DayKeyParts(a);
      DayKeyParts(b);
      var ya, yb := IntToString(a.year), IntToString(b.year);
      assert |ya| == |yb|;
      IntToStringInjective(a.year, b.year);
    }
  }

  /** A day key is neither of the two keys of a missing or invalid date: its third character
      from the end is a dash. */
  lemma DayKeyDistinct(c: Civil)
    ensures DayKey(c) != "invalid" && DayKey(c) != "NaN-NaN-NaN"
  {
    DayKeyParts(c);
  }

  /** `shouldShowDateDivider(index)`: the rows at `index` and `index - 1` on the page are both
      drawn and their day keys differ. */
  function DateDivider(dataset: seq<VitalRecord>, paginator: Option<Paginator>, index: int): bool {
    var current := GetRenderedRow(dataset, paginator, index);
    var previous := GetRenderedRow(dataset, paginator, index - 1);
    if current.None? || previous.None? then false
    else BuildDateKey(current.value.date) != BuildDateKey(previous.value.date)
  }

  /** The first row of every page has no divider; between two drawn rows with valid dates
      there is one exactly when the days differ; two rows without a date, or two with an
      invalid date, share their group. */
  lemma DateDividerSpec(dataset: seq<VitalRecord>, paginator: Option<Paginator>, index: int)
    ensures index <= 0 ==> !DateDivider(dataset, paginator, index)
    ensures (GetRenderedRow(dataset, paginator, index).Some? && GetRenderedRow(dataset, paginator, index - 1).Some?
             && GetRenderedRow(dataset, paginator, index).value.date.DateObject?
             && GetRenderedRow(dataset, paginator, index).value.date.date.ValidDate?
             && GetRenderedRow(dataset, paginator, index - 1).value.date.DateObject?
             && GetRenderedRow(dataset, paginator, index - 1).value.date.date.ValidDate?) ==>
              (DateDivider(dataset, paginator, index) <==>
                 !SameDay(GetRenderedRow(dataset, paginator, index).value.date.date.at,
                          GetRenderedRow(dataset, paginator, index - 1).value.date.date.at))
    ensures (GetRenderedRow(dataset, paginator, index).Some? && GetRenderedRow(dataset, paginator, index - 1).Some?
             && GetRenderedRow(dataset, paginator, index).value.date == GetRenderedRow(dataset, paginator, index - 1).value.date)
            ==> !DateDivider(dataset, paginator, index)
  {
    var current := GetRenderedRow(dataset, paginator, index);
    var previous := GetRenderedRow(dataset, paginator, index - 1);
    if current.Some? && previous.Some? {
      BuildDateKeySpec(current.value.date);
      BuildDateKeySpec(previous.value.date);
      if current.value.date.DateObject? && current.value.date.date.ValidDate?
         && previous.value.date.DateObject? && previous.value.date.date.ValidDate? {
        DayKeyInjective(current.value.date.date.at, previous.value.date.date.at);
      }
    }
  }

  class VitalSignDetailPanelComponent {
    var patientId: int
    var filterStart: DateValue
    var filterEnd: DateValue
    var creating: bool
    var createForm: RowForm<VitalForm>
    var vitalSigns: seq<VitalSign>
    var records: seq<VitalRecord>
    var rowForms: Forms<VitalForm>
    var editingId: Option<JsNumber>
    var loading: bool
    var savingId: Option<JsNumber>
    var vitalSignsLoading: bool
    var paginator: Option<Paginator>

    /** The create form starts at the current instant `now`, with no sign and an empty value. */
    constructor(patientId: int, filterStart: DateValue, filterEnd: DateValue, now: Civil)
      ensures this.patientId == patientId && this.filterStart == filterStart && this.filterEnd == filterEnd
      ensures records == [] && rowForms == map[] && vitalSigns == [] && paginator.None?
      ensures createForm == RowForm(EmptyForm(now), false)
      ensures !loading && !creating && !vitalSignsLoading && savingId.None? && editingId.None?
    {
      this.patientId := patientId;
      this.filterStart := filterStart;
      this.filterEnd := filterEnd;
      creating := false;
      createForm := RowForm(EmptyForm(now), false);
      vitalSigns := [];
      records := [];
      rowForms := map[];
      editingId := None;
      loading := false;
      savingId := None;
      vitalSignsLoading := false;
      paginator := None;
    }

    /** `ngOnInit()`: the catalogue is always requested, the records when there is a patient. */
    method NgOnInit() returns (request: Option<RecordsRequest>)
      modifies this`loading, this`vitalSignsLoading
      ensures vitalSignsLoading
      ensures request == LoadRequest(patientId, filterStart, filterEnd)
      ensures loading == (request.Some? || old(loading))
      ensures records == old(records) && rowForms == old(rowForms) && vitalSigns == old(vitalSigns)
    {
      LoadVitalSigns();
      request := None;
      if patientId != 0 {
        request := LoadRecords();
      }
    }

    /** `ngOnChanges(changes)`: the inputs take their current values, and the records are
        reloaded exactly when the reload rule holds. */
    method NgOnChanges(changes: Changes) returns (request: Option<RecordsRequest>)
      modifies this`patientId, this`filterStart, this`filterEnd, this`loading
      ensures patientId == Applied(old(patientId), changes.patientId)
      ensures filterStart == Applied(old(filterStart), changes.filterStart)
      ensures filterEnd == Applied(old(filterEnd), changes.filterEnd)
      ensures request.Some? <==> ShouldReload(changes) && patientId != 0
      ensures request.Some? ==> request == LoadRequest(patientId, filterStart, filterEnd) && loading
      ensures request.None? ==> loading == old(loading)
      ensures records == old(records) && rowForms == old(rowForms) && editingId == old(editingId)
    {
      patientId := Applied(patientId, changes.patientId);
      filterStart := Applied(filterStart, changes.filterStart);
      filterEnd := Applied(filterEnd, changes.filterEnd);
      request := None;
      if ShouldReload(changes) {
        request := LoadRecords();
      }
    }

    /** `ngAfterViewInit()`: the table gets its paginator. */
    method NgAfterViewInit(p: Paginator)
      modifies this`paginator
      ensures paginator == Some(p) && records == old(records) && rowForms == old(rowForms)
    {
      paginator := Some(p);
    }

    /** `loadRecords()` */
    method LoadRecords() returns (request: Option<RecordsRequest>)
      modifies this`loading
      ensures request == LoadRequest(patientId, filterStart, filterEnd)
      ensures loading == (request.Some? || old(loading))
      ensures patientId == old(patientId) && filterStart == old(filterStart) && filterEnd == old(filterEnd)
      ensures records == old(records) && rowForms == old(rowForms) && vitalSigns == old(vitalSigns)
      ensures editingId == old(editingId) && savingId == old(savingId)
      ensures createForm == old(createForm) && creating == old(creating)
      ensures vitalSignsLoading == old(vitalSignsLoading) && paginator == old(paginator)
    {
      request := LoadRequest(patientId, filterStart, filterEnd);
      if request.Some? {
        loading := true;
      }
    }

    /** `loadVitalSigns()` */
    method LoadVitalSigns()
      modifies this`vitalSignsLoading
      ensures vitalSignsLoading && vitalSigns == old(vitalSigns) && patientId == old(patientId)
      ensures filterStart == old(filterStart) && filterEnd == old(filterEnd)
      ensures loading == old(loading) && records == old(records) && rowForms == old(rowForms)
    {
      vitalSignsLoading := true;
    }

    /** The catalogue arrived (`signs ?? []`). */
    method OnVitalSignsLoaded(signs: Option<seq<VitalSign>>)
      modifies this`vitalSigns, this`vitalSignsLoading
      ensures vitalSigns == (if signs.Some? then signs.value else []) && !vitalSignsLoading
      ensures records == old(records) && rowForms == old(rowForms)
    {
      vitalSigns := if signs.Some? then signs.value else [];
      vitalSignsLoading := false;
    }

    /** A failed catalogue load leaves the catalogue empty. */
    method OnVitalSignsError()
      modifies this`vitalSigns, this`vitalSignsLoading
      ensures vitalSigns == [] && !vitalSignsLoading && records == old(records)
    {
      vitalSigns := [];
      vitalSignsLoading := false;
    }

    /** The records arrived: they are normalised and the row forms follow them. */
    method OnRecordsLoaded(loaded: seq<VitalRecord>)
      modifies this`records, this`rowForms, this`loading
      ensures records == NormalizeRecords(loaded)
      ensures rowForms == Synced(old(rowForms), records, KeyOf, FormOf)
      ensures !loading && editingId == old(editingId) && savingId == old(savingId)
    {
      records := NormalizeRecords(loaded);
      rowForms := Sync(rowForms, records, KeyOf, FormOf);
      loading := false;
    }

    method OnRecordsError()
      modifies this`loading
      ensures !loading && records == old(records) && rowForms == old(rowForms)
    {
      loading := false;
    }

    /** `startEdit(record)`: a form for the record is created if missing. */
    method StartEdit(r: VitalRecord)
      modifies this`rowForms, this`editingId
      ensures ExtractRecordId(r).None? ==> rowForms == old(rowForms) && editingId == old(editingId)
      ensures ExtractRecordId(r).Some? ==>
                rowForms == EnsurePresent(old(rowForms), KeyOf(r).value, FormOf(r)) && editingId == ExtractRecordId(r)
      ensures records == old(records) && savingId == old(savingId)
    {
      var id := ExtractRecordId(r);
      if id.None? {
        return;
      }
      rowForms := EnsurePresent(rowForms, RowKey(id.value), FormOf(r));
      editingId := id;
    }

    /** `cancelEdit(record)`: an existing row form gets the record's values back. */
    method CancelEdit(r: VitalRecord)
      modifies this`rowForms, this`editingId
      ensures ExtractRecordId(r).None? ==> rowForms == old(rowForms) && editingId == old(editingId)
      ensures ExtractRecordId(r).Some? ==>
                rowForms == Patch(old(rowForms), KeyOf(r).value, FormOf(r)) && editingId.None?
      ensures records == old(records) && savingId == old(savingId)
    {
      var id := ExtractRecordId(r);
      if id.None? {
        return;
      }
      rowForms := Patch(rowForms, RowKey(id.value), FormOf(r));
      editingId := None;
    }

    /** `saveRecord(record)`: the update request, or None for a record without id, a missing
        row form, or an invalid one (then marked touched). */
    method SaveRecord(r: VitalRecord, formValid: bool) returns (request: Option<UpdateRequest>)
      modifies this`rowForms, this`savingId
      ensures request.Some? <==> KeyOf(r).Some? && KeyOf(r).value in old(rowForms) && formValid
      ensures request.Some? ==>
                request.value == UpdateRequest(ExtractRecordId(r).value,
                                               MapFormToPayload(vitalSigns, old(rowForms)[KeyOf(r).value].value, None, patientId))
                && savingId == ExtractRecordId(r)
      ensures request.None? ==> savingId == old(savingId)
      ensures (KeyOf(r).Some? && KeyOf(r).value in old(rowForms) && !formValid) ==>
                rowForms == old(rowForms)[KeyOf(r).value := RowForm(old(rowForms)[KeyOf(r).value].value, true)]
      ensures !(KeyOf(r).Some? && KeyOf(r).value in old(rowForms) && !formValid) ==> rowForms == old(rowForms)
      ensures records == old(records) && editingId == old(editingId) && vitalSigns == old(vitalSigns)
    {
      var id := ExtractRecordId(r);
      if id.None? {
        return None;
      }
      var key := RowKey(id.value);
      if key !in rowForms {
        return None;
      }
      if !formValid {
        rowForms := rowForms[key := RowForm(rowForms[key].value, true)];
        return None;
      }
      savingId := id;
      request := Some(UpdateRequest(id.value, MapFormToPayload(vitalSigns, rowForms[key].value, None, patientId)));
    }

    /** The update succeeded: editing ends and the records are reloaded. */
    method OnSaveSuccess() returns (request: Option<RecordsRequest>)
      modifies this`editingId, this`loading, this`savingId
      ensures editingId.None? && savingId.None?
      ensures request == LoadRequest(patientId, filterStart, filterEnd)
      ensures records == old(records) && rowForms == old(rowForms)
    {
      editingId := None;
      request := LoadRecords();
      savingId := None;
    }

    method OnSaveError()
      modifies this`savingId
      ensures savingId.None? && editingId == old(editingId) && rowForms == old(rowForms) && records == old(records)
    {
      savingId := None;
    }

    /** `deleteRecord(record)` once the confirmation dialog answered `confirmed`: the id to
        delete, None for a record without id or a declined confirmation. */
    method DeleteRecord(r: VitalRecord, confirmed: bool) returns (request: Option<JsNumber>)
      ensures request.Some? <==> ExtractRecordId(r).Some? && confirmed
      ensures request.Some? ==> request == ExtractRecordId(r)
    {
      var id := ExtractRecordId(r);
      if id.None? || !confirmed {
        return None;
      }
      request := id;
    }

    /** The record `id` was deleted: editing stops only if it was that record's, and the
        records are reloaded. */
    method OnDeleteSuccess(id: JsNumber) returns (request: Option<RecordsRequest>)
      modifies this`editingId, this`loading
      ensures editingId == ClearIfSame(old(editingId), id)
      ensures request == LoadRequest(patientId, filterStart, filterEnd)
      ensures records == old(records) && rowForms == old(rowForms) && savingId == old(savingId)
    {
      editingId := ClearIfSame(editingId, id);
      request := LoadRecords();
    }

    /** `submitCreate()`: the create payload for the panel's patient, or None for a falsy
        patient id or an invalid form (then marked touched). */
    method SubmitCreate(formValid: bool) returns (payload: Option<VitalSignDetail>)
      modifies this`creating, this`createForm
      ensures payload.Some? <==> patientId != 0 && formValid
      ensures payload.Some? ==>
                payload.value == MapFormToPayload(old(vitalSigns), old(createForm).value, Some(patientId), patientId)
                && payload.value.patientId == patientId && creating
      ensures payload.None? ==> creating == old(creating)
      ensures (patientId != 0 && !formValid) ==> createForm == RowForm(old(createForm).value, true)
      ensures !(patientId != 0 && !formValid) ==> createForm == old(createForm)
      ensures records == old(records) && rowForms == old(rowForms) && editingId == old(editingId)
      ensures vitalSigns == old(vitalSigns)
    {
      if patientId == 0 {
        return None;
      }
      if !formValid {
        createForm := RowForm(createForm.value, true);
        return None;
      }
      creating := true;
      payload := Some(MapFormToPayload(vitalSigns, createForm.value, Some(patientId), patientId));
    }

    /** The reading was created: `resetCreateForm()` at the current instant `now`, and the
        records are reloaded. */
    method OnCreateSuccess(now: Civil) returns (request: Option<RecordsRequest>)
      modifies this`creating, this`createForm, this`loading
      ensures createForm == RowForm(EmptyForm(now), false)
      ensures !creating && request == LoadRequest(patientId, filterStart, filterEnd)
      ensures records == old(records) && rowForms == old(rowForms) && editingId == old(editingId)
    {
      createForm := RowForm(EmptyForm(now), false);
      request := LoadRecords();
      creating := false;
    }

    method OnCreateError()
      modifies this`creating
      ensures !creating && createForm == old(createForm) && records == old(records)
    {
      creating := false;
    }

    /** `isEditing(record)` */
    method IsEditing(r: VitalRecord) returns (b: bool)
      ensures b <==> IsSameId(editingId, ExtractRecordId(r))
    {
      var id := ExtractRecordId(r);
      b := id.Some? && editingId.Some? && StrictEqualsNumber(id.value, editingId.value);
    }

    /** `getRowForm(record)`: the record's row form, if it has an id and a form. */
    method GetRowForm(r: VitalRecord) returns (form: Option<RowForm<VitalForm>>)
      ensures form.Some? <==> KeyOf(r).Some? && KeyOf(r).value in rowForms
      ensures form.Some? ==> form.value == rowForms[KeyOf(r).value]
    {
      var id := ExtractRecordId(r);
      if id.None? {
        return None;
      }
      var key := RowKey(id.value);
      form := if key in rowForms then Some(rowForms[key]) else None;
    }

    /** `getVitalSignLabel(record)` against the loaded catalogue. */
    method VitalSignLabel(r: VitalRecord) returns (name: string)
      ensures name == GetVitalSignLabel(vitalSigns, r)
    {
      name := GetVitalSignLabel(vitalSigns, r);
    }

    /** `shouldShowDateDivider(index)` on the table's current page; the rows are the loaded
        records, as no table filter is set. */
    method ShouldShowDateDivider(index: int) returns (b: bool)
      ensures b == DateDivider(records, paginator, index)
      ensures index <= 0 ==> !b
    {
      DateDividerSpec(records, paginator, index);
      b := DateDivider(records, paginator, index);
    }
  }
}
