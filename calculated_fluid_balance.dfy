/**
 * `CalculatedFluidBalanceComponent`: the page that shows a patient's calculated fluid
 * balances for an optional date range (taken from the route), offers them as a PDF download
 * or by e-mail, and names the downloaded file.
 *
 * Route parameters and the backend's answers are parameters; navigation, the snackbar and
 * the browser download are reported as results rather than performed.
 */
module CalculatedFluidBalance {
  import opened Js
  import opened Wrappers
  import opened Dates
  import opened Panels

  /** One `FluidBalanceReport` row of a summary. */
  datatype Report = Report(date: DateValue, drained: JsValue, infused: JsValue, patientId: JsValue,
                           descriptionFluid: JsValue, ultrafiltration: JsValue)

  /** One `CalculatedFluidBalance`; the backend may leave the report list out. */
  datatype Summary = Summary(fluidBalances: Option<seq<Report>>, partialBalance: JsValue, totalBalance: JsValue,
                             totalIngested: JsValue, totalUrine: JsValue, finalBalance: JsValue)

  /** What the balance endpoint answers: a list, a single summary, or null / undefined. */
  datatype SummaryResponse = Many(all: seq<Summary>) | One(single: Summary) | Nothing

  /** `MAX_BALANCES`: the page shows at most this many summaries. */
  const MaxBalances := 15

  /** `normalizeSummaries(response)`: a list as it is, a single summary wrapped, nothing empty. */
  function NormalizeSummaries(response: SummaryResponse): (r: seq<Summary>)
    ensures response.Many? ==> r == response.all
    ensures response.One? ==> r == [response.single]
    ensures response.Nothing? ==> r == []
  {
    match response
    case Many(all) => all
    case One(s) => [s]
    case Nothing => []
  }

  /** `normalizeReports(reports)`: every date becomes a `Date` object or null. */
  function NormalizeReports(reports: seq<Report>): (r: seq<Report>)
    ensures |r| == |reports|
    ensures forall i | 0 <= i < |r| :: r[i] == reports[i].(date := NormalizedDate(reports[i].date))
  {
    seq(|reports|, i requires 0 <= i < |reports| => reports[i].(date := NormalizedDate(reports[i].date)))
  }

  /** One entry as the page keeps it: its reports normalised, a missing list read as empty. */
  function NormalizeEntry(entry: Summary): Summary {
    entry.(fluidBalances := Some(NormalizeReports(entry.fluidBalances.GetOr([]))))
  }

  /** The summaries kept from an answer: at most `MAX_BALANCES`, the leading ones of the
      normalised answer in order, each with its reports normalised. */
  function KeptSummaries(response: SummaryResponse): (r: seq<Summary>)
    ensures |r| == if |NormalizeSummaries(response)| <= MaxBalances then |NormalizeSummaries(response)| else MaxBalances
    ensures |r| <= 15
    ensures forall i | 0 <= i < |r| :: r[i] == NormalizeEntry(NormalizeSummaries(response)[i])
    ensures forall i | 0 <= i < |r| ::
              r[i].fluidBalances.Some?
              && |r[i].fluidBalances.value| == |NormalizeSummaries(response)[i].fluidBalances.GetOr([])|
  {
    var all := NormalizeSummaries(response);
    var kept := if |all| <= MaxBalances then all else all[..MaxBalances];
    seq(|kept|, i requires 0 <= i < |kept| => NormalizeEntry(kept[i]))
  }

  /** `hasData`: some summary has a non-empty report list. */
  predicate HasData(summaries: seq<Summary>) {
    exists i | 0 <= i < |summaries| :: |summaries[i].fluidBalances.GetOr([])| > 0
  }

  /** Kept summaries have data exactly when one of the first fifteen summaries of the answer
      has a report; an answer whose first fifteen summaries are all empty shows no data even
      if a later one is not. */
  lemma HasDataOfKept(response: SummaryResponse)
    ensures HasData(KeptSummaries(response)) <==>
              exists i | 0 <= i < |NormalizeSummaries(response)| && i < MaxBalances ::
                |NormalizeSummaries(response)[i].fluidBalances.GetOr([])| > 0
  {
    var kept := KeptSummaries(response);
    if HasData(kept) {
      var i :| 0 <= i < |kept| && |kept[i].fluidBalances.GetOr([])| > 0;
      assert |NormalizeSummaries(response)[i].fluidBalances.GetOr([])| > 0;
    }
    if exists i | 0 <= i < |NormalizeSummaries(response)| && i < MaxBalances ::
         |NormalizeSummaries(response)[i].fluidBalances.GetOr([])| > 0 {
      var i :| 0 <= i < |NormalizeSummaries(response)| && i < MaxBalances
               && |NormalizeSummaries(response)[i].fluidBalances.GetOr([])| > 0;
      assert |kept[i].fluidBalances.GetOr([])| > 0;
    }
  }

  /** A query parameter holding a date: its text, and what `new Date(text)` gives for it
      (string parsing is not modelled). */
  datatype DateParam = DateParam(text: string, parsed: JsDate)

  /** `parseDate(raw)`: no date for a missing or empty parameter or an unparsable one. */
  function ParseDate(raw: Option<DateParam>): (r: Option<Civil>)
    ensures r.Some? <==> raw.Some? && raw.value.text != "" && raw.value.parsed.ValidDate?
    ensures r.Some? ==> r.value == raw.value.parsed.at
  {
    if raw.None? || raw.value.text == "" then None
    else
      var parsed := raw.value.parsed;
      if GetTime(parsed).NaN? then None else Some(parsed.at)
  }

  /** `Number(params.get('patientId'))` accepted when finite and positive. */
  function ResolvePatientId(param: Option<string>): (id: Option<int>)
    ensures id.Some? ==> id.value > 0
    ensures param.None? ==> id.None?
    ensures id.Some? <==> param.Some? && ToNumber(Str(param.value)).Finite? && ToNumber(Str(param.value)).value > 0
  {
    var resolved := ToNumber(if param.Some? then Str(param.value) else Null);
    if resolved.NaN? || resolved.value <= 0 then None else Some(resolved.value)
  }

  /** A positive id in its decimal form is accepted as itself. */
  lemma ResolvePatientIdOfDecimal(n: nat)
    requires n > 0
    ensures ResolvePatientId(Some(NatToString(n))) == Some(n)
  {
    StringToNumberOfNatToString(n);
  }

  /** `formatForFile(date)`: the part of `toISOString()` before the first 'T'. */
  function FormatForFile(c: Civil): string {
    Split(ToIsoString(ValidDate(c)).value, 'T')[0]
  }

  /** The file date is the calendar day `YYYY-MM-DD` of the ISO string. */
  lemma FormatForFileIsDatePart(c: Civil)
    ensures FormatForFile(c) == IsoDatePart(c)
  {
    var iso := ToIsoString(ValidDate(c)).value;
    var rest := TwoDigits(c.hour) + ":" + TwoDigits(c.minute) + ":" + TwoDigits(c.second) + "."
                + FixedDigits(c.millis, 3) + "Z";
    assert iso == IsoDatePart(c) + ['T'] + rest;
    IsoDatePartHasNoT(c);
    SplitFirst(IsoDatePart(c), 'T', rest);
  }

  /** The name part of the file: the patient label with every whitespace run made one '_',
      or the patient id when there is no label or it is empty. */
  function FileNamePart(patientName: Option<string>, patientId: int): string {
    if patientName.Some? && patientName.value != "" then ReplaceWhitespaceRuns(patientName.value)
    else IntToString(patientId)
  }

  /** `buildPdfFileName()`; `today` is `new Date()` at the time of the download. */
  function BuildPdfFileName(patientName: Option<string>, patientId: int, startDate: Option<Civil>,
                            endDate: Option<Civil>, today: Civil): string {
    "Balance_" + FileNamePart(patientName, patientId) + DatesPart(startDate, endDate, today) + ".pdf"
  }

  /** `-<start>-<end>` when both dates are set, `-<today>` otherwise. */
  function DatesPart(startDate: Option<Civil>, endDate: Option<Civil>, today: Civil): string {
    if startDate.Some? && endDate.Some? then "-" + FormatForFile(startDate.value) + "-" + FormatForFile(endDate.value)
    else "-" + FormatForFile(today)
  }

  /** The file is `Balance_<name>-<start>-<end>.pdf` when both dates are set and
      `Balance_<name>-<today>.pdf` otherwise, the dates as calendar days; the name part
      carries no whitespace. */
  lemma BuildPdfFileNameSpec(patientName: Option<string>, patientId: int, startDate: Option<Civil>,
                             endDate: Option<Civil>, today: Civil)
    ensures var name := BuildPdfFileName(patientName, patientId, startDate, endDate, today);
            var part := FileNamePart(patientName, patientId);
            (startDate.Some? && endDate.Some? ==>
               name == "Balance_" + part + ("-" + IsoDatePart(startDate.value) + "-" + IsoDatePart(endDate.value)) + ".pdf")
            && (!(startDate.Some? && endDate.Some?) ==> name == "Balance_" + part + ("-" + IsoDatePart(today)) + ".pdf")
    ensures patientName.Some? && patientName.value != "" ==> NoWhitespace(FileNamePart(patientName, patientId))
    ensures var name := BuildPdfFileName(patientName, patientId, startDate, endDate, today);
            |name| >= 12 && name[..8] == "Balance_" && name[|name| - 4..] == ".pdf"
  {
    DatesPartSpec(startDate, endDate, today);
    FileNamePartNoWhitespace(patientName, patientId);
    Ends("Balance_", FileNamePart(patientName, patientId) + DatesPart(startDate, endDate, today), ".pdf");
  }

  lemma FileNamePartNoWhitespace(patientName: Option<string>, patientId: int)
    ensures patientName.Some? && patientName.value != "" ==> NoWhitespace(FileNamePart(patientName, patientId))
  {
    if patientName.Some? && patientName.value != "" {
      ReplaceWhitespaceRunsProps(patientName.value);
    }
  }

  lemma DatesPartSpec(startDate: Option<Civil>, endDate: Option<Civil>, today: Civil)
    ensures startDate.Some? && endDate.Some? ==>
              DatesPart(startDate, endDate, today) == "-" + IsoDatePart(startDate.value) + "-" + IsoDatePart(endDate.value)
    ensures !(startDate.Some? && endDate.Some?) ==> DatesPart(startDate, endDate, today) == "-" + IsoDatePart(today)
    ensures |DatesPart(startDate, endDate, today)| >= 1
  {
    if startDate.Some? && endDate.Some? {
      FormatForFileIsDatePart(startDate.value);
      FormatForFileIsDatePart(endDate.value);
    } else {
      FormatForFileIsDatePart(today);
    }
  }

  /** The first and the last piece of a three-piece string. */
  lemma Ends(a: string, b: string, c: string)
    ensures a + b + c == a + (b + c)
    ensures (a + b + c)[..|a|] == a && (a + b + c)[|a| + |b|..] == c
  {
  }

  /** Where a route change leads. */
  datatype Navigation = ToDashboard | ToPatient(id: int)

  /** The backend request for the page's patient and range (`undefined` for a missing date). */
  datatype BalanceRequest = BalanceRequest(patientId: int, start: Option<Civil>, end: Option<Civil>)

  class CalculatedFluidBalanceComponent {
    var patientId: int
    var patientName: Option<string>
    var startDate: Option<Civil>
    var endDate: Option<Civil>
    var summaries: seq<Summary>
    var loading: bool
    var downloading: bool
    var emailing: bool

    /** Before the route is read there is no patient (`patientId` is unset, which is falsy). */
    constructor()
      ensures patientId == 0 && patientName.None? && startDate.None? && endDate.None? && summaries == []
      ensures !loading && !downloading && !emailing
    {
      patientId := 0;
      patientName := None;
      startDate := None;
      endDate := None;
      summaries := [];
      loading := false;
      downloading := false;
      emailing := false;
    }

    /** The route's parameters arrived: an id that is not a finite positive number sends the
        user to the dashboard and changes nothing; otherwise the patient, its label and the
        range are taken and the balance is requested. */
    method OnRouteParams(idParam: Option<string>, labelParam: Option<string>,
                         startParam: Option<DateParam>, endParam: Option<DateParam>)
      returns (nav: Option<Navigation>, request: Option<BalanceRequest>)
      modifies this`patientId, this`patientName, this`startDate, this`endDate, this`loading
      ensures ResolvePatientId(idParam).None? ==>
                nav == Some(ToDashboard) && request.None?
                && patientId == old(patientId) && patientName == old(patientName)
                && startDate == old(startDate) && endDate == old(endDate) && loading == old(loading)
      ensures ResolvePatientId(idParam).Some? ==>
                nav.None? && patientId == ResolvePatientId(idParam).value && patientName == labelParam
                && startDate == ParseDate(startParam) && endDate == ParseDate(endParam)
                && request == Some(BalanceRequest(patientId, startDate, endDate)) && loading
      ensures summaries == old(summaries) && downloading == old(downloading) && emailing == old(emailing)
    {
      var resolved := ResolvePatientId(idParam);
      if resolved.None? {
        return Some(ToDashboard), None;
      }
      patientId := resolved.value;
      patientName := labelParam;
      startDate := ParseDate(startParam);
      endDate := ParseDate(endParam);
      nav := None;
      request := LoadCalculatedBalance();
    }

    /** `loadCalculatedBalance()`: no request without a patient. */
    method LoadCalculatedBalance() returns (request: Option<BalanceRequest>)
      modifies this`loading
      ensures request == (if patientId != 0 then Some(BalanceRequest(patientId, startDate, endDate)) else None)
      ensures loading == (request.Some? || old(loading))
      ensures patientId == old(patientId) && patientName == old(patientName)
      ensures startDate == old(startDate) && endDate == old(endDate) && summaries == old(summaries)
      ensures downloading == old(downloading) && emailing == old(emailing)
    {
      if patientId == 0 {
        return None;
      }
      loading := true;
      request := Some(BalanceRequest(patientId, startDate, endDate));
    }

    /** The balance arrived: at most fifteen summaries are kept; `noData` is the "no records
        for this range" notice. */
    method OnBalanceLoaded(response: SummaryResponse) returns (noData: bool)
      modifies this`summaries, this`loading
      ensures summaries == KeptSummaries(response) && |summaries| <= MaxBalances
      ensures noData <==> !HasData(summaries)
      ensures !loading && patientId == old(patientId) && startDate == old(startDate) && endDate == old(endDate)
    {
      summaries := KeptSummaries(response);
      noData := !HasData(summaries);
      loading := false;
    }

    method OnBalanceError()
      modifies this`loading
      ensures !loading && summaries == old(summaries)
    {
      loading := false;
    }

    /** `downloadPdf()`: no request without a patient or while a download runs. */
    method DownloadPdf() returns (request: Option<BalanceRequest>)
      modifies this`downloading
      ensures request.Some? <==> patientId != 0 && !old(downloading)
      ensures request.Some? ==> request == Some(BalanceRequest(patientId, startDate, endDate)) && downloading
      ensures request.None? ==> downloading == old(downloading)
      ensures patientId == old(patientId) && startDate == old(startDate) && endDate == old(endDate)
      ensures summaries == old(summaries) && emailing == old(emailing) && loading == old(loading)
    {
      if patientId == 0 || downloading {
        return None;
      }
      downloading := true;
      request := Some(BalanceRequest(patientId, startDate, endDate));
    }

    /** The PDF arrived on `today`: the name the download gets. */
    method OnPdfLoaded(today: Civil) returns (fileName: string)
      modifies this`downloading
      ensures fileName == BuildPdfFileName(patientName, patientId, startDate, endDate, today)
      ensures !downloading && patientId == old(patientId) && summaries == old(summaries)
    {
      fileName := BuildPdfFileName(patientName, patientId, startDate, endDate, today);
      downloading := false;
    }

    method OnPdfError()
      modifies this`downloading
      ensures !downloading && summaries == old(summaries)
    {
      downloading := false;
    }

    /** `sendPdfByEmail()`: no request without a patient or while a sending runs. */
    method SendPdfByEmail() returns (request: Option<BalanceRequest>)
      modifies this`emailing
      ensures request.Some? <==> patientId != 0 && !old(emailing)
      ensures request.Some? ==> request == Some(BalanceRequest(patientId, startDate, endDate)) && emailing
      ensures request.None? ==> emailing == old(emailing)
      ensures patientId == old(patientId) && summaries == old(summaries) && downloading == old(downloading)
    {
      if patientId == 0 || emailing {
        return None;
      }
      emailing := true;
      request := Some(BalanceRequest(patientId, startDate, endDate));
    }

    /** The e-mail request finished, either way. */
    method OnEmailDone()
      modifies this`emailing
      ensures !emailing && summaries == old(summaries) && downloading == old(downloading)
    {
      emailing := false;
    }

    /** `goBack()`: the patient's page, or the dashboard without a patient. */
    method GoBack() returns (nav: Navigation)
      ensures patientId == 0 ==> nav == ToDashboard
      ensures patientId != 0 ==> nav == ToPatient(patientId)
    {
      nav := if patientId == 0 then ToDashboard else ToPatient(patientId);
    }
  }
}
