// The patient-search dialog (components/PatientSearch.tsx): the search
// handler's choice between chart number, phone and name, what it leaves in the
// view, and how a patient, or a patient from today's accepts, is handed on.

module PatientSearch {
  import opened Wrappers
  import opened Text
  import opened JsNumber
  import opened Calendar
  import opened UrlQuery
  import opened Dongjedang

  const NoResultsMessage: string := "검색 결과가 없습니다."
  const SearchFailedMessage: string := "검색에 실패했습니다."

  /** A numeric query at least this long is tried as a chart number first. */
  const ChartIdMinLength: nat := 6

  /** The parts of the dialog's state a search writes. */
  datatype SearchView = SearchView(results: seq<Patient>, error: Option<string>)

  /** What one press of search did: the searches sent, in order, and the view after. */
  datatype SearchRun = SearchRun(calls: seq<SearchParams>, view: SearchView)

  function ByChartId(query: string): SearchParams {
    SearchParams(None, None, Some(query))
  }

  function ByPhone(query: string): SearchParams {
    SearchParams(None, Some(query), None)
  }

  function ByName(query: string): SearchParams {
    SearchParams(Some(query), None, None)
  }

  /** `s.replace(/-/g, '')`. */
  function RemoveHyphens(s: string): (r: string)
    ensures '-' !in r
    ensures forall i :: 0 <= i < |s| && s[i] != '-' ==> s[i] in r
    ensures forall c :: c in r ==> c in s
  {
    if s == [] then []
    else if s[0] == '-' then RemoveHyphens(s[1..])
    else [s[0]] + RemoveHyphens(s[1..])
  }

  /** `/^\d+$/.test(query.replace(/-/g, ''))`: ASCII digits and hyphens, with at least one digit. */
  predicate IsNumericQuery(query: string) {
    var stripped := RemoveHyphens(query);
    stripped != [] && AllDigits(stripped)
  }

  /** A numeric query is made of digits and hyphens only. */
  lemma NumericQueryChars(query: string)
    requires IsNumericQuery(query)
    ensures forall i :: 0 <= i < |query| ==> query[i] == '-' || IsDigit(query[i])
    ensures exists i :: 0 <= i < |query| && IsDigit(query[i])
  {
    var stripped := RemoveHyphens(query);
    forall i | 0 <= i < |query| && query[i] != '-'
      ensures IsDigit(query[i])
    {
      var k :| 0 <= k < |stripped| && stripped[k] == query[i];
    }
    assert stripped[0] in query;
  }

  /** A response that lists at least one patient. */
  predicate Found(r: ApiResponse<PatientSearchResult>) {
    r.success && r.data.Some? && |r.data.value.patients| > 0
  }

  /**
   * `handleSearch`. A blank query does nothing. A numeric query of six or
   * more characters (hyphens included) is searched as a chart number, and as
   * a phone number when that finds nobody; any other query is searched as a
   * name. The query is sent as typed, untrimmed. A successful answer with
   * data replaces the results and says so when they are empty; otherwise the
   * results stay and the error is the server's message, or a fixed one.
   */
  function HandleSearch(fetch: Fetch<PatientSearchResult>, apiKey: Option<string>, view: SearchView, query: string)
    : (run: SearchRun)
    ensures AllWhitespace(query) ==> run == SearchRun([], view)
    ensures !AllWhitespace(query) ==> 1 <= |run.calls| <= 2
    ensures !AllWhitespace(query) && IsNumericQuery(query) && |query| >= ChartIdMinLength ==>
      run.calls[0] == ByChartId(query) &&
      (run.calls == [ByChartId(query)] <==> Found(SearchPatients(fetch, apiKey, ByChartId(query)))) &&
      (run.calls == [ByChartId(query), ByPhone(query)] <==> !Found(SearchPatients(fetch, apiKey, ByChartId(query))))
    ensures !AllWhitespace(query) && !(IsNumericQuery(query) && |query| >= ChartIdMinLength) ==>
      run.calls == [ByName(query)]
    ensures !AllWhitespace(query) ==>
      var last := SearchPatients(fetch, apiKey, run.calls[|run.calls| - 1]);
      (last.success && last.data.Some? ==>
        run.view.results == last.data.value.patients &&
        run.view.error == (if last.data.value.patients == [] then Some(NoResultsMessage) else None)) &&
      (!(last.success && last.data.Some?) ==>
        run.view.results == view.results &&
        run.view.error.Some? && run.view.error.value != [] &&
        (last.error.Some? && last.error.value.message != [] ==> run.view.error.value == last.error.value.message) &&
        (!(last.error.Some? && last.error.value.message != []) ==> run.view.error == Some(SearchFailedMessage)))
  {
    if Trim(query) == [] then SearchRun([], view)
    else
      var calls :=
        if IsNumericQuery(query) && |query| >= ChartIdMinLength then
          if Found(SearchPatients(fetch, apiKey, ByChartId(query))) then [ByChartId(query)]
          else [ByChartId(query), ByPhone(query)]
        else [ByName(query)];
      var result := SearchPatients(fetch, apiKey, calls[|calls| - 1]);
      var cleared := view.(error := None);
      if result.success && result.data.Some? then
        var patients := result.data.value.patients;
        SearchRun(calls, cleared.(results := patients, error := if |patients| == 0 then Some(NoResultsMessage) else None))
      else
        var message := if result.error.Some? && result.error.value.message != [] then result.error.value.message
          else SearchFailedMessage;
        SearchRun(calls, cleared.(error := Some(message)))
  }

  /** After a search, an error is shown exactly when no patient is listed from this search. */
  lemma SearchErrorIffNothingListed(fetch: Fetch<PatientSearchResult>, apiKey: Option<string>, view: SearchView, query: string)
    requires !AllWhitespace(query)
    ensures var run := HandleSearch(fetch, apiKey, view, query);
      var last := SearchPatients(fetch, apiKey, run.calls[|run.calls| - 1]);
      run.view.error.None? <==> Found(last)
  {
  }

  /** A chart number that finds someone wins: the phone search is never sent and its patients are listed. */
  lemma ChartIdTakesPrecedence(fetch: Fetch<PatientSearchResult>, apiKey: Option<string>, view: SearchView, query: string)
    requires !AllWhitespace(query) && IsNumericQuery(query) && |query| >= ChartIdMinLength
    requires Found(SearchPatients(fetch, apiKey, ByChartId(query)))
    ensures var run := HandleSearch(fetch, apiKey, view, query);
      run.calls == [ByChartId(query)] &&
      run.view == SearchView(SearchPatients(fetch, apiKey, ByChartId(query)).data.value.patients, None)
  {
  }

  /** A query of digits and hyphens is a valid search condition that the serializer leaves as it is. */
  lemma NumericQueryUnreserved(query: string)
    requires IsNumericQuery(query)
    ensures query != [] && AllUnreserved(query)
  {
    NumericQueryChars(query);
  }

  /** A numeric query reaches the server unencoded, as `chart_id=<query>`. */
  lemma ChartIdSentVerbatim(query: string)
    requires IsNumericQuery(query)
    ensures SearchLocation(ByChartId(query)).query == Some("chart_id" + "=" + query)
  {
    NumericQueryUnreserved(query);
    assert SearchQuery(ByChartId(query)) == [("chart_id", query)];
    SearchUrlOneCondition(ByChartId(query), "chart_id", query);
  }

  /** The phone fallback sends the same text, as `phone=<query>`. */
  lemma PhoneSentVerbatim(query: string)
    requires IsNumericQuery(query)
    ensures SearchLocation(ByPhone(query)).query == Some("phone" + "=" + query)
  {
    NumericQueryUnreserved(query);
    assert SearchQuery(ByPhone(query)) == [("phone", query)];
    SearchUrlOneCondition(ByPhone(query), "phone", query);
  }

  // ---- Handing a patient on ----

  /** What `onPatientSelect` receives: the patient with its gender settled, and the age when the birth field has one. */
  datatype Selection = Selection(patient: Patient, age: Option<Number>)

  /**
   * `handleSelectPatient`: the gender read from the birth field wins, then a
   * non-empty stored gender, else none; the age is `parseBirthDate`'s when it
   * parses. Every other field is passed on unchanged.
   */
  function SelectPatient(p: Patient, today: Moment): (s: Selection)
    ensures s.patient == p.(gender := s.patient.gender)
    ensures ParseGender(p.birth).Some? ==> s.patient.gender == Some(ParseGender(p.birth).value.Label())
    ensures ParseGender(p.birth).None? ==> s.patient.gender == (if Given(p.gender) then p.gender else None)
    ensures s.age.Some? <==> |p.birth| >= 6
    ensures s.age.Some? ==> s.age.value == ParseBirthDate(p.birth, today).value.age
  {
    var birthInfo := ParseBirthDate(p.birth, today);
    var gender :=
      match ParseGender(p.birth)
      case Some(g) => g.Label()
      case None => p.gender.GetOr("");
    Selection(
      p.(gender := if gender != [] then Some(gender) else None),
      if birthInfo.Some? then Some(birthInfo.value.age) else None)
  }

  /** A code from 1 to 4 in the seventh place gives the gender: odd is male, even female. */
  lemma SelectRegisteredGender(p: Patient, today: Moment)
    requires |p.birth| >= 7 && '1' <= p.birth[6] <= '4'
    ensures SelectPatient(p, today).patient.gender == Some(if p.birth[6] in "13" then "남" else "여")
  {
  }

  /**
   * A patient with an all-digit `YYMMDDN` birth field and a code from 1 to 4
   * is handed on with the age in full years that the code's century and the
   * date give.
   */
  lemma SelectRegisteredAge(p: Patient, today: Moment)
    requires DigitBirth(p.birth) && |p.birth| >= 7 && '1' <= p.birth[6] <= '4'
    requires today.Valid() && today.date.year >= 100
    requires Date(today.date.year, FieldValue(p.birth, 2), FieldValue(p.birth, 4)).Valid()
    ensures var born := (if p.birth[6] >= '3' then 2000 else 1900) + FieldValue(p.birth, 0);
      var mm, dd := FieldValue(p.birth, 2), FieldValue(p.birth, 4);
      var pending := today.date.month < mm || (today.date.month == mm && today.date.day < dd);
      SelectPatient(p, today).age == Some(Int(today.date.year - born - (if pending then 1 else 0)))
  {
    var age := ParseBirthDate(p.birth, today).value.age;
    AgeOfCode(p.birth, today);
    var s := SelectPatient(p, today);
    assert s.age.Some? && s.age.value == age;
  }

  /**
   * `handleSelectAcceptedPatient`: the accepted patient's chart number is
   * searched; the first patient found is handed on as `handleSelectPatient`
   * does, and otherwise only the accept record's id, chart number and name,
   * with empty birth and phone fields and no age.
   */
  function SelectAccepted(fetch: Fetch<PatientSearchResult>, apiKey: Option<string>, accepted: AcceptedPatient, today: Moment)
    : (s: Selection)
    ensures var r := SearchPatients(fetch, apiKey, ByChartId(accepted.chartId));
      (Found(r) ==> s == SelectPatient(r.data.value.patients[0], today)) &&
      (!Found(r) ==>
        s.age.None? &&
        s.patient.patientId == accepted.patientId &&
        s.patient.chartId == accepted.chartId &&
        s.patient.name == accepted.name &&
        s.patient.birth == [] && s.patient.phone == [] &&
        s.patient.gender.None? && s.patient.memo.None?)
  {
    var result := SearchPatients(fetch, apiKey, ByChartId(accepted.chartId));
    if result.success && result.data.Some? && |result.data.value.patients| > 0 then
      SelectPatient(result.data.value.patients[0], today)
    else
      Selection(Patient(accepted.patientId, accepted.chartId, accepted.name, "", "", None, None), None)
  }

  /**
   * An accept record without a chart number sends a search with no
   * condition at all (`/patients/search?`), since an empty `chart_id` is not
   * appended.
   */
  lemma EmptyChartIdSendsNoCondition(accepted: AcceptedPatient)
    requires accepted.chartId == []
    ensures SearchLocation(ByChartId(accepted.chartId)).query == Some([])
  {
  }
}
