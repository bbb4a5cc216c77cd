// The clinic's patient API (services/dongjedangApiService.ts): the request
// each call sends, how a thrown fetch becomes a failure envelope, and the two
// parsers of the resident-registration style birth field `YYMMDD[N]`.

module Dongjedang {
  import opened Wrappers
  import opened Text
  import opened JsNumber
  import opened Calendar
  import opened UrlQuery

  const ApiBaseUrl: string := "https://dongjedang-api-proxy.dongjedangmainn.workers.dev/api/v1"

  // ---- Records the API returns ----

  datatype Patient = Patient(
    patientId: int,
    chartId: string,
    name: string,
    birth: string,
    phone: string,
    gender: Option<string>,
    memo: Option<string>)

  datatype PatientSearchResult = PatientSearchResult(patients: seq<Patient>, count: int)

  datatype AcceptedPatient = AcceptedPatient(
    diagId: int,
    patientId: int,
    chartId: string,
    name: string,
    acceptDate: string,
    acceptTime: string)

  datatype TodayAcceptsResult = TodayAcceptsResult(accepts: seq<AcceptedPatient>, count: int)

  datatype ApiError = ApiError(code: string, message: string)

  /** The envelope every endpoint answers with. */
  datatype ApiResponse<T> = ApiResponse(success: bool, data: Option<T>, error: Option<ApiError>)

  // ---- Requests ----

  datatype HttpRequest = Get(url: string, headers: map<string, string>)

  /**
   * What `fetch` followed by `response.json()` gives: the decoded envelope, or
   * the message of whatever either of them threw.
   */
  datatype FetchOutcome<T> = Responded(body: ApiResponse<T>) | Threw(message: string)

  type Fetch<T> = HttpRequest -> FetchOutcome<T>

  const NetworkErrorCode: string := "NETWORK_ERROR"
  const NetworkErrorPrefix: string := "네트워크 오류: "

  /** JavaScript truthiness of an optional string: present and non-empty. */
  predicate Given(s: Option<string>) {
    s.Some? && s.value != []
  }

  /**
   * `getHeaders`: always a JSON content type; the `X-API-Key` header only when
   * the build-time key is set and non-empty.
   */
  function Headers(apiKey: Option<string>): (h: map<string, string>)
    ensures "Content-Type" in h && h["Content-Type"] == "application/json"
    ensures "X-API-Key" in h <==> Given(apiKey)
    ensures "X-API-Key" in h ==> h["X-API-Key"] == apiKey.value
    ensures h.Keys <= {"Content-Type", "X-API-Key"}
  {
    var key := apiKey.GetOr("");
    var base := map["Content-Type" := "application/json"];
    if key != [] then base["X-API-Key" := key] else base
  }

  /** A thrown `fetch` or `json()` as the envelope the service returns instead. */
  function NetworkFailure<T>(message: string): (r: ApiResponse<T>)
    ensures !r.success && r.data.None? && r.error.Some?
    ensures r.error.value.code == NetworkErrorCode
    ensures OccursAt(r.error.value.message, message, |NetworkErrorPrefix|)
    ensures |r.error.value.message| == |NetworkErrorPrefix| + |message|
  {
    ApiResponse(false, None, Some(ApiError(NetworkErrorCode, NetworkErrorPrefix + message)))
  }

  function Settle<T>(outcome: FetchOutcome<T>): ApiResponse<T> {
    match outcome
    case Responded(body) => body
    case Threw(message) => NetworkFailure(message)
  }

  // ---- searchPatients ----

  /** The search conditions; the server wants at least one, the client does not check. */
  datatype SearchParams = SearchParams(name: Option<string>, phone: Option<string>, chartId: Option<string>)

  function Field(key: string, value: Option<string>): (r: seq<(string, string)>)
    ensures |r| <= 1
  {
    if Given(value) then [(key, value.value)] else []
  }

  /** The pairs appended to the query: name, phone, chart_id, each only when given. */
  function SearchQuery(p: SearchParams): seq<(string, string)> {
    Field("name", p.name) + Field("phone", p.phone) + Field("chart_id", p.chartId)
  }

  /** A URL under the API base: a path and, when present, the text after `?`. */
  datatype Location = Location(path: string, query: Option<string>) {
    function Href(): string {
      ApiBaseUrl + path + (if query.Some? then "?" + query.value else "")
    }
  }

  function SearchLocation(p: SearchParams): (l: Location)
    ensures l.path == "/patients/search" && l.query.Some?
  {
    Location("/patients/search", Some(Serialize(SearchQuery(p))))
  }

  /**
   * `searchPatients`: one GET of the search URL with the common headers; the
   * server's envelope is passed through, and a throw becomes a NETWORK_ERROR
   * envelope carrying the thrown message.
   */
  function SearchPatients(fetch: Fetch<PatientSearchResult>, apiKey: Option<string>, p: SearchParams)
    : (r: ApiResponse<PatientSearchResult>)
    ensures var outcome := fetch(Get(SearchLocation(p).Href(), Headers(apiKey)));
      (outcome.Responded? ==> r == outcome.body) &&
      (outcome.Threw? ==> r == NetworkFailure(outcome.message))
  {
    Settle(fetch(Get(SearchLocation(p).Href(), Headers(apiKey))))
  }

  lemma LookupField(key: string, value: Option<string>, name: string)
    ensures Lookup(Field(key, value), name) == if Given(value) && key == name then Some(value.value) else None
  {
  }

  /** In three concatenated lists the first list that has the name decides. */
  lemma LookupConcat3(a: seq<(string, string)>, b: seq<(string, string)>, c: seq<(string, string)>, name: string)
    ensures Lookup(a + b + c, name) ==
      if Lookup(a, name).Some? then Lookup(a, name)
      else if Lookup(b, name).Some? then Lookup(b, name)
      else Lookup(c, name)
  {
    LookupAppend(a + b, c, name);
    LookupAppend(a, b, name);
  }

  lemma SearchQueryName(p: SearchParams)
    ensures Lookup(SearchQuery(p), "name") == if Given(p.name) then Some(p.name.value) else None
  {
    LookupConcat3(Field("name", p.name), Field("phone", p.phone), Field("chart_id", p.chartId), "name");
    LookupField("name", p.name, "name");
    LookupField("phone", p.phone, "name");
    LookupField("chart_id", p.chartId, "name");
  }

  lemma SearchQueryPhone(p: SearchParams)
    ensures Lookup(SearchQuery(p), "phone") == if Given(p.phone) then Some(p.phone.value) else None
  {
    LookupConcat3(Field("name", p.name), Field("phone", p.phone), Field("chart_id", p.chartId), "phone");
    LookupField("name", p.name, "phone");
    LookupField("phone", p.phone, "phone");
    LookupField("chart_id", p.chartId, "phone");
  }

  lemma SearchQueryChartId(p: SearchParams)
    ensures Lookup(SearchQuery(p), "chart_id") == if Given(p.chartId) then Some(p.chartId.value) else None
  {
    LookupConcat3(Field("name", p.name), Field("phone", p.phone), Field("chart_id", p.chartId), "chart_id");
    LookupField("name", p.name, "chart_id");
    LookupField("phone", p.phone, "chart_id");
    LookupField("chart_id", p.chartId, "chart_id");
  }

  /** Reading the query of a search URL back finds each condition exactly when it was given. */
  lemma SearchUrlCarriesParams(p: SearchParams)
    ensures var q := ParseQuery(SearchLocation(p).query.value);
      q == SearchQuery(p) &&
      Lookup(q, "name") == (if Given(p.name) then Some(p.name.value) else None) &&
      Lookup(q, "phone") == (if Given(p.phone) then Some(p.phone.value) else None) &&
      Lookup(q, "chart_id") == (if Given(p.chartId) then Some(p.chartId.value) else None)
  {
    ParseSerialize(SearchQuery(p));
    SearchQueryName(p);
    SearchQueryPhone(p);
    SearchQueryChartId(p);
  }

  /** A chart number or a phone number made of digits and hyphens is sent exactly as typed. */
  lemma SearchUrlVerbatim(key: string, value: string)
    requires key in {"name", "phone", "chart_id"}
    requires value != [] && AllUnreserved(value)
    ensures Serialize([(key, value)]) == key + "=" + value
  {
    EncodeUnreserved(value);
    EncodeUnreserved(key);
  }

  /** A search with a single plain condition has exactly `key=value` as its query. */
  lemma SearchUrlOneCondition(p: SearchParams, key: string, value: string)
    requires SearchQuery(p) == [(key, value)]
    requires key in {"name", "phone", "chart_id"}
    requires value != [] && AllUnreserved(value)
    ensures SearchLocation(p).query == Some(key + "=" + value)
  {
    SearchUrlVerbatim(key, value);
  }

  // ---- getTodayAccepts ----

  /** The accepts URL: a `date` query only when a non-empty date is given. */
  function TodayAcceptsLocation(date: Option<string>): (l: Location)
    ensures l.path == "/patients"
    ensures l.query.Some? <==> Given(date)
    ensures l.query.Some? ==> ParseQuery(l.query.value) == [("date", date.value)]
  {
    if Given(date) then
      ParseSerialize([("date", date.value)]);
      Location("/patients", Some(Serialize([("date", date.value)])))
    else Location("/patients", None)
  }

  /** `getTodayAccepts`: one GET of the accepts URL, settled as a search is. */
  function GetTodayAccepts(fetch: Fetch<TodayAcceptsResult>, apiKey: Option<string>, date: Option<string>)
    : (r: ApiResponse<TodayAcceptsResult>)
    ensures var outcome := fetch(Get(TodayAcceptsLocation(date).Href(), Headers(apiKey)));
      (outcome.Responded? ==> r == outcome.body) &&
      (outcome.Threw? ==> r == NetworkFailure(outcome.message))
  {
    Settle(fetch(Get(TodayAcceptsLocation(date).Href(), Headers(apiKey))))
  }

  // ---- Birth field ----

  /** JavaScript `+` and `-` on numbers that may be `NaN`. */
  function Plus(a: Number, b: Number): (r: Number)
    ensures r.Int? <==> a.Int? && b.Int?
    ensures r.Int? ==> r.v == a.v + b.v
  {
    if a.Int? && b.Int? then Int(a.v + b.v) else NaN
  }

  function Minus(a: Number, b: Number): (r: Number)
    ensures r.Int? <==> a.Int? && b.Int?
    ensures r.Int? ==> r.v == a.v - b.v
  {
    if a.Int? && b.Int? then Int(a.v - b.v) else NaN
  }

  datatype BirthInfo = BirthInfo(year: Number, month: Number, day: Number, age: Number)

  /** `birth.substring(i, i + 2)`: the two characters from `i` on. */
  function TwoChars(birth: string, i: nat): (r: string)
    requires i + 2 <= |birth|
    ensures r == birth[i..i + 2]
  {
    [birth[i], birth[i + 1]]
  }

  /** The century the seventh character stands for: 3 and above mean the 2000s. */
  function Century(birth: string): (c: int)
    ensures c == 2000 <==> |birth| >= 7 && '3' <= birth[6] <= '9'
    ensures c == 1900 || c == 2000
  {
    if |birth| >= 7 then
      ParseIntOneChar(birth[6]);
      var code := ParseInt([birth[6]]);
      if code.Int? && code.v >= 3 then 2000 else 1900
    else 1900
  }

  /**
   * The age part of `parseBirthDate`: the difference of years, less one while
   * `today` is before local midnight of this year's birthday. A month or day
   * that is not a number makes an invalid date, which never compares as later.
   */
  function AgeOn(year: Number, mm: Number, dd: Number, today: Moment): (age: Number)
    ensures age.Int? <==> year.Int?
    ensures age.Int? ==> age.v == today.date.year - year.v || age.v == today.date.year - year.v - 1
  {
    var age := Minus(Int(today.date.year), year);
    var birthdayPending :=
      mm.Int? && dd.Int? && TimeValue(today) < Midnight(LocalDay(today.date.year, mm.v - 1, dd.v));
    if birthdayPending then Minus(age, Int(1)) else age
  }

  /**
   * `parseBirthDate`: the year, month and day of `YYMMDD[N]`, each read with
   * `parseInt`, and the age in full years on `today`.
   */
  function ParseBirthDate(birth: string, today: Moment): (r: Option<BirthInfo>)
    ensures r.None? <==> |birth| < 6
    ensures r.Some? ==>
      r.value.month == ParseInt(TwoChars(birth, 2)) &&
      r.value.day == ParseInt(TwoChars(birth, 4)) &&
      r.value.year == Plus(Int(Century(birth)), ParseInt(TwoChars(birth, 0))) &&
      r.value.age == AgeOn(r.value.year, r.value.month, r.value.day, today)
  {
    if |birth| < 6 then None
    else
      var yy := ParseInt(TwoChars(birth, 0));
      var mm := ParseInt(TwoChars(birth, 2));
      var dd := ParseInt(TwoChars(birth, 4));
      var year := Plus(Int(Century(birth)), yy);
      Some(BirthInfo(year, mm, dd, AgeOn(year, mm, dd, today)))
  }

  /** With a real month and day, the age is one less exactly while this year's (month, day) is ahead. */
  lemma AgeOnDate(year: int, mm: int, dd: int, today: Moment)
    requires today.Valid() && today.date.year >= 100
    requires Date(today.date.year, mm, dd).Valid()
    ensures var pending := today.date.month < mm || (today.date.month == mm && today.date.day < dd);
      AgeOn(Int(year), Int(mm), Int(dd), today) == Int(today.date.year - year - (if pending then 1 else 0))
  {
    BirthdayPending(today, mm, dd);
  }

  /** The first six characters of the birth field are decimal digits. */
  predicate DigitBirth(birth: string) {
    && |birth| >= 6
    && IsDigit(birth[0]) && IsDigit(birth[1]) && IsDigit(birth[2])
    && IsDigit(birth[3]) && IsDigit(birth[4]) && IsDigit(birth[5])
  }

  /** The decimal value of the two characters at `i` and `i + 1`, read as digits. */
  function FieldValue(birth: string, i: nat): int
    requires i + 2 <= |birth|
  {
    10 * (birth[i] as int - '0' as int) + (birth[i + 1] as int - '0' as int)
  }

  /** The three two-digit fields of an all-digit `YYMMDD` read as their decimal values. */
  lemma BirthFieldsOfDigits(birth: string)
    requires DigitBirth(birth)
    ensures ParseInt(TwoChars(birth, 0)) == Int(FieldValue(birth, 0))
    ensures ParseInt(TwoChars(birth, 2)) == Int(FieldValue(birth, 2))
    ensures ParseInt(TwoChars(birth, 4)) == Int(FieldValue(birth, 4))
  {
    ParseIntTwoDigits(birth[0], birth[1]);
    ParseIntTwoDigits(birth[2], birth[3]);
    ParseIntTwoDigits(birth[4], birth[5]);
  }

  /** Today is before this year's birthday iff today's (month, day) comes first. */
  lemma BirthdayPending(today: Moment, mm: int, dd: int)
    requires today.Valid() && today.date.year >= 100
    requires Date(today.date.year, mm, dd).Valid()
    ensures TimeValue(today) < Midnight(LocalDay(today.date.year, mm - 1, dd)) <==>
      today.date.month < mm || (today.date.month == mm && today.date.day < dd)
  {
    var birthday := Date(today.date.year, mm, dd);
    assert LocalDay(today.date.year, mm - 1, dd) == DayNumber(birthday);
    BeforeMidnight(today, DayNumber(birthday));
    DayNumberOrder(today.date, birthday);
  }

  /** An all-digit birth field's year is its century plus `YY`. */
  lemma BirthYearOfDigits(birth: string)
    requires DigitBirth(birth)
    ensures Plus(Int(Century(birth)), ParseInt(TwoChars(birth, 0))) == Int(Century(birth) + FieldValue(birth, 0))
  {
    BirthFieldsOfDigits(birth);
  }

  /** An all-digit birth field parses to its field values, and the age is taken of those. */
  lemma BirthInfoOfDigits(birth: string, today: Moment)
    requires DigitBirth(birth)
    ensures var year, mm, dd := Int(Century(birth) + FieldValue(birth, 0)), Int(FieldValue(birth, 2)), Int(FieldValue(birth, 4));
      ParseBirthDate(birth, today) == Some(BirthInfo(year, mm, dd, AgeOn(year, mm, dd, today)))
  {
    BirthFieldsOfDigits(birth);
    BirthYearOfDigits(birth);
  }

  /**
   * For an all-digit birth field whose month and day exist in the current
   * year, the age is the difference of years, less one while this year's
   * (month, day) is still ahead.
   */
  lemma AgeOfDigits(birth: string, today: Moment)
    requires DigitBirth(birth)
    requires today.Valid() && today.date.year >= 100
    requires Date(today.date.year, FieldValue(birth, 2), FieldValue(birth, 4)).Valid()
    ensures var mm, dd := FieldValue(birth, 2), FieldValue(birth, 4);
      var pending := today.date.month < mm || (today.date.month == mm && today.date.day < dd);
      ParseBirthDate(birth, today).value.age == Int(today.date.year - (Century(birth) + FieldValue(birth, 0)) - (if pending then 1 else 0))
  {
    var year := Century(birth) + FieldValue(birth, 0);
    BirthInfoOfDigits(birth, today);
    AgeOnDate(year, FieldValue(birth, 2), FieldValue(birth, 4), today);
  }

  /** With a code from 1 to 4 in the seventh place, the birth year is 1900 or 2000 plus `YY` as the code says. */
  lemma AgeOfCode(birth: string, today: Moment)
    requires DigitBirth(birth) && |birth| >= 7 && '1' <= birth[6] <= '4'
    requires today.Valid() && today.date.year >= 100
    requires Date(today.date.year, FieldValue(birth, 2), FieldValue(birth, 4)).Valid()
    ensures var born := (if birth[6] >= '3' then 2000 else 1900) + FieldValue(birth, 0);
      var mm, dd := FieldValue(birth, 2), FieldValue(birth, 4);
      var pending := today.date.month < mm || (today.date.month == mm && today.date.day < dd);
      ParseBirthDate(birth, today).value.age == Int(today.date.year - born - (if pending then 1 else 0))
  {
    assert Century(birth) == (if birth[6] >= '3' then 2000 else 1900);
    AgeOfDigits(birth, today);
  }

  datatype Gender = Male | Female {
    /** The label the UI stores. */
    function Label(): string {
      match this
      case Male => "남"
      case Female => "여"
    }
  }

  /** `parseGender`: the seventh character read with `parseInt`; 1 or 3 is male, 2 or 4 female. */
  function ParseGender(birth: string): (r: Option<Gender>)
    ensures r == Some(Male) <==> |birth| >= 7 && birth[6] in "13"
    ensures r == Some(Female) <==> |birth| >= 7 && birth[6] in "24"
    ensures r.None? <==> |birth| < 7 || birth[6] !in "1234"
  {
    if |birth| < 7 then None
    else
      ParseIntOneChar(birth[6]);
      var code := ParseInt([birth[6]]);
      if code == Int(1) || code == Int(3) then Some(Male)
      else if code == Int(2) || code == Int(4) then Some(Female)
      else None
  }

  /** The digit that gives a gender also gives the century: 3 and 4 are the 2000s, 1 and 2 the 1900s. */
  lemma GenderAgreesWithCentury(birth: string)
    requires ParseGender(birth).Some?
    ensures Century(birth) == 2000 <==> birth[6] in "34"
  {
  }
}
