# A verified model of the SOAP-chart assistant's core

The application records a clinic consultation in the browser and transcribes
the audio with Gemini. It proof-reads the transcript and turns it, with
free-text notes, into a structured SOAP chart. It also looks patients up in
the clinic's record system (the "Dongjedang" API behind a proxy). This
project models the logic of that pipeline in Dafny and proves properties of
the model:

- **Recording controller** (`Recorder`). The `MediaRecorder` is restarted
  every two minutes, so a session yields a list of audio segments. The
  callbacks are modelled as atomic steps of a state machine. The model
  proves an invariant of every reachable session, that no captured byte is
  lost, and which segments the final stop hands over.
- **Transcription orchestration** (`Transcription`). Segments are
  transcribed in order, each with the last 300 characters of what was
  transcribed before. Pieces are joined by single spaces. The first failure
  ends the run. Then come the proof-reading stage and chart generation,
  whose failures are sorted into "API key" and generic ones. The loop is a
  method with invariants, checked against a reference definition.
- **Gemini service** (`Gemini`). The model is an oracle. Each call follows
  one retry rule: the primary model, then the fallback model once. The
  module also builds the three prompts; for each, the model proves where
  the inputs sit and that they can be read back.
- **Chart text** (`ChartText`). Three things are read from or written to the
  generated chart with regular expressions:
  - the patient name and the summary shown beside it;
  - the in-place edit of the patient name;
  - the download file name.

  The two searching patterns, the name line and the summary, are each given
  twice: as a predicate saying what a leftmost JavaScript match is, and as a
  scanner. Lemmas connect the two. The anchored bracket pattern is stated
  against a match predicate, and the file-name character class pointwise.
- **Dongjedang API client** (`Dongjedang`, `UrlQuery`, `Calendar`). This
  covers:
  - the request headers;
  - the search and accept URLs, with a model of `URLSearchParams`
    serialisation and parsing;
  - the network-error envelope;
  - `parseBirthDate`, with JavaScript `Date` day arithmetic;
  - `parseGender`.
- **Patient search dialog** (`PatientSearch`). This covers the search
  handler's choice between chart number, phone and name, and how a selected
  patient is passed on.
- **Token refresh** (`TokenRefresh`). This is the once-a-minute check of the
  stored Google token expiry.

Support modules:
- `Text` holds JavaScript string operations (`trim`, `\s`, `indexOf`,
  `slice`, `padStart`, ASCII `toLowerCase`).
- `JsNumber` holds `parseInt` with `NaN`.
- `Wrappers` holds `Option` and `Result`.

`verifyAndCorrectTranscript` reports a missing key before it looks at the
transcript, so a blank transcript without a key is an error, not a
pass-through (`Gemini.VerifyTranscript`).

Parameters stand for what the program reads from outside:
- the current time (`Calendar.Moment`, or a `DateTime` for file names);
- the Gemini SDK (`Gemini.Oracle`);
- `fetch` (`Dongjedang.Fetch`, which answers or throws);
- the build-time API key;
- the microphone (`Recorder.MicResult`);
- the stored token expiry.

## Model

| member | source | states |
|---|---|---|
| Text.Trim | App.tsx:615-621 | `trim` yields a string with no whitespace at either end, no longer than its input, and empty exactly when the input is all whitespace |
| Text.TrimOfPadded | App.tsx:621 | trimming a trimmed core padded with any whitespace on both sides gives back exactly that core |
| Text.TrimIdempotent | App.tsx:922-924 | trimming again changes nothing, so the second `trim` of the file name is a no-op on an unbracketed name |
| Text.SkipWhitespace | App.tsx:619-620 | a greedy `\s*` from `i` consumes only whitespace and stops at a non-whitespace character or the end |
| Text.SkipWhitespaceUnique | App.tsx:619-620 | any maximal whitespace run from `i` ends where the greedy `\s*` ends (the match is unique) |
| Text.LineEnd | App.tsx:619-620 | a greedy `.*` from `i` consumes no line terminator and stops at one or at the end |
| Text.LineEndUnique | App.tsx:619-620 | any maximal terminator-free run from `i` ends where the greedy `.*` ends |
| Text.LineTerminatorIsWhitespace | App.tsx:619-620 | every character `.` refuses is one `\s` accepts, so `\s*` may cross line breaks |
| Text.IndexOfFrom | App.tsx:613-614 | the search finds an occurrence at or after `from` with none between, or reports that none exists from `from` on |
| Text.IndexOfFromFirst | App.tsx:613-614 | the first occurrence at or after `from` is exactly what the search returns |
| Text.ContainsIff | App.tsx:656 | `includes` holds iff the pattern occurs at some index |
| Text.ContainsAfterPrefix | App.tsx:656 | putting text in front of a string keeps every pattern it includes |
| Text.TakeLast | App.tsx:694 | `slice(-300)` keeps 300 characters, or all of a shorter string |
| Text.TakeLastIsSuffix | App.tsx:694 | what `slice(-n)` keeps is the end of the string, character for character |
| Text.ToLowerAscii | App.tsx:655 | lower-casing keeps the length, maps `A`-`Z` to `a`-`z` and leaves every other character alone |
| Text.NatToString | App.tsx:914-919 | a number is written as a non-empty digit string without leading zero, one digit long exactly below ten |
| Text.NatToStringRoundTrip | App.tsx:914-919 | the decimal value of `n.toString()` is `n` |
| Text.PadStart2 | App.tsx:915-918 | `padStart(2, '0')` leaves long strings alone and left-pads short ones with zeros to two characters |
| Text.TwoDigits | App.tsx:915-918 | a number below 100 is written as two digits whose value is the number |
| JsNumber.ParseInt | services/dongjedangApiService.ts:177-179 | `parseInt` is a number exactly when a digit follows the leading whitespace and optional sign, and `NaN` otherwise |
| JsNumber.ParseIntDigits | services/dongjedangApiService.ts:177-179 | on a non-empty digit string `parseInt` is its decimal value |
| JsNumber.ParseIntOneChar | services/dongjedangApiService.ts:182 | `parseInt` of one character is its digit value, or `NaN` for a non-digit |
| JsNumber.ParseIntTwoDigits | services/dongjedangApiService.ts:177-179 | `parseInt` of two digits is their two-digit value |
| JsNumber.ParseIntNatToString | App.tsx:580 | an expiry time written in decimal is read back unchanged by `parseInt` |
| UrlQuery.Utf8 | services/dongjedangApiService.ts:80-86 | a character's UTF-8 form is one to four bytes, one byte exactly for ASCII |
| UrlQuery.Utf8RoundTrip | services/dongjedangApiService.ts:80-86 | the UTF-8 bytes of a character start with the right lead byte and decode back to that character |
| UrlQuery.EncodeChar | services/dongjedangApiService.ts:80-86 | the serializer writes a character as itself iff it is one of `A-Za-z0-9*-._` |
| UrlQuery.EncodeUnreserved | services/dongjedangApiService.ts:80-86 | a string of unreserved characters is sent as it is |
| UrlQuery.EncodeHasNoDelimiters | services/dongjedangApiService.ts:80-86 | an encoded name or value never contains `&` or `=` |
| UrlQuery.DecodeOfEncode | services/dongjedangApiService.ts:80-86 | decoding an encoded name or value gives it back |
| UrlQuery.DecodeEncode | services/dongjedangApiService.ts:80-86 | decoding meets an encoded string first and reads exactly it, whatever follows |
| UrlQuery.Serialize | services/dongjedangApiService.ts:80-86 | `URLSearchParams.toString()` is empty exactly when nothing was appended |
| UrlQuery.ParseSerialize | services/dongjedangApiService.ts:80-86 | parsing a serialized query gives back the appended pairs, in order |
| UrlQuery.SplitOnJoin | services/dongjedangApiService.ts:80-86 | cutting at `&` undoes joining parts that contain no `&` |
| UrlQuery.ParsePairOfPair | services/dongjedangApiService.ts:80-86 | one serialized `name=value` parses back to the pair |
| UrlQuery.Lookup | services/dongjedangApiService.ts:80-86 | a name is found iff some pair carries it |
| UrlQuery.LookupAppend | services/dongjedangApiService.ts:80-86 | in appended lists of pairs the first list that has the name decides |
| Calendar.DaysInYear | services/dongjedangApiService.ts:188 | the twelve months of `MakeDay` add up to 366 days in a leap year and 365 otherwise |
| Calendar.YearLength | services/dongjedangApiService.ts:188 | the first days of consecutive years lie exactly the earlier year's twelve months apart |
| Calendar.DaysBeforeMonthGrows | services/dongjedangApiService.ts:188 | a later month starts after every day of an earlier one |
| Calendar.DayNumberSplit | services/dongjedangApiService.ts:188 | a valid date's day number is its year's first day plus its day of the year |
| Calendar.DayOfYearOrder | services/dongjedangApiService.ts:188-189 | within a year the day of the year is ordered as (month, day) pairs are |
| Calendar.DayNumberOrder | services/dongjedangApiService.ts:188-189 | within a year `new Date(y, m - 1, d)` orders dates as (month, day) pairs are |
| Calendar.BeforeMidnight | services/dongjedangApiService.ts:189 | a moment is earlier than a day's local midnight iff its own day comes first |
| Dongjedang.Headers | services/dongjedangApiService.ts:18-29 | the headers always carry the JSON content type, carry `X-API-Key` iff the key is non-empty, and carry nothing else |
| Dongjedang.NetworkFailure | services/dongjedangApiService.ts:95-106 | a throw becomes an unsuccessful envelope without data, coded `NETWORK_ERROR`, whose message is the fixed prefix followed by the thrown message |
| Dongjedang.SearchLocation | services/dongjedangApiService.ts:85-86 | the search always goes to `/patients/search` with a query, even an empty one |
| Dongjedang.SearchPatients | services/dongjedangApiService.ts:74-107 | one GET of the search URL with the common headers; the server's envelope is returned as it is, and a throw becomes the network-error envelope |
| Dongjedang.LookupField | services/dongjedangApiService.ts:81-83 | a condition is appended only when it is non-empty, under its own name |
| Dongjedang.LookupConcat3 | services/dongjedangApiService.ts:81-83 | among the three appended conditions the first one with the name decides |
| Dongjedang.SearchQueryName | services/dongjedangApiService.ts:81 | the query has a `name` exactly when a non-empty name was given, and it is that name |
| Dongjedang.SearchQueryPhone | services/dongjedangApiService.ts:82 | the query has a `phone` exactly when a non-empty phone was given, and it is that phone |
| Dongjedang.SearchQueryChartId | services/dongjedangApiService.ts:83 | the query has a `chart_id` exactly when a non-empty chart number was given, and it is that number |
| Dongjedang.SearchUrlCarriesParams | services/dongjedangApiService.ts:80-86 | the server, parsing the search URL, finds exactly the non-empty conditions, in the order name, phone, chart_id, with their values |
| Dongjedang.SearchUrlVerbatim | services/dongjedangApiService.ts:80-86 | a single condition of unreserved characters is serialized as `key=value` |
| Dongjedang.SearchUrlOneCondition | services/dongjedangApiService.ts:80-86 | a search with one plain condition has `key=value` as its whole query |
| Dongjedang.TodayAcceptsLocation | services/dongjedangApiService.ts:143-148 | the accepts URL is `/patients`, with a query iff a non-empty date is given, and that query parses to exactly the date |
| Dongjedang.GetTodayAccepts | services/dongjedangApiService.ts:141-169 | one GET of the accepts URL; the envelope is passed through and a throw becomes the network-error envelope |
| Dongjedang.TwoChars | services/dongjedangApiService.ts:177-179 | the two characters read for a field are `substring(i, i + 2)` |
| Dongjedang.Century | services/dongjedangApiService.ts:182-183 | the century is 2000 exactly when a seventh character exists and `parseInt` reads it as 3 or more, and 1900 otherwise |
| Dongjedang.AgeOn | services/dongjedangApiService.ts:186-189 | the age is `NaN` iff the year is, and otherwise the difference of years or one less |
| Dongjedang.ParseBirthDate | services/dongjedangApiService.ts:174-192 | no result exactly for fewer than six characters; otherwise month and day are `parseInt` of their fields, the year is the century plus `YY`, and the age is taken of those |
| Dongjedang.BirthdayPending | services/dongjedangApiService.ts:186-189 | today is before local midnight of this year's birthday iff today's (month, day) comes first |
| Dongjedang.AgeOnDate | services/dongjedangApiService.ts:186-189 | with a real month and day the age is one less exactly while this year's birthday is still ahead |
| Dongjedang.BirthFieldsOfDigits | services/dongjedangApiService.ts:177-179 | the three two-digit fields of an all-digit `YYMMDD` parse to their decimal values |
| Dongjedang.BirthYearOfDigits | services/dongjedangApiService.ts:182-184 | an all-digit birth field's year is its century plus `YY` |
| Dongjedang.BirthInfoOfDigits | services/dongjedangApiService.ts:174-192 | an all-digit birth field parses to its field values, with the age taken of those |
| Dongjedang.AgeOfDigits | services/dongjedangApiService.ts:174-192 | for an all-digit field whose date exists this year, the age in full years is the difference of years, less one while the birthday is ahead |
| Dongjedang.AgeOfCode | services/dongjedangApiService.ts:174-192 | with a code from 1 to 4, the birth year is 1900 (codes 1, 2) or 2000 (codes 3, 4) plus `YY`, and the age follows from it |
| Dongjedang.ParseGender | services/dongjedangApiService.ts:197-204 | male iff the seventh character is 1 or 3, female iff it is 2 or 4, no gender for anything else or a shorter field |
| Dongjedang.GenderAgreesWithCentury | services/dongjedangApiService.ts:182-202 | whenever a gender is read, its code also puts the year in the 2000s exactly for 3 and 4 |
| PatientSearch.RemoveHyphens | components/PatientSearch.tsx:88 | removing hyphens leaves no hyphen and keeps every other character, adding none |
| PatientSearch.NumericQueryChars | components/PatientSearch.tsx:88 | a query that passes the numeric test is digits and hyphens only, with at least one digit |
| PatientSearch.HandleSearch | components/PatientSearch.tsx:81-116 | a blank query sends nothing. A numeric query of six or more characters is sent as a chart number, and again as a phone number exactly when that finds nobody; anything else is sent as a name. The last answer replaces the results when it succeeded with data, adding the no-results message iff empty; otherwise results stay and the error is the server's non-empty message or the fixed one |
| PatientSearch.SearchErrorIffNothingListed | components/PatientSearch.tsx:103-110 | after a search an error is shown exactly when the last answer lists no patient |
| PatientSearch.ChartIdTakesPrecedence | components/PatientSearch.tsx:91-97 | a chart number that finds someone wins: no phone search is sent, its patients are listed and no error is shown |
| PatientSearch.NumericQueryUnreserved | components/PatientSearch.tsx:88-93 | a numeric query is a non-empty string the serializer leaves as it is |
| PatientSearch.ChartIdSentVerbatim | components/PatientSearch.tsx:91-93 | a numeric query reaches the server unencoded as `chart_id=<query>`, hyphens included |
| PatientSearch.PhoneSentVerbatim | components/PatientSearch.tsx:94-97 | the phone fallback sends the same text as `phone=<query>` |
| PatientSearch.SelectPatient | components/PatientSearch.tsx:126-136 | only the gender changes: the birth field's gender wins, then a non-empty stored gender, else none; an age is passed iff the birth field has six characters, and it is `parseBirthDate`'s |
| PatientSearch.SelectRegisteredGender | components/PatientSearch.tsx:126-134 | a code from 1 to 4 gives `남` for odd and `여` for even |
| PatientSearch.SelectRegisteredAge | components/PatientSearch.tsx:126-134 | a patient with an all-digit `YYMMDDN` field and a code from 1 to 4 is passed on with the age in full years that the code's century and the date give |
| PatientSearch.SelectAccepted | components/PatientSearch.tsx:139-155 | the accepted patient's chart number is searched; the first patient found is passed on as a direct selection is, and otherwise only id, chart number and name with empty birth and phone and no age |
| PatientSearch.EmptyChartIdSendsNoCondition | components/PatientSearch.tsx:139-141 | an accept record without a chart number sends a search with an empty query |
| ChartText.MatchLine | App.tsx:619-620 | the scanner's result is a leftmost match of `marker\s*(.*)`, and there is none exactly when the marker does not occur |
| ChartText.LineMatchUnique | App.tsx:619-620 | the leftmost match of `marker\s*(.*)` is unique and is what the scanner returns |
| ChartText.ExtractAfter | App.tsx:619-621 | the result is the trimmed capture of the match, or empty when the marker is absent |
| ChartText.ExtractAfterOneLine | App.tsx:619-621 | the captured name never spans a line break |
| ChartText.ExtractPatientName | App.tsx:618-622 | the displayed name is trimmed, single-line, the trimmed capture after `✅ 환자명:`, and empty without the marker |
| ChartText.TrimIsSlice | App.tsx:621 | a trimmed string is a slice of its input |
| ChartText.ScanSummary | App.tsx:613-614 | the scanner finds a match of the summary pattern with none starting between `from` and it, or reports there is none from `from` on |
| ChartText.NoSummaryBefore | App.tsx:613-614 | no summary match starts before the next opening marker |
| ChartText.NoSummaryFrom | App.tsx:613-614 | no summary match starts where no opening marker follows |
| ChartText.NoSummaryAt | App.tsx:613-614 | a start where the dash or the closing marker is missing holds no match |
| ChartText.SummaryMatchOnly | App.tsx:613-614 | every leftmost match of the summary pattern is the one the scanner found |
| ChartText.ExtractSummary | App.tsx:612-616 | the summary is trimmed, the trimmed lazy capture between `✅ 요약 -` and the first `✅확인사항`, and empty when nothing matches |
| ChartText.DeriveFields | App.tsx:610-630 | an empty chart clears name and summary. Otherwise the name is the trimmed one-line capture of the leftmost `✅ 환자명:\s*(.*)` match, and the summary the trimmed capture of the leftmost summary match; each is empty when its pattern does not match |
| ChartText.ReplaceNameValue | App.tsx:1073-1076 | without the marker the chart is unchanged; otherwise only the capture of the first name line is replaced by the value |
| ChartText.FinishNameEdit | App.tsx:1070-1079 | the chart stays as it is when the trimmed edit is empty, the raw edit equals the current name, or the chart has no name line. Otherwise the name read back from the rewritten chart is the trimmed edit |
| ChartText.EditedNameRoundTrip | App.tsx:1072-1077 | writing the trimmed text of a one-line edit into a chart with a name line makes it the name shown |
| ChartText.ReplaceNameRoundTrip | App.tsx:1072-1077 | after the rewrite the displayed name read back from the chart is the new value |
| ChartText.NameOfMatch | App.tsx:619-622 | the displayed name is the trimmed capture of the match |
| ChartText.SplicedLineMatch | App.tsx:1073-1076 | splicing a one-line trimmed value into the capture gives a chart whose match captures exactly that value |
| ChartText.ReplaceNameFrame | App.tsx:1073-1076 | a rewrite keeps everything before the value and everything after the name line |
| ChartText.Timestamp | App.tsx:913-919 | the timestamp is the year's decimal digits followed by fixed-width `MMDD_HHmm` (nine characters), and reads back as the time it was made from |
| ChartText.TimestampShape | App.tsx:919 | the timestamp is digits, then `_` five characters before its end |
| ChartText.Sanitize | App.tsx:926 | each of `\ ? % * : " \| < > . /` becomes `_`, every other character stays, and none of them remains |
| ChartText.StripBrackets | App.tsx:924 | when the whole name matches `^\[(.*)\]$` the result is its capture, and otherwise the name is unchanged |
| ChartText.OrUnconfirmed | App.tsx:924 | `name \|\| '미확인'` is never empty and stays trimmed |
| ChartText.UnconfirmedIsTrimmed | App.tsx:922 | the placeholder is non-empty and trimmed |
| ChartText.UnbracketUnconfirmed | App.tsx:922-924 | the placeholder passes unbracketing and trimming unchanged |
| ChartText.RawNameOfMatch | App.tsx:921-922 | the raw name is the placeholder without `환자명:` or with an empty capture, and otherwise the trimmed capture |
| ChartText.FileBaseName | App.tsx:921-924 | the file's patient name before sanitising is never empty and is trimmed |
| ChartText.FileBaseNameOfMatch | App.tsx:921-924 | the name is the placeholder without `환자명:` or with an empty capture, otherwise the trimmed capture with one pair of brackets dropped and trimmed again, and the placeholder if that is empty |
| ChartText.FilePatientName | App.tsx:921-926 | the name part of the file name is never empty and has no unsafe character |
| ChartText.FileName | App.tsx:912-929 | the file name reads back, given prefix and extension, as the time it was made at and the sanitized patient name |
| ChartText.FileNameParses | App.tsx:928 | `${prefix}_${timestamp}_${name}.${extension}` is split back into its time and name |
| ChartText.ParseAssembledName | App.tsx:928 | any well-formed timestamp and any name assembled this way read back as that time and name |
| ChartText.FirstUnderscore | App.tsx:919-928 | the first `_` after the prefix is the one inside the timestamp |
| ChartExamples.NameAcrossLineBreakExample | App.tsx:619-621 | the whitespace after the colon may cross a line break: `✅ 환자명:\n Kim\nS` shows `Kim` |
| ChartExamples.NoMarkerExample | App.tsx:619-621 | without the check mark no name is shown |
| Gemini.WithFallback | services/geminiService.ts:54-65 | the primary model is asked first and the fallback exactly when the primary throws; the attempt throws iff both do |
| Gemini.SettleFollowsRetryRule | services/geminiService.ts:54-65 | every reply built this way follows the shared retry rule |
| Gemini.TrimmedOr | services/geminiService.ts:56 | `text?.trim() \|\| x` is the trimmed text when it has content, and `x` when the text is absent or blank |
| Gemini.TranscriptionPrompt | services/geminiService.ts:35-39 | the prompt starts with the fixed request, carries the context block iff there is context, and the context can be read back out of it |
| Gemini.Transcribe | services/geminiService.ts:31-66 | the retry rule, and a result that is the trimmed answer text or empty |
| Gemini.VerificationPrompt | services/geminiService.ts:78-85 | the transcript is quoted verbatim between the fixed header and trailer and can be read back |
| Gemini.VerifyTranscript | services/geminiService.ts:87-117 | a missing key fails first with no call; a blank transcript comes back unchanged with no call; otherwise the retry rule and the trimmed correction, or the original when the answer is absent or blank |
| Gemini.MainInstruction | services/geminiService.ts:163-168 | the combining instruction is used exactly when both transcript and notes have content |
| Gemini.ContentSection | services/geminiService.ts:170-186 | the appended content's length is that of the transcript section iff the transcript has content plus that of the notes section iff the notes have, and it is empty when both are blank |
| Gemini.ContentSectionNotesHeader | services/geminiService.ts:170-186 | the `[추가 메모]` header comes right after the transcript section, or first when there is none, exactly when the notes have content |
| Gemini.ContentSectionHeader | services/geminiService.ts:170-186 | the content opens with the transcript header exactly when the transcript has content |
| Gemini.ContentSectionQuotesTranscript | services/geminiService.ts:170-177 | a transcript with content is quoted right after its header |
| Gemini.ContentSectionQuotesNotes | services/geminiService.ts:179-186 | notes with content are quoted at the end, before the final line break |
| Gemini.HeadersDiffer | services/geminiService.ts:174-183 | the two section headers differ right after the opening bracket, so one cannot be read as the other |
| Gemini.Frame | services/geminiService.ts:188-229 | the prompt's length is the sum of its parts plus two characters, the line breaks that `Gemini.FrameLayout` places before the instruction and after the content |
| Gemini.FrameLayout | services/geminiService.ts:188-229 | the prompt starts and ends with a line break; the instruction, the template head, the time and the template tail follow one another from the second character, and the content sits just before the final line break |
| Gemini.FrameQuotes | services/geminiService.ts:188-229 | whatever the content quotes, the prompt quotes too |
| Gemini.UserPrompt | services/geminiService.ts:162-230 | the prompt starts and ends with a line break, and its length is exactly that of the instruction, the template halves, the time and the content section plus those two line breaks |
| Gemini.UserPromptTemplate | services/geminiService.ts:188-229 | the `[출력 형식]` template head follows the instruction, the time follows the head, and the rest of the template follows the time |
| Gemini.UserPromptInstruction | services/geminiService.ts:162-189 | the prompt opens with the combining instruction exactly when both inputs have content |
| Gemini.InstructionAt | services/geminiService.ts:164-167 | which of the two instructions a prompt carries can be read off at its position |
| Gemini.InstructionsDiffer | services/geminiService.ts:164-167 | the two instructions share a lead and then differ |
| Gemini.UserPromptQuotesTranscript | services/geminiService.ts:170-177 | a transcript with content appears verbatim in the prompt |
| Gemini.UserPromptQuotesNotes | services/geminiService.ts:179-186 | notes with content appear verbatim in the prompt |
| Gemini.GenerateChart | services/geminiService.ts:233-259 | a missing key fails first with no call; otherwise the retry rule and the untrimmed answer text, or empty |
| Transcription.Append | App.tsx:696 | appending puts a space in only after text that is already there, and keeps both sides intact |
| Transcription.DropLeadingEmptySuffix | App.tsx:692-697 | only empty pieces are dropped before the first non-empty one, and the rest is kept as it is |
| Transcription.DropLeadingEmptySnoc | App.tsx:692-697 | adding a piece adds it to the kept list, unless all pieces so far are empty and it is too |
| Transcription.JoinStep | App.tsx:696 | one more piece through the accumulation rule is one more piece in the space-join |
| Transcription.SpaceJoinKeepsFirst | App.tsx:696 | the joined transcript starts with the first kept piece |
| Transcription.JoinedHasNoLeadingSpace | App.tsx:692-697 | trimmed pieces give a transcript that does not start with whitespace |
| Transcription.Accumulate | App.tsx:688-702 | after `n` segments there is one context and one text per segment sent; a failure leaves one text fewer than contexts |
| Transcription.ExplainsStep | App.tsx:692-697 | one more segment, sent with the last 300 characters so far, keeps the account of the run true |
| Transcription.ContextsStep | App.tsx:694 | the new segment's context is the last 300 characters of the join of all earlier texts |
| Transcription.TextsStep | App.tsx:695 | each text kept is what the transcriber returned for its segment and context |
| Transcription.AccumulateMeaning | App.tsx:688-702 | the loop sends each segment with the trailing 300 characters of the earlier texts, keeps each reply, joins the texts with single spaces from the first non-empty one, and fails with the first failing segment's error |
| Transcription.FailureStops | App.tsx:691-702 | once a segment fails, later segments change nothing |
| Transcription.AccumulateSucceeds | App.tsx:692-697 | a segment that returns text adds its context, its text and one space-separated piece |
| Transcription.AccumulateFails | App.tsx:699-710 | a segment that fails ends the whole run with its error |
| Transcription.TranscribeAll | App.tsx:688-702 | the loop computes exactly the reference accumulation over all segments |
| Transcription.GeminiTranscriptHasNoLeadingSpace | App.tsx:692-697 | with the Gemini transcriber the transcript never starts with whitespace |
| Transcription.NoSegmentsNoCalls | App.tsx:681-686 | with no segments nothing is sent |
| Transcription.Proofread | App.tsx:720-736 | a blank transcript is kept without a call; otherwise the correction, or the original together with the reason it could not be corrected |
| Transcription.GenerateChartStage | App.tsx:632-678 | a missing key is reported first; otherwise a chart exactly when generation succeeds, and a failure is a key problem exactly when its message mentions `api key` in any ASCII case |
| Transcription.ToLowerAsciiConcat | App.tsx:655 | lower-casing distributes over concatenation |
| Transcription.PrefixKeepsMention | App.tsx:655-656 | the service's failure prefix cannot hide a mention of an API key |
| Transcription.FallbackKeyErrorIsKeyRejected | App.tsx:653-662 | when both models throw and the fallback's error mentions an API key, the user is told to check the key |
| Transcription.ProcessRecordedAudio | App.tsx:680-742 | nothing happens without segments; a failed segment ends the run with its prefixed error; a blank transcript with blank notes ends it; otherwise the transcript is proof-read, a failure there only keeping the original, and the chart is generated from that text and the notes |
| Recorder.Concat | App.tsx:790 | a blob of no chunks is empty |
| Recorder.StartRecording | App.tsx:763-817 | buffers and flag are reset; with the microphone the recorder runs and the timer is armed; without it nothing starts |
| Recorder.StopRecording | App.tsx:751-762 | the timer and the flag are cleared and a running recorder is stopped, buffers untouched |
| Recorder.OnTick | App.tsx:811-816 | the timer stops only a running recorder, setting the restart flag, and otherwise does nothing |
| Recorder.OnRecorderStopped | App.tsx:789-804 | the buffered chunks become one segment, kept iff non-empty; the buffer is cleared; the recorder restarts iff the flag is set, and otherwise the segments are handed over |
| Recorder.MicErrorMessage | App.tsx:818-842 | the message starts with the fixed prefix; an unknown error name passes its own message, and a non-`Error` gives the fixed unknown-error text |
| Recorder.IdleValid | App.tsx:744-845 | the initial session satisfies the invariant |
| Recorder.StepPreservesValid | App.tsx:744-845 | every callback keeps the invariant: non-empty segments, timer armed iff recording, a pending stop only on a stopped recorder, a handover only when stopped |
| Recorder.RunPreservesValid | App.tsx:744-845 | every reachable session satisfies the invariant |
| Recorder.StepKeepsAudio | App.tsx:783-794 | any event except starting a new session keeps every captured byte, in order |
| Recorder.RunKeepsAudio | App.tsx:783-804 | without the record button the session's audio is what it held plus everything delivered since |
| Recorder.SegmentsOf | App.tsx:789-794 | each interval's chunk becomes one `audio/webm` segment, in order |
| Recorder.OneInterval | App.tsx:789-816 | an interval with audio adds exactly one segment and leaves the recorder running |
| Recorder.FinalStop | App.tsx:751-803 | the final stop hands over the earlier segments plus the last stretch iff it captured anything |
| Recorder.IntervalsAddSegments | App.tsx:783-816 | each two-minute interval with audio adds exactly one segment and restarts the recorder |
| Recorder.SessionSegments | App.tsx:744-845 | a session of N full intervals then a stop hands over N + 1 segments in recording order (N when the last stretch is empty), none empty |
| TokenRefresh.CheckToken | App.tsx:576-593 | a silent refresh exactly while the token has under five minutes left, a `none` re-request exactly once it has expired, and nothing when nothing is stored, the value is unreadable or the token is still valid |
| TokenRefresh.StateMonotone | App.tsx:580-592 | as time passes a token only moves forward, from valid to expiring to expired |
| TokenRefresh.StoredExpiryDecides | App.tsx:577-592 | an expiry stored in decimal is decided on the real remaining time |
| TokenRefresh.CheckCatchesExpiry | App.tsx:573-574 | since the check runs every minute inside the five-minute window, a valid token is refreshed before it expires |

## Left out

- I/O and browser plumbing are not modelled: `localStorage`, `console`, alerts, the clipboard, React state batching, `blobToBase64` and stopping the stream's tracks. The status messages are also out. Each callback is one atomic step, and concurrent asynchronous callbacks are not interleaved.
- The Gemini SDK, `fetch` and `getUserMedia` are parameters. Nothing is assumed about what they answer.
- The server's JSON is trusted to have the shape of the declared interfaces, as the code does. A body that is not JSON counts as a throw.
- The three system-instruction texts are reduced to tags. Their wording does not affect the control flow.
- Gemini.UserPrompt: the `[출력 형식]` template is two fixed strings, placed by `Gemini.UserPromptTemplate`. That the content section ends the prompt is stated for any frame by `Gemini.FrameLayout`, but not for the literal template, whose long constant strings make that proof too expensive. `Gemini.UserPromptQuotesTranscript` and `Gemini.UserPromptQuotesNotes` state that the inputs appear in it.
- `formatKST` is given as text. The time-zone formatting is not modelled.
- The clock is a parameter: `Calendar.Moment` for `parseBirthDate`, a `DateTime` for file names. Daylight-saving shifts and `Date`'s time-value clipping are not modelled.
- Strings are sequences of Unicode scalar values. JavaScript counts UTF-16 code units, which differ only for characters outside the Basic Multilingual Plane. This affects `slice(-300)` and the positions of matches.
- Text.ToLowerAscii: `toLowerCase` is modelled on ASCII letters only; every other character is left alone. JavaScript also lower-cases non-ASCII capitals, and U+212A KELVIN SIGN becomes `k`. So a failure message spelling the key as `API \u212AEY` is a key problem in the source but a generic failure in `Transcription.GenerateChartStage`.
- `$` patterns inside the replacement string of the name edit are not interpreted. An edited name containing `$1` or `$&` is treated as literal text.
- `getPatientDetail`, `loadTodayAccepts`, the Google Calendar/Tasks/Drive integrations, settings and the rest of the UI are not part of this model.
- `handleTextGenerationClick` is not modelled separately. It runs the same proof-reading and chart stages as `Transcription.ProcessRecordedAudio`.
- The warning from a failed proof-reading is not cleared by `handleGenerateChart`'s `setError(null)` in the model. `Transcription.Proofread` reports it and the caller decides.
- Dongjedang.AgeOfDigits: stated only for an all-digit birth field whose month and day exist in the current year, with a valid current date in a year of at least 100. For other inputs, `Dongjedang.ParseBirthDate` gives the age as `Dongjedang.AgeOn`'s Date-normalised comparison without a closed form.
- Dongjedang.AgeOfCode: the same restriction as `Dongjedang.AgeOfDigits`.
- PatientSearch.SelectRegisteredAge: the same restriction as `Dongjedang.AgeOfDigits`.
- Text.TakeLast: its contract states only the length. The contents are stated by `Text.TakeLastIsSuffix`.
- Recorder.MicErrorMessage: the contract does not state the four fixed explanations given for the known error names. It states only the prefix and the two pass-through cases.
- Gemini.Transcribe: `transcribeWithGemini` does not check the key itself. A missing key reaches the SDK, which throws, and the model passes that on as a throw.
- Transcription.GenerateChartStage: a thrown value that is not an `Error` has its own message in the source. The oracle always throws with a message, so that branch is not modelled. Its key-problem test lower-cases with `Text.ToLowerAscii`, so it differs from the source for messages that spell `api key` with non-ASCII capitals such as U+212A KELVIN SIGN.
