// The three Gemini calls of the service layer: transcription of one audio
// segment, proof-reading of a transcript, and SOAP chart generation. Each
// asks the primary model first and the fallback model once if that fails.
// The model itself is an oracle: what it answers is a parameter.

module Gemini {
  import opened Wrappers
  import opened Text
  import Recorder

  const PrimaryModelName: string := "gemini-3-pro-preview"
  const FallbackModelName: string := "gemini-2.5-flash"

  datatype ModelId = Primary | Fallback {
    function Name(): string {
      if this == Primary then PrimaryModelName else FallbackModelName
    }
  }

  /** Which system instruction a request carries; the instruction texts themselves are not modelled. */
  datatype Instruction = TranscriptionInstruction | VerificationInstruction | ChartInstruction

  datatype Contents =
    | AudioWithPrompt(audio: Recorder.Segment, prompt: string)
    | PlainText(text: string)

  datatype Request = Request(contents: Contents, instruction: Instruction)

  /** What one `generateContent` call does: an answer whose text may be absent, or a thrown error. */
  datatype Outcome = Answered(text: Option<string>) | Threw(message: string)

  type Oracle = (ModelId, Request) -> Outcome

  /** The models consulted, in order, and what the service function returns or throws. */
  datatype Reply = Reply(calls: seq<ModelId>, result: Result<string, string>)

  const MissingKeyMessage: string := "Gemini API 키가 없습니다."
  const TranscriptionFailure: string := "Gemini 음성 전사 실패 (PRIMARY & FALLBACK): "
  const VerificationFailure: string := "Gemini 전사 내용 검수 실패 (PRIMARY & FALLBACK): "
  const ChartFailure: string := "Gemini 생성 실패 (PRIMARY & FALLBACK): "

  // ---------------------------------------------------------------------------
  // The primary-then-fallback rule
  // ---------------------------------------------------------------------------

  /**
   * The retry rule shared by all three calls: the fallback is consulted exactly
   * when the primary throws, the call fails exactly when both throw, and the
   * error then carries the fallback's message after `failurePrefix`.
   */
  predicate FollowsRetryRule(oracle: Oracle, req: Request, r: Reply, failurePrefix: string) {
    && r.calls == (if oracle(Primary, req).Answered? then [Primary] else [Primary, Fallback])
    && (r.result.Failure? <==> oracle(Primary, req).Threw? && oracle(Fallback, req).Threw?)
    && (r.result.Failure? ==> r.result.error == failurePrefix + oracle(Fallback, req).message)
  }

  /** The text of the answer the reply is built from: that of the last model consulted. */
  function AnswerText(oracle: Oracle, req: Request, calls: seq<ModelId>): Option<string>
    requires calls != [] && oracle(calls[|calls| - 1], req).Answered?
  {
    oracle(calls[|calls| - 1], req).text
  }

  datatype Attempt = Attempt(calls: seq<ModelId>, outcome: Outcome)

  /** Ask the primary model; only if it throws, ask the fallback once. */
  function WithFallback(oracle: Oracle, req: Request): (a: Attempt)
    ensures a.calls != [] && a.calls[0] == Primary && |a.calls| <= 2
    ensures a.outcome == oracle(a.calls[|a.calls| - 1], req)
    ensures a.calls == [Primary] <==> oracle(Primary, req).Answered?
    ensures a.outcome.Threw? <==> oracle(Primary, req).Threw? && oracle(Fallback, req).Threw?
  {
    match oracle(Primary, req)
    case Answered(_) => Attempt([Primary], oracle(Primary, req))
    case Threw(_) => Attempt([Primary, Fallback], oracle(Fallback, req))
  }

  /** `text?.trim() || otherwise`. */
  function TrimmedOr(text: Option<string>, otherwise: string): (r: string)
    ensures text.None? ==> r == otherwise
    ensures text.Some? && !AllWhitespace(text.value) ==> r == Trim(text.value) && r != [] && IsTrimmed(r)
    ensures text.Some? && AllWhitespace(text.value) ==> r == otherwise
  {
    match text
    case None => otherwise
    case Some(t) => if Trim(t) == [] then otherwise else Trim(t)
  }

  /** Turn an attempt into a reply: the selected text, or the prefixed error. */
  function Settle(a: Attempt, select: Option<string> -> string, failurePrefix: string): (r: Reply)
    ensures r.calls == a.calls
    ensures r.result.Failure? <==> a.outcome.Threw?
    ensures a.outcome.Threw? ==> r.result.error == failurePrefix + a.outcome.message
    ensures a.outcome.Answered? ==> r.result.value == select(a.outcome.text)
  {
    match a.outcome
    case Answered(text) => Reply(a.calls, Success(select(text)))
    case Threw(message) => Reply(a.calls, Failure(failurePrefix + message))
  }

  lemma SettleFollowsRetryRule(oracle: Oracle, req: Request, select: Option<string> -> string, failurePrefix: string)
    ensures FollowsRetryRule(oracle, req, Settle(WithFallback(oracle, req), select, failurePrefix), failurePrefix)
  {
  }

  /** A key that is undefined or empty counts as missing. */
  predicate KeyMissing(key: Option<string>) {
    key.None? || key.value == []
  }

  // ---------------------------------------------------------------------------
  // transcribeWithGemini
  // ---------------------------------------------------------------------------

  const TranscriptionBase: string := "진료 녹음 파일을 전사해 주세요."
  const ContextHeader: string := "\n\n[이전 대화 문맥]\n"
  const ContextTrailer: string := "\n\n위의 이전 문맥을 참고하여 대화가 자연스럽게 이어지도록 전사하세요."

  /** The context a transcription prompt carries, read back out of it; empty when it carries none. */
  function PromptContext(prompt: string): string {
    var head := TranscriptionBase + ContextHeader;
    if |prompt| >= |head| + |ContextTrailer| && prompt[..|head|] == head
       && prompt[|prompt| - |ContextTrailer|..] == ContextTrailer
    then prompt[|head|..|prompt| - |ContextTrailer|]
    else []
  }

  /** The user part of a transcription request: the context block is appended iff there is context. */
  function TranscriptionPrompt(context: string): (p: string)
    ensures |TranscriptionBase| <= |p| && p[..|TranscriptionBase|] == TranscriptionBase
    ensures context == [] <==> p == TranscriptionBase
    ensures PromptContext(p) == context
  {
    if context == [] then TranscriptionBase
    else
      var p := TranscriptionBase + ContextHeader + context + ContextTrailer;
      assert p[..|TranscriptionBase + ContextHeader|] == TranscriptionBase + ContextHeader;
      assert p[|p| - |ContextTrailer|..] == ContextTrailer;
      assert p[|TranscriptionBase + ContextHeader|..|p| - |ContextTrailer|] == context;
      p
  }

  function TranscriptionRequest(audio: Recorder.Segment, context: string): Request {
    Request(AudioWithPrompt(audio, TranscriptionPrompt(context)), TranscriptionInstruction)
  }

  /** `transcribeWithGemini`: the trimmed text of the answer, or `""` when it has none. */
  function Transcribe(oracle: Oracle, audio: Recorder.Segment, context: string): (r: Reply)
    ensures FollowsRetryRule(oracle, TranscriptionRequest(audio, context), r, TranscriptionFailure)
    ensures r.result.Success? ==>
      IsTrimmed(r.result.value) && r.result.value == TrimmedOr(AnswerText(oracle, TranscriptionRequest(audio, context), r.calls), "")
  {
    var req := TranscriptionRequest(audio, context);
    SettleFollowsRetryRule(oracle, req, text => TrimmedOr(text, ""), TranscriptionFailure);
    Settle(WithFallback(oracle, req), text => TrimmedOr(text, ""), TranscriptionFailure)
  }

  // ---------------------------------------------------------------------------
  // verifyAndCorrectTranscript
  // ---------------------------------------------------------------------------

  const VerificationHeader: string := "\n아래의 진료 대화 전사문을 검토하고 수정 규칙에 따라 교정해주세요.\n\n[전사문 원본]\n---\n"
  const VerificationTrailer: string := "\n---\n"

  /** The transcript a verification prompt quotes, read back out of it. */
  function QuotedTranscript(prompt: string): Option<string> {
    if |prompt| >= |VerificationHeader| + |VerificationTrailer| && prompt[..|VerificationHeader|] == VerificationHeader
       && prompt[|prompt| - |VerificationTrailer|..] == VerificationTrailer
    then Some(prompt[|VerificationHeader|..|prompt| - |VerificationTrailer|])
    else None
  }

  /** `getVerificationPrompt`: the transcript, quoted verbatim between the fixed header and trailer. */
  function VerificationPrompt(transcript: string): (p: string)
    ensures QuotedTranscript(p) == Some(transcript)
  {
    var p := VerificationHeader + transcript + VerificationTrailer;
    assert p[..|VerificationHeader|] == VerificationHeader;
    assert p[|p| - |VerificationTrailer|..] == VerificationTrailer;
    assert p[|VerificationHeader|..|p| - |VerificationTrailer|] == transcript;
    p
  }

  function VerificationRequest(transcript: string): Request {
    Request(PlainText(VerificationPrompt(transcript)), VerificationInstruction)
  }

  /**
   * `verifyAndCorrectTranscript`: a missing key fails first; a blank transcript
   * comes back unchanged without a call; otherwise the trimmed correction, or
   * the original when the answer is absent or blank.
   */
  function VerifyTranscript(oracle: Oracle, key: Option<string>, transcript: string): (r: Reply)
    ensures KeyMissing(key) ==> r == Reply([], Failure(MissingKeyMessage))
    ensures !KeyMissing(key) && AllWhitespace(transcript) ==> r == Reply([], Success(transcript))
    ensures !KeyMissing(key) && !AllWhitespace(transcript) ==>
      && FollowsRetryRule(oracle, VerificationRequest(transcript), r, VerificationFailure)
      && (r.result.Success? ==>
            r.result.value == TrimmedOr(AnswerText(oracle, VerificationRequest(transcript), r.calls), transcript))
    ensures r.result.Success? ==> r.result.value == transcript || (r.result.value != [] && IsTrimmed(r.result.value))
  {
    if KeyMissing(key) then Reply([], Failure(MissingKeyMessage))
    else if Trim(transcript) == [] then Reply([], Success(transcript))
    else
      var req := VerificationRequest(transcript);
      SettleFollowsRetryRule(oracle, req, text => TrimmedOr(text, transcript), VerificationFailure);
      Settle(WithFallback(oracle, req), text => TrimmedOr(text, transcript), VerificationFailure)
  }

  // ---------------------------------------------------------------------------
  // getUserPrompt and generateSoapChart
  // ---------------------------------------------------------------------------

  const InstructionLead: string := "아래의 출력 형식과"
  const InstructionClose: string := " SOAP 차트를 작성해 주세요."
  const DefaultInstruction: string := InstructionLead + " 제공된 내용을 바탕으로" + InstructionClose
  const CombineInstruction: string := InstructionLead + ", [진료 대화 내용] 및 [추가 메모]를 모두 종합하여" + InstructionClose

  /** The output template up to the consultation time, and after it. */
  const TemplateHead: string := "\n\n[출력 형식]\n환자명:\n진료일시: "
  const TemplateTail: string :=
    "\n요약: (진료내용을 50자 내외 요약)\n\nS (주관적)\n- 주호소:\n- 현병력:\n- 악화·완화 요인:\n- 관련 증상:\n- 기타:\n\n"
    + "O (객관적)\n- 시진:\n- 촉진/압통:\n- ROM/기능검사:\n- 특수검사:\n- 활력징후:\n- 기타:\n\n"
    + "A (평가)\n- 진단명:\n- 의증:\n\n"
    + "P (계획)\n- 시술:\n- 치료 빈도/기간:\n- 한약:\n- 예후:\n- 주의사항/금기:\n- 생활지도/재활:\n- 추적계획:\n\n"
    + "확인사항 (체크리스트)\n1. 주소증에 대해서 정확하게 진찰했는가?\n2. 예후 및 주의사항이 누락되지 않았는가?\n"
    + "3. 치료계획이 환자에게 충분히 설명되었는가?\n"

  const SectionRule: string := "\n---\n\n"
  const TranscriptHeader: string := SectionRule + "[진료 대화 내용]\n"
  const NotesHeader: string := SectionRule + "[추가 메모]\n"

  function TranscriptSection(transcript: string): string {
    TranscriptHeader + transcript + "\n"
  }

  function NotesSection(notes: string): string {
    NotesHeader + notes + "\n"
  }

  /** The headline instruction: the combining one iff both inputs have content. */
  function MainInstruction(transcript: string, notes: string): (r: string)
    ensures r == CombineInstruction <==> !AllWhitespace(transcript) && !AllWhitespace(notes)
    ensures r == DefaultInstruction || r == CombineInstruction
  {
    InstructionsDiffer();
    if Trim(transcript) != [] && Trim(notes) != [] then CombineInstruction else DefaultInstruction
  }

  /**
   * The material appended to the template: the transcript section iff the
   * transcript has content, then the notes section iff the notes have content.
   */
  function ContentSection(transcript: string, notes: string): (r: string)
    ensures |r| == (if AllWhitespace(transcript) then 0 else |TranscriptSection(transcript)|)
                 + (if AllWhitespace(notes) then 0 else |NotesSection(notes)|)
    ensures AllWhitespace(transcript) && AllWhitespace(notes) ==> r == []
  {
    (if Trim(transcript) != [] then TranscriptSection(transcript) else [])
    + (if Trim(notes) != [] then NotesSection(notes) else [])
  }

  /** A section `h + x + "\n"` followed by anything opens with `h` and quotes `x` right after it. */
  lemma SectionFirst(h: string, x: string, rest: string)
    ensures OccursAt(h + x + "\n" + rest, h, 0)
    ensures OccursAt(h + x + "\n" + rest, x, |h|)
  {
    var r := h + x + "\n" + rest;
    assert r[..|h|] == h;
    assert r[|h|..|h| + |x|] == x;
  }

  /** A section `h + x + "\n"` after anything quotes `x` just before the final line break. */
  lemma SectionLast(first: string, h: string, x: string)
    ensures var r := first + (h + x + "\n");
      OccursAt(r, h, |first|) && OccursAt(r, x, |r| - |x| - 1)
  {
    var r := first + (h + x + "\n");
    assert r[|first|..|first| + |h|] == h;
    assert r[|first| + |h|..|first| + |h| + |x|] == x;
  }

  /** The two section headers part right after the opening bracket. */
  lemma HeadersDiffer()
    ensures |SectionRule| + 1 < |TranscriptHeader| && |SectionRule| + 1 < |NotesHeader|
    ensures TranscriptHeader[|SectionRule| + 1] != NotesHeader[|SectionRule| + 1]
  {
    assert TranscriptHeader[|SectionRule| + 1] == '진';
    assert NotesHeader[|SectionRule| + 1] == '추';
  }

  /** The content section opens with the transcript header exactly when the transcript has content. */
  lemma ContentSectionHeader(transcript: string, notes: string)
    ensures OccursAt(ContentSection(transcript, notes), TranscriptHeader, 0) <==> !AllWhitespace(transcript)
  {
    var rest := (if Trim(notes) != [] then NotesSection(notes) else []);
    if !AllWhitespace(transcript) {
      SectionFirst(TranscriptHeader, transcript, rest);
    } else if !AllWhitespace(notes) {
      SectionLast([], NotesHeader, notes);
      HeadersDiffer();
      DifferentAt(ContentSection(transcript, notes), NotesHeader, TranscriptHeader, 0, |SectionRule| + 1);
    }
  }

  /** The notes header comes right after the transcript section, or first without one, exactly when the notes have content. */
  lemma ContentSectionNotesHeader(transcript: string, notes: string)
    ensures var r := ContentSection(transcript, notes);
      OccursAt(r, NotesHeader, if AllWhitespace(transcript) then 0 else |TranscriptSection(transcript)|) <==> !AllWhitespace(notes)
  {
    var first := if Trim(transcript) != [] then TranscriptSection(transcript) else [];
    if !AllWhitespace(notes) {
      SectionLast(first, NotesHeader, notes);
    } else {
      assert ContentSection(transcript, notes) == first + [];
    }
  }

  /** A transcript with content is quoted right after its header. */
  lemma ContentSectionQuotesTranscript(transcript: string, notes: string)
    requires !AllWhitespace(transcript)
    ensures OccursAt(ContentSection(transcript, notes), transcript, |TranscriptHeader|)
  {
    SectionFirst(TranscriptHeader, transcript, if Trim(notes) != [] then NotesSection(notes) else []);
  }

  /** Notes with content are quoted at the end, before the final line break. */
  lemma ContentSectionQuotesNotes(transcript: string, notes: string)
    requires !AllWhitespace(notes)
    ensures var r := ContentSection(transcript, notes);
      OccursAt(r, notes, |r| - |notes| - 1)
  {
    SectionLast(if Trim(transcript) != [] then TranscriptSection(transcript) else [], NotesHeader, notes);
  }

  /** Where the pieces of `a + x + b + y + c + z` sit, for any pieces. */
  lemma Layout(a: string, x: string, b: string, y: string, c: string, z: string)
    ensures var p := a + x + b + y + c + z;
      && OccursAt(p, a, 0)
      && OccursAt(p, x, |a|)
      && OccursAt(p, b, |a| + |x|)
      && OccursAt(p, y, |a| + |x| + |b|)
      && OccursAt(p, c, |a| + |x| + |b| + |y|)
      && OccursAt(p, z, |p| - |z|)
  {
    var p := a + x + b + y + c + z;
    assert p[..|a|] == a;
    assert p[|a|..|a| + |x|] == x;
    assert p[|a| + |x|..|a| + |x| + |b|] == b;
    assert p[|a| + |x| + |b|..|a| + |x| + |b| + |y|] == y;
    assert p[|a| + |x| + |b| + |y|..|a| + |x| + |b| + |y| + |c|] == c;
    assert p[|p| - |z|..] == z;
  }

  /** Text that matches one string at `i` cannot match another that differs from it at an offset both reach. */
  lemma DifferentAt(p: string, a: string, b: string, i: int, k: nat)
    requires OccursAt(p, a, i) && k < |a| && k < |b| && a[k] != b[k]
    ensures !OccursAt(p, b, i)
  {
    assert p[i..i + |a|][k] == p[i + k];
  }

  /** The shape of a chart prompt, for any instruction, template halves, time and content. */
  function Frame(instruction: string, head: string, time: string, tail: string, content: string): (p: string)
    ensures |p| == 2 + |instruction| + |head| + |time| + |tail| + |content|
  {
    "\n" + instruction + head + time + tail + (content + "\n")
  }

  /**
   * The prompt is a line break, the instruction, the template head, the time,
   * the template tail, the content and a final line break, each right after
   * the one before.
   */
  lemma FrameLayout(instruction: string, head: string, time: string, tail: string, content: string)
    ensures var p := Frame(instruction, head, time, tail, content);
      && p[0] == '\n' && p[|p| - 1] == '\n'
      && OccursAt(p, instruction, 1)
      && OccursAt(p, head, 1 + |instruction|)
      && OccursAt(p, time, 1 + |instruction| + |head|)
      && OccursAt(p, tail, 1 + |instruction| + |head| + |time|)
      && OccursAt(p, content + "\n", |p| - |content + "\n"|)
      && OccursAt(p, content, |p| - 1 - |content|)
  {
    var z := content + "\n";
    Layout("\n", instruction, head, time, tail, z);
    var p := Frame(instruction, head, time, tail, content);
    assert p[|p| - 1] == p[|p| - |z|..][|z| - 1] == z[|z| - 1];
    assert p[|p| - |z|..|p| - 1] == p[|p| - |z|..][..|content|] == content;
  }

  /** Whatever the content quotes, the prompt quotes too. */
  lemma FrameQuotes(instruction: string, head: string, time: string, tail: string, content: string, pat: string, k: nat)
    requires OccursAt(content, pat, k)
    ensures Contains(Frame(instruction, head, time, tail, content), pat)
  {
    var p := Frame(instruction, head, time, tail, content);
    FrameLayout(instruction, head, time, tail, content);
    var i := |p| - |content + "\n"|;
    assert OccursAt(content + "\n", pat, k) by {
      assert (content + "\n")[k..k + |pat|] == content[k..k + |pat|];
    }
    OccursWithin(p, content + "\n", i, pat, k);
    ContainsIff(p, pat);
  }

  /**
   * `getUserPrompt`, with the formatted consultation time given as text: a line
   * break, the instruction, the `[출력 형식]` template with the time after its
   * `진료일시: ` line head, the content section and a final line break, and
   * nothing else.
   */
  function UserPrompt(transcript: string, notes: string, consultationTime: string): (p: string)
    ensures |p| == 2 + |MainInstruction(transcript, notes)| + |TemplateHead| + |consultationTime| + |TemplateTail|
                 + |ContentSection(transcript, notes)|
    ensures p[0] == '\n' && p[|p| - 1] == '\n'
  {
    var instruction := MainInstruction(transcript, notes);
    var content := ContentSection(transcript, notes);
    FrameLayout(instruction, TemplateHead, consultationTime, TemplateTail, content);
    Frame(instruction, TemplateHead, consultationTime, TemplateTail, content)
  }

  /** The template head follows the instruction, the time follows the head, and the template tail follows the time. */
  lemma UserPromptTemplate(transcript: string, notes: string, consultationTime: string)
    ensures var p := UserPrompt(transcript, notes, consultationTime);
      var i := |MainInstruction(transcript, notes)|;
      && OccursAt(p, TemplateHead, 1 + i)
      && OccursAt(p, consultationTime, 1 + i + |TemplateHead|)
      && OccursAt(p, TemplateTail, 1 + i + |TemplateHead| + |consultationTime|)
  {
    FrameLayout(MainInstruction(transcript, notes), TemplateHead, consultationTime, TemplateTail,
                ContentSection(transcript, notes));
  }

  /** The prompt opens, after a line break, with the combining instruction exactly when both inputs have content. */
  lemma UserPromptInstruction(transcript: string, notes: string, consultationTime: string)
    ensures var p := UserPrompt(transcript, notes, consultationTime);
      && OccursAt(p, MainInstruction(transcript, notes), 1)
      && (OccursAt(p, CombineInstruction, 1) <==> !AllWhitespace(transcript) && !AllWhitespace(notes))
  {
    var instruction := MainInstruction(transcript, notes);
    FrameLayout(instruction, TemplateHead, consultationTime, TemplateTail, ContentSection(transcript, notes));
    InstructionAt(UserPrompt(transcript, notes, consultationTime), instruction, 1);
  }

  /** Which of the two instructions a prompt carries can be read off at its position. */
  lemma InstructionAt(p: string, instruction: string, i: int)
    requires instruction == DefaultInstruction || instruction == CombineInstruction
    requires OccursAt(p, instruction, i)
    ensures OccursAt(p, CombineInstruction, i) <==> instruction == CombineInstruction
  {
    if instruction == DefaultInstruction {
      InstructionsDiffer();
      DifferentAt(p, DefaultInstruction, CombineInstruction, i, |InstructionLead|);
    }
  }

  lemma InstructionsDiffer()
    ensures DefaultInstruction != CombineInstruction
    ensures |InstructionLead| < |DefaultInstruction| && |InstructionLead| < |CombineInstruction|
    ensures DefaultInstruction[|InstructionLead|] != CombineInstruction[|InstructionLead|]
  {
    assert DefaultInstruction[|InstructionLead|] == ' ';
    assert CombineInstruction[|InstructionLead|] == ',';
  }

  /** A transcript with content appears verbatim in the prompt built from it. */
  lemma UserPromptQuotesTranscript(transcript: string, notes: string, consultationTime: string)
    requires !AllWhitespace(transcript)
    ensures Contains(UserPrompt(transcript, notes, consultationTime), transcript)
  {
    ContentSectionQuotesTranscript(transcript, notes);
    FrameQuotes(MainInstruction(transcript, notes), TemplateHead, consultationTime, TemplateTail,
                ContentSection(transcript, notes), transcript, |TranscriptHeader|);
  }

  /** Notes with content appear verbatim in the prompt built from them. */
  lemma UserPromptQuotesNotes(transcript: string, notes: string, consultationTime: string)
    requires !AllWhitespace(notes)
    ensures Contains(UserPrompt(transcript, notes, consultationTime), notes)
  {
    var content := ContentSection(transcript, notes);
    ContentSectionQuotesNotes(transcript, notes);
    FrameQuotes(MainInstruction(transcript, notes), TemplateHead, consultationTime, TemplateTail,
                content, notes, |content| - |notes| - 1);
  }

  /** An occurrence inside an occurrence is an occurrence. */
  lemma OccursWithin(p: string, outer: string, i: int, inner: string, k: nat)
    requires OccursAt(p, outer, i) && OccursAt(outer, inner, k)
    ensures OccursAt(p, inner, i + k)
  {
    forall j | 0 <= j < |inner|
      ensures p[i + k + j] == inner[j]
    {
      assert p[i..i + |outer|][k + j] == p[i + k + j];
      assert outer[k..k + |inner|][j] == outer[k + j];
    }
    assert p[i + k..i + k + |inner|] == inner;
  }

  function ChartRequest(transcript: string, notes: string, consultationTime: string): Request {
    Request(PlainText(UserPrompt(transcript, notes, consultationTime)), ChartInstruction)
  }

  /** `text ?? ''`: an empty answer stays empty and nothing is trimmed. */
  function TextOrEmpty(text: Option<string>): (r: string)
    ensures text.Some? ==> r == text.value
    ensures text.None? ==> r == []
  {
    text.GetOr([])
  }

  /** `generateSoapChart`: the untrimmed text of the answer, or `''` when it has none. */
  function GenerateChart(oracle: Oracle, key: Option<string>, transcript: string, notes: string, consultationTime: string): (r: Reply)
    ensures KeyMissing(key) ==> r == Reply([], Failure(MissingKeyMessage))
    ensures !KeyMissing(key) ==>
      && FollowsRetryRule(oracle, ChartRequest(transcript, notes, consultationTime), r, ChartFailure)
      && (r.result.Success? ==>
            r.result.value == TextOrEmpty(AnswerText(oracle, ChartRequest(transcript, notes, consultationTime), r.calls)))
  {
    if KeyMissing(key) then Reply([], Failure(MissingKeyMessage))
    else
      var req := ChartRequest(transcript, notes, consultationTime);
      SettleFollowsRetryRule(oracle, req, TextOrEmpty, ChartFailure);
      Settle(WithFallback(oracle, req), TextOrEmpty, ChartFailure)
  }
}
