// What happens to the recorded segments once the recorder hands them over:
// each is transcribed in order with the tail of the transcript so far as
// context, the pieces are joined with single spaces, the joined transcript is
// proof-read, and a chart is generated from it and the notes.

module Transcription {
  import opened Wrappers
  import opened Text
  import Recorder
  import Gemini

  /** How many trailing characters of the transcript so far go along as context. */
  const ContextWindow: nat := 300

  const NoAudioStatus: string := "음성이 감지되지 않았습니다."
  const TranscriptionErrorPrefix: string := "음성 전사 실패: "
  const NothingToAnalyzeStatus: string := "음성이 감지되지 않았고 추가 정보도 없습니다."
  const KeyNotSetMessage: string := "Gemini API 키가 설정되지 않았습니다."

  // ---------------------------------------------------------------------------
  // Joining the pieces
  // ---------------------------------------------------------------------------

  /** `acc += (acc ? ' ' : '') + text`: a space goes in only after text that is already there. */
  function Append(acc: string, text: string): (r: string)
    ensures acc == [] ==> r == text
    ensures acc != [] ==> |r| == |acc| + 1 + |text| && r[..|acc|] == acc && r[|acc|] == ' ' && r[|acc| + 1..] == text
  {
    if acc == [] then text else acc + " " + text
  }

  /** `texts.join(' ')`. */
  function SpaceJoin(texts: seq<string>): string {
    if |texts| == 0 then []
    else if |texts| == 1 then texts[0]
    else SpaceJoin(texts[..|texts| - 1]) + " " + texts[|texts| - 1]
  }

  /** The texts from the first non-empty one on. */
  function DropLeadingEmpty(texts: seq<string>): (r: seq<string>)
    ensures r != [] ==> r[0] != []
  {
    if texts == [] then []
    else if texts[0] == [] then DropLeadingEmpty(texts[1..])
    else texts
  }

  lemma {:induction false} DropLeadingEmptySnoc(texts: seq<string>, t: string)
    ensures DropLeadingEmpty(texts + [t]) ==
      if DropLeadingEmpty(texts) != [] then DropLeadingEmpty(texts) + [t]
      else if t == [] then []
      else [t]
    decreases |texts|
  {
    if texts == [] {
      assert texts + [t] == [t];
      assert [t][1..] == [];
    } else {
      assert (texts + [t])[0] == texts[0];
      assert (texts + [t])[1..] == texts[1..] + [t];
      if texts[0] == [] {
        DropLeadingEmptySnoc(texts[1..], t);
      }
    }
  }

  /** Only empty texts are dropped, and what remains is the rest of the list. */
  lemma {:induction false} DropLeadingEmptySuffix(texts: seq<string>)
    ensures var r := DropLeadingEmpty(texts);
      && |r| <= |texts| && r == texts[|texts| - |r|..]
      && forall i :: 0 <= i < |texts| - |r| ==> texts[i] == []
    decreases |texts|
  {
    if texts != [] && texts[0] == [] {
      DropLeadingEmptySuffix(texts[1..]);
      var r := DropLeadingEmpty(texts);
      forall i | 0 <= i < |texts| - |r|
        ensures texts[i] == []
      {
        if i > 0 {
          assert texts[1..][i - 1] == texts[i];
        }
      }
    }
  }

  /** The join starts with the first text. */
  lemma {:induction false} SpaceJoinKeepsFirst(texts: seq<string>)
    requires texts != []
    ensures |SpaceJoin(texts)| >= |texts[0]| && SpaceJoin(texts)[..|texts[0]|] == texts[0]
    decreases |texts|
  {
    if |texts| > 1 {
      SpaceJoinKeepsFirst(texts[..|texts| - 1]);
      var init := SpaceJoin(texts[..|texts| - 1]);
      assert (init + " " + texts[|texts| - 1])[..|texts[0]|] == init[..|texts[0]|];
    }
  }

  /** Trimmed pieces give a transcript that does not start with whitespace. */
  lemma JoinedHasNoLeadingSpace(texts: seq<string>)
    requires forall i :: 0 <= i < |texts| ==> IsTrimmed(texts[i])
    ensures var joined := SpaceJoin(DropLeadingEmpty(texts)); joined == [] || !IsWhitespace(joined[0])
  {
    var d := DropLeadingEmpty(texts);
    DropLeadingEmptySuffix(texts);
    if d != [] {
      SpaceJoinKeepsFirst(d);
      assert d[0] == texts[|texts| - |d|];
      assert SpaceJoin(d)[0] == SpaceJoin(d)[..|d[0]|][0];
    }
  }

  /** One more piece through the accumulation rule is one more piece in the join. */
  lemma JoinStep(texts: seq<string>, t: string)
    ensures Append(SpaceJoin(DropLeadingEmpty(texts)), t) == SpaceJoin(DropLeadingEmpty(texts + [t]))
  {
    DropLeadingEmptySnoc(texts, t);
    var d := DropLeadingEmpty(texts);
    if d != [] {
      SpaceJoinKeepsFirst(d);
      assert (d + [t])[..|d + [t]| - 1] == d;
    }
  }

  // ---------------------------------------------------------------------------
  // The segment loop
  // ---------------------------------------------------------------------------

  /**
   * Where the loop stands: the context each attempted segment was given, the
   * text each transcribed segment produced, and the transcript (or the error
   * that ended the loop).
   */
  datatype Pass = Pass(contexts: seq<string>, texts: seq<string>, result: Result<string, string>)

  /** Transcribing one segment with a given context: the text, or the error it throws. */
  type Transcriber = (Recorder.Segment, string) -> Result<string, string>

  /** The transcriber `processRecordedAudio` uses: `transcribeWithGemini` against the given model. */
  function GeminiTranscriber(oracle: Gemini.Oracle): Transcriber {
    (segment, context) => Gemini.Transcribe(oracle, segment, context).result
  }

  /** The loop over the first `n` segments, as a reference definition. */
  function Accumulate(transcribe: Transcriber, segments: seq<Recorder.Segment>, n: nat): (p: Pass)
    requires n <= |segments|
    ensures |p.contexts| <= n
    ensures p.result.Success? ==> |p.contexts| == n && |p.texts| == n
    ensures p.result.Failure? ==> 0 < |p.contexts| && |p.texts| == |p.contexts| - 1
    decreases n
  {
    if n == 0 then Pass([], [], Success([]))
    else
      var prev := Accumulate(transcribe, segments, n - 1);
      if prev.result.Failure? then prev
      else
        var context := TakeLast(prev.result.value, ContextWindow);
        Extend(prev, context, transcribe(segments[n - 1], context))
  }

  /** One iteration: record the context, then either the text and the longer transcript, or the error. */
  function Extend(prev: Pass, context: string, reply: Result<string, string>): (p: Pass)
    requires prev.result.Success?
  {
    match reply
    case Failure(e) => Pass(prev.contexts + [context], prev.texts, Failure(e))
    case Success(text) => Pass(prev.contexts + [context], prev.texts + [text], Success(Append(prev.result.value, text)))
  }

  /**
   * What a pass says about the run that produced it: segment i was sent with
   * the last 300 characters of the join of the texts before it; each text is
   * what the transcriber returned for its segment; the transcript is the
   * single-space join of the texts from the first non-empty one on; a failure
   * is that of the last segment attempted.
   */
  predicate Explains(transcribe: Transcriber, segments: seq<Recorder.Segment>, p: Pass) {
    && |p.texts| <= |p.contexts| <= |segments|
    && (p.result.Success? ==> |p.texts| == |p.contexts|)
    && (p.result.Failure? ==> |p.texts| == |p.contexts| - 1)
    && ContextsFollow(p.contexts, p.texts)
    && Replied(transcribe, segments, p.contexts, p.texts)
    && (p.result.Failure? ==> transcribe(segments[|p.texts|], p.contexts[|p.texts|]) == Failure(p.result.error))
    && (p.result.Success? ==> p.result.value == SpaceJoin(DropLeadingEmpty(p.texts)))
  }

  /** Segment i was sent with the last 300 characters of the join of the texts before it. */
  predicate ContextsFollow(contexts: seq<string>, texts: seq<string>)
    requires |contexts| <= |texts| + 1
  {
    forall i :: 0 <= i < |contexts| ==>
      contexts[i] == TakeLast(SpaceJoin(DropLeadingEmpty(texts[..i])), ContextWindow)
  }

  /** Each text is what the transcriber returned for its segment and context. */
  predicate Replied(transcribe: Transcriber, segments: seq<Recorder.Segment>, contexts: seq<string>, texts: seq<string>)
    requires |texts| <= |contexts| <= |segments|
  {
    forall i :: 0 <= i < |texts| ==> transcribe(segments[i], contexts[i]) == Success(texts[i])
  }

  /** One more segment keeps the account true. */
  lemma ExplainsStep(transcribe: Transcriber, segments: seq<Recorder.Segment>, prev: Pass)
    requires Explains(transcribe, segments, prev) && prev.result.Success? && |prev.contexts| < |segments|
    ensures var context := TakeLast(prev.result.value, ContextWindow);
      Explains(transcribe, segments, Extend(prev, context, transcribe(segments[|prev.contexts|], context)))
  {
    var context := TakeLast(prev.result.value, ContextWindow);
    var reply := transcribe(segments[|prev.contexts|], context);
    var p := Extend(prev, context, reply);
    if reply.Success? {
      var texts := prev.texts + [reply.value];
      assert p == Pass(prev.contexts + [context], texts, Success(Append(prev.result.value, reply.value)));
      ContextsStep(prev.contexts, prev.texts, context, texts);
      TextsStep(transcribe, segments, prev.contexts, prev.texts, context, reply);
      JoinStep(prev.texts, reply.value);
    } else {
      assert p == Pass(prev.contexts + [context], prev.texts, Failure(reply.error));
      ContextsStep(prev.contexts, prev.texts, context, prev.texts);
      TextsStep(transcribe, segments, prev.contexts, prev.texts, context, reply);
    }
  }

  lemma ContextsStep(contexts: seq<string>, texts: seq<string>, context: string, texts': seq<string>)
    requires |texts| == |contexts| && |texts| <= |texts'| && texts'[..|texts|] == texts
    requires ContextsFollow(contexts, texts)
    requires context == TakeLast(SpaceJoin(DropLeadingEmpty(texts)), ContextWindow)
    ensures ContextsFollow(contexts + [context], texts')
  {
    forall i | 0 <= i < |contexts| + 1
      ensures (contexts + [context])[i] == TakeLast(SpaceJoin(DropLeadingEmpty(texts'[..i])), ContextWindow)
    {
      assert texts'[..|texts|][..i] == texts'[..i];
    }
  }

  lemma TextsStep(transcribe: Transcriber, segments: seq<Recorder.Segment>, contexts: seq<string>, texts: seq<string>,
                  context: string, reply: Result<string, string>)
    requires |texts| == |contexts| < |segments|
    requires Replied(transcribe, segments, contexts, texts)
    requires reply == transcribe(segments[|texts|], context)
    ensures Replied(transcribe, segments, contexts + [context], if reply.Success? then texts + [reply.value] else texts)
  {
    var texts' := if reply.Success? then texts + [reply.value] else texts;
    forall i | 0 <= i < |texts'|
      ensures transcribe(segments[i], (contexts + [context])[i]) == Success(texts'[i])
    {
      if i < |texts| {
        assert texts'[i] == texts[i];
        assert (contexts + [context])[i] == contexts[i];
      }
    }
  }

  /** The reference loop does what `Explains` says, for any number of segments. */
  lemma {:induction false} AccumulateMeaning(transcribe: Transcriber, segments: seq<Recorder.Segment>, n: nat)
    requires n <= |segments|
    ensures Explains(transcribe, segments, Accumulate(transcribe, segments, n))
    decreases n
  {
    if n > 0 {
      AccumulateMeaning(transcribe, segments, n - 1);
      var prev := Accumulate(transcribe, segments, n - 1);
      if prev.result.Success? {
        var context := TakeLast(prev.result.value, ContextWindow);
        assert |prev.contexts| == n - 1;
        assert Accumulate(transcribe, segments, n) == Extend(prev, context, transcribe(segments[n - 1], context));
        ExplainsStep(transcribe, segments, prev);
      } else {
        assert Accumulate(transcribe, segments, n) == prev;
      }
    }
  }

  /** Once a segment fails, the loop has stopped: later segments change nothing. */
  lemma {:induction false} FailureStops(transcribe: Transcriber, segments: seq<Recorder.Segment>, m: nat, n: nat)
    requires m <= n <= |segments|
    requires Accumulate(transcribe, segments, m).result.Failure?
    ensures Accumulate(transcribe, segments, n) == Accumulate(transcribe, segments, m)
    decreases n - m
  {
    if m < n {
      FailureStops(transcribe, segments, m, n - 1);
    }
  }

  /** A segment that comes back with text extends the transcript by one space-separated piece. */
  lemma AccumulateSucceeds(transcribe: Transcriber, segments: seq<Recorder.Segment>, i: nat,
                           contexts: seq<string>, texts: seq<string>, full: string, text: string)
    requires i < |segments| && Accumulate(transcribe, segments, i) == Pass(contexts, texts, Success(full))
    requires transcribe(segments[i], TakeLast(full, ContextWindow)) == Success(text)
    ensures Accumulate(transcribe, segments, i + 1) ==
      Pass(contexts + [TakeLast(full, ContextWindow)], texts + [text], Success(full + (if full != [] then " " else "") + text))
  {
    assert full + (if full != [] then " " else "") + text == Append(full, text);
  }

  /** A segment that fails ends the run with its error. */
  lemma AccumulateFails(transcribe: Transcriber, segments: seq<Recorder.Segment>, i: nat,
                        contexts: seq<string>, texts: seq<string>, full: string, e: string)
    requires i < |segments| && Accumulate(transcribe, segments, i) == Pass(contexts, texts, Success(full))
    requires transcribe(segments[i], TakeLast(full, ContextWindow)) == Failure(e)
    ensures Accumulate(transcribe, segments, |segments|) == Pass(contexts + [TakeLast(full, ContextWindow)], texts, Failure(e))
  {
    assert Accumulate(transcribe, segments, i + 1) == Pass(contexts + [TakeLast(full, ContextWindow)], texts, Failure(e));
    FailureStops(transcribe, segments, i + 1, |segments|);
  }

  /** The loop of `processRecordedAudio`: segments in order, each with the trailing context. */
  method TranscribeAll(transcribe: Transcriber, segments: seq<Recorder.Segment>) returns (p: Pass)
    ensures p == Accumulate(transcribe, segments, |segments|)
  {
    var full := "";
    var contexts: seq<string> := [];
    var texts: seq<string> := [];
    var i := 0;
    while i < |segments|
      invariant 0 <= i <= |segments|
      invariant Accumulate(transcribe, segments, i) == Pass(contexts, texts, Success(full))
    {
      var context := TakeLast(full, ContextWindow);
      var reply := transcribe(segments[i], context);
      if reply.Failure? {
        AccumulateFails(transcribe, segments, i, contexts, texts, full, reply.error);
        return Pass(contexts + [context], texts, Failure(reply.error));
      }
      AccumulateSucceeds(transcribe, segments, i, contexts, texts, full, reply.value);
      contexts := contexts + [context];
      full := full + (if full != [] then " " else "") + reply.value;
      texts := texts + [reply.value];
      i := i + 1;
    }
    p := Pass(contexts, texts, Success(full));
  }

  /** With the Gemini transcriber the transcript never starts with a space. */
  lemma GeminiTranscriptHasNoLeadingSpace(oracle: Gemini.Oracle, segments: seq<Recorder.Segment>)
    ensures var p := Accumulate(GeminiTranscriber(oracle), segments, |segments|);
      p.result.Success? ==> p.result.value == [] || !IsWhitespace(p.result.value[0])
  {
    var transcribe := GeminiTranscriber(oracle);
    var p := Accumulate(transcribe, segments, |segments|);
    AccumulateMeaning(transcribe, segments, |segments|);
    forall i | 0 <= i < |p.texts|
      ensures IsTrimmed(p.texts[i])
    {
      assert transcribe(segments[i], p.contexts[i]) == Gemini.Transcribe(oracle, segments[i], p.contexts[i]).result;
    }
    JoinedHasNoLeadingSpace(p.texts);
  }

  /** With no segments there is nothing to send: no model is asked anything. */
  lemma NoSegmentsNoCalls(transcribe: Transcriber)
    ensures Accumulate(transcribe, [], 0) == Pass([], [], Success([]))
  {
  }

  // ---------------------------------------------------------------------------
  // After the loop: proof-reading and chart generation
  // ---------------------------------------------------------------------------

  /** Stage 1.5: the corrected transcript, or the original with the reason it could not be corrected. */
  function Proofread(oracle: Gemini.Oracle, key: Option<string>, transcript: string): (r: (string, Option<string>))
    ensures AllWhitespace(transcript) ==> r == (transcript, None)
    ensures !AllWhitespace(transcript) ==>
      var reply := Gemini.VerifyTranscript(oracle, key, transcript).result;
      && (reply.Success? ==> r == (reply.value, None))
      && (reply.Failure? ==> r == (transcript, Some(reply.error)))
  {
    if Trim(transcript) == [] then (transcript, None)
    else
      match Gemini.VerifyTranscript(oracle, key, transcript).result
      case Success(corrected) => (corrected, None)
      case Failure(e) => (transcript, Some(e))
  }

  datatype ChartOutcome =
    | KeyNotSet          // the key check of the handler, before any call
    | Chart(text: string)
    | KeyRejected        // the error mentions an API key
    | ServiceFailed      // any other error

  /** `err.message.toLowerCase().includes('api key')`, with ASCII case folding. */
  predicate MentionsApiKey(message: string) {
    Contains(ToLowerAscii(message), "api key")
  }

  /** `handleGenerateChart`: check the key, generate, and sort a failure by its message. */
  function GenerateChartStage(oracle: Gemini.Oracle, key: Option<string>, transcript: string, notes: string, consultationTime: string): (o: ChartOutcome)
    ensures o == KeyNotSet <==> Gemini.KeyMissing(key)
    ensures !Gemini.KeyMissing(key) ==>
      var reply := Gemini.GenerateChart(oracle, key, transcript, notes, consultationTime).result;
      && (o.Chart? <==> reply.Success?)
      && (reply.Success? ==> o.text == reply.value)
      && (reply.Failure? ==> (o == KeyRejected <==> MentionsApiKey(reply.error)))
  {
    if Gemini.KeyMissing(key) then KeyNotSet
    else
      match Gemini.GenerateChart(oracle, key, transcript, notes, consultationTime).result
      case Success(chart) => Chart(chart)
      case Failure(e) => if MentionsApiKey(e) then KeyRejected else ServiceFailed
  }

  lemma {:induction false} ToLowerAsciiConcat(a: string, b: string)
    ensures ToLowerAscii(a + b) == ToLowerAscii(a) + ToLowerAscii(b)
    decreases |a|
  {
    if a == [] {
      assert a + b == b;
    } else {
      assert (a + b)[0] == a[0];
      assert (a + b)[1..] == a[1..] + b;
      ToLowerAsciiConcat(a[1..], b);
    }
  }

  /** Text in front of a message cannot hide a mention of an API key. */
  lemma PrefixKeepsMention(prefix: string, message: string)
    requires MentionsApiKey(message)
    ensures MentionsApiKey(prefix + message)
  {
    ToLowerAsciiConcat(prefix, message);
    ContainsAfterPrefix(ToLowerAscii(prefix), ToLowerAscii(message), "api key");
  }

  /** When both models throw and the fallback's error mentions an API key, the user is told to check the key. */
  lemma FallbackKeyErrorIsKeyRejected(oracle: Gemini.Oracle, key: Option<string>, transcript: string, notes: string, consultationTime: string)
    requires !Gemini.KeyMissing(key)
    requires var req := Gemini.ChartRequest(transcript, notes, consultationTime);
      oracle(Gemini.Primary, req).Threw? && oracle(Gemini.Fallback, req).Threw?
      && MentionsApiKey(oracle(Gemini.Fallback, req).message)
    ensures GenerateChartStage(oracle, key, transcript, notes, consultationTime) == KeyRejected
  {
    var req := Gemini.ChartRequest(transcript, notes, consultationTime);
    var reply := Gemini.GenerateChart(oracle, key, transcript, notes, consultationTime).result;
    assert reply.Failure? && reply.error == Gemini.ChartFailure + oracle(Gemini.Fallback, req).message;
    PrefixKeepsMention(Gemini.ChartFailure, oracle(Gemini.Fallback, req).message);
  }

  // ---------------------------------------------------------------------------
  // processRecordedAudio
  // ---------------------------------------------------------------------------

  datatype Processed =
    | NoAudio
    | TranscriptionFailed(message: string)
    | NothingToAnalyze
    | Charted(transcript: string, proofreadError: Option<string>, chart: ChartOutcome)

  /**
   * `processRecordedAudio`: nothing to do without segments; a failed segment
   * ends the run; blank transcript and notes end it too; otherwise the
   * transcript is proof-read (a failure there only leaves the original in
   * place) and a chart is generated from it and the notes.
   */
  method ProcessRecordedAudio(oracle: Gemini.Oracle, key: Option<string>, segments: seq<Recorder.Segment>, notes: string, consultationTime: string)
    returns (r: Processed)
    ensures r == NoAudio <==> segments == []
    ensures segments != [] ==>
      var pass := Accumulate(GeminiTranscriber(oracle), segments, |segments|);
      && (r.TranscriptionFailed? <==> pass.result.Failure?)
      && (pass.result.Failure? ==> r.message == TranscriptionErrorPrefix + pass.result.error)
      && (r == NothingToAnalyze <==> pass.result.Success? && AllWhitespace(pass.result.value) && AllWhitespace(notes))
      && (r.Charted? ==>
            var (text, problem) := Proofread(oracle, key, pass.result.value);
            r == Charted(text, problem, GenerateChartStage(oracle, key, text, notes, consultationTime)))
  {
    if |segments| == 0 {
      return NoAudio;
    }
    var pass := TranscribeAll(GeminiTranscriber(oracle), segments);
    if pass.result.Failure? {
      return TranscriptionFailed(TranscriptionErrorPrefix + pass.result.error);
    }
    var full := pass.result.value;
    if Trim(full) == [] && Trim(notes) == [] {
      return NothingToAnalyze;
    }
    var (text, problem) := Proofread(oracle, key, full);
    var chart := GenerateChartStage(oracle, key, text, notes, consultationTime);
    r := Charted(text, problem, chart);
  }
}
