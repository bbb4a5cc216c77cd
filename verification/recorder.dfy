/**
 * The recording controller: one microphone stream, a `MediaRecorder` that is
 * stopped and restarted every two minutes so the recording arrives as a list
 * of audio segments, and the final stop that hands the segments over for
 * transcription. Each browser callback is one atomic step.
 */
module Recorder {
  import opened Wrappers

  newtype Byte = b: int | 0 <= b < 256

  /** Audio bytes delivered by one `dataavailable` event. */
  type Chunk = seq<Byte>

  /** A completed audio segment (a `Blob`). */
  datatype Segment = Segment(mimeType: string, data: seq<Byte>)

  const SegmentMimeType: string := "audio/webm"
  /** Period of the restart timer, in milliseconds. */
  const ChunkDurationMs: nat := 2 * 60 * 1000

  /** `MediaRecorder.state` (the recorder is never paused). */
  datatype RecorderState = Inactive | Recording

  /** Outcome of asking for the microphone. */
  datatype MicResult = Granted | Denied(error: MicError)
  /** What `getUserMedia` rejected with: a DOM error with a name, or something that is not an `Error`. */
  datatype MicError = DomError(name: string, message: string) | NotAnError

  datatype Session = Session(
    recorder: RecorderState,
    stopPending: bool,                  // `stop()` was called and `onstop` has not run yet
    timerArmed: bool,                   // the restart interval is set
    autoRestart: bool,                  // the auto-restart flag read by `onstop`
    buffer: seq<Chunk>,                 // chunks of the segment being recorded
    completed: seq<Segment>,            // segments finished so far
    isRecording: bool,                  // the UI's recording flag
    handedOff: Option<seq<Segment>>)    // what the final stop passed on for transcription

  const Idle: Session := Session(Inactive, false, false, false, [], [], false, None)

  datatype Event =
    | Toggle(keyPresent: bool, mic: MicResult)   // the record button
    | Data(chunk: Chunk)                         // `ondataavailable`
    | Tick                                       // the restart interval fires
    | RecorderStopped                            // `onstop`

  /** All bytes of a list of chunks, in order (the `Blob` built from them). */
  function Concat(chunks: seq<Chunk>): (r: seq<Byte>)
    ensures chunks == [] ==> r == []
  {
    if chunks == [] then [] else Concat(chunks[..|chunks| - 1]) + chunks[|chunks| - 1]
  }

  /** All bytes of a list of segments, in order. */
  function SegmentBytes(segs: seq<Segment>): seq<Byte> {
    if segs == [] then [] else SegmentBytes(segs[..|segs| - 1]) + segs[|segs| - 1].data
  }

  /** Every audio byte the session holds, finished or not. */
  function Audio(s: Session): seq<Byte> {
    SegmentBytes(s.completed) + Concat(s.buffer)
  }

  /** The record button pressed while idle: reset the buffers, then open the microphone. */
  function StartRecording(s: Session, mic: MicResult): (s': Session)
    requires !s.isRecording
    ensures s'.buffer == [] && s'.completed == [] && !s'.autoRestart
    ensures mic.Granted? ==> s'.recorder == Recording && s'.isRecording && s'.timerArmed && !s'.stopPending && s'.handedOff.None?
    ensures mic.Denied? ==> !s'.isRecording && s'.recorder == s.recorder && s'.timerArmed == s.timerArmed
  {
    var reset := s.(buffer := [], completed := [], autoRestart := false);
    match mic
    case Granted =>
      reset.(recorder := Recording, stopPending := false, timerArmed := true, isRecording := true, handedOff := None)
    case Denied(_) => reset
  }

  /** The record button pressed while recording: clear the timer and the flag, then stop. */
  function StopRecording(s: Session): (s': Session)
    ensures !s'.timerArmed && !s'.autoRestart && !s'.isRecording
    ensures s.recorder == Recording ==> s'.recorder == Inactive && s'.stopPending
    ensures s.recorder == Inactive ==> s'.recorder == Inactive && s'.stopPending == s.stopPending
    ensures s'.buffer == s.buffer && s'.completed == s.completed && s'.handedOff == s.handedOff
  {
    var cleared := s.(timerArmed := false, autoRestart := false, isRecording := false);
    if s.recorder == Recording then cleared.(recorder := Inactive, stopPending := true) else cleared
  }

  /** The interval fires: only a running recorder is stopped, with the auto-restart flag set. */
  function OnTick(s: Session): (s': Session)
    ensures s.timerArmed && s.recorder == Recording ==>
      s'.autoRestart && s'.recorder == Inactive && s'.stopPending
      && s'.buffer == s.buffer && s'.completed == s.completed && s'.isRecording == s.isRecording
    ensures !(s.timerArmed && s.recorder == Recording) ==> s' == s
  {
    if s.timerArmed && s.recorder == Recording then
      s.(autoRestart := true, recorder := Inactive, stopPending := true)
    else s
  }

  /**
   * `onstop`: the buffered chunks become a segment, kept only if non-empty; the
   * buffer is cleared; then the recorder restarts if the flag is set, and
   * otherwise the segments are handed over.
   */
  function OnRecorderStopped(s: Session): (s': Session)
    ensures !s.stopPending ==> s' == s
    ensures s.stopPending ==> s'.buffer == [] && !s'.stopPending
    ensures s.stopPending && |Concat(s.buffer)| > 0 ==>
      s'.completed == s.completed + [Segment(SegmentMimeType, Concat(s.buffer))]
    ensures s.stopPending && |Concat(s.buffer)| == 0 ==> s'.completed == s.completed
    ensures s.stopPending && s.autoRestart ==> s'.recorder == Recording && s'.handedOff == s.handedOff
    ensures s.stopPending && !s.autoRestart ==> s'.recorder == s.recorder && s'.handedOff == Some(s'.completed)
  {
    if !s.stopPending then s
    else
      var blob := Segment(SegmentMimeType, Concat(s.buffer));
      var completed := if |blob.data| > 0 then s.completed + [blob] else s.completed;
      var flushed := s.(buffer := [], completed := completed, stopPending := false);
      if s.autoRestart then flushed.(recorder := Recording)
      else flushed.(handedOff := Some(completed))
  }

  function Step(s: Session, e: Event): Session {
    match e
    case Toggle(keyPresent, mic) =>
      if !keyPresent then s
      else if s.isRecording then StopRecording(s)
      else StartRecording(s, mic)
    case Data(chunk) =>
      if |chunk| > 0 then s.(buffer := s.buffer + [chunk]) else s
    case Tick => OnTick(s)
    case RecorderStopped => OnRecorderStopped(s)
  }

  function Run(s: Session, events: seq<Event>): Session
    decreases |events|
  {
    if events == [] then s else Run(Step(s, events[0]), events[1..])
  }

  const MicErrorPrefix: string := "녹음 시작 실패: "
  /** The error names that get a fixed explanation instead of the error's own message. */
  const KnownMicErrors: set<string> := {"NotAllowedError", "NotFoundError", "SecurityError", "NotReadableError"}

  /** The user-facing message when the microphone cannot be opened. */
  function MicErrorMessage(e: MicError): (m: string)
    ensures |m| >= |MicErrorPrefix| && m[..|MicErrorPrefix|] == MicErrorPrefix
    ensures e.NotAnError? ==> m[|MicErrorPrefix|..] == "An unknown error occurred."
    ensures e.DomError? && e.name !in KnownMicErrors ==> m[|MicErrorPrefix|..] == e.message
  {
    var detail := match e
      case NotAnError => "An unknown error occurred."
      case DomError(name, message) =>
        if name == "NotAllowedError" then "마이크 사용 권한이 거부되었습니다. 브라우저 설정에서 권한을 허용해주세요."
        else if name == "NotFoundError" then "사용 가능한 마이크를 찾을 수 없습니다."
        else if name == "SecurityError" then "마이크 기능은 보안(HTTPS) 연결에서만 사용할 수 있습니다."
        else if name == "NotReadableError" then "하드웨어 오류로 인해 마이크를 읽을 수 없습니다."
        else message;
    MicErrorPrefix + detail
  }

  // ---------------------------------------------------------------------------
  // Invariants
  // ---------------------------------------------------------------------------

  /** What holds of every reachable session. */
  predicate Valid(s: Session) {
    && (forall i :: 0 <= i < |s.completed| ==> |s.completed[i].data| > 0 && s.completed[i].mimeType == SegmentMimeType)
    && (s.stopPending ==> s.recorder == Inactive)
    && s.timerArmed == s.isRecording
    && (s.isRecording ==> (s.recorder == Recording <==> !s.stopPending))
    && (s.autoRestart ==> s.isRecording)
    && (s.isRecording && s.stopPending ==> s.autoRestart)
    && (s.handedOff.Some? ==> !s.isRecording && s.recorder == Inactive && !s.stopPending)
  }

  lemma IdleValid()
    ensures Valid(Idle)
  {
  }

  lemma StepPreservesValid(s: Session, e: Event)
    requires Valid(s)
    ensures Valid(Step(s, e))
  {
    match e
    case Toggle(keyPresent, mic) =>
    case Data(chunk) =>
    case Tick =>
    case RecorderStopped =>
      var s' := OnRecorderStopped(s);
      if s.stopPending {
        var blob := Segment(SegmentMimeType, Concat(s.buffer));
        assert forall i :: 0 <= i < |s'.completed| ==> s'.completed[i] in s.completed + [blob];
      }
  }

  lemma {:induction false} RunPreservesValid(s: Session, events: seq<Event>)
    requires Valid(s)
    ensures Valid(Run(s, events))
    decreases |events|
  {
    if events != [] {
      StepPreservesValid(s, events[0]);
      RunPreservesValid(Step(s, events[0]), events[1..]);
    }
  }

  lemma {:induction false} RunAppend(s: Session, a: seq<Event>, b: seq<Event>)
    ensures Run(s, a + b) == Run(Run(s, a), b)
    decreases |a|
  {
    if a != [] {
      assert (a + b)[0] == a[0];
      assert (a + b)[1..] == a[1..] + b;
      RunAppend(Step(s, a[0]), a[1..], b);
    } else {
      assert a + b == b;
    }
  }

  lemma RunThree(s: Session, e1: Event, e2: Event, e3: Event)
    ensures Run(s, [e1, e2, e3]) == Step(Step(Step(s, e1), e2), e3)
  {
    var s1 := Step(s, e1);
    var s2 := Step(s1, e2);
    assert [e1, e2, e3][0] == e1 && [e1, e2, e3][1..] == [e2, e3];
    assert Run(s, [e1, e2, e3]) == Run(s1, [e2, e3]);
    assert [e2, e3][0] == e2 && [e2, e3][1..] == [e3];
    assert Run(s1, [e2, e3]) == Run(s2, [e3]);
    assert [e3][0] == e3 && [e3][1..] == [];
    assert Run(s2, [e3]) == Run(Step(s2, e3), []);
  }

  // ---------------------------------------------------------------------------
  // No audio is lost between segments
  // ---------------------------------------------------------------------------

  /** The audio an event delivers. */
  function Captured(e: Event): Chunk {
    if e.Data? then e.chunk else []
  }

  function CapturedAll(events: seq<Event>): seq<Byte> {
    if events == [] then [] else CapturedAll(events[..|events| - 1]) + Captured(events[|events| - 1])
  }

  /** Any step other than starting a new session keeps every captured byte, in order. */
  lemma StepKeepsAudio(s: Session, e: Event)
    requires !(e.Toggle? && e.keyPresent && !s.isRecording)
    ensures Audio(Step(s, e)) == Audio(s) + Captured(e)
  {
    match e
    case Toggle(_, _) =>
    case Data(chunk) =>
      if |chunk| > 0 {
        assert (s.buffer + [chunk])[..|s.buffer|] == s.buffer;
      }
    case Tick =>
    case RecorderStopped =>
      if s.stopPending {
        var blob := Segment(SegmentMimeType, Concat(s.buffer));
        if |blob.data| > 0 {
          assert (s.completed + [blob])[..|s.completed|] == s.completed;
        }
      }
  }

  /** Without the record button, the session's audio is what it held plus everything delivered since. */
  lemma {:induction false} RunKeepsAudio(s: Session, events: seq<Event>)
    requires forall i :: 0 <= i < |events| ==> !events[i].Toggle?
    ensures Audio(Run(s, events)) == Audio(s) + CapturedAll(events)
    decreases |events|
  {
    if events != [] {
      var init := events[..|events| - 1];
      var last := events[|events| - 1];
      assert events == init + [last];
      RunAppend(s, init, [last]);
      RunKeepsAudio(s, init);
      StepKeepsAudio(Run(s, init), last);
      assert Run(Run(s, init), [last]) == Step(Run(s, init), last);
    }
  }

  // ---------------------------------------------------------------------------
  // One segment per elapsed interval, plus the final one
  // ---------------------------------------------------------------------------

  /** One full interval per chunk: audio arrives, the timer fires, the recorder reports the stop. */
  function Intervals(chunks: seq<Chunk>): seq<Event> {
    if chunks == [] then []
    else Intervals(chunks[..|chunks| - 1]) + [Data(chunks[|chunks| - 1]), Tick, RecorderStopped]
  }

  function SegmentsOf(chunks: seq<Chunk>): (r: seq<Segment>)
    ensures |r| == |chunks|
    ensures forall i :: 0 <= i < |chunks| ==> r[i] == Segment(SegmentMimeType, chunks[i])
  {
    if chunks == [] then [] else SegmentsOf(chunks[..|chunks| - 1]) + [Segment(SegmentMimeType, chunks[|chunks| - 1])]
  }

  /** A recorder that is running with an empty buffer. */
  predicate RunningEmpty(s: Session) {
    Valid(s) && s.isRecording && s.recorder == Recording && !s.stopPending && s.buffer == [] && s.handedOff.None?
  }

  /** One interval with audio: a segment is added and the recorder runs again, flag set. */
  lemma OneInterval(m: Session, c: Chunk)
    requires RunningEmpty(m) && |c| > 0
    ensures Run(m, [Data(c), Tick, RecorderStopped])
      == m.(autoRestart := true, completed := m.completed + [Segment(SegmentMimeType, c)])
  {
    RunThree(m, Data(c), Tick, RecorderStopped);
    var m1 := Step(m, Data(c));
    assert m1 == m.(buffer := [c]);
    assert Concat([c]) == c by {
      assert [c][..0] == [];
    }
    var m2 := Step(m1, Tick);
    assert m2 == m1.(autoRestart := true, recorder := Inactive, stopPending := true);
  }

  /** The user stops a running recorder after one last stretch of audio. */
  lemma FinalStop(m: Session, last: Chunk)
    requires RunningEmpty(m)
    ensures Run(m, [Data(last), Toggle(true, Granted), RecorderStopped]).handedOff ==
      Some(m.completed + if |last| > 0 then [Segment(SegmentMimeType, last)] else [])
  {
    RunThree(m, Data(last), Toggle(true, Granted), RecorderStopped);
    var m1 := Step(m, Data(last));
    assert m1.buffer == if |last| > 0 then [last] else [];
    assert Concat([last]) == last by {
      assert [last][..0] == [];
    }
    var m2 := Step(m1, Toggle(true, Granted));
    assert m2.stopPending && !m2.autoRestart && m2.buffer == m1.buffer && m2.completed == m.completed;
    var m3 := Step(m2, RecorderStopped);
    if |last| > 0 {
      assert m3.completed == m.completed + [Segment(SegmentMimeType, last)];
    } else {
      assert Concat(m2.buffer) == [];
      assert m3.completed == m.completed + [];
    }
  }

  /** Each elapsed interval whose audio is non-empty adds exactly one segment and restarts the recorder. */
  lemma {:induction false} IntervalsAddSegments(s: Session, chunks: seq<Chunk>)
    requires RunningEmpty(s)
    requires forall i :: 0 <= i < |chunks| ==> |chunks[i]| > 0
    ensures RunningEmpty(Run(s, Intervals(chunks)))
    ensures Run(s, Intervals(chunks)).completed == s.completed + SegmentsOf(chunks)
    decreases |chunks|
  {
    if chunks != [] {
      var init := chunks[..|chunks| - 1];
      var c := chunks[|chunks| - 1];
      IntervalsAddSegments(s, init);
      var m := Run(s, Intervals(init));
      RunAppend(s, Intervals(init), [Data(c), Tick, RecorderStopped]);
      OneInterval(m, c);
      assert SegmentsOf(chunks) == SegmentsOf(init) + [Segment(SegmentMimeType, c)];
    } else {
      assert SegmentsOf(chunks) == [];
    }
  }

  /**
   * A session that runs through N full intervals and is then stopped by the user
   * hands over N + 1 segments (N when the last stretch captured nothing), in
   * recording order; no segment is empty.
   */
  lemma SessionSegments(chunks: seq<Chunk>, last: Chunk)
    requires forall i :: 0 <= i < |chunks| ==> |chunks[i]| > 0
    ensures var events := [Toggle(true, Granted)] + Intervals(chunks) + [Data(last), Toggle(true, Granted), RecorderStopped];
      Run(Idle, events).handedOff ==
        Some(SegmentsOf(chunks) + if |last| > 0 then [Segment(SegmentMimeType, last)] else [])
  {
    var s0 := Step(Idle, Toggle(true, Granted));
    assert RunningEmpty(s0);
    IntervalsAddSegments(s0, chunks);
    var m := Run(s0, Intervals(chunks));
    var tail := [Data(last), Toggle(true, Granted), RecorderStopped];
    RunAppend(Idle, [Toggle(true, Granted)] + Intervals(chunks), tail);
    RunAppend(Idle, [Toggle(true, Granted)], Intervals(chunks));
    assert Run(Idle, [Toggle(true, Granted)]) == s0 by {
      assert [Toggle(true, Granted)][1..] == [];
    }
    FinalStop(m, last);
    assert s0.completed == [];
    assert m.completed == SegmentsOf(chunks);
    assert Run(Idle, [Toggle(true, Granted)] + Intervals(chunks)) == m;
  }
}
