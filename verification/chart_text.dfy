/**
 * Fields derived from the generated SOAP chart text: the patient name and the
 * one-line summary (both read with a regular expression), the in-place edit of
 * the patient name, and the download file name.
 *
 * The two searching regular expressions, `marker\s*(.*)` and the summary
 * pattern, are modelled twice: a predicate that states what a leftmost
 * JavaScript match is (greedy `\s*` and `.*`, lazy `[\s\S]*?`), and a scanner
 * that finds it; lemmas tie the two together. The anchored `^\[(.*)\]$` is
 * stated against a predicate of its own, and the character class of the
 * file-name sanitiser pointwise.
 */
module ChartText {
  import opened Wrappers
  import opened Text

  /** Marker of the patient-name line, as matched by the display extraction and by the edit. */
  const NameMarker: string := "✅ 환자명:"
  /** Marker used by the file-name builder: the same line without the check mark. */
  const LooseNameMarker: string := "환자명:"
  const SummaryOpen: string := "✅ 요약"
  const SummaryClose: string := "✅확인사항"
  /** Placeholder name ("unconfirmed") used when the chart names no patient. */
  const Unconfirmed: string := "미확인"

  // ---------------------------------------------------------------------------
  // `marker\s*(.*)`
  // ---------------------------------------------------------------------------

  /** A match of `marker\s*(.*)`: the marker at `pos`, the capture group is `[start, end)`. */
  datatype LineCapture = LineCapture(pos: nat, start: nat, end: nat)

  /**
   * `c` is the match JavaScript reports for `marker\s*(.*)` in `s`: the leftmost
   * occurrence of the marker, then the longest whitespace run (which may cross
   * line breaks), then the rest of that line.
   */
  predicate IsLineMatch(s: string, marker: string, c: LineCapture) {
    && OccursAt(s, marker, c.pos)
    && (forall k :: 0 <= k < c.pos ==> !OccursAt(s, marker, k))
    && c.pos + |marker| <= c.start <= c.end <= |s|
    && (forall k :: c.pos + |marker| <= k < c.start ==> IsWhitespace(s[k]))
    && (c.start == |s| || !IsWhitespace(s[c.start]))
    && (forall k :: c.start <= k < c.end ==> !IsLineTerminator(s[k]))
    && (c.end == |s| || IsLineTerminator(s[c.end]))
  }

  function MatchLine(s: string, marker: string): (r: Option<LineCapture>)
    ensures r.Some? ==> IsLineMatch(s, marker, r.value)
    ensures r.None? <==> forall k :: !OccursAt(s, marker, k)
  {
    match IndexOfFrom(s, marker, 0)
    case None => None
    case Some(p) =>
      var a := SkipWhitespace(s, p + |marker|);
      Some(LineCapture(p, a, LineEnd(s, a)))
  }

  /** The match of `marker\s*(.*)` is unique, and it is what the scanner finds. */
  lemma LineMatchUnique(s: string, marker: string, c: LineCapture)
    requires IsLineMatch(s, marker, c)
    ensures MatchLine(s, marker) == Some(c)
  {
    IndexOfFromFirst(s, marker, 0, c.pos);
    assert IndexOfFrom(s, marker, 0) == Some(c.pos);
    SkipWhitespaceUnique(s, c.pos + |marker|, c.start);
    var a := SkipWhitespace(s, c.pos + |marker|);
    assert a == c.start;
    LineEndUnique(s, c.start, c.end);
    assert LineEnd(s, a) == c.end;
  }

  lemma LineMatchOnly(s: string, marker: string)
    ensures forall c :: IsLineMatch(s, marker, c) ==> MatchLine(s, marker) == Some(c)
  {
    forall c | IsLineMatch(s, marker, c) ensures MatchLine(s, marker) == Some(c) {
      LineMatchUnique(s, marker, c);
    }
  }

  /** The trimmed capture of `marker\s*(.*)`, or `""` when the marker is absent. */
  function ExtractAfter(s: string, marker: string): (r: string)
    ensures forall c :: IsLineMatch(s, marker, c) ==> r == Trim(s[c.start..c.end])
    ensures (forall k :: !OccursAt(s, marker, k)) ==> r == []
  {
    match MatchLine(s, marker)
    case None => []
    case Some(c) =>
      LineMatchOnly(s, marker);
      Trim(s[c.start..c.end])
  }

  /**
   * The patient name shown beside the chart: the trimmed rest of the line after
   * the first `✅ 환자명:` and any whitespace; empty when the chart is empty or
   * has no such marker.
   */
  function ExtractPatientName(chart: string): (r: string)
    ensures IsTrimmed(r)
    ensures forall c :: IsLineMatch(chart, NameMarker, c) ==> r == Trim(chart[c.start..c.end])
    ensures (forall k :: !OccursAt(chart, NameMarker, k)) ==> r == []
    ensures NoLineTerminator(r)
  {
    if chart == [] then []
    else
      ExtractAfterOneLine(chart, NameMarker);
      ExtractAfter(chart, NameMarker)
  }

  /** The capture never extends past the end of its line. */
  lemma ExtractAfterOneLine(s: string, marker: string)
    ensures NoLineTerminator(ExtractAfter(s, marker))
  {
    match MatchLine(s, marker)
    case None =>
    case Some(c) =>
      var line := s[c.start..c.end];
      assert NoLineTerminator(line);
      TrimIsSlice(line);
      var i, j :| 0 <= i <= j <= |line| && Trim(line) == line[i..j];
      assert ExtractAfter(s, marker) == line[i..j];
  }

  /** A trimmed string is a slice of its input. */
  lemma TrimIsSlice(s: string)
    ensures exists i, j :: 0 <= i <= j <= |s| && Trim(s) == s[i..j]
  {
    var i := SkipWhitespace(s, 0);
    var j := SkipWhitespaceBack(s, |s|);
    if j <= i { assert Trim(s) == s[0..0]; } else { assert Trim(s) == s[i..j]; }
  }

  // ---------------------------------------------------------------------------
  // `✅ 요약\s*-\s*([\s\S]*?)✅확인사항`
  // ---------------------------------------------------------------------------

  /** A candidate summary match: opening marker at `pos`, hyphen at `dash`, capture `[start, end)`. */
  datatype SummaryCapture = SummaryCapture(pos: nat, dash: nat, start: nat, end: nat)

  /** The summary pattern matches at `c.pos` with these positions (greedy `\s*`, lazy capture). */
  predicate IsSummaryMatchAt(s: string, c: SummaryCapture) {
    && OccursAt(s, SummaryOpen, c.pos)
    && c.pos + |SummaryOpen| <= c.dash < c.start <= c.end
    && OccursAt(s, SummaryClose, c.end)
    && (forall k :: c.pos + |SummaryOpen| <= k < c.dash ==> IsWhitespace(s[k]))
    && s[c.dash] == '-'
    && (forall k :: c.dash < k < c.start ==> IsWhitespace(s[k]))
    && (c.start == |s| || !IsWhitespace(s[c.start]))
    && (forall k :: c.start <= k < c.end ==> !OccursAt(s, SummaryClose, k))
  }

  /** The leftmost summary match, which is what JavaScript reports. */
  ghost predicate IsSummaryMatch(s: string, c: SummaryCapture) {
    IsSummaryMatchAt(s, c) && forall c': SummaryCapture :: c'.pos < c.pos ==> !IsSummaryMatchAt(s, c')
  }

  /** The leftmost summary match whose opening marker is at or after `from`. */
  function ScanSummary(s: string, from: nat): (r: Option<SummaryCapture>)
    ensures r.Some? ==> IsSummaryMatchAt(s, r.value) && from <= r.value.pos
    ensures r.Some? ==> forall c': SummaryCapture :: from <= c'.pos < r.value.pos ==> !IsSummaryMatchAt(s, c')
    ensures r.None? ==> forall c': SummaryCapture :: from <= c'.pos ==> !IsSummaryMatchAt(s, c')
    decreases |s| - from
  {
    match IndexOfFrom(s, SummaryOpen, from)
    case None =>
      NoSummaryFrom(s, from);
      None
    case Some(p) =>
      NoSummaryBefore(s, from, p);
      var h := SkipWhitespace(s, p + |SummaryOpen|);
      if h < |s| && s[h] == '-' then
        var a := SkipWhitespace(s, h + 1);
        match IndexOfFrom(s, SummaryClose, a)
        case Some(b) =>
          Some(SummaryCapture(p, h, a, b))
        case None =>
          NoSummaryAt(s, p, a);
          ScanSummary(s, p + 1)
      else
        NoSummaryAt(s, p, 0);
        ScanSummary(s, p + 1)
  }

  /** No match starts before the next opening marker. */
  lemma NoSummaryBefore(s: string, from: nat, p: nat)
    requires forall k :: from <= k < p ==> !OccursAt(s, SummaryOpen, k)
    ensures forall c': SummaryCapture :: from <= c'.pos < p ==> !IsSummaryMatchAt(s, c')
  {
  }

  /** No match starts where no opening marker follows. */
  lemma NoSummaryFrom(s: string, from: nat)
    requires forall k :: from <= k ==> !OccursAt(s, SummaryOpen, k)
    ensures forall c': SummaryCapture :: from <= c'.pos ==> !IsSummaryMatchAt(s, c')
  {
  }

  /** Why a start position where the pattern fails can be skipped. */
  lemma NoSummaryAt(s: string, p: nat, a: nat)
    requires OccursAt(s, SummaryOpen, p)
    requires
      var h := SkipWhitespace(s, p + |SummaryOpen|);
      (h < |s| && s[h] == '-') ==>
        (a == SkipWhitespace(s, h + 1) && IndexOfFrom(s, SummaryClose, a).None?)
    ensures forall c': SummaryCapture :: c'.pos == p ==> !IsSummaryMatchAt(s, c')
  {
    forall c': SummaryCapture | c'.pos == p && IsSummaryMatchAt(s, c') ensures false {
      SkipWhitespaceUnique(s, p + |SummaryOpen|, c'.dash);
    }
  }

  /** The leftmost summary match is the one the scanner found. */
  lemma SummaryMatchOnly(s: string, c: SummaryCapture)
    requires ScanSummary(s, 0) == Some(c)
    ensures forall c' :: IsSummaryMatch(s, c') ==> c' == c
  {
    forall c' | IsSummaryMatch(s, c') ensures c' == c {
      assert c'.pos == c.pos;
      SkipWhitespaceUnique(s, c.pos + |SummaryOpen|, c'.dash);
      SkipWhitespaceUnique(s, c.pos + |SummaryOpen|, c.dash);
      SkipWhitespaceUnique(s, c.dash + 1, c'.start);
      SkipWhitespaceUnique(s, c.dash + 1, c.start);
      IndexOfFromFirst(s, SummaryClose, c.start, c'.end);
      IndexOfFromFirst(s, SummaryClose, c.start, c.end);
    }
  }

  /**
   * The one-line summary: the trimmed text between `✅ 요약`, whitespace, `-`,
   * whitespace and the first following `✅확인사항`; empty when nothing matches.
   */
  function ExtractSummary(chart: string): (r: string)
    ensures IsTrimmed(r)
    ensures forall c :: IsSummaryMatch(chart, c) ==> r == Trim(chart[c.start..c.end])
    ensures (forall c :: !IsSummaryMatchAt(chart, c)) ==> r == []
  {
    if chart == [] then []
    else
      match ScanSummary(chart, 0)
      case None => []
      case Some(c) =>
        SummaryMatchOnly(chart, c);
        Trim(chart[c.start..c.end])
  }

  /** The two fields derived from the chart whenever it changes: patient name and summary. */
  datatype ChartFields = ChartFields(patientName: string, summary: string)

  /**
   * The fields recomputed whenever the chart changes: both empty for an empty
   * chart; otherwise the trimmed one-line capture of the leftmost name match
   * and the trimmed capture of the leftmost summary match, each empty when its
   * pattern does not match.
   */
  function DeriveFields(chart: string): (f: ChartFields)
    ensures chart == [] ==> f == ChartFields([], [])
    ensures IsTrimmed(f.patientName) && NoLineTerminator(f.patientName) && IsTrimmed(f.summary)
    ensures forall c :: IsLineMatch(chart, NameMarker, c) ==> f.patientName == Trim(chart[c.start..c.end])
    ensures (forall k :: !OccursAt(chart, NameMarker, k)) ==> f.patientName == []
    ensures forall c :: IsSummaryMatch(chart, c) ==> f.summary == Trim(chart[c.start..c.end])
    ensures (forall c :: !IsSummaryMatchAt(chart, c)) ==> f.summary == []
  {
    if chart == [] then ChartFields([], [])
    else ChartFields(ExtractPatientName(chart), ExtractSummary(chart))
  }

  // ---------------------------------------------------------------------------
  // Editing the patient name
  // ---------------------------------------------------------------------------

  /** `chart.replace(/(✅ 환자명:\s*)(.*)/, '$1' + value)`: replace the first name line's value. */
  function ReplaceNameValue(chart: string, value: string): (r: string)
    ensures (forall k :: !OccursAt(chart, NameMarker, k)) ==> r == chart
    ensures forall c :: IsLineMatch(chart, NameMarker, c) ==> r == chart[..c.start] + value + chart[c.end..]
  {
    match MatchLine(chart, NameMarker)
    case None => chart
    case Some(c) =>
      LineMatchOnly(chart, NameMarker);
      chart[..c.start] + value + chart[c.end..]
  }

  /**
   * Finishing an edit of the patient name: the chart is rewritten only when the
   * trimmed edit is non-empty and the raw edit differs from the current name,
   * and a chart without a name line stays as it is. When the rewrite happens on
   * a chart with a name line, the name read back from the new chart is the
   * trimmed edit.
   */
  function FinishNameEdit(chart: string, currentName: string, edited: string): (r: string)
    ensures Trim(edited) == [] || edited == currentName ==> r == chart
    ensures (forall k :: !OccursAt(chart, NameMarker, k)) ==> r == chart
    ensures Trim(edited) != [] && edited != currentName && NoLineTerminator(edited) && (exists k :: OccursAt(chart, NameMarker, k)) ==>
      ExtractPatientName(r) == Trim(edited)
  {
    if Trim(edited) != [] && edited != currentName then
      EditedNameRoundTrip(chart, edited);
      ReplaceNameValue(chart, Trim(edited))
    else chart
  }

  /** Writing a one-line edit's trimmed text into a chart with a name line makes it the displayed name. */
  lemma EditedNameRoundTrip(chart: string, edited: string)
    requires Trim(edited) != []
    ensures NoLineTerminator(edited) && (exists k :: OccursAt(chart, NameMarker, k)) ==>
      ExtractPatientName(ReplaceNameValue(chart, Trim(edited))) == Trim(edited)
  {
    if NoLineTerminator(edited) && exists k :: OccursAt(chart, NameMarker, k) {
      TrimIsSlice(edited);
      ReplaceNameRoundTrip(chart, Trim(edited));
    }
  }

  /** After a rewrite, the name read back from the chart is the trimmed edit. */
  lemma {:induction false} ReplaceNameRoundTrip(chart: string, value: string)
    requires exists k :: OccursAt(chart, NameMarker, k)
    requires value != [] && IsTrimmed(value) && NoLineTerminator(value)
    ensures ExtractPatientName(ReplaceNameValue(chart, value)) == value
  {
    var c := MatchLine(chart, NameMarker).value;
    var t := chart[..c.start] + value + chart[c.end..];
    assert ReplaceNameValue(chart, value) == t;
    var c' := LineCapture(c.pos, c.start, c.start + |value|);
    SplicedLineMatch(chart, c, value);
    NameOfMatch(t, c');
    TrimOfPadded([], value, []);
    assert [] + value + [] == value;
  }

  /** The displayed name is the trimmed capture of the match. */
  lemma NameOfMatch(chart: string, c: LineCapture)
    requires IsLineMatch(chart, NameMarker, c)
    ensures ExtractPatientName(chart) == Trim(chart[c.start..c.end])
  {
  }

  /** Splicing a one-line trimmed value into the capture yields a match whose capture is that value. */
  lemma SplicedLineMatch(chart: string, c: LineCapture, value: string)
    requires IsLineMatch(chart, NameMarker, c)
    requires value != [] && IsTrimmed(value) && NoLineTerminator(value)
    ensures IsLineMatch(chart[..c.start] + value + chart[c.end..], NameMarker, LineCapture(c.pos, c.start, c.start + |value|))
    ensures (chart[..c.start] + value + chart[c.end..])[c.start..c.start + |value|] == value
  {
    var front := chart[..c.start];
    var back := chart[c.end..];
    var t := front + value + back;
    SliceConcat3(front, value, back);
    assert t[..c.start] == chart[..c.start];
    forall k | 0 <= k <= c.pos ensures OccursAt(t, NameMarker, k) <==> OccursAt(chart, NameMarker, k) {
      OccursInSharedPrefix(chart, t, NameMarker, c.start, k);
    }
    forall k | c.pos + |NameMarker| <= k < c.start ensures IsWhitespace(t[k]) {
      assert t[k] == front[k] == chart[k];
    }
    assert t[c.start] == value[0];
    forall k | c.start <= k < c.start + |value| ensures !IsLineTerminator(t[k]) {
      assert t[k] == value[k - c.start];
    }
    if c.start + |value| < |t| {
      assert t[c.start + |value|] == back[0] == chart[c.end];
    }
  }

  /** A rewrite keeps everything before the value and everything after the name line. */
  lemma ReplaceNameFrame(chart: string, value: string)
    requires exists k :: OccursAt(chart, NameMarker, k)
    ensures var r := ReplaceNameValue(chart, value);
      exists c :: IsLineMatch(chart, NameMarker, c) && r[..c.start] == chart[..c.start] && r[c.start + |value|..] == chart[c.end..]
  {
    var m := MatchLine(chart, NameMarker);
    var c := m.value;
    var r := ReplaceNameValue(chart, value);
    assert r == chart[..c.start] + value + chart[c.end..];
    assert r[..c.start] == chart[..c.start];
    assert r[c.start + |value|..] == chart[c.end..];
  }

  // ---------------------------------------------------------------------------
  // Download file name
  // ---------------------------------------------------------------------------

  /** A local wall-clock reading, month counted from 1. */
  datatype DateTime = DateTime(year: nat, month: nat, day: nat, hour: nat, minute: nat) {
    predicate Valid() {
      1 <= month <= 12 && 1 <= day <= 31 && hour < 24 && minute < 60
    }
  }

  /** `${year}${MM}${DD}_${HH}${mm}`. */
  function Timestamp(t: DateTime): (r: string)
    requires t.Valid()
    ensures ParseTimestamp(r) == Some(t)
    ensures |r| == |NatToString(t.year)| + 9
  {
    var y := NatToString(t.year);
    var r := y + TwoDigits(t.month) + TwoDigits(t.day) + "_" + TwoDigits(t.hour) + TwoDigits(t.minute);
    var n := |r|;
    assert r[..n - 9] == y;
    assert r[n - 9..n - 7] == TwoDigits(t.month);
    assert r[n - 7..n - 5] == TwoDigits(t.day);
    assert r[n - 4..n - 2] == TwoDigits(t.hour);
    assert r[n - 2..] == TwoDigits(t.minute);
    NatToStringRoundTrip(t.year);
    r
  }

  /** Reads a timestamp back: year digits, then fixed-width `MMDD_HHmm`. */
  function ParseTimestamp(s: string): Option<DateTime> {
    var n := |s|;
    if n < 10 || s[n - 5] != '_' then None
    else
      var y := s[..n - 9];
      var mo := s[n - 9..n - 7];
      var d := s[n - 7..n - 5];
      var h := s[n - 4..n - 2];
      var mi := s[n - 2..];
      if AllDigits(y) && AllDigits(mo) && AllDigits(d) && AllDigits(h) && AllDigits(mi) then
        Some(DateTime(DigitsValue(y), DigitsValue(mo), DigitsValue(d), DigitsValue(h), DigitsValue(mi)))
      else None
  }

  /** The characters `[\\?%*:"|<>./]` that the file name may not contain. */
  predicate IsUnsafeFileChar(c: char) {
    c == '\\' || c == '?' || c == '%' || c == '*' || c == ':' || c == '"'
    || c == '|' || c == '<' || c == '>' || c == '.' || c == '/'
  }

  /** `s.replace(/[\\?%*:"|<>./]/g, '_')`. */
  function Sanitize(s: string): (r: string)
    ensures |r| == |s|
    ensures forall k :: 0 <= k < |s| ==> r[k] == if IsUnsafeFileChar(s[k]) then '_' else s[k]
    ensures SafeFileName(r)
  {
    if s == [] then [] else [if IsUnsafeFileChar(s[0]) then '_' else s[0]] + Sanitize(s[1..])
  }

  /** `s` matches `^\[(.*)\]$` with capture `x`: one bracket at each end and no line break between. */
  predicate IsBracketed(s: string, x: string) {
    s == ['['] + x + [']'] && NoLineTerminator(x)
  }

  /** The capture of a bracketed string is what lies between its first and last characters. */
  lemma BracketedInner(s: string, x: string)
    requires s == ['['] + x + [']']
    ensures |s| >= 2 && s[0] == '[' && s[|s| - 1] == ']' && s[1..|s| - 1] == x
  {
  }

  /** `s.replace(/^\[(.*)\]$/, '$1')`: the capture when the whole string matches, else `s` unchanged. */
  function StripBrackets(s: string): (r: string)
    ensures forall x :: IsBracketed(s, x) ==> r == x
    ensures (forall x :: !IsBracketed(s, x)) ==> r == s
  {
    forall x | IsBracketed(s, x) ensures x == s[1..|s| - 1] {
      BracketedInner(s, x);
    }
    if |s| >= 2 && s[0] == '[' && s[|s| - 1] == ']' && NoLineTerminator(s[1..|s| - 1]) then
      assert s == ['['] + s[1..|s| - 1] + [']'];
      assert IsBracketed(s, s[1..|s| - 1]);
      s[1..|s| - 1]
    else s
  }

  /** `match && match[1] ? match[1].trim() : '미확인'`: the trimmed loose-marker capture, or the placeholder. */
  function RawName(chart: string): string {
    match MatchLine(chart, LooseNameMarker)
    case Some(c) => if c.start < c.end then Trim(chart[c.start..c.end]) else Unconfirmed
    case None => Unconfirmed
  }

  lemma UnconfirmedIsTrimmed()
    ensures Unconfirmed != [] && IsTrimmed(Unconfirmed)
  {
  }

  /** `name || '미확인'`. */
  function OrUnconfirmed(name: string): (r: string)
    requires IsTrimmed(name)
    ensures r != [] && IsTrimmed(r)
  {
    UnconfirmedIsTrimmed();
    if name == [] then Unconfirmed else name
  }

  /** The patient name before sanitising: the raw name, unbracketed and trimmed, or the placeholder. */
  function FileBaseName(chart: string): (r: string)
    ensures r != [] && IsTrimmed(r)
  {
    OrUnconfirmed(Trim(StripBrackets(RawName(chart))))
  }

  /** The raw name is the trimmed capture of `환자명:\s*(.*)` when it is non-empty, and the placeholder otherwise. */
  lemma RawNameOfMatch(chart: string)
    ensures (forall k :: !OccursAt(chart, LooseNameMarker, k)) ==> RawName(chart) == Unconfirmed
    ensures forall c :: IsLineMatch(chart, LooseNameMarker, c) ==>
      RawName(chart) == if c.start < c.end then Trim(chart[c.start..c.end]) else Unconfirmed
  {
    LineMatchOnly(chart, LooseNameMarker);
  }

  /**
   * The file's patient name is the placeholder when the chart has no `환자명:`
   * or nothing after it on its line, and otherwise the trimmed capture with one
   * pair of surrounding brackets dropped (the placeholder if nothing is left).
   */
  lemma FileBaseNameOfMatch(chart: string)
    ensures (forall k :: !OccursAt(chart, LooseNameMarker, k)) ==> FileBaseName(chart) == Unconfirmed
    ensures forall c :: IsLineMatch(chart, LooseNameMarker, c) && c.start == c.end ==> FileBaseName(chart) == Unconfirmed
    ensures forall c :: IsLineMatch(chart, LooseNameMarker, c) && c.start < c.end ==>
      FileBaseName(chart) == (var inner := Trim(StripBrackets(Trim(chart[c.start..c.end]))); if inner == [] then Unconfirmed else inner)
  {
    RawNameOfMatch(chart);
    if RawName(chart) == Unconfirmed {
      UnbracketUnconfirmed();
    }
  }

  /** The placeholder has no brackets to drop. */
  lemma UnbracketUnconfirmed()
    ensures Trim(StripBrackets(Unconfirmed)) == Unconfirmed
  {
    UnconfirmedIsTrimmed();
    TrimOfPadded([], Unconfirmed, []);
    assert [] + Unconfirmed + [] == Unconfirmed;
  }

  /** No character of `s` is one the file name may not contain. */
  predicate SafeFileName(s: string) {
    forall k :: 0 <= k < |s| ==> !IsUnsafeFileChar(s[k])
  }

  /** The patient-name part of the file name: never empty, never an unsafe character. */
  function FilePatientName(chart: string): (r: string)
    ensures r != [] && SafeFileName(r)
  {
    var base := FileBaseName(chart);
    var r := Sanitize(base);
    assert |r| == |base| > 0;
    r
  }

  /** `${prefix}_${timestamp}_${patientName}.${extension}`. */
  function FileName(prefix: string, extension: string, now: DateTime, chart: string): (r: string)
    requires now.Valid()
    ensures ParseFileName(prefix, extension, r) == Some((now, FilePatientName(chart)))
  {
    var r := prefix + "_" + Timestamp(now) + "_" + FilePatientName(chart) + "." + extension;
    FileNameParses(prefix, extension, now, chart, r);
    r
  }

  /** Reads a file name back, given its prefix and extension: the timestamp and the patient name. */
  function ParseFileName(prefix: string, extension: string, f: string): Option<(DateTime, string)> {
    var head := prefix + "_";
    var tail := "." + extension;
    if |f| < |head| + |tail| || f[..|head|] != head || f[|f| - |tail|..] != tail then None
    else
      var mid := f[|head|..|f| - |tail|];
      match IndexOfFrom(mid, "_", 0)
      case None => None
      case Some(u) =>
        if u + 5 >= |mid| || mid[u + 5] != '_' then None
        else
          match ParseTimestamp(mid[..u + 5])
          case None => None
          case Some(t) => Some((t, mid[u + 6..]))
  }

  /** The timestamp is digits, then `_` at a fixed distance from its end, then digits. */
  lemma TimestampShape(t: DateTime)
    requires t.Valid()
    ensures var ts := Timestamp(t); var u := |NatToString(t.year)| + 4;
      |ts| == u + 5 && ts[u] == '_' && forall k :: 0 <= k < u ==> IsDigit(ts[k])
  {
    var y := NatToString(t.year);
    var ts := Timestamp(t);
    var md := TwoDigits(t.month) + TwoDigits(t.day);
    assert ts == (y + md) + "_" + TwoDigits(t.hour) + TwoDigits(t.minute);
    assert AllDigits(y + md);
  }

  lemma FileNameParses(prefix: string, extension: string, now: DateTime, chart: string, r: string)
    requires now.Valid()
    requires r == prefix + "_" + Timestamp(now) + "_" + FilePatientName(chart) + "." + extension
    ensures ParseFileName(prefix, extension, r) == Some((now, FilePatientName(chart)))
  {
    TimestampShape(now);
    ParseAssembledName(prefix, extension, Timestamp(now), FilePatientName(chart), now, |NatToString(now.year)| + 4);
  }

  lemma ParseAssembledName(prefix: string, extension: string, ts: string, name: string, t: DateTime, u: nat)
    requires ParseTimestamp(ts) == Some(t)
    requires |ts| == u + 5 && ts[u] == '_' && forall k :: 0 <= k < u ==> IsDigit(ts[k])
    ensures ParseFileName(prefix, extension, prefix + "_" + ts + "_" + name + "." + extension) == Some((t, name))
  {
    var r := prefix + "_" + ts + "_" + name + "." + extension;
    var head := prefix + "_";
    var tail := "." + extension;
    var mid := ts + "_" + name;
    assert r == head + mid + tail;
    SliceConcat3(head, mid, tail);
    SliceConcat3(ts, "_", name);
    FirstUnderscore(mid, u);
  }

  lemma FirstUnderscore(s: string, u: nat)
    requires u < |s| && s[u] == '_' && forall k :: 0 <= k < u ==> IsDigit(s[k])
    ensures IndexOfFrom(s, "_", 0) == Some(u)
  {
    assert OccursAt(s, "_", u) by { assert s[u..u + 1] == [s[u]]; }
    forall k | 0 <= k < u ensures !OccursAt(s, "_", k) {
      assert s[k..k + 1] == [s[k]];
    }
    IndexOfFromFirst(s, "_", 0, u);
  }
}
