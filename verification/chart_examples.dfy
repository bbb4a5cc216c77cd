/**
 * Two concrete charts that show where the name pattern's edges lie: the
 * whitespace after the colon may cross a line break, and the display
 * extraction needs the check mark that the file-name builder does not.
 */
module ChartExamples {
  import opened Text
  import opened ChartText

  /** The whitespace after the colon may cross a line break. */
  lemma NameAcrossLineBreakExample(chart: string)
    requires chart == "✅ 환자명:\n Kim\nS"
    ensures ExtractPatientName(chart) == "Kim"
  {
    assert chart[0..6] == NameMarker;
    assert IsLineMatch(chart, NameMarker, LineCapture(0, 8, 11));
    assert chart[8..11] == "Kim";
    TrimOfPadded([], "Kim", []);
    assert [] + "Kim" + [] == "Kim";
  }

  /** Without the check mark the display extraction finds nothing. */
  lemma NoMarkerExample(chart: string)
    requires chart == "환자명: Kim"
    ensures ExtractPatientName(chart) == []
  {
    assert NameMarker[0] == '✅';
    AbsentHead(chart, NameMarker);
  }
}
