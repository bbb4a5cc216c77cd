// The periodic check of the Google access token: the stored expiry time is
// compared with the current time, and a silent refresh or a re-authentication
// is requested.

module TokenRefresh {
  import opened Wrappers
  import opened Text
  import opened JsNumber

  /** Five minutes, in milliseconds. */
  const RefreshThresholdMs: int := 5 * 60 * 1000

  /** One minute, in milliseconds: how often the check runs. */
  const CheckIntervalMs: int := 60 * 1000

  /** What the check asks of the token client, by the `prompt` option it passes. */
  datatype TokenAction = NoAction | RequestToken(prompt: string)

  /** How the token stands at a given time. */
  datatype TokenState = Unknown | Valid | ExpiringSoon | Expired

  /**
   * The token's state from the stored text and the time. This is the same
   * decision the check makes, classified by state instead of by action; what
   * it adds is the timing facts proved about it (`StateMonotone`,
   * `CheckCatchesExpiry`).
   */
  function StateOf(stored: Option<string>, nowMs: int): TokenState {
    if stored.None? || stored.value == [] || ParseInt(stored.value).NaN? then Unknown
    else
      var remaining := ParseInt(stored.value).v - nowMs;
      if remaining <= 0 then Expired
      else if remaining < RefreshThresholdMs then ExpiringSoon
      else Valid
  }

  /**
   * `checkAndRefreshToken`: nothing stored means nothing to do; a token within
   * five minutes of expiry is refreshed silently (`prompt: ''`); an expired one
   * is requested again with `prompt: 'none'`; otherwise nothing happens. An
   * unreadable stored value compares false both ways and does nothing.
   */
  function CheckToken(stored: Option<string>, nowMs: int): (a: TokenAction)
    ensures a == RequestToken("") <==> StateOf(stored, nowMs) == ExpiringSoon
    ensures a == RequestToken("none") <==> StateOf(stored, nowMs) == Expired
    ensures a == NoAction <==> StateOf(stored, nowMs) in {Unknown, Valid}
  {
    if stored.None? || stored.value == [] then NoAction
    else
      match ParseInt(stored.value)
      case NaN => NoAction
      case Int(expiresAt) =>
        var timeUntilExpiry := expiresAt - nowMs;
        if timeUntilExpiry < RefreshThresholdMs && timeUntilExpiry > 0 then RequestToken("")
        else if timeUntilExpiry <= 0 then RequestToken("none")
        else NoAction
  }

  /** How far along the token's life an action sits. */
  function Stage(s: TokenState): nat {
    match s
    case Unknown => 0
    case Valid => 0
    case ExpiringSoon => 1
    case Expired => 2
  }

  /** As time passes, a readable token only moves forward: valid, then expiring, then expired. */
  lemma StateMonotone(stored: Option<string>, earlier: int, later: int)
    requires earlier <= later
    ensures StateOf(stored, earlier) == Unknown <==> StateOf(stored, later) == Unknown
    ensures Stage(StateOf(stored, earlier)) <= Stage(StateOf(stored, later))
  {
  }

  /** An expiry time written out in decimal is read back exactly, so the decision follows the real remaining time. */
  lemma StoredExpiryDecides(expiresAt: nat, nowMs: int)
    ensures CheckToken(Some(NatToString(expiresAt)), nowMs) ==
      if expiresAt - nowMs <= 0 then RequestToken("none")
      else if expiresAt - nowMs < RefreshThresholdMs then RequestToken("")
      else NoAction
  {
    ParseIntNatToString(expiresAt);
  }

  /** The check runs every minute, well inside the five-minute window, so a live token is refreshed before it expires. */
  lemma CheckCatchesExpiry(stored: Option<string>, nowMs: int)
    requires StateOf(stored, nowMs) == Valid
    ensures StateOf(stored, nowMs + CheckIntervalMs) in {Valid, ExpiringSoon}
  {
  }
}
