/**
 * The global cooldown of the manual report command. The last run is kept as
 * text in the store's metadata; an absent or empty value means "never run".
 */
module Cooldown {
  import opened Wrappers
  import opened Zones
  import opened Text
  import opened Models

  /**
   * `parse_iso_utc`: absent or empty text is no timestamp; text that does not
   * parse is an error; otherwise the instant it names.
   */
  function ParseIsoUtc(value: Option<string>): (r: Result<Option<int>, Error>)
    ensures (value == None || value == Some("")) ==> r == Success(None)
    ensures r.Failure? ==> r.error == MalformedTimestamp
    ensures r.Success? && r.value.Some? ==> value.Some? && value.value != ""
    ensures value.Some? && value.value != "" ==> (r == Failure(MalformedTimestamp) <==> ParseInt(value.value).None?)
    ensures value.Some? && value.value != "" && ParseInt(value.value).Some? ==> r == Success(ParseInt(value.value))
  {
    if value.None? || value.value == "" then Success(None)
    else
      match ParseInt(value.value)
      case None => Failure(MalformedTimestamp)
      case Some(t) => Success(Some(t))
  }

  /** The text form of an instant reads back as that instant. */
  lemma ParseIsoUtcRoundTrip(t: int)
    ensures ParseIsoUtc(Some(IntText(t))) == Success(Some(t))
  {
    IntTextRoundTrip(t);
  }

  /**
   * `remaining_cooldown_seconds`: a non-positive cooldown is never active (the
   * stored value is not even read); no recorded run leaves nothing to wait;
   * otherwise the cooldown less the time since the last run, never negative.
   */
  function RemainingCooldownSeconds(lastRun: Option<string>, cooldown: int, now: int): (r: Result<int, Error>)
    ensures cooldown <= 0 ==> r == Success(0)
    ensures lastRun == None || lastRun == Some("") ==> r == Success(0)
    ensures r.Success? ==> 0 <= r.value
    ensures r.Success? && lastRun.Some? && ParseInt(lastRun.value) == Some(now) ==> r.value == Max(0, cooldown)
    ensures r.Failure? <==> cooldown > 0 && ParseIsoUtc(lastRun).Failure?
  {
    if cooldown <= 0 then Success(0)
    else
      match ParseIsoUtc(lastRun)
      case Failure(e) => Failure(e)
      case Success(None) => Success(0)
      case Success(Some(last)) => Success(Max(0, cooldown - (now - last)))
  }

  /** Right after a run is recorded at `t`, the whole cooldown remains; it has lapsed once `cooldown` seconds pass. */
  lemma RecordedRunStartsCooldown(t: int, cooldown: int, elapsed: int)
    requires cooldown > 0
    ensures RemainingCooldownSeconds(Some(IntText(t)), cooldown, t) == Success(cooldown)
    ensures RemainingCooldownSeconds(Some(IntText(t)), cooldown, t + elapsed) == Success(Max(0, cooldown - elapsed))
    ensures elapsed >= cooldown ==> RemainingCooldownSeconds(Some(IntText(t)), cooldown, t + elapsed) == Success(0)
  {
    ParseIsoUtcRoundTrip(t);
  }

  /** A recorded run that is not in the future leaves at most the whole cooldown. */
  lemma RemainingAtMostCooldown(t: int, cooldown: int, now: int)
    requires t <= now
    ensures RemainingCooldownSeconds(Some(IntText(t)), cooldown, now) == Success(Max(0, cooldown - (now - t)))
    ensures RemainingCooldownSeconds(Some(IntText(t)), cooldown, now).value <= Max(0, cooldown)
  {
    ParseIsoUtcRoundTrip(t);
  }

  /** Waiting never makes the remaining cooldown longer. */
  lemma RemainingNeverGrows(lastRun: Option<string>, cooldown: int, now: int, later: int)
    requires now <= later
    requires RemainingCooldownSeconds(lastRun, cooldown, now).Success?
    ensures RemainingCooldownSeconds(lastRun, cooldown, later).Success?
    ensures RemainingCooldownSeconds(lastRun, cooldown, later).value <= RemainingCooldownSeconds(lastRun, cooldown, now).value
  {
  }

  /** The worked examples: 30 minutes after a run, an hour's cooldown leaves 1800 s and a 20-minute one leaves 0. */
  lemma CooldownExamples(t: int)
    ensures RemainingCooldownSeconds(Some(IntText(t)), 3600, t + 1800) == Success(1800)
    ensures RemainingCooldownSeconds(Some(IntText(t)), 1200, t + 1800) == Success(0)
    ensures RemainingCooldownSeconds(None, 3600, t) == Success(0)
    ensures RemainingCooldownSeconds(Some(""), 3600, t) == Success(0)
    ensures RemainingCooldownSeconds(Some("x"), 0, t) == Success(0)
    ensures RemainingCooldownSeconds(Some("x"), 3600, t) == Failure(MalformedTimestamp)
  {
    ParseIsoUtcRoundTrip(t);
    assert ParseInt("x") == None;
  }
}
