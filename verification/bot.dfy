/**
 * The bot's decisions: which voice updates open or close a session, when the
 * midnight tick rolls sessions over and posts yesterday's report, and the
 * bookkeeping of the manual report's cooldown. Discord itself is outside the
 * model; its events arrive as parameters.
 */
module Bot {
  import opened Wrappers
  import opened Zones
  import opened Text
  import opened Sorting
  import opened Models
  import opened Store
  import opened Tracker
  import opened Cooldown
  import opened Reporter

  /** Meta key holding the day of the last automatic report. */
  const AutoReportMetaKey := "last_auto_report_day"
  /** Meta key holding the instant of the last manual report. */
  const ManualReportMetaKey := "last_manual_report_at_utc"

  datatype Config = Config(guildId: int, trackedChannelId: int, cooldownSeconds: int, zone: Zone)

  datatype Member = Member(id: int, isBot: bool, guildId: int)

  /** What a voice-state update does to the tracker. */
  datatype VoiceAction = Ignore | Start | End

  function MetaValue(meta: map<string, string>, key: string): Option<string>
  {
    if key in meta then Some(meta[key]) else None
  }

  /**
   * `on_voice_state_update` routing: nothing before the runtime checks pass,
   * for bots or for other guilds; entering the tracked channel starts a
   * session, leaving it ends one, anything else is ignored.
   */
  function RouteVoiceUpdate(ready: bool, config: Config, member: Member, before: Option<int>, after: Option<int>): (a: VoiceAction)
    ensures a != Ignore ==> ready && !member.isBot && member.guildId == config.guildId
    ensures a == Start ==> before != Some(config.trackedChannelId) && after == Some(config.trackedChannelId)
    ensures a == End ==> before == Some(config.trackedChannelId) && after != Some(config.trackedChannelId)
    ensures (before == Some(config.trackedChannelId)) == (after == Some(config.trackedChannelId)) ==> a == Ignore
    ensures (ready && !member.isBot && member.guildId == config.guildId
             && before != Some(config.trackedChannelId) && after == Some(config.trackedChannelId)) ==> a == Start
    ensures (ready && !member.isBot && member.guildId == config.guildId
             && before == Some(config.trackedChannelId) && after != Some(config.trackedChannelId)) ==> a == End
  {
    if !ready || member.isBot || member.guildId != config.guildId then Ignore
    else
      var tracked := config.trackedChannelId;
      if before != Some(tracked) && after == Some(tracked) then Start
      else if before == Some(tracked) && after != Some(tracked) then End
      else Ignore
  }

  /** Whether the user has an open session after the tracker applies `a`. */
  function HasSessionAfter(a: VoiceAction, had: bool): bool
  {
    match a
    case Start => true
    case End => false
    case Ignore => had
  }

  /**
   * For a human member of the guild, once the bot is ready, routing keeps the
   * tracker in step with the channel: if the user had an open session exactly
   * when they were in the tracked channel before the update, they have one
   * exactly when they are in it after.
   */
  lemma RoutingFollowsChannel(config: Config, member: Member, before: Option<int>, after: Option<int>, had: bool)
    requires !member.isBot && member.guildId == config.guildId
    requires had <==> before == Some(config.trackedChannelId)
    ensures HasSessionAfter(RouteVoiceUpdate(true, config, member, before, after), had) <==> after == Some(config.trackedChannelId)
  {
  }

  /**
   * The gate of `midnight_report_loop`: it acts only when the bot is ready,
   * during the first minute of a local day, and when the marker does not
   * already name the day that just ended; the target is that day.
   */
  function MidnightTarget(ready: bool, z: Zone, now: int, marker: Option<string>): (target: Option<DayKey>)
    requires ValidZone(z)
    ensures target.Some? ==> target.value == z.dayOf(now) - 1
    ensures target.Some? ==> z.midnightOf(target.value + 1) <= now < z.midnightOf(target.value + 1) + 60
    ensures target.Some? ==> ready && marker != Some(IntText(target.value))
    ensures ready && now - z.midnightOf(z.dayOf(now)) < 60 && marker != Some(IntText(z.dayOf(now) - 1)) ==> target.Some?
  {
    if !ready then None
    else if now - z.midnightOf(z.dayOf(now)) >= 60 then None
    else
      var target := z.dayOf(now) - 1;
      if marker == Some(IntText(target)) then None else Some(target)
  }

  /** Once the marker names the day reported, no later tick of the same local day reports again. */
  lemma MarkerStopsRepeats(ready: bool, z: Zone, now: int, later: int, marker: Option<string>)
    requires ValidZone(z)
    requires z.dayOf(now) == z.dayOf(later)
    requires MidnightTarget(true, z, now, marker).Some?
    ensures MidnightTarget(ready, z, later, Some(IntText(MidnightTarget(true, z, now, marker).value))) == None
  {
  }

  /** The marker of one day's report does not block the next day's. */
  lemma MarkerDoesNotBlockNextDay(z: Zone, reported: DayKey, now: int)
    requires ValidZone(z)
    requires z.dayOf(now) == reported + 2
    requires now - z.midnightOf(z.dayOf(now)) < 60
    ensures MidnightTarget(true, z, now, Some(IntText(reported))) == Some(reported + 1)
  {
    IntTextInjective(reported, reported + 1);
  }

  /**
   * A tick whose post failed leaves the marker as it was, so a later tick in
   * the same window retries: it aims at the same day, its rollover at the same
   * midnight changes no session and credits nothing, and the totals it reports
   * are the ones the failed tick reported.
   */
  lemma RetryAfterFailedPostIsHarmless(z: Zone, marker: Option<string>, totals0: Totals, sessions0: map<UserId, int>,
                                       totals1: Totals, now: int, later: int)
    requires ValidZone(z)
    requires z.dayOf(now) == z.dayOf(later) && later - z.midnightOf(z.dayOf(later)) < 60
    requires MidnightTarget(true, z, now, marker).Some?
    requires forall k :: k in totals0 ==> totals0[k] > 0
    requires forall k :: k in totals1 ==> totals1[k] > 0
    // the state the first tick left: sessions rolled over at the midnight, totals credited up to it
    requires var m := z.midnightOf(z.dayOf(now));
             forall d, v :: TotalOf(totals1, d, v) == TotalOf(totals0, d, v) + AccruedOn(z, sessions0, v, d, m)
    ensures var m := z.midnightOf(z.dayOf(now));
            var target := MidnightTarget(true, z, now, marker).value;
            var sessions1 := RolledOver(sessions0, m);
            && MidnightTarget(true, z, later, marker) == Some(target)
            && z.midnightOf(z.dayOf(later)) == m
            && RolledOver(sessions1, m) == sessions1
            && (forall v, d :: AccruedOn(z, sessions1, v, d, m) == 0)
            && DayTotals(z, totals1, sessions1, target, true, m) == DayTotals(z, totals0, sessions0, target, true, m)
  {
    var m := z.midnightOf(z.dayOf(now));
    var target := MidnightTarget(true, z, now, marker).value;
    assert MidnightTarget(true, z, later, marker) == Some(target) && z.midnightOf(z.dayOf(later)) == m;
    var sessions1 := RolledOver(sessions0, m);
    assert RolledOver(sessions1, m) == sessions1 && forall v, d :: AccruedOn(z, sessions1, v, d, m) == 0 by {
      RolloverIdempotent(z, sessions0, m);
    }
    assert DayTotals(z, totals1, sessions1, target, true, m) == DayTotals(z, totals0, sessions0, target, true, m) by {
      LiveReadAfterRollover(z, totals0, totals1, sessions0, m, target);
    }
  }

  /** The ids, as text, of the human members in a channel, in channel order. */
  function HumanIds(members: seq<Member>): (ids: seq<UserId>)
    ensures forall u :: u in ids <==> exists m :: m in members && !m.isBot && IntText(m.id) == u
  {
    if members == [] then []
    else
      var rest := HumanIds(members[1..]);
      assert forall m :: m in members[1..] ==> m in members;
      assert forall m :: m in members ==> m == members[0] || m in members[1..];
      (if members[0].isBot then [] else [IntText(members[0].id)]) + rest
  }

  class VoiceTrackerBot {
    const config: Config
    const db: Database
    const tracker: VoiceTracker
    const reporter: Reporter
    /** Set once the runtime checks pass; events are ignored before. */
    var runtimeReady: bool
    /** The guild and the report channel were resolved by the runtime checks. */
    var resourcesResolved: bool
    /** The tracked voice channel's name, once resolved. */
    var trackedChannelName: Option<string>

    ghost predicate Valid()
      reads db
    {
      tracker.db == db && tracker.zone == config.zone && reporter.tracker == tracker && tracker.Valid()
    }

    constructor (config: Config, db: Database)
      requires db.Valid() && ValidZone(config.zone)
      ensures Valid() && this.config == config && this.db == db
      ensures !runtimeReady && !resourcesResolved && trackedChannelName == None
    {
      this.config := config;
      this.db := db;
      var tracker := new VoiceTracker(db, config.zone);
      this.tracker := tracker;
      this.reporter := new Reporter(tracker);
      this.runtimeReady := false;
      this.resourcesResolved := false;
      this.trackedChannelName := None;
    }

    /** `on_voice_state_update`: routes the event, then starts or ends the member's session at `now`. */
    method OnVoiceStateUpdate(member: Member, before: Option<int>, after: Option<int>, now: int) returns (action: VoiceAction)
      requires Valid()
      modifies db
      ensures Valid()
      ensures action == RouteVoiceUpdate(runtimeReady, config, member, before, after)
      ensures action == Ignore ==> db.openSessions == old(db.openSessions) && db.dailyTotals == old(db.dailyTotals)
      ensures action == Start ==>
                db.dailyTotals == old(db.dailyTotals) &&
                db.openSessions == if IntText(member.id) in old(db.openSessions) then old(db.openSessions)
                                   else old(db.openSessions)[IntText(member.id) := now]
      ensures action == End ==>
                db.openSessions == old(db.openSessions) - {IntText(member.id)} &&
                forall d, v :: TotalOf(db.dailyTotals, d, v) == TotalOf(old(db.dailyTotals), d, v)
                  + (if v == IntText(member.id) then AccruedOn(config.zone, old(db.openSessions), v, d, now) else 0)
      ensures db.meta == old(db.meta) && db.closed == old(db.closed)
    {
      action := RouteVoiceUpdate(runtimeReady, config, member, before, after);
      var user := IntText(member.id);
      if action == Start {
        var _ := tracker.StartSession(user, now);
      } else if action == End {
        var _ := tracker.EndSession(user, now);
      }
    }

    /** The name shown for the tracked channel: its name once resolved, else its id. */
    function TrackedName(): (name: string)
      reads this
      ensures trackedChannelName.Some? ==> name == trackedChannelName.value
      ensures trackedChannelName.None? ==> ParseInt(name) == Some(config.trackedChannelId)
    {
      IntTextRoundTrip(config.trackedChannelId);
      trackedChannelName.GetOr(IntText(config.trackedChannelId))
    }

    /**
     * `midnight_report_loop`, one tick at `now`. When the gate opens and the
     * guild and report channel are known, open sessions are rolled over at
     * the local midnight just passed, the report of the day that ended is
     * built from stored totals, and the marker is written only if the post
     * succeeds (`postSucceeds` is the outcome of sending it).
     */
    method MidnightReportTick(now: int, members: map<UserId, string>, lower: string -> string, postSucceeds: bool)
      returns (rows: seq<ReportRow>, content: Option<string>)
      requires Valid()
      modifies db
      ensures Valid()
      ensures var target := MidnightTarget(runtimeReady, config.zone, now, MetaValue(old(db.meta), AutoReportMetaKey));
              !(target.Some? && resourcesResolved) ==>
                rows == [] && content == None && db.openSessions == old(db.openSessions)
                && db.dailyTotals == old(db.dailyTotals) && db.meta == old(db.meta)
      ensures var target := MidnightTarget(runtimeReady, config.zone, now, MetaValue(old(db.meta), AutoReportMetaKey));
              var m := config.zone.midnightOf(config.zone.dayOf(now));
              target.Some? && resourcesResolved ==>
                && db.openSessions == RolledOver(old(db.openSessions), m)
                && (forall d, v :: TotalOf(db.dailyTotals, d, v)
                      == TotalOf(old(db.dailyTotals), d, v) + AccruedOn(config.zone, old(db.openSessions), v, d, m))
                && content == Some(BuildReportContent(target.value, TrackedName(), rows))
                && db.meta == if postSucceeds then old(db.meta)[AutoReportMetaKey := IntText(target.value)] else old(db.meta)
      ensures var target := MidnightTarget(runtimeReady, config.zone, now, MetaValue(old(db.meta), AutoReportMetaKey));
              var m := config.zone.midnightOf(config.zone.dayOf(now));
              target.Some? && resourcesResolved ==>
                ReportsLiveTotals(rows, members, lower,
                                  DayTotals(config.zone, old(db.dailyTotals), old(db.openSessions), target.value, true, m))
      ensures db.closed == old(db.closed)
    {
      rows, content := [], None;
      if !runtimeReady {
        return;
      }
      var zone := config.zone;
      if now - zone.midnightOf(zone.dayOf(now)) >= 60 {
        return;
      }
      var target := tracker.PreviousLocalDayKey(now);
      var marker := db.GetMeta(AutoReportMetaKey);
      if marker == Some(IntText(target)) {
        return;
      }
      if !resourcesResolved {
        return;
      }
      var midnight := tracker.MidnightUtcForLocalDay(tracker.LocalDayKey(now));
      ghost var totals0, sessions0 := db.dailyTotals, db.openSessions;
      tracker.RolloverOpenSessions(midnight);
      var name := TrackedName();
      rows := reporter.BuildRowsForDay(members, lower, target, false, midnight);
      RolloverMatchesLiveRead(zone, totals0, db.dailyTotals, sessions0, midnight, target);
      content := Some(BuildReportContent(target, name, rows));
      if postSucceeds {
        db.SetMeta(AutoReportMetaKey, IntText(target));
      }
    }

    /** `cooldown_remaining_seconds`: the manual report's remaining cooldown from the stored last run. */
    method CooldownRemainingSeconds(now: int) returns (r: Result<int, Error>)
      ensures r == RemainingCooldownSeconds(MetaValue(db.meta, ManualReportMetaKey), config.cooldownSeconds, now)
    {
      var lastManual := db.GetMeta(ManualReportMetaKey);
      r := RemainingCooldownSeconds(lastManual, config.cooldownSeconds, now);
    }

    /** `record_manual_report`: stores `now` as the last manual run. */
    method RecordManualReport(now: int)
      modifies db
      ensures db.meta == old(db.meta)[ManualReportMetaKey := IntText(now)]
      ensures db.openSessions == old(db.openSessions) && db.dailyTotals == old(db.dailyTotals) && db.closed == old(db.closed)
    {
      db.SetMeta(ManualReportMetaKey, IntText(now));
    }

    /** `_reseed_open_sessions_from_channel`: one session per human in the tracked channel, all from `now`. */
    method ReseedFromChannel(channelMembers: seq<Member>, now: int)
      requires Valid()
      modifies db
      ensures Valid()
      ensures trackedChannelName.None? ==> db.openSessions == old(db.openSessions)
      ensures trackedChannelName.Some? ==>
                db.openSessions.Keys == (set m | m in channelMembers && !m.isBot :: IntText(m.id))
                && forall u :: u in db.openSessions ==> db.openSessions[u] == now
      ensures db.dailyTotals == old(db.dailyTotals) && db.meta == old(db.meta) && db.closed == old(db.closed)
    {
      if trackedChannelName.None? {
        return;
      }
      var users := HumanIds(channelMembers);
      tracker.ReseedSessions(users, now);
    }
  }


  /** Recording a manual run and reading the cooldown at the same instant gives the whole configured cooldown. */
  method RecordThenRemaining(bot: VoiceTrackerBot, now: int) returns (r: Result<int, Error>)
    modifies bot.db
    ensures r == Success(Max(0, bot.config.cooldownSeconds))
  {
    bot.RecordManualReport(now);
    r := bot.CooldownRemainingSeconds(now);
    if bot.config.cooldownSeconds > 0 {
      RecordedRunStartsCooldown(now, bot.config.cooldownSeconds, 0);
    }
  }
}
