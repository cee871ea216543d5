# Voice-presence tracker: a verified model

This project models the core of a Discord bot that measures how long members
spend in one tracked voice channel, credits that time to local calendar days,
and posts a daily report just after local midnight.

- **Zones** (`zones.dfy`): instants are whole UTC seconds. A timezone is seen only through
  `dayOf(t)`, the local day an instant falls on, and `midnightOf(d)`, the
  instant local day `d` begins. Local days may be any length, which is how
  daylight-saving days appear. The central quantity is
  `DayOverlap(z, s, e, d)`: the part of `[s, e)` that falls on local day `d`.
- **Splitter** (`splitter.dfy`): `split_interval_by_local_day` cuts an interval at local
  midnights. It is a method with the source's cursor loop, proved equal to the
  recursive `Chunks`. Lemmas show that every chunk is positive, that the days
  are consecutive, that the chunks sum to the interval's length, and that the
  chunk of day `d` is exactly `DayOverlap` for `d`.
- **Store** (`store.dfy`): the SQLite access layer becomes the class `Database`. Its three
  tables are maps: open sessions, daily totals keyed by (day, user), and
  metadata. Its invariant is that every stored total is positive.
- **Tracker** (`tracker.dfy`): the session engine is the class `VoiceTracker`. Every
  mutating operation states its effect on each (day, user) total in terms of
  `DayOverlap`. Lemmas cover three facts. A second rollover at the same
  midnight does nothing. Rolling over and then closing loses no time. After a
  rollover, the stored totals equal what a live read at midnight showed before it.
- **Cooldown** (`cooldown.dfy`): the remaining cooldown of the manual report.
- **Reporter** (`reporter.dfy`): the `HH:MM:SS` format with its inverse, report rows in report
  order, and the report text, read back line by line.
- **Bot** (`bot.dfy`): the bot's decisions. These are the voice-event routing, the
  once-per-midnight gate with its marker, the midnight tick, the cooldown
  bookkeeping and reseeding from the channel.
- **Support modules**: `text.dfy` (decimal text, code-point string order, line
  splitting), `sorting.dfy` (a stable insertion sort on a total preorder),
  `models.dfy` (records) and `wrappers.dfy` (`Option`, `Result`, `Outcome`).

Day keys are integers that order like the ISO dates they stand for. Every text
form the system writes (ISO dates, ISO instants, `str(member.id)`) is modelled
as decimal text through `IntText`/`ParseInt`, which round-trip.

## Model

| member | source | states |
|---|---|---|
| Zones.DayOfCharacterization | src/tracker.py:32-35 | an instant is on local day `d` exactly when it lies between `d`'s midnight and the next one |
| Zones.MidnightMonotone | src/tracker.py:34-35 | local midnights strictly increase, so the splitting cursor always advances |
| Zones.DayOverlapSplit | src/tracker.py:81-86 | cutting an interval at any instant splits each day's share into two parts that add back up |
| Zones.WholeDayOverlap | src/tracker.py:34-38 | a span covering a whole local day is credited that day's true length (23 or 25 h on DST days) |
| Text.IntTextRoundTrip | src/cooldown.py:11 | a written instant or day key reads back as itself |
| Text.IntTextInjective | src/main.py:156-158 | two day keys have equal text exactly when they are equal, so the marker comparison compares days |
| Text.SplitJoinLines | src/reporter.py:67 | splitting newline-joined lines without newlines gives the lines back |
| Sorting.SortBy | src/reporter.py:56 | sorting yields a permutation of its input (equal multisets, equal length) |
| Sorting.SortBySorted | src/reporter.py:56 | under a total preorder, the sorted sequence is ordered |
| Store.ToUtc | src/db.py:140-144 | a naive datetime is refused with an error; an aware one gives its UTC instant |
| Store.TotalRowLeIsPreorder | src/db.py:111 | `seconds DESC, user_id ASC` is a total preorder on rows |
| Store.UsersOn | src/db.py:108-110 | the users listed for a day are exactly those with a stored row for that day |
| Store.StoredForDay | src/db.py:105-119 | a day's stored totals by user hold exactly the stored rows of that day |
| Store.Database.constructor | src/db.py:13-16 | a store on a fresh file is open with all three tables empty (an existing file's rows are not modelled) |
| Store.Database.Close | src/db.py:18-22 | closing sets the closed flag, a second close changes nothing, and no table changes |
| Store.Database.SetOpenSession | src/db.py:50-61 | an aware start replaces the user's session (one per user); a naive start fails and changes nothing |
| Store.Database.GetOpenSession | src/db.py:63-70 | returns the user's session exactly when one is open, with its start |
| Store.Database.DeleteOpenSession | src/db.py:72-74 | removes only that user's session; a no-op when absent |
| Store.Database.ClearOpenSessions | src/db.py:76-78 | empties the sessions and leaves totals and meta unchanged |
| Store.Database.ListOpenSessions | src/db.py:80-87 | lists every open session exactly once, with its start |
| Store.Database.AddDailySeconds | src/db.py:89-103 | a non-positive amount changes nothing; otherwise the (day, user) total becomes old-or-0 plus the amount, and totals stay positive |
| Store.AddDailyPointwise | src/db.py:94-103 | an add grows only the named (day, user) total, and only by a positive amount |
| Store.Database.GetDailyTotals | src/db.py:105-119 | returns exactly the rows of that day, each user once, ordered by seconds descending and then user id ascending |
| Store.Database.RowsOfDay | src/db.py:106-114 | the selected rows are exactly the day's rows, without repeats |
| Store.SortKeepsRows | src/db.py:111 | ordering the rows keeps the same rows and sorts them |
| Store.Database.GetMeta | src/db.py:121-125 | returns the stored value, or none for an unset key |
| Store.Database.SetMeta | src/db.py:127-137 | upserts one key and leaves sessions and totals unchanged |
| Store.SetThenGetMeta | src/db.py:121-137 | reading a key just written returns the value written |
| Splitter.SplitIntervalByLocalDay | src/tracker.py:14-45 | a naive bound is an error; otherwise the cursor loop returns exactly `Chunks` (empty when end <= start) |
| Splitter.ChunksDays | src/tracker.py:31-43 | every chunk is positive and the chunk days are consecutive from the start's day, so strictly increasing |
| Splitter.ChunksClosedForm | src/tracker.py:25-43 | no chunk for an empty or backwards interval; otherwise one chunk per local day from the start's day to the day of the last second, chunk `i` being day `dayOf(start) + i` with the part of the interval between that day's midnight and the next |
| Splitter.ChunksTotal | src/tracker.py:31-43 | the chunks sum to the interval's length, or 0 when end <= start |
| Splitter.ChunksOnDay | src/tracker.py:31-43 | the seconds the chunks give a day are exactly the part of the interval on that day |
| Splitter.ChunkIsDayOverlap | src/tracker.py:37-41 | each chunk is the interval's share of its own day, and no other chunk has that day |
| Splitter.AcrossMidnight | tests/test_tracker.py:9-21 | ten minutes either side of a local midnight gives 600 s to each day |
| Splitter.NinetySecondsSameDay | tests/test_tracker.py:29-35 | a 90-second interval inside one UTC day is one 90-second chunk |
| Tracker.RolledOver | src/tracker.py:81-86 | a rollover keeps the same users and moves each start up to the midnight, leaving later starts alone |
| Tracker.AddChunksOnDay | src/tracker.py:107-111 | adding a session's chunks adds exactly its seconds on the requested day, and adds the user only when that is positive |
| Tracker.VoiceTracker.constructor | src/tracker.py:49-52 | from a valid store and zone, the tracker owns them and is valid |
| Tracker.VoiceTracker.StartSession | src/tracker.py:54-61 | returns false and changes nothing when a session is open; otherwise records the start and returns true |
| Tracker.VoiceTracker.EndSession | src/tracker.py:63-72 | without a session returns 0 and changes nothing; otherwise credits each day its share of [start, at), deletes the session and returns the interval length |
| Tracker.VoiceTracker.AccumulateInterval | src/tracker.py:74-79 | each day gains exactly the interval's share of it, and the result is the interval's length |
| Tracker.VoiceTracker.RolloverOpenSessions | src/tracker.py:81-86 | sessions become `RolledOver`, and each user's day totals gain their time up to the midnight |
| Tracker.VoiceTracker.RolloverSession | src/tracker.py:83-86 | a session starting before the midnight is credited up to it and restarts at it; a later one is untouched |
| Tracker.VoiceTracker.ReseedSessions | src/tracker.py:88-92 | afterwards exactly the listed users have sessions, all starting at the given instant, and totals are unchanged |
| Tracker.VoiceTracker.GetTotalsForDay | src/tracker.py:94-113 | modifies nothing and returns `DayTotals`: the stored totals, plus, when live time is wanted, only each open session's share of that day |
| Tracker.VoiceTracker.StoredTotals | src/tracker.py:101 | the dictionary built from the day's rows equals the stored totals of the day |
| Tracker.VoiceTracker.LocalDayKey | src/tracker.py:115-117 | the key is the local day whose midnights enclose the instant |
| Tracker.VoiceTracker.PreviousLocalDayKey | src/tracker.py:119-122 | the key is the day before, which has ended by the instant |
| Tracker.VoiceTracker.MidnightUtcForLocalDay | src/tracker.py:124-126 | the instant lies on that day and the second before it on the day before, so it is the day's first instant |
| Tracker.RolloverIdempotent | src/tracker.py:81-86 | a second rollover at the same midnight changes no session and credits nothing |
| Tracker.RolloverLosesNothing | src/tracker.py:63-86 | time credited by a rollover plus time credited when the session later ends equals what ending without the rollover credits |
| Tracker.RolloverMatchesLiveRead | src/main.py:165-185 | after a rollover the stored totals of any day equal the live read at the midnight before it |
| Tracker.LiveReadAfterRollover | src/main.py:165-185 | a live read of a day at the midnight gives the same totals before and after the rollover at that midnight has credited the stored totals |
| Tracker.EndSessionExample | tests/test_tracker.py:24-40 | a 90-second session returns 90 and the day's totals are `{"100": 90}` |
| Tracker.LiveTotalsExample | tests/test_tracker.py:43-56 | 120 stored seconds plus a session open for 300 s reads as 420 |
| Cooldown.ParseIsoUtc | src/cooldown.py:6-15 | absent or empty text is no timestamp; non-empty text is a malformed-timestamp error exactly when it does not parse, and otherwise the instant it names |
| Cooldown.ParseIsoUtcRoundTrip | src/cooldown.py:11-15 | a written instant parses back to itself |
| Cooldown.RemainingCooldownSeconds | src/cooldown.py:18-32 | a cooldown <= 0 gives 0 without reading the stored value; no recorded run (absent or empty) gives 0 for every cooldown; the result is never negative; it fails exactly when a cooldown is set and the stored value does not parse |
| Cooldown.RecordedRunStartsCooldown | src/cooldown.py:31-32 | `elapsed` seconds after a run, cooldown minus elapsed remains, and 0 once elapsed reaches the cooldown |
| Cooldown.RemainingAtMostCooldown | src/cooldown.py:31-32 | a run not in the future leaves at most the whole cooldown |
| Cooldown.RemainingNeverGrows | src/cooldown.py:31-32 | for a fixed last run the remaining time does not increase as time passes |
| Cooldown.CooldownExamples | tests/test_cooldown.py:6-12 | 3600 s after 30 min gives 1800; 1200 s after 30 min gives 0; no run gives 0; a malformed value fails only when a cooldown is set |
| Reporter.Pad2 | src/reporter.py:20 | a field has at least two digits, exactly two below 100 |
| Reporter.FormatSeconds | src/reporter.py:15-20 | the text is `HH:MM:SS` with colons in place, eight characters below 100 hours, and from 10 hours on the hours field has no leading zero |
| Reporter.FormatSecondsRoundTrip | src/reporter.py:17-20 | the text denotes max(0, n) seconds, with minutes and seconds below 60 |
| Reporter.FormatSecondsExamples | tests/test_reporter.py:23-25 | 0 and negatives give "00:00:00", 3661 gives "01:01:01", 90000 gives "25:00:00" |
| Reporter.ReportLeIsPreorder | src/reporter.py:56 | seconds descending, then lower-cased name, is a total preorder |
| Reporter.CollectRows | src/reporter.py:46-54 | one row for each user with positive time, with that time and the member's name or `User <id>` |
| Reporter.SortKeepsReportRows | src/reporter.py:56 | sorting the rows keeps the same rows, without repeats, in report order |
| Reporter.ReportOrderExample | tests/test_reporter.py:28-41 | Bob with 300 s comes before Alice with 100 s, whichever order they arrive in |
| Reporter.Reporter.constructor | src/reporter.py:32-33 | the reporter reads through the given tracker |
| Reporter.Reporter.BuildRowsForDay | src/reporter.py:35-57 | rows are sorted and hold exactly the users whose total for the day is positive, each once, with that total and display name |
| Reporter.RowLines | src/reporter.py:66 | one line per row, in row order |
| Reporter.DisplayName | src/reporter.py:51-53 | a member present in the guild is shown by their display name; an absent one as `User ` followed by the id |
| Reporter.Header | src/reporter.py:60 | the header is one line |
| Reporter.HeaderNamesDay | src/reporter.py:60 | the day's key reads back from between `**Daily Voice Activity - ` and the closing `**` |
| Reporter.ChannelLine | src/reporter.py:61 | a channel name without a newline gives one line |
| Reporter.ChannelLineNamesChannel | src/reporter.py:61 | the line is `Tracked channel: #` followed by the channel name, unchanged |
| Reporter.RowLine | src/reporter.py:66 | a display name without a newline gives one line |
| Reporter.RowLineFields | src/reporter.py:66 | the display name reads back after `- `, and the duration between the backticks reads back as max(0, seconds) |
| Reporter.BodyLines | src/reporter.py:63-67 | no rows give the single "No tracked activity for" line naming the day; otherwise one line per row, in row order |
| Reporter.BuildReportContent | src/reporter.py:59-68 | when the channel and display names have no newlines, the report read by lines is the header, the channel line, then the body lines |
| Reporter.EmptyReportExample | tests/test_reporter.py:44-47 | a report with no rows ends with "No tracked activity for" the day |
| Reporter.OneRowReportExample | src/reporter.py:66-68 | a row of 3661 s for Ann is the line "- Ann: `01:01:01`" |
| Bot.RouteVoiceUpdate | src/main.py:117-142 | nothing happens unless the bot is ready and the member is a human of the guild; entering the tracked channel starts, leaving ends, every other pair is ignored |
| Bot.RoutingFollowsChannel | src/main.py:126-142 | if a user had a session exactly when they were in the tracked channel, they still do after the update |
| Bot.MidnightTarget | src/main.py:146-159 | the tick acts exactly when ready, in the first minute of a local day, with the marker not naming the previous day, which is the target |
| Bot.MarkerStopsRepeats | src/main.py:158-159 | once the marker names the reported day, no later tick that day reports again |
| Bot.MarkerDoesNotBlockNextDay | src/main.py:156-159 | yesterday's marker does not block today's report |
| Bot.RetryAfterFailedPostIsHarmless | src/main.py:153-190 | after a failed post the marker is unchanged, so a later tick in the same window aims at the same day, its rollover changes no session and credits nothing, and it reports the same totals as the failed tick |
| Bot.VoiceTrackerBot.TrackedName | src/main.py:171-173 | the resolved channel's name when there is one; otherwise text that reads back as the configured channel id |
| Bot.HumanIds | src/main.py:107 | the ids listed are exactly those of the non-bot members in the channel |
| Bot.VoiceTrackerBot.constructor | src/main.py:24-42 | the bot wires tracker and reporter to its store and zone and starts not ready |
| Bot.VoiceTrackerBot.OnVoiceStateUpdate | src/main.py:111-142 | the routed action starts the session at `now`, ends it with each day credited its share, or changes nothing |
| Bot.VoiceTrackerBot.MidnightReportTick | src/main.py:144-190 | when the gate opens, sessions roll over at the midnight just passed, the report lists exactly the previous day's live totals at that midnight, and the marker is written only after a successful post; otherwise nothing changes |
| Bot.VoiceTrackerBot.CooldownRemainingSeconds | src/main.py:196-203 | the remaining cooldown is computed from the stored last manual run |
| Bot.VoiceTrackerBot.RecordManualReport | src/main.py:205-208 | stores `now` under the manual-report key and changes nothing else |
| Bot.VoiceTrackerBot.ReseedFromChannel | src/main.py:101-109 | with a resolved channel, exactly its human members have sessions, all from `now`; otherwise nothing changes |
| Bot.RecordThenRemaining | src/main.py:196-208 | recording a manual run and reading the cooldown at once gives the whole configured cooldown |

## Left out

- The Discord client is not modelled. This covers intents, command registration and sync, the runtime validation of guild, channels and permissions, `close`, and the slash commands in `src/commands.py`. The outcome of validation appears only as the fields `runtimeReady`, `resourcesResolved` and `trackedChannelName`.
- Sending the report (`post_report`, `allowed_mentions`) is network I/O. Its success is the parameter `postSucceeds` of the midnight tick, and the content that would be sent is returned.
- SQLite is not modelled: connections, SQL text, commits, durability and `initialize`. The three tables are maps in `Database`.
- Store.Database: operations after `Close` are not refused. On a closed connection SQLite raises an error instead.
- The IANA zone database and `astimezone`/`datetime.combine` are foreign code. They are replaced by the abstract `dayOf`/`midnightOf` pair. The model assumes that every local midnight exists, and that each local date is one unbroken span of instants from its midnight to the next. Not covered: zones that skip midnight, and a fall-back from just after 00:00 to the previous date (say 00:01 back to 23:01), where `datetime.combine` with fold 0 gives a next midnight before the cursor, so a chunk would be zero or negative and the cursor would move backwards.
- ISO text (`isoformat`, `fromisoformat`) is modelled as decimal text of whole seconds or day numbers. The naive-as-UTC fallback of `parse_iso_utc` does not apply once instants are integers.
- Instants are whole seconds, so the `int()` truncation of float `total_seconds()` is not modelled. With sub-second instants each chunk could lose up to a second.
- The clock is not modelled. Every "now" (`utc_now()`, the `or utc_now()` defaults) is a parameter.
- `async`, the 30-second task loop, logging and configuration loading are not modelled. Each handler is one sequential step.
- Bot.VoiceTrackerBot.MidnightReportTick: "local hour and minute are both 0" is modelled as "within 60 seconds after the local day's midnight". The two agree when the 00:00 wall minute occurs once per local date, at the date's start. The zone assumption does not give this, because the zone has no wall clock. Where a clock falls back from 01:00 to 00:00, the 00:00 minute happens a second time an hour later. The source's gate then opens again: after a failed post it retries, and after a successful one the marker stops it. The model's window does not reopen.
- Reporter.Reporter.BuildRowsForDay: the order among rows that tie on seconds and on lower-cased name is left open. Python's stable sort keeps the dictionary order there, and that order is not modelled. The member lookup is a map from the id text to a display name rather than `guild.get_member(int(user_id))`. `str.lower` is an abstract parameter `lower`.
- Tracker.VoiceTracker.StartSession, Tracker.VoiceTracker.EndSession, Tracker.VoiceTracker.AccumulateInterval, Tracker.VoiceTracker.RolloverOpenSessions, Tracker.VoiceTracker.RolloverSession, Tracker.VoiceTracker.ReseedSessions, Tracker.VoiceTracker.GetTotalsForDay: instants are integers, so a naive datetime cannot be passed in, and the source's error for one cannot arise. The errors are these:
  - `start_session` and `reseed_sessions` raise `ValueError` from the store's `_to_utc`.
  - `end_session`, `accumulate_interval` and, with an open session, `get_totals_for_day` raise `ValueError` from the split.
  - `rollover_open_sessions` raises `TypeError`, because it compares an aware start with a naive midnight.
  
  Some of these interrupt part-way. `end_session` raises after reading the session and before deleting it. `reseed_sessions` raises after `clear_open_sessions` has already removed every session. The naive case is modelled only at the splitter (`SplitIntervalByLocalDay`) and the store (`SetOpenSession`, `ToUtc`).
- Tracker.VoiceTracker.EndSession, Tracker.VoiceTracker.AccumulateInterval, Tracker.VoiceTracker.RolloverOpenSessions, Tracker.VoiceTracker.ReseedSessions: store errors (a failed statement or commit) are not modelled. Every store call is assumed to succeed. Each store write commits on its own, so in the source a failure part-way through a loop leaves a partial state. In a crediting loop, the earlier chunks stay credited and the session stays in place. In `reseed_sessions`, the sessions stay cleared with only some users re-inserted. The model promises nothing about such states.
- Tracker.VoiceTracker.GetTotalsForDay: the result is a map, so the dictionary's insertion order is not modelled. `Store.Database.ListOpenSessions` likewise returns sessions in an unspecified order, as the SQL has no `ORDER BY`.
