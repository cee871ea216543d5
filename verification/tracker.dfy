/**
 * The session engine (`VoiceTracker`): opens and closes presence sessions,
 * credits closed time to per-local-day totals, moves the accrual boundary of
 * open sessions at midnight, rebuilds the open sessions from a snapshot, and
 * reads a day's totals with or without the time still accruing.
 */
module Tracker {
  import opened Wrappers
  import opened Zones
  import opened Models
  import opened Store
  import opened Splitter

  /** The time an open session of `user` has accrued on `day` up to the instant `upTo`. */
  function AccruedOn(z: Zone, sessions: map<UserId, int>, user: UserId, day: DayKey, upTo: int): nat
  {
    if user in sessions then DayOverlap(z, sessions[user], upTo, day) else 0
  }

  /** The open sessions after a rollover at `m`: every start moved up to `m`, users unchanged. */
  function RolledOver(sessions: map<UserId, int>, m: int): (r: map<UserId, int>)
    ensures r.Keys == sessions.Keys
    ensures forall u :: u in r ==> r[u] == Max(sessions[u], m)
  {
    map u | u in sessions :: if sessions[u] < m then m else sessions[u]
  }

  /**
   * What `get_totals_for_day` answers: the stored totals of `day`, plus, when
   * live time is wanted, the part of each open session's `[start, now)` that
   * falls on `day`. A user appears when stored or when that part is positive.
   */
  function DayTotals(z: Zone, totals: Totals, sessions: map<UserId, int>, day: DayKey, includeLive: bool, now: int): map<UserId, int>
  {
    var stored := StoredForDay(totals, day);
    if !includeLive then stored
    else
      map u | u in stored.Keys + sessions.Keys && (u in stored || AccruedOn(z, sessions, u, day, now) > 0)
        :: TotalOf(totals, day, u) + AccruedOn(z, sessions, u, day, now)
  }

  /** The users a listing of sessions names. */
  function ListedUsers(sessions: seq<OpenSession>): (users: set<UserId>)
    ensures forall i :: 0 <= i < |sessions| ==> sessions[i].userId in users
    ensures forall u :: u in users ==> exists i :: 0 <= i < |sessions| && sessions[i].userId == u
  {
    set i | 0 <= i < |sessions| :: sessions[i].userId
  }

  lemma ListedUsersStep(sessions: seq<OpenSession>, i: nat)
    requires i < |sessions|
    ensures ListedUsers(sessions[..i + 1]) == ListedUsers(sessions[..i]) + {sessions[i].userId}
  {
    var a, b := sessions[..i + 1], sessions[..i];
    forall u | u in ListedUsers(a) ensures u in ListedUsers(b) + {sessions[i].userId} {
      var j :| 0 <= j < |a| && a[j].userId == u;
      if j < i { assert b[j] == a[j]; }
    }
    forall u | u in ListedUsers(b) ensures u in ListedUsers(a) {
      var j :| 0 <= j < |b| && b[j].userId == u;
      assert a[j] == b[j];
    }
    assert a[i] == sessions[i];
  }

  /** Adds the chunks of `user` that fall on `day` to a user -> seconds dictionary. */
  method AddChunksOnDay(totals: map<UserId, int>, user: UserId, chunks: seq<Chunk>, day: DayKey)
    returns (r: map<UserId, int>)
    requires forall i :: 0 <= i < |chunks| ==> chunks[i].seconds > 0
    ensures r.Keys == totals.Keys + (if SecondsOn(chunks, day) > 0 then {user} else {})
    ensures forall u :: u in r && u != user ==> r[u] == totals[u]
    ensures user in r ==> r[user] == (if user in totals then totals[user] else 0) + SecondsOn(chunks, day)
  {
    r := totals;
    var j := 0;
    while j < |chunks|
      invariant 0 <= j <= |chunks|
      invariant SecondsOn(chunks[..j], day) >= 0
      invariant r.Keys == totals.Keys + (if SecondsOn(chunks[..j], day) > 0 then {user} else {})
      invariant forall u :: u in r && u != user ==> r[u] == totals[u]
      invariant user in r ==> r[user] == (if user in totals then totals[user] else 0) + SecondsOn(chunks[..j], day)
    {
      assert chunks[..j + 1][..j] == chunks[..j];
      if chunks[j].day == day {
        r := r[user := (if user in r then r[user] else 0) + chunks[j].seconds];
      }
      j := j + 1;
    }
    assert chunks[..j] == chunks;
  }

  /**
   * `r` is the stored totals of `day` with the live time of the users in
   * `done` already added: the loop invariant of a live read.
   */
  ghost predicate LiveSoFar(z: Zone, totals: Totals, sessions: map<UserId, int>, day: DayKey, now: int,
                            done: set<UserId>, r: map<UserId, int>)
  {
    (forall v :: v in r <==> (day, v) in totals || (v in done && AccruedOn(z, sessions, v, day, now) > 0)) &&
    (forall v :: v in r ==> r[v] == TotalOf(totals, day, v) + (if v in done then AccruedOn(z, sessions, v, day, now) else 0))
  }

  lemma LiveSoFarStep(z: Zone, totals: Totals, sessions: map<UserId, int>, day: DayKey, now: int,
                      done: set<UserId>, r: map<UserId, int>, u: UserId, added: int, next: map<UserId, int>)
    requires LiveSoFar(z, totals, sessions, day, now, done, r)
    requires u !in done && added == AccruedOn(z, sessions, u, day, now)
    requires next.Keys == r.Keys + (if added > 0 then {u} else {})
    requires forall v :: v in next && v != u ==> next[v] == r[v]
    requires u in next ==> next[u] == (if u in r then r[u] else 0) + added
    ensures LiveSoFar(z, totals, sessions, day, now, done + {u}, next)
  {
    forall v ensures v in next <==> (day, v) in totals || (v in done + {u} && AccruedOn(z, sessions, v, day, now) > 0) {
    }
  }

  lemma LiveSoFarDone(z: Zone, totals: Totals, sessions: map<UserId, int>, day: DayKey, now: int, r: map<UserId, int>)
    requires LiveSoFar(z, totals, sessions, day, now, sessions.Keys, r)
    ensures r == DayTotals(z, totals, sessions, day, true, now)
  {
    var expected := DayTotals(z, totals, sessions, day, true, now);
    forall v ensures v in r <==> v in expected {
    }
    assert r.Keys == expected.Keys;
  }

  /**
   * The users in `done` have been rolled over at `m` (credited and restarted)
   * and no one else has: the loop invariant of a rollover.
   */
  ghost predicate RolledSoFar(z: Zone, before: map<UserId, int>, totals0: Totals, m: int, done: set<UserId>,
                              sessions: map<UserId, int>, totals: Totals)
  {
    sessions.Keys == before.Keys &&
    (forall u :: u in before ==> sessions[u] == if u in done then Max(before[u], m) else before[u]) &&
    (forall d, v :: TotalOf(totals, d, v) == TotalOf(totals0, d, v) + (if v in done then AccruedOn(z, before, v, d, m) else 0))
  }

  lemma RolledSoFarStep(z: Zone, before: map<UserId, int>, totals0: Totals, m: int, done: set<UserId>,
                        sessions: map<UserId, int>, totals: Totals, u: UserId,
                        sessions': map<UserId, int>, totals': Totals)
    requires RolledSoFar(z, before, totals0, m, done, sessions, totals)
    requires u in before && u !in done
    requires sessions' == if before[u] < m then sessions[u := m] else sessions
    requires forall d, v :: TotalOf(totals', d, v) == TotalOf(totals, d, v) + (if v == u then DayOverlap(z, before[u], m, d) else 0)
    ensures RolledSoFar(z, before, totals0, m, done + {u}, sessions', totals')
  {
    forall d, v ensures TotalOf(totals', d, v) == TotalOf(totals0, d, v) + (if v in done + {u} then AccruedOn(z, before, v, d, m) else 0) {
      assert TotalOf(totals', d, v) == TotalOf(totals, d, v) + (if v == u then DayOverlap(z, before[u], m, d) else 0);
      assert TotalOf(totals, d, v) == TotalOf(totals0, d, v) + (if v in done then AccruedOn(z, before, v, d, m) else 0);
    }
  }

  lemma RolledSoFarDone(z: Zone, before: map<UserId, int>, totals0: Totals, m: int, sessions: map<UserId, int>, totals: Totals)
    requires RolledSoFar(z, before, totals0, m, before.Keys, sessions, totals)
    ensures sessions == RolledOver(before, m)
    ensures forall d, v :: TotalOf(totals, d, v) == TotalOf(totals0, d, v) + AccruedOn(z, before, v, d, m)
  {
    forall d, v ensures TotalOf(totals, d, v) == TotalOf(totals0, d, v) + AccruedOn(z, before, v, d, m) {
      assert TotalOf(totals, d, v) == TotalOf(totals0, d, v) + (if v in before.Keys then AccruedOn(z, before, v, d, m) else 0);
    }
  }

  class VoiceTracker {
    const db: Database
    const zone: Zone

    constructor (db: Database, zone: Zone)
      requires db.Valid() && ValidZone(zone)
      ensures Valid() && this.db == db && this.zone == zone
    {
      this.db := db;
      this.zone := zone;
    }

    ghost predicate Valid()
      reads db
    {
      db.Valid() && ValidZone(zone)
    }

    /**
     * Opens a session unless one is already open: a repeated join event
     * returns false and changes nothing.
     */
    method StartSession(user: UserId, at: int) returns (started: bool)
      requires Valid()
      modifies db
      ensures Valid()
      ensures started <==> user !in old(db.openSessions)
      ensures db.openSessions == if started then old(db.openSessions)[user := at] else old(db.openSessions)
      ensures db.dailyTotals == old(db.dailyTotals) && db.meta == old(db.meta) && db.closed == old(db.closed)
    {
      var existing := db.GetOpenSession(user);
      if existing.Some? {
        return false;
      }
      var _ := db.SetOpenSession(user, Aware(at));
      return true;
    }

    /**
     * Closes the user's session: credits `[start, at)` day by day, deletes the
     * session and returns the seconds credited. A leave event without an open
     * session returns 0 and changes nothing.
     */
    method EndSession(user: UserId, at: int) returns (tracked: int)
      requires Valid()
      modifies db
      ensures Valid()
      ensures user !in old(db.openSessions) ==> tracked == 0 && db.openSessions == old(db.openSessions)
      ensures user in old(db.openSessions) ==>
                tracked == Max(0, at - old(db.openSessions)[user]) && db.openSessions == old(db.openSessions) - {user}
      ensures forall d, v :: TotalOf(db.dailyTotals, d, v)
                == TotalOf(old(db.dailyTotals), d, v) + (if v == user then AccruedOn(zone, old(db.openSessions), user, d, at) else 0)
      ensures db.meta == old(db.meta) && db.closed == old(db.closed)
    {
      var session := db.GetOpenSession(user);
      if session.None? {
        return 0;
      }
      tracked := AccumulateInterval(user, session.value.startedAt, at);
      db.DeleteOpenSession(user);
    }

    /**
     * Credits `[start, end)` to `user`: each local day gets the part of the
     * interval that falls on it, and the result is the length of the interval.
     */
    method AccumulateInterval(user: UserId, start: int, end: int) returns (total: int)
      requires Valid()
      modifies db
      ensures Valid()
      ensures total == Max(0, end - start)
      ensures forall d, v :: TotalOf(db.dailyTotals, d, v)
                == TotalOf(old(db.dailyTotals), d, v) + (if v == user then DayOverlap(zone, start, end, d) else 0)
      ensures db.openSessions == old(db.openSessions) && db.meta == old(db.meta) && db.closed == old(db.closed)
    {
      var split := SplitIntervalByLocalDay(zone, Aware(start), Aware(end));
      var chunks := split.value;
      ChunksDays(zone, start, end);
      total := 0;
      var i := 0;
      while i < |chunks|
        invariant 0 <= i <= |chunks|
        invariant db.Valid()
        invariant total == TotalSeconds(chunks[..i])
        invariant forall d, v :: TotalOf(db.dailyTotals, d, v)
                    == TotalOf(old(db.dailyTotals), d, v) + (if v == user then SecondsOn(chunks[..i], d) else 0)
        invariant db.openSessions == old(db.openSessions) && db.meta == old(db.meta) && db.closed == old(db.closed)
      {
        var c := chunks[i];
        ghost var before := db.dailyTotals;
        db.AddDailySeconds(c.day, user, c.seconds);
        total := total + c.seconds;
        assert chunks[..i + 1][..i] == chunks[..i];
        forall d, v ensures TotalOf(db.dailyTotals, d, v) == TotalOf(before, d, v) + (if (d, v) == (c.day, user) then c.seconds else 0) {
          AddDailyPointwise(before, c.day, user, c.seconds, d, v);
        }
        i := i + 1;
      }
      assert chunks[..i] == chunks;
      ChunksTotal(zone, start, end);
      forall d ensures SecondsOn(chunks, d) == DayOverlap(zone, start, end, d) {
        ChunksOnDay(zone, start, end, d);
      }
    }

    /**
     * At local midnight `m`: every session that started before `m` is credited
     * `[start, m)` and restarts at exactly `m`; later sessions are untouched.
     */
    method RolloverOpenSessions(m: int)
      requires Valid()
      modifies db
      ensures Valid()
      ensures db.openSessions == RolledOver(old(db.openSessions), m)
      ensures forall d, v :: TotalOf(db.dailyTotals, d, v)
                == TotalOf(old(db.dailyTotals), d, v) + AccruedOn(zone, old(db.openSessions), v, d, m)
      ensures db.meta == old(db.meta) && db.closed == old(db.closed)
    {
      var sessions := db.ListOpenSessions();
      ghost var before := db.openSessions;
      ghost var totals0 := db.dailyTotals;
      var i := 0;
      while i < |sessions|
        invariant 0 <= i <= |sessions|
        invariant Valid()
        invariant RolledSoFar(zone, before, totals0, m, ListedUsers(sessions[..i]), db.openSessions, db.dailyTotals)
        invariant db.meta == old(db.meta) && db.closed == old(db.closed)
      {
        var session := sessions[i];
        ListedUsersStep(sessions, i);
        assert session.userId !in ListedUsers(sessions[..i]) by {
          forall j | 0 <= j < i ensures sessions[..i][j].userId != session.userId {
            assert sessions[..i][j] == sessions[j];
          }
        }
        ghost var sessionsBefore, totalsBefore := db.openSessions, db.dailyTotals;
        RolloverSession(session.userId, session.startedAt, m);
        RolledSoFarStep(zone, before, totals0, m, ListedUsers(sessions[..i]), sessionsBefore, totalsBefore,
                        session.userId, db.openSessions, db.dailyTotals);
        i := i + 1;
      }
      assert sessions[..i] == sessions;
      assert ListedUsers(sessions) == before.Keys by {
        forall u | u in before ensures u in ListedUsers(sessions) {
          assert OpenSession(u, before[u]) in sessions;
        }
      }
      RolledSoFarDone(zone, before, totals0, m, db.openSessions, db.dailyTotals);
    }

    /** One step of a rollover: a session that started before `m` is credited up to `m` and restarts there. */
    method RolloverSession(user: UserId, start: int, m: int)
      requires Valid()
      modifies db
      ensures Valid()
      ensures db.openSessions == if start < m then old(db.openSessions)[user := m] else old(db.openSessions)
      ensures forall d, v :: TotalOf(db.dailyTotals, d, v)
                == TotalOf(old(db.dailyTotals), d, v) + (if v == user then DayOverlap(zone, start, m, d) else 0)
      ensures db.meta == old(db.meta) && db.closed == old(db.closed)
    {
      if start < m {
        var _ := AccumulateInterval(user, start, m);
        var _ := db.SetOpenSession(user, Aware(m));
      }
    }

    /**
     * Discards every open session and opens exactly one per listed user, all
     * starting at `at`; no time is credited.
     */
    method ReseedSessions(users: seq<UserId>, at: int)
      requires Valid()
      modifies db
      ensures Valid()
      ensures db.openSessions == map u | u in users :: at
      ensures db.dailyTotals == old(db.dailyTotals) && db.meta == old(db.meta) && db.closed == old(db.closed)
    {
      db.ClearOpenSessions();
      var i := 0;
      while i < |users|
        invariant 0 <= i <= |users|
        invariant db.openSessions == map u | u in users[..i] :: at
        invariant db.dailyTotals == old(db.dailyTotals) && db.meta == old(db.meta) && db.closed == old(db.closed)
      {
        var _ := db.SetOpenSession(users[i], Aware(at));
        assert users[..i + 1] == users[..i] + [users[i]];
        i := i + 1;
      }
      assert users[..i] == users;
    }

    /**
     * A day's totals by user. Without live time these are the stored totals;
     * with it, each open session adds only the part of `[start, now)` on that
     * day. The store is not written: this method may modify nothing.
     */
    method GetTotalsForDay(day: DayKey, includeLive: bool, now: int) returns (totals: map<UserId, int>)
      requires Valid()
      ensures totals == DayTotals(zone, db.dailyTotals, db.openSessions, day, includeLive, now)
    {
      totals := StoredTotals(day);
      if !includeLive {
        return totals;
      }
      var sessions := db.ListOpenSessions();
      var k := 0;
      while k < |sessions|
        invariant 0 <= k <= |sessions|
        invariant LiveSoFar(zone, db.dailyTotals, db.openSessions, day, now, ListedUsers(sessions[..k]), totals)
      {
        var session := sessions[k];
        ListedUsersStep(sessions, k);
        assert session.userId !in ListedUsers(sessions[..k]) by {
          forall j | 0 <= j < k ensures sessions[..k][j].userId != session.userId {
            assert sessions[..k][j] == sessions[j];
          }
        }
        var split := SplitIntervalByLocalDay(zone, Aware(session.startedAt), Aware(now));
        ChunksDays(zone, session.startedAt, now);
        ChunksOnDay(zone, session.startedAt, now, day);
        var next := AddChunksOnDay(totals, session.userId, split.value, day);
        LiveSoFarStep(zone, db.dailyTotals, db.openSessions, day, now, ListedUsers(sessions[..k]), totals,
                      session.userId, SecondsOn(split.value, day), next);
        totals := next;
        k := k + 1;
      }
      assert sessions[..k] == sessions;
      assert ListedUsers(sessions) == db.openSessions.Keys by {
        forall u | u in db.openSessions ensures u in ListedUsers(sessions) {
          assert OpenSession(u, db.openSessions[u]) in sessions;
        }
      }
      LiveSoFarDone(zone, db.dailyTotals, db.openSessions, day, now, totals);
    }

    /** The stored totals of `day` as a dictionary built from the ordered rows. */
    method StoredTotals(day: DayKey) returns (totals: map<UserId, int>)
      ensures totals == StoredForDay(db.dailyTotals, day)
    {
      var rows := db.GetDailyTotals(day);
      totals := map[];
      var i := 0;
      while i < |rows|
        invariant 0 <= i <= |rows|
        invariant forall u :: u in totals <==> exists j :: 0 <= j < i && rows[j].userId == u
        invariant forall u :: u in totals ==> (day, u) in db.dailyTotals && totals[u] == db.dailyTotals[(day, u)]
      {
        totals := totals[rows[i].userId := rows[i].seconds];
        i := i + 1;
      }
      forall u | (day, u) in db.dailyTotals ensures u in totals {
        var j :| 0 <= j < |rows| && rows[j] == DailyTotal(day, u, db.dailyTotals[(day, u)]);
        assert rows[j].userId == u;
      }
    }

    /** `local_day_key`: the local day containing `t`. */
    function LocalDayKey(t: int): (d: DayKey)
      requires ValidZone(zone)
      ensures zone.midnightOf(d) <= t < zone.midnightOf(d + 1)
    {
      zone.dayOf(t)
    }

    /** `previous_local_day_key`: the local day before the one containing `t`, which has ended by `t`. */
    function PreviousLocalDayKey(t: int): (d: DayKey)
      requires ValidZone(zone)
      ensures zone.midnightOf(d + 1) <= t < zone.midnightOf(d + 2)
    {
      zone.dayOf(t) - 1
    }

    /** `midnight_utc_for_local_day`: the first instant of local day `d`. */
    function MidnightUtcForLocalDay(d: DayKey): (m: int)
      requires ValidZone(zone)
      ensures zone.dayOf(m) == d && zone.dayOf(m - 1) == d - 1
    {
      MidnightStep(zone, d - 1);
      DayOfCharacterization(zone, zone.midnightOf(d) - 1, d - 1);
      zone.midnightOf(d)
    }
  }

  /** A second rollover at the same midnight changes no session and credits nothing. */
  lemma RolloverIdempotent(z: Zone, sessions: map<UserId, int>, m: int)
    ensures RolledOver(RolledOver(sessions, m), m) == RolledOver(sessions, m)
    ensures forall v, d :: AccruedOn(z, RolledOver(sessions, m), v, d, m) == 0
  {
  }

  /**
   * Rolling over at `m` and closing later at `end` credits each day exactly
   * what closing at `end` without the rollover would have.
   */
  lemma RolloverLosesNothing(z: Zone, sessions: map<UserId, int>, user: UserId, m: int, end: int, d: DayKey)
    requires user in sessions
    requires m <= end
    ensures AccruedOn(z, sessions, user, d, m) + AccruedOn(z, RolledOver(sessions, m), user, d, end)
            == AccruedOn(z, sessions, user, d, end)
  {
    if sessions[user] < m {
      DayOverlapSplit(z, sessions[user], m, end, d);
    }
  }

  /**
   * After a rollover at `m`, the stored totals of any day are what a live read
   * at `m` would have shown before it: the midnight report may read stored
   * totals only.
   */
  lemma RolloverMatchesLiveRead(z: Zone, before: Totals, after: Totals, sessions: map<UserId, int>, m: int, day: DayKey)
    requires forall k :: k in before ==> before[k] > 0
    requires forall k :: k in after ==> after[k] > 0
    requires forall d, v :: TotalOf(after, d, v) == TotalOf(before, d, v) + AccruedOn(z, sessions, v, d, m)
    ensures StoredForDay(after, day) == DayTotals(z, before, sessions, day, true, m)
  {
    var lhs := StoredForDay(after, day);
    var rhs := DayTotals(z, before, sessions, day, true, m);
    forall u ensures u in lhs <==> u in rhs {
      assert TotalOf(after, day, u) == TotalOf(before, day, u) + AccruedOn(z, sessions, u, day, m);
    }
    forall u | u in lhs ensures lhs[u] == rhs[u] {
      assert TotalOf(after, day, u) == TotalOf(before, day, u) + AccruedOn(z, sessions, u, day, m);
    }
  }

  /**
   * A live read at the rollover's midnight gives the same totals after the
   * rollover as before it: what was live moved into the stored totals.
   */
  lemma LiveReadAfterRollover(z: Zone, before: Totals, after: Totals, sessions: map<UserId, int>, m: int, day: DayKey)
    requires forall k :: k in before ==> before[k] > 0
    requires forall k :: k in after ==> after[k] > 0
    requires forall d, v :: TotalOf(after, d, v) == TotalOf(before, d, v) + AccruedOn(z, sessions, v, d, m)
    ensures DayTotals(z, after, RolledOver(sessions, m), day, true, m) == DayTotals(z, before, sessions, day, true, m)
  {
    var rolled := RolledOver(sessions, m);
    RolloverIdempotent(z, sessions, m);
    RolloverMatchesLiveRead(z, before, after, sessions, m, day);
    var retried := DayTotals(z, after, rolled, day, true, m);
    var stored := StoredForDay(after, day);
    forall u ensures u in retried <==> u in stored {
      assert AccruedOn(z, rolled, u, day, m) == 0;
    }
    forall u | u in retried ensures retried[u] == stored[u] {
      assert AccruedOn(z, rolled, u, day, m) == 0;
    }
  }

  /** A 90-second session in UTC is credited 90 seconds on its day (the same-day end_session example). */
  method EndSessionExample() returns (tracked: int, totals: map<UserId, int>)
    ensures tracked == 90 && totals == map["100" := 90]
  {
    var db := new Database();
    UtcIsValid();
    var tracker := new VoiceTracker(db, Utc());
    var day := 20485;
    var start := 1769940000;
    var started := tracker.StartSession("100", start);
    tracked := tracker.EndSession("100", start + 90);
    totals := tracker.GetTotalsForDay(day, false, start + 90);
    assert TotalOf(db.dailyTotals, day, "100") == 90;
    forall u | u in totals ensures u == "100" {
      assert TotalOf(db.dailyTotals, day, u) > 0;
    }
  }

  /** Stored 120 seconds plus a session open for the last 300 seconds reads 420 live. */
  method LiveTotalsExample() returns (live: int)
    ensures live == 420
  {
    var db := new Database();
    UtcIsValid();
    var tracker := new VoiceTracker(db, Utc());
    var day := 20485;
    var now := 1769947200;
    db.AddDailySeconds(day, "200", 120);
    var _ := db.SetOpenSession("200", Aware(now - 300));
    var totals := tracker.GetTotalsForDay(day, true, now);
    assert "200" in totals;
    live := totals["200"];
  }
}
