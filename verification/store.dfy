/**
 * The persistent store: three tables held as maps.
 *
 *   open_sessions  user -> start instant          (one row per user)
 *   daily_totals   (local day, user) -> seconds   (one row per pair)
 *   meta           key -> text                    (scheduler and cooldown markers)
 */
module Store {
  import opened Wrappers
  import opened Zones
  import opened Text
  import opened Sorting
  import opened Models

  type Totals = map<(DayKey, UserId), int>

  /** The stored total of a user on a day, 0 when there is no row. */
  function TotalOf(totals: Totals, day: DayKey, user: UserId): int
  {
    if (day, user) in totals then totals[(day, user)] else 0
  }

  /** Normalizes a datetime for storage; a naive one is refused. */
  function ToUtc(s: Stamp): (r: Result<int, Error>)
    ensures r.Success? <==> s.Aware?
    ensures r.Failure? ==> r.error == NaiveDatetime
    ensures s.Aware? ==> r == Success(s.utc)
  {
    match s
    case Aware(t) => Success(t)
    case Naive(_) => Failure(NaiveDatetime)
  }

  /** `ORDER BY seconds DESC, user_id ASC` as a comparison of rows. */
  predicate TotalRowLe(a: DailyTotal, b: DailyTotal)
  {
    a.seconds > b.seconds || (a.seconds == b.seconds && StrLe(a.userId, b.userId))
  }

  lemma TotalRowLeIsPreorder()
    ensures TotalPreorder(TotalRowLe)
  {
    forall a, b ensures TotalRowLe(a, b) || TotalRowLe(b, a) {
      StrLeTotal(a.userId, b.userId);
    }
    forall a, b, c | TotalRowLe(a, b) && TotalRowLe(b, c) ensures TotalRowLe(a, c) {
      if a.seconds == b.seconds == c.seconds {
        StrLeTransitive(a.userId, b.userId, c.userId);
      }
    }
  }

  /** The users with a stored row for `day`. */
  function UsersOn(totals: Totals, day: DayKey): (users: set<UserId>)
    ensures forall u :: u in users <==> (day, u) in totals
  {
    var users := set k | k in totals && k.0 == day :: k.1;
    assert forall u :: (day, u) in totals ==> u in users by {
      forall u | (day, u) in totals ensures u in users {
        var k := (day, u);
        assert k in totals && k.0 == day;
      }
    }
    users
  }

  /** The stored totals of one day as a user -> seconds dictionary. */
  function StoredForDay(totals: Totals, day: DayKey): (m: map<UserId, int>)
    ensures forall u :: u in m <==> (day, u) in totals
    ensures forall u :: u in m ==> m[u] == totals[(day, u)]
  {
    map u | u in UsersOn(totals, day) :: totals[(day, u)]
  }

  class Database {
    var openSessions: map<UserId, int>
    var dailyTotals: Totals
    var meta: map<string, string>
    var closed: bool

    /** Rows are only ever created and increased by positive amounts. */
    ghost predicate Valid()
      reads this
    {
      forall k :: k in dailyTotals ==> dailyTotals[k] > 0
    }

    /** A new database file with its three empty tables. */
    constructor ()
      ensures Valid() && !closed
      ensures openSessions == map[] && dailyTotals == map[] && meta == map[]
    {
      openSessions, dailyTotals, meta, closed := map[], map[], map[], false;
    }

    /** Closing twice is harmless. */
    method Close()
      modifies this
      ensures closed
      ensures openSessions == old(openSessions) && dailyTotals == old(dailyTotals) && meta == old(meta)
    {
      if closed {
        return;
      }
      closed := true;
    }

    /** Upsert: afterwards the user has exactly one open session, starting at `started`. */
    method SetOpenSession(user: UserId, started: Stamp) returns (r: Outcome<Error>)
      modifies this
      ensures r == if started.Aware? then Pass else Fail(NaiveDatetime)
      ensures openSessions == if started.Aware? then old(openSessions)[user := started.utc] else old(openSessions)
      ensures dailyTotals == old(dailyTotals) && meta == old(meta) && closed == old(closed)
    {
      var utc := ToUtc(started);
      if utc.Failure? {
        return Fail(utc.error);
      }
      openSessions := openSessions[user := utc.value];
      return Pass;
    }

    method GetOpenSession(user: UserId) returns (s: Option<OpenSession>)
      ensures s.Some? <==> user in openSessions
      ensures s.Some? ==> s.value == OpenSession(user, openSessions[user])
    {
      if user !in openSessions {
        return None;
      }
      return Some(OpenSession(user, openSessions[user]));
    }

    /** Removes the user's row, if any, and nothing else. */
    method DeleteOpenSession(user: UserId)
      modifies this
      ensures openSessions == old(openSessions) - {user}
      ensures dailyTotals == old(dailyTotals) && meta == old(meta) && closed == old(closed)
    {
      openSessions := openSessions - {user};
    }

    method ClearOpenSessions()
      modifies this
      ensures openSessions == map[]
      ensures dailyTotals == old(dailyTotals) && meta == old(meta) && closed == old(closed)
    {
      openSessions := map[];
    }

    /** Every open session once, in no particular order. */
    method ListOpenSessions() returns (sessions: seq<OpenSession>)
      ensures forall i :: 0 <= i < |sessions| ==>
                sessions[i].userId in openSessions && sessions[i].startedAt == openSessions[sessions[i].userId]
      ensures forall u :: u in openSessions ==> OpenSession(u, openSessions[u]) in sessions
      ensures forall i, j :: 0 <= i < j < |sessions| ==> sessions[i].userId != sessions[j].userId
    {
      var pending := openSessions.Keys;
      sessions := [];
      while pending != {}
        invariant pending <= openSessions.Keys
        invariant forall i :: 0 <= i < |sessions| ==>
                    sessions[i].userId in openSessions && sessions[i].startedAt == openSessions[sessions[i].userId]
                    && sessions[i].userId !in pending
        invariant forall u :: u in openSessions && u !in pending ==> OpenSession(u, openSessions[u]) in sessions
        invariant forall i, j :: 0 <= i < j < |sessions| ==> sessions[i].userId != sessions[j].userId
        decreases pending
      {
        var u :| u in pending;
        sessions := sessions + [OpenSession(u, openSessions[u])];
        pending := pending - {u};
      }
    }

    /** Adds positive seconds to a (day, user) row, creating it if absent; anything else is ignored. */
    method AddDailySeconds(day: DayKey, user: UserId, seconds: int)
      requires Valid()
      modifies this
      ensures Valid()
      ensures dailyTotals == if seconds <= 0 then old(dailyTotals)
                             else old(dailyTotals)[(day, user) := TotalOf(old(dailyTotals), day, user) + seconds]
      ensures openSessions == old(openSessions) && meta == old(meta) && closed == old(closed)
    {
      if seconds <= 0 {
        return;
      }
      dailyTotals := dailyTotals[(day, user) := TotalOf(dailyTotals, day, user) + seconds];
    }

    /** The rows of one day, by seconds descending and then user id ascending. */
    method GetDailyTotals(day: DayKey) returns (rows: seq<DailyTotal>)
      ensures Sorted(rows, TotalRowLe)
      ensures forall i :: 0 <= i < |rows| ==>
                (day, rows[i].userId) in dailyTotals
                && rows[i] == DailyTotal(day, rows[i].userId, dailyTotals[(day, rows[i].userId)])
      ensures forall u :: (day, u) in dailyTotals ==> DailyTotal(day, u, dailyTotals[(day, u)]) in rows
      ensures forall i, j :: 0 <= i < j < |rows| ==> rows[i].userId != rows[j].userId
    {
      var found := RowsOfDay(day);
      rows := SortBy(found, TotalRowLe);
      SortKeepsRows(found);
      forall i | 0 <= i < |rows|
        ensures (day, rows[i].userId) in dailyTotals
        ensures rows[i] == DailyTotal(day, rows[i].userId, dailyTotals[(day, rows[i].userId)])
      {
        assert rows[i] in found;
      }
      forall i, j | 0 <= i < j < |rows| ensures rows[i].userId != rows[j].userId {
        assert rows[i] in found && rows[j] in found;
        assert rows[i] != rows[j];
      }
    }

    /** The rows of one day in no particular order. */
    method RowsOfDay(day: DayKey) returns (found: seq<DailyTotal>)
      ensures forall i :: 0 <= i < |found| ==>
                (day, found[i].userId) in dailyTotals
                && found[i] == DailyTotal(day, found[i].userId, dailyTotals[(day, found[i].userId)])
      ensures forall u :: (day, u) in dailyTotals ==> DailyTotal(day, u, dailyTotals[(day, u)]) in found
      ensures Distinct(found)
    {
      var pending := UsersOn(dailyTotals, day);
      found := [];
      while pending != {}
        invariant pending <= UsersOn(dailyTotals, day)
        invariant forall i :: 0 <= i < |found| ==>
                    (day, found[i].userId) in dailyTotals
                    && found[i] == DailyTotal(day, found[i].userId, dailyTotals[(day, found[i].userId)])
                    && found[i].userId !in pending
        invariant forall u :: (day, u) in dailyTotals && u !in pending ==> DailyTotal(day, u, dailyTotals[(day, u)]) in found
        invariant forall i, j :: 0 <= i < j < |found| ==> found[i].userId != found[j].userId
        decreases pending
      {
        var u :| u in pending;
        found := found + [DailyTotal(day, u, dailyTotals[(day, u)])];
        pending := pending - {u};
      }
    }

    method GetMeta(key: string) returns (value: Option<string>)
      ensures value == if key in meta then Some(meta[key]) else None
    {
      if key !in meta {
        return None;
      }
      return Some(meta[key]);
    }

    /** Upsert of a marker. */
    method SetMeta(key: string, value: string)
      modifies this
      ensures meta == old(meta)[key := value]
      ensures openSessions == old(openSessions) && dailyTotals == old(dailyTotals) && closed == old(closed)
    {
      meta := meta[key := value];
    }
  }

  /** Sorting the rows keeps exactly the same rows, without repeats when there were none. */
  lemma SortKeepsRows(found: seq<DailyTotal>)
    ensures var rows := SortBy(found, TotalRowLe);
            && Sorted(rows, TotalRowLe)
            && (forall x :: x in rows <==> x in found)
            && (Distinct(found) ==> Distinct(rows))
  {
    var rows := SortBy(found, TotalRowLe);
    TotalRowLeIsPreorder();
    SortBySorted(found, TotalRowLe);
    forall x ensures x in rows <==> x in found {
      assert x in multiset(rows) <==> x in multiset(found);
    }
    if Distinct(found) {
      PermutationKeepsDistinct(found, rows);
    }
  }

  /** What an add does to each (day, user) total: only the named one grows, and only by a positive amount. */
  lemma AddDailyPointwise(totals: Totals, day: DayKey, user: UserId, seconds: int, d: DayKey, v: UserId)
    ensures var after := if seconds <= 0 then totals else totals[(day, user) := TotalOf(totals, day, user) + seconds];
            TotalOf(after, d, v) == TotalOf(totals, d, v) + (if (d, v) == (day, user) && seconds > 0 then seconds else 0)
  {
  }

  /** `set_meta(k, v)` then `get_meta(k)` reads `v` back. */
  method SetThenGetMeta(db: Database, key: string, value: string) returns (read: Option<string>)
    modifies db
    ensures read == Some(value)
  {
    db.SetMeta(key, value);
    read := db.GetMeta(key);
  }
}
