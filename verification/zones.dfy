/**
 * Absolute instants and local calendar days.
 *
 * An instant is a whole number of seconds on the UTC time line. A timezone is
 * seen only through its local calendar: `dayOf(t)` is the local day an instant
 * falls on and `midnightOf(d)` the instant at which local day `d` begins. Local
 * days need not be 86400 seconds long, which is how daylight-saving
 * transitions show up here. A valid zone has a local midnight for every day.
 */
module Zones {

  /** Day numbers stand for ISO dates; they order the same way. */
  type DayKey = int

  datatype Zone = Zone(dayOf: int -> DayKey, midnightOf: DayKey -> int)

  /** A `datetime` that is either timezone-aware (an absolute instant) or naive. */
  datatype Stamp = Aware(utc: int) | Naive(wall: int)

  /**
   * Every instant lies in its own local day, and the local midnight of a day
   * lies in that day.
   */
  ghost predicate ValidZone(z: Zone)
  {
    && (forall t :: z.midnightOf(z.dayOf(t)) <= t < z.midnightOf(z.dayOf(t) + 1))
    && (forall d {:trigger z.dayOf(z.midnightOf(d))} :: z.dayOf(z.midnightOf(d)) == d)
  }

  /** Coordinated Universal Time: every local day is 86400 seconds long. */
  function Utc(): Zone
  {
    Zone(t => t / 86400, d => d * 86400)
  }

  lemma UtcIsValid()
    ensures ValidZone(Utc())
  {
    var z := Utc();
    forall t ensures z.midnightOf(z.dayOf(t)) <= t < z.midnightOf(z.dayOf(t) + 1) {
      var d := t / 86400;
      assert d * 86400 <= t < (d + 1) * 86400;
    }
    forall d ensures z.dayOf(z.midnightOf(d)) == d {
      assert (d * 86400) / 86400 == d;
    }
  }

  lemma MidnightStep(z: Zone, d: DayKey)
    requires ValidZone(z)
    ensures z.midnightOf(d) < z.midnightOf(d + 1)
  {
    var t := z.midnightOf(d);
    assert z.dayOf(z.midnightOf(d)) == d;
    assert z.midnightOf(z.dayOf(t)) <= t < z.midnightOf(z.dayOf(t) + 1);
  }

  /** Local midnights are strictly increasing. */
  lemma {:induction false} MidnightMonotone(z: Zone, a: DayKey, b: DayKey)
    requires ValidZone(z)
    requires a < b
    ensures z.midnightOf(a) < z.midnightOf(b)
    decreases b - a
  {
    MidnightStep(z, a);
    if a + 1 < b {
      MidnightMonotone(z, a + 1, b);
    }
  }

  /** An instant lies in local day `d` exactly when it is on or after that day's midnight and before the next. */
  lemma DayOfCharacterization(z: Zone, t: int, d: DayKey)
    requires ValidZone(z)
    ensures z.dayOf(t) == d <==> z.midnightOf(d) <= t < z.midnightOf(d + 1)
  {
    var e := z.dayOf(t);
    assert z.midnightOf(e) <= t < z.midnightOf(e + 1);
    if e < d {
      if e + 1 < d { MidnightMonotone(z, e + 1, d); }
    } else if d < e {
      if d + 1 < e { MidnightMonotone(z, d + 1, e); }
    }
  }

  function Min(a: int, b: int): int { if a <= b then a else b }
  function Max(a: int, b: int): int { if a <= b then b else a }

  /** Length of the intersection of the half-open intervals `[s, e)` and `[a, b)`. */
  function Overlap(s: int, e: int, a: int, b: int): (n: nat)
    ensures n <= Max(0, e - s) && n <= Max(0, b - a)
  {
    Max(0, Min(e, b) - Max(s, a))
  }

  /** How much of `[s, e)` falls on local day `d`. */
  function DayOverlap(z: Zone, s: int, e: int, d: DayKey): nat
  {
    Overlap(s, e, z.midnightOf(d), z.midnightOf(d + 1))
  }

  /**
   * Cutting an interval at an instant loses nothing: the part of `[s, e)` on a
   * day is the part of `[s, m)` on it plus the part of `[m, e)` on it.
   */
  lemma DayOverlapSplit(z: Zone, s: int, m: int, e: int, d: DayKey)
    requires s <= m <= e
    ensures DayOverlap(z, s, e, d) == DayOverlap(z, s, m, d) + DayOverlap(z, m, e, d)
  {
  }

  /** A span covering a whole local day is credited the day's true length, 23 or 25 hours on a DST day. */
  lemma WholeDayOverlap(z: Zone, s: int, e: int, d: DayKey)
    requires ValidZone(z)
    requires s <= z.midnightOf(d) && z.midnightOf(d + 1) <= e
    ensures DayOverlap(z, s, e, d) == z.midnightOf(d + 1) - z.midnightOf(d)
  {
    MidnightStep(z, d);
  }
}
