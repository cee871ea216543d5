/**
 * Cutting an absolute interval `[start, end)` into one chunk per local day it
 * touches, at local midnights (`split_interval_by_local_day`).
 */
module Splitter {
  import opened Wrappers
  import opened Zones
  import opened Models

  /** A `(local_day, seconds)` pair. */
  datatype Chunk = Chunk(day: DayKey, seconds: int)

  /**
   * The chunks the splitting loop emits from `cursor` on: the chunk of the
   * cursor's local day ends at the next local midnight or at `end`, whichever
   * comes first, and the loop goes on from there.
   */
  function Chunks(z: Zone, cursor: int, end: int): (r: seq<Chunk>)
    requires ValidZone(z)
    decreases end - cursor
  {
    if cursor >= end then []
    else
      var day := z.dayOf(cursor);
      var chunkEnd := Min(end, z.midnightOf(day + 1));
      var seconds := chunkEnd - cursor;
      (if seconds > 0 then [Chunk(day, seconds)] else []) + Chunks(z, chunkEnd, end)
  }

  /**
   * Every chunk is positive, and the days are consecutive from the start's
   * local day on, so they strictly increase and none appears twice.
   */
  lemma {:induction false} ChunksDays(z: Zone, cursor: int, end: int)
    requires ValidZone(z)
    ensures var r := Chunks(z, cursor, end);
            forall i :: 0 <= i < |r| ==> r[i].seconds > 0 && r[i].day == z.dayOf(cursor) + i
    decreases end - cursor
  {
    if cursor < end {
      var day := z.dayOf(cursor);
      var chunkEnd := Min(end, z.midnightOf(day + 1));
      ChunksUnfold(z, cursor, end);
      ChunksDays(z, chunkEnd, end);
      assert chunkEnd < end ==> z.dayOf(chunkEnd) == day + 1 by {
        assert z.dayOf(z.midnightOf(day + 1)) == day + 1;
      }
    }
  }

  lemma ChunksUnfold(z: Zone, cursor: int, end: int)
    requires ValidZone(z)
    requires cursor < end
    ensures var day := z.dayOf(cursor);
            var chunkEnd := Min(end, z.midnightOf(day + 1));
            && cursor < chunkEnd
            && Chunks(z, cursor, end) == [Chunk(day, chunkEnd - cursor)] + Chunks(z, chunkEnd, end)
  {
  }

  /** One turn of the splitting loop: emitting the cursor's chunk and moving on keeps the emitted-plus-remaining chunks the same. */
  lemma ChunksStep(z: Zone, segments: seq<Chunk>, cursor: int, end: int)
    requires ValidZone(z)
    requires cursor < end
    ensures var day := z.dayOf(cursor);
            var chunkEnd := Min(end, z.midnightOf(day + 1));
            && cursor < chunkEnd
            && (segments + [Chunk(day, chunkEnd - cursor)]) + Chunks(z, chunkEnd, end) == segments + Chunks(z, cursor, end)
  {
    ChunksUnfold(z, cursor, end);
    var day := z.dayOf(cursor);
    var chunkEnd := Min(end, z.midnightOf(day + 1));
    var head := [Chunk(day, chunkEnd - cursor)];
    assert (segments + head) + Chunks(z, chunkEnd, end) == segments + (head + Chunks(z, chunkEnd, end));
  }

  /**
   * How many chunks a non-empty interval gives: one per local day from the
   * start's day to the day of its last second.
   */
  lemma {:induction false} ChunksCount(z: Zone, start: int, end: int)
    requires ValidZone(z)
    requires start < end
    ensures |Chunks(z, start, end)| == z.dayOf(end - 1) - z.dayOf(start) + 1
    decreases end - start
  {
    var day := z.dayOf(start);
    var chunkEnd := Min(end, z.midnightOf(day + 1));
    ChunksUnfold(z, start, end);
    DayOfCharacterization(z, start, day);
    if chunkEnd == end {
      assert Chunks(z, chunkEnd, end) == [];
      DayOfCharacterization(z, end - 1, day);
    } else {
      ChunksCount(z, chunkEnd, end);
      assert z.dayOf(z.midnightOf(day + 1)) == day + 1;
    }
  }

  /**
   * The chunks in closed form: chunk `i` is local day `dayOf(start) + i`, and
   * its seconds are the part of `[start, end)` between that day's midnight and
   * the next, for every day from the start's to the end's.
   */
  lemma ChunksClosedForm(z: Zone, start: int, end: int)
    requires ValidZone(z)
    ensures var r := Chunks(z, start, end);
            var d0 := z.dayOf(start);
            && (start < end ==> |r| == z.dayOf(end - 1) - d0 + 1)
            && (end <= start ==> r == [])
            && forall i :: 0 <= i < |r| ==>
                 && r[i].day == d0 + i
                 && r[i].seconds == Min(end, z.midnightOf(d0 + i + 1)) - Max(start, z.midnightOf(d0 + i))
  {
    var r := Chunks(z, start, end);
    ChunksDays(z, start, end);
    if start < end {
      ChunksCount(z, start, end);
    }
    forall i | 0 <= i < |r|
      ensures r[i].seconds == Min(end, z.midnightOf(r[i].day + 1)) - Max(start, z.midnightOf(r[i].day))
    {
      ChunkIsDayOverlap(z, start, end, i);
    }
  }

  /** Sum of the seconds of all chunks. */
  function TotalSeconds(cs: seq<Chunk>): int
  {
    if cs == [] then 0 else TotalSeconds(cs[..|cs| - 1]) + cs[|cs| - 1].seconds
  }

  /** Sum of the seconds of the chunks on local day `d`. */
  function SecondsOn(cs: seq<Chunk>, d: DayKey): int
  {
    if cs == [] then 0
    else SecondsOn(cs[..|cs| - 1], d) + (if cs[|cs| - 1].day == d then cs[|cs| - 1].seconds else 0)
  }

  lemma {:induction false} TotalSecondsConcat(a: seq<Chunk>, b: seq<Chunk>)
    ensures TotalSeconds(a + b) == TotalSeconds(a) + TotalSeconds(b)
    decreases |b|
  {
    if b != [] {
      assert (a + b)[..|a + b| - 1] == a + b[..|b| - 1];
      TotalSecondsConcat(a, b[..|b| - 1]);
    } else {
      assert a + b == a;
    }
  }

  lemma {:induction false} SecondsOnConcat(a: seq<Chunk>, b: seq<Chunk>, d: DayKey)
    ensures SecondsOn(a + b, d) == SecondsOn(a, d) + SecondsOn(b, d)
    decreases |b|
  {
    if b != [] {
      assert (a + b)[..|a + b| - 1] == a + b[..|b| - 1];
      SecondsOnConcat(a, b[..|b| - 1], d);
    } else {
      assert a + b == a;
    }
  }

  /** Nothing is lost or counted twice: the chunks add up to the length of the interval, and to 0 when it is empty. */
  lemma {:induction false} ChunksTotal(z: Zone, start: int, end: int)
    requires ValidZone(z)
    ensures TotalSeconds(Chunks(z, start, end)) == Max(0, end - start)
    decreases end - start
  {
    if start < end {
      var day := z.dayOf(start);
      var chunkEnd := Min(end, z.midnightOf(day + 1));
      var head := [Chunk(day, chunkEnd - start)];
      assert Chunks(z, start, end) == head + Chunks(z, chunkEnd, end);
      TotalSecondsConcat(head, Chunks(z, chunkEnd, end));
      assert TotalSeconds(head) == chunkEnd - start by {
        assert head[..0] == [];
      }
      ChunksTotal(z, chunkEnd, end);
    }
  }

  /** The seconds put on each local day are exactly the part of the interval that falls on that day. */
  lemma {:induction false} ChunksOnDay(z: Zone, start: int, end: int, d: DayKey)
    requires ValidZone(z)
    ensures SecondsOn(Chunks(z, start, end), d) == DayOverlap(z, start, end, d)
    decreases end - start
  {
    if start < end {
      var day := z.dayOf(start);
      var next := z.midnightOf(day + 1);
      var chunkEnd := Min(end, next);
      var head := [Chunk(day, chunkEnd - start)];
      assert Chunks(z, start, end) == head + Chunks(z, chunkEnd, end);
      SecondsOnConcat(head, Chunks(z, chunkEnd, end), d);
      assert SecondsOn(head, d) == if day == d then chunkEnd - start else 0 by {
        assert head[..0] == [];
      }
      ChunksOnDay(z, chunkEnd, end, d);
      OverlapStep(z, start, end, d);
    }
  }

  /** One step of the loop: the part on day `d` is what the current chunk adds plus what the rest of the interval has. */
  lemma OverlapStep(z: Zone, start: int, end: int, d: DayKey)
    requires ValidZone(z)
    requires start < end
    ensures var day := z.dayOf(start);
            var chunkEnd := Min(end, z.midnightOf(day + 1));
            DayOverlap(z, start, end, d) == (if day == d then chunkEnd - start else 0) + DayOverlap(z, chunkEnd, end, d)
  {
    var day := z.dayOf(start);
    DayOfCharacterization(z, start, day);
    if day < d {
      if day + 1 < d { MidnightMonotone(z, day + 1, d); }
      MidnightStep(z, d);
    } else if d < day {
      if d + 1 < day { MidnightMonotone(z, d + 1, day); }
    }
  }

  /** Each chunk holds exactly the part of the interval on its day, and no two chunks share a day. */
  lemma ChunkIsDayOverlap(z: Zone, start: int, end: int, i: nat)
    requires ValidZone(z)
    requires i < |Chunks(z, start, end)|
    ensures var r := Chunks(z, start, end);
            && r[i].seconds == DayOverlap(z, start, end, r[i].day)
            && (forall j :: 0 <= j < |r| && j != i ==> r[j].day != r[i].day)
  {
    var r := Chunks(z, start, end);
    var d := r[i].day;
    ChunksDays(z, start, end);
    ChunksOnDay(z, start, end, d);
    SecondsOnSingle(r, i);
  }

  /** With strictly increasing days, the seconds on the day of chunk `i` are that chunk's. */
  lemma {:induction false} SecondsOnSingle(r: seq<Chunk>, i: nat)
    requires i < |r|
    requires forall j, k :: 0 <= j < k < |r| ==> r[j].day < r[k].day
    ensures SecondsOn(r, r[i].day) == r[i].seconds
  {
    var d := r[i].day;
    var n := |r|;
    if i < n - 1 {
      SecondsOnSingle(r[..n - 1], i);
    } else {
      assert SecondsOn(r[..n - 1], d) == 0 by {
        SecondsOnNone(r[..n - 1], d);
      }
    }
  }

  lemma {:induction false} SecondsOnNone(r: seq<Chunk>, d: DayKey)
    requires forall j :: 0 <= j < |r| ==> r[j].day < d
    ensures SecondsOn(r, d) == 0
  {
    if r != [] {
      SecondsOnNone(r[..|r| - 1], d);
    }
  }

  /** The splitting loop's invariant: what is emitted, followed by what remains from the cursor, is the whole split. */
  ghost predicate SplitSoFar(z: Zone, s: int, e: int, segments: seq<Chunk>, cursor: int)
    requires ValidZone(z)
  {
    cursor <= e && segments + Chunks(z, cursor, e) == Chunks(z, s, e)
  }

  lemma SplitStep(z: Zone, s: int, e: int, segments: seq<Chunk>, cursor: int, day: DayKey, chunkEnd: int)
    requires ValidZone(z)
    requires SplitSoFar(z, s, e, segments, cursor) && cursor < e
    requires day == z.dayOf(cursor) && chunkEnd == Min(e, z.midnightOf(day + 1))
    ensures cursor < chunkEnd
    ensures SplitSoFar(z, s, e, segments + [Chunk(day, chunkEnd - cursor)], chunkEnd)
  {
    ChunksStep(z, segments, cursor, e);
  }

  lemma SplitDone(z: Zone, s: int, e: int, segments: seq<Chunk>, cursor: int)
    requires ValidZone(z)
    requires SplitSoFar(z, s, e, segments, cursor) && cursor >= e
    ensures segments == Chunks(z, s, e)
  {
    assert Chunks(z, cursor, e) == [];
    assert segments == segments + [];
  }

  /**
   * `split_interval_by_local_day`: refuses a naive bound, returns no chunk for
   * an empty or backwards interval, and otherwise walks a cursor from `start`
   * to `end`, one local day at a time.
   */
  method SplitIntervalByLocalDay(z: Zone, start: Stamp, end: Stamp) returns (r: Result<seq<Chunk>, Error>)
    requires ValidZone(z)
    ensures start.Naive? || end.Naive? ==> r == Failure(NaiveDatetime)
    ensures start.Aware? && end.Aware? ==> r == Success(Chunks(z, start.utc, end.utc))
  {
    if start.Naive? || end.Naive? {
      return Failure(NaiveDatetime);
    }
    var s, e := start.utc, end.utc;
    if e <= s {
      return Success([]);
    }
    var segments: seq<Chunk> := [];
    var cursor := s;
    assert segments + Chunks(z, s, e) == Chunks(z, s, e);
    while cursor < e
      invariant SplitSoFar(z, s, e, segments, cursor)
      decreases e - cursor
    {
      var localDay := z.dayOf(cursor);
      var nextMidnight := z.midnightOf(localDay + 1);
      var chunkEnd := Min(e, nextMidnight);
      var chunkSeconds := chunkEnd - cursor;
      SplitStep(z, s, e, segments, cursor, localDay, chunkEnd);
      if chunkSeconds > 0 {
        segments := segments + [Chunk(localDay, chunkSeconds)];
      }
      cursor := chunkEnd;
    }
    SplitDone(z, s, e, segments, cursor);
    return Success(segments);
  }

  /** The New York example: ten minutes either side of a local midnight gives 600 seconds to each day. */
  lemma AcrossMidnight(z: Zone, d: DayKey)
    requires ValidZone(z)
    requires z.midnightOf(d) <= z.midnightOf(d + 1) - 600
    requires z.midnightOf(d + 1) + 600 <= z.midnightOf(d + 2)
    ensures Chunks(z, z.midnightOf(d + 1) - 600, z.midnightOf(d + 1) + 600) == [Chunk(d, 600), Chunk(d + 1, 600)]
  {
    var m := z.midnightOf(d + 1);
    DayOfCharacterization(z, m - 600, d);
    assert z.dayOf(z.midnightOf(d + 1)) == d + 1;
    var tail := Chunks(z, m, m + 600);
    assert tail == [Chunk(d + 1, 600)] + Chunks(z, m + 600, m + 600);
  }

  /** A 90-second interval within one UTC day is one chunk of 90 seconds. */
  lemma NinetySecondsSameDay()
    ensures ValidZone(Utc())
    ensures Chunks(Utc(), 1769940000, 1769940090) == [Chunk(20485, 90)]
  {
    UtcIsValid();
    assert Chunks(Utc(), 1769940090, 1769940090) == [];
  }
}
