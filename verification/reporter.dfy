/**
 * Turns a day's totals into the report: rows with display names ordered by
 * time spent, durations as `HH:MM:SS`, and the message text.
 */
module Reporter {
  import opened Wrappers
  import opened Zones
  import opened Text
  import opened Sorting
  import opened Models
  import opened Store
  import opened Tracker

  /** `f"{k:02}"`: at least two digits, zero-padded. */
  function Pad2(k: nat): (s: string)
    ensures AllDigits(s) && |s| >= 2
    ensures k < 100 ==> |s| == 2
    ensures k >= 10 ==> s[0] != '0'
  {
    if k < 10 then "0" + NatText(k)
    else
      assert k < 100 ==> |NatText(k)| == 2 by {
        if k < 100 { NatTextTwoDigits(k); }
      }
      NatText(k)
  }

  lemma Pad2Value(k: nat)
    ensures DigitsValue(Pad2(k)) == k
  {
    NatTextRoundTrip(k);
    if k < 10 {
      var s := Pad2(k);
      assert s[..|s| - 1] == "0";
      assert s[|s| - 1] == NatText(k)[0];
    }
  }

  /** `format_seconds`: hours, minutes and seconds of a duration, negatives shown as zero. */
  function FormatSeconds(n: int): (s: string)
    ensures |s| >= 8
    ensures n < 360000 ==> |s| == 8
    ensures s[|s| - 3] == ':' && s[|s| - 6] == ':'
    ensures n >= 36000 ==> s[0] != '0'
  {
    var safe := Max(0, n);
    var hours, remainder := safe / 3600, safe % 3600;
    var minutes, seconds := remainder / 60, remainder % 60;
    Pad2(hours) + ":" + Pad2(minutes) + ":" + Pad2(seconds)
  }

  /** Reads `H…H:MM:SS` back as a number of seconds. */
  function ParseDuration(s: string): Option<nat>
  {
    if |s| >= 8 && s[|s| - 3] == ':' && s[|s| - 6] == ':'
       && AllDigits(s[..|s| - 6]) && AllDigits(s[|s| - 5..|s| - 3]) && AllDigits(s[|s| - 2..])
    then Some(DigitsValue(s[..|s| - 6]) * 3600 + DigitsValue(s[|s| - 5..|s| - 3]) * 60 + DigitsValue(s[|s| - 2..]))
    else None
  }

  /** The formatted duration denotes the clamped number of seconds, so no time is lost in the report text. */
  lemma FormatSecondsRoundTrip(n: int)
    ensures ParseDuration(FormatSeconds(n)) == Some(Max(0, n))
    ensures var s := FormatSeconds(n);
            DigitsValue(s[|s| - 5..|s| - 3]) < 60 && DigitsValue(s[|s| - 2..]) < 60
  {
    var safe := Max(0, n);
    var h, m, sec := safe / 3600, (safe % 3600) / 60, (safe % 3600) % 60;
    ClockFields(safe);
    var hs, ms, ss := Pad2(h), Pad2(m), Pad2(sec);
    assert DigitsValue(hs) == h && DigitsValue(ms) == m && DigitsValue(ss) == sec by {
      Pad2Value(h);
      Pad2Value(m);
      Pad2Value(sec);
    }
    var s := FormatSeconds(n);
    assert s == hs + ":" + ms + ":" + ss;
    DurationSlices(hs, ms, ss);
    ParseFields(s, hs, ms, ss);
  }

  /** Hours, minutes and seconds of a non-negative duration add back up to it. */
  lemma ClockFields(safe: nat)
    ensures (safe / 3600) * 3600 + ((safe % 3600) / 60) * 60 + (safe % 3600) % 60 == safe
    ensures (safe % 3600) / 60 < 60 && (safe % 3600) % 60 < 60
  {
    var rem := safe % 3600;
    assert safe == (safe / 3600) * 3600 + rem && rem < 3600;
    assert rem == (rem / 60) * 60 + rem % 60;
  }


  /** A text whose fields sit where `H:MM:SS` puts them parses to the fields' value. */
  lemma ParseFields(s: string, hs: string, ms: string, ss: string)
    requires AllDigits(hs) && AllDigits(ms) && AllDigits(ss)
    requires |s| >= 8 && s[|s| - 3] == ':' && s[|s| - 6] == ':'
    requires s[..|s| - 6] == hs && s[|s| - 5..|s| - 3] == ms && s[|s| - 2..] == ss
    ensures ParseDuration(s) == Some(DigitsValue(hs) * 3600 + DigitsValue(ms) * 60 + DigitsValue(ss))
  {
  }

  /** Where the fields of `H:MM:SS` sit, counted from the end. */
  lemma DurationSlices(hs: string, ms: string, ss: string)
    requires |ms| == 2 && |ss| == 2
    ensures var s := hs + ":" + ms + ":" + ss;
            && |s| == |hs| + 6
            && s[..|s| - 6] == hs && s[|s| - 5..|s| - 3] == ms && s[|s| - 2..] == ss
            && s[|s| - 3] == ':' && s[|s| - 6] == ':'
  {
    var tail := ":" + ms + ":" + ss;
    var s := hs + tail;
    assert hs + ":" + ms + ":" + ss == s;
    assert |tail| == 6;
    assert s[..|hs|] == hs;
    assert tail[1..3] == ms && tail[4..] == ss;
    assert s[|s| - 5..|s| - 3] == tail[1..3];
    assert s[|s| - 2..] == tail[4..];
    assert s[|s| - 3] == tail[3] && s[|s| - 6] == tail[0];
  }

  lemma Pad2Examples()
    ensures Pad2(0) == "00" && Pad2(1) == "01" && Pad2(25) == "25"
  {
    assert NatText(0) == "0" && NatText(1) == "1";
    assert NatText(25) == NatText(2) + [DigitChar(5)];
  }

  lemma FormatZeroExample()
    ensures FormatSeconds(0) == "00:00:00" && FormatSeconds(-5) == "00:00:00"
  {
    Pad2Examples();
  }

  lemma FormatHourMinuteSecondExample()
    ensures FormatSeconds(3661) == "01:01:01"
  {
    Pad2Examples();
  }

  lemma FormatDayExample()
    ensures FormatSeconds(90000) == "25:00:00"
  {
    Pad2Examples();
  }

  lemma FormatSecondsExamples()
    ensures FormatSeconds(0) == "00:00:00"
    ensures FormatSeconds(-5) == "00:00:00"
    ensures FormatSeconds(3661) == "01:01:01"
    ensures FormatSeconds(90000) == "25:00:00"
  {
    FormatZeroExample();
    FormatHourMinuteSecondExample();
    FormatDayExample();
  }




  /** The name shown for a user: the member's display name, or `User <id>` when not a member. */
  function DisplayName(members: map<UserId, string>, user: UserId): (name: string)
    ensures user in members ==> name == members[user]
    ensures user !in members ==> |name| == |user| + 5 && name[..5] == "User " && name[5..] == user
  {
    if user in members then members[user] else "User " + user
  }

  function RowFor(members: map<UserId, string>, user: UserId, seconds: int): ReportRow
  {
    ReportRow(user, DisplayName(members, user), seconds)
  }

  /** The report order: more seconds first, then display names by their lower-cased form. */
  function ReportLe(lower: string -> string): (ReportRow, ReportRow) -> bool
  {
    (a: ReportRow, b: ReportRow) =>
      a.seconds > b.seconds || (a.seconds == b.seconds && StrLe(lower(a.displayName), lower(b.displayName)))
  }

  lemma ReportLeIsPreorder(lower: string -> string)
    ensures TotalPreorder(ReportLe(lower))
  {
    var le := ReportLe(lower);
    forall a, b ensures le(a, b) || le(b, a) {
      StrLeTotal(lower(a.displayName), lower(b.displayName));
    }
    forall a, b, c | le(a, b) && le(b, c) ensures le(a, c) {
      if a.seconds == b.seconds == c.seconds {
        StrLeTransitive(lower(a.displayName), lower(b.displayName), lower(c.displayName));
      }
    }
  }

  /** The rows of every user with positive time, in dictionary order (left unspecified). */
  method CollectRows(totals: map<UserId, int>, members: map<UserId, string>) returns (found: seq<ReportRow>)
    ensures forall i :: 0 <= i < |found| ==>
              found[i].userId in totals && totals[found[i].userId] > 0
              && found[i] == RowFor(members, found[i].userId, totals[found[i].userId])
    ensures forall u :: u in totals && totals[u] > 0 ==> RowFor(members, u, totals[u]) in found
    ensures Distinct(found)
  {
    var pending := totals.Keys;
    found := [];
    while pending != {}
      invariant pending <= totals.Keys
      invariant forall i :: 0 <= i < |found| ==>
                  found[i].userId in totals && totals[found[i].userId] > 0
                  && found[i] == RowFor(members, found[i].userId, totals[found[i].userId])
                  && found[i].userId !in pending
      invariant forall u :: u in totals && totals[u] > 0 && u !in pending ==> RowFor(members, u, totals[u]) in found
      invariant forall i, j :: 0 <= i < j < |found| ==> found[i].userId != found[j].userId
      decreases pending
    {
      var u :| u in pending;
      if totals[u] > 0 {
        found := found + [RowFor(members, u, totals[u])];
      }
      pending := pending - {u};
    }
  }

  /** Bob with 300 seconds is listed before Alice with 100, whatever order they arrive in. */
  lemma ReportOrderExample(lower: string -> string)
    ensures SortBy([ReportRow("1", "Alice", 100), ReportRow("2", "Bob", 300)], ReportLe(lower))
            == [ReportRow("2", "Bob", 300), ReportRow("1", "Alice", 100)]
    ensures SortBy([ReportRow("2", "Bob", 300), ReportRow("1", "Alice", 100)], ReportLe(lower))
            == [ReportRow("2", "Bob", 300), ReportRow("1", "Alice", 100)]
  {
    var alice, bob := ReportRow("1", "Alice", 100), ReportRow("2", "Bob", 300);
    var le := ReportLe(lower);
    assert [alice, bob][..1] == [alice];
    assert [bob, alice][..1] == [bob];
    assert SortBy([alice], le) == [alice] by {
      assert [alice][..0] == [];
    }
    assert SortBy([bob], le) == [bob] by {
      assert [bob][..0] == [];
    }
    assert le(bob, alice) && !le(alice, bob);
    assert Insert(bob, [alice], le) == [bob, alice] by {
      assert InsertPos(bob, [alice], le) == 0;
    }
    assert Insert(alice, [bob], le) == [bob, alice] by {
      assert InsertPos(alice, [bob], le) == 1;
    }
  }

  /** Sorting the report rows keeps exactly the same rows, without repeats. */
  lemma SortKeepsReportRows(found: seq<ReportRow>, lower: string -> string)
    requires Distinct(found)
    ensures var rows := SortBy(found, ReportLe(lower));
            && Sorted(rows, ReportLe(lower))
            && (forall x :: x in rows <==> x in found)
            && Distinct(rows)
  {
    var rows := SortBy(found, ReportLe(lower));
    ReportLeIsPreorder(lower);
    SortBySorted(found, ReportLe(lower));
    forall x ensures x in rows <==> x in found {
      assert x in multiset(rows) <==> x in multiset(found);
    }
    PermutationKeepsDistinct(found, rows);
  }

  /** `rows` is the report of `totals`: sorted, one row per user with positive time, each with that time. */
  ghost predicate ReportsLiveTotals(rows: seq<ReportRow>, members: map<UserId, string>, lower: string -> string,
                                    totals: map<UserId, int>)
  {
    && Sorted(rows, ReportLe(lower))
    && (forall i :: 0 <= i < |rows| ==>
          rows[i].userId in totals && totals[rows[i].userId] > 0
          && rows[i] == RowFor(members, rows[i].userId, totals[rows[i].userId]))
    && (forall u :: u in totals && totals[u] > 0 ==> RowFor(members, u, totals[u]) in rows)
    && (forall i, j :: 0 <= i < j < |rows| ==> rows[i].userId != rows[j].userId)
  }

  class Reporter {
    const tracker: VoiceTracker

    constructor (tracker: VoiceTracker)
      ensures this.tracker == tracker
    {
      this.tracker := tracker;
    }

    /**
     * `build_rows_for_day`: one row per user whose total for `day` is
     * positive, named from `members`, ordered by `ReportLe`. `lower` is the
     * case folding applied to names before they are compared.
     */
    method BuildRowsForDay(members: map<UserId, string>, lower: string -> string, day: DayKey, includeLive: bool, now: int)
      returns (rows: seq<ReportRow>)
      requires tracker.Valid()
      ensures ReportsLiveTotals(rows, members, lower,
                                DayTotals(tracker.zone, tracker.db.dailyTotals, tracker.db.openSessions, day, includeLive, now))
    {
      var totals := tracker.GetTotalsForDay(day, includeLive, now);
      var found := CollectRows(totals, members);
      rows := SortBy(found, ReportLe(lower));
      SortKeepsReportRows(found, lower);
      forall i | 0 <= i < |rows|
        ensures rows[i].userId in totals && totals[rows[i].userId] > 0
        ensures rows[i] == RowFor(members, rows[i].userId, totals[rows[i].userId])
      {
        assert rows[i] in found;
      }
      forall i, j | 0 <= i < j < |rows| ensures rows[i].userId != rows[j].userId {
        assert rows[i] in found && rows[j] in found;
        assert rows[i] != rows[j];
      }
    }
  }

  /** The bold first line, naming the reported day. */
  function Header(day: DayKey): (h: string)
    ensures NoNewline(h)
  {
    IntTextHasNoNewline(day);
    "**Daily Voice Activity - " + IntText(day) + "**"
  }

  /** The header names its day in a form that reads back as that day. */
  lemma HeaderNamesDay(day: DayKey)
    ensures var h := Header(day);
            |h| >= 27 && ParseInt(h[25..|h| - 2]) == Some(day)
  {
    var pre := "**Daily Voice Activity - ";
    assert |pre| == 25;
    Infix(pre, IntText(day), "**");
    IntTextRoundTrip(day);
  }

  /** The line naming the tracked channel. */
  function ChannelLine(channelName: string): (line: string)
    ensures NoNewline(channelName) ==> NoNewline(line)
  {
    "Tracked channel: #" + channelName
  }

  /** The channel line holds the channel name verbatim after the `#`. */
  lemma ChannelLineNamesChannel(channelName: string)
    ensures var line := ChannelLine(channelName);
            |line| >= 18 && line[17] == '#' && line[18..] == channelName
  {
    var pre := "Tracked channel: #";
    assert |pre| == 18 && pre[17] == '#';
    Infix(pre, channelName, "");
  }

  /** A row's line: the display name, then its duration between backticks. */
  function RowLine(row: ReportRow): (line: string)
    ensures NoNewline(row.displayName) ==> NoNewline(line)
  {
    var f := FormatSeconds(row.seconds);
    assert NoNewline(f) by {
      forall j | 0 <= j < |f| ensures f[j] != '\n' {
        FormatSecondsHasNoNewline(row.seconds, j);
      }
    }
    "- " + row.displayName + ": `" + f + "`"
  }

  /**
   * A row's line gives back the row: the display name sits after the dash, and
   * the duration between the backticks reads as the row's clamped seconds.
   */
  lemma RowLineFields(row: ReportRow)
    ensures var line, k := RowLine(row), |row.displayName|;
            && |line| >= k + 14
            && line[2..2 + k] == row.displayName
            && ParseDuration(line[k + 5..|line| - 1]) == Some(Max(0, row.seconds))
  {
    var f := FormatSeconds(row.seconds);
    Between("- ", row.displayName, ": `", f, "`");
    assert |"- "| == 2 && |": `"| == 3 && |"`"| == 1;
    FormatSecondsRoundTrip(row.seconds);
  }

  function RowLines(rows: seq<ReportRow>): (lines: seq<string>)
    ensures |lines| == |rows|
    ensures forall i :: 0 <= i < |rows| ==> lines[i] == RowLine(rows[i])
  {
    if rows == [] then [] else [RowLine(rows[0])] + RowLines(rows[1..])
  }

  /**
   * `build_report_content`: a header naming the day, the tracked channel, and
   * then one line per row, or a single "no activity" line when there are no
   * rows. Read line by line, the text gives exactly those lines back whenever
   * the names carry no newline.
   */
  function BuildReportContent(day: DayKey, channelName: string, rows: seq<ReportRow>): (content: string)
    ensures NoNewline(channelName) && (forall i :: 0 <= i < |rows| ==> NoNewline(rows[i].displayName)) ==>
              SplitLines(content) == [Header(day), ChannelLine(channelName)] + BodyLines(day, rows)
  {
    ReportTextLines(day, channelName, rows);
    Header(day) + "\n" + ChannelLine(channelName) + "\n" + JoinLines(BodyLines(day, rows))
  }

  /** The body lines under the header: the row lines, or the "no activity" line. */
  function BodyLines(day: DayKey, rows: seq<ReportRow>): (lines: seq<string>)
    ensures rows == [] ==> lines == ["No tracked activity for " + IntText(day) + "."]
    ensures rows != [] ==> |lines| == |rows| && forall i :: 0 <= i < |rows| ==> lines[i] == RowLine(rows[i])
  {
    if rows == [] then ["No tracked activity for " + IntText(day) + "."] else RowLines(rows)
  }

  lemma IntTextHasNoNewline(n: int)
    ensures NoNewline(IntText(n))
  {
    if n < 0 {
      assert IntText(n) == "-" + NatText(-n);
    }
  }

  /** Under the no-newline assumption on names, no body line holds a newline. */
  lemma BodyLinesHaveNoNewline(day: DayKey, rows: seq<ReportRow>)
    requires forall i :: 0 <= i < |rows| ==> NoNewline(rows[i].displayName)
    ensures forall i :: 0 <= i < |BodyLines(day, rows)| ==> NoNewline(BodyLines(day, rows)[i])
  {
    if rows == [] {
      IntTextHasNoNewline(day);
    } else {
      forall i | 0 <= i < |rows| ensures NoNewline(RowLines(rows)[i]) {
        assert NoNewline(rows[i].displayName);
      }
    }
  }

  /** The report's text splits back into its header, channel line and body lines. */
  lemma ReportTextLines(day: DayKey, channelName: string, rows: seq<ReportRow>)
    ensures NoNewline(channelName) && (forall i :: 0 <= i < |rows| ==> NoNewline(rows[i].displayName)) ==>
              SplitLines(Header(day) + "\n" + ChannelLine(channelName) + "\n" + JoinLines(BodyLines(day, rows)))
              == [Header(day), ChannelLine(channelName)] + BodyLines(day, rows)
  {
    if NoNewline(channelName) && (forall i :: 0 <= i < |rows| ==> NoNewline(rows[i].displayName)) {
      var body := BodyLines(day, rows);
      var lines := [Header(day), ChannelLine(channelName)] + body;
      BodyLinesHaveNoNewline(day, rows);
      NoNewlineInLines(Header(day), ChannelLine(channelName), body);
      SplitJoinLines(lines);
      JoinTwoThenRest(Header(day), ChannelLine(channelName), body);
    }
  }

  lemma FormatSecondsHasNoNewline(n: int, j: int)
    requires 0 <= j < |FormatSeconds(n)|
    ensures FormatSeconds(n)[j] != '\n'
  {
    var safe := Max(0, n);
    var hs, ms, ss := Pad2(safe / 3600), Pad2((safe % 3600) / 60), Pad2((safe % 3600) % 60);
    var s := hs + ":" + ms + ":" + ss;
    assert FormatSeconds(n) == s;
    if j < |hs| {
      assert s[j] == hs[j];
    } else if j == |hs| || j == |hs| + 3 {
    } else if j < |hs| + 3 {
      assert s[j] == ms[j - |hs| - 1];
    } else {
      assert s[j] == ss[j - |hs| - 4];
    }
  }

  /** A day with no rows reads "No tracked activity for" the day, under the header and channel line. */
  lemma EmptyReportExample(day: DayKey)
    ensures SplitLines(BuildReportContent(day, "focus-room", []))
            == [Header(day), "Tracked channel: #focus-room", "No tracked activity for " + IntText(day) + "."]
  {
    assert ChannelLine("focus-room") == "Tracked channel: #focus-room";
  }

  lemma AnnLine(day: DayKey)
    ensures BodyLines(day, [ReportRow("1", "Ann", 3661)]) == ["- Ann: `01:01:01`"]
  {
    FormatHourMinuteSecondExample();
    assert RowLine(ReportRow("1", "Ann", 3661)) == "- Ann: `01:01:01`";
  }

  /** One row of 3661 seconds for Ann reads as the line "- Ann: `01:01:01`". */
  lemma OneRowReportExample(day: DayKey)
    ensures SplitLines(BuildReportContent(day, "focus-room", [ReportRow("1", "Ann", 3661)]))
            == [Header(day), "Tracked channel: #focus-room", "- Ann: `01:01:01`"]
  {
    var rows := [ReportRow("1", "Ann", 3661)];
    var lines := [Header(day), ChannelLine("focus-room")] + BodyLines(day, rows);
    assert SplitLines(BuildReportContent(day, "focus-room", rows)) == lines by {
      assert NoNewline("focus-room") && NoNewline(rows[0].displayName);
    }
    assert lines == [Header(day), "Tracked channel: #focus-room", "- Ann: `01:01:01`"] by {
      AnnLine(day);
      assert ChannelLine("focus-room") == "Tracked channel: #focus-room";
    }
  }


}
