/** The records the store hands out and the report lists, and the errors the core raises. */
module Models {
  import opened Zones

  /** A member id in its text form, `str(member.id)`. */
  type UserId = string

  /** A user present in the tracked channel since an instant whose time is not yet credited. */
  datatype OpenSession = OpenSession(userId: UserId, startedAt: int)

  /** Seconds credited to a user on one local day. */
  datatype DailyTotal = DailyTotal(day: DayKey, userId: UserId, seconds: int)

  /** One line of a report. */
  datatype ReportRow = ReportRow(userId: UserId, displayName: string, seconds: int)

  datatype Error =
    | NaiveDatetime       // a timezone-naive datetime where an absolute instant is required
    | MalformedTimestamp  // a stored timestamp that does not parse
}
