/** The police_stops table: one traffic-stop record per row.

    The 0/1 columns (search_conducted, is_arrested, drugs_related_stop) are
    booleans here; stop_date and stop_time are integer triples compared field
    by field, which is how the table orders them. */
module Stops {

  /** A calendar date (year, month, day). */
  datatype Date = Date(year: int, month: int, day: int)

  /** A time of day as stored by the entry form, HH:MM:SS. */
  datatype Time = Time(hour: int, minute: int, second: int)

  /** One row of police_stops, with the columns in the table's own order. */
  datatype StopRecord = StopRecord(
    country: string,
    vehicleNumber: string,
    stopDate: Date,
    stopTime: Time,
    driverGender: string,
    driverAge: int,
    driverRace: string,
    violation: string,
    searchConducted: bool,
    searchType: string,
    stopOutcome: string,
    isArrested: bool,
    drugsRelatedStop: bool,
    stopDuration: string)

  /** Chronological order on dates. */
  predicate DateLe(a: Date, b: Date) {
    a.year < b.year
    || (a.year == b.year && (a.month < b.month || (a.month == b.month && a.day <= b.day)))
  }

  /** Chronological order on times of day. */
  predicate TimeLe(a: Time, b: Time) {
    a.hour < b.hour
    || (a.hour == b.hour && (a.minute < b.minute || (a.minute == b.minute && a.second <= b.second)))
  }

  /** `ORDER BY stop_date DESC, stop_time DESC`: a may be listed ahead of b.
      Records with the same date and time tie. */
  predicate AtLeastAsRecent(a: StopRecord, b: StopRecord) {
    if a.stopDate == b.stopDate then TimeLe(b.stopTime, a.stopTime)
    else DateLe(b.stopDate, a.stopDate)
  }

  /** a is strictly more recent than b: later date, or the same date and a later time. */
  predicate MoreRecent(a: StopRecord, b: StopRecord) {
    AtLeastAsRecent(a, b) && !AtLeastAsRecent(b, a)
  }

  lemma DateLeIsTotalOrder(a: Date, b: Date, c: Date)
    ensures DateLe(a, a)
    ensures DateLe(a, b) || DateLe(b, a)
    ensures DateLe(a, b) && DateLe(b, a) ==> a == b
    ensures DateLe(a, b) && DateLe(b, c) ==> DateLe(a, c)
  {
  }

  lemma TimeLeIsTotalOrder(a: Time, b: Time, c: Time)
    ensures TimeLe(a, a)
    ensures TimeLe(a, b) || TimeLe(b, a)
    ensures TimeLe(a, b) && TimeLe(b, a) ==> a == b
    ensures TimeLe(a, b) && TimeLe(b, c) ==> TimeLe(a, c)
  {
  }

  /** The recency order is a total preorder: every two records compare, and
      the comparison is transitive. Two records tie exactly when they share
      stop_date and stop_time. */
  lemma RecencyIsTotalPreorder(a: StopRecord, b: StopRecord, c: StopRecord)
    ensures AtLeastAsRecent(a, b) || AtLeastAsRecent(b, a)
    ensures AtLeastAsRecent(a, b) && AtLeastAsRecent(b, c) ==> AtLeastAsRecent(a, c)
    ensures AtLeastAsRecent(a, b) && AtLeastAsRecent(b, a)
            <==> a.stopDate == b.stopDate && a.stopTime == b.stopTime
  {
    DateLeIsTotalOrder(a.stopDate, b.stopDate, c.stopDate);
    DateLeIsTotalOrder(c.stopDate, b.stopDate, a.stopDate);
    TimeLeIsTotalOrder(a.stopTime, b.stopTime, c.stopTime);
    TimeLeIsTotalOrder(c.stopTime, b.stopTime, a.stopTime);
  }
}
