/** The "New Entry + Prediction" page: predict an outcome, insert the new
    stop, reselect it for review; list the ten most recent stops; delete by
    vehicle number and stop time. */
module Lifecycle {
  import opened Stops
  import opened Sorting
  import opened Filters
  import opened Prediction

  datatype Option<T> = None | Some(value: T)

  /** The entry form's values as its widgets deliver them. The three yes/no
      selectors give the strings "1" and "0". */
  datatype EntryForm = EntryForm(
    vehicleNumber: string,
    country: string,
    stopDate: Date,
    stopTime: Time,
    driverGender: string,
    driverAge: int,
    driverRace: string,
    violation: string,
    searchConducted: string,
    searchType: string,
    isArrested: string,
    drugsRelatedStop: string,
    stopDuration: string)

  /** The values a yes/no selector of the form can deliver. */
  predicate IsFormFlag(s: string) {
    s == "1" || s == "0"
  }

  /** `1 if value else 0` on a string: a string is true when it is not empty. */
  function Truthy(s: string): bool {
    s != ""
  }

  /** The flag `WHERE drugs_related_stop = %s` selects when the form's string is
      bound to it: the database compares '1' and '0' with the 0/1 column as numbers. */
  function LookupFlag(s: string): bool
    requires IsFormFlag(s)
  {
    s == "1"
  }

  /** The row the INSERT writes: every form field in place, the predicted
      outcome, and the three flags coerced by `1 if value else 0`. */
  function StoredRecord(f: EntryForm, outcome: string): StopRecord {
    StopRecord(
      f.country, f.vehicleNumber, f.stopDate, f.stopTime,
      f.driverGender, f.driverAge, f.driverRace, f.violation,
      Truthy(f.searchConducted), f.searchType, outcome,
      Truthy(f.isArrested), Truthy(f.drugsRelatedStop), f.stopDuration)
  }

  /** Both "1" and "0" are non-empty strings, so every stored stop from the
      form is recorded as searched, arrested and drug-related, while the
      prediction looked up the flag the form actually chose. */
  lemma FormFlagsAreStoredAsTrue(f: EntryForm, outcome: string)
    requires IsFormFlag(f.searchConducted) && IsFormFlag(f.isArrested) && IsFormFlag(f.drugsRelatedStop)
    ensures StoredRecord(f, outcome).searchConducted
    ensures StoredRecord(f, outcome).isArrested
    ensures StoredRecord(f, outcome).drugsRelatedStop
    ensures f.drugsRelatedStop == "0" ==> StoredRecord(f, outcome).drugsRelatedStop != LookupFlag(f.drugsRelatedStop)
  {
  }

  /** A stored form stop adds exactly one to its outcome's count among the
      drug-related stops of its violation, whichever drug flag the form chose,
      and leaves every other count as it was. */
  lemma StoredStopCountsOnce(t: seq<StopRecord>, f: EntryForm, outcome: string, o: string)
    requires IsFormFlag(f.drugsRelatedStop)
    ensures OutcomeCount(t + [StoredRecord(f, outcome)], f.violation, true, o)
      == OutcomeCount(t, f.violation, true, o) + (if o == outcome then 1 else 0)
    ensures OutcomeCount(t + [StoredRecord(f, outcome)], f.violation, false, o) == OutcomeCount(t, f.violation, false, o)
  {
    OutcomeCountAppend(t, f.violation, true, o, StoredRecord(f, outcome));
    OutcomeCountAppend(t, f.violation, false, o, StoredRecord(f, outcome));
  }

  /** The reselect key: vehicle number, stop date and stop time. */
  predicate SameEntry(v: string, d: Date, t: Time, r: StopRecord) {
    r.vehicleNumber == v && r.stopDate == d && r.stopTime == t
  }

  /** `SELECT * ... WHERE vehicle_number = %s AND stop_date = %s AND stop_time = %s`:
      every matching row, as often as the table holds it, in table order. */
  function Reselect(t: seq<StopRecord>, v: string, d: Date, tm: Time): (r: seq<StopRecord>)
    ensures forall x :: x in r <==> x in t && SameEntry(v, d, tm, x)
    ensures forall x :: multiset(r)[x] == if SameEntry(v, d, tm, x) then multiset(t)[x] else 0
    ensures IsSubsequence(r, t)
  {
    WhereIsSubsequence(t, x => SameEntry(v, d, tm, x));
    forall x {
      WhereMultiplicity(t, x => SameEntry(v, d, tm, x), x);
    }
    Where(t, x => SameEntry(v, d, tm, x))
  }

  // The recent list: ORDER BY stop_date DESC, stop_time DESC LIMIT 10.

  /** The row limit of the recent list. */
  const RecentLimit: nat := 10

  lemma RecencyOrderIsTotalPreorder()
    ensures TotalPreorder(AtLeastAsRecent)
  {
    forall a, b, c {
      RecencyIsTotalPreorder(a, b, c);
    }
  }

  /** What `ORDER BY stop_date DESC, stop_time DESC LIMIT n` may return,
      whichever way the database breaks ties: n rows unless the table is
      smaller, latest first, only rows of the table and no more often than
      they occur in it; and a row left out, or a copy of a row left out, is
      not more recent than any listed one. */
  ghost predicate IsRecentList(t: seq<StopRecord>, n: nat, r: seq<StopRecord>) {
    && |r| == (if n < |t| then n else |t|)
    && SortedBy(r, AtLeastAsRecent)
    && multiset(r) <= multiset(t)
    && (forall x :: x in t && x !in r ==> forall i :: 0 <= i < |r| ==> AtLeastAsRecent(r[i], x))
    && (forall x :: multiset(r)[x] < multiset(t)[x] ==> forall i :: 0 <= i < |r| ==> AtLeastAsRecent(r[i], x))
  }

  /** The n most recent stops, ties kept in insertion-sort order. */
  function RecentRecords(t: seq<StopRecord>, n: nat): (r: seq<StopRecord>)
    ensures IsRecentList(t, n, r)
  {
    RecencyOrderIsTotalPreorder();
    var sorted := SortBy(t, AtLeastAsRecent);
    var r := Take(sorted, n);
    assert sorted == r + sorted[|r|..];
    LeftOutRowsAreOlder(t, sorted, r);
    r
  }

  /** A prefix of the table sorted latest first lists every row, and every
      copy of a row, that it leaves out no earlier than each of its own rows. */
  lemma LeftOutRowsAreOlder(t: seq<StopRecord>, sorted: seq<StopRecord>, r: seq<StopRecord>)
    requires SortedBy(sorted, AtLeastAsRecent) && multiset(sorted) == multiset(t)
    requires |r| <= |sorted| && r == sorted[..|r|]
    ensures forall x :: multiset(r)[x] < multiset(t)[x] ==> forall i :: 0 <= i < |r| ==> AtLeastAsRecent(r[i], x)
    ensures forall x :: x in t && x !in r ==> forall i :: 0 <= i < |r| ==> AtLeastAsRecent(r[i], x)
  {
    forall x | multiset(r)[x] < multiset(t)[x]
      ensures forall i :: 0 <= i < |r| ==> AtLeastAsRecent(r[i], x)
    {
      PrefixDominatesCopies(sorted, AtLeastAsRecent, |r|, x);
    }
    forall x | x in t && x !in r
      ensures multiset(r)[x] < multiset(t)[x]
    {
      assert x in multiset(t);
    }
  }

  /** Inserting a stop later than every stored one puts it alone at the head
      of the recent list. */
  lemma LatestInsertIsMostRecent(t: seq<StopRecord>, x: StopRecord)
    requires forall y :: y in t ==> MoreRecent(x, y)
    ensures RecentRecords(t + [x], 1) == [x]
  {
    var r := RecentRecords(t + [x], 1);
    var y := r[0];
    assert x !in t;
    assert y in multiset(t + [x]);
    assert y in t ==> !AtLeastAsRecent(y, x);
    assert x in r || AtLeastAsRecent(y, x);
    assert r == [y];
  }

  // Delete: every row with the chosen vehicle number and stop time.

  /** The key the delete matches on; stop_date plays no part. */
  predicate DeleteKey(v: string, tm: Time, r: StopRecord) {
    r.vehicleNumber == v && r.stopTime == tm
  }

  /** The table left by `DELETE ... WHERE vehicle_number = %s AND stop_time = %s`. */
  function Remaining(t: seq<StopRecord>, v: string, tm: Time): seq<StopRecord> {
    Where(t, x => !DeleteKey(v, tm, x))
  }

  /** Delete removes exactly the rows with the chosen vehicle number and stop
      time, on whatever date; every other row stays, in order; the rows
      removed are as many as the rows matching; no match changes nothing. */
  lemma DeleteRemovesExactlyMatches(t: seq<StopRecord>, v: string, tm: Time)
    ensures forall x :: x in Remaining(t, v, tm) <==> x in t && !DeleteKey(v, tm, x)
    ensures IsSubsequence(Remaining(t, v, tm), t)
    ensures |t| - |Remaining(t, v, tm)| == |Where(t, x => DeleteKey(v, tm, x))|
    ensures (forall x :: x in t ==> !DeleteKey(v, tm, x)) ==> Remaining(t, v, tm) == t
  {
    WhereIsSubsequence(t, x => !DeleteKey(v, tm, x));
    WherePartition(t, x => DeleteKey(v, tm, x), x => !DeleteKey(v, tm, x));
    if forall x :: x in t ==> !DeleteKey(v, tm, x) {
      WhereKeepsAll(t, x => !DeleteKey(v, tm, x));
    }
  }

  /** How the outcome lookup went. With no connection the lookup answers
      "Warning". A query that fails once connected raises out of the lookup,
      which runs outside the insert's error handler, so the submit stops there. */
  datatype LookupStatus = NoConnection | QueryFails | Answers

  /** What "Submit Entry" ends with: stopped by a failed lookup query; the
      insert failed after the prediction; or inserted, with the reselected rows
      when the reselect succeeded. */
  datatype SubmitReport =
    | LookupFailed
    | StoreFailed(outcome: string)
    | Inserted(outcome: string, confirmation: Option<seq<StopRecord>>)

  /** The police_stops table as the page changes it. */
  class StopTable {
    var rows: seq<StopRecord>

    constructor (initial: seq<StopRecord>)
      ensures rows == initial
    {
      rows := initial;
    }

    /** "Submit Entry": predict the outcome from the stored stops, insert the
        new stop with it, then reselect it by vehicle, date and time.
        `lookup` says how the lookup went; `storeUp` and `reselectUp` say
        whether the insert and the reselect succeeded. */
    method Submit(f: EntryForm, lookup: LookupStatus, storeUp: bool, reselectUp: bool)
      returns (report: SubmitReport)
      requires IsFormFlag(f.drugsRelatedStop)
      modifies this
      ensures lookup == QueryFails ==> report == LookupFailed && rows == old(rows)
      ensures lookup != QueryFails ==>
        !report.LookupFailed?
        && IsPrediction(old(rows), lookup == Answers, f.violation, LookupFlag(f.drugsRelatedStop), report.outcome)
      ensures lookup != QueryFails && !storeUp ==> report.StoreFailed? && rows == old(rows)
      ensures lookup != QueryFails && storeUp ==>
        report.Inserted?
        && rows == old(rows) + [StoredRecord(f, report.outcome)] && |rows| == |old(rows)| + 1
      ensures lookup != QueryFails && storeUp && !reselectUp ==> report.Inserted? && report.confirmation == None
      ensures lookup != QueryFails && storeUp && reselectUp ==>
        report.Inserted?
        && report.confirmation == Some(Reselect(rows, f.vehicleNumber, f.stopDate, f.stopTime))
        && StoredRecord(f, report.outcome) in report.confirmation.value
    {
      if lookup == QueryFails {
        report := LookupFailed;
        return;
      }
      var outcome := PredictOutcome(rows, lookup == Answers, f.violation, LookupFlag(f.drugsRelatedStop));
      if !storeUp {
        report := StoreFailed(outcome);
        return;
      }
      var stored := StoredRecord(f, outcome);
      rows := rows + [stored];
      if reselectUp {
        var found := Reselect(rows, f.vehicleNumber, f.stopDate, f.stopTime);
        assert stored in rows;
        report := Inserted(outcome, Some(found));
      } else {
        report := Inserted(outcome, None);
      }
    }

    /** "Delete Selected Entry": remove every row with the chosen vehicle
        number and stop time, and re-read the recent list. `removed` is the
        number of rows the statement affects; the page itself does not show it. */
    method Delete(v: string, tm: Time) returns (removed: nat, recent: seq<StopRecord>)
      modifies this
      ensures rows == Remaining(old(rows), v, tm)
      ensures removed == |old(rows)| - |rows| == |Where(old(rows), x => DeleteKey(v, tm, x))|
      ensures IsRecentList(rows, RecentLimit, recent)
    {
      DeleteRemovesExactlyMatches(rows, v, tm);
      var before := |rows|;
      rows := Remaining(rows, v, tm);
      removed := before - |rows|;
      recent := RecentRecords(rows, RecentLimit);
    }
  }
}
