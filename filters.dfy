/** The "Data Records" page: the sidebar's filters narrow the full table
    step by step, and five summary counts are taken over what remains. */
module Filters {
  import opened Stops

  /** A sidebar choice that is either "All" or one specific value. */
  datatype Choice<T> = All | Only(value: T)

  /** The sidebar selections, rebuilt on every request. */
  datatype Criteria = Criteria(
    start: Date,
    end: Date,
    gender: Choice<string>,
    countries: seq<string>,
    drug: Choice<bool>,
    arrestsOnly: bool)

  /** Boolean-mask selection on a data frame: the rows satisfying p, in their order. */
  function Where(s: seq<StopRecord>, p: StopRecord -> bool): (r: seq<StopRecord>)
    ensures |r| <= |s|
    ensures forall x :: x in r <==> x in s && p(x)
  {
    if s == [] then []
    else if p(s[0]) then [s[0]] + Where(s[1..], p)
    else Where(s[1..], p)
  }

  /** A selected row occurs as often as in the input; any other row not at all. */
  lemma {:induction false} WhereMultiplicity(s: seq<StopRecord>, p: StopRecord -> bool, x: StopRecord)
    ensures multiset(Where(s, p))[x] == if p(x) then multiset(s)[x] else 0
  {
    if s != [] {
      assert s == [s[0]] + s[1..];
      WhereMultiplicity(s[1..], p, x);
    }
  }

  /** a is obtained from b by deleting elements, the rest kept in order. */
  predicate IsSubsequence(a: seq<StopRecord>, b: seq<StopRecord>)
    decreases |b|
  {
    a == []
    || (b != [] && ((a[0] == b[0] && IsSubsequence(a[1..], b[1..])) || IsSubsequence(a, b[1..])))
  }

  lemma {:induction false} WhereIsSubsequence(s: seq<StopRecord>, p: StopRecord -> bool)
    ensures IsSubsequence(Where(s, p), s)
  {
    if s != [] {
      WhereIsSubsequence(s[1..], p);
      if p(s[0]) {
        assert ([s[0]] + Where(s[1..], p))[1..] == Where(s[1..], p);
      }
    }
  }

  /** Selecting from rows that all satisfy p changes nothing. */
  lemma {:induction false} WhereKeepsAll(s: seq<StopRecord>, p: StopRecord -> bool)
    requires forall x :: x in s ==> p(x)
    ensures Where(s, p) == s
  {
    if s != [] {
      assert s == [s[0]] + s[1..];
      WhereKeepsAll(s[1..], p);
    }
  }

  /** Selecting from rows none of which satisfy p leaves nothing. */
  lemma {:induction false} WhereDropsAll(s: seq<StopRecord>, p: StopRecord -> bool)
    requires forall x :: x in s ==> !p(x)
    ensures Where(s, p) == []
  {
    if s != [] {
      WhereDropsAll(s[1..], p);
    }
  }

  lemma WhereCons(x: StopRecord, s: seq<StopRecord>, p: StopRecord -> bool)
    ensures Where([x] + s, p) == if p(x) then [x] + Where(s, p) else Where(s, p)
  {
    assert ([x] + s)[0] == x && ([x] + s)[1..] == s;
  }

  /** Selections by conditions that agree on every record are the same. */
  lemma {:induction false} WhereSameCondition(s: seq<StopRecord>, p: StopRecord -> bool, q: StopRecord -> bool)
    requires forall x :: p(x) == q(x)
    ensures Where(s, p) == Where(s, q)
  {
    if s != [] {
      WhereSameCondition(s[1..], p, q);
    }
  }

  /** Two selections in a row are one selection by both conditions. */
  lemma {:induction false} WhereWhere(s: seq<StopRecord>, p: StopRecord -> bool, q: StopRecord -> bool)
    ensures Where(Where(s, p), q) == Where(s, x => p(x) && q(x))
  {
    if s != [] {
      WhereWhere(s[1..], p, q);
      if p(s[0]) {
        WhereCons(s[0], Where(s[1..], p), q);
      }
    }
  }

  /** Two selections can be applied in either order. */
  lemma WhereCommutes(s: seq<StopRecord>, p: StopRecord -> bool, q: StopRecord -> bool)
    ensures Where(Where(s, p), q) == Where(Where(s, q), p)
  {
    WhereWhere(s, p, q);
    WhereWhere(s, q, p);
    WhereSameCondition(s, x => p(x) && q(x), x => q(x) && p(x));
  }

  /** Rows satisfying p and rows failing it together make up the whole. */
  lemma {:induction false} WherePartition(s: seq<StopRecord>, p: StopRecord -> bool, q: StopRecord -> bool)
    requires forall x :: q(x) == !p(x)
    ensures |Where(s, p)| + |Where(s, q)| == |s|
  {
    if s != [] {
      WherePartition(s[1..], p, q);
    }
  }

  /** Two selections whose conditions never hold together count at most the whole. */
  lemma {:induction false} DisjointSelections(s: seq<StopRecord>, p: StopRecord -> bool, q: StopRecord -> bool)
    requires forall x :: !(p(x) && q(x))
    ensures |Where(s, p)| + |Where(s, q)| <= |s|
  {
    if s != [] {
      DisjointSelections(s[1..], p, q);
    }
  }

  // The five narrowing steps, in the order the page applies them.

  predicate InRange(start: Date, end: Date, r: StopRecord) {
    DateLe(start, r.stopDate) && DateLe(r.stopDate, end)
  }

  predicate HasGender(g: string, r: StopRecord) { r.driverGender == g }
  predicate InCountryList(countries: seq<string>, r: StopRecord) { r.country in countries }
  predicate HasDrugFlag(b: bool, r: StopRecord) { r.drugsRelatedStop == b }
  predicate IsArrested(r: StopRecord) { r.isArrested }

  predicate GenderOk(g: Choice<string>, r: StopRecord) {
    match g
    case All => true
    case Only(x) => HasGender(x, r)
  }

  predicate DrugOk(d: Choice<bool>, r: StopRecord) {
    match d
    case All => true
    case Only(b) => HasDrugFlag(b, r)
  }

  /** Step 1: stop_date inside [start, end], both ends included. */
  function InDateRange(s: seq<StopRecord>, start: Date, end: Date): seq<StopRecord> {
    Where(s, r => InRange(start, end, r))
  }

  /** Step 2: unless "All", only the chosen driver_gender. */
  function WithGender(s: seq<StopRecord>, g: Choice<string>): seq<StopRecord> {
    match g
    case All => s
    case Only(x) => Where(s, r => HasGender(x, r))
  }

  /** Step 3: country in the selected list; an empty list keeps nothing. */
  function InCountries(s: seq<StopRecord>, countries: seq<string>): seq<StopRecord> {
    Where(s, r => InCountryList(countries, r))
  }

  /** Step 4: unless "All", only the chosen drugs_related_stop flag. */
  function WithDrugFlag(s: seq<StopRecord>, d: Choice<bool>): seq<StopRecord> {
    match d
    case All => s
    case Only(b) => Where(s, r => HasDrugFlag(b, r))
  }

  /** Step 5: when "Show Only Arrests" is ticked, only arrested drivers. */
  function OnlyArrests(s: seq<StopRecord>, on: bool): seq<StopRecord> {
    if on then Where(s, IsArrested) else s
  }

  /** A record passes every one of the sidebar's conditions. */
  predicate Matches(c: Criteria, r: StopRecord) {
    InRange(c.start, c.end, r)
    && GenderOk(c.gender, r)
    && InCountryList(c.countries, r)
    && DrugOk(c.drug, r)
    && (c.arrestsOnly ==> IsArrested(r))
  }

  /** The filtered data frame: the five steps applied one after another. A
      record is kept exactly when it is in the table and meets every condition. */
  function FilterRecords(s: seq<StopRecord>, c: Criteria): (r: seq<StopRecord>)
    ensures forall x :: x in r <==> x in s && Matches(c, x)
  {
    OnlyArrests(WithDrugFlag(InCountries(WithGender(InDateRange(s, c.start, c.end), c.gender), c.countries), c.drug), c.arrestsOnly)
  }

  /** Filtering a table whose first row is x: x is kept exactly when it matches. */
  lemma FilterCons(x: StopRecord, s: seq<StopRecord>, c: Criteria)
    ensures FilterRecords([x] + s, c) == if Matches(c, x) then [x] + FilterRecords(s, c) else FilterRecords(s, c)
  {
    var s1 := InDateRange(s, c.start, c.end);
    WhereCons(x, s, r => InRange(c.start, c.end, r));
    var keep1 := InRange(c.start, c.end, x);
    var t1 := if keep1 then [x] + s1 else s1;
    var s2 := WithGender(s1, c.gender);
    if keep1 && c.gender.Only? {
      WhereCons(x, s1, r => HasGender(c.gender.value, r));
    }
    var keep2 := keep1 && GenderOk(c.gender, x);
    var t2 := if keep2 then [x] + s2 else s2;
    assert WithGender(t1, c.gender) == t2;
    var s3 := InCountries(s2, c.countries);
    if keep2 {
      WhereCons(x, s2, r => InCountryList(c.countries, r));
    }
    var keep3 := keep2 && InCountryList(c.countries, x);
    var t3 := if keep3 then [x] + s3 else s3;
    assert InCountries(t2, c.countries) == t3;
    var s4 := WithDrugFlag(s3, c.drug);
    if keep3 && c.drug.Only? {
      WhereCons(x, s3, r => HasDrugFlag(c.drug.value, r));
    }
    var keep4 := keep3 && DrugOk(c.drug, x);
    var t4 := if keep4 then [x] + s4 else s4;
    assert WithDrugFlag(t3, c.drug) == t4;
    if keep4 && c.arrestsOnly {
      WhereCons(x, s4, IsArrested);
    }
  }

  /** Together the five steps are one selection by the conjunction of their
      conditions. */
  lemma {:induction false} FilterIsOneSelection(s: seq<StopRecord>, c: Criteria)
    ensures FilterRecords(s, c) == Where(s, r => Matches(c, r))
  {
    if s != [] {
      assert s == [s[0]] + s[1..];
      FilterCons(s[0], s[1..], c);
      FilterIsOneSelection(s[1..], c);
    }
  }

  /** The filtered rows are a subsequence of the table: nothing added, nothing reordered. */
  lemma FilterIsSubsequence(s: seq<StopRecord>, c: Criteria)
    ensures IsSubsequence(FilterRecords(s, c), s)
    ensures |FilterRecords(s, c)| <= |s|
  {
    FilterIsOneSelection(s, c);
    WhereIsSubsequence(s, r => Matches(c, r));
  }

  /** Applying the same selections to the already-filtered rows changes nothing. */
  lemma FilterIdempotent(s: seq<StopRecord>, c: Criteria)
    ensures FilterRecords(FilterRecords(s, c), c) == FilterRecords(s, c)
  {
    var f := FilterRecords(s, c);
    FilterIsOneSelection(f, c);
    WhereKeepsAll(f, r => Matches(c, r));
  }

  /** With no country selected nothing is shown. */
  lemma NoCountryNoRecords(s: seq<StopRecord>, c: Criteria)
    requires c.countries == []
    ensures FilterRecords(s, c) == []
  {
    FilterIsOneSelection(s, c);
    WhereDropsAll(s, r => Matches(c, r));
  }

  // The summary metrics under the filtered table.

  predicate IsMale(r: StopRecord) { r.driverGender == "Male" }
  predicate IsFemale(r: StopRecord) { r.driverGender == "Female" }
  predicate IsDrugStop(r: StopRecord) { r.drugsRelatedStop }

  datatype Summary = Summary(total: nat, male: nat, female: nat, arrests: nat, drugStops: nat)

  /** Total stops, male and female drivers (value_counts, 0 when absent),
      arrests and drug-related stops (sums of the 0/1 columns). */
  function Summarize(s: seq<StopRecord>): (m: Summary)
    ensures m.total == |s|
    ensures m.male + m.female <= m.total
    ensures m.arrests <= m.total && m.drugStops <= m.total
  {
    DisjointSelections(s, IsMale, IsFemale);
    Summary(|s|, |Where(s, IsMale)|, |Where(s, IsFemale)|, |Where(s, IsArrested)|, |Where(s, IsDrugStop)|)
  }

  /** Filtering on one gender leaves none of the other: the matching count is the total. */
  lemma GenderFilterSummary(s: seq<StopRecord>, c: Criteria)
    requires c.gender == Only("Male") || c.gender == Only("Female")
    ensures var m := Summarize(FilterRecords(s, c));
      if c.gender == Only("Male") then m.male == m.total && m.female == 0
      else m.female == m.total && m.male == 0
  {
    var f := FilterRecords(s, c);
    if c.gender == Only("Male") {
      WhereKeepsAll(f, IsMale);
      WhereDropsAll(f, IsFemale);
    } else {
      WhereKeepsAll(f, IsFemale);
      WhereDropsAll(f, IsMale);
    }
  }

  /** With "Show Only Arrests" every shown stop is an arrest. */
  lemma ArrestsOnlySummary(s: seq<StopRecord>, c: Criteria)
    requires c.arrestsOnly
    ensures Summarize(FilterRecords(s, c)).arrests == |FilterRecords(s, c)|
  {
    WhereKeepsAll(FilterRecords(s, c), IsArrested);
  }
}
