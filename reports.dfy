/** The vehicle-based grouped counts: `SELECT vehicle_number, COUNT(*) ...
    WHERE <flag> = TRUE GROUP BY vehicle_number ORDER BY <count> DESC LIMIT 10`. */
module Reports {
  import opened Stops
  import opened Sorting

  /** The row selection of the two vehicle reports. */
  datatype VehicleMetric = DrugRelated | Searched

  predicate Counted(m: VehicleMetric, r: StopRecord) {
    match m
    case DrugRelated => r.drugsRelatedStop
    case Searched => r.searchConducted
  }

  /** One result row: a vehicle number and its number of selected stops. */
  datatype VehicleCount = VehicleCount(vehicle: string, count: nat)

  /** The row limit of both vehicle reports. */
  const VehicleLimit: nat := 10

  /** COUNT(*) of the group vehicle_number = v among the selected rows. */
  function StopCount(t: seq<StopRecord>, m: VehicleMetric, v: string): (n: nat)
    ensures n <= |t|
    ensures n > 0 <==> exists r :: r in t && Counted(m, r) && r.vehicleNumber == v
  {
    if t == [] then 0
    else
      assert t == [t[0]] + t[1..];
      (if Counted(m, t[0]) && t[0].vehicleNumber == v then 1 else 0) + StopCount(t[1..], m, v)
  }

  /** Appending a stop adds one to its vehicle's count when the report selects
      it, and changes no other count. */
  lemma {:induction false} StopCountAppend(t: seq<StopRecord>, m: VehicleMetric, v: string, x: StopRecord)
    ensures StopCount(t + [x], m, v) == StopCount(t, m, v) + (if Counted(m, x) && x.vehicleNumber == v then 1 else 0)
  {
    if t == [] {
      assert [] + [x] == [x];
    } else {
      assert (t + [x])[1..] == t[1..] + [x];
      StopCountAppend(t[1..], m, v, x);
    }
  }

  /** The groups: each vehicle number with at least one selected row, once. */
  function Vehicles(t: seq<StopRecord>, m: VehicleMetric): (vs: seq<string>)
    ensures NoDuplicates(vs)
    ensures forall v :: v in vs <==> StopCount(t, m, v) > 0
  {
    if t == [] then []
    else
      assert t == [t[0]] + t[1..];
      var rest := Vehicles(t[1..], m);
      if Counted(m, t[0]) && t[0].vehicleNumber !in rest then [t[0].vehicleNumber] + rest else rest
  }

  /** `GROUP BY vehicle_number` before ordering: one row per vehicle with a
      selected stop, carrying that vehicle's count, and no vehicle twice. */
  function GroupRows(t: seq<StopRecord>, m: VehicleMetric): (rows: seq<VehicleCount>)
    ensures forall i :: 0 <= i < |rows| ==> rows[i].count == StopCount(t, m, rows[i].vehicle) && rows[i].count > 0
    ensures forall i, j :: 0 <= i < j < |rows| ==> rows[i].vehicle != rows[j].vehicle
    ensures forall v :: StopCount(t, m, v) > 0 <==> exists i :: 0 <= i < |rows| && rows[i].vehicle == v
  {
    var vs := Vehicles(t, m);
    var rows := seq(|vs|, i requires 0 <= i < |vs| => VehicleCount(vs[i], StopCount(t, m, vs[i])));
    assert forall i :: 0 <= i < |rows| ==> rows[i].vehicle == vs[i] && vs[i] in vs;
    rows
  }

  /** `ORDER BY count DESC`: a row may come ahead of another with no larger count. */
  predicate ByCount(a: VehicleCount, b: VehicleCount) {
    a.count >= b.count
  }

  lemma ByCountIsTotalPreorder()
    ensures TotalPreorder(ByCount)
  {
  }

  /** The report: at most n rows, by non-increasing count, each a distinct
      vehicle with its true number of selected stops. A selected vehicle is
      left out only when n rows are already listed, none with fewer stops. */
  function TopVehicles(t: seq<StopRecord>, m: VehicleMetric, n: nat): (r: seq<VehicleCount>)
    ensures |r| <= n
    ensures forall i :: 0 <= i < |r| ==> r[i].count == StopCount(t, m, r[i].vehicle) && r[i].count > 0
    ensures forall i, j :: 0 <= i < j < |r| ==> r[i].count >= r[j].count && r[i].vehicle != r[j].vehicle
    ensures forall v :: StopCount(t, m, v) > 0 && (forall i :: 0 <= i < |r| ==> r[i].vehicle != v) ==>
      |r| == n && forall i :: 0 <= i < |r| ==> StopCount(t, m, v) <= r[i].count
  {
    ByCountIsTotalPreorder();
    var sorted := SortBy(GroupRows(t, m), ByCount);
    var r := Take(sorted, n);
    TopVehiclesCorrect(t, m, n, sorted, r);
    r
  }

  /** Every ordered row is a group row: it carries its vehicle's count. */
  lemma OrderedRowsAreGroups(t: seq<StopRecord>, m: VehicleMetric, sorted: seq<VehicleCount>, x: VehicleCount)
    requires multiset(sorted) == multiset(GroupRows(t, m)) && x in sorted
    ensures x.count == StopCount(t, m, x.vehicle) && x.count > 0
  {
    var rows := GroupRows(t, m);
    assert x in multiset(rows);
    var i :| 0 <= i < |rows| && rows[i] == x;
  }

  lemma GroupRowsAreDistinct(t: seq<StopRecord>, m: VehicleMetric)
    ensures NoDuplicates(GroupRows(t, m))
  {
    var rows := GroupRows(t, m);
    forall i, j | 0 <= i < j < |rows|
      ensures rows[i] != rows[j]
    {
      assert rows[i].vehicle != rows[j].vehicle;
    }
  }

  lemma TopVehiclesCorrect(t: seq<StopRecord>, m: VehicleMetric, n: nat, sorted: seq<VehicleCount>, r: seq<VehicleCount>)
    requires multiset(sorted) == multiset(GroupRows(t, m)) && SortedBy(sorted, ByCount)
    requires r == Take(sorted, n)
    ensures forall i :: 0 <= i < |r| ==> r[i].count == StopCount(t, m, r[i].vehicle) && r[i].count > 0
    ensures forall i, j :: 0 <= i < j < |r| ==> r[i].vehicle != r[j].vehicle
    ensures forall v :: StopCount(t, m, v) > 0 && (forall i :: 0 <= i < |r| ==> r[i].vehicle != v) ==>
      |r| == n && forall i :: 0 <= i < |r| ==> StopCount(t, m, v) <= r[i].count
  {
    forall i | 0 <= i < |r|
      ensures r[i].count == StopCount(t, m, r[i].vehicle) && r[i].count > 0
    {
      assert r[i] == sorted[i];
      OrderedRowsAreGroups(t, m, sorted, r[i]);
    }
    GroupRowsAreDistinct(t, m);
    NoDuplicatesPermutation(GroupRows(t, m), sorted);
    forall i, j | 0 <= i < j < |r|
      ensures r[i].vehicle != r[j].vehicle
    {
      assert r[i] == sorted[i] && r[j] == sorted[j];
    }
    forall v | StopCount(t, m, v) > 0 && (forall i :: 0 <= i < |r| ==> r[i].vehicle != v)
      ensures |r| == n && forall i :: 0 <= i < |r| ==> StopCount(t, m, v) <= r[i].count
    {
      LeftOutVehicle(t, m, n, sorted, r, v);
    }
  }

  /** A selected vehicle missing from the cut list ranks after every listed row. */
  lemma LeftOutVehicle(t: seq<StopRecord>, m: VehicleMetric, n: nat, sorted: seq<VehicleCount>, r: seq<VehicleCount>, v: string)
    requires multiset(sorted) == multiset(GroupRows(t, m)) && SortedBy(sorted, ByCount)
    requires r == Take(sorted, n)
    requires StopCount(t, m, v) > 0 && forall i :: 0 <= i < |r| ==> r[i].vehicle != v
    ensures |r| == n && forall i :: 0 <= i < |r| ==> StopCount(t, m, v) <= r[i].count
  {
    var rows := GroupRows(t, m);
    var k :| 0 <= k < |rows| && rows[k].vehicle == v;
    var x := rows[k];
    assert x in multiset(sorted);
    assert x !in r;
    PrefixDominates(sorted, ByCount, |r|, x);
  }

  /** "Top 10 vehicles involved in drug-related stops". */
  function DrugStopVehicles(t: seq<StopRecord>): seq<VehicleCount> {
    TopVehicles(t, DrugRelated, VehicleLimit)
  }

  /** "Most frequently searched vehicles". */
  function SearchedVehicles(t: seq<StopRecord>): seq<VehicleCount> {
    TopVehicles(t, Searched, VehicleLimit)
  }
}
