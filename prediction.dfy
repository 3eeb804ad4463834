/** The outcome "prediction" of the entry form: the most frequent stop_outcome
    among the stored stops with the same violation and drug flag. */
module Prediction {
  import opened Stops

  /** A stored stop with the given violation and drugs_related_stop flag. */
  predicate SameCase(violation: string, drug: bool, r: StopRecord) {
    r.violation == violation && r.drugsRelatedStop == drug
  }

  /** COUNT(*) of the group stop_outcome = o among the rows of the same case. */
  function OutcomeCount(t: seq<StopRecord>, violation: string, drug: bool, o: string): (n: nat)
    ensures n <= |t|
    ensures n > 0 <==> exists r :: r in t && SameCase(violation, drug, r) && r.stopOutcome == o
  {
    if t == [] then 0
    else
      assert t == [t[0]] + t[1..];
      (if SameCase(violation, drug, t[0]) && t[0].stopOutcome == o then 1 else 0)
      + OutcomeCount(t[1..], violation, drug, o)
  }

  /** Appending a stop adds one to its own outcome's count in its own case and
      changes no other count. */
  lemma {:induction false} OutcomeCountAppend(t: seq<StopRecord>, violation: string, drug: bool, o: string, x: StopRecord)
    ensures OutcomeCount(t + [x], violation, drug, o)
      == OutcomeCount(t, violation, drug, o) + (if SameCase(violation, drug, x) && x.stopOutcome == o then 1 else 0)
  {
    if t == [] {
      assert [] + [x] == [x];
    } else {
      assert (t + [x])[1..] == t[1..] + [x];
      OutcomeCountAppend(t[1..], violation, drug, o, x);
    }
  }

  /** The stop_outcome of each row of the same case, one entry per row. */
  function CaseOutcomes(t: seq<StopRecord>, violation: string, drug: bool): (os: seq<string>)
    ensures |os| <= |t|
    ensures forall o :: o in os <==> OutcomeCount(t, violation, drug, o) > 0
  {
    if t == [] then []
    else
      assert t == [t[0]] + t[1..];
      var rest := CaseOutcomes(t[1..], violation, drug);
      if SameCase(violation, drug, t[0]) then [t[0].stopOutcome] + rest else rest
  }

  /** `ORDER BY count DESC LIMIT 1` over the candidate outcomes: one whose
      count no other candidate exceeds. Ties go to the earliest candidate,
      a choice the query itself leaves open. */
  function MostFrequent(t: seq<StopRecord>, violation: string, drug: bool, cands: seq<string>): (o: string)
    requires cands != []
    ensures o in cands
    ensures forall c :: c in cands ==> OutcomeCount(t, violation, drug, c) <= OutcomeCount(t, violation, drug, o)
  {
    if |cands| == 1 then cands[0]
    else
      var best := MostFrequent(t, violation, drug, cands[1..]);
      assert cands == [cands[0]] + cands[1..];
      if OutcomeCount(t, violation, drug, cands[0]) >= OutcomeCount(t, violation, drug, best) then cands[0]
      else best
  }

  /** What the lookup may answer, whichever way the database breaks ties: with
      the store unreachable, or no stored stop of the same case, "Warning";
      otherwise an outcome some stop of that case had, with no outcome more
      frequent in that case. */
  ghost predicate IsPrediction(t: seq<StopRecord>, available: bool, violation: string, drug: bool, o: string) {
    && (!available ==> o == "Warning")
    && ((forall r :: r in t ==> !SameCase(violation, drug, r)) ==> o == "Warning")
    && (available && (exists r :: r in t && SameCase(violation, drug, r)) ==>
          OutcomeCount(t, violation, drug, o) > 0
          && forall other :: OutcomeCount(t, violation, drug, other) <= OutcomeCount(t, violation, drug, o))
  }

  /** get_most_common_outcome, breaking ties towards the first listed outcome. */
  function PredictOutcome(t: seq<StopRecord>, available: bool, violation: string, drug: bool): (o: string)
    ensures IsPrediction(t, available, violation, drug, o)
  {
    if !available then "Warning"
    else
      var cands := CaseOutcomes(t, violation, drug);
      if cands == [] then
        assert forall r :: r in t && SameCase(violation, drug, r) ==> r.stopOutcome in cands;
        "Warning"
      else MostFrequent(t, violation, drug, cands)
  }

  /** When one outcome is strictly the most frequent in its case, the
      prediction is that outcome, whatever order the database breaks ties in. */
  lemma StrictMajorityIsPredicted(t: seq<StopRecord>, violation: string, drug: bool, o: string)
    requires OutcomeCount(t, violation, drug, o) > 0
    requires forall x :: x != o ==> OutcomeCount(t, violation, drug, x) < OutcomeCount(t, violation, drug, o)
    ensures PredictOutcome(t, true, violation, drug) == o
  {
    var p := PredictOutcome(t, true, violation, drug);
    assert OutcomeCount(t, violation, drug, o) <= OutcomeCount(t, violation, drug, p);
  }
}
