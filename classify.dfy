/** The CASE expressions of the report queries, as total functions. */
module Classify {
  import opened Stops

  /** The age groups of the arrest-rate report, listed in the order of its CASE. */
  const AgeGroups: seq<string> := ["18-25", "26-35", "36-45", "46-60", "60+"]

  /** The age groups of the violation-trend report, listed in the order of its CASE. */
  const TrendAgeGroups: seq<string> := ["18-25", "26-40", "41-60", "60+"]

  /** Age group of the arrest-rate report. Every age falls in exactly one
      group; ages outside 18..60, those below 18 included, reach the ELSE. */
  function AgeGroup(age: int): (g: string)
    ensures g in AgeGroups
    ensures g == "18-25" <==> 18 <= age <= 25
    ensures g == "26-35" <==> 26 <= age <= 35
    ensures g == "36-45" <==> 36 <= age <= 45
    ensures g == "46-60" <==> 46 <= age <= 60
    ensures g == "60+" <==> age < 18 || age > 60
  {
    if 18 <= age <= 25 then "18-25"
    else if 26 <= age <= 35 then "26-35"
    else if 36 <= age <= 45 then "36-45"
    else if 46 <= age <= 60 then "46-60"
    else "60+"
  }

  /** Age group of the violation-trend report; same ELSE behaviour. */
  function TrendAgeGroup(age: int): (g: string)
    ensures g in TrendAgeGroups
    ensures g == "18-25" <==> 18 <= age <= 25
    ensures g == "26-40" <==> 26 <= age <= 40
    ensures g == "41-60" <==> 41 <= age <= 60
    ensures g == "60+" <==> age < 18 || age > 60
  {
    if 18 <= age <= 25 then "18-25"
    else if 26 <= age <= 40 then "26-40"
    else if 41 <= age <= 60 then "41-60"
    else "60+"
  }

  /** The two schemes put the same ages in "18-25" and in "60+"; they differ
      only in how they cut 26..60, and the trend report's "26-40" is the union
      of "26-35" and the lower part of "36-45". */
  lemma AgeSchemesAgree(age: int)
    ensures AgeGroup(age) == "18-25" <==> TrendAgeGroup(age) == "18-25"
    ensures AgeGroup(age) == "60+" <==> TrendAgeGroup(age) == "60+"
    ensures TrendAgeGroup(age) == "26-40" <==>
      AgeGroup(age) == "26-35" || (AgeGroup(age) == "36-45" && age <= 40)
  {
  }

  /** The boundaries named by the report: 25 and 26 fall on either side, and
      an under-age driver is counted with the over-60s. */
  lemma AgeGroupBoundaries()
    ensures AgeGroup(25) == "18-25" && AgeGroup(26) == "26-35"
    ensures AgeGroup(35) == "26-35" && AgeGroup(36) == "36-45"
    ensures AgeGroup(60) == "46-60" && AgeGroup(61) == "60+"
    ensures AgeGroup(17) == "60+" && AgeGroup(0) == "60+"
    ensures TrendAgeGroup(40) == "26-40" && TrendAgeGroup(41) == "41-60"
  {
  }

  /** Night or day by the hour of stop_time: night is from 20:00 up to 05:59. */
  function TimePeriod(t: Time): (p: string)
    ensures p == "Night" || p == "Day"
    ensures p == "Night" <==> t.hour >= 20 || t.hour < 6
  {
    if t.hour >= 20 || t.hour < 6 then "Night" else "Day"
  }

  lemma TimePeriodBoundaries(m: int, s: int)
    ensures TimePeriod(Time(19, m, s)) == "Day" && TimePeriod(Time(20, m, s)) == "Night"
    ensures TimePeriod(Time(5, m, s)) == "Night" && TimePeriod(Time(6, m, s)) == "Day"
  {
  }

  /** Minutes a stop_duration label contributes to the average-duration
      report; the comparison is exact, and an unknown label contributes 0. */
  function DurationMinutes(d: string): (m: real)
    ensures m == 7.5 <==> d == "0-15 min"
    ensures m == 23.0 <==> d == "16-30 min"
    ensures m == 35.0 <==> d == "30+ min"
    ensures m == 0.0 <==> d != "0-15 min" && d != "16-30 min" && d != "30+ min"
    ensures 0.0 <= m <= 35.0
  {
    if d == "0-15 min" then 7.5
    else if d == "16-30 min" then 23.0
    else if d == "30+ min" then 35.0
    else 0.0
  }
}
