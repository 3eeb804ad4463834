# SecureCheck police-post ledger: verified rule core

SecureCheck is a dashboard over one table, `police_stops`, with one row per
traffic stop. This project models the parts of `dashboard.py` that carry rules.
The table is an in-memory sequence of `StopRecord` values, and every query is a
function over that sequence:

- **Data Records page** (`Filters`). The sidebar narrows the table in five
  steps: the date range, the gender, the country list, the drug flag and
  arrests only. Five summary counts are then taken over what remains.
- **Report classifiers** (`Classify`). These are the CASE expressions of the
  report SQL: two age-group schemes, night or day by hour, and the
  stop-duration-to-minutes map.
- **Vehicle reports** (`Reports`). This is the top-10 "GROUP BY vehicle_number
  ORDER BY count DESC LIMIT 10" for drug-related stops and for searched
  vehicles (`DrugStopVehicles`, `SearchedVehicles`).
- **Outcome prediction** (`Prediction`). It returns the most frequent
  `stop_outcome` among stored stops with the same violation and drug flag, and
  "Warning" when there is none or the store cannot be reached.
- **Record lifecycle** (`Lifecycle`). It covers the entry form's coercions, the
  reselect after insert, the ten-most-recent list, and delete by vehicle number
  and stop time. The class `StopTable` holds the table as a `seq` field. Its
  `Submit` and `Delete` methods change that field.

Dates and times are integer triples, compared field by field. The 0/1 columns
are booleans. `Sorting` has a generic insertion sort and the facts about
prefixes shared by every `ORDER BY ... LIMIT` query. The database leaves the
order of tied rows open. The functions pick one order. Their contracts, and
the contracts of the `StopTable` methods, state only what every tie order
shares: `IsPrediction` for the outcome lookup and `IsRecentList` for the
recent list.

Four behaviours of the code are kept as written:

- **Form flags.** `1 if search_conducted else 0` is applied to the form's
  strings `"1"` and `"0"`. Both strings are non-empty, so each stored flag is 1.
  The prediction lookup binds the same string into `drugs_related_stop = %s`,
  where `'0'` compares numerically as 0. `FormFlagsAreStoredAsTrue` states both
  facts.
- **Delete key.** Delete matches on (vehicle number, stop time) only. It removes
  every such row, whatever its date, and not just the row picked from the
  recent list.
- **Ages below 18.** The age CASE sends every age outside 18..60 to "60+",
  including ages below 18.
- **Empty table.** When the table is empty, the Data Records page shows a
  warning instead of the filtered view. The filter of an empty table is empty,
  so `FilterRecords` needs no special case.

## Model

| member | source | states |
|---|---|---|
| `Stops.RecencyIsTotalPreorder` | dashboard.py:657 | Any two stops compare by (stop_date, stop_time), and the order is transitive. Two stops tie exactly when they share both date and time. |
| `Filters.Where` | dashboard.py:89-100 | The boolean-mask selection keeps a row exactly when it is in the input and satisfies the condition. It never lengthens the input. |
| `Filters.WhereMultiplicity` | dashboard.py:89-100 | A mask selection keeps every satisfying row as often as the input holds it, and no other row. |
| `Filters.WhereWhere` | dashboard.py:89-100 | Two successive mask selections equal one selection by the conjunction of their conditions. |
| `Filters.WhereCommutes` | dashboard.py:89-100 | Two successive mask selections give the same rows, in the same order, whichever runs first. |
| `Filters.WhereIsSubsequence` | dashboard.py:89-100 | A mask selection keeps the surviving rows in their original order. |
| `Filters.FilterRecords` | dashboard.py:89-100 | A record is in the filtered frame exactly when it is in the table and meets all five conditions: start <= stop_date <= end, the chosen gender unless "All", country in the selected list, the chosen drug flag unless "All", and arrested when arrests-only is set. |
| `Filters.FilterCons` | dashboard.py:89-100 | The five steps applied to a table with first row x keep x exactly when x matches, and then filter the rest. |
| `Filters.FilterIsOneSelection` | dashboard.py:89-100 | The five successive narrowings equal one selection by the conjunction of the five conditions. |
| `Filters.FilterIsSubsequence` | dashboard.py:89-100 | The filtered rows are an order-preserving subsequence of the table. |
| `Filters.FilterIdempotent` | dashboard.py:89-100 | Filtering the filtered rows again with the same criteria changes nothing. |
| `Filters.NoCountryNoRecords` | dashboard.py:94 | An empty country selection gives an empty result. |
| `Filters.Summarize` | dashboard.py:114-121 | Total stops is the number of filtered rows. The male and female counts sum to at most the total. Arrests and drug-related stops are each at most the total. |
| `Filters.GenderFilterSummary` | dashboard.py:91-92 | Filtering on one gender makes that gender's count equal the total and the other gender's count 0. |
| `Filters.ArrestsOnlySummary` | dashboard.py:99-100 | With arrests-only set, the arrest count equals the number of shown stops. |
| `Classify.AgeGroup` | dashboard.py:198-205 | The age group is one of the five labels. Each label holds exactly its age interval, 18-25, 26-35, 36-45 or 46-60, and "60+" holds every other age, those below 18 included. |
| `Classify.AgeGroupBoundaries` | dashboard.py:198-205 | 25 maps to "18-25" and 26 to "26-35". 35 and 36 fall on either side, as do 60 and 61. 17 and 0 map to "60+". |
| `Classify.TrendAgeGroup` | dashboard.py:414-419 | The age group is one of the four labels 18-25, 26-40, 41-60 and 60+. Each holds exactly its interval, and "60+" holds every age outside 18..60. |
| `Classify.AgeSchemesAgree` | dashboard.py:414-419 | The two schemes agree on "18-25" and on "60+". "26-40" is "26-35" together with the ages 36..40. |
| `Classify.TimePeriod` | dashboard.py:272-276 | The result is "Night" exactly when the hour is at least 20 or below 6, and "Day" otherwise. |
| `Classify.TimePeriodBoundaries` | dashboard.py:272-276 | Hour 19 is Day, 20 is Night, 5 is Night and 6 is Day. |
| `Classify.DurationMinutes` | dashboard.py:255-262 | '0-15 min' maps to 7.5, '16-30 min' to 23 and '30+ min' to 35, each exactly and only that label. Any other string maps to 0. Every value lies in 0..35. |
| `Reports.StopCount` | dashboard.py:163-168 | A vehicle's count is positive exactly when some selected row has that vehicle number. The count never exceeds the table size. |
| `Reports.StopCountAppend` | dashboard.py:163-168 | Appending a stop adds one to its vehicle's count when the report selects it, and leaves every other count unchanged. |
| `Reports.Vehicles` | dashboard.py:166 | The groups list each vehicle number with a positive count, each once. |
| `Reports.GroupRows` | dashboard.py:163-166 | Each group row carries its vehicle's true stop count, which is positive. No vehicle has two rows. A vehicle has a row exactly when it has a selected stop. |
| `Reports.TopVehicles` | dashboard.py:163-180 | The report has at most N rows in non-increasing count order. They are distinct vehicles, each with its true positive count. A selected vehicle is left out only when N rows are listed, none with fewer stops. `DrugStopVehicles` (lines 163-168) and `SearchedVehicles` (lines 175-180) are this report with N = 10. |
| `Prediction.OutcomeCount` | dashboard.py:566-573 | An outcome's count in a (violation, drug flag) case is positive exactly when some stored stop of that case has that outcome. |
| `Prediction.OutcomeCountAppend` | dashboard.py:566-573 | Appending a stop adds one to its own outcome's count in its own (violation, drug flag) case, and leaves every other count unchanged. |
| `Prediction.CaseOutcomes` | dashboard.py:569-570 | The outcomes listed for a case are exactly those with a positive count in it. |
| `Prediction.MostFrequent` | dashboard.py:571-572 | The chosen candidate's count is at least every other candidate's. |
| `Prediction.PredictOutcome` | dashboard.py:560-577 | The result meets `IsPrediction`. It is "Warning" when the store is unavailable or no stop matches. Otherwise it is an outcome of a matching stop, and no outcome occurs more often among the matches. |
| `Prediction.StrictMajorityIsPredicted` | dashboard.py:566-577 | An outcome strictly more frequent than every other is the prediction, whatever the tie order. |
| `Lifecycle.FormFlagsAreStoredAsTrue` | dashboard.py:586-588 | For form values "1"/"0", the row `StoredRecord` writes has the search, arrest and drug flags all true. A "0" drug flag is looked up as false but stored as true. |
| `Lifecycle.StoredStopCountsOnce` | dashboard.py:586-614 | A stored form stop adds one to its outcome's count among the drug-related stops of its violation, whichever drug flag the form chose. It leaves that violation's non-drug counts unchanged. |
| `Lifecycle.Reselect` | dashboard.py:618-623 | The reselect returns every row with the given vehicle number, stop date and stop time, as many times as the table holds it, and no other row, in table order. |
| `Lifecycle.RecentRecords` | dashboard.py:657 | The result meets `IsRecentList`. The recent list has min(n, table size) rows, latest first. It lists only rows of the table, no more often than they occur. No row left out, and no copy of a row left out when another copy is listed, is more recent than a listed one. |
| `Lifecycle.LatestInsertIsMostRecent` | dashboard.py:657 | After a stop later than every stored one is added, the one-row recent list is exactly that stop. |
| `Lifecycle.DeleteRemovesExactlyMatches` | dashboard.py:670-672 | The table `Remaining` leaves holds exactly the rows without that vehicle number and stop time, on any date. Every other row stays, in order. The number removed is the number matching. With no match the table is unchanged. |
| `Lifecycle.StopTable.Submit` | dashboard.py:560-623 | A lookup query that fails stops the submit with the table unchanged. Otherwise the outcome is any answer `IsPrediction` allows over the table before the insert: "Warning" with no connection or no matching stop, else a most frequent outcome of the matching stops, whichever the database picks among ties. A successful store appends exactly one row, `StoredRecord`, with that outcome and the coerced flags. A failed store leaves the table as it was. A successful reselect returns rows that include the new one. |
| `Lifecycle.StopTable.Delete` | dashboard.py:667-676 | The new table is the old one without the matching rows. The affected-row count `removed` is the number of matching rows. The refreshed list meets `IsRecentList` for the new table and limit 10: the ten most recent rows, whatever the tie order. |

## Left out

- The Streamlit layout, widgets, CSS, page selection, metric display, Plotly charts and Lottie animations are presentation and network fetches.
- The CSV export of the filtered frame is left out because it relies on library serialisation.
- The MySQL connection and `fetch_data` are left out. Query results are functions over the in-memory table. Connection and query failures are parameters: `available` in `PredictOutcome`, and `lookup`, `storeUp` and `reselectUp` in `Submit`. A failed lookup query raises out of the submit, because the lookup runs before the insert's error handler; `Submit` reports it as `LookupFailed`.
- The percentage reports (`AVG(...)*100`, `ROUND`, `ROUND(AVG(driver_age),1)`), the running average (`AVG OVER`), `RANK()` and the averages built on `DurationMinutes` are left out. They depend on database decimal rounding and window semantics. Only the CASE classifiers inside them are modelled.
- The other grouped reports (by country and gender, by hour, by year and month, by race and gender, by violation) are left out. They are GROUP BY aggregates with the same shape as `Reports.StopCount`.
- `strftime` formatting of the stop time and pandas date/time parsing are left out. Dates and times are integer triples, and the stored time is the form's time.
- String collation is left out. Every SQL string comparison is modelled as exact equality of character sequences. This covers the duration CASE, `GROUP BY vehicle_number` in `TopVehicles`, `violation = %s` and `GROUP BY stop_outcome` in `PredictOutcome`, and the `vehicle_number =` matches of `Reselect` and `Delete`. Under a case-insensitive MySQL collation these would also match strings that differ only in case. For example, the form offers "0-15 Min" while the CASE compares with "0-15 min", and deleting 'tn01' would also remove 'TN01' rows.
- The database's tie order in `LIMIT` queries is left out. The functions fix one order, insertion order for ties. Every contract, those of `Submit` and `Delete` included, holds for every tie order.
- The delete selectors offer the values of the recent list. `Delete` takes any (vehicle number, stop time) pair because the SQL statement matches on the whole table.
- `Lifecycle.LookupFlag` covers only the two strings the form can send. MySQL's numeric reading of other strings is not modelled.
- `Lifecycle.StopTable.Delete` returns `removed`, the number of rows the DELETE statement affects. The page does not display that number; it only confirms the deletion.
- When the delete statement fails, the page reports the error, and the table is as the database left it. That path is not modelled.
