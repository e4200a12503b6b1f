# Encounter/sale reconciliation of the procedure drill-down, in Dafny

This project models the reconciliation behind the procedure drill-down view of
a dental-clinic analytics application. Its core is `consolidateRecords`. It
takes the clinical encounters ("attentions") and the ledger entries ("sales")
of one procedure. Each attention, in input order, is paired with the first
sale of the same patient on the same calendar day that no earlier attention
took. The model also covers:

- the classifier that labels each pair;
- the statistics computed over the consolidated list;
- the date range a year, month or day selects;
- the page slice returned to the view;
- the date, patient-id and treatment-catalog helpers these rely on.

Modules, one file each:

- `Wrappers`: `Option`.
- `Strings`: decimal digits, `toString`, `padStart` and `parseInt(s, 10)`.
- `Calendar`: the proleptic Gregorian calendar. It also holds the local `Date`
  constructor, including JavaScript's day and month overflow and its
  ±8.64e15 ms validity range. An invalid date is `None`.
- `DateUtils`: `formatTime`, `calculateTimeDifference`, `isSameDay` and
  `formatISODate`.
- `PatientUtils`: `extractPatientId`, `anonymizePatientId` and
  `calculateAge`, with today's date as a parameter.
- `TreatmentCatalog`: the two constant tables and the lookups over them.
- `Conciliation`: `determineConciliationStatus` and `consolidateRecords`.
  - `consolidateRecords` is modelled as methods: the pairing loop, the loop
    over leftover sales, and an in-place sort of an array.
  - These methods are proved against the functional specification
    `MatchAttentions`/`Unsorted`.
- `ConciliationProperties`: coverage, at-most-once use of each sale, the
  first-eligible tie-break and the shape of each record.
- `Stats`: `calculateStats`, its agreement between the sorted and the
  unsorted list, and the sales total as the sum of every fetched sale.
- `DateFilter`: `buildDateFilter`, and the range each filter spans.
- `Pagination`: `Array.prototype.slice` and the page arithmetic.
- `ProcedureDetail`: `getConsolidatedRecords` once the two lists are fetched.
- `ConciliationExamples`: worked cases on one patient's day. They cover a
  perfect and a likely match, the three-hour boundary, one-sided records and
  the scan-order tie-break.

Where the type declarations and the service code disagree, the model follows
the code:

- `SaleRecord` declares `subjectId` (`src/types/procedureDetail.types.ts:58`).
  The service fills and compares `patientId`
  (`src/services/procedureDetailService.server.ts:223,276`), so the model's
  `SaleRecord` has `patientId`.
- The `ConciliationStats` interface (`src/types/procedureDetail.types.ts:133-147`)
  lists `totalRevenue`, `averageRevenue`, `averageAge` and `dateRange`.
  `calculateStats` returns `totalSalesAmount`, `avgSaleAmount` and
  `avgTimeDifferenceMinutes` instead
  (`src/services/procedureDetailService.server.ts:392-402`). The model's
  `ConciliationStats` has the fields the code returns.
- The interface comment calls `conciliationRate` the share of attentions that
  have a sale. The code divides the matched count by all records, sale-only
  ones included (`src/services/procedureDetailService.server.ts:371`).
  `Stats.ConciliationRate` divides by all records.

Two behaviours of the code are stated as they are:

- **Upper bounds.** Every date filter ends at 23:59:59.000 of its last day
  (`DateFilter.UpperBoundLastSecond`), so an instant later in that second is
  outside the range.
- **Pages below 1.** Page 0 is always empty (`Pagination.PageZeroEmpty`).
  A negative page counts back from the end of the list, as `slice` does with
  negative indices (`Pagination.NegativePageCountsFromEnd`).

`calculateStats` is a pure function of its input. In the model this follows
from its being a Dafny function, so no lemma states it.

## Model

| member | source | states |
|---|---|---|
| Conciliation.DetermineConciliationStatus | src/services/procedureDetailService.server.ts:239-256 | sale-only exactly without an attention; attention-only exactly with an attention and no sale; perfect-match exactly for a pair whose time difference is known and at most 180 minutes (likely-match otherwise) |
| Conciliation.PairRecord | src/services/procedureDetailService.server.ts:285-310 | a pair record has id `attention_sale`, the anonymized patient id and age of the attention, the attention's date, both summaries, the sale's amount and, as time difference, the minutes between the two dates; those minutes are non-negative and decide between perfect (at most 180) and likely match; they are below one day for a sale on the attention's day |
| Conciliation.AttentionOnlyRecord | src/services/procedureDetailService.server.ts:313-327 | an attention-only record has the attention's id, anonymized patient id, age, date and summary, no sale, no time difference, and the status the classifier gives an attention without a sale |
| Conciliation.SaleOnlyRecord | src/services/procedureDetailService.server.ts:336-349 | a sale-only record has the sale's id, anonymized patient id, age, date, summary and amount, no attention, no time difference, and the status the classifier gives a record without an attention |
| Conciliation.MatchFrom | src/services/procedureDetailService.server.ts:268-329 | running the first loop from a state keeps the records already pushed, pushes one record carrying an attention per attention, and only adds to the matched set |
| Conciliation.MatchAttentions | src/services/procedureDetailService.server.ts:268-329 | the first loop pushes exactly one record per attention, each carrying an attention |
| Conciliation.UnmatchedSales | src/services/procedureDetailService.server.ts:331-351 | the second loop pushes at most one record per sale, each sale-only and without an attention |
| Conciliation.FirstEligible | src/services/procedureDetailService.server.ts:273-280 | the index found is of a sale that is unconsumed, of the same patient and on the same day, and no earlier sale is; none is found only when no sale qualifies |
| Conciliation.FindMatchingSale | src/services/procedureDetailService.server.ts:273-280 | the linear scan returns the first eligible sale, or none when no sale is eligible, and agrees with `FirstEligible` |
| Conciliation.PairAttentions | src/services/procedureDetailService.server.ts:268-329 | the loop over the attentions builds exactly the records and the consumed-sale set of the specification `MatchAttentions` |
| Conciliation.PushUnmatchedSales | src/services/procedureDetailService.server.ts:331-351 | the loop appends exactly a sale-only record for each unconsumed sale, in input order |
| Conciliation.ConsolidateRecords | src/services/procedureDetailService.server.ts:261-357 | the result is a permutation of the records pushed by the two loops, and it is sorted by date, newest first, whenever every date is valid |
| Conciliation.CompareByDateDescending | src/services/procedureDetailService.server.ts:354 | 0 when either date is invalid; otherwise positive exactly when the first record is older and 0 exactly when both have the same time, so the sort puts newer records first |
| Conciliation.SortByDateDescending | src/services/procedureDetailService.server.ts:354 | the in-place sort permutes the array and leaves it in non-increasing time order when all dates are valid |
| Conciliation.InsertBackward | src/services/procedureDetailService.server.ts:354 | one insertion step keeps the array a permutation and extends the sorted prefix by one element |
| Conciliation.ChainedIsSorted | src/services/procedureDetailService.server.ts:354 | adjacent records in non-increasing time order means the whole list is sorted |
| Conciliation.AllDatesValidPermutation | src/services/procedureDetailService.server.ts:354 | reordering the records does not change whether every date is valid |
| ConciliationProperties.MatchAttentionsInOrder | src/services/procedureDetailService.server.ts:269-280 | the i-th record comes from the i-th attention, matched against the sales consumed by the attentions before it |
| ConciliationProperties.PairedRecordFromDates | src/services/procedureDetailService.server.ts:269-329 | the i-th record of the first loop, when attention i found its first eligible sale, carries that sale's amount, the anonymized patient id and the minutes between the two dates, below one day, which make it perfect exactly at most 180 and likely exactly above; with no eligible sale it is the attention-only record |
| ConciliationProperties.PairOfEligible | src/services/procedureDetailService.server.ts:273-310 | the pair record of an eligible sale carries the minutes between the dates, below one day, and is perfect exactly when they are at most 180 and likely exactly when above |
| ConciliationProperties.MatchedGrowsByAtMostOne | src/services/procedureDetailService.server.ts:282-283 | each attention adds at most one id to `matchedSaleIds` and removes none |
| ConciliationProperties.FirstEligibleTieBreak | src/services/procedureDetailService.server.ts:269-283 | an attention's record pairs it with the first sale in input order that was eligible at that moment, or is attention-only when no sale was eligible |
| ConciliationProperties.MatchedSales | src/services/procedureDetailService.server.ts:266-283 | the paired records carry pairwise distinct sale ids; these are exactly the consumed ids, all of them ids of input sales, and no more of them than there are attentions |
| ConciliationProperties.StepKeepsSalesTakenOnce | src/services/procedureDetailService.server.ts:273-283 | processing one attention keeps every sale consumed at most once |
| ConciliationProperties.MatchFromKeepsSalesTakenOnce | src/services/procedureDetailService.server.ts:269-329 | processing all the attentions keeps every sale consumed at most once |
| ConciliationProperties.MatchedAttentions | src/services/procedureDetailService.server.ts:269-329 | the attention ids of the paired records are the input attention ids, in input order |
| ConciliationProperties.UnmatchedSalesRefs | src/services/procedureDetailService.server.ts:332-351 | the leftover records carry the unconsumed sale ids in input order and no attention |
| ConciliationProperties.UnmatchedSalesAreSaleOnly | src/services/procedureDetailService.server.ts:332-351 | every leftover record is the sale-only record of an unconsumed input sale |
| ConciliationProperties.UnsortedAttentions | src/services/procedureDetailService.server.ts:265-351 | there is one record per attention plus one per unconsumed sale, and every attention appears in exactly one record |
| ConciliationProperties.UnsortedSales | src/services/procedureDetailService.server.ts:265-351 | with distinct sale ids, every sale appears in exactly one record, and the unconsumed sales number the sales minus the consumed ones |
| ConciliationProperties.UnsortedCoverage | src/services/procedureDetailService.server.ts:265-351 | output length is attentions plus unmatched sales; every attention id and (for distinct sale ids) every sale id occurs in exactly one record |
| ConciliationProperties.PairWellFormed | src/services/procedureDetailService.server.ts:285-310 | a pair record has both sides, the id `attentionId_saleId`, the attention's date, a time difference below one day and the status the classifier gives it |
| ConciliationProperties.AttentionOnlyWellFormed | src/services/procedureDetailService.server.ts:313-327 | an attention-only record has the attention's id and date, no sale and no time difference |
| ConciliationProperties.SaleOnlyWellFormed | src/services/procedureDetailService.server.ts:336-349 | a sale-only record has the sale's id and date, no attention and no time difference |
| ConciliationProperties.UnsortedWellFormed | src/services/procedureDetailService.server.ts:265-351 | every record has at least one side, a time difference exactly when it has both, and a status that agrees with its sides |
| ConciliationProperties.ConsolidatedCoverage | src/services/procedureDetailService.server.ts:261-357 | the sorted output keeps the coverage: its length, each attention once, each sale exactly once for distinct sale ids, every record well formed |
| Stats.CountWhere | src/services/procedureDetailService.server.ts:365-368 | `filter(p).length` is at most the number of records |
| Stats.ConciliationRate | src/services/procedureDetailService.server.ts:370-371 | 0 for no records, else matched × 100 / total; never negative, at most 100 when matched ≤ total, and 100 exactly when all records match |
| Stats.Average | src/services/procedureDetailService.server.ts:380 | 0 for an empty count, else the quotient whose product with the count is the total; non-negative for a non-negative total |
| Stats.CalculateStats | src/services/procedureDetailService.server.ts:362-403 | the counts per status sum to the total; the rate is in [0, 100]; the sales total is non-negative; each average is 0 without its records and otherwise total divided by count |
| Stats.StatusCountsSum | src/services/procedureDetailService.server.ts:363-368 | every record has exactly one of the four statuses, so the four counts sum to the record count |
| Stats.SalesTotalNonNegative | src/services/procedureDetailService.server.ts:374-376 | the sum of the sale amounts is never negative |
| Stats.OrderIrrelevant | src/services/procedureDetailService.server.ts:365-390 | a filter count and a reduce sum give the same value on any reordering of the records |
| Stats.StatsIgnoreOrder | src/services/procedureDetailService.server.ts:362-403 | `calculateStats` gives equal statistics on two lists with the same records in any order |
| Stats.WellFormedCounts | src/services/procedureDetailService.server.ts:379-390 | over well-formed records the timed records are the matches, the records with a sale are the matches plus the sale-only ones, and the total time difference is below 1440 per match |
| Stats.ConsolidatedStats | src/services/procedureDetailService.server.ts:425-429 | statistics of the consolidated list: total = attentions + unmatched sales, the three attention statuses sum to the attentions, sale-only = unmatched sales, average time difference in [0, 1440) |
| Stats.AverageBelow | src/services/procedureDetailService.server.ts:386-390 | an average of time differences each below one day is below 1440 minutes |
| Stats.ConsolidatedSalesTotal | src/services/procedureDetailService.server.ts:261-376 | with distinct sale ids, `totalSalesAmount` over the consolidated records equals the sum of every fetched sale's amount, whatever the order |
| Stats.UnsortedSalesTotal | src/services/procedureDetailService.server.ts:269-351 | the records the two loops push carry each sale's amount exactly once: the paired ones add up the taken sales, the leftover ones the rest |
| Stats.TakeOne | src/services/procedureDetailService.server.ts:282-283 | adding a not yet taken sale id to `matchedSaleIds` adds that sale's amount, once, to the taken total |
| Stats.LeftoverTotal | src/services/procedureDetailService.server.ts:332-351 | the sale-only records carry exactly the amounts of the sales not taken |
| Stats.SplitTotal | src/services/procedureDetailService.server.ts:266-351 | the taken and the not taken amounts together are all the sales' amounts |
| DateFilter.Minus | src/services/procedureDetailService.server.ts:29 | `monthNum - 1` is a number exactly when `monthNum` is, and then one less |
| DateFilter.NewDate | src/services/procedureDetailService.server.ts:29-30 | a `NaN` argument gives the invalid date; otherwise it is the local `Date` constructor |
| DateFilter.BuildDateFilter | src/services/procedureDetailService.server.ts:20-56 | the empty filter exactly without a year. With month and day it is the day range, with a month only the month range, and without a month (a day alone ignored) the year range. A year `parseInt` rejects gives two invalid dates |
| DateFilter.MakeLocalDateInMonth | src/services/procedureDetailService.server.ts:29-30 | `new Date(y, m - 1, d, h, mi, s)` for a day within month `m` of a year in 100-9999 reads as exactly that date and time |
| DateFilter.DayZeroOfNextMonth | src/services/procedureDetailService.server.ts:40 | day 0 of the following month normalises to the last day of month `m` |
| DateFilter.DayFilterBounds | src/services/procedureDetailService.server.ts:29-30 | with all three numbers present the day filter runs from `new Date(y, m - 1, d)` to `new Date(y, m - 1, d, 23, 59, 59)` |
| DateFilter.DayRange | src/services/procedureDetailService.server.ts:25-35 | a day filter runs from 00:00:00 to 23:59:59 of that very day |
| DateFilter.MonthRange | src/services/procedureDetailService.server.ts:36-45 | a month filter runs from 00:00:00 of day 1 to 23:59:59 of the last day of that month, leap Februaries included |
| DateFilter.YearRange | src/services/procedureDetailService.server.ts:46-55 | a year filter runs from January 1st 00:00:00 to December 31st 23:59:59 |
| DateFilter.UpperBoundLastSecond | src/services/procedureDetailService.server.ts:40 | the upper bound of a month is one second before the next month starts |
| Pagination.ClampIndex | src/services/procedureDetailService.server.ts:434 | `slice` counts a negative index from the end and clamps every index into [0, length] |
| Pagination.Slice | src/services/procedureDetailService.server.ts:434 | `slice(start, end)` holds the elements from the clamped start up to the clamped end, in order, and is empty when the end does not come after the start |
| Pagination.SliceWithin | src/services/procedureDetailService.server.ts:434 | a slice holds only elements of the list it is cut from |
| Pagination.Paginate | src/services/procedureDetailService.server.ts:432-436 | the page echoes page and limit, reports the total, and `hasMore` holds exactly when `page × limit` is below the total |
| Pagination.PageWindow | src/services/procedureDetailService.server.ts:432-436 | from page 1 on, a page is the records from `(page-1) × limit` to `page × limit`, cut at the end of the list; at most `limit` of them, exactly `limit` when more follow |
| Pagination.PageOfIndex | src/services/procedureDetailService.server.ts:432-434 | record i is on page `i / limit + 1` at position `i % limit` |
| Pagination.PagePosition | src/services/procedureDetailService.server.ts:432-434 | position r of a page holds record `(page-1) × limit + r` |
| Pagination.HasMoreIffNextPageNonEmpty | src/services/procedureDetailService.server.ts:433-436 | from page 1 on, `hasMore` holds exactly when the next page is not empty |
| Pagination.PageZeroEmpty | src/services/procedureDetailService.server.ts:432-434 | page 0 is empty |
| Pagination.NegativePageCountsFromEnd | src/services/procedureDetailService.server.ts:432-434 | a negative page is a run of records counted back from the end of the list |
| Pagination.FirstPagesPrefix | src/services/procedureDetailService.server.ts:432-434 | pages 1 to n together are the first `n × limit` records, none skipped or repeated |
| Pagination.AllPagesCover | src/services/procedureDetailService.server.ts:432-434 | enough pages together are the whole list |
| ProcedureDetail.GetConsolidatedRecords | src/services/procedureDetailService.server.ts:425-449 | the page is exactly `Paginate(all, page, limit)` of a list `all` that reorders the records the two loops push and is newest first when all dates are valid; statistics over all consolidated records whatever the page; pagination totals from the attentions and leftover sales; at most `limit` records from page 1 on |
| ProcedureDetail.PageOfReordering | src/services/procedureDetailService.server.ts:432-436 | a page of any reordering of the pushed records holds only pushed records, at most `limit` of them from page 1 on, newest first when every date is valid |
| ProcedureDetail.SortedSlice | src/services/procedureDetailService.server.ts:434 | a slice of a list sorted newest first is sorted newest first |
| DateUtils.FormatTime | src/utils/dateUtils.ts:9-20 | "--:--" for an invalid date, else five characters: two digits reading the hour, a colon, two digits reading the minute |
| DateUtils.CalculateTimeDifference | src/utils/dateUtils.ts:26-36 | 0 when either date is invalid, else the floor of the absolute millisecond difference over 60000; never negative |
| DateUtils.TimeDifferenceSymmetric | src/utils/dateUtils.ts:26-36 | the difference does not depend on the order of the two dates |
| DateUtils.IsSameDay | src/utils/dateUtils.ts:41-54 | same day exactly when both dates are valid and their calendar dates have the same day number |
| DateUtils.SameDaySymmetric | src/utils/dateUtils.ts:41-54 | `isSameDay` is symmetric |
| DateUtils.SameDayReflexive | src/utils/dateUtils.ts:41-54 | a date is on the same day as itself exactly when it is valid |
| DateUtils.SameDayWithinADay | src/utils/dateUtils.ts:41-54 | two dates on the same day are less than 1440 minutes apart |
| DateUtils.SameDayIffSameDayWindow | src/utils/dateUtils.ts:45-53 | same year, month and day exactly when both dates are valid and their time values fall in the same 24-hour window |
| DateUtils.DayNumberInjective | src/utils/dateUtils.ts:49-53 | distinct calendar dates have distinct day numbers |
| DateUtils.FormatISODate | src/utils/dateUtils.ts:59-71 | the empty string exactly for an invalid date |
| DateUtils.FormatISODateReadsBack | src/utils/dateUtils.ts:66-70 | "YYYY-MM-DD" reads back: the year `parseInt`s back, then dash, two digits of the 1-based month, dash, two digits of the day; ten characters for the years 1000-9999 |
| Calendar.DaysInMonth | src/services/procedureDetailService.server.ts:40 | 28 to 31 days, 29 exactly in a leap February |
| Calendar.NormalizeDay | src/services/procedureDetailService.server.ts:40 | a day number out of its month moves into the month it falls in, keeping its distance from the month's first day |
| Calendar.MonthStep | src/services/procedureDetailService.server.ts:40 | the next month starts `DaysInMonth` days after this one |
| Calendar.MakeLocalDate | src/services/procedureDetailService.server.ts:29-52 | `new Date(y, m, d, h, mi, s)` is valid exactly when the time value MakeDate gives (years 0-99 read as 19xx, the month index carried into the year) is within ±8.64e15 ms, and then has that time value |
| Calendar.TimeValue | src/utils/dateUtils.ts:34 | `getTime()` is within ±8.64e15 ms and within the 24 hours of the date's day number |
| Calendar.LocalDateTime | src/services/procedureDetailService.server.ts:29 | the calendar reading of a date built from overflowing fields has every field in range |
| Calendar.LocalDateTimeEpoch | src/services/procedureDetailService.server.ts:29 | that reading has exactly the time value ECMAScript's MakeDate gives the fields |
| Calendar.DateAtTimeValue | src/services/procedureDetailService.server.ts:29 | the constructed date is valid exactly when MakeDate is within ±8.64e15 ms, and its time value is MakeDate |
| Strings.NatToString | src/utils/dateUtils.ts:16-17 | `toString()` of a natural number is a non-empty digit string denoting it, without a leading zero |
| Strings.PadStart | src/utils/dateUtils.ts:16-17 | `padStart` keeps the string as the suffix, fills the front and reaches the width |
| Strings.TwoDigits | src/utils/dateUtils.ts:16-17 | an hour, minute, month or day below 100 padded to two digits denotes itself |
| Strings.IntToString | src/utils/dateUtils.ts:70 | a negative year is a minus sign before the digits of its magnitude |
| Strings.ParseIntDigits | src/services/procedureDetailService.server.ts:23 | `parseInt` of digits followed by a non-digit gives the digits' value |
| Strings.ParseIntRoundTrip | src/services/procedureDetailService.server.ts:23 | `parseInt` of `toString` of any integer gives it back |
| Strings.ParseIntNegative | src/services/procedureDetailService.server.ts:23 | a minus sign before digits gives the negated value |
| Strings.ParseIntNoDigits | src/services/procedureDetailService.server.ts:23 | a string without digits gives `NaN` |
| PatientUtils.ExtractPatientId | src/utils/patientUtils.ts:9-12 | a prefix of the input: with a `P#` head, the part up to the first underscore (or the whole id), keeping the `P#` head; otherwise the input unchanged |
| PatientUtils.ExtractPatientIdIdempotent | src/utils/patientUtils.ts:9-12 | extracting twice is extracting once |
| PatientUtils.PatientPartBeforeUnderscore | src/utils/patientUtils.ts:10-11 | `P#` + an underscore-free part + a tail starting with `_` extracts to `P#` + that part |
| PatientUtils.ExtractPatientIdExample | src/utils/patientUtils.ts:7 | the documented example |
| PatientUtils.AnonymizePatientId | src/utils/patientUtils.ts:18-24 | an id of at most 4 characters unchanged, else "****" and the last four characters (eight in all) |
| PatientUtils.AnonymizeIdempotent | src/utils/patientUtils.ts:18-24 | anonymising twice is anonymising once |
| PatientUtils.AnonymizeExample | src/utils/patientUtils.ts:16 | the documented example |
| PatientUtils.CalculateAge | src/utils/patientUtils.ts:30-51 | ND for a missing or invalid birthdate or one after today; otherwise the number of birthdays reached by today (turned `age` years and not `age + 1`) |
| TreatmentCatalog.GetTreatmentDescription | src/utils/treatmentCatalog.ts:90-92 | the short description of a listed code, else the code itself |
| TreatmentCatalog.FindCategory | src/utils/treatmentCatalog.ts:100 | `find` returns the first entry with that id, or none when no entry has it |
| TreatmentCatalog.GetTreatmentFullDescription | src/utils/treatmentCatalog.ts:99-102 | the description of the catalog entry with that id, else the code itself |
| TreatmentCatalog.FoundIsOnly | src/utils/treatmentCatalog.ts:100 | with distinct ids, the entry `find` returns is the only one with that id |
| TreatmentCatalog.UnknownCodeDescribesItself | src/utils/treatmentCatalog.ts:99-111 | a code `isValidTreatmentCode` rejects describes itself in both lookups |
| TreatmentCatalog.IsValidTreatmentCode | src/utils/treatmentCatalog.ts:109-111 | `some` succeeds exactly when `find` on the catalog finds an entry |
| TreatmentCatalog.NotInCatalog | src/utils/treatmentCatalog.ts:109-111 | `some` failing means no entry has that id |
| TreatmentCatalog.CatalogIdsDistinct | src/utils/treatmentCatalog.ts:26-50 | the catalog ids are pairwise distinct |
| TreatmentCatalog.CatalogDescriptionsNonEmpty | src/utils/treatmentCatalog.ts:101 | every catalog description is non-empty, so `description \|\| code` never falls back for a listed code |
| TreatmentCatalog.CatalogCodesDescribed | src/utils/treatmentCatalog.ts:59-83 | every catalog id has a short description |
| TreatmentCatalog.DescribedCodesInCatalog | src/utils/treatmentCatalog.ts:59-83 | every short-description key is a valid catalog code |
| TreatmentCatalog.DescriptionKeysMatchCatalog | src/utils/treatmentCatalog.ts:53-83 | the short-description table and the catalog have the same key set |
| ConciliationExamples.ScenarioPerfectMatch | src/services/procedureDetailService.server.ts:269-310 | an attention at 09:30 and its patient's sale at 09:45 on the same day give exactly one record, a pair 15 minutes apart and a perfect match |
| ConciliationExamples.ScenarioLikelyMatch | src/services/procedureDetailService.server.ts:269-310 | at 09:00 and 14:00 they give exactly one pair, 300 minutes apart and a likely match |
| ConciliationExamples.ThreeHoursApart | src/services/procedureDetailService.server.ts:250-253 | 09:00 and 12:00 are 180 minutes apart, still a perfect match |
| ConciliationExamples.PastThreeHoursApart | src/services/procedureDetailService.server.ts:250-255 | 09:00 and 12:01 are 181 minutes apart, a likely match |
| ConciliationExamples.ScenarioOneSided | src/services/procedureDetailService.server.ts:269-351 | an attention and a sale of different patients give an attention-only record followed by a sale-only record |
| ConciliationExamples.SingleSaleTotal | src/services/procedureDetailService.server.ts:374-376 | with one attention and one sale, the sales total is that sale's amount, paired or not |
| ConciliationExamples.ScenarioScanOrder | src/services/procedureDetailService.server.ts:273-280 | two attentions (09:00, 10:00) and their patient's sales listed 10:05 then 09:05: the first attention takes the first sale listed, 65 minutes away, and the second the other, 55 minutes away |

## Left out

- The MongoDB queries are not modelled, since they are I/O against a database. This covers `getAttentions`, `getSales`, the `Promise.all` that runs them, and the `try`/`catch` around them. The fetched lists are parameters of `ProcedureDetail.GetConsolidatedRecords`, and the logging is dropped.
- The host time zone is a fixed offset with no daylight-saving time. Local time equals the time value's own calendar, and `new Date(...)` does not shift across DST changes.
- Strings are not parsed into dates. Every date enters the model as an already parsed `Date` value or the invalid date, and the `typeof date === "string"` branches are not modelled.
- Amounts, the rate and the averages are exact reals rather than IEEE doubles, so rounding is not modelled. A `NaN` amount, which `record.sale?.amount || 0` turns into 0, is not modelled.
- `page` and `limit` are integers. A `NaN` page from `parseInt` in the route is not modelled.
- The defaults `page = 1` and `limit = 20` of `getConsolidatedRecords` (src/services/procedureDetailService.server.ts:410-411) are not modelled: `ProcedureDetail.GetConsolidatedRecords` takes both explicitly. Its caller, the route in `src/routes/procedure-detail.tsx`, passes both; that file is not part of this model.
- Conciliation.ConsolidateRecords: sortedness is stated only when every date is valid. With an invalid date, the comparator returns `NaN`, and the order `Array.prototype.sort` then produces depends on the engine.
- Conciliation.SortByDateDescending: an insertion sort stands in for the engine's sort. Only permutation and order are stated, not which of several records with equal times comes first.
- ConciliationProperties.UnsortedCoverage: "every sale in exactly one record" is stated for distinct sale ids, as MongoDB `_id`s are. With repeated ids, the code's `Set` of consumed ids behaves differently.
- DateFilter.DayRange: stated for years 100-9999 and a day within its month. Other inputs still go through `DateFilter.BuildDateFilter`, including JavaScript's overflow of days and months and the two-digit year rule.
- DateFilter.MonthRange: stated for years 100-9999.
- DateFilter.YearRange: stated for years 100-9999.
- `parseInt` is modelled for radix 10 over ASCII spaces, tabs and line breaks. The remaining Unicode white space it skips is not modelled.
- Every sale is assumed to carry a string `patientId`. In the source, a sale whose `subjectId` matches no person gets an undefined `patientId` (src/services/procedureDetailService.server.ts:181-197, 223). Such a sale is never matched, and `anonymizePatientId` then throws a TypeError on it (src/utils/patientUtils.ts:19), which aborts the whole consolidation. That failure path is not modelled.
- PatientUtils.AnonymizePatientId: strings are sequences of Unicode scalar values, while JavaScript's `length` and `slice(-4)` count UTF-16 code units. An id with characters outside the Basic Multilingual Plane can therefore be left unchanged by the model and masked by the source.
- Strings.PadStart: widths count Unicode scalar values, not UTF-16 code units. The formatters only pad digit strings, where the two coincide.
- Key lookups in the description table see only the listed codes. A JavaScript object also answers to inherited keys such as `constructor`, which is not modelled.
- `calculateAge` takes today's date as a parameter instead of reading the clock.
- The procedure filters (`procedureCode`, patient) are applied inside the MongoDB queries, so they are not part of this model.
