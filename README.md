# ZKAttendanceWeb core, modelled in Dafny

ZKAttendanceWeb is an ASP.NET Core application that collects the punches
recorded by ZKTeco biometric attendance devices, stores them beside the
employee, department, branch, device and work-shift tables, and turns them
into daily attendance lists and reports (present, late, absent, working
hours).

This project models the core of that application:

- the tables and their unique indexes (`Database.Context`, one sequence field
  per table, with the EF identity key rule and the row-level constraints);
- the attendance-log repository: day and range queries, the punch
  de-duplication on insert, the sync and processed bookkeeping, and the
  grouping per employee and day with the daily counts;
- the attendance calculation: grouping the punches per employee and day, the
  first and last punch of a group, the working time (nothing under 30
  minutes), the status ladder that follows from them, and the shift of the
  day (a dated assignment, else the default shift);
- the attendance service: the daily report and the daily summary, whose
  lateness is a fixed test against 08:00:00 and whose early-leave flag is
  always false, as written;
- the report service: the daily and the date-range reports per employee and
  the report DTOs, including the `H:MM` formatting;
- the employee, work-shift, department, branch and device repositories and
  services: listings, create, update, soft delete, the duplicate checks and
  the next biometric id proposal;
- the attendance controller: the quick-filter date ranges, the extra
  filters, the ordering, the paging of 50 rows and the totals of its index
  view.

Time is an instant in whole seconds since 0001-01-01 00:00 (the .NET
`DateTime` epoch); a day is a number of days since that date, and a date
step that .NET would reject (past 9999-12-31) yields `None`. Durations are
exact seconds. Clocks (`DateTime.Now`, `DateTime.Today`) are parameters.
Strings are compared ordinally, as sequences of characters.

## Model

| member | source | states |
|---|---|---|
| Calendar.DayOf | ZKAttendanceWeb/Services/Attendances/AttendanceCalculationService.cs:27 | `AttendanceTime.Date` is the day whose midnight is at or before the instant and whose next midnight is after it |
| Calendar.TimeOfDay | ZKAttendanceWeb/Services/Attendances/AttendanceService.cs:148 | the time of day lies in [0, 1 day) and the instant is its day's midnight plus it |
| Calendar.AddDays | ZKAttendanceWeb/Repostries/AttendanceLogRepository.cs:113 | `AddDays(n)` gives the shifted day exactly when it stays within 0001-01-01..9999-12-31, and nothing where .NET throws |
| Calendar.SameDayIffInWindow | ZKAttendanceWeb/Repostries/AttendanceLogRepository.cs:112-118 | an instant is on day d iff it lies in [midnight of d, next midnight) |
| Calendar.DateRoundTrip | ZKAttendanceWeb/Controllers/AttendanceController.cs:207 | `new DateTime(y, m, d)` of a valid date converts back to the same year, month and day |
| Calendar.DayOfWeekNext | ZKAttendanceWeb/Controllers/AttendanceController.cs:194 | `DayOfWeek` steps by one each day and wraps from Saturday (6) to Sunday (0) |
| Calendar.DayStringInjective | ZKAttendanceWeb/Repostries/AttendanceLogRepository.cs:221 | different days are written differently by `ToString("yyyy-MM-dd")` |
| Text.TryParseInt | ZKAttendanceWeb/Services/Employees/EmployeeService.cs:85 | a value `int.TryParse` accepts lies within the `int` range |
| Text.ParseFormatRoundTrip | ZKAttendanceWeb/Services/Employees/EmployeeService.cs:97-105 | parsing what `ToString()` wrote gives the number back |
| Text.ParseRejectsLetter | ZKAttendanceWeb/Services/Employees/EmployeeService.cs:85 | a text starting with a letter never parses as an integer |
| Text.FormatD2TwoDigits | ZKAttendanceWeb/DTOs/Reports/DailyAttendanceItemDto.cs:22 | the ":D2" minutes field of a value in 0..99 is exactly two digits and reads back as the value |
| Text.ToLower | ZKAttendanceWeb/Controllers/AttendanceController.cs:181 | lower-casing keeps the length and maps each character on its own |
| AttendanceLogRepository.GetByDateRange | ZKAttendanceWeb/Repostries/AttendanceLogRepository.cs:61-91 | the stored punches with from ≤ time < to that pass the optional search (id or joined employee name), branch and device filters, each as often as it is stored (the multiset of that filter) and no other, latest first |
| AttendanceLogRepository.GetByEmployeeAndDateRange | ZKAttendanceWeb/Repostries/AttendanceLogRepository.cs:93-106 | one id's punches in [from, to), each as often as it is stored (the multiset of that filter) and no other, earliest first |
| AttendanceLogRepository.GetByEmployeeAndDate | ZKAttendanceWeb/Repostries/AttendanceLogRepository.cs:108-121 | one id's punches on the calendar day of `date`, each as often as it is stored (the multiset of the punches of that id and day) and no other, earliest first; fails exactly on 9999-12-31, where adding a day throws |
| AttendanceLogRepository.GetByDeviceAndDateRange | ZKAttendanceWeb/Repostries/AttendanceLogRepository.cs:123-134 | one device's punches in [from, to), each as often as it is stored (the multiset of that filter) and no other, latest first |
| AttendanceLogRepository.GetByBranchAndDateRange | ZKAttendanceWeb/Repostries/AttendanceLogRepository.cs:136-147 | one branch's punches in [from, to), each as often as it is stored (the multiset of that filter) and no other, latest first |
| AttendanceLogRepository.ExistsIffIndexClash | ZKAttendanceWeb/Repostries/AttendanceLogRepository.cs:153-162 | `ExistsAsync` is true iff a stored punch has the same (id, time, device) triple, i.e. iff inserting it would violate the unique index |
| AttendanceLogRepository.GetDuplicates | ZKAttendanceWeb/Repostries/AttendanceLogRepository.cs:164-182 | the loop returns, in input order, exactly the batch punches whose triple is already stored |
| AttendanceLogRepository.NonDuplicateFitsIndex | ZKAttendanceWeb/Repostries/AttendanceLogRepository.cs:164-182 | a batch punch not reported as a duplicate never clashes with the unique index, whatever identity it gets |
| AttendanceLogRepository.MarkedSynced | ZKAttendanceWeb/Repostries/AttendanceLogRepository.cs:238-251 | the listed punches get IsSynced and the stamp; every other field and every unlisted punch is unchanged; unknown ids are ignored |
| AttendanceLogRepository.MarkedProcessed | ZKAttendanceWeb/Repostries/AttendanceLogRepository.cs:265-278 | the listed punches get IsProcessed and the stamp; every other field and every unlisted punch is unchanged |
| AttendanceLogRepository.MarkSyncedTwice | ZKAttendanceWeb/Repostries/AttendanceLogRepository.cs:238-251 | marking the same ids again only moves the stamp; the flags stay set |
| AttendanceLogRepository.LogsValidAfterFlag | ZKAttendanceWeb/Repostries/AttendanceLogRepository.cs:244-250 | changing a punch's flags keeps the table's keys, unique index and foreign keys valid |
| AttendanceLogRepository.MarkAsSynced | ZKAttendanceWeb/Repostries/AttendanceLogRepository.cs:238-251 | the in-place loop leaves the table equal to `MarkedSynced` and valid |
| AttendanceLogRepository.MarkAsProcessed | ZKAttendanceWeb/Repostries/AttendanceLogRepository.cs:265-278 | the in-place loop leaves the table equal to `MarkedProcessed` and valid |
| AttendanceLogRepository.GetUnsyncedLogs | ZKAttendanceWeb/Repostries/AttendanceLogRepository.cs:230-236 | the unsynced punches, each as often as it is stored (the multiset of that filter) and no other, earliest first |
| AttendanceLogRepository.GetUnprocessedLogs | ZKAttendanceWeb/Repostries/AttendanceLogRepository.cs:257-263 | the unprocessed punches, each as often as it is stored (the multiset of that filter) and no other, earliest first |
| AttendanceLogRepository.UnprocessedAfterMarking | ZKAttendanceWeb/Repostries/AttendanceLogRepository.cs:257-278 | after marking, the unprocessed punches are the previously unprocessed ones minus the listed ids, in the same order |
| AttendanceLogRepository.MarkedNeverUnprocessed | ZKAttendanceWeb/Repostries/AttendanceLogRepository.cs:257-278 | after `MarkAsProcessedAsync(ids)`, `GetUnprocessedLogsAsync` returns none of those ids |
| AttendanceLogRepository.GroupKeyInjective | ZKAttendanceWeb/Repostries/AttendanceLogRepository.cs:291 | two punches share the key "{id}_{yyyy-MM-dd}" iff they have the same id and the same day |
| AttendanceLogRepository.GroupKeys | ZKAttendanceWeb/Repostries/AttendanceLogRepository.cs:291 | one group key per punch, in order |
| AttendanceLogRepository.GroupOf | ZKAttendanceWeb/Repostries/AttendanceLogRepository.cs:294 | each group is ordered earliest first |
| AttendanceLogRepository.PunchInItsGroup | ZKAttendanceWeb/Repostries/AttendanceLogRepository.cs:284-296 | every punch of the window is in the group of its own key |
| AttendanceLogRepository.GroupHoldsItsKey | ZKAttendanceWeb/Repostries/AttendanceLogRepository.cs:284-296 | a group holds only punches of the window with that key |
| AttendanceLogRepository.DayKeys | ZKAttendanceWeb/Repostries/AttendanceLogRepository.cs:214-222 | one "yyyy-MM-dd" key per punch of the window, in order |
| AttendanceLogRepository.DailyCountsPerDay | ZKAttendanceWeb/Repostries/AttendanceLogRepository.cs:210-224 | the dictionary has an entry for a day iff the window has a punch on it, and that entry counts the day's punches |
| Database.EmployeeViolation | ZKAttendanceWeb/Data/ZKAttendanceWebDbContext.cs:127-146 | an employee row is refused exactly when it breaks the unique biometric-id index or a department or default-shift foreign key |
| Database.DepartmentViolation | ZKAttendanceWeb/Data/ZKAttendanceWebDbContext.cs:80-95 | a department row is refused exactly when it breaks the unique name index or the parent-department foreign key |
| Database.BranchViolation | ZKAttendanceWeb/Data/ZKAttendanceWebDbContext.cs:47-56 | a branch row is refused exactly when it breaks the unique branch-code index |
| Database.DeviceViolation | ZKAttendanceWeb/Data/ZKAttendanceWebDbContext.cs:61-75 | a device row is refused exactly when it breaks the unique (IP, port) index or the branch foreign key |
| Database.LogViolation | ZKAttendanceWeb/Data/ZKAttendanceWebDbContext.cs:151-184 | a punch row is refused exactly when it breaks the unique (id, time, device) index or a device, branch or employee foreign key |
| Database.Context.constructor | ZKAttendanceWeb/Data/ZKAttendanceWebDbContext.cs:43-185 | an empty database satisfies every key, index and foreign key |
| Database.Context.AddEmployee | ZKAttendanceWeb/Data/ZKAttendanceWebDbContext.cs:127-146 | the row gets the next identity and is appended iff it fits the constraints; otherwise the table is unchanged; the database stays valid |
| Database.Context.UpdateEmployee | ZKAttendanceWeb/Data/ZKAttendanceWebDbContext.cs:127-146 | the row with the same key is replaced as a whole iff it exists and the new row fits; otherwise nothing changes |
| Database.Context.AddDepartment | ZKAttendanceWeb/Data/ZKAttendanceWebDbContext.cs:80-95 | appended with the next identity iff it fits the name index and parent key |
| Database.Context.UpdateDepartment | ZKAttendanceWeb/Data/ZKAttendanceWebDbContext.cs:80-95 | replaced iff the key exists and the new row fits |
| Database.Context.AddShift | ZKAttendanceWeb/Data/ZKAttendanceWebDbContext.cs:100-108 | always appended with the next identity (the name index is not unique) |
| Database.Context.UpdateShift | ZKAttendanceWeb/Data/ZKAttendanceWebDbContext.cs:100-108 | replaced iff the key exists |
| Database.Context.AddBranch | ZKAttendanceWeb/Data/ZKAttendanceWebDbContext.cs:47-56 | appended with the next identity iff the code is new |
| Database.Context.UpdateBranch | ZKAttendanceWeb/Data/ZKAttendanceWebDbContext.cs:47-56 | replaced iff the key exists and the code stays unique |
| Database.Context.RemoveBranch | ZKAttendanceWeb/Data/ZKAttendanceWebDbContext.cs:61-70 | a branch is removed iff no device, device status, punch, sync log, device error or employee branch membership refers to it (every foreign key to Branches is a restricted delete, lines 67-70, 165-168, 202-205, 231-234, 260-263 and 327-330); otherwise nothing changes |
| Database.Context.AddDevice | ZKAttendanceWeb/Data/ZKAttendanceWebDbContext.cs:61-75 | appended with the next identity iff (IP, port) is new and the branch exists |
| Database.Context.UpdateDevice | ZKAttendanceWeb/Data/ZKAttendanceWebDbContext.cs:61-75 | replaced iff the key exists, (IP, port) stays unique and the branch exists |
| Database.Context.AddDeviceStatus | ZKAttendanceWeb/Data/ZKAttendanceWebDbContext.cs:217-234 | appended with the next identity iff its device and branch exist |
| Database.Context.AddLog | ZKAttendanceWeb/Data/ZKAttendanceWebDbContext.cs:151-177 | appended with the next identity and stored as synced (the column default) iff it fits the unique triple and the foreign keys |
| Punches.OrderByTime | ZKAttendanceWeb/Repostries/AttendanceLogRepository.cs:104 | a reordering (same multiset) of the punches with times non-decreasing |
| Punches.OrderByTimeDescending | ZKAttendanceWeb/Repostries/AttendanceLogRepository.cs:89 | a reordering (same multiset) of the punches with times non-increasing |
| Punches.OrderByTimeMembers | ZKAttendanceWeb/Repostries/AttendanceLogRepository.cs:89-104 | ordering by time neither adds nor drops a punch |
| Punches.OrderByTimeStable | ZKAttendanceWeb/Services/Attendances/AttendanceCalculationService.cs:43-46 | `OrderBy` and `OrderByDescending` on the time are stable: punches at the same instant keep their stored order, which decides the check-in taken among simultaneous punches |
| Punches.EarliestTime | ZKAttendanceWeb/Services/Attendances/AttendanceService.cs:78 | the time of some punch of a non-empty list and no later than any of them |
| Punches.LatestTime | ZKAttendanceWeb/Services/Attendances/AttendanceService.cs:79 | the time of some punch of a non-empty list and no earlier than any of them |
| Punches.PunchIds | ZKAttendanceWeb/Services/Attendances/AttendanceService.cs:121-124 | the distinct biometric ids, without duplicates, each present in the list and every id of the list present |
| Entities.DayStatusLabelInjective | ZKAttendanceWeb/Services/Attendances/AttendanceCalculationService.cs:85-97 | the five day-status labels are pairwise different, so the label determines the status |
| Entities.ReportStatusLabelInjective | ZKAttendanceWeb/Services/Report/ReportService.cs:82-95 | the three report-status labels are pairwise different |
| AttendanceCalculationService.GroupKeys | ZKAttendanceWeb/Services/Attendances/AttendanceCalculationService.cs:26-34 | the (biometric id, calendar day) keys of the punches, without duplicates; every key comes from a punch and every punch's key is present |
| AttendanceCalculationService.GroupLogs | ZKAttendanceWeb/Services/Attendances/AttendanceCalculationService.cs:26-34 | one group per key, holding exactly the punches of that id on that day |
| AttendanceCalculationService.GroupsPartition | ZKAttendanceWeb/Services/Attendances/AttendanceCalculationService.cs:26-41 | the groups are non-empty, hold only punches of their own id and day, cover every punch, and no two share a key |
| AttendanceCalculationService.CheckIn | ZKAttendanceWeb/Services/Attendances/AttendanceCalculationService.cs:43 | present iff the group is non-empty; then a punch of the group no later than any other |
| AttendanceCalculationService.CheckOut | ZKAttendanceWeb/Services/Attendances/AttendanceCalculationService.cs:44-46 | present iff the group has more than one punch; then a punch of the group no earlier than any other |
| AttendanceCalculationService.CheckInIsFirstEarliest | ZKAttendanceWeb/Services/Attendances/AttendanceCalculationService.cs:43 | the check-in is the first punch of the group, in the group's order, among those at the earliest time (so it decides the device and branch shown) |
| AttendanceCalculationService.CheckOutIsFirstLatest | ZKAttendanceWeb/Services/Attendances/AttendanceCalculationService.cs:44-46 | the check-out is the first punch of the group, in the group's order, among those at the latest time |
| AttendanceCalculationService.CalculateWorkingHours | ZKAttendanceWeb/Services/Attendances/AttendanceCalculationService.cs:74-81 | never negative; positive exactly when both ends exist and are at least 30 minutes apart, and then the whole span between them (so 0 otherwise) |
| AttendanceCalculationService.GetAttendanceStatus | ZKAttendanceWeb/Services/Attendances/AttendanceCalculationService.cs:83-98 | check-out only without a check-in but with a check-out; absent with neither; entry only with a check-in and no check-out or no worked time; half day under 4 hours; full day otherwise; each status on exactly its part of the inputs |
| AttendanceCalculationService.GroupStatus | ZKAttendanceWeb/Services/Attendances/AttendanceCalculationService.cs:43-52 | the status of a non-empty group depends only on its earliest and latest punches and their span (entry only, half day below 4 hours, full day otherwise) |
| AttendanceCalculationService.EndsTimes | ZKAttendanceWeb/Services/Attendances/AttendanceCalculationService.cs:43-46 | the check-in is at the earliest time of the group and, when the group has two or more punches, the check-out at its latest |
| AttendanceCalculationService.ShortSpanIsEntryOnly | ZKAttendanceWeb/Services/Attendances/AttendanceCalculationService.cs:80-92 | two punches less than 30 minutes apart give "entry only", not a half day |
| AttendanceCalculationService.BuildAttendanceViewModels | ZKAttendanceWeb/Services/Attendances/AttendanceCalculationService.cs:20-72 | the loop builds exactly one row per group whose id is a known employee, in group order |
| AttendanceCalculationService.RowsOfGroups | ZKAttendanceWeb/Services/Attendances/AttendanceCalculationService.cs:36-69 | the loop keeps, in group order, one row per group whose id is in the employee dictionary and skips the other groups |
| AttendanceCalculationService.RowsAreKnownGroups | ZKAttendanceWeb/Services/Attendances/AttendanceCalculationService.cs:38-41 | every row comes from a group of a known employee, and every such group yields its row |
| AttendanceCalculationService.RowsOnePerDay | ZKAttendanceWeb/Services/Attendances/AttendanceCalculationService.cs:26-41 | no two rows share an (id, day) key |
| AttendanceCalculationService.RowsNeverAbsent | ZKAttendanceWeb/Services/Attendances/AttendanceCalculationService.cs:38-52 | every row has a check-in no later than its check-out, non-negative hours and one of entry only, half day or full day |
| AttendanceCalculationService.GroupRow | ZKAttendanceWeb/Services/Attendances/AttendanceCalculationService.cs:43-66 | a row's check-in is the earliest punch, its check-out the latest one when there are two or more, its worked time the span between them when that is at least 30 minutes and 0 otherwise, its status that of the group |
| AttendanceCalculationService.RowNames | ZKAttendanceWeb/Services/Attendances/AttendanceCalculationService.cs:48-67 | branch and device names come from the check-in punch or "-"; the shift is the dated assignment's, else the default shift, else "-" |
| ShiftAssignmentService.AssignmentForDate | ZKAttendanceWeb/Services/Shifts/ShiftAssignmentService.cs:19-26 | an active assignment of the employee covering the date (inclusive bounds, open end allowed) with the latest start; none iff no assignment covers the date |
| ShiftAssignmentService.GetEmployeeShiftForDate | ZKAttendanceWeb/Services/Shifts/ShiftAssignmentService.cs:17-29 | when found, a stored shift referenced by an assignment covering the date |
| ShiftAssignmentService.ShiftFoundIffCovered | ZKAttendanceWeb/Services/Shifts/ShiftAssignmentService.cs:19-28 | with every assignment referencing a stored shift: a shift is found iff some assignment covers the date, and it is the chosen assignment's shift |
| ShiftAssignmentService.BoundsInclusive | ZKAttendanceWeb/Services/Shifts/ShiftAssignmentService.cs:23-24 | both ends of an active assignment's range are covered, and an open-ended one covers every later date |
| ShiftAssignmentService.CoveredDateIsAssigned | ZKAttendanceWeb/Services/Shifts/ShiftAssignmentService.cs:25-26 | a covered date always yields an assignment starting no earlier than the covering one |
| ShiftAssignmentService.NeverChoosesOthers | ZKAttendanceWeb/Services/Shifts/ShiftAssignmentService.cs:21-22 | an inactive assignment or one of another employee is never chosen |
| ReportDtos.WholeHours | ZKAttendanceWeb/DTOs/Reports/DailyAttendanceItemDto.cs:22 | `(int)TotalHours`: the whole hours of a span, truncated toward zero for negative spans too |
| ReportDtos.MinutesPart | ZKAttendanceWeb/DTOs/Reports/DailyAttendanceItemDto.cs:22 | `Minutes`: the minutes within the hour, carrying the span's sign |
| ReportDtos.FormatDurationReadsBack | ZKAttendanceWeb/DTOs/Reports/DailyAttendanceItemDto.cs:21-23 | a non-negative span prints as its whole hours, a colon and exactly two minute digits, which read back as the span's whole minutes |
| ReportDtos.FormatNegativeHalfHour | ZKAttendanceWeb/DTOs/Reports/DailyAttendanceReportSummaryDto.cs:44-46 | a negative span keeps its sign in both fields: minus half an hour prints "0:-30" |
| ReportDtos.NewItemDefaults | ZKAttendanceWeb/DTOs/Reports/DailyAttendanceItemDto.cs:13-23 | a fresh item is absent ("غائب"), without punches or hours, and prints its hours as "--" |
| ReportDtos.OrderItemsByName | ZKAttendanceWeb/Services/Attendances/AttendanceService.cs:82 | a reordering (same multiset) of the items with names ascending |
| ReportDtos.OrderPresentByName | ZKAttendanceWeb/Services/Attendances/AttendanceService.cs:198 | a reordering of the present entries with names ascending |
| ReportDtos.OrderAbsentByName | ZKAttendanceWeb/Services/Attendances/AttendanceService.cs:199 | a reordering of the absent entries with names ascending |
| ReportDtos.OrderByNameStable | ZKAttendanceWeb/Services/Attendances/AttendanceService.cs:198-199 | ordering rows, present and absent entries by name is stable: rows with the same name keep the order they came in |
| AttendanceService.DayBounds | ZKAttendanceWeb/Services/Attendances/AttendanceService.cs:111-112 | midnight of the date's day and one day later; none on 9999-12-31, where adding a day throws |
| AttendanceService.DayPunchesOfDay | ZKAttendanceWeb/Services/Attendances/AttendanceService.cs:111-118 | the day's punches are the stored punches of that calendar day (and branch, when given), each as often as it is stored (the multiset of that filter) and no other |
| AttendanceService.OrderedEnds | ZKAttendanceWeb/Services/Attendances/AttendanceService.cs:133-139 | ordering by time puts a punch no later than any other first and one no earlier than any other last; descending order starts at that latest time |
| AttendanceService.GroupEnds | ZKAttendanceWeb/Services/Attendances/AttendanceService.cs:78-79 | the first and last punches of an id's group are that id's earliest and latest punches of the day |
| AttendanceService.SummaryOf | ZKAttendanceWeb/Services/Attendances/AttendanceService.cs:104-209 | fails only where adding a day throws; otherwise dated with the given date, both lists ordered by name, counts equal to list lengths |
| AttendanceService.PresentEntryFor | ZKAttendanceWeb/Services/Attendances/AttendanceService.cs:133-171 | the loop body builds exactly the entry `PresentEntryOf` specifies |
| AttendanceService.GetDailyAttendanceReportSummary | ZKAttendanceWeb/Services/Attendances/AttendanceService.cs:104-209 | the imperative loop over punching ids and the absent filter build exactly `SummaryOf` |
| AttendanceService.PresentEntries | ZKAttendanceWeb/Services/Attendances/AttendanceService.cs:127-172 | the loop appends, in order of the present ids, one entry per id held by a listed employee and skips ids nobody holds |
| AttendanceService.SummaryEntries | ZKAttendanceWeb/Services/Attendances/AttendanceService.cs:128-186 | every present entry is an in-scope employee with its first and last punch of the day, a duration iff check-out is later, late iff check-in is after 08:00:00, never early leave; every absent entry is an in-scope employee with no punch that day and the fixed reason |
| AttendanceService.SummaryCounts | ZKAttendanceWeb/Services/Attendances/AttendanceService.cs:121-197 | with unique biometric ids: total = present + absent = the number of in-scope employees, late count = late entries, early-leave count 0, no id listed twice |
| AttendanceService.SummaryPlacesEveryone | ZKAttendanceWeb/Services/Attendances/AttendanceService.cs:121-187 | every in-scope employee is listed present iff they punched that day (and branch), and absent iff they did not |
| AttendanceService.SummarySkipsUnheldIds | ZKAttendanceWeb/Services/Attendances/AttendanceService.cs:128-131 | an id that no in-scope employee holds is listed neither present nor absent |
| AttendanceService.PunchIdsArePunches | ZKAttendanceWeb/Services/Attendances/AttendanceService.cs:121-124 | an id is among the day's punching ids iff it punched that day (and branch) |
| AttendanceService.EntryForHeldIds | ZKAttendanceWeb/Services/Attendances/AttendanceService.cs:130-131 | a present entry is made exactly for ids an in-scope employee holds, never with early leave |
| AttendanceService.SummaryFromPlaces | ZKAttendanceWeb/Services/Attendances/AttendanceService.cs:128-187 | an in-scope employee is listed present iff punched, absent iff not |
| AttendanceService.DailyItemsOf | ZKAttendanceWeb/Services/Attendances/AttendanceService.cs:58-101 | fails only where adding a day throws |
| AttendanceService.GetDailyAttendanceReport | ZKAttendanceWeb/Services/Attendances/AttendanceService.cs:58-101 | the grouping and the total-hours loop build exactly `DailyItemsOf` |
| AttendanceService.FillTotals | ZKAttendanceWeb/Services/Attendances/AttendanceService.cs:86-92 | the loop sets every item's total to last check-out minus first check-in |
| AttendanceService.WithTotalsKeeps | ZKAttendanceWeb/Services/Attendances/AttendanceService.cs:86-92 | filling the totals keeps the order, ids and names of the rows |
| AttendanceService.GroupRows | ZKAttendanceWeb/Services/Attendances/AttendanceService.cs:70-81 | one row per distinct punching id, in order of first punch, which sorted by name gives the report |
| AttendanceService.GroupedItemsCover | ZKAttendanceWeb/Services/Attendances/AttendanceService.cs:70-83 | every punching id has a row |
| AttendanceService.GroupedItemsDistinct | ZKAttendanceWeb/Services/Attendances/AttendanceService.cs:70-83 | no id has two rows |
| AttendanceService.DailyReportRows | ZKAttendanceWeb/Services/Attendances/AttendanceService.cs:58-101 | every row is "حاضر" with the id's first and last punch of the day and total = last − first, names a punching employee or "غير معروف"; a row exists iff the id punched that day; no id twice; rows ordered by name |
| ReportService.FirstTime | ZKAttendanceWeb/Services/Report/ReportService.cs:50-52 | none iff no punch; otherwise the time of a punch no later than any other |
| ReportService.LastTime | ZKAttendanceWeb/Services/Report/ReportService.cs:53-55 | none iff no punch; otherwise the time of a punch no earlier than any other |
| ReportService.GroupedAttendance | ZKAttendanceWeb/Services/Report/ReportService.cs:45-59 | a dictionary keyed by exactly the punching ids, each holding the four times of that id's punches |
| ReportService.EarliestFiltered | ZKAttendanceWeb/Services/Report/ReportService.cs:50-52 | the first typed check-in (type "CheckIn" or none) exists iff some punch has such a type, and is the earliest of them |
| ReportService.LatestFiltered | ZKAttendanceWeb/Services/Report/ReportService.cs:53-55 | the last typed check-out exists iff some punch has type "CheckOut", and is the latest of them |
| ReportService.RecordsDiffer | ZKAttendanceWeb/Services/Report/ReportService.cs:77 | the first and last record differ iff the punches are not all at one instant |
| ReportService.TimesOfEnds | ZKAttendanceWeb/Services/Report/ReportService.cs:75-77 | check-in is the earliest typed check-in, else the earliest punch; check-out is the latest typed check-out, else the latest punch unless all punches share one instant |
| ReportService.BuildItem | ZKAttendanceWeb/Services/Report/ReportService.cs:63-98 | the loop body builds exactly the row `ItemFor` specifies |
| ReportService.ItemsOf | ZKAttendanceWeb/Services/Report/ReportService.cs:61-99 | one row per listed employee |
| ReportService.ItemForFacts | ZKAttendanceWeb/Services/Report/ReportService.cs:65-96 | an employee's row carries their id, name and department (or "غير محدد"); "غائب" without punches; otherwise a check-in, and "حاضر" with hours = check-out − check-in when there is a check-out, else "لم يسجل خروج" |
| ReportService.UntypedRows | ZKAttendanceWeb/Services/Report/ReportService.cs:75-91 | when no punch is typed, a "حاضر" row has positive hours and "لم يسجل خروج" happens iff all punches share one instant |
| ReportService.StatusSplit | ZKAttendanceWeb/Services/Report/ReportService.cs:106-107 | every status is counted as present or as absent, exactly once |
| ReportService.DailyReport | ZKAttendanceWeb/Services/Report/ReportService.cs:16-111 | fails only where adding a day throws; otherwise dated with the report's day and ordered by name |
| ReportService.GetDailyAttendanceReport | ZKAttendanceWeb/Services/Report/ReportService.cs:16-111 | the employee loop builds exactly `DailyReport` |
| ReportService.DailyReportRows | ZKAttendanceWeb/Services/Report/ReportService.cs:16-111 | one row per active employee of the named department (all when none), each with that employee's punches of the day (and branch); total = present + absent = number of rows |
| ReportService.RangeReport | ZKAttendanceWeb/Services/Report/ReportService.cs:113-208 | fails only where adding a day to the last date throws; otherwise dated with the first day and ordered by name |
| ReportService.GetDailyAttendanceRangeReport | ZKAttendanceWeb/Services/Report/ReportService.cs:113-208 | the employee loop builds exactly `RangeReport` |
| ReportService.RangeItems | ZKAttendanceWeb/Services/Report/ReportService.cs:155-196 | the loop skips every employee other than the requested one and appends, in list order, the row of each remaining employee |
| ReportService.RangeReportRows | ZKAttendanceWeb/Services/Report/ReportService.cs:113-208 | one row per active employee (only the given one when an id is given), each over all that employee's punches in the whole date range, branch and device; total = present + absent = number of rows |
| ReportService.RangeWindowDays | ZKAttendanceWeb/Services/Report/ReportService.cs:115-128 | a punch is in the range window iff its calendar day lies between the two dates, both inclusive |
| ReportService.WindowGroup | ZKAttendanceWeb/Services/Report/ReportService.cs:34-46 | an id's group of the kept punches is exactly its own punches within the window |
| EmployeeRepository.OrderByName | ZKAttendanceWeb/Repostries/EmployeeRepository.cs:25 | a reordering (same multiset) of the employees with names ascending |
| EmployeeRepository.GetAll | ZKAttendanceWeb/Repostries/EmployeeRepository.cs:15-26 | exactly the stored employees (only the active ones unless inactive ones are asked for), ordered by name |
| EmployeeRepository.GetFilteredEmployees | ZKAttendanceWeb/Repostries/EmployeeRepository.cs:127-140 | exactly the active employees of the given department (all active ones when none is given), ordered by name |
| EmployeeRepository.UnfilteredIsAllActive | ZKAttendanceWeb/Repostries/EmployeeRepository.cs:127-140 | without a department the filtered list is the active list |
| EmployeeRepository.BiometricIdExists | ZKAttendanceWeb/Repostries/EmployeeRepository.cs:57-65 | true iff some employee (active or not), other than the excluded one, holds the id |
| EmployeeRepository.ExistsCheckMatchesIndex | ZKAttendanceWeb/Repostries/EmployeeRepository.cs:57-65 | the update check passes iff no other employee holds the id, which is what the unique index demands |
| EmployeeRepository.SoftDeleted | ZKAttendanceWeb/Repostries/EmployeeRepository.cs:86-95 | only the named employee changes, to inactive with the modification time; a missing id changes nothing |
| EmployeeRepository.SoftDelete | ZKAttendanceWeb/Repostries/EmployeeRepository.cs:86-95 | the table becomes `SoftDeleted` of the old table and stays valid |
| EmployeeRepository.SoftDeleteKeepsIdsTaken | ZKAttendanceWeb/Repostries/EmployeeRepository.cs:86-95 | a soft-deleted employee still holds their biometric id |
| EmployeeRepository.GetActiveEmployeeCount | ZKAttendanceWeb/Repostries/EmployeeRepository.cs:106-109 | a count between 0 and the number of employees |
| EmployeeRepository.ActiveCountIsListed | ZKAttendanceWeb/Repostries/EmployeeRepository.cs:106-109 | the active count is the length of the active list |
| EmployeeRepository.SoftDeleteCount | ZKAttendanceWeb/Repostries/EmployeeRepository.cs:86-109 | soft deletion lowers the active count by one iff the employee existed and was active |
| EmployeeRepository.GetEmployeesDictionary | ZKAttendanceWeb/Repostries/EmployeeRepository.cs:97-104 | keyed only by asked ids, each mapping to a stored employee holding it; every asked id that an employee holds is present |
| EmployeeRepository.DictionaryHoldsTheEmployee | ZKAttendanceWeb/Repostries/EmployeeRepository.cs:97-104 | with unique biometric ids the dictionary maps an id to the one employee holding it |
| EmployeeService.LogIds | ZKAttendanceWeb/Services/Employees/EmployeeService.cs:91-94 | the distinct ids of the punches: no duplicates, exactly the ids some punch carries |
| EmployeeService.NumericIds | ZKAttendanceWeb/Services/Employees/EmployeeService.cs:84-86 | the values of exactly the ids that `int.TryParse` accepts, in order |
| EmployeeService.NumericIdsComplete | ZKAttendanceWeb/Services/Employees/EmployeeService.cs:85-86 | every parsable id contributes its value |
| EmployeeService.NumericIdsSound | ZKAttendanceWeb/Services/Employees/EmployeeService.cs:85-86 | every value is a 32-bit integer some id parses to |
| EmployeeService.MaxOrZero | ZKAttendanceWeb/Services/Employees/EmployeeService.cs:87-88 | 0 for no values, otherwise the largest value |
| EmployeeService.Increment32 | ZKAttendanceWeb/Services/Employees/EmployeeService.cs:105 | the unchecked 32-bit increment: i + 1, wrapping int.MaxValue to int.MinValue |
| EmployeeService.MaxKnownIdBounds | ZKAttendanceWeb/Services/Employees/EmployeeService.cs:83-103 | every parsable employee or punch id is at most the maximum |
| EmployeeService.MaxKnownIdAttained | ZKAttendanceWeb/Services/Employees/EmployeeService.cs:83-103 | a non-zero maximum is the value of some employee or punch id |
| EmployeeService.NextIdAmong | ZKAttendanceWeb/Services/Employees/EmployeeService.cs:103-105 | the decimal text of the next number, which parses back to it |
| EmployeeService.NextIdExceedsKnown | ZKAttendanceWeb/Services/Employees/EmployeeService.cs:83-105 | below int.MaxValue, the proposal differs from every considered employee id and every punch id |
| EmployeeService.GetNextBiometricUserIdAsWritten | ZKAttendanceWeb/Services/Employees/EmployeeService.cs:77-106 | a parsable id computed over the ACTIVE employees and the punches |
| EmployeeService.NextIdProposesDeletedId | ZKAttendanceWeb/Services/Employees/EmployeeService.cs:82 | active "1", soft-deleted "2", no punches: the proposal is "2", which creation refuses |
| EmployeeService.GetNextBiometricUserId | ZKAttendanceWeb/Services/Employees/EmployeeService.cs:77-106 | the same computation over every employee |
| EmployeeService.NextIdIsFree | ZKAttendanceWeb/Services/Employees/EmployeeService.cs:77-106 | below int.MaxValue, the corrected proposal passes creation's check and is on no punch |
| EmployeeService.NextIdWrapsAtMaxInt | ZKAttendanceWeb/Services/Employees/EmployeeService.cs:105 | when the maximum is int.MaxValue the proposal wraps to int.MinValue |
| EmployeeService.UnregisteredAmong | ZKAttendanceWeb/Services/Employees/EmployeeService.cs:133-136 | no id twice, ordered by numeric value with unparsable ids last |
| EmployeeService.UnregisteredMembers | ZKAttendanceWeb/Services/Employees/EmployeeService.cs:127-136 | an id is listed iff some punch carries it and no considered employee holds it |
| EmployeeService.GetUnregisteredBiometricIdsAsWritten | ZKAttendanceWeb/Services/Employees/EmployeeService.cs:116-145 | the unregistered list with only ACTIVE employees counted as registered |
| EmployeeService.UnregisteredListsDeletedId | ZKAttendanceWeb/Services/Employees/EmployeeService.cs:121 | a soft-deleted "2" with a punch is offered for registration, which creation refuses |
| EmployeeService.GetUnregisteredBiometricIds | ZKAttendanceWeb/Services/Employees/EmployeeService.cs:116-145 | the same list with every employee counted as registered |
| EmployeeService.UnregisteredAreFree | ZKAttendanceWeb/Services/Employees/EmployeeService.cs:116-145 | the corrected list holds exactly the punched ids that creation accepts |
| EmployeeService.KnownNumericIds | ZKAttendanceWeb/Services/Employees/EmployeeService.cs:278-279 | the union of the numeric ids: no duplicates, all 32-bit |
| EmployeeService.KnownNumericIdsMembers | ZKAttendanceWeb/Services/Employees/EmployeeService.cs:278-279 | a value is in the union iff it is a numeric employee id or a numeric punch id |
| EmployeeService.DescendingIds | ZKAttendanceWeb/Services/Employees/EmployeeService.cs:280 | the union, strictly descending |
| EmployeeService.LastIdValues | ZKAttendanceWeb/Services/Employees/EmployeeService.cs:278-281 | min(count, size of the union) values (none for count ≤ 0), strictly descending |
| EmployeeService.LastIdsAreTheLargest | ZKAttendanceWeb/Services/Employees/EmployeeService.cs:278-281 | a value of the union left out is smaller than every value kept |
| EmployeeService.LastIdsAreKnown | ZKAttendanceWeb/Services/Employees/EmployeeService.cs:278-281 | every value kept is in the union |
| EmployeeService.GetLastBiometricUserIds | ZKAttendanceWeb/Services/Employees/EmployeeService.cs:255-286 | the decimal texts of those values over the active employees and the punches, in that order, no duplicates |
| EmployeeService.CreateEmployee | ZKAttendanceWeb/Services/Employees/EmployeeService.cs:147-171 | rejects an id any employee holds with the "already exists" message; otherwise appends the employee as active with the creation time and the next key (when its references resolve); the table stays valid; a failure changes nothing |
| EmployeeService.UpdateEmployee | ZKAttendanceWeb/Services/Employees/EmployeeService.cs:173-200 | rejects a missing employee, then an id another employee holds; otherwise replaces the row, stamped with the modification time; the table stays valid; a failure changes nothing |
| WorkShiftRepository.GetAll | ZKAttendanceWeb/Repostries/WorkShiftRepository.cs:15-23 | exactly the stored shifts (only active ones unless inactive ones are asked for), ordered by start time |
| WorkShiftRepository.NameExists | ZKAttendanceWeb/Repostries/WorkShiftRepository.cs:38-46 | true iff some shift other than the excluded one has the name |
| WorkShiftRepository.NameCheckKeepsNamesUnique | ZKAttendanceWeb/Repostries/WorkShiftRepository.cs:38-46 | when the check excluding the shift's own id passes, writing the shift over its row keeps names distinct |
| WorkShiftRepository.SoftDeleted | ZKAttendanceWeb/Repostries/WorkShiftRepository.cs:67-76 | only the named shift changes, to inactive with the modification time; a missing id changes nothing |
| WorkShiftRepository.SoftDelete | ZKAttendanceWeb/Repostries/WorkShiftRepository.cs:67-76 | the table becomes `SoftDeleted` of the old table and stays valid |
| WorkShiftRepository.SoftDeleteKeepsNames | ZKAttendanceWeb/Repostries/WorkShiftRepository.cs:67-76 | a soft-deleted shift still holds its name for the name check |
| WorkShiftRepository.GetEmployeeCount | ZKAttendanceWeb/Repostries/WorkShiftRepository.cs:78-82 | a count between 0 and the number of employees |
| WorkShiftRepository.EmployeeCountZero | ZKAttendanceWeb/Repostries/WorkShiftRepository.cs:78-82 | the count is zero iff no active employee has the shift as default |
| WorkShiftRepository.GetActiveShiftsForTime | ZKAttendanceWeb/Repostries/WorkShiftRepository.cs:84-90 | every shift occurs as often as it is stored when it is active with start ≤ t ≤ end (both inclusive), and not at all otherwise |
| WorkShiftRepository.OvernightNeverRuns | ZKAttendanceWeb/Repostries/WorkShiftRepository.cs:88 | a shift whose end is before its start is never returned |
| WorkShiftService.ValidateShiftTimes | ZKAttendanceWeb/Services/WorkShifts/WorkShiftService.cs:165-192 | no error iff the times are valid; the checks follow the source's order (window start after start, window end before end, negative break, negative late or early minutes) |
| WorkShiftService.WindowBoundsInclusive | ZKAttendanceWeb/Services/WorkShifts/WorkShiftService.cs:168-175 | windows that start exactly at the start and end exactly at the end pass |
| WorkShiftService.NameExistsIsHasKey | ZKAttendanceWeb/Repostries/WorkShiftRepository.cs:38-46 | the name check without exclusion answers whether the name is already a key |
| WorkShiftService.CreateShift | ZKAttendanceWeb/Services/WorkShifts/WorkShiftService.cs:49-78 | rejects a taken name with its message, then invalid times with the first failing message; otherwise appends the shift as active with the creation time and the next key; a failure changes nothing; distinct names stay distinct |
| WorkShiftService.UpdateShift | ZKAttendanceWeb/Services/WorkShifts/WorkShiftService.cs:80-112 | rejects a missing shift, then a name another shift has, then invalid times; otherwise replaces the row stamped with the modification time; a failure changes nothing; distinct names stay distinct |
| WorkShiftService.CanDeleteShift | ZKAttendanceWeb/Services/WorkShifts/WorkShiftService.cs:138-150 | true iff no active employee has the shift as default |
| WorkShiftService.DeleteShift | ZKAttendanceWeb/Services/WorkShifts/WorkShiftService.cs:114-136 | succeeds iff the shift can be deleted, and then soft-deletes it; otherwise fails with the in-use count in the message and changes nothing |
| DepartmentRepository.OrderByName | ZKAttendanceWeb/Repostries/DepartmentRepository.cs:24 | a reordering (same multiset) of the departments with names ascending |
| DepartmentRepository.GetAll | ZKAttendanceWeb/Repostries/DepartmentRepository.cs:15-25 | the stored departments (only active ones unless inactive ones are asked for), each as often as it is stored (the multiset of that filter) and no other, ordered by name |
| DepartmentRepository.GetTopLevelDepartments | ZKAttendanceWeb/Repostries/DepartmentRepository.cs:42-48 | the active departments without a parent, each as often as it is stored (the multiset of that filter) and no other, ordered by name |
| DepartmentRepository.GetSubDepartments | ZKAttendanceWeb/Repostries/DepartmentRepository.cs:50-56 | the active departments whose parent is the given one, each as often as it is stored (the multiset of that filter) and no other, ordered by name |
| DepartmentRepository.HierarchyPartitionsActive | ZKAttendanceWeb/Repostries/DepartmentRepository.cs:42-56 | an active department is top-level iff it has no parent, and otherwise a sub-department of exactly its parent |
| DepartmentRepository.CodeExists | ZKAttendanceWeb/Repostries/DepartmentRepository.cs:58-66 | true iff some department other than the excluded one has the code |
| DepartmentRepository.SoftDeleted | ZKAttendanceWeb/Repostries/DepartmentRepository.cs:87-96 | only the named department changes, to inactive with the modification time; a missing id changes nothing |
| DepartmentRepository.SoftDelete | ZKAttendanceWeb/Repostries/DepartmentRepository.cs:87-96 | the table becomes `SoftDeleted` of the old table and stays valid |
| DepartmentRepository.SoftDeletedLeavesHierarchy | ZKAttendanceWeb/Repostries/DepartmentRepository.cs:42-96 | a soft-deleted department is listed neither as top-level nor as anyone's sub-department |
| DepartmentRepository.GetEmployeeCount | ZKAttendanceWeb/Repostries/DepartmentRepository.cs:98-102 | a count between 0 and the number of employees |
| DepartmentRepository.EmployeeCountZero | ZKAttendanceWeb/Repostries/DepartmentRepository.cs:98-102 | the count is zero iff no active employee is in the department |
| DepartmentService.CodesUniqueAppend | ZKAttendanceWeb/Services/Departments/DepartmentService.cs:80-92 | when the code check passes, appending the department keeps non-empty codes distinct |
| DepartmentService.CodesUniqueReplace | ZKAttendanceWeb/Services/Departments/DepartmentService.cs:116-132 | when the code check excluding the department's own id passes, replacing its row keeps non-empty codes distinct |
| DepartmentService.CreateDepartment | ZKAttendanceWeb/Services/Departments/DepartmentService.cs:75-104 | rejects a non-empty code already taken with its message; otherwise appends the department as active with the creation time and the next key (when the name index allows it); a failure changes nothing; distinct codes stay distinct |
| DepartmentService.UpdateDepartment | ZKAttendanceWeb/Services/Departments/DepartmentService.cs:106-144 | rejects a missing department, then a taken code, then a department made its own parent; otherwise replaces the row stamped with the modification time; a failure changes nothing; distinct codes stay distinct |
| DepartmentService.CanDeleteDepartment | ZKAttendanceWeb/Services/Departments/DepartmentService.cs:178-186 | true iff no active employee is in the department and no active department has it as parent |
| DepartmentService.DeleteDepartment | ZKAttendanceWeb/Services/Departments/DepartmentService.cs:146-176 | succeeds iff the department can be deleted, and then soft-deletes it; otherwise fails with the employee count, or else the sub-department count, and changes nothing |
| BranchRepository.OrderByCode | ZKAttendanceWeb/Repostries/BranchRepository.cs:25 | a reordering (same multiset) of the branches with codes ascending |
| BranchRepository.GetAll | ZKAttendanceWeb/Repostries/BranchRepository.cs:16-26 | the stored branches (only active ones unless inactive ones are asked for), each as often as it is stored (the multiset of that filter) and no other, ordered by code |
| BranchRepository.WithActiveDevices | ZKAttendanceWeb/Repostries/BranchRepository.cs:32 | the branch carrying its active devices, each as often as it is stored (the multiset of that filter) and no other device |
| BranchRepository.GetAllWithDevices | ZKAttendanceWeb/Repostries/BranchRepository.cs:29-36 | one entry per branch of the active listing, position by position (so the active branches, each as often as stored, ordered by code), each carrying its active devices with their multiplicity |
| BranchRepository.GetByCode | ZKAttendanceWeb/Repostries/BranchRepository.cs:45-50 | found iff some branch has the code; then a branch with that code carrying its active devices |
| BranchRepository.GetByCodeFindsHolder | ZKAttendanceWeb/Repostries/BranchRepository.cs:45-50 | with unique codes the lookup returns the branch holding the code |
| BranchRepository.CodeExists | ZKAttendanceWeb/Repostries/BranchRepository.cs:57-65 | true iff some branch other than the excluded one has the code |
| BranchRepository.CodeCheckMatchesIndex | ZKAttendanceWeb/Repostries/BranchRepository.cs:57-65 | the check excluding the branch's own id passes iff the unique code index accepts the row |
| BranchRepository.Delete | ZKAttendanceWeb/Repostries/BranchRepository.cs:81-89 | a missing branch changes nothing; otherwise the row is removed iff no device, device status, punch, sync log, device error or employee branch membership refers to it (the restrict rule), and the id is then gone |
| BranchRepository.SoftDeleted | ZKAttendanceWeb/Repostries/BranchRepository.cs:91-100 | only the named branch changes, to inactive with the modification time; a missing id changes nothing |
| BranchRepository.SoftDelete | ZKAttendanceWeb/Repostries/BranchRepository.cs:91-100 | the table becomes `SoftDeleted` of the old table and stays valid |
| BranchRepository.SoftDeleteKeepsRow | ZKAttendanceWeb/Repostries/BranchRepository.cs:91-100 | a soft-deleted branch keeps its row but leaves the active list |
| BranchService.CreateBranch | ZKAttendanceWeb/Services/Branches/BranchService.cs:82-105 | succeeds iff no branch has the code; then appends it as active with the creation time and the next key; otherwise fails with the "code exists" message and changes nothing |
| BranchService.UpdateBranch | ZKAttendanceWeb/Services/Branches/BranchService.cs:107-133 | rejects a missing branch, then a code another branch has; otherwise replaces the row stamped with the modification time; a failure changes nothing |
| BranchService.DeleteBranch | ZKAttendanceWeb/Services/Branches/BranchService.cs:135-148 | a soft delete: the branch count is unchanged and only the named branch becomes inactive |
| DeviceRepository.OrderByName | ZKAttendanceWeb/Repostries/DeviceRepository.cs:24 | a reordering (same multiset) of the devices with names ascending |
| DeviceRepository.GetAll | ZKAttendanceWeb/Repostries/DeviceRepository.cs:15-25 | the stored devices (only active ones unless inactive ones are asked for), each as often as it is stored (the multiset of that filter) and no other, ordered by name |
| DeviceRepository.GetByBranchId | ZKAttendanceWeb/Repostries/DeviceRepository.cs:34-40 | the active devices of the branch, each as often as it is stored (the multiset of that filter) and no other, ordered by name |
| DeviceRepository.IpPortExists | ZKAttendanceWeb/Repostries/DeviceRepository.cs:48-56 | true iff some device other than the excluded one has the same IP and port |
| DeviceRepository.EndpointCheckMatchesIndex | ZKAttendanceWeb/Repostries/DeviceRepository.cs:48-56 | the check excluding the device's own id passes iff no other device has the same (IP, port) key |
| DeviceRepository.SoftDeleted | ZKAttendanceWeb/Repostries/DeviceRepository.cs:77-86 | only the named device changes, to inactive with the modification time; a missing id changes nothing |
| DeviceRepository.SoftDelete | ZKAttendanceWeb/Repostries/DeviceRepository.cs:77-86 | the table becomes `SoftDeleted` of the old table and stays valid |
| DeviceRepository.GetOnlineDevices | ZKAttendanceWeb/Repostries/DeviceRepository.cs:88-94 | every device occurs as often as it is stored when it is active and marked online, and not at all otherwise |
| DeviceRepository.GetOfflineDevices | ZKAttendanceWeb/Repostries/DeviceRepository.cs:96-102 | every device occurs as often as it is stored when it is active and marked offline, and not at all otherwise |
| DeviceRepository.OnlineOfflinePartition | ZKAttendanceWeb/Repostries/DeviceRepository.cs:88-102 | the online and offline lists split the active devices: their lengths add up and no device is in both |
| DeviceRepository.ConnectionUpdated | ZKAttendanceWeb/Repostries/DeviceRepository.cs:104-118 | only the named device changes: its online flag, check time and message, and its connection time only when it goes online; a missing id changes nothing |
| DeviceRepository.UpdateConnectionStatus | ZKAttendanceWeb/Repostries/DeviceRepository.cs:104-118 | the table becomes `ConnectionUpdated` of the old table and stays valid |
| DeviceRepository.MarkedOnlineIsListedOnline | ZKAttendanceWeb/Repostries/DeviceRepository.cs:88-118 | an active device marked online is listed online and not offline |
| DeviceService.InitialStatus | ZKAttendanceWeb/Services/Devices/DeviceService.cs:84-95 | the first status row of a device is offline, for that device and its branch |
| DeviceService.CreateDevice | ZKAttendanceWeb/Services/Devices/DeviceService.cs:66-111 | rejects a taken IP and port with its message; otherwise, when its branch exists, appends the device (active, creation time, next key) and its offline status row together, or neither; a failure changes nothing |
| DeviceService.UpdateDevice | ZKAttendanceWeb/Services/Devices/DeviceService.cs:113-142 | rejects a missing device, then an IP and port another device has; otherwise, when its branch exists, replaces the row stamped with the modification time; a failure changes nothing |
| DeviceService.DeleteDevice | ZKAttendanceWeb/Services/Devices/DeviceService.cs:144-157 | a soft delete of the device |
| DeviceService.TestDeviceConnection | ZKAttendanceWeb/Services/Devices/DeviceService.cs:159-188 | succeeds iff the device exists, with the matching message, and marks it online with the test message |
| AttendanceController.QuickFilterOf | ZKAttendanceWeb/Controllers/AttendanceController.cs:174-228 | a missing, empty or unknown key leaves both dates as given; a recognised key that succeeds sets both dates, with from ≤ to; none where a .NET date step would throw |
| AttendanceController.QuickRangeOrdered | ZKAttendanceWeb/Controllers/AttendanceController.cs:181-227 | every recognised range starts no later than it ends, and exactly the eight keys are recognised |
| AttendanceController.ApplyQuickFilter | ZKAttendanceWeb/Controllers/AttendanceController.cs:174-228 | with no or an empty quick filter the dates stay as given; otherwise the lower-cased key is switched on, and the result is exactly `QuickFilterOf` (a known key replaces both dates by an ordered range, an unknown key keeps them, a range outside the calendar throws) |
| AttendanceController.SelectQuickRange | ZKAttendanceWeb/Controllers/AttendanceController.cs:181-227 | the switch gives the range of a known key, never with from after to, and leaves the dates unchanged exactly when the key is not one of the quick keys |
| AttendanceController.QuickFilterCaseInsensitive | ZKAttendanceWeb/Controllers/AttendanceController.cs:181 | keys that agree after lower-casing select the same range |
| AttendanceController.QuickKeyOverrides | ZKAttendanceWeb/Controllers/AttendanceController.cs:181-227 | a recognised key ignores the dates the request carried |
| AttendanceController.WeekStart | ZKAttendanceWeb/Controllers/AttendanceController.cs:194 | stepping back by the weekday number lands on a Sunday, and the days after it count up from 0 |
| AttendanceController.ThisWeekRange | ZKAttendanceWeb/Controllers/AttendanceController.cs:193-197 | from the latest Sunday on or before today up to today; fails only before the first Sunday of year 1 |
| AttendanceController.LastWeekRange | ZKAttendanceWeb/Controllers/AttendanceController.cs:199-204 | the seven days Sunday to Saturday that end the day before this week's Sunday; fails only in the first two weeks of year 1 |
| AttendanceController.ThisMonthRange | ZKAttendanceWeb/Controllers/AttendanceController.cs:206-209 | from the first of today's month up to today |
| AttendanceController.LastMonthRange | ZKAttendanceWeb/Controllers/AttendanceController.cs:211-216 | the whole previous month (December of the previous year in January), ending the day before the first of this month; fails only in January of year 1 |
| AttendanceController.MonthBefore | ZKAttendanceWeb/Controllers/AttendanceController.cs:212-215 | the last day of the previous month is the day before the first of this month |
| AttendanceController.DaysBackRanges | ZKAttendanceWeb/Controllers/AttendanceController.cs:183-191 | "today" is today alone, "yesterday" the day before; "last7days" and "last30days" span from 7 or 30 days back up to today, both ends included |
| AttendanceController.ApplyAdditionalFilters | ZKAttendanceWeb/Controllers/AttendanceController.cs:233-257 | a row is kept iff it is in the list and matches the status when one is given and the minimum and maximum hours when given; order is kept |
| AttendanceController.ByDateThenIdIsPreorder | ZKAttendanceWeb/Controllers/AttendanceController.cs:92-94 | day descending, then id ascending, is a total preorder |
| AttendanceController.OrderedRows | ZKAttendanceWeb/Controllers/AttendanceController.cs:92-95 | a reordering (same multiset) with days descending and, within a day, ids ascending |
| AttendanceController.PageSlice | ZKAttendanceWeb/Controllers/AttendanceController.cs:97-100 | a page holds at most 50 rows; it is the slice of 50 from the offset `(pageNumber - 1) * 50` computed in unchecked 32-bit arithmetic; an offset at or past the end gives an empty page, and a negative offset (including a wrapped one) skips nothing and gives the first 50 rows |
| AttendanceController.PageOffsetWrap | ZKAttendanceWeb/Controllers/AttendanceController.cs:98 | the offset is the plain `(pageNumber - 1) * 50` for page numbers from -42949671 to 42949673; page 42949674 wraps to -2147483646 (so it shows the first page) and page -42949672 wraps to 2147483646 (so it shows nothing) |
| AttendanceController.LowPagesShowFirst | ZKAttendanceWeb/Controllers/AttendanceController.cs:97-100 | page 1, and every page number below it down to -42949671, shows the first 50 rows |
| AttendanceController.TotalPages | ZKAttendanceWeb/Controllers/AttendanceController.cs:154 | the fewest pages of 50 that hold the count |
| AttendanceController.RowOnItsPage | ZKAttendanceWeb/Controllers/AttendanceController.cs:97-100 | every row of a list (a .NET list holds at most int.MaxValue rows) is on a page between 1 and the page count, at its position modulo 50 |
| AttendanceController.DisjointCounts | ZKAttendanceWeb/Controllers/AttendanceController.cs:145-146 | two exclusive conditions together count at most every row once |
| AttendanceController.TotalsBounds | ZKAttendanceWeb/Controllers/AttendanceController.cs:142-146 | check-ins, check-outs and full + partial days are each at most the record count; full and partial days count the rows with those statuses |
| AttendanceController.CheckOutsWithinCheckIns | ZKAttendanceWeb/Controllers/AttendanceController.cs:143-144 | when every check-out row has a check-in, check-outs never outnumber check-ins |
| AttendanceController.ReconciledTotals | ZKAttendanceWeb/Controllers/AttendanceController.cs:142-144 | over reconciled rows (all with a check-in) check-ins equal records and check-outs are at most check-ins |
| AttendanceController.Index | ZKAttendanceWeb/Controllers/AttendanceController.cs:43-107 | the action (quick filter, query, reconciliation, extra filters, ordering, paging, totals) yields exactly `IndexOf` |
| AttendanceController.NoFiltersShowsNothing | ZKAttendanceWeb/Controllers/AttendanceController.cs:58-72 | without a single filter the page is empty and every total is zero, whatever the table holds |
| AttendanceController.RowsComeFromPunches | ZKAttendanceWeb/Controllers/AttendanceController.cs:86-87 | every reconciled row stands for an id and day some punch has |
| AttendanceController.QueriedRow | ZKAttendanceWeb/Services/Attendances/AttendanceQueryService.cs:25-32 | a row built from the queried punches has an id containing the search text and a day within the range |
| AttendanceController.FullListRows | ZKAttendanceWeb/Controllers/AttendanceController.cs:74-90 | every row before paging matches the extra filters, has a check-in, an id containing the search text and a day within the range |
| AttendanceController.PageMembers | ZKAttendanceWeb/Controllers/AttendanceController.cs:92-100 | every row of the page is a row of the list before paging |
| AttendanceController.PageOrdered | ZKAttendanceWeb/Controllers/AttendanceController.cs:92-100 | the page keeps the day-descending, id-ascending order |
| AttendanceController.IndexPage | ZKAttendanceWeb/Controllers/AttendanceController.cs:43-107 | with filters: the page holds at most 50 rows, all from the filtered list, and is the slice of 50 at the wrapped offset (the first 50 rows when it is negative, none when it is past the end); records = check-ins = the list's length, check-outs ≤ check-ins, and the page count is the fewest pages of 50 |
| AttendanceController.IndexPageRows | ZKAttendanceWeb/Controllers/AttendanceController.cs:43-107 | with filters: every row of the page matches status, hours, search and date range, and the page is ordered by day descending, then id |

## Left out

- Database access is synchronous here: `async`/`await`, `SaveChangesAsync` and EF change tracking are modelled as one update of `Database.Context` per call.
- `SyncLogs`, `DeviceErrors` and `EmployeeBranches` are kept only as their keys and branch references, because they refuse the removal of a branch; their other columns, their indexes and their references to devices and employees are not modelled, because the model never hard-deletes a device or an employee and no modelled service writes those tables.
- Logging and the PDF and Excel export services are not modelled: they do not change what is stored or computed.
- The in-memory caches and their `Clear*Cache` calls are not modelled: every query here reads the tables, so the stale results a cache serves are not captured. For example, `GetAllBranchesWithDevicesAsync` serves the five-minute "branches_with_devices" entry, which `ClearDeviceCache` does not remove, so a device change can be missing from that list for up to five minutes.
- The device SDK (connecting to a ZKTeco device, reading its users and logs) is not modelled; `TestDeviceConnection` keeps only its bookkeeping, not the path where the device call throws.
- `DateTime.Now` and `DateTime.Today` are parameters of the operations that read them; one `now` is used for a whole call where the source reads the clock per row.
- `AverageWorkHours` and `AttendanceRate` are `double` averages and are not modelled; working hours are exact seconds, so a working time of zero means a span under 30 minutes.
- Dates from the query string are whole days; a time of day sent with them is not modelled.
- String equality, ordering and `Contains` are ordinal; a database collation that ignores case is not modelled, and `ToLower` covers ASCII letters only.
- `AttendanceController.Index` receives the employee, branch and device lookups as a parameter instead of querying them from the ids found in the page of logs; the `ViewBag` echo fields and the drop-down lookup services are not modelled.
- The plain daily report (`GetDailyAttendanceReportAsync`) assumes that the `Employee` and `Department` navigations of a punch are loaded, and resolves them by key. As written, `GetByDateRangeAsync` includes only `Device` and `Branch`, so in a fresh context where those employees are not already tracked the source reports employee id 0, the name "غير معروف" and the department "-" on every row; that outcome is not modelled.
- `departmentId` is accepted and unused by `GetDailyAttendanceReportAsync`, as in the source.
- `AttendanceService.GetAllAttendanceLogsAsync` and `GetAttendanceLogsByDateRangeAsync` are thin `AddMonths` wrappers around the repository queries and are not modelled.
- The plain lookups (`GetByIdAsync`, `GetByBiometricIdAsync`, `ExistsAsync`, `GetAllWithDepartmentsAsync`, `GetByDepartmentIdAsync`) are not modelled apart from the table functions they read.
- The identity key of a new row is the largest key plus one; a database that never reuses a deleted key is not modelled.
- `GetEmployeesDictionary`: the exception `ToDictionary` throws on a duplicate key is not modelled; the unique index on the biometric id rules it out.
- The attendance query context is modelled only as the predicates that say which logs a query returns.
- The "last7days" quick filter spans eight calendar days (today and the seven before), as written.
- `GetDailyAttendanceReportAsync` takes the employee of a group from its first punch, as in the source.

## Findings

| source | as written | input that shows it | evidently intended | confidence | as-written member | corrected member |
|---|---|---|---|---|---|---|
| ZKAttendanceWeb/Services/Employees/EmployeeService.cs:77-106 | the next biometric id is computed from the active employees only (`GetAllAsync`), while creation refuses an id held by any employee | active employee "1", soft-deleted employee "2", no punches: the proposal is "2", and creating an employee with it is refused | propose an id that no employee, active or deleted, holds | not executed | EmployeeService.GetNextBiometricUserIdAsWritten | EmployeeService.GetNextBiometricUserId |
| ZKAttendanceWeb/Services/Employees/EmployeeService.cs:116-145 | the unregistered ids are the punch ids with no active employee, although a soft-deleted employee still holds the id | soft-deleted employee "2" with a punch: "2" is listed as unregistered, and creating an employee with it is refused | list only the punch ids that no employee holds | not executed | EmployeeService.GetUnregisteredBiometricIdsAsWritten | EmployeeService.GetUnregisteredBiometricIds |
