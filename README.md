# Sales dashboard data preparation, verified in Dafny

The dashboard reads one CSV file of order lines and draws twelve charts
(`C1.js` … `C12.js`). Each chart starts with a short data-shaping prelude:
d3 rollups over the order lines, a `.map` to the chart's rows, a sort, and in
several charts loops that write into the records, fill a dictionary or push
rows. This project models those preludes and proves what each chart's data
means. The drawing code is not modelled.

- `collections.dfy` (`Collections`): d3's group-by as an ordered group-by:
  - `Keys`: the distinct keys in order of first occurrence;
  - `Group`: the records of one key;
  - `Rollups`: one row per key, holding the reducer's result.
  It also holds sums, `new Set(...).size` as a set cardinality, JS division,
  `Array.prototype.filter`, filling an object from entries (`FillObject`),
  and the `chartIndex` loop that keeps the first five charts (`FirstCharts`).
- `sorting.dfy` (`Sorting`): `Array.prototype.sort` as a stable insertion
  sort under `less(a, b)`, which holds when the comparator returns a negative
  value. It also has an in-place array version.
- `text.dfy` (`Text`): decimal strings, `padStart(2, '0')`, JS `trim()`, and
  d3's string order.
- `calendar.dfy` (`Calendar`): the calendar fields behind `%m`, `%d`, `%u`,
  `%V`, `%H:00-%H:59` and `%Y-%m-%d`, including ISO week numbering.
- `records.dfy` (`Records`): one order line with parsed columns, and the
  fields the charts write into a record.
- `chart1.dfy` … `chart12.dfy` (`Chart1` … `Chart12`): one module per chart
  prelude.

Parts of the source that change state are modelled as Dafny methods. Each
method is proved equal to a pure specification function:
- the `forEach` loops that rewrite records in place (`C5`, `C6`, `C8`, `C9`);
- the dictionary fills and nested `push` loops (`C8`, `C9`);
- the in-place `items.sort` (`C10`);
- the `chartIndex` loops (`C9`, `C10`);
- the bucket `push` (`C12`).

The properties are then proved about those functions.

## Model

| member | source | states |
|---|---|---|
| Collections.Keys | C1.js:2-8 | The rollup's keys: no key twice, and a key is present exactly when some record has it. |
| Collections.KeysPrefix | C1.js:2-8 | The keys of a prefix of the records are a prefix of the keys, so keys appear in order of first occurrence. |
| Collections.Group | C7.js:4-8 | A group holds only records of its key, and every record of that key. |
| Collections.Rollups | C7.js:4-8 | One row per distinct key, in order of first occurrence, holding the reduction of exactly that key's records. |
| Collections.RollupsRows | C7.js:4-8 | Rollup rows have distinct keys and non-empty groups, and every record's key has a row. |
| Collections.RowOfKey | C10.js:10-27 | A key that has records has its row, holding the reduction of its group. |
| Collections.GroupTotalsPartition | C3.js:3-9 | The groups partition the records, so the group sums add up to the sum over all records. |
| Collections.RowsMatchGroupTotals | C3.js:7-10 | Rows whose values are the group sums add up to the sum of those groups. |
| Collections.SumOfPermutation | C3.js:10 | Reordering rows does not change their sum. |
| Collections.KeysCount | C7.js:4-8 | There are as many rollup keys as distinct key values. |
| Collections.ImageCardBound | C7.js:2 | A Set of values taken from a list is no larger than the list. |
| Collections.ImageOfSubset | C7.js:6 | A part of the records has no more distinct order ids than the whole. |
| Collections.PermutationKeepsDistinctKeys | C1.js:17 | Sorting keeps row keys distinct. |
| Collections.Filter | C6.js:20 | `filter` returns no more elements than it is given; every kept element passes the test and comes from the input, and every input element that passes is kept. |
| Collections.FilterCounts | C6.js:20 | Each element that passes is kept as many times as it occurs, and no other element is kept. |
| Collections.FilterAppend | C6.js:20 | `filter` keeps the input's order: the filter of a concatenation is the concatenation of the filters. |
| Collections.FilterAllOrNone | C12.js:29 | When every element passes, the filter returns the whole input; when none passes, it returns nothing. |
| Collections.FilterKeepsDistinctKeys | C6.js:20 | Filtering keeps row keys distinct. |
| Collections.IndexOf | C5.js:20 | `indexOf` is -1 exactly when the element is absent; otherwise it is the first position holding it. |
| Collections.AverageSign | C6.js:19-20 | Over a positive count, `total / count > 0` exactly when `total > 0`. |
| Collections.RatioBounds | C7.js:12 | A count over a larger or equal positive count lies in (0, 1]. |
| Collections.RatioOne | C7.js:12 | The ratio is 1 exactly when the two counts are equal. |
| Collections.Lookup | C8.js:44 | `obj[key]` yields a value exactly when the key was set, and then the stored value. |
| Collections.Divide | C8.js:47 | A count over a looked-up total is finite exactly when the total is present and non-zero, and it is then the exact quotient. |
| Collections.FillObject | C8.js:36-39 | The loop `obj[k] = v` over the entries leaves the object that maps each key to its last entry. |
| Collections.AssocValue | C8.js:36-39 | A key whose entries all hold the same value maps to that value in the filled object. |
| Collections.LookupAssoc | C8.js:44 | Reading such a key back from the filled object gives that value. |
| Collections.FirstCharts | C10.js:29-31 | The `chartIndex` loop draws exactly the first min(n, 5) groups, in map order. |
| Collections.DistinctCodesBound | C8.js:67 | Distinct values drawn from 1..n number at most n. |
| Sorting.SortByPermutes | C1.js:17 | `sort` returns a permutation of its input. |
| Sorting.SortBySorted | C1.js:17 | Under a comparator that is a strict weak order, no element is placed before an earlier one it should follow. |
| Sorting.SortByStable | C1.js:17 | The sort is stable: elements the comparator ties keep their relative order. |
| Sorting.SortByAgree | C6.js:21 | Two comparators that agree on the elements sort them identically. |
| Sorting.SortBy | C1.js:17 | `Array.prototype.sort` as a stable insertion sort; it returns as many elements as it is given (its meaning is stated by SortByPermutes, SortBySorted and SortByStable). |
| Sorting.InsertInPlace | C10.js:23 | One step of the in-place sort: the prefix is unchanged, and the suffix becomes the old element inserted into the sorted rest. |
| Sorting.SortInPlace | C10.js:23 | Sorting an array in place leaves exactly the stable sort of its old contents. |
| Text.DecimalRoundTrip | C4.js:14 | `+s` of a number's decimal string is the number. |
| Text.DecimalStringInjective | C12.js:17 | Different numbers have different decimal strings. |
| Text.DecimalString | C12.js:17 | A number's decimal string is a non-empty run of digits, one digit long exactly when the number is below 10. |
| Text.IntString | C12.js:22 | An integer's string is its decimal string, with a leading `-` for a negative one. |
| Text.PadZeroRoundTrip | C5.js:7 | A number padded with zeros by `padStart` still reads as that number. |
| Text.PadZeroInjective | C5.js:7 | Padding to the same width keeps different numbers different. |
| Text.PadZero | C5.js:4-7 | `padStart(w, '0')` gives digits only, at least `w` of them. |
| Text.TwoDigitsRoundTrip | C3.js:6-10 | A number below 100 padded to two digits reads back as itself. |
| Text.TwoDigitsInjective | C3.js:6 | Two-digit labels of different numbers differ. |
| Text.SeparatorSplit | C9.js:39 | `a + "-" + b` determines `a` and `b` when `a` contains no `-`. |
| Text.TrimCuts | C8.js:19 | `trim()` removes exactly the leading and trailing JS whitespace, and the result neither starts nor ends with whitespace. |
| Text.TrimIdempotent | C8.js:19 | Trimming twice is trimming once. |
| Text.Trim | C8.js:19 | `trim()` returns text that neither starts nor ends with JS whitespace, and leaves text without whitespace at either end unchanged. |
| Text.StringLessOrder | C6.js:21 | d3.ascending on strings is asymmetric, and strings that neither precedes form a transitive relation. |
| Text.StringLess | C6.js:21 | d3.ascending on strings: a string never comes before itself, and a proper prefix comes before the longer string. |
| Text.StringLessAsymmetric | C6.js:21 | No two strings each come before the other. |
| Text.StringLessTransitive | C6.js:21 | String order is transitive. |
| Text.StringLessTotal | C6.js:21 | Two strings neither of which is before the other are equal. |
| Calendar.IsoWeekday | C4.js:3 | `%u` is a weekday from 1 (Monday) to 7 (Sunday). |
| Calendar.WeekdayLabel | C4.js:3 | `%u` prints one digit from `1` to `7`. |
| Calendar.WeekdayNext | C4.js:3 | The next day has the next weekday, with Sunday followed by Monday. |
| Calendar.NextDay | C4.js:3-10 | The day after a valid date is a valid date. |
| Calendar.IsoWeek | C4.js:10 | `%V` is an ISO week number from 1 to 53. |
| Calendar.FourthOfJanuaryInWeekOne | C4.js:10 | January 4 is always in ISO week 1. |
| Calendar.WeekAdvancesOnMonday | C4.js:10 | Weeks start on Monday: the day after a Sunday opens week 1 when it falls between December 29 and January 4, and the next week number otherwise. |
| Calendar.WeekKeptUntilSunday | C4.js:10 | Moving one day forward before Sunday keeps the ISO week number, also across a year end. |
| Calendar.DayNumberNext | C4.js:10 | Days are numbered without gaps across month and year ends. |
| Calendar.WeekLabelSame | C4.js:10 | Two `%V` labels are equal exactly when the week numbers are. |
| Calendar.WeekLabel | C4.js:10 | `%V` prints exactly two digits. |
| Calendar.WeekdayLabelSame | C4.js:12 | Two `%u` labels are equal exactly when the weekdays are. |
| Calendar.WeekdayLabelValue | C4.js:14 | `+day` of a `%u` label is the weekday. |
| Calendar.MonthLabelSame | C3.js:6 | Two `%m` labels are equal exactly when the months are, whatever the years. |
| Calendar.MonthLabel | C3.js:6 | `%m` prints exactly two digits. |
| Calendar.MonthLabelValue | C3.js:10 | `+Thang` of a `%m` label is the month number. |
| Calendar.DayLabelSame | C5.js:7 | Two padded day-of-month labels are equal exactly when the days are. |
| Calendar.DayLabel | C5.js:7 | The padded day of the month is exactly two digits. |
| Calendar.HourLabelSame | C6.js:6 | Two hour-slot labels are equal exactly when the hours are. |
| Calendar.HourLabel | C6.js:3-6 | `%H:00-%H:59` is two hour digits, `:00-`, the same two digits, then `:59`. |
| Calendar.HourLabelOrder | C6.js:21 | In string order one hour-slot label comes before another exactly when its hour is earlier. |
| Calendar.DateLabelSame | C6.js:7 | Two `%Y-%m-%d` labels are equal exactly when the calendar dates are. |
| Calendar.DateLabel | C6.js:7 | `%Y-%m-%d` is four, two and two digits separated by `-`. |
| Records.DistinctOrders | C7.js:6 | A non-empty set of lines has between 1 and (number of lines) distinct order ids. |
| Records.DistinctOrdersOfPart | C10.js:13-15 | Part of a category's lines has no more distinct orders than the category. |
| Records.DistinctOrdersRepeat | C7.js:6 | Another line of an order already present adds no order. |
| Records.BracketedInjective | C7.js:7 | `[code] name` determines code and name when the codes contain no `]`. |
| Records.BracketedCollision | C7.js:7 | With a `]` inside a code, two different (code, name) pairs give the same label. |
| Chart1.NestedGroupRevenue | C1.js:2-7 | The three nested rollups sum exactly the records that match item code, item name and category code. |
| Chart1.FirstSubgroupRow | C1.js:8-10 | `values[0]` and then `groupValues[0]` pick the first record's item name and category code, with the revenue of the matching records. |
| Chart1.RevenueByItem | C1.js:2-17 | The rows are a permutation of one row per item code, with non-increasing `ThanhTien`. |
| Chart1.ItemRows | C1.js:2-16 | One row per item code, in first-occurrence order, each the row built for that code. |
| Chart1.RevenueByItemDistinct | C1.js:2-8 | One row per distinct item code, and no code twice. |
| Chart1.RevenueByItemCovers | C1.js:2-8 | Every item code of the input has a row. |
| Chart1.RevenueByItemRowsOfCodes | C1.js:8-16 | Each row's revenue is the sum over the records that match its code, its first-seen name and its first-seen category code. |
| Chart1.RevenueByItemStable | C1.js:17 | Rows of equal revenue keep the order in which their item codes first occur. |
| Chart1.RevenueByItemEmpty | C1.js:2-17 | An empty file gives no rows. |
| Chart1.DroppedRecordIgnored | C1.js:9-10 | Changing the amount of a record whose name or category differs from its code's first record leaves the output unchanged. |
| Chart1.MatchingRevenueIgnores | C1.js:9-10 | Changing the amount of a record that does not match leaves the matching revenue unchanged. |
| Chart2.NestedGroupRevenue | C2.js:2-6 | The two nested rollups sum exactly the records that match category code and category name. |
| Chart2.FirstSubgroupRow | C2.js:7-9 | `values[0]` picks the first record's category name, with the revenue of the matching records. |
| Chart2.RevenueByCategory | C2.js:2-10 | The rows are a permutation of one row per category code, with non-increasing `ThanhTien`. |
| Chart2.RevenueByCategoryDistinct | C2.js:2-7 | One row per distinct category code, and no code twice. |
| Chart2.RevenueByCategoryCovers | C2.js:2-7 | Every category code of the input has a row. |
| Chart2.RevenueByCategoryRowsOfCodes | C2.js:7-9 | Each row's revenue is the sum over the records with its code and its first-seen name. |
| Chart2.RevenueByCategoryStable | C2.js:10 | Rows of equal revenue keep the order in which their codes first occur. |
| Chart2.MatchingWholeGroup | C2.js:8 | When all records of a code carry the same name, the row's revenue is the code's whole revenue. |
| Chart2.SingleNameTotal | C2.js:2-10 | When every category code has a single name, the rows add up to the sum of all amounts. |
| Chart2.DroppedRecordIgnored | C2.js:8 | Changing the amount of a record whose name differs from its code's first record leaves the output unchanged. |
| Chart2.MatchingRevenueIgnores | C2.js:8 | Changing the amount of a record that does not match leaves the matching revenue unchanged. |
| Chart3.RevenueByMonth | C3.js:3-10 | The rows are a permutation of one row per month label, ordered by month number. |
| Chart3.MonthRows | C3.js:3-9 | One row per month label, in first-occurrence order, holding the sum over exactly that month's records. |
| Chart3.ByMonth | C3.js:3-9 | The rollup has one row per month key, at most 12, each holding the sum over exactly that month's records. |
| Chart3.KeyIsMonth | C3.js:6 | Every key is the two-digit `%m` of some record. |
| Chart3.SameRowSameMonth | C3.js:6 | Two records share a row exactly when they fall in the same month, even in different years. |
| Chart3.MonthKeysAtMostTwelve | C3.js:3-9 | At most 12 distinct month keys. |
| Chart3.RevenueByMonthRows | C3.js:3-10 | No month twice, so at most 12 rows. |
| Chart3.RevenueByMonthCovers | C3.js:5-6 | Every record's month has a row, holding the sum over exactly that month's records. |
| Chart3.RevenueByMonthAscending | C3.js:10 | Month numbers strictly increase from row to row. |
| Chart3.RevenueByMonthTotal | C3.js:3-9 | The rows' `ThanhTien` add up to the sum of all amounts. |
| Chart4.SummarizeCount | C4.js:10 | `count` is the number of distinct ISO week numbers of the group: at least 1 and at most 53. |
| Chart4.AverageByWeekday | C4.js:6-16 | The rows are a permutation of one row per weekday label, ordered by `day`. |
| Chart4.KeyIsWeekday | C4.js:12-14 | Every key is the `%u` of some record, so `+day` is that record's weekday, from 1 to 7. |
| Chart4.WeekdayKeysAtMostSeven | C4.js:12 | At most 7 weekday keys. |
| Chart4.RowOfWeekday | C4.js:13-15 | Each row's `day` is in 1..7 and its `average` is the group's sum over its number of distinct weeks. |
| Chart4.AverageByWeekdayRows | C4.js:13-16 | At most 7 rows, strictly ascending by `day`, and `daysOfWeek[day - 1]` is in range. |
| Chart4.AverageByWeekdayCovers | C4.js:8-15 | Every record's weekday has a row that averages exactly the records of that weekday. |
| Chart4.GroupOnWeekday | C4.js:12 | The records a row averages all fall on the row's weekday. |
| Chart4.MondayExample | C4.js:8-15 | Two lines on Monday 2024-01-01 worth 300 and one on Monday 2024-01-08 worth 100 give the single row (1, 200). |
| Chart4.WeeksOfDifferentYearsMerge | C4.js:10 | Mondays 2024-01-01 and 2029-01-01 count as one week, because the year is ignored. |
| Chart4.TwoWeeks | C4.js:10 | Two lines in week 1 and one in week 2 count two weeks. |
| Chart5.AnnotateDays | C5.js:6-8 | The loop writes into every record, in place, the label of its own day of the month, and changes nothing else. |
| Chart5.DayAnnotated | C5.js:6-8 | The annotated records are the input records, each with only its day label set to the label of its own day. |
| Chart5.AnnotatedDays | C5.js:6-8 | After the loop every record carries its own day label. |
| Chart5.DayLabelIndex | C5.js:4-7 | A record's label is the entry of `daysInMonth` at its day's position, and `indexOf` finds it there. |
| Chart5.SummarizeCount | C5.js:14 | `count` is the number of distinct months of the group: at least 1 and at most 12. |
| Chart5.AverageByDayOfMonth | C5.js:10-20 | The rows are a permutation of one row per label, ordered by position in `daysInMonth`. |
| Chart5.KeyIsDay | C5.js:16 | On annotated records every key is the label of some record's day, at that day's position. |
| Chart5.DayKeysAtMost31 | C5.js:10-16 | At most 31 keys. |
| Chart5.AverageByDayOfMonthRows | C5.js:17-20 | At most 31 rows, each labelled with a `daysInMonth` entry, strictly in axis order. |
| Chart5.AverageByDayOfMonthCovers | C5.js:12-19 | Every record's day has a row, averaging the records of that day over their distinct months. |
| Chart5.GroupOnDay | C5.js:16 | A record is in a row's group exactly when it was created on that day of the month. |
| Chart6.AnnotateHours | C6.js:5-8 | The loop writes the hour slot and the date of each record's own time into it, in place, and changes nothing else. |
| Chart6.HourAnnotated | C6.js:5-8 | The annotated records are the input records, each with only its hour slot and date set from its own time. |
| Chart6.AnnotatedHours | C6.js:5-8 | After the loop every record carries its own hour slot and date. |
| Chart6.SummarizeCount | C6.js:14 | On annotated records `count` is the number of distinct calendar dates. |
| Chart6.AverageByHour | C6.js:10-21 | The rows are a permutation of the positive-average rows, one per hour slot. |
| Chart6.KeyIsHour | C6.js:16 | On annotated records every key is the slot of some record's hour, from 0 to 23. |
| Chart6.HourKeysAtMost24 | C6.js:10-16 | At most 24 hour slots. |
| Chart6.RowOfHour | C6.js:17-20 | Each row names an hour present in the input and has a positive average over at least one date. |
| Chart6.RowsDistinct | C6.js:10-21 | No two rows share an hour slot. |
| Chart6.AverageByHourSorted | C6.js:21 | On annotated records the rows are sorted under the comparator on their hour labels. |
| Chart6.AverageByHourRows | C6.js:17-21 | At most 24 rows, strictly ascending by hour. |
| Chart6.AverageByHourCovers | C6.js:13-20 | A record's hour slot has a row exactly when that slot's records add up to a positive total. |
| Chart6.PositiveSlotShown | C6.js:20 | A slot whose records add up to a positive total is shown. |
| Chart6.ShownSlotPositive | C6.js:20 | Every shown slot's records add up to a positive total. |
| Chart7.Share | C7.js:10-12 | A category's distinct orders over all distinct orders lie in (0, 1]. |
| Chart7.SalesProbability | C7.js:10-13 | The rows are a permutation of one row per category label, with non-increasing probability. |
| Chart7.CategoryRows | C7.js:4-12 | One row per category label, in first-occurrence order, each the row built for that label. |
| Chart7.SalesProbabilityBounds | C7.js:12 | Every probability is in (0, 1]. |
| Chart7.SalesProbabilityRows | C7.js:4-10 | One row per distinct `[code] name` label, and no label twice. |
| Chart7.SalesProbabilityCovers | C7.js:4-12 | Every record's category has a row with its share. |
| Chart7.ShareOne | C7.js:12 | A share is 1 exactly when the category's lines cover every order id in the file. |
| Chart7.RepeatedLineSameShare | C7.js:2-12 | Another line of an order the category already has leaves its share unchanged. |
| Chart8.RewriteAll | C8.js:16-21 | The loop rewrites every record in place: it sets the month from the time, trims the order id and sets `[code] name` as the group; nothing else changes. |
| Chart8.Rewritten | C8.js:16-21 | Each rewritten record has the trimmed order id, the month of its time and its `[code] name` group, and is otherwise the input record. |
| Chart8.RewrittenHolds | C8.js:16-21 | After the loop every record carries its own month, trimmed order id and group label. |
| Chart8.RewrittenOrders | C8.js:19-25 | After the rewrite, ids that differ only in surrounding whitespace count as one order. |
| Chart8.MonthBlock | C8.js:46-54 | The inner `forEach` pushes one point per group of the month, with its count over the month's total. |
| Chart8.PushPoints | C8.js:41-55 | The nested `push` loops build exactly the month-by-month, group-by-group sequence of points. |
| Chart8.ProbabilityByMonth | C8.js:14-55 | The prelude rewrites the records in place and returns the points of the rewritten records. |
| Chart8.MonthTotalOf | C8.js:30-44 | `totalOrdersByMonthObj[month]` holds the number of distinct orders of that month. |
| Chart8.PointShare | C8.js:43-54 | Every point is a month and group that occur in the data; its probability is finite and is that pair's distinct orders over the month's, in (0, 1]. |
| Chart8.MonthPointsCover | C8.js:23-54 | Every record's (month, group) has its point. |
| Chart8.MonthPointsDistinct | C8.js:41-55 | No (month, group) pair has two points. |
| Chart8.LineMonths | C8.js:67 | Each group's line has no month twice, so at most 12 points. |
| Chart8.Lines | C8.js:67 | `d3.groups` by category gives no category twice, and each line holds exactly that category's points, in push order, and at least one. |
| Chart9.RewriteAll | C9.js:11-17 | The loop rewrites every record in place, as in chart 8, and also sets `[code] name` as the item label; nothing else changes. |
| Chart9.Rewritten | C9.js:11-17 | Each rewritten record also carries its `[code] name` item label, and is otherwise the input record. |
| Chart9.RewrittenHolds | C9.js:11-17 | After the loop every record carries its own month, trimmed id, group label and item label. |
| Chart9.PairKeyInjective | C9.js:39-46 | For a month present and a group present, the key `${month}-${group}` determines both. |
| Chart9.PairKeyCollision | C9.js:39 | With a missing month, a missing group and the group text `undefined` give the same key. |
| Chart9.RewrittenPair | C9.js:11-39 | On rewritten records every (month, group) pair has a month from 1 to 12 and a group present. |
| Chart9.PairKeyWritten | C9.js:36-41 | Every (month, group) pair of the data has an entry under its key among the entries written to the object. |
| Chart9.FillMonth | C9.js:38-40 | The inner loop adds one entry per group of the month to the object. |
| Chart9.FillPairTotals | C9.js:36-41 | The nested loops fill the object with one entry per (month, group) pair. |
| Chart9.OrOne | C9.js:46 | `x || 1` is x for a positive count, and 1 for a missing or zero one. |
| Chart9.PushItems | C9.js:47-55 | The innermost loop appends one point per item, with its count over the pair's total. |
| Chart9.PushGroups | C9.js:45-56 | The middle loop appends the points of each group of a month. |
| Chart9.PushPoints | C9.js:43-57 | The nested `push` loops build exactly the month, group and item sequence of points. |
| Chart9.ProbabilityByItem | C9.js:10-63 | The prelude rewrites the records in place, returns their points, and draws the first five group lines. |
| Chart9.Lines | C9.js:59 | `d3.groups` by category gives no category twice, and each line holds exactly that category's points, in push order, and at least one. |
| Chart9.PairTotalOf | C9.js:36-46 | The object holds, under each present pair's key, the pair's number of distinct orders. |
| Chart9.PairDenominator | C9.js:46 | On rewritten records the denominator is the pair's number of distinct orders, so `|| 1` never applies. |
| Chart9.ItemPointShare | C9.js:44-54 | Every point is a month, group and item present in the data. Its count is the triple's distinct orders, and its probability is that over the pair's, in (0, 1]. |
| Chart9.ItemPointsCover | C9.js:19-54 | Every record's (month, group, item) has its point. |
| Chart9.ItemPointsDistinct | C9.js:43-57 | No (month, group, item) triple has two points. |
| Chart10.ItemRowAt | C10.js:13-21 | An item's `totalOrders` is its distinct orders, and `probability` is that over the category's `uniqueOrders`. |
| Chart10.SortedItems | C10.js:18-24 | The reducer's items are a permutation of one row per item label, with non-increasing probability. |
| Chart10.Reduce | C10.js:12-25 | Building the items and sorting them in place returns exactly the reducer's items. |
| Chart10.BuildNested | C10.js:10-27 | The rollup maps each category label, in first-occurrence order, to the items of exactly its records. |
| Chart10.Nested | C10.js:10-27 | Each entry of the rollup is a category that occurs, holding the sorted items of exactly that category's records. |
| Chart10.Charts | C10.js:10-31 | The prelude builds the nested data and draws at most the first five categories, in map order. |
| Chart10.SortedItemsBounds | C10.js:13-21 | Every item has between 1 and `uniqueOrders` orders, so its probability is in (0, 1]. |
| Chart10.SortedItemsRows | C10.js:14-20 | One item per distinct `[code] name` of the category, and no item twice. |
| Chart10.SortedItemsCover | C10.js:14-20 | Every record's item has its row, with that item's distinct orders. |
| Chart10.SortedItemsTies | C10.js:23 | Items of equal probability keep the order in which the rollup met them. |
| Chart10.NestedCovers | C10.js:10-27 | Every record's category has its entry, holding the items of exactly that category's records. |
| Chart10.NestedRows | C10.js:10-27 | One entry per category label, and no label twice. |
| Chart11.PurchaseTimesRows | C11.js:2-11 | One element per distinct customer, no customer twice, and each `times` at least 1. |
| Chart11.PurchaseTimes | C11.js:2-11 | One element per customer, in first-occurrence order, whose `times` is that customer's number of distinct orders. |
| Chart11.Bars | C11.js:13-21 | One bar per `times` value, in first-occurrence order, whose `count` is the number of elements with that value. |
| Chart11.PurchaseTimesCover | C11.js:2-11 | Every customer has its element, with its number of distinct orders as `times`. |
| Chart11.HistogramCounts | C11.js:13-22 | Each bar's `count` is the number of distinct customers with exactly `times` orders, and at least 1. |
| Chart11.HistogramCovers | C11.js:13-22 | Every customer's number of orders has its bar. |
| Chart11.HistogramAscending | C11.js:22 | The bars are strictly ascending in `times`, so no `times` value appears twice. |
| Chart11.HistogramTotal | C11.js:8-17 | The counts add up to the number of distinct customers. |
| Chart11.Histogram | C11.js:19-22 | The bars are a permutation of one bar per `times` value, ordered by `times`. |
| Chart11.OnceEach | C11.js:2-22 | Customer C1 with two lines of order A and customer C2 with order B give the single bar (times 1, count 2). |
| Chart12.SpendingRows | C12.js:2-11 | One element per distinct customer, no customer twice, each with the sum of that customer's amounts. |
| Chart12.SpendingCover | C12.js:2-11 | Every customer has its element, with its total. |
| Chart12.SpendingArray | C12.js:2-11 | One element per customer, in first-occurrence order, whose `spending` is the sum of that customer's amounts. |
| Chart12.MaxSpending | C12.js:14 | `maxSpending` is at least every total and equal to one of them. |
| Chart12.MaxIsLargest | C12.js:14 | `maxSpending` is the largest total of any customer. |
| Chart12.NumBins | C12.js:15 | `numBins` is the least integer n with n * 50000 >= maxSpending. |
| Chart12.FiniteLength | C12.js:16 | `Array.from({ length: numBins + 1 })` has numBins + 1 elements when numBins is at least -1. |
| Chart12.Categories | C12.js:16-25 | The table has the finite bands `[i*50000, (i+1)*50000)` labelled `${i*50}k`, then the open band from `numBins*50000`. |
| Chart12.BuildCategories | C12.js:16-25 | `Array.from` followed by the `push` builds exactly that table. |
| Chart12.DistributionLabels | C12.js:16-25 | There are numBins + 1 finite bands (numBins + 2 bands in all when `maxSpending` is not negative), labelled `${i*50}k` and `Trên ${numBins*50}k`. |
| Chart12.BandCounts | C12.js:27-30 | For a non-empty file, one bar per band, in table order, carrying the band's label. |
| Chart12.Distribution | C12.js:13-30 | An empty file gives the single band `Trên NaNk` with count 0, because `d3.max` yields undefined and `numBins` is NaN. Otherwise the bars are those of the bands. |
| Chart12.CountInCustomers | C12.js:29 | Filtering the spending array by a band counts each customer whose total lies in the band once. |
| Chart12.CountIn | C12.js:29 | A band's count is at most the number of customers, all of them when every total lies in the band, and 0 when none does. |
| Chart12.InBucket | C12.js:29 | A band of width 50000 starting at a multiple of 50000 holds exactly the totals with that quotient by 50000. |
| Chart12.DistributionCounts | C12.js:27-30 | Each band's count is the number of distinct customers whose total lies in it. |
| Chart12.FiniteBandsPartition | C12.js:16-29 | A total from 0 up to numBins * 50000 lies in exactly one finite band, band total / 50000. |
| Chart12.OneFiniteBand | C12.js:16-29 | Every customer with a non-negative total is counted in exactly one finite band. |
| Chart12.OverflowOverlaps | C12.js:16-29 | The open band holds exactly the customers who spent numBins * 50000; when that amount is not negative they are also in the last finite band, so they are counted twice. |
| Chart12.NegativeUncounted | C12.js:16-29 | A negative total is in no finite band; when `maxSpending` is not negative it is counted nowhere. |

## Left out

- Loading and wiring: the `d3.csv(...).then/.catch` load, `DOMContentLoaded` and the redraw buttons. The records are a given sequence.
- Everything drawn: scales, axes, ticks, SVG elements, legends, colours, tooltips, mouse handlers and the label-fitting code.
- Parsing: `+d["Thành tiền"]` is modelled as an amount already parsed to an integer. The NaN-skipping of `d3.sum` is not modelled.
- Parsing: `d3.timeParse` is modelled as a timestamp already split into year, month, day, hour, minute and second (`Moment`). An unparseable time is outside the model, because `.getMonth()` throws on it at C8.js:18 and C9.js:13. So are times with out-of-range fields, such as `2024-02-30 10:00:00` or hour 24. `d3.timeParse` accepts those and the `Date` constructor rolls them over into the next day or month; the model does not.
- Floating point: averages and probabilities are exact rationals (`real`), not IEEE doubles, so rounding is not modelled.
- `Chart12.DistributionLabels`, `Chart12.DistributionCounts` and the other band lemmas are stated for a non-empty file. `Chart12.Distribution` models the empty file's single NaN band, but NaN arithmetic is not modelled beyond it.
- d3's `InternMap` internals are not modelled. Keys compare as values, and an undefined field is `None` of an `Option`.
- `Chart5.AverageByDayOfMonthRows`, `Chart5.KeyIsDay` and `Chart6.AverageByHourRows` hold on records after the annotation loop (`DaysAnnotated`, `HoursAnnotated`). The chart 8 and 9 lemmas likewise hold on rewritten records (`IsRewritten`). The loops are proved to establish those predicates.
- Chart9.PairKeyInjective: holds only for a non-negative month and a group, both present. `Chart9.PairKeyCollision` shows the collision outside rewritten data.
- Records.BracketedInjective: holds only when codes contain no `]`. `Records.BracketedCollision` shows the collision otherwise.
- Chart10.Charts: the per-category drawing inside the `chartIndex` loop is left out. Only which categories are drawn is modelled.
