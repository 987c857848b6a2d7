# OCS usage report engine, modelled in Dafny

The report route of the OCS dashboard (`app/api/ocs/report/route.js`) turns a date range and
the answers of the OCS management API into a rectangular table `{ rows, columns }`:

- `buildWeeks` cuts the period into seven-day weeks, the last one cut short at the end date,
  each written as `[YYYY-MM-DD, YYYY-MM-DD]`;
- `get` reads a dotted path out of a decoded answer, with a default;
- for every subscriber, the enrichment closure asks for the prepaid packages and (when the
  ICCID is truthy) the last usage date, then asks for the usage of every week in turn and
  stores three figures per week (`usedData_…`, `resellerCost_…`, `subscriberCost_…`) in an
  object `weekly`, `""` in all three when that week's request fails or `Number` throws on one
  of its records' quantities;
- the subscriber fans out to one row per package, or to one row with blank package fields, each
  row carrying the identity, the nine package fields and `...weekly`;
- the column list is the twelve base names, then any other key in first-seen order, then the
  weekly keys sorted with the default string sort.

The model keeps the source's form. JavaScript values are a datatype (`JsValue.Value`) whose
objects are insertion-ordered field lists, so key order (which decides the column order) is
part of the model. `buildWeeks`, the usage sum, the weekly fill, the package loop and the
subscriber loop are methods with loops proved against specification functions
(`Weeks.Weeks`, `Usage.UsedTotal`, `Enrichment.Weekly`, `Rows.PackageRows`,
`Rows.ReportRows`); the row list that every subscriber appends to is the field of a class
(`Report.ReportBuilder`). `get` and the column computation are functions. The management API
is a parameter: a total function from request to `Fail | Ok(json)`, fixed for one report.
Dates are day numbers counted from 1970-01-01; `Calendar` supplies the proleptic Gregorian
calendar, `toISOString()` (four-digit years, or a sign and six digits outside 0000-9999) and
the `.slice(0, 10)` that the week labels take of it.

Some consequences of `route.js` as written, which the model keeps:

- the weekly keys are sorted as plain strings, so they come grouped by metric
  (`resellerCost_` < `subscriberCost_` < `usedData_`) and are chronological only within a
  metric for periods within the years 0000-9999 (`Columns.WeekKeyOrder`,
  `Columns.WeeklyColumnsOrder`), not chronological overall;
- `used` is a JavaScript number sum, so a quantity that `Number` cannot read makes it `NaN`
  rather than a count of bytes (`Usage.UsedTotalMeaning`);
- a quantity that is an object with its own `toString` key (or an array holding one) makes
  `Number` throw, so that week shows `""` in all three figures although its request succeeded
  (`Usage.FailureShowsEmpty`, `Usage.ThrowingQuantity`);
- outside the years 0000-9999 `toISOString()` writes a sign and six year digits, so the first
  ten characters stop after the month; the weeks of one month then share their labels and
  their weekly keys overwrite each other (`Calendar.IsoDateLongYears`);
- the rows the route builds never hold a key outside the base names and the weekly keys, so
  the "other" part of the columns is always empty for them (`Columns.ReportColumns`), while
  the column computation itself is modelled for any rows.

## Model

| member | source | states |
|---|---|---|
| Path.GetMeaning | app/api/ocs/report/route.js:17-21 | `get` (`Path.Get`) returns the value at the dotted path when every step exists and it is neither null nor undefined; otherwise the default, including when a truthy primitive met half-way makes `in` throw |
| Path.WalkFindsAt | app/api/ocs/report/route.js:19 | the `reduce` reaches exactly the value at the path when there is one, and otherwise ends in `null` or in a throw |
| Path.GetTwoSteps | app/api/ocs/report/route.js:19 | `get` on a two-step path `a.b` gives the value at `[a, b]` when it exists and is neither null nor undefined, else the default |
| Path.WalkOfNull | app/api/ocs/report/route.js:19 | once a step gives `null`, the rest of the walk stays `null` |
| Strings.Split | app/api/ocs/report/route.js:19 | `split('.')` gives at least one piece, no piece holds the separator, and joining the pieces gives the path back |
| Strings.SplitJoin | app/api/ocs/report/route.js:19 | splitting a join of separator-free parts gives the parts back |
| JsValue.LookupSome | app/api/ocs/report/route.js:19 | an object property reads a value exactly when it is one of the object's own keys (`k in o`) |
| JsValue.MemberMeaning | app/api/ocs/report/route.js:94-100 | `o?.[k]` is `undefined` for a property the object or array lacks, and an own key reads its stored value |
| JsValue.IndexKeyMeaning | app/api/ocs/report/route.js:72 | a property key names array index `n` exactly when it is `String(n)`, so `imsiList[0]` reads the first element and keys such as `"00"` or `"+0"` name no element |
| Strings.CanonicalIsDecimalText | app/api/ocs/report/route.js:72 | a digit string without a leading zero (or `"0"` itself) is the decimal text of the number it spells |
| JsValue.PutKeys | app/api/ocs/report/route.js:104-110 | after `o[k] = v` the keys are the old ones with `k` added last only if it was new |
| JsValue.PutLookup | app/api/ocs/report/route.js:104-110 | after `o[k] = v`, `k` reads `v` and every other key reads as before |
| JsValue.SpreadKeys | app/api/ocs/report/route.js:128 | the keys of `{...target, ...source}` are the target's, then the source's new ones in order |
| JsValue.SpreadLookup | app/api/ocs/report/route.js:128 | after a spread, a key of the source reads as in the source, any other as in the target |
| Coercion.StringToNumber | app/api/ocs/report/route.js:101 | `Number(string)` always gives a number or NaN |
| Coercion.ToText | app/api/ocs/report/route.js:101 | `String(v)` throws exactly when `v` is an object with its own `toString` key or an array holding such a value at any depth |
| Coercion.ToNumber | app/api/ocs/report/route.js:101 | `Number(v)` throws exactly when `String(v)` does, and otherwise gives a number or NaN |
| Coercion.NumberOfText | app/api/ocs/report/route.js:101 | an integer written as text, alone or as the one element of an array, is read back as itself |
| Calendar.CivilDate | app/api/ocs/report/route.js:29-34 | the date of a day number is a valid calendar date naming that day |
| Calendar.CivilDateOfDayNumber | app/api/ocs/report/route.js:29-34 | day numbers and valid dates correspond one to one |
| Calendar.DayNumberInjective | app/api/ocs/report/route.js:29-34 | different valid dates name different days |
| Calendar.CivilDateOrder | app/api/ocs/report/route.js:29-34 | a later day has a later date |
| Calendar.YearTextRoundTrip | app/api/ocs/report/route.js:31-32 | `toISOString()` writes a year in 0..9999 as four digits spelling it, a later year as `+` and six digits, an earlier one as `-` and six digits of its magnitude |
| Calendar.IsoDate | app/api/ocs/report/route.js:31-32 | `toISOString().slice(0, 10)` is ten characters long and never holds '_' |
| Calendar.IsoDateFourDigit | app/api/ocs/report/route.js:31-32 | for years 0000-9999 the ten characters kept are the whole `YYYY-MM-DD` |
| Calendar.IsoDateLongYears | app/api/ocs/report/route.js:31-32 | outside years 0000-9999 the ten characters kept stop after the month, so every day of one month gets the same text |
| Calendar.IsoDateOrder | app/api/ocs/report/route.js:31-32 | for four-digit years the ISO date strings are ten characters long and compare exactly as their days do, equal exactly when the days are |
| Calendar.DateTextBefore | app/api/ocs/report/route.js:31-32 | for four-digit years the text order of `YYYY-MM-DD` is the date order |
| Strings.DigitsOrder | app/api/ocs/report/route.js:31-32 | zero-padded digit strings of one width sort like the numbers they spell |
| Weeks.BuildWeeks | app/api/ocs/report/route.js:23-37 | the loop returns the labels of `Weeks(start, end)`, and nothing when the start or the end is an Invalid Date; a missing end is today |
| Weeks.WeeksClosedForm | app/api/ocs/report/route.js:27-35 | in the week list `Weeks.Weeks` there are `ceil((end - start + 1) / 7)` weeks (none when the start is after the end), week `i` runs from `start + 7i` to `min(start + 7i + 6, end)` |
| Weeks.WeeksPartition | app/api/ocs/report/route.js:27-35 | for start ≤ end the weeks are contiguous and non-overlapping, the first begins at the start, the last ends at the end, all but the last have seven days and the last one to seven |
| Weeks.WeekOfDay | app/api/ocs/report/route.js:27-35 | each day of the period lies in week `(day - start) / 7` and in no other |
| Weeks.LabelsSnoc | app/api/ocs/report/route.js:33 | pushing a week appends its label |
| Usage.Amount | app/api/ocs/report/route.js:101 | each record contributes a number or NaN, or throws exactly when `Number` throws on its quantity |
| Usage.UsedTotal | app/api/ocs/report/route.js:97-102 | the running `used`, when the loop does not throw, is always a number or NaN |
| Usage.SumUsage | app/api/ocs/report/route.js:97-103 | the loop leaves in `used` the records' amounts added one by one from 0 |
| Usage.UsedTotalMeaning | app/api/ocs/report/route.js:97-103 | the loop throws exactly when some record's quantity makes `Number` throw; otherwise `used` is the plain sum of the amounts when each is a number, and NaN as soon as one is not |
| Usage.TextQuantity | app/api/ocs/report/route.js:100-101 | a quantity given as a numeral string counts as its number |
| Usage.QuantityMeaning | app/api/ocs/report/route.js:100 | a record's quantity (`Usage.Quantity`) is the first of `quantity`, `usedDataByte`, `useddatabyte` that is neither null nor undefined, else 0; a record that is not an object (an array, a string, a number) counts 0 |
| Usage.MissingPeriod | app/api/ocs/report/route.js:94-106 | an answer without a truthy `subscriberUsageOverPeriod` (`Usage.PeriodOf` is `{}`) gives 0 used bytes and 0 for both costs |
| Usage.MeasureWeek | app/api/ocs/report/route.js:92-111 | one week's `try`/`catch` gives the week's figures as defined from its request's outcome, `""` in all three when the request or the sum throws |
| Usage.FailureShowsEmpty | app/api/ocs/report/route.js:92-111 | in a week's figures (`Usage.WeekFigures`) `used` is `""` exactly when the request failed or `Number` threw on a record's quantity, and then all three figures are `""`; otherwise `used` is a number or NaN and neither cost is null or undefined |
| Usage.ThrowingQuantity | app/api/ocs/report/route.js:99-111 | a successful answer whose one record has the quantity `{"toString": 1}` gives `""` in all three figures |
| Usage.NonArrayRecordsCountZero | app/api/ocs/report/route.js:96-98 | records (`Usage.RecordsOf`) that are not an array count 0 |
| Usage.UsagesShadowUsage | app/api/ocs/report/route.js:96 | an array under `usages` is what is counted (`""` when its sum throws) |
| Usage.UsageFallback | app/api/ocs/report/route.js:96 | without a truthy `usages`, an array under `usage` is what is counted (`""` when its sum throws) |
| Usage.MissingTotalCostsZero | app/api/ocs/report/route.js:95-106 | when no quantity throws, a period without a truthy `total` reports 0 for both costs |
| Usage.TotalCosts | app/api/ocs/report/route.js:95-106 | when no quantity throws: with an object as `total`, each cost is the value `total` holds under its name, 0 when that value is null or undefined and 0 when `total` lacks the key; a `total` that is not an object gives 0 for both |
| Enrichment.CollectWeekly | app/api/ocs/report/route.js:87-112 | the loop leaves in `weekly` the three assignments of every week, in week order, each week measured from its own usage request |
| Enrichment.FillKeys | app/api/ocs/report/route.js:87-112 | `weekly`'s keys are the assigned keys in the order of their first assignment |
| Enrichment.WeeklyKeysShape | app/api/ocs/report/route.js:87-112 | `weekly` has no key twice and each of its keys holds '_' |
| Enrichment.FillLookup | app/api/ocs/report/route.js:88-111 | once visited, a week's three keys keep reading its figures while later weeks are visited |
| Enrichment.WeeklyLookup | app/api/ocs/report/route.js:88-111 | each week's three keys read the figures of that week's own request, `""` in all three when it failed, whatever the other weeks' requests did |
| Enrichment.FillKeepsOther | app/api/ocs/report/route.js:104-110 | visiting a week leaves every key outside its three untouched |
| Enrichment.PutFiguresKeys | app/api/ocs/report/route.js:104-110 | one week's assignments add its three keys, each at most once |
| Enrichment.PutFiguresRead | app/api/ocs/report/route.js:104-110 | after one week's assignments its three keys read its figures |
| Enrichment.PutFiguresKeeps | app/api/ocs/report/route.js:104-110 | one week's assignments leave every other key as it was |
| Enrichment.WeekKeyInjective | app/api/ocs/report/route.js:89-91 | a week key gives back its prefix and its week when neither holds '_' |
| Enrichment.OtherWeekKeys | app/api/ocs/report/route.js:89-91 | keys of different weeks differ, whatever their prefixes |
| Enrichment.WeekKeyHasUnderscore | app/api/ocs/report/route.js:89-91 | every week key holds '_' |
| Enrichment.WeekLabelsSeparable | app/api/ocs/report/route.js:31-33 | the labels of a period with four-digit years hold no '_' and name distinct weeks apart |
| Rows.Head | app/api/ocs/report/route.js:115-127 | a row's leading keys are the twelve base names in order |
| Rows.ZipKeys | app/api/ocs/report/route.js:133-145 | an object literal's keys are its names in order |
| Rows.FirstSetPicksFirst | app/api/ocs/report/route.js:137-145 | an alias chain `a ?? b ?? ""` picks the first candidate that is neither null nor undefined |
| RowFacts.PackageFields | app/api/ocs/report/route.js:140-145 | in a package's nine values (`Rows.PackageValues`) cost, used and total data, activation and expiry are the package's own field or `""`, and none of the nine is null or undefined |
| Rows.FirstSetNoneSet | app/api/ocs/report/route.js:137-145 | an alias chain gives `""` when no candidate is set |
| RowFacts.BaseOrderShape | app/api/ocs/report/route.js:152-157 | the twelve base names are distinct and none holds '_' |
| RowFacts.HeadLookup | app/api/ocs/report/route.js:115-127 | each base name of a row's head reads its own value |
| RowFacts.RowKeys | app/api/ocs/report/route.js:115-129 | a row's keys are the twelve base names followed by `weekly`'s keys |
| RowFacts.RowBaseReads | app/api/ocs/report/route.js:115-129 | `...weekly` never hides a base field: base name `j` reads the row's value `j` |
| RowFacts.RowWeeklyReads | app/api/ocs/report/route.js:128 | a weekly key of a row reads what `weekly` holds under it |
| RowFacts.FanOutAt | app/api/ocs/report/route.js:114-149 | the fan-out (`Rows.FanOut`) gives one row without packages (a non-array or empty package list), else one row per package in package order, row `i` built from package `i` |
| RowFacts.FanOutKeys | app/api/ocs/report/route.js:114-149 | every row of a subscriber has the twelve base names followed by the weekly keys |
| RowFacts.FanOutIdentity | app/api/ocs/report/route.js:134-136 | every row of a subscriber reads the same id, ICCID and last usage date |
| RowFacts.FanOutPackageFields | app/api/ocs/report/route.js:137-145 | row `i`'s nine package fields read package `i`'s values |
| RowFacts.BlankRow | app/api/ocs/report/route.js:114-127 | without packages there is exactly one row and its nine package fields are `""` |
| RowFacts.FanOutWeekly | app/api/ocs/report/route.js:128 | every row of a subscriber reads under a weekly key what `weekly` holds |
| RowFacts.PackageAliases | app/api/ocs/report/route.js:137-141 | the package id prefers `subscriberprepaidpackageid` to `subscriberPrepaidPackageId`, the reseller cost `resellercost` to `resellerCost`, `""` when neither is set |
| RowFacts.PackageTemplate | app/api/ocs/report/route.js:132-139 | the template fields come from `packageTemplate` (taken as `{}` when falsy), so a package without a template gives `""` for both |
| RowFacts.NonObjectPackage | app/api/ocs/report/route.js:132-145 | a package that is not an object gives the nine `""` of the blank row |
| RowFacts.IdentityMeaning | app/api/ocs/report/route.js:71-85 | the ICCID is `""` or truthy, and `""` without an `imsiList` array; the identity depends on the API only through the one last-usage request, and the last usage date is `""` without an ICCID |
| RowFacts.PackagesMeaning | app/api/ocs/report/route.js:73-77 | the packages (`Rows.PackagesOf`) are `[]` when the request fails, else the answer's value at `listSubscriberPrepaidPackages`, `packages` when it exists and is neither null nor undefined, else `[]` |
| RowFacts.LastUsageMeaning | app/api/ocs/report/route.js:79-85 | the last usage date (`Rows.LastUsageOf`) is `""` for a falsy ICCID or a failed request, else the answer's value at `getSingleSubscriber`, `lastUsageDate` when it exists and is truthy, else `""` |
| RowFacts.IccidMeaning | app/api/ocs/report/route.js:72 | the ICCID (`Rows.IccidOf`) is the first `imsiList` element's `iccid` when `imsiList` is a non-empty array and that value is truthy, and `""` otherwise |
| RowFacts.SubscriberRowIdentity | app/api/ocs/report/route.js:71-147 | every row of a subscriber (`Rows.SubscriberRows`) has the base names then the weekly keys, and reads the subscriber's id, ICCID and last usage date |
| RowFacts.SubscriberRowWeek | app/api/ocs/report/route.js:87-147 | every row of a subscriber reads, under each week's three keys, that week's own figures |
| Builder.FetchPackages | app/api/ocs/report/route.js:73-77 | a failed request leaves `[]`; an answer gives its value at `listSubscriberPrepaidPackages`, `packages` when that exists and is neither null nor undefined, and `[]` otherwise |
| Builder.Identify | app/api/ocs/report/route.js:71-85 | the identity is `sub.subscriberId`, the ICCID (the first `imsiList` element's truthy `iccid`, else `""`) and the last usage date: `""` without an ICCID or when the request fails, else the answer's truthy `getSingleSubscriber.lastUsageDate`, else `""` |
| Builder.PackageRowsLoop | app/api/ocs/report/route.js:131-148 | the package loop pushes one row per package, in order |
| Builder.FanOutRows | app/api/ocs/report/route.js:114-149 | the subscriber's pushes are the fan-out of its identity, packages and `weekly` |
| Report.ReportBuilder.constructor | app/api/ocs/report/route.js:69 | the row list starts empty |
| Report.ReportBuilder.Enrich | app/api/ocs/report/route.js:70-150 | enriching a subscriber appends exactly its rows |
| Report.ReportBuilder.EnrichAll | app/api/ocs/report/route.js:70-150 | enriching the subscribers one after the other appends the rows of each in turn |
| Report.Generate | app/api/ocs/report/route.js:69-161 | the report's rows are every subscriber's rows, and its columns are the base names followed by the sorted weekly keys |
| KeySet.InsertAllMembers | app/api/ocs/report/route.js:158 | the `Set` holds exactly the keys added and what it held before |
| KeySet.InsertAllDistinct | app/api/ocs/report/route.js:158 | the `Set` never holds a key twice |
| KeySet.InsertAllFirstSeen | app/api/ocs/report/route.js:158 | the `Set` lists its keys in the order of their first insertion |
| KeySet.InsertAllFresh | app/api/ocs/report/route.js:158 | adding distinct new keys appends them |
| Sorting.Sort | app/api/ocs/report/route.js:159 | `sort()` gives a sorted permutation |
| Sorting.SortedUnique | app/api/ocs/report/route.js:159 | a sorted permutation is unique, so the engine's sorting algorithm does not matter |
| Columns.Filter | app/api/ocs/report/route.js:159-160 | `filter` keeps exactly the keys that pass |
| Columns.FilterDistinct | app/api/ocs/report/route.js:159-160 | a filter of a list without repeats has none |
| Columns.FilterKeepsOrder | app/api/ocs/report/route.js:160 | a filter keeps the first-seen order of what it keeps |
| Columns.KeyStreamMembers | app/api/ocs/report/route.js:158 | the keys fed to the `Set` are exactly the keys of the rows |
| Columns.AllKeysShape | app/api/ocs/report/route.js:158 | `allKeys` (`Columns.AllKeys`) has no repeats and holds exactly the rows' keys |
| Columns.WeeklyColumns | app/api/ocs/report/route.js:159 | `weeklyKeys` (`Columns.WeeklyKeys`) is sorted, has no repeats, and holds exactly the rows' keys with a weekly prefix |
| Columns.OtherColumns | app/api/ocs/report/route.js:160 | `otherKeys` (`Columns.OtherKeys`) holds exactly the rows' keys that are neither base names nor weekly, once each, in first-seen order |
| Columns.ColumnsCover | app/api/ocs/report/route.js:161 | `columns` (`Columns.Columns`) starts with the twelve base names, names every key of every row, nothing else, and nothing twice |
| Columns.RowKeyHasColumn | app/api/ocs/report/route.js:158-161 | every key of every row has a column |
| Columns.NoRowsColumns | app/api/ocs/report/route.js:152-161 | with no rows the columns are exactly the twelve base names |
| Columns.WeeklyKeyNotBase | app/api/ocs/report/route.js:159-160 | a weekly key is never a base name |
| Columns.WeekKeyOrder | app/api/ocs/report/route.js:159 | two week keys sort by metric first (reseller cost, subscriber cost, used data) and then by the week's first day, for four-digit years |
| Columns.SortedWeekKeys | app/api/ocs/report/route.js:159 | in a sorted list of week keys of one period within four-digit years, keys are grouped by metric and run in calendar order within a metric |
| Columns.WeeklyColumnsOrder | app/api/ocs/report/route.js:159 | for a period within four-digit years, the weekly columns are grouped by metric and, within a metric, in calendar order of the weeks |
| Columns.WeeklyKeysAreWeekly | app/api/ocs/report/route.js:89-91 | every key of `weekly` has a weekly prefix |
| Columns.SubscriberKeys | app/api/ocs/report/route.js:115-147 | the rows of one subscriber hold base names and weekly keys only |
| Columns.ReportKeys | app/api/ocs/report/route.js:115-147 | the rows of the report hold base names and weekly keys only |
| Columns.ReportColumns | app/api/ocs/report/route.js:158-161 | for the report's own rows `otherKeys` is empty and the columns are the base names followed by the sorted weekly keys |

## Left out

- `callOCS` (route.js:5-15): the HTTPS request, `JSON.parse` and its `{ raw }` fallback are I/O; the API is a parameter that answers each request with `Fail` or the decoded JSON, so a `{ raw }` answer is just another value.
- The `POST` handler (route.js:55-66, 163-166): reading the request body, the defaults for the account, the start date and the end date (the end defaults to the current date, which is the `today` parameter of `Weeks.BuildWeeks`), the `listSubscriber` request and its non-array answer, and building the HTTP response. `Report.Generate` starts from the subscriber list.
- `poolAll` (route.js:39-53): at most four subscribers are enriched at once, and the concurrent `rows.push` calls make the order of the subscribers' row batches depend on completion order. The model enriches the subscribers one after the other.
- Report.ReportBuilder.EnrichAll: the row order across subscribers is the sequential one; under `poolAll` the batches of different subscribers come in completion order. A subscriber's own rows are pushed without an `await` between them, so they stay together in either case.
- Floating point: numbers are integers; `Number(string)` reads optionally signed decimal integers with surrounding white space and gives NaN for everything else, so fractions, exponents, hexadecimal numerals and `Infinity` are not modelled, nor are float rounding and overflow in the sum.
- Object key order: JavaScript lists integer-like keys first; no key the report writes is integer-like, so objects keep plain insertion order.
- `k in o` with inherited properties (such as `toString`) in `get`: only own properties are modelled. Inherited methods matter only for `Number` on a quantity, where an own `toString` key (never callable in decoded JSON) makes it throw, which is modelled.
- Duplicate keys in decoded JSON and UTF-16 code units: strings are sequences of characters compared one by one, which agrees with JavaScript on the keys the report builds.
- Days outside the range of a JavaScript `Date` (100,000,000 days either side of 1970-01-01), where `toISOString` throws: every day number is accepted, and a year beyond six digits keeps only its last six digits in the year text.
- Date parsing: `new Date(str + "T00:00:00Z")` is modelled by its outcome (`Weeks.DateArg`: absent, Invalid Date, or a day).
- Columns.WeekKeyOrder: the sort-order statement covers years 0000-9999 only, where `toISOString` writes four digits.
- Columns.SortedWeekKeys: calendar order within a metric is stated for periods within years 0000-9999 only; outside them the signed six-digit years sort out of calendar order (year -1 before year -2, year 10000 before 9999).
- Columns.WeeklyColumnsOrder: likewise stated for periods within years 0000-9999 only, for the same reason.
- `app/dashboard/page.js` is not part of this model: it is the browser page that displays the table.
