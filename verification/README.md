# Hall Pass 9000 — a Dafny model of its core logic

Hall Pass 9000 is a classroom hall-pass tracker. A student leaving the room
goes on a "space walk": a pass with a start, an end once they are back, and
a flag saying whether the walk was personal (recreational) or official.
This project models the logic that runs around those passes. That covers:

- the duration of a pass and its good / warning / critical status against the
  user's minute thresholds, plus the older copy with fixed limits and an
  "error" status;
- the digital clock rendering of a duration;
- folding a student's passes into per-group statistics (`total`, `personal`,
  `official`): counts, accumulated durations and latest start. This is done
  both by `getPassStats` and by the history card's own reducer;
- the cadets and walks reports: their comparators, the sort-key dispatch and
  direction factor read from the query, and the sortable column header that
  writes the next query;
- the settings hook that merges stored settings over the defaults;
- the threshold validators and the two form actions (admin and settings)
  that use them;
- `safeRedirect`, `validateEmail` and `capitalizeString`.

Modelling choices:

- **Time.** Instants are whole seconds, and "now" is an explicit parameter.
  A duration is the date-fns record of seven natural fields. `intervalToDuration` is the canonical
  split of the elapsed seconds into days, hours, minutes and seconds (years,
  months and weeks stay zero). `add` adds a duration's seconds, using fixed
  lengths for the larger units.
- **Strings.** Strings are sequences of Unicode scalar values (Dafny
  `char`s), not of the UTF-16 code units JavaScript strings hold. The two
  agree on every character of the Basic Multilingual Plane. `localeCompare`
  is lexicographic order on characters, and `toLowerCase` / `toUpperCase`
  map ASCII letters only.
- **Numbers.** Settings thresholds are real numbers. Form numbers are
  `NaN | Num(real)`, so that JavaScript truthiness and comparisons with `NaN`
  come out as in the source. The conversion of typed text to a number is a
  function parameter.
- **Sorting.** `Array.prototype.sort` is an insertion sort over sequences,
  proved stable: elements that tie keep their input order
  (`Ordering.SortStable`). Every comparator the loaders can choose is proved
  to be a total preorder, so the sorted order is well defined.
- **Reducers.** `Array.prototype.reduce` is a generic left fold. The
  statistics are proved independent of the order of the passes. The history
  card's reducer is proved to track the `getPassStats` reducer step by step.

The two report pages each declare an identical `nameCmp`, and the admin and
settings pages each declare identical `getWarningError` / `getCriticalError`.
Each pair is modelled once (`Reports.NameCmp`, `AdminRoute.GetWarningError`,
`AdminRoute.GetCriticalError`). The second copies are
app/routes/__index/reports/walks.tsx:20-29 and
app/routes/__index/settings.tsx:17-30.

One behaviour is worth knowing. With no `sort-key` in the query, the
loaders sort by "cadet", but the "cadet" header does not count as the active
column. It shows the both-ways arrow on hover, and clicking it asks again for
the ascending order already on screen
(`SortableHeader.DefaultCadetSortHasInactiveHeader`).

## Model

| member | source | states |
|---|---|---|
| DateFns.IntervalToDuration | app/utils/utils.ts:166 | the interval's duration is canonical (sub-day fields in range, no years/months/weeks) and its seconds are the absolute difference of the end points |
| DateFns.CanonicalRoundTrip | app/utils/utils.ts:176-180 | a canonical duration is recovered from its seconds, so `intervalToDuration` after `add` gives the added duration back |
| DateFns.Add | app/utils/utils.ts:176 | adding a duration never moves an instant back, and the interval from the instant to the result is the added duration when it is canonical |
| DateFns.IntervalToSelfIsZero | app/utils/utils.ts:166 | `emptyDuration`, the interval from now to now, is the zero duration |
| Passes.Elapsed | app/utils/utils.ts:170-173 | a pass lasts from its start to its end, or to now while it is open, measured as a canonical duration |
| Utils.SafeRedirect | app/utils/utils.ts:20-33 | the destination is returned only when it is text starting with "/" but not "//"; otherwise the default is |
| Utils.SafeRedirectIsLocal | app/utils/utils.ts:10-33 | with the default "/", every result is a local path, and feeding a result back in returns it unchanged |
| Utils.ValidateEmailShape | app/utils/utils.ts:74-76 | a local part, "@" and a domain pass exactly when the two parts have three or more characters together; whatever passes is a string that splits that way at some "@" |
| Utils.TwoDigits | app/utils/utils.ts:107-110 | `padStart(2, "0")` of a number gives at least two digits that read back as the number, exactly two below 100 |
| Utils.FormatDurationDigitalRoundTrip | app/utils/utils.ts:104-111 | reading the clock text back gives the hours (zero when omitted), minutes and seconds; there are three fields iff hours is nonzero |
| Utils.ClockShowsAllOfSubDayDuration | app/utils/utils.ts:104-111 | for a canonical duration under a day, the clock reading accounts for every second of it |
| Utils.ZeroDurationFormat | app/utils/utils.ts:104-111 | the zero duration renders as "00:00" |
| Utils.CompareDurations | app/utils/utils.ts:113-123 | the field-by-field comparison is zero exactly when all seven fields agree |
| Utils.CompareDurationsAntisymmetric | app/utils/utils.ts:113-123 | swapping the arguments negates the comparison |
| Utils.CompareDurationsPreorder | app/utils/utils.ts:113-123 | the comparison is a total preorder (antisymmetric sign, transitive) |
| Utils.CompareCanonicalBySeconds | app/utils/utils.ts:113-123 | on canonical durations the comparison has the sign of the difference in elapsed seconds |
| Utils.GetDurationStatus | app/utils/utils.ts:127-145 | any unit of an hour or more is critical; zero minutes is good; otherwise critical iff minutes reach the critical threshold and warning iff they lie in [warning, critical) |
| Utils.DefaultStatusBoundaries | app/utils/utils.ts:127-145 | at warning 5 and critical 10: 5:00 is warning, 10:00 and 1:00:00 are critical, 4:59 is good |
| Utils.StatusMonotoneInElapsed | app/utils/utils.ts:127-145 | a longer interval never gets a lower status, whatever the thresholds |
| Utils.StatusMonotoneInThresholds | app/utils/utils.ts:127-145 | raising both thresholds never raises the status |
| Utils.GetPassStatus | app/utils/utils.ts:147-155 | a pass whose elapsed time, to its end or to now while open, is an hour or more is critical, and one under a minute is good |
| Utils.PassStatusBySeconds | app/utils/utils.ts:147-155 | a pass's status in terms of its elapsed seconds t: critical iff t is an hour or more or its whole minutes reach the critical threshold; warning iff under an hour with whole minutes in [warning, critical) |
| Utils.CapitalizeString | app/utils/utils.ts:210-215 | a missing or empty string gives ""; otherwise the same length, first character upper-cased, the rest unchanged |
| Utils.CapitalizeIdempotent | app/utils/utils.ts:210-215 | capitalizing twice is capitalizing once |
| PassStatistics.GetPassStats | app/utils/utils.ts:164-208 | counts: total is the number of passes and personal plus official is too; each group's count, duration seconds and accumulated instant equal the independent per-group sums; each duration is canonical and is the interval from now to the group's instant; `last` is the greatest start in the group and absent iff the group is empty |
| PassStatistics.FoldTallies | app/utils/utils.ts:167-191 | from any state whose durations match its instants, folding passes adds each group's count and elapsed seconds and takes the later of the old and the group's latest start |
| PassStatistics.LatestInIsLatest | app/utils/utils.ts:181-185 | the reference latest start is a start of some pass in the group, no pass in the group starts later, and it is absent iff the group is empty |
| PassStatistics.CountsPartition | app/utils/utils.ts:189-190 | every pass is counted in total and in exactly one of personal and official |
| PassStatistics.SecondsPartition | app/utils/utils.ts:189-190 | personal and official elapsed seconds add up to the total |
| PassStatistics.Later | app/utils/utils.ts:181-185 | the new `last` is the maximum of the old one (when present) and the pass's start |
| PassStatistics.EmptyPassStats | app/utils/utils.ts:193-206 | no passes give zero counts, no latest start, zero durations and every instant at now |
| PassStatistics.StepCommutes | app/utils/utils.ts:168-191 | folding two passes in either order gives the same state |
| PassStatistics.PassStatsOrderIndependent | app/utils/utils.ts:164-208 | the statistics of two lists holding the same passes are equal, whatever the order |
| PassStatistics.TwoClosedPasses | app/utils/utils.ts:164-208 | a 4:05 personal walk and a later 24:05 official walk give counts 2/1/1, durations 4:05, 24:05 and 28:10, and the official start as the latest total and official start |
| PassStatistics.OpenPassNinetySeconds | app/utils/utils.ts:170-173 | an open pass that started 90 seconds before now adds 1:30 to its group and to the total |
| Folds.ReducePermutation | app/utils/utils.ts:167 | a reducer whose steps commute gives the same result for any reordering of its input |
| Folds.ReduceSimulation | app/components/hallPassHistoryCard.tsx:39-72 | two reducers run over the same input keep any relation that each step preserves |
| UserSettingsHook.UseUserSettings | app/hooks/useUserSettings.ts:16-19 | without root settings the result is the defaults; otherwise it has the keys of both, root values win and defaults fill the rest |
| UserSettingsHook.AsUserSettingsRoundTrip | app/hooks/useUserSettings.ts:4-8 | the `{ warning, critical, expandPassLog }` object of a settings value reads back as that value, and any object that reads as a value agrees with that value's object on all three keys |
| UserSettingsHook.NoRootSettingsGivesDefaults | app/hooks/useUserSettings.ts:10-19 | with no root settings the hook yields warning 5, critical 10 and `expandPassLog` false |
| UserSettingsHook.MergeKeepsKnownKeys | app/hooks/useUserSettings.ts:16-19 | the result always carries warning, critical and expandPassLog |
| UserSettingsHook.PartialOverride | app/hooks/useUserSettings.ts:18 | root settings that set only the warning keep the default critical and pass-log flag |
| TimeElapsed.FixedLimitStatus | app/hooks/useTimeElapsed.ts:5-27 | "error" iff any unit from hours up is nonzero or minutes reach 10; "warning" iff no such unit and minutes lie in [5, 10); zero minutes is good |
| TimeElapsed.FixedLimitIsDefaultStatus | app/hooks/useTimeElapsed.ts:12-27 | the fixed-limit copy agrees with `getDurationStatus` at the default settings, reading "error" as "critical" |
| TimeElapsed.HasOpen | app/hooks/useTimeElapsed.ts:28 | true iff some interval has no end |
| TimeElapsed.HasOpenIgnoresClosed | app/hooks/useTimeElapsed.ts:28 | adding a closed interval does not change whether any interval is open |
| TimeElapsed.EntryOf | app/hooks/useTimeElapsed.ts:33-42 | an entry's duration is canonical and spans start to end, or to now when open; its status is that of its own duration |
| TimeElapsed.CreateDurations | app/hooks/useTimeElapsed.ts:29-43 | one entry per interval, in order, each the entry of its own interval |
| TimeElapsed.ClosedEntriesIgnoreNow | app/hooks/useTimeElapsed.ts:28-57 | when no interval is open the entries are the same at every instant, so the timer has nothing to update |
| TimeElapsed.EntryStatusAtDefaults | app/hooks/useTimeElapsed.ts:59-64 | every returned status equals the general classifier's status at the default settings |
| HistoryCard.GetStatString | app/components/hallPassHistoryCard.tsx:21-25 | the line reads back as the count's digits, then " walk " for one walk and " walks " otherwise, then a clock reading of the duration's hours, minutes and seconds |
| HistoryCard.CardFold | app/components/hallPassHistoryCard.tsx:39-72 | the card's accumulator equals the `getPassStats` one in counts, instants and the latest total and personal starts, and never sets the latest official start |
| HistoryCard.HistoryCardView | app/components/hallPassHistoryCard.tsx:27-86 | an empty list shows the not-walked message; otherwise the counts and durations equal those of `getPassStats`, total = personal + official = number of passes, each duration carries its group's elapsed seconds, the latest total and personal starts are the greatest of their groups, the latest official start stays absent, and the line shows the personal figures |
| Strings.Compare | app/routes/__index/reports/cadets.tsx:26-27 | the comparison is -1, 0 or 1 and is zero exactly for equal strings |
| Strings.CompareIsLexLess | app/routes/__index/reports/cadets.tsx:26-27 | the comparison is negative exactly when the first string is a proper prefix of the second or has the smaller character at the first difference |
| Strings.CompareAntisymmetric | app/routes/__index/reports/cadets.tsx:26-27 | swapping the strings negates the comparison |
| Strings.CompareTransitive | app/routes/__index/reports/cadets.tsx:26-27 | "not after" is transitive |
| Strings.Lower | app/routes/__index/reports/cadets.tsx:26-27 | lower-casing keeps the length and lower-cases each character |
| Reports.NameCmp | app/routes/__index/reports/cadets.tsx:24-29 | zero iff lower-cased first and last names agree; negative iff the first name comes first, or first names agree and the last name comes first |
| Reports.NameCmpAntisymmetric | app/routes/__index/reports/cadets.tsx:24-29 | swapping the students exactly negates the name comparison |
| Reports.NameOrderPreorder | app/routes/__index/reports/cadets.tsx:24-29 | the name comparison is a total preorder |
| Reports.DirectionFactor | app/routes/__index/reports/cadets.tsx:58 | the direction factor is 1 or -1, and it is -1 exactly when the query has a "desc" value that is not empty |
| Ordering.ThenByPreorder | app/routes/__index/reports/cadets.tsx:39 | breaking the ties of one total preorder with another gives a total preorder |
| Ordering.ScaledPreorder | app/routes/__index/reports/cadets.tsx:75 | multiplying a total preorder by 1 or -1 keeps it one |
| Ordering.SameSignPreorder | app/routes/__index/reports/cadets.tsx:74-94 | a comparator agreeing in sign with a total preorder is one |
| Ordering.Sort | app/routes/__index/reports/cadets.tsx:74-94 | sorting permutes its input (that it orders and is stable is stated by `Ordering.SortSorted` and `Ordering.SortStable`) |
| Ordering.SortSorted | app/routes/__index/reports/cadets.tsx:74-94 | under a total preorder, no element of the sorted output comes after a later one |
| Ordering.InsertTies | app/routes/__index/reports/cadets.tsx:74-94 | under a total preorder, insertion puts an element at the front of its tie class and leaves every tie class otherwise unchanged |
| Ordering.SortStable | app/routes/__index/reports/cadets.tsx:74-94 | under a total preorder, the elements that tie with any given element come out in their input order |
| CadetsReport.ToStat | app/routes/__index/reports/cadets.tsx:62-72 | a row keeps its student and carries the statistics of that student's own passes: the counts split the passes, and the durations are canonical with the group's elapsed seconds |
| CadetsReport.Rows | app/routes/__index/reports/cadets.tsx:62-72 | one row per student, in order |
| CadetsReport.CadetComparator | app/routes/__index/reports/cadets.tsx:74-94 | a comparator is chosen exactly for the eight known sort keys |
| CadetsReport.CadetComparatorPreorder | app/routes/__index/reports/cadets.tsx:31-52 | every comparator the loader can choose, in either direction, is a total preorder |
| CadetsReport.CadetsLoader | app/routes/__index/reports/cadets.tsx:54-97 | the output permutes the rows; an unknown key leaves them in input order; a known key sorts them by its comparator, and rows that tie keep their input order |
| CadetsReport.LoaderRowsComeFromStudents | app/routes/__index/reports/cadets.tsx:62-94 | every output row is the row of some input student |
| CadetsReport.CadetDescendingIsReverse | app/routes/__index/reports/cadets.tsx:74-75 | descending by name compares every pair as ascending does with the pair swapped |
| CadetsReport.PeriodDescendingKeepsNameTieBreak | app/routes/__index/reports/cadets.tsx:76-81 | descending turns round only the period comparison; students of one period compare by ascending name in both directions |
| CadetsReport.SortedByCount | app/routes/__index/reports/cadets.tsx:31-40 | sorted by a count column, counts rise (ascending) or fall (descending), and equal counts are in ascending name order either way |
| CadetsReport.SortedByDuration | app/routes/__index/reports/cadets.tsx:42-52 | sorted by a duration column, canonical durations rise or fall in elapsed seconds with the direction, and equal durations are in ascending name order either way |
| CadetsReport.LoaderDurationOrder | app/routes/__index/reports/cadets.tsx:88-93 | under a duration key the loader's output orders students by that group's elapsed seconds, longest first when descending, ties by ascending name |
| CadetsReport.LoaderCountOrder | app/routes/__index/reports/cadets.tsx:82-87 | under a count key the loader's output orders students by that group's number of passes, most first when descending, ties by ascending name |
| WalksReport.ToRow | app/routes/__index/reports/walks.tsx:44-57 | a row keeps its student; its duration is canonical and spans start to end, or to now when the pass is open |
| WalksReport.WalkRows | app/routes/__index/reports/walks.tsx:44-57 | one row per pass, in order |
| WalksReport.WalkComparator | app/routes/__index/reports/walks.tsx:60-71 | a comparator is chosen exactly for "cadet", "period" and "duration" |
| WalksReport.WalkComparatorPreorder | app/routes/__index/reports/walks.tsx:31-34 | every comparator the loader can choose, in either direction, is a total preorder |
| WalksReport.WalksLoader | app/routes/__index/reports/walks.tsx:36-75 | the output permutes the rows; an unknown key leaves them in input order; a known key sorts them by its comparator, and rows that tie keep their input order |
| WalksReport.DurationDescendingKeepsNameTieBreak | app/routes/__index/reports/walks.tsx:31-34 | descending turns round only the duration comparison; equal durations compare by ascending name in both directions |
| WalksReport.LoaderPeriodOrder | app/routes/__index/reports/walks.tsx:62-67 | under "period" the loader's output orders passes by period, reversed when descending, and passes of one period are in ascending name order either way |
| WalksReport.SortedByDuration | app/routes/__index/reports/walks.tsx:31-34 | rows sorted by duration rise or fall in elapsed seconds with the direction, equal durations in ascending name order |
| WalksReport.LoaderDurationOrder | app/routes/__index/reports/walks.tsx:69-71 | under "duration" the loader's output orders passes by elapsed seconds, longest first when descending, ties by ascending name |
| SearchParams.ParseQuery | app/routes/__index/reports/cadets.tsx:56-58 | parsed names hold no "&" or "=", and values hold no "&" |
| SearchParams.Get | app/routes/__index/reports/cadets.tsx:57-58 | a lookup is absent iff no pair has the name; otherwise it returns the value of the first pair with that name |
| SearchParams.NameValueOfPair | app/routes/__index/reports/cadets.tsx:57-58 | splitting "name=value" at its first "=" gives the name and value back |
| SearchParams.ParseTwoPairs | app/components/common/sortableHeader.tsx:26 | two serialised pairs joined by "&" parse back to both pairs, in order |
| SortableHeader.NextDesc | app/components/common/sortableHeader.tsx:22 | a column other than the current one never asks for descending order |
| SortableHeader.LinkRoundTrip | app/components/common/sortableHeader.tsx:26 | the link's query reads back as the column's key, with "desc=1" exactly when descending was asked for |
| SortableHeader.ClickActiveColumnFlipsDirection | app/components/common/sortableHeader.tsx:20-26 | clicking the active column keeps the key and negates the loader's direction factor |
| SortableHeader.ClickOtherColumnAscends | app/components/common/sortableHeader.tsx:22-26 | clicking any other column sorts by it with direction factor 1 |
| SortableHeader.ArrowIcon | app/components/common/sortableHeader.tsx:33-41 | down iff the column is active and "desc" is set to a non-empty value; up iff active and it is not |
| SortableHeader.ArrowMatchesDirection | app/components/common/sortableHeader.tsx:33-41 | on the active column, the down arrow shows iff the loader sorts descending, the up arrow iff ascending |
| SortableHeader.DefaultCadetSortHasInactiveHeader | app/components/common/sortableHeader.tsx:20-33 | with no sort key the loader sorts by "cadet" while that header stays inactive, shows the both-ways arrow and links to ascending |
| AdminRoute.GetWarningError | app/routes/__index/admin.tsx:13-18 | no error iff the warning is a positive number; "required" iff it is zero or NaN; "must be positive" iff negative |
| AdminRoute.GetCriticalError | app/routes/__index/admin.tsx:20-26 | no error iff the critical value is positive and not at most the warning; "required" iff zero or NaN; "must be positive" iff negative; "must be greater than warning" iff positive and at most the warning |
| AdminRoute.ValidationAcceptsOrderedThresholds | app/routes/__index/admin.tsx:13-26 | both validators pass exactly when 0 < warning < critical |
| AdminRoute.InvalidWarningHidesOrderError | app/routes/__index/settings.tsx:53-56 | when the warning is invalid, the "greater than warning" message never appears, though the critical value is compared with it |
| AdminRoute.DefaultsPassValidation | app/hooks/useUserSettings.ts:10-14 | the default thresholds pass both validators and are what the hook yields with no root settings |
| AdminRoute.AdminAction | app/routes/__index/admin.tsx:35-66 | the errors come back iff a validator objects; saved settings are the submitted numbers with 0 < warning < critical, and `expandPassLog` is true iff the field is exactly "true" |
| AdminRoute.SavedSettingsStored | app/routes/__index/admin.tsx:60-63 | a successful save hands `upsertSetting` an object with exactly the keys warning, critical and expandPassLog, holding the form's two numbers and whether the toggle read "true", and that object reads back as the saved settings |
| AdminRoute.MissingFieldIsRequired | app/routes/__index/admin.tsx:39-40 | a missing warning or critical field reads as 0 and is always sent back as "required" |
| SettingsRoute.SettingsAction | app/routes/__index/settings.tsx:39-67 | a missing or non-text field fails its invariant; otherwise the errors come back iff a validator objects, and the writes are the two typed texts, issued only when 0 < warning < critical |
| SettingsRoute.SettingsAgreesWithAdmin | app/routes/__index/settings.tsx:17-61 | on the same two texts the settings page and the admin page reach the same verdict with the same messages |

## Left out

- Database access through Prisma is left out. That covers loading students,
  passes and settings, and the upsert calls. The actions return what they
  would write.
- Authentication (`requireUserId`), sessions, environment variables and the
  Remix route-data hooks are left out.
- React rendering, toasts, icons and the other purely presentational
  components are left out.
- `formatDuration` and the `format`-based date helpers are left out: they are
  locale formatting in a foreign library. So is the `formatDate` of the latest
  start on the history card.
- The one-second timer in the elapsed-time hook is left out. Each run of the
  mapping is modelled with its own "now".
- `CadetsReport.Rows` reads one "now" for every student, while the cadets
  loader calls `getPassStats`, and so `new Date()`, once per student. The
  clock advancing during one loader run is not modelled.
- `DateFns.IntervalToDuration`: calendar months, years and daylight-saving
  changes are not modelled. The interval is split by fixed-length days, and
  reversed intervals give the same duration as forward ones.
- `DateFns.Add`: months and years are given fixed lengths. The model only
  ever adds canonical durations, which have neither.
- Instants are whole seconds; milliseconds are not modelled.
- `Strings.Compare`: `localeCompare` is modelled as order on Unicode scalar
  values. Locale collation rules are not modelled, and neither is UTF-16
  code-unit order: a character above U+FFFF, such as U+1F600, sorts after
  U+FF01 here although its first code unit (0xD83D) is below 0xFF01.
- `Strings.Lower`: case mapping covers ASCII letters only.
- `Utils.CapitalizeString`: only ASCII letters are upper-cased, so "é" stays
  as it is, and the one-to-many mapping of "ß" to "SS" is not modelled. A
  lone surrogate cannot occur, since a Dafny string holds no surrogates.
- `Utils.ValidateEmail`: lengths count Unicode scalar values, not UTF-16
  code units. A string such as "a@" followed by one character above U+FFFF
  has three characters here and fails, while its JavaScript length is four
  and it passes.
- `Utils.CompareDurations`: every duration has all seven fields, so the
  `?? 0` for a missing field is not modelled.
- The string-to-number conversion `+text` is a parameter of the actions.
  Infinite values are not modelled.
- `SearchParams.ParseQuery`: percent-decoding and "+" as a space are not
  modelled. The link round trip is stated only for keys without "&", "%",
  "+" or "#".
- The settings page passes `upsertSetting` a name and a text value, while
  the model function takes one `{ warning, critical, expandPassLog }`
  object. The settings action is modelled up to the two write requests;
  what the database then holds is not modelled.
- `Ordering.Sort`: the engine's sorting algorithm is not modelled; an
  insertion sort proved stable stands in for it. `Array.prototype.sort` has
  been stable since ECMAScript 2019, and for a total preorder every stable
  sort gives the same order.
- The root loader calls `.reduce` on the single settings row that
  `getSettings` returns (a `findFirst`) and never parses the JSON text that
  `upsertSetting` stores. The model does not connect stored settings to the
  settings the hook reads; `UserSettingsHook.UseUserSettings` takes the root
  settings as a parameter.
- `oxygenLevel.tsx` (floating-point percentages) and the seed script are
  left out.
