# bufi: the sheet codec and list shaping, in Dafny

bufi is a household expense tracker. A small Express server reads and
appends rows of a Google Sheet. A React client shows a budget table, with
one progress bar per category and a drill-down list of that category's
latest expenses. The client also shows the list of all expenses and a form
that adds one.

This project models the part of bufi that turns sheet rows into what the
screens show, and the row that the server writes:

- **JavaScript runtime** (`js_runtime.dfy`). A cell is text or
  `undefined`, the value of an index past the end of a short row. A number
  is an integer or NaN. The model covers `parseInt` as ECMA-262, section
  19.2.5 defines it: leading white space, one sign, the `0x` prefix and the
  longest digit prefix. It also covers NaN-absorbing `+`, `-` and
  `Math.abs`, and the decimal rendering of an integer in a template
  literal.
- **Dates** (`dates.dfy`). This covers moment's `DD/MM/YYYY` and
  `YYYY-MM-DD` parsing on the strict shape, `format("DD/MM/YYYY")`, and
  `valueOf()` as milliseconds since the epoch at midnight UTC.
- **In-place array operations** (`array_sort.dfy`). `Array.prototype.sort`
  is modelled as a stable insertion sort by a numeric key; ECMAScript 2019
  requires sort to be stable. `Array.prototype.reverse` reverses in place.
- **Sheet rows** (`sheet_rows.dfy`). This holds the cell lookup, the date
  of an expense row, the budget-row decoding that both clients share, and
  `reduce` summation.
- **Main component** (`app.dfy`). `getProgressColor` and `getExpenses`: the
  rows are numbered by a counter, mapped into an array, sorted by date
  (stable) and reversed. `getBudget`: the expense lines, the income total
  over rows marked `INCOME`, and the expense total. `BudgetRow`: the
  remainder, the caption, and whether the green bar is drawn, plus the
  drill-down (filter by category, first ten).
- **Store** (`store.dfy`). The two `transformResponse` callbacks. The
  budget callback splits the rows into income lines (amount spent is NaN)
  and expense lines (amount at least 0). The expense callback is the same
  pipeline as `getExpenses`, but keeps timestamps. The counter slice is a
  class with `increment` and `decrement`.
- **Server** (`server.dfy`). The sheet ranges, and the five-cell row that
  `POST /expense` appends. The model also states what each client decodes
  from that row when it reads it back.

An expense row whose date does not parse has no place in the model's
listing: `GetExpenses` and `TransformExpenses` require every date cell to
name a day (see "Left out").

## Model

| member | source | states |
|---|---|---|
| JsRuntime.Abs | src/App.tsx:66 | `Math.abs` keeps NaN as NaN, and otherwise gives a value at least 0 equal to the input or its negation |
| JsRuntime.Add | src/App.tsx:81 | the sum is a number exactly when both operands are, and then it is their sum |
| JsRuntime.Sub | src/App.tsx:98 | the difference is a number exactly when both operands are, and then it is their difference |
| JsRuntime.NatToString | src/App.tsx:115 | the rendering is non-empty and all decimal digits, with no leading zero except for 0 itself |
| JsRuntime.IntToString | src/App.tsx:115-117 | a template literal renders an integer as non-empty text that starts with '-' exactly when the integer is negative |
| JsRuntime.NumToString | src/App.tsx:115-117 | a template literal renders a number as "NaN" exactly when it is NaN |
| JsRuntime.ParseIntString | src/store.ts:26-27 | `parseInt` of empty or all-white-space text is NaN |
| JsRuntime.ParseInt | src/App.tsx:46 | `parseInt(undefined)` is NaN |
| JsRuntime.DigitsValueOfNatToString | src/App.tsx:115 | reading back the digits of a rendered natural number gives that number |
| JsRuntime.ParseUnsignedOfNatToString | src/store.ts:47 | `parseInt`'s digit scan stops at the end of a rendered number and reads its value |
| JsRuntime.ParseIntOfIntToString | src/App.tsx:115-118 | `parseInt` of a rendered integer, followed by anything that cannot extend it, gives that integer back |
| JsRuntime.ParseIntInverse | src/store.ts:47 | `parseInt` of a cell that holds an integer's decimal text gives that integer |
| JsRuntime.ParseIntOfWord | src/store.ts:32 | text that starts with something other than white space, a sign or a digit is NaN to `parseInt` |
| JsRuntime.ParseIntOfUndefined | src/App.tsx:46 | `parseInt(undefined)` reads the text "undefined" and is NaN, so the model's shortcut for a missing cell is exact |
| Seqs.Filter | src/App.tsx:70 | `filter` keeps a sub-multiset of the input, no longer than the input, and every kept element passes the test |
| Seqs.Take | src/App.tsx:107 | `slice(0, n)` is the prefix of length min(n, length) |
| Seqs.Map | src/store.ts:45 | `map` keeps the length and puts the image of element k at position k |
| Seqs.TakeLeavesLater | src/App.tsx:107 | in an ordered list, every element left out of the first n comes after each of them |
| Seqs.FilterConcat | src/store.ts:32-33 | filtering distributes over concatenation |
| Seqs.FilterMultiset | src/store.ts:32-33 | a filter keeps each passing element as often as it occurs and drops every other element |
| Seqs.FilterPartition | src/store.ts:31-34 | when every element passes exactly one of three tests, the three filters keep as many elements as there are |
| Seqs.SameCount | src/App.tsx:107 | two orderings of the same elements keep equally many under a filter |
| Seqs.FilterAll | src/App.tsx:80-81 | all kept elements have a property if and only if all input elements that pass the filter have it |
| Seqs.FilterKeepsOrder | src/App.tsx:107 | filtering a sorted list gives a sorted list |
| Seqs.MapMultiset | src/store.ts:45 | mapping two orderings of the same elements gives two orderings of the same images |
| Seqs.SortedPermutationsEqual | src/App.tsx:51-52 | two orderings of the same elements that are both sorted by an asymmetric relation are equal |
| Dates.ParseDmy | src/App.tsx:44 | a `DD/MM/YYYY` parse that succeeds names a real day |
| Dates.ParseIso | server/src/foo.ts:61 | a `YYYY-MM-DD` parse that succeeds names a real day |
| Dates.FormatDmy | server/src/foo.ts:61 | the formatted day is ten characters, with slashes at positions 2 and 5 |
| Dates.ParseFormatDmy | server/src/foo.ts:61 | parsing a formatted day gives the same day back |
| Dates.FormatOfParsedIso | server/src/foo.ts:61 | reformatting a form date reorders its day, month and year digits around slashes |
| Dates.TimestampOrder | src/App.tsx:51 | between valid days, timestamp order is calendar order, and equal timestamps mean the same day |
| Dates.Timestamp | src/App.tsx:51 | `valueOf()` of a day is a whole number of days in milliseconds (midnight) |
| ArraySort.SortByKey | src/App.tsx:51 | the sort permutes the array, which ends up ordered by key; elements with equal keys keep their input order (stability) |
| ArraySort.Reverse | src/App.tsx:52 | after the in-place reverse, element k is the old element at length-1-k, and the multiset is unchanged |
| SheetRows.CellAt | src/App.tsx:45-48 | `r[i]` is defined exactly for i below the row length, and is then the cell's text |
| SheetRows.RowDate | src/App.tsx:44 | a row's date, when it parses, comes from a first cell that exists and names a real day |
| SheetRows.IsExpenseLine | src/App.tsx:70 | a NaN amount is never an expense line (`NaN >= 0` is false) |
| SheetRows.DecodeBudgetEntry | src/App.tsx:63-69 | a decoded budget limit that is a number is at least 0 (`Math.abs`) |
| SheetRows.DecodeBudget | src/store.ts:23-29 | entry k is row k decoded, and there are as many entries as rows |
| SheetRows.DecodeBudgetConcat | src/store.ts:23-29 | decoding a split sheet gives the two parts' entries one after the other |
| SheetRows.DatesValidAppend | server/src/foo.ts:59-67 | appending a row with a valid date keeps every date valid |
| SheetRows.Sum | src/App.tsx:81 | the `reduce` sum is a number exactly when every term is one, and is at least 0 when every term is |
| SheetRows.SumConcat | src/App.tsx:83 | the sum of a concatenation is the sum of the two sums |
| App.ProgressColor | src/App.tsx:23-33 | "info" exactly at 0, "danger" exactly above 100, "warning" otherwise (negative values included) |
| App.DecodedAt | src/App.tsx:40-50 | entry k of the mapped rows is row k decoded with id k |
| App.DecodedIds | src/App.tsx:38-43 | the counter numbers the rows 0, 1, 2, ... in sheet order |
| App.DecodeExpenseRow | src/App.tsx:41-49 | the row read with id `id` keeps that id and a real day; each of category, who and description is `undefined` exactly when the row is too short to hold it, and a numeric amount needs the third cell |
| App.Decoded | src/App.tsx:40-50 | one decoded expense per row |
| App.DecodedAppend | src/App.tsx:38-50 | a row added at the end of the sheet is decoded last, with the old row count as its id, and the rows before it decode as before |
| App.DecodedIdsIncrease | src/App.tsx:38-50 | the ids of the mapped rows increase along the sheet, which makes them a tie-breaking tag for the stable sort |
| App.NumberRows | src/App.tsx:38-50 | the `map` loop with its counter fills a fresh array with exactly the decoded rows |
| App.GetExpenses | src/App.tsx:35-54 | the listing is a permutation of the decoded rows, newest day first, with same-day rows in reverse sheet order |
| App.ReversedIsNewestFirst | src/App.tsx:51-52 | reversing a list sorted by timestamp and then by id gives newest first |
| App.GetExpensesIds | src/App.tsx:38-50 | the listing has one expense per row: ids are below the row count, and row k appears with id k |
| App.PermutedIds | src/App.tsx:38-53 | any reordering of the numbered rows has as many entries, ids below the row count, and every row |
| App.NewerFirstIsAsymmetric | src/App.tsx:51-52 | no two expenses are each listed before the other |
| App.GetExpensesDetermined | src/App.tsx:51-53 | any two listings that meet `GetExpenses`'s contract are equal |
| App.GetBudget | src/App.tsx:56-85 | the lines are decoded rows with a numeric amount at least 0; the expense total is a number at least 0; an income total that is a number is at least 0 |
| App.GetBudgetLines | src/App.tsx:62-70 | the lines are exactly the decoded rows that are expense lines, with their multiplicities |
| App.GetBudgetIncomeDefined | src/App.tsx:72-81 | the income total is a number if and only if every row marked INCOME has a numeric limit |
| App.IncomeTotal | src/App.tsx:72-81 | the income total over rows marked INCOME, when it is a number, is at least 0 |
| App.IncomeTotalDefined | src/App.tsx:72-81 | the income total is a number if and only if every row marked INCOME has a numeric limit |
| App.KeptLimitsNumeric | src/App.tsx:72-80 | the kept INCOME rows all have numeric limits if and only if every INCOME row of the sheet does |
| App.IncomeTotalConcat | src/App.tsx:72-81 | the income total of a split sheet is the `+` of the two parts' totals |
| App.SpentTotalConcat | src/App.tsx:83 | the expense total of two lists of lines is the `+` of their totals |
| App.IncomeSumDefined | src/App.tsx:72-81 | the sum of the income rows' limits is a number if and only if each of those limits is |
| App.IncomeRowIsNotExpenseLine | src/App.tsx:70-80 | a row marked INCOME never counts as an expense line |
| App.GetBudgetConcat | src/App.tsx:62-84 | for a sheet split in two, the lines are concatenated and each total is the sum of the two parts' totals |
| App.GetBudgetEmpty | src/App.tsx:81-83 | an empty sheet gives no lines and two zero totals |
| App.GetBudgetOneRow | src/App.tsx:72-84 | one row adds its amount spent to the expense total when it is an expense line, and its limit to the income total when marked INCOME, else 0 |
| App.IsIncomeRow | src/App.tsx:80 | a row is INCOME exactly when it has a third cell that is the text "INCOME" (strict equality, so `undefined` never matches) |
| App.BudgetRowView | src/App.tsx:98-143 | remaining = budget - expense; the green bar shows if and only if expense <= budget; the caption starts with the amount spent, and is longer exactly when overspent, when it ends with " (-overrun)" |
| App.LabelReadsBackSpent | src/App.tsx:115-118 | `parseInt` of the caption gives back the amount spent |
| App.CategoryExpenses | src/App.tsx:106-108 | the drill-down holds min(10, count) expenses of the category, newest first, drawn from the decoded rows; every matching expense it leaves out is older than every one it shows |
| App.DrillDown | src/App.tsx:107 | the drill-down holds at most ten expenses, no more than the listing, all of the category |
| App.DrillDownCount | src/App.tsx:107 | the drill-down of any reordering of the decoded rows holds min(10, matching rows) expenses |
| App.DrillDownMembers | src/App.tsx:107 | every drill-down expense is of the category, and all are drawn from the decoded rows |
| App.DrillDownOrder | src/App.tsx:107 | the drill-down of a newest-first listing is newest first |
| App.DrillDownLeftOut | src/App.tsx:107 | every expense of the category that the drill-down leaves out is older than each one it shows |
| App.LeftOutIsOlder | src/App.tsx:107 | an expense of the category that is not among the first ten comes after each of them |
| Store.TransformBudget | src/store.ts:22-35 | the income lines have a NaN amount spent; the expense lines have a numeric amount at least 0; both are drawn from the decoded rows |
| Store.HasNoAmount | src/store.ts:32 | an income line (`isNaN(expense)`) is never an expense line |
| Store.TransformBudgetExact | src/store.ts:32-33 | each list holds exactly the decoded rows of its kind, with their multiplicities |
| Store.TransformBudgetCount | src/store.ts:31-34 | income lines, expense lines and negative-amount lines together number as many as the rows |
| Store.RowWithoutAmountIsIncome | src/store.ts:32 | a row with a missing or non-numeric third cell is an income line |
| Store.IncomeRowHasNoAmount | src/store.ts:32 | a row marked INCOME has a NaN amount spent |
| Store.IncomeRowsAreIncome | src/store.ts:32 | every row the main component sums as income is an income line here, as often as it occurs |
| Store.ExpenseLinesAgree | src/store.ts:33 | the store's expense lines are the main component's budget lines |
| Store.DecodedEntriesAt | src/store.ts:40-51 | entry k of the mapped rows is row k decoded with id k and the day's timestamp |
| Store.DecodeEntry | src/store.ts:42-50 | the row read with id `id` keeps that id; missing trailing cells are `undefined` as in the main component |
| Store.DecodedEntries | src/store.ts:40-51 | one decoded entry per row |
| Store.NumberEntries | src/store.ts:40-51 | the `map` loop with its counter fills a fresh array with exactly the decoded rows |
| Store.TransformExpenses | src/store.ts:39-55 | the result is a permutation of the decoded rows, largest timestamp first, and rows with equal timestamps are in reverse sheet order |
| Store.ReversedIsListed | src/store.ts:52-53 | reversing a list sorted by timestamp and then by id lists the larger timestamp first |
| Store.TransformExpensesDetermined | src/store.ts:52-53 | any two results that meet `TransformExpenses`'s contract are equal |
| Store.ListedBeforeIsAsymmetric | src/store.ts:52-53 | no two entries are each listed before the other |
| Store.DecodedAgree | src/store.ts:42-51 | the store decodes each row as the main component does, with the day replaced by its timestamp |
| Store.ListingsAgree | src/store.ts:39-55 | the store's listing is the main component's listing, position by position, with days as timestamps |
| Store.CounterSlice.constructor | src/store.ts:62-64 | the count starts at 0 |
| Store.CounterSlice.Increment | src/store.ts:66-68 | the count goes up by one |
| Store.CounterSlice.Decrement | src/store.ts:69-71 | the count goes down by one |
| Server.RangesFitRows | server/src/foo.ts:28-57 | the ranges read "poop!A3:E" and "Budget!A3:C"; the two append ranges (lines 52 and 57) equal the read range (line 28); the expense range is five columns wide, as wide as an appended row, and the budget range three |
| Server.DateCell | server/src/foo.ts:61 | the date cell parses back to the form's day; an unparsable form date writes "Invalid date" |
| Server.EncodeRow | server/src/foo.ts:59-67 | an appended row has five cells |
| Server.DateCellReorders | server/src/foo.ts:61 | the date cell is the form date's day, month and year digits between slashes |
| Server.ReadBack | server/src/foo.ts:26-30 | a row read back is the written row without its trailing empty cells: a prefix that ends in a non-empty cell, every dropped cell empty |
| Server.ReadCell | server/src/foo.ts:64-65 | an empty cell with only empty cells after it reads back as `undefined`; any other cell reads back as its text |
| Server.EncodeRowRoundTrip | server/src/foo.ts:59-67 | decoding an appended row as read back gives the request's day, category and amount; the payer and description come back as their text, or `undefined` when empty at the end of the row |
| Server.InvalidDateRow | server/src/foo.ts:61 | a request with an unparsable date writes a row whose date no client can read back |
| Server.AppendedExpenseIsLast | server/src/foo.ts:50-67 | after an append, the decoded log read back is the old one plus the new expense, numbered with the old row count, with an empty trailing payer or description read as `undefined` |

## Left out

- The network and the UI are not modelled. This covers axios, the Express
  routes, the Google Sheets client and its credentials, React state and
  hooks, and rendering. The row lists that the sheet returns are
  parameters.
- App.ProgressColor takes the percentage as an exact real. The
  floating-point cases of `100 * (expense / budget)` are not modelled:
  NaN, where every comparison fails and the colour is "danger", and
  Infinity.
- Server.AppendedExpenseIsLast and Server.EncodeRowRoundTrip assume that
  a written text cell reads back as the same text. With `USER_ENTERED`
  input the sheet parses each cell as if typed in, so a category, payer
  or description such as "1/2" or "12" reads back as a date or a
  number's display text; that reinterpretation is not modelled. Trailing
  empty cells are modelled (`Server.ReadBack`).
- The sheet's display formatting of numbers and dates is not modelled.
  The model assumes that a stored integer reads back as its plain decimal
  digits, and that a written `DD/MM/YYYY` cell reads back unchanged
  (`USER_ENTERED` input).
- App.GetExpenses and Store.TransformExpenses require every date cell to
  name a day. With an invalid date the comparator returns NaN, and
  `sort`'s order is then implementation-defined. moment's lenient parsing
  (one-digit days, trailing text) is also not modelled: dates are parsed
  on the strict two/two/four-digit shape only.
- Time zones are not modelled. `valueOf()` is taken at midnight UTC. A
  fixed local offset moves every timestamp by the same amount and does not
  change the order.
- Numbers are unbounded integers. The model leaves out precision loss
  above 2^53, exponent notation in rendering, and negative zero.
- `parseInt` is modelled for radix 10 with `0x` detection. The explicit
  radix argument is never used in the source.
- App.GetBudget applies the `INCOME` filter to the rows before decoding
  them, while the source decodes first and then filters on the raw third
  cell. The two give the same list.
- Server.EncodeRow takes the amount as an integer. The form fills it from
  `parseInt` of a required number field, so a NaN amount, which would be
  sent as `null`, is not modelled.
- The code strips no commas from amounts, skips no one-column rows, has
  no date filter and no delete endpoint, and uses three colours (both
  middle tiers are "warning"); the model follows the code.
