# finance-manager ledger core in Dafny

This project models the logic of the finance-manager single-page ledger: a list of
income and expense records plus a monthly budget, kept in the browser. Three parts of the
program are modelled as pure functions over immutable data:

- the input helpers of `utils.js`:
  - `parseMoney`, `sanitizeText` and `assertTxnShape`;
  - `niceCeil` and `escapeHTML`.
- the local-storage adapter of `storage.local.js`, as state transformers over a `Store`
  (a sequence of `Txn` records and a month-to-budget map):
  - listing, upsert and delete;
  - budgets;
  - the CSV writer, the two-state CSV line parser and the import merge.
- the arithmetic that `app.js` does between DOM writes:
  - the record built by the transaction form and the value saved by the budget box;
  - income, expense and savings totals, and the per-category expense totals;
  - the budget percentage and its over/near status;
  - the daily series of the trend chart, the top of its value axis, and its ticks.

Modules follow the program:

- `Text`: strings, filtering, splitting and joining.
- `Numbers`: exact decimals, JavaScript `Number()` on text and `String()` on numbers.
- `Txns`: the record type.
- `Utils`: the helpers of `utils.js`.
- `Sorting`: the stable sort behind `Array.prototype.sort`.
- `Csv`: the CSV writer and parser.
- `Storage`: the adapter.
- `RoundTrip`: import after export.
- `Summary`: the totals and the budget status.
- `Trend`: the chart's numbers.
- `Forms`: the two handlers that write to the store.
- `Examples`: concrete cases from the code's behaviour.

Numbers are exact decimals: `NaN`, or `Dec(units, scale)` with value
`units / 10^scale`. Every finite value `Number()` can produce from the text the program
parses is one of these, except `-0`; `Infinity` and `-0` are not modelled. Because the type is exact, the model can state that writing a number with
`String()` and reading it back with `Number()` returns the same number. The record field
`type` is called `kind`, since `type` is a Dafny keyword. It stays a string, because the
code tells "not income" apart from "exactly expense". The code behaves as follows:

- `niceCeil(23)` is 50 and `niceCeil(120)` is 200. The steps are 1, 2, 5 and 10 times a
  power of ten; there is no 2.5 or 1.5 step.
- The expense total, and each category total, sums every record whose type is not
  `income`. The trend chart's expense series only counts type `expense`.
- With commas only, `parseMoney` turns just the first comma into a point. So `"1,234,567"`
  is NaN, and `"1.234,56"` drops its comma and reads as 1.23456.
- `sanitizeText` trims before it truncates, so the cut can leave one trailing space. It
  is idempotent only when that does not happen.
- Saving an edit whose record was deleted meanwhile changes nothing: `upsertTxn` maps by
  id and does not append.
- Import coerces an empty amount to 0, but text such as `12,50` or `$5` to NaN.

## Model

| member | source | states |
|---|---|---|
| Utils.ParseMoney | utils.js:10-18 | Text with no money characters reads as 0. Otherwise the result is a number exactly when the normalised text is an optional minus, then digits with at most one point and at least one digit; the number is that text's value. In every other case the result is NaN. |
| Utils.MoneyNumber | utils.js:16-17 | `Number()` on text over the alphabet `0-9 , . -` gives a number exactly when the text is empty or money-shaped. The value is the shaped text's value, and empty text is 0. |
| Utils.DotMakesCommasIgnored | utils.js:14 | When a point survives sanitising, the result equals the result for the input with every comma deleted. |
| Utils.SingleCommaIsDecimalPoint | utils.js:15 | With exactly one comma and no point, the comma acts as the decimal point. |
| Utils.SeveralCommasAreNaN | utils.js:15-17 | Two or more commas and no point give NaN, because only the first comma is replaced. |
| Utils.SeveralPointsAreNaN | utils.js:14-17 | Two or more points give NaN. |
| Utils.SqueezeShape | utils.js:21 | Collapsing whitespace runs and trimming leaves only plain spaces, never two in a row. The non-space characters are kept, in order. |
| Utils.CollapseFixed | utils.js:21 | Collapsing whitespace runs leaves a text with only single plain spaces unchanged. |
| Utils.SanitizeText | utils.js:20-21 | The result has at most `max` characters and is a prefix of the collapsed and trimmed text. It equals that text when it fits, and never starts with whitespace. |
| Utils.SanitizeShape | utils.js:20-21 | The result has only plain spaces, never two in a row. Its non-space characters are a prefix of the input's. |
| Utils.SanitizeIdempotent | utils.js:20-21 | Sanitizing a result again changes nothing when the result does not end in a space. |
| Utils.AssertTxnShape | utils.js:23-32 | A missing record gives "Missing transaction". The check is ok exactly when the date, type, amount, income-savings, category and note checks all hold. Otherwise the message is that of the first failing check in that order. |
| Utils.NiceCeil | utils.js:34-40 | The result is at least `n` and at least 10, and is exactly 10 for `n <= 10`. Above 10 it is one of 1, 2, 5, 10 times the power of ten below `n`: the smallest such step that is at least `n`, which is below 2.5·n. |
| Utils.ScaleUnique | utils.js:36 | The scale is the one power of ten `p` with `p <= n < 10p`. |
| Utils.EscapeHtml | utils.js:42-46 | The output is never shorter than the input and contains none of `<`, `>`, `"` or `'`. |
| Utils.EscapeRoundTrip | utils.js:42-46 | Decoding the five entities gives back the input. |
| Utils.EscapeNothing | utils.js:42-46 | A text with none of the five markup characters is returned unchanged. |
| Numbers.ShowRoundTrip | storage.local.js:78-79 | `Number()` of what `String()` writes for a number gives back that number, NaN included. |
| RoundTrip.CoerceShow | storage.local.js:78-79 | Import's `Number(f \|\| 0)` of an exported amount or savings field gives back the stored value. |
| Storage.Coerce | storage.local.js:78-79 | An empty field coerces to 0. |
| Storage.CoerceRejects | storage.local.js:78-79 | A field holding a non-blank character that is not a digit, letter, point or sign coerces to NaN, not 0. |
| Csv.Esc | storage.local.js:11-14 | A field holding a comma, quote or newline comes out wrapped in quotes. Any other field is unchanged. |
| Csv.FieldsFromParse | storage.local.js:53-67 | A parsed line has one field more than it has commas outside quotes. |
| Csv.RowRoundTrip | storage.local.js:53-67 | Parsing the comma-join of the escaped fields gives back the fields, whatever quotes and commas they hold. |
| Text.SplitJoin | storage.local.js:47 | Splitting a join on a separator the parts do not contain gives back the parts. |
| Sorting.SortBy | storage.local.js:22 | The sort is a permutation of its input, ordered by (date, id). |
| Sorting.SortStable | storage.local.js:22 | Records with equal keys keep their relative order. |
| Storage.ListTxns | storage.local.js:19-23 | The listing holds each record of the month as often as the store holds it, and no others; no month means every record. It is ordered by (date, id). |
| Storage.ListStable | storage.local.js:19-23 | Records sharing a date and an id keep their stored order. Those outside the month are absent. |
| Storage.UpsertTxn | storage.local.js:25-34 | Budgets are untouched. With an id: length and ids are kept, an unknown id changes nothing, and every record carrying that id is replaced by the new one in its place while the others stay as they were. Without an id: the record gets the fresh id and is appended. Distinct ids stay distinct. |
| Storage.UpsertIdempotent | storage.local.js:26-27 | Upserting the same record with an id twice is the same as once. |
| Storage.DeleteTxn | storage.local.js:36-39 | Exactly the records with that id are removed, and every other record keeps its count. The ids lose just that id; an absent id changes nothing. |
| Storage.DeleteKeepsOrder | storage.local.js:36-39 | Deleting from a joined list deletes from each part, and a single record is dropped exactly when it has the id, so the kept records stay in their order. |
| Storage.DeleteAfterUpsert | storage.local.js:25-39 | Deleting an id after upserting a record with that id is the same as deleting it outright. |
| Storage.DeleteUndoesInsert | storage.local.js:28-39 | Deleting a new record by the fresh id it got restores the store. |
| Storage.GetBudget | storage.local.js:87 | An unset month's budget is 0. |
| Storage.SetBudget | storage.local.js:88 | The stored value is the amount when that is a non-negative number, and 0 for NaN or a negative amount. A following read returns it. Records and other months are untouched. |
| Storage.Lines | storage.local.js:47 | Every line of an import is non-empty and holds no line break or carriage return. |
| Storage.IndexOf | storage.local.js:51 | Each header name maps to its last position among the names, as `Object.fromEntries` keeps the later duplicate. |
| Storage.RowTxn | storage.local.js:72-80 | The id is the field or else the fresh id. The date is the field cut to 10 characters. The note is the trimmed field. The type is income exactly on `income`, else expense. The category is the trimmed field, or `General` when that is blank. Amount and savings are the coerced fields. |
| Storage.FindId | storage.local.js:81 | The position is that of the first record with the id, or the length when there is none. |
| Storage.Merge | storage.local.js:81-82 | A row replaces the first record with its id in place, or is appended when the id is new. Every other record, including later ones with the same id, stays where it is. |
| Storage.MergeAll | storage.local.js:69-83 | Rows merged in file order keep every earlier record and id. The ids become the union, and records whose id no row mentions are untouched. |
| Storage.LastRowWins | storage.local.js:69-83 | The last row for each id ends up in the store. |
| Storage.ImportCsv | storage.local.js:46-85 | Budgets are untouched. Text without a non-empty line changes nothing. The ids afterwards are the old ids plus those of the imported rows; a record whose id no row carries stays unchanged in its place. |
| Storage.Imported | storage.local.js:46-80 | The imported records are one per line after the header, in file order, each built from its parsed line with the header's columns and its row's fresh id. |
| Storage.ImportLastRowWins | storage.local.js:81-82 | Of several rows with the same id, the last one is in the store after the import. |
| RoundTrip.RowTxnFields | storage.local.js:72-80 | A record written as a row under the export header is rebuilt exactly, when its fields are already in the form import produces. |
| RoundTrip.ExportImportEmpty | storage.local.js:41-85 | Importing an export into an empty ledger gives back every record in order, for records with distinct ids in the form import produces (trimmed note and category, canonical numbers, no line breaks). |
| RoundTrip.ExportImportSelf | storage.local.js:41-85 | Importing a ledger's own export changes nothing, for the same records as above. |
| RoundTrip.ImportExport | storage.local.js:41-85 | Importing an export of such records into any ledger merges the exported records by id. |
| RoundTrip.TrailingSpaceLost | storage.local.js:75 | A record whose note ends in whitespace is read back with a different note. |
| RoundTrip.FormNoteLost | app.js:63 | A note the submit handler cut just after a space does not survive export and import. |
| RoundTrip.MergeSelf | storage.local.js:81-82 | Merging a ledger's records into itself changes nothing when the ids are distinct. |
| Summary.Tally | app.js:132-144 | Income and savings are summed over income records and expenses over all others. The category map has exactly the categories of non-income records, each holding that category's total. |
| Summary.IncomePlusExpenses | app.js:135-143 | Income plus expenses is the sum of all amounts. |
| Summary.SpendingCategory | app.js:142 | A category is listed exactly when some non-income record has it. |
| Summary.CategoryListShape | app.js:190 | The summary lists each spending category once, in strictly ascending order. |
| Summary.CategoriesAddUp | app.js:140-143 | The category totals add up to the expense total. |
| Summary.Percent | app.js:154 | The percentage is 0 without a budget and never above 100, and never negative when expenses are not. Below 100 it is the spent share in percent rounded to the nearest integer (within one half); it is 100 only when that share is at least 99.5. |
| Summary.PercentMonotone | app.js:154 | More expenses never give a smaller percentage. |
| Summary.Progress | app.js:157-165 | Over, near, within and no-budget each hold exactly under their condition on expenses and budget. |
| Summary.ProgressAgrees | app.js:154-159 | Over shows 100%, near shows 80–100%, and within shows at most 80%. |
| Trend.MonthLength | app.js:204 | A month has 28 to 31 days, with 29 exactly for a leap February. |
| Trend.DaysInMonth | app.js:204 | `new Date(y, m, 0).getDate()` lies between 28 and 31 for any month number. For a month 1 to 12 it is that month's Gregorian length, reading the years 0 to 99 as 1900 to 1999. |
| Trend.YearLength | app.js:204 | The twelve months add up to 366 days in a leap year and 365 otherwise. |
| Trend.MonthRollsOver | app.js:204 | A month number past 12 rolls into the next year. |
| Trend.FebruaryExamples | app.js:204 | February has 29 days in 2024 and 2000 and 28 in 2023, 2100 and year 0. Month 14 of 2023 is February 2024. |
| Trend.MonthNumbers | app.js:203 | A `YYYY-MM` month splits into a year below 10000 and a month below 100. |
| Trend.MonthText | app.js:203 | The `YYYY-MM` text the month picker holds for a year and a month is a month text whose digits spell them. |
| Trend.MonthRoundTrip | app.js:203 | Splitting the text of a year and month gives them back. |
| Trend.DayOf | app.js:210-211 | A record is drawn only on a day between 1 and the month's length. |
| Trend.DayOfIso | app.js:210-211 | On a `YYYY-MM-DD` date the day is the one its last two digits spell, when the month has it. |
| Trend.DailySeries | app.js:206-214 | Both series are as long as the month. Each day holds the expense amounts, or the income savings, of the records drawn on it. |
| Trend.SeriesAccounts | app.js:209-214 | A series adds up to the total of the records drawn on some day. |
| Trend.Peak | app.js:217-218 | The peak is at least 0, no entry exceeds it, and it is 0 or one of the entries. |
| Trend.AxisCovers | app.js:216-220 | The top of the axis is at least 10, and no value of either series rises above it. |
| Trend.TicksClimb | app.js:241 | The five value ticks start at 0, end at the rounded top, and never decrease. |
| Trend.DayTicks | app.js:242 | The day ticks are distinct. They are exactly those of 0, 9, 19 and the last day that lie in the month. |
| Trend.DayTicksOfMonth | app.js:242 | For a real month the day ticks are 0, 9, 19 and the last day, in that order. |
| Text.Dedup | app.js:242 | Removing duplicates keeps each element once and loses none. |
| Forms.BuildTxn | app.js:60-68 | The id comes from the edit, and the date and type are copied. The note and category are the collapsed text cut to 80 and 40 characters. The amount is parsed. Savings are parsed for income only, with an empty field reading as 0. |
| Forms.FormShape | app.js:60-70 | The form passes the check exactly when the date is `YYYY-MM-DD`, the type is income or expense, and the amount parses. The savings must parse on income when given, and the category and note must not be blank. |
| Forms.Submit | app.js:58-80 | The reported check is that of the built record. A failing form leaves the store as it was, and budgets are never touched. |
| Forms.SubmitNew | app.js:70-77 | A new entry that passes is appended under the fresh id. |
| Forms.SubmitEdit | app.js:70-77 | An edit that passes keeps length and ids. It puts the record in when its id is stored and leaves every other record in place. |
| Forms.SubmitEditGone | app.js:77 | An edit of a record that was deleted meanwhile leaves the store unchanged. |
| Forms.SubmitKeepsShape | app.js:70-77 | Every stored record passes the shape check after a submit when all did before. |
| Forms.SubmitKeepsIds | app.js:77 | Ids stay distinct when the fresh id is new. |
| Forms.SaveBudget | app.js:89-94 | The month is the one shown, or today's. The stored value is non-negative and is what a read then returns. Records and other months are untouched. |
| Forms.SaveBudgetClamp | app.js:91-92 | The handler's own clamp is redundant: `setBudget` stores the same value from the bare parse. |
| Forms.SaveBudgetValue | app.js:91-92 | An empty box stores 0. A non-negative amount is stored as typed, and a negative or unreadable one stores 0. |
| Examples.EmptyIsZero | utils.js:12-16 | `parseMoney("")` and `parseMoney("abc")` are 0. |
| Examples.CommaAsPoint | utils.js:15 | `parseMoney("12,5")` is 12.5. |
| Examples.CommaAsThousands | utils.js:14 | `parseMoney("1,2.5")` is 12.5. |
| Examples.CommaDroppedAfterPoint | utils.js:14 | `parseMoney("1.2,5")` is 1.25. |
| Examples.ThreeGroups | utils.js:15-17 | `parseMoney("1,2,3")` is NaN. |
| Examples.SanitizeCutLeavesSpace | utils.js:21 | Cutting a sanitized text to 2 characters can leave a trailing space. |
| Examples.SanitizeTrimsEnd | utils.js:21 | A trailing space is trimmed before the cut. |
| Examples.NiceCeilExamples | utils.js:34-40 | `niceCeil` maps 7 to 10, 23 to 50, 100 to 100 and 120 to 200. |
| Examples.ShapeExamples | utils.js:23-32 | There is no calendar check: 2024-02-31 passes. A one-digit month fails on the date. Income with NaN savings fails on savings, and the first failing check names the error. |

## Left out

- The DOM, event wiring, table HTML, SVG coordinates and path strings, month labels and
  the theme (`applyTheme`, the `theme` getter and setter). They are presentation.
- `localStorage` `load`/`save` and the JSON fallback. The store is in-memory state, and
  persisting it is a side effect of the caller.
- `uid`, `todayISO` and `currentMonthStr` read randomness and the clock. `uid` is a
  parameter: `freshId` for one upsert, and a function from row number to id for an import.
  Today's month is a parameter of `Forms.SaveBudget`.
- `fmt` and `toFixed`, which format floating point for display.
- IEEE-754 arithmetic. Amounts are exact decimals and sums are exact, so overflow to
  `Infinity`, `Math.log10` rounding in `niceCeil` and float error in `0.8 * budget` are not
  modelled. `Math.round` is `floor(x + 1/2)`.
- `Number()` on exponents, `Infinity`, hex, octal and binary literals. The model reads
  these as NaN; `parseMoney` never produces them, but import's `Number()` can meet them.
- Storage.CoerceRejects: says nothing about fields with letters, because of that gap.
- `localeCompare` is plain code-point order on strings, and `toLowerCase` on header names
  is ASCII-only. JavaScript strings are UTF-16 code units, while Dafny strings are
  sequences of characters.
- Non-string arguments (`String(input ?? '')`), `-0`, a negative `max`, and records
  missing a field.
- Trend.MonthNumbers: requires a `YYYY-MM` month, the only form the month picker produces.
  Other text would make `split('-').map(Number)` give NaN dates.
- `async`/`await`, Blob download and file reading. Every operation runs to completion in
  order.
- `startEdit`, `resetForm`, the cancel button and the row delete button. They only copy
  fields between the form and a record, or call `deleteTxn`, which is modelled.
- `income - expenses`, the balance, is the difference of two modelled totals and has no
  member of its own.
- Numbers.Show: writes plain digits for every number. `String()` uses exponent notation
  below 1e-6 and from 1e21 on (`1e-7`, `1e+21`), so the exported text of such amounts
  differs from the model's, and the model's import does not read the exponent form back.
- Summary.Tally: `cats` is a plain object. A category named `__proto__` is never listed by
  `Object.keys`. The categories `constructor`, `toString`, `valueOf`, `hasOwnProperty`
  and the other `Object.prototype` names start from an inherited function, so their total
  becomes text and shows as NaN. The model treats every name as an ordinary key.
- Summary.SpendingCategory: the same reserved names; a spending category `__proto__` is
  listed by the model but never by the code.
- Summary.CategoryListShape: the same reserved names; the code's list leaves out
  `__proto__`, while the model's list holds every spending category.
- Summary.CategoriesAddUp: the same reserved names; the code's totals for them are not
  numbers, so they do not add up to the expense total.
- RoundTrip.ExportImportEmpty: holds only for records whose note and category have no
  surrounding whitespace. Import trims both, so a note the submit handler cut just after a
  space comes back without it (RoundTrip.FormNoteLost).
- RoundTrip.ExportImportSelf: the same restriction; a ledger holding such a note is
  changed by importing its own export.
- RoundTrip.ImportExport: the same restriction; exported records with an untrimmed note
  or category are merged in trimmed.
